/**
 * SelectRequestPacket: a select request as it travels between the entry
 * point and the name servers. Its fields are set by the constructors and
 * factories and changed by setters; `addToJSONObject` writes them into a
 * JSON object and the JSON constructor reads them back.
 */
module SelectRequestPacket {
  import opened Wrappers
  import Text
  import opened Json

  /** SelectOperation, with `name()` and `valueOf`. */
  datatype SelectOperation =
    | EQUALS | NEAR | WITHIN | QUERY | SELECT_NOTIFY | NOTIFICATION_STATUS | NOTIFICATION_STATUS_REPLY

  function OperationName(op: SelectOperation): string
  {
    match op
    case EQUALS => "EQUALS"
    case NEAR => "NEAR"
    case WITHIN => "WITHIN"
    case QUERY => "QUERY"
    case SELECT_NOTIFY => "SELECT_NOTIFY"
    case NOTIFICATION_STATUS => "NOTIFICATION_STATUS"
    case NOTIFICATION_STATUS_REPLY => "NOTIFICATION_STATUS_REPLY"
  }

  /** `SelectOperation.valueOf(s)`; `None` stands for IllegalArgumentException. */
  function OperationValueOf(s: string): (r: Option<SelectOperation>)
    ensures r.Some? ==> OperationName(r.value) == s
  {
    if s == "EQUALS" then Some(EQUALS)
    else if s == "NEAR" then Some(NEAR)
    else if s == "WITHIN" then Some(WITHIN)
    else if s == "QUERY" then Some(QUERY)
    else if s == "SELECT_NOTIFY" then Some(SELECT_NOTIFY)
    else if s == "NOTIFICATION_STATUS" then Some(NOTIFICATION_STATUS)
    else if s == "NOTIFICATION_STATUS_REPLY" then Some(NOTIFICATION_STATUS_REPLY)
    else None
  }

  /** Every operation's name is read back as that operation. */
  lemma OperationNameRoundTrip(op: SelectOperation)
    ensures OperationValueOf(OperationName(op)) == Some(op)
  {
  }

  const ID := "id"
  const KEY := "key"
  const READER := "reader"
  const VALUE := "value"
  const OTHERVALUE := "otherValue"
  const QUERY_KEY := "query"
  const PROJECTION := "projection"
  const CCPQUERYID := "ccpQueryId"
  const NSQUERYID := "nsQueryId"
  const SELECT_OPERATION := "operation"
  const NOTIFICATION_STR := "notifcationMesg"

  /**
   * The packet-type entry that `Packet.putPacketType` writes and
   * `Packet.getPacketType` reads. Packet is not part of this model: the key
   * and the SELECT_REQUEST code are stand-ins for its constants.
   */
  const TYPE := "type"
  const SELECT_REQUEST_TYPE := 3

  /**
   * The entry of the name server's return address, which the superclass
   * BasicPacketWithNSReturnAddress writes when the address is set and reads
   * back when present. That class is not part of this model: the key is a
   * stand-in and the address is kept as the text written under it.
   */
  const NS_RETURN_ADDRESS := "nsReturnAddress"

  /** The packet's fields; `None` is Java's null. */
  datatype Request = Request(
    requestId: int,
    reader: Option<string>,
    key: Option<string>,
    value: Option<Value>,
    otherValue: Option<Value>,
    query: Option<string>,
    projection: Option<seq<string>>,
    ccpQueryId: int,
    nsQueryId: int,
    operation: SelectOperation,
    notificationStr: Option<string>,
    nsReturnAddress: Option<string>)

  /** Why the JSON constructor throws. */
  datatype DecodeError =
    | WrongPacketType                 // JSONException "wrong packet type"
    | JsonFailure(error: JsonError)   // JSONException from a getter
    | UnknownOperation(name: string)  // IllegalArgumentException from valueOf

  function Lift<T>(r: Result<T, JsonError>): (l: Result<T, DecodeError>)
    ensures l.Ok? <==> r.Ok?
    ensures l.Ok? ==> l.value == r.value
  {
    match r
    case Ok(v) => Ok(v)
    case Err(e) => Err(JsonFailure(e))
  }

  /** Every key the packet writes. */
  const KEYS: set<string> := {TYPE, ID, READER, KEY, VALUE, OTHERVALUE, QUERY_KEY, PROJECTION,
                              CCPQUERYID, NSQUERYID, SELECT_OPERATION, NOTIFICATION_STR,
                              NS_RETURN_ADDRESS}

  /**
   * Whether `addToJSONObject` writes key `k` for `c`: the type, id, both
   * query ids and the operation always, every other field (the return
   * address of the superclass among them) only when it is not null.
   */
  predicate Present(c: Request, k: string)
  {
    k == TYPE || k == ID || k == CCPQUERYID || k == NSQUERYID || k == SELECT_OPERATION
    || (k == READER && c.reader.Some?)
    || (k == KEY && c.key.Some?)
    || (k == VALUE && c.value.Some?)
    || (k == OTHERVALUE && c.otherValue.Some?)
    || (k == QUERY_KEY && c.query.Some?)
    || (k == PROJECTION && c.projection.Some?)
    || (k == NOTIFICATION_STR && c.notificationStr.Some?)
    || (k == NS_RETURN_ADDRESS && c.nsReturnAddress.Some?)
  }

  /** The value `put` stores under a written key. */
  function Entry(c: Request, k: string): Value
    requires Present(c, k)
  {
    if k == TYPE then JNum(SELECT_REQUEST_TYPE)
    else if k == ID then JNum(c.requestId)
    else if k == CCPQUERYID then JNum(c.ccpQueryId)
    else if k == NSQUERYID then JNum(c.nsQueryId)
    else if k == SELECT_OPERATION then JStr(OperationName(c.operation))
    else if k == READER then JStr(c.reader.value)
    else if k == KEY then JStr(c.key.value)
    else if k == VALUE then c.value.value
    else if k == OTHERVALUE then c.otherValue.value
    else if k == QUERY_KEY then JStr(c.query.value)
    else if k == PROJECTION then StringArray(c.projection.value)
    else if k == NOTIFICATION_STR then JStr(c.notificationStr.value)
    else JStr(c.nsReturnAddress.value)
  }

  /** The entries `addToJSONObject` writes for `c`. */
  function Written(c: Request): (r: Object)
    ensures {TYPE, ID, CCPQUERYID, NSQUERYID, SELECT_OPERATION} <= r.Keys
    ensures READER in r <==> c.reader.Some?
    ensures KEY in r <==> c.key.Some?
    ensures VALUE in r <==> c.value.Some?
    ensures OTHERVALUE in r <==> c.otherValue.Some?
    ensures QUERY_KEY in r <==> c.query.Some?
    ensures PROJECTION in r <==> c.projection.Some?
    ensures NOTIFICATION_STR in r <==> c.notificationStr.Some?
    ensures NS_RETURN_ADDRESS in r <==> c.nsReturnAddress.Some?
    ensures r.Keys <= KEYS
  {
    map k | k in KEYS && Present(c, k) :: Entry(c, k)
  }

  /** `json.has(k) ? json.getString(k) : null`. */
  function StringIfPresent(o: Object, k: string): (r: Result<Option<string>, DecodeError>)
    ensures r.Ok? && r.value.None? <==> k !in o
    ensures r.Ok? && r.value.Some? ==> o[k] == JStr(r.value.value)
  {
    if k !in o then Ok(None)
    else
      var s :- Lift(GetString(o, k));
      Ok(Some(s))
  }

  /** `json.has(k) ? JSONArrayToArrayListString(json.getJSONArray(k)) : null`, each element read as a string. */
  function ArrayIfPresent(o: Object, k: string): (r: Result<Option<seq<string>>, DecodeError>)
    ensures r.Ok? && r.value.None? <==> k !in o
  {
    if k !in o then Ok(None)
    else
      var items :- Lift(GetArray(o, k));
      match ArrayStrings(items)
      case Some(xs) => Ok(Some(xs))
      case None => Err(JsonFailure(WrongType(k)))
  }

  /** `optString` of an Object-valued field: the stored value becomes its string form. */
  function OptValue(o: Object, k: string): (r: Option<Value>)
    ensures r.None? <==> k !in o || o[k] == JNull
    ensures r.Some? ==> r.value.JStr?
  {
    match OptString(o, k)
    case Some(s) => Some(JStr(s))
    case None => None
  }

  /**
   * The JSON constructor: `super(json)` reads the return address first,
   * then the packet type is checked and the fields are read.
   */
  function Decode(o: Object): (r: Result<Request, DecodeError>)
    ensures StringIfPresent(o, NS_RETURN_ADDRESS).Err? ==> r.Err?
    ensures StringIfPresent(o, NS_RETURN_ADDRESS).Ok? && (TYPE !in o || o[TYPE] != JNum(SELECT_REQUEST_TYPE)) ==>
      r == Err(WrongPacketType)
    ensures ID !in o || CCPQUERYID !in o || NSQUERYID !in o || SELECT_OPERATION !in o ==> r.Err?
    ensures r.Ok? ==> Text.LONG_MIN <= r.value.requestId <= Text.LONG_MAX
    ensures r.Ok? ==> Text.INT_MIN <= r.value.ccpQueryId <= Text.INT_MAX
    ensures r.Ok? ==> Text.INT_MIN <= r.value.nsQueryId <= Text.INT_MAX
    ensures r.Ok? ==> (r.value.reader.None? <==> READER !in o) && (r.value.key.None? <==> KEY !in o)
    ensures r.Ok? ==> (r.value.projection.None? <==> PROJECTION !in o)
    ensures r.Ok? ==> r.value.query == OptString(o, QUERY_KEY) && r.value.notificationStr == OptString(o, NOTIFICATION_STR)
    ensures r.Ok? ==> (r.value.nsReturnAddress.None? <==> NS_RETURN_ADDRESS !in o)
  {
    var nsReturnAddress :- StringIfPresent(o, NS_RETURN_ADDRESS);
    if TYPE !in o || o[TYPE] != JNum(SELECT_REQUEST_TYPE) then Err(WrongPacketType)
    else
      var requestId :- Lift(GetLong(o, ID));
      var reader :- StringIfPresent(o, READER);
      var key :- StringIfPresent(o, KEY);
      var projection :- ArrayIfPresent(o, PROJECTION);
      var ccpQueryId :- Lift(GetInt(o, CCPQUERYID));
      var nsQueryId :- Lift(GetInt(o, NSQUERYID));
      var opName :- Lift(GetString(o, SELECT_OPERATION));
      match OperationValueOf(opName)
      case None => Err(UnknownOperation(opName))
      case Some(op) =>
        Ok(Request(requestId, reader, key, OptValue(o, VALUE), OptValue(o, OTHERVALUE),
                   OptString(o, QUERY_KEY), projection, ccpQueryId, nsQueryId, op,
                   OptString(o, NOTIFICATION_STR), nsReturnAddress))
  }

  /** The ranges the Java field types impose, and Object values that are strings (or null). */
  predicate Representable(c: Request)
  {
    Text.LONG_MIN <= c.requestId <= Text.LONG_MAX &&
    Text.INT_MIN <= c.ccpQueryId <= Text.INT_MAX &&
    Text.INT_MIN <= c.nsQueryId <= Text.INT_MAX &&
    (c.value.Some? ==> c.value.value.JStr?) &&
    (c.otherValue.Some? ==> c.otherValue.value.JStr?)
  }

  /**
   * Parsing what `addToJSONObject` writes gives every field back, whatever
   * else the object holds under other keys.
   */
  lemma RoundTrip(c: Request, json: Object)
    requires Representable(c)
    requires json.Keys !! KEYS
    ensures Decode(json + Written(c)) == Ok(c)
  {
    RequiredFieldsRead(c, json);
    OptionalFieldsRead(c, json);
  }

  /** The entries that are always written are read back by their getters. */
  lemma RequiredFieldsRead(c: Request, json: Object)
    requires Representable(c)
    requires json.Keys !! KEYS
    ensures var o := json + Written(c);
      o[TYPE] == JNum(SELECT_REQUEST_TYPE) &&
      GetLong(o, ID) == Ok(c.requestId) &&
      GetInt(o, CCPQUERYID) == Ok(c.ccpQueryId) &&
      GetInt(o, NSQUERYID) == Ok(c.nsQueryId) &&
      GetString(o, SELECT_OPERATION) == Ok(OperationName(c.operation)) &&
      OperationValueOf(OperationName(c.operation)) == Some(c.operation)
  {
    OperationNameRoundTrip(c.operation);
  }

  /** The entries written only when not null are read back as the same optional values. */
  lemma OptionalFieldsRead(c: Request, json: Object)
    requires Representable(c)
    requires json.Keys !! KEYS
    ensures var o := json + Written(c);
      StringIfPresent(o, READER) == Ok(c.reader) &&
      StringIfPresent(o, KEY) == Ok(c.key) &&
      ArrayIfPresent(o, PROJECTION) == Ok(c.projection) &&
      OptValue(o, VALUE) == c.value &&
      OptValue(o, OTHERVALUE) == c.otherValue &&
      OptString(o, QUERY_KEY) == c.query &&
      OptString(o, NOTIFICATION_STR) == c.notificationStr &&
      StringIfPresent(o, NS_RETURN_ADDRESS) == Ok(c.nsReturnAddress)
  {
    var o := json + Written(c);
    if c.projection.Some? {
      ArrayStringsRoundTrip(c.projection.value);
    }
  }

  /**
   * An Object value that is not a string comes back as its string form: a
   * numeric `value` is read back as the decimal text of the number.
   */
  lemma NumericValueBecomesString(c: Request, n: int)
    requires Representable(c.(value := None)) && c.value == Some(JNum(n))
    ensures Decode(Written(c)).Ok?
    ensures Decode(Written(c)).value.value == Some(JStr(Text.IntToString(n)))
  {
    var o := Written(c);
    if c.projection.Some? {
      ArrayStringsRoundTrip(c.projection.value);
    }
    OperationNameRoundTrip(c.operation);
    assert StringIfPresent(o, NS_RETURN_ADDRESS) == Ok(c.nsReturnAddress);
    assert GetLong(o, ID) == Ok(c.requestId);
    assert StringIfPresent(o, READER) == Ok(c.reader) && StringIfPresent(o, KEY) == Ok(c.key);
    assert ArrayIfPresent(o, PROJECTION) == Ok(c.projection);
    assert GetInt(o, CCPQUERYID) == Ok(c.ccpQueryId) && GetInt(o, NSQUERYID) == Ok(c.nsQueryId);
    assert GetString(o, SELECT_OPERATION) == Ok(OperationName(c.operation));
    assert OptValue(o, VALUE) == Some(JStr(Text.IntToString(n)));
  }

  /** A packet object: its fields change in place through the setters. */
  class SelectRequestPacket {
    var requestId: int
    var reader: Option<string>
    var key: Option<string>
    var value: Option<Value>
    var otherValue: Option<Value>
    var query: Option<string>
    var projection: Option<seq<string>>
    var ccpQueryId: int
    var nsQueryId: int
    var operation: SelectOperation
    var notificationStr: Option<string>
    /** The superclass's return address; null until it is set. */
    var nsReturnAddress: Option<string>

    function Contents(): Request
      reads this
    {
      Request(requestId, reader, key, value, otherValue, query, projection,
              ccpQueryId, nsQueryId, operation, notificationStr, nsReturnAddress)
    }

    /** The constructor for EQUALS/NEAR/WITHIN: no query, no projection, both query ids -1. */
    constructor (id: int, operation: SelectOperation, reader: Option<string>, key: Option<string>,
                 value: Option<Value>, otherValue: Option<Value>)
      ensures Contents() == Request(id, reader, key, value, otherValue, None, None, -1, -1, operation, None, None)
    {
      requestId := id;
      this.reader := reader;
      this.key := key;
      this.value := value;
      this.otherValue := otherValue;
      this.operation := operation;
      query := None;
      projection := None;
      ccpQueryId := -1;
      nsQueryId := -1;
      notificationStr := None;
      nsReturnAddress := None;
    }

    /** The private constructor for query requests: key, value and otherValue are null. */
    constructor ForQuery(id: int, operation: SelectOperation, reader: Option<string>, query: Option<string>,
                         projection: Option<seq<string>>, notificationStr: Option<string>)
      ensures Contents() == Request(id, reader, None, None, None, query, projection, -1, -1, operation, notificationStr, None)
    {
      requestId := id;
      this.reader := reader;
      this.query := query;
      this.projection := projection;
      this.operation := operation;
      key := None;
      value := None;
      otherValue := None;
      this.notificationStr := notificationStr;
      ccpQueryId := -1;
      nsQueryId := -1;
      nsReturnAddress := None;
    }

    /** `makeQueryRequest`: a QUERY request without notification. */
    static method MakeQueryRequest(id: int, reader: Option<string>, query: Option<string>, projection: Option<seq<string>>)
      returns (p: SelectRequestPacket)
      ensures fresh(p)
      ensures p.Contents() == Request(id, reader, None, None, None, query, projection, -1, -1, QUERY, None, None)
    {
      p := new SelectRequestPacket.ForQuery(id, QUERY, reader, query, projection, None);
    }

    /** `makeSelectNotifyRequest`: a SELECT_NOTIFY request carrying the notification string. */
    static method MakeSelectNotifyRequest(id: int, reader: Option<string>, query: Option<string>,
                                          projection: Option<seq<string>>, notificationStr: Option<string>)
      returns (p: SelectRequestPacket)
      ensures fresh(p)
      ensures p.Contents() == Request(id, reader, None, None, None, query, projection, -1, -1, SELECT_NOTIFY, notificationStr, None)
    {
      p := new SelectRequestPacket.ForQuery(id, SELECT_NOTIFY, reader, query, projection, notificationStr);
    }

    /** The JSON constructor: a new packet holding the decoded fields, or the exception it throws. */
    static method FromJson(json: Object) returns (r: Result<SelectRequestPacket, DecodeError>)
      ensures r.Ok? <==> Decode(json).Ok?
      ensures r.Err? ==> r.error == Decode(json).error
      ensures r.Ok? ==> fresh(r.value) && r.value.Contents() == Decode(json).value
    {
      var d := Decode(json);
      if d.Err? {
        return Err(d.error);
      }
      var c := d.value;
      var p := new SelectRequestPacket.ForQuery(c.requestId, c.operation, c.reader, c.query, c.projection, c.notificationStr);
      p.key := c.key;
      p.value := c.value;
      p.otherValue := c.otherValue;
      p.ccpQueryId := c.ccpQueryId;
      p.nsQueryId := c.nsQueryId;
      p.nsReturnAddress := c.nsReturnAddress;
      return Ok(p);
    }

    /**
     * `addToJSONObject(json)`: the caller's object with this packet's
     * entries written over it; the caller's other entries are kept.
     */
    function AddToJSONObject(json: Object): (r: Object)
      reads this
      ensures r.Keys == json.Keys + Written(Contents()).Keys
      ensures forall k :: k in json && k !in Written(Contents()) ==> r[k] == json[k]
      ensures Representable(Contents()) && json.Keys !! KEYS ==> Decode(r) == Ok(Contents())
    {
      if Representable(Contents()) && json.Keys !! KEYS then
        RoundTrip(Contents(), json);
        json + Written(Contents())
      else
        json + Written(Contents())
    }

    /** `toJSONObject`: `addToJSONObject` on a new, empty object. */
    function ToJSONObject(): (r: Object)
      reads this
      ensures r == Written(Contents())
    {
      AddToJSONObject(map[])
    }

    method SetCCPQueryId(id: int)
      modifies this
      ensures Contents() == old(Contents()).(ccpQueryId := id)
    {
      ccpQueryId := id;
    }

    /** `setNSReturnAddress`, inherited from the superclass. */
    method SetNSReturnAddress(address: string)
      modifies this
      ensures Contents() == old(Contents()).(nsReturnAddress := Some(address))
    {
      nsReturnAddress := Some(address);
    }

    method SetNsQueryId(id: int)
      modifies this
      ensures Contents() == old(Contents()).(nsQueryId := id)
    {
      nsQueryId := id;
    }

    method SetRequestId(id: int)
      modifies this
      ensures Contents() == old(Contents()).(requestId := id)
    {
      requestId := id;
    }

    method SetQuery(q: Option<string>)
      modifies this
      ensures Contents() == old(Contents()).(query := q)
    {
      query := q;
    }

    method SetProjection(p: Option<seq<string>>)
      modifies this
      ensures Contents() == old(Contents()).(projection := p)
    {
      projection := p;
    }

    /** `getServiceName`: every select request is tagged with the same name, whatever its fields. */
    function GetServiceName(): (r: string)
      ensures |r| > 0
    {
      "SelectRequest"
    }
  }
}
