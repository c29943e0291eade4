/**
 * FieldAccess: the string predicates on field names, the read check that
 * composes the ACL result with the stale-command test, the shaping of the
 * responses of `lookupSingleField` and `lookupOne`, and the fallback of the
 * select commands. The database, the ACL check (NSAuthentication) and the
 * remote query are given as their outcomes; the clock is a parameter.
 */
module FieldAccess {
  import opened Wrappers
  import opened Json
  import opened Protocol
  import opened GnsResponseCode
  import Text
  import SelectRequestPacket

  type SelectOperation = SelectRequestPacket.SelectOperation

  // ---------------------------------------------------------------------
  // Field names

  /** `isKeyDotNotation`: `field.indexOf('.') != -1`. */
  predicate IsKeyDotNotation(field: string)
  {
    Text.IndexOf(field, '.') != -1
  }

  /** `isKeyAllFieldsOrTopLevel`: the all-fields marker, or a name without dots. */
  predicate IsKeyAllFieldsOrTopLevel(field: string)
  {
    field == ALL_FIELDS || !IsKeyDotNotation(field)
  }

  /** A field name uses dot notation exactly when it contains a dot. */
  lemma DotNotationIffDot(field: string)
    ensures IsKeyDotNotation(field) <==> '.' in field
    ensures IsKeyDotNotation(field) <==> exists i :: 0 <= i < |field| && field[i] == '.'
  {
    if '.' in field {
      var i := Text.IndexOf(field, '.');
      assert field[i] == '.';
    }
  }

  /**
   * The all-fields marker has no dot, so a name is "all fields or top
   * level" exactly when it has no dot: the marker adds nothing.
   */
  lemma AllFieldsOrTopLevelIffNoDot(field: string)
    ensures IsKeyAllFieldsOrTopLevel(field) <==> '.' !in field
    ensures IsKeyAllFieldsOrTopLevel(field) <==> !IsKeyDotNotation(field)
  {
    DotNotationIffDot(field);
    if field == ALL_FIELDS {
      DotNotationIffDot(ALL_FIELDS);
      assert forall i :: 0 <= i < |ALL_FIELDS| ==> ALL_FIELDS[i] != '.';
    }
  }

  // ---------------------------------------------------------------------
  // The read check

  /** `OLD_COMMAND_TIME`: commands older than this many minutes are stale. */
  const OLD_COMMAND_TIME: int := -30
  const MILLIS_PER_MINUTE: int := 60000

  /** What NSAuthentication.signatureAndACLCheck does: a code, or one of the crypto or DB exceptions. */
  datatype AclOutcome = AclResult(code: ResponseCode) | AclThrew

  /** The ACL check runs only for a known reader reading a field or a list of fields. */
  predicate ChecksAcl(field: Option<string>, fields: Option<seq<string>>, reader: Option<string>)
  {
    reader.Some? && (field.Some? || fields.Some?)
  }

  /** `timestamp.before(now + OLD_COMMAND_TIME minutes)`, times in milliseconds. */
  predicate IsStale(timestamp: Option<int>, now: int)
  {
    timestamp.Some? && timestamp.value < now + OLD_COMMAND_TIME * MILLIS_PER_MINUTE
  }

  /**
   * `signatureAndACLCheckForRead`: NO_ERROR unless the ACL check ran and
   * failed; a stale timestamp overrides that with STALE_COMMAND_VALUE; an
   * exception inside the check yields SIGNATURE_ERROR and skips the
   * timestamp test.
   */
  function SignatureAndACLCheckForRead(field: Option<string>, fields: Option<seq<string>>, reader: Option<string>,
                                       timestamp: Option<int>, now: int, acl: AclOutcome): (r: ResponseCode)
    ensures ChecksAcl(field, fields, reader) && acl.AclThrew? ==> r == SIGNATURE_ERROR
    ensures !(ChecksAcl(field, fields, reader) && acl.AclThrew?) && IsStale(timestamp, now) ==> r == STALE_COMMAND_VALUE
    ensures !ChecksAcl(field, fields, reader) && !IsStale(timestamp, now) ==> r == NO_ERROR
    ensures ChecksAcl(field, fields, reader) && acl.AclResult? && !IsStale(timestamp, now) ==> r == acl.code
  {
    var checks := reader.Some? && (field.Some? || fields.Some?);
    if checks && acl.AclThrew? then SIGNATURE_ERROR
    else
      var errorCode := if checks then acl.code else NO_ERROR;
      if timestamp.Some? && timestamp.value < now + OLD_COMMAND_TIME * MILLIS_PER_MINUTE then STALE_COMMAND_VALUE
      else errorCode
  }

  /** Without a reader, or without anything to read, the ACL is never consulted. */
  lemma AclIgnoredWhenNotChecked(field: Option<string>, fields: Option<seq<string>>, reader: Option<string>,
                                 timestamp: Option<int>, now: int, acl1: AclOutcome, acl2: AclOutcome)
    requires !ChecksAcl(field, fields, reader)
    ensures SignatureAndACLCheckForRead(field, fields, reader, timestamp, now, acl1)
         == SignatureAndACLCheckForRead(field, fields, reader, timestamp, now, acl2)
    ensures !IsError(SignatureAndACLCheckForRead(field, fields, reader, timestamp, now, acl1)) <==> !IsStale(timestamp, now)
  {
  }

  /** A command is stale exactly when it was issued more than 30 minutes before now. */
  lemma StaleIffOlderThanThirtyMinutes(t: int, now: int)
    ensures IsStale(Some(t), now) <==> now - t > 1800000
  {
  }

  // ---------------------------------------------------------------------
  // Command responses

  /**
   * CommandResponse (not part of this model): the text returned to the
   * client and, when the two-argument constructor is used, the code.
   */
  datatype CommandResponse = CommandResponse(returnValue: string, errorCode: Option<ResponseCode>)

  /** An exception the modelled code does not catch. */
  datatype Crash = NullPointer | ClassCast

  /** What `NSFieldAccess.lookupJSONFieldLocalNoAuth` gives: a failed database read, or the values map (possibly null). */
  datatype FieldLookup = DbFailed | Values(valuesMap: Option<Object>)

  /** `ValuesMap.removeInternalFields`: the map without the internal fields. */
  function RemoveInternalFields(m: Object, isInternalField: string -> bool): (r: Object)
    ensures r.Keys == set k | k in m && !isInternalField(k)
    ensures forall k :: k in r ==> r[k] == m[k]
  {
    map k | k in m && !isInternalField(k) :: m[k]
  }

  /** The response for a failed read check: BAD_RESPONSE and the code's protocol token. */
  function CheckFailed(errorCode: ResponseCode): string
  {
    BAD_RESPONSE + " " + ProtocolCode(errorCode)
  }

  /**
   * The part of `lookupSingleField` after the check, for a map that is
   * there: internal fields are hidden from a known reader; a missing or
   * non-string field is a JSON error.
   */
  function FieldValue(valuesMap: Object, field: string, reader: Option<string>,
                      isInternalField: string -> bool, exceptionText: string): string
  {
    var visible := if reader.Some? then RemoveInternalFields(valuesMap, isInternalField) else valuesMap;
    match GetString(visible, field)
    case Ok(s) => s
    case Err(_) => BAD_RESPONSE + " " + JSON_PARSE_ERROR + " " + exceptionText
  }

  /**
   * `lookupSingleField` as its authors evidently meant it: a failed check
   * answers BAD_RESPONSE with the code (and carries the code); a failed
   * database read answers UNSPECIFIED_ERROR; a missing values map answers
   * ""; otherwise the field's string. `exceptionText` is the exception's
   * `toString()`.
   */
  function LookupSingleField(field: string, reader: Option<string>, timestamp: Option<int>, now: int,
                             acl: AclOutcome, lookup: FieldLookup,
                             isInternalField: string -> bool, exceptionText: string): (r: CommandResponse)
    ensures var code := SignatureAndACLCheckForRead(Some(field), None, reader, timestamp, now, acl);
      (IsError(code) ==> r == CommandResponse(BAD_RESPONSE + " " + ProtocolCode(code), Some(code))) &&
      (!IsError(code) ==> r.errorCode.None?) &&
      (!IsError(code) && lookup == DbFailed ==> r.returnValue == BAD_RESPONSE + " " + UNSPECIFIED_ERROR + " " + exceptionText) &&
      (!IsError(code) && lookup == Values(None) ==> r.returnValue == "") &&
      ((!IsError(code) && lookup.Values? && lookup.valuesMap.Some? &&
        field in lookup.valuesMap.value && lookup.valuesMap.value[field].JStr? &&
        (reader.None? || !isInternalField(field))) ==> r.returnValue == lookup.valuesMap.value[field].s) &&
      (!IsError(code) && lookup.Values? && lookup.valuesMap.Some? && reader.Some? && isInternalField(field) ==>
        r.returnValue == BAD_RESPONSE + " " + JSON_PARSE_ERROR + " " + exceptionText)
  {
    var errorCode := SignatureAndACLCheckForRead(Some(field), None, reader, timestamp, now, acl);
    if IsError(errorCode) then CommandResponse(CheckFailed(errorCode), Some(errorCode))
    else
      match lookup
      case DbFailed =>
        CommandResponse(BAD_RESPONSE + " " + UNSPECIFIED_ERROR + " " + exceptionText, None)
      case Values(None) => CommandResponse("", None)
      case Values(Some(valuesMap)) => CommandResponse(FieldValue(valuesMap, field, reader, isInternalField, exceptionText), None)
  }

  /**
   * `lookupSingleField` as written: for a known reader the values map is
   * stripped of internal fields before it is checked for null, so a missing
   * map throws NullPointerException instead of answering "".
   */
  function LookupSingleFieldAsWritten(field: string, reader: Option<string>, timestamp: Option<int>, now: int,
                                      acl: AclOutcome, lookup: FieldLookup,
                                      isInternalField: string -> bool, exceptionText: string): (r: Result<CommandResponse, Crash>)
    ensures r.Err? <==>
      !IsError(SignatureAndACLCheckForRead(Some(field), None, reader, timestamp, now, acl)) &&
      lookup == Values(None) && reader.Some?
    ensures r.Ok? ==> r.value == LookupSingleField(field, reader, timestamp, now, acl, lookup, isInternalField, exceptionText)
  {
    var errorCode := SignatureAndACLCheckForRead(Some(field), None, reader, timestamp, now, acl);
    if IsError(errorCode) then Ok(CommandResponse(CheckFailed(errorCode), Some(errorCode)))
    else
      match lookup
      case DbFailed => Ok(CommandResponse(BAD_RESPONSE + " " + UNSPECIFIED_ERROR + " " + exceptionText, None))
      case Values(None) => if reader.Some? then Err(NullPointer) else Ok(CommandResponse("", None))
      case Values(Some(valuesMap)) => Ok(CommandResponse(FieldValue(valuesMap, field, reader, isInternalField, exceptionText), None))
  }

  /**
   * The discrepancy: a signed read of a guid whose record is missing
   * passes the check and then crashes, where an unsigned read of the same
   * guid answers "".
   */
  lemma MissingRecordCrashesSignedRead(field: string, reader: string, now: int,
                                       isInternalField: string -> bool, exceptionText: string)
    ensures LookupSingleFieldAsWritten(field, Some(reader), None, now, AclResult(NO_ERROR), Values(None), isInternalField, exceptionText)
         == Err(NullPointer)
    ensures LookupSingleFieldAsWritten(field, None, None, now, AclResult(NO_ERROR), Values(None), isInternalField, exceptionText)
         == Ok(CommandResponse("", None))
    ensures LookupSingleField(field, Some(reader), None, now, AclResult(NO_ERROR), Values(None), isInternalField, exceptionText).returnValue
         == ""
  {
  }

  /** What `lookupListFieldLocallyNoAuth` returns: the field's list of values, empty when absent. */
  type ResultValue = seq<Value>

  /**
   * `lookupOne`: a failed check answers BAD_RESPONSE with the code (without
   * carrying it), an empty value BAD_RESPONSE FIELD_NOT_FOUND; otherwise the
   * first element, printed when it is a number and cast when it is a string
   * (any other element fails the cast).
   */
  function LookupOne(field: string, reader: Option<string>, timestamp: Option<int>, now: int,
                     acl: AclOutcome, value: ResultValue): (r: Result<CommandResponse, Crash>)
    ensures var code := SignatureAndACLCheckForRead(Some(field), None, reader, timestamp, now, acl);
      (IsError(code) ==> r == Ok(CommandResponse(BAD_RESPONSE + " " + ProtocolCode(code), None))) &&
      (!IsError(code) && |value| == 0 ==> r == Ok(CommandResponse(BAD_RESPONSE + " " + FIELD_NOT_FOUND, None))) &&
      (r.Err? <==> !IsError(code) && |value| > 0 && !value[0].JNum? && !value[0].JStr?) &&
      (!IsError(code) && |value| > 0 && value[0].JStr? ==> r == Ok(CommandResponse(value[0].s, None)))
    ensures r.Ok? ==> r.value.errorCode.None?
  {
    var errorCode := SignatureAndACLCheckForRead(Some(field), None, reader, timestamp, now, acl);
    if IsError(errorCode) then Ok(CommandResponse(CheckFailed(errorCode), None))
    else if |value| == 0 then Ok(CommandResponse(BAD_RESPONSE + " " + FIELD_NOT_FOUND, None))
    else
      match value[0]
      case JNum(n) => Ok(CommandResponse(Text.IntToString(n), None))
      case JStr(s) => Ok(CommandResponse(s, None))
      case _ => Err(ClassCast)
  }

  /** A numeric first value is answered as its decimal text, which a client parses back to the number. */
  lemma LookupOneNumberRoundTrip(field: string, reader: Option<string>, timestamp: Option<int>, now: int,
                                 acl: AclOutcome, n: int, rest: ResultValue)
    requires !IsError(SignatureAndACLCheckForRead(Some(field), None, reader, timestamp, now, acl))
    requires Text.LONG_MIN <= n <= Text.LONG_MAX
    ensures var r := LookupOne(field, reader, timestamp, now, acl, [JNum(n)] + rest);
      r.Ok? && Text.ParseLong(r.value.returnValue) == Some(n)
  {
    Text.ParseLongRoundTrip(n);
  }

  // ---------------------------------------------------------------------
  // Select commands

  /** `new JSONArray().toString()`. */
  const EMPTY_JSON_ARRAY_STRING: string := Render(JArr([]))

  /** What the remote query gives: an exception (ClientException or IOException), or a result that may be null. */
  datatype RemoteReply = RemoteThrew | RemoteAnswered(result: Option<seq<Value>>)

  /** The result's text when there is one; otherwise the empty array's text. */
  function SelectReply(reply: RemoteReply): (r: CommandResponse)
    ensures r.errorCode.None?
    ensures !(reply.RemoteAnswered? && reply.result.Some?) ==> r.returnValue == "[]"
    ensures reply.RemoteAnswered? && reply.result.Some? ==> r.returnValue == Render(JArr(reply.result.value))
  {
    match reply
    case RemoteAnswered(Some(result)) => CommandResponse(Render(JArr(result)), None)
    case _ => CommandResponse(EMPTY_JSON_ARRAY_STRING, None)
  }

  /** A failed select cannot be told apart from one that matched nothing. */
  lemma FailedSelectLooksEmpty()
    ensures SelectReply(RemoteThrew) == SelectReply(RemoteAnswered(None)) == SelectReply(RemoteAnswered(Some([])))
  {
  }

  /** `select`: an EQUALS query on `key`. */
  function Select(key: string, value: Value,
                  sendSelect: (SelectOperation, string, Value, Option<string>) -> RemoteReply): (r: CommandResponse)
  {
    SelectReply(sendSelect(SelectRequestPacket.EQUALS, key, value, None))
  }

  /** `selectWithin`: a WITHIN query with the bounding box as the value. */
  function SelectWithin(key: string, value: string,
                        sendSelect: (SelectOperation, string, Value, Option<string>) -> RemoteReply): (r: CommandResponse)
  {
    SelectReply(sendSelect(SelectRequestPacket.WITHIN, key, JStr(value), None))
  }

  /** `selectNear`: a NEAR query carrying the maximum distance. */
  function SelectNear(key: string, value: string, maxDistance: string,
                      sendSelect: (SelectOperation, string, Value, Option<string>) -> RemoteReply): (r: CommandResponse)
  {
    SelectReply(sendSelect(SelectRequestPacket.NEAR, key, JStr(value), Some(maxDistance)))
  }

  /** `selectQuery`: the query string as it is. */
  function SelectQuery(query: string, sendSelectQuery: string -> RemoteReply): (r: CommandResponse)
  {
    SelectReply(sendSelectQuery(query))
  }

  /**
   * Each select command sends its own kind of query, answers "[]" when that
   * query throws or returns null, and otherwise answers the result's text:
   * a JSON array in every case, and never an error code.
   */
  lemma SelectsAnswerAnArray(key: string, value: Value, text: string, maxDistance: string, query: string,
                             sendSelect: (SelectOperation, string, Value, Option<string>) -> RemoteReply,
                             sendSelectQuery: string -> RemoteReply)
    ensures var replies := [sendSelect(SelectRequestPacket.EQUALS, key, value, None),
                            sendSelect(SelectRequestPacket.WITHIN, key, JStr(text), None),
                            sendSelect(SelectRequestPacket.NEAR, key, JStr(text), Some(maxDistance)),
                            sendSelectQuery(query)];
      var rs := [Select(key, value, sendSelect), SelectWithin(key, text, sendSelect),
                 SelectNear(key, text, maxDistance, sendSelect), SelectQuery(query, sendSelectQuery)];
      forall i :: 0 <= i < 4 ==>
        rs[i].errorCode.None? && |rs[i].returnValue| >= 2 &&
        rs[i].returnValue[0] == '[' && rs[i].returnValue[|rs[i].returnValue| - 1] == ']' &&
        (!(replies[i].RemoteAnswered? && replies[i].result.Some?) ==> rs[i].returnValue == "[]") &&
        (replies[i].RemoteAnswered? && replies[i].result.Some? ==> rs[i].returnValue == Render(JArr(replies[i].result.value)))
  {
  }
}
