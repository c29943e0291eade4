/**
 * The argument decoding of the two select commands: NonBlockingSelectQuery
 * turns a command object into a QUERY select request, SelectNotificationStatus
 * extracts the arguments it passes on to `FieldAccess.selectAndNotify`. Both
 * read the projection the same way.
 */
module SelectCommands {
  import opened Wrappers
  import opened Json
  import opened Protocol
  import SelectRequestPacket

  /**
   * The FIELDS argument as a projection: absent means null (an old-style
   * select), the ENTIRE_RECORD marker means the singleton list holding it,
   * anything else is read as an array of strings, in order.
   */
  function DecodeProjection(command: Object): (r: Result<Option<seq<string>>, JsonError>)
    ensures FIELDS !in command ==> r == Ok(None)
    ensures FIELDS in command && OptString(command, FIELDS) == Some(ENTIRE_RECORD) ==> r == Ok(Some([ENTIRE_RECORD]))
    ensures FIELDS in command && OptString(command, FIELDS) != Some(ENTIRE_RECORD) ==>
      (r.Ok? <==> command[FIELDS].JArr? && ArrayStrings(command[FIELDS].items).Some?)
    ensures r.Ok? && r.value.Some? && OptString(command, FIELDS) != Some(ENTIRE_RECORD) ==>
      command[FIELDS] == StringArray(r.value.value)
  {
    if FIELDS !in command then Ok(None)
    else if OptString(command, FIELDS) == Some(ENTIRE_RECORD) then Ok(Some([ENTIRE_RECORD]))
    else
      var items :- GetArray(command, FIELDS);
      match ArrayStrings(items)
      case Some(xs) => Ok(Some(xs))
      case None => Err(WrongType(FIELDS))
  }

  /** How a client passes a projection: nothing, the ENTIRE_RECORD marker, or an array of field names. */
  function ProjectionArgument(projection: Option<seq<string>>): (r: Object)
    ensures r.Keys <= {FIELDS}
  {
    match projection
    case None => map[]
    case Some(xs) =>
      if xs == [ENTIRE_RECORD] then map[FIELDS := JStr(ENTIRE_RECORD)]
      else map[FIELDS := StringArray(xs)]
  }

  /** Every projection a client can pass is decoded back to itself. */
  lemma ProjectionRoundTrip(projection: Option<seq<string>>, rest: Object)
    requires FIELDS !in rest
    ensures DecodeProjection(rest + ProjectionArgument(projection)) == Ok(projection)
  {
    var command := rest + ProjectionArgument(projection);
    if projection.Some? && projection.value != [ENTIRE_RECORD] {
      var xs := projection.value;
      ArrayStringsRoundTrip(xs);
      assert Render(command[FIELDS])[0] == '[';
    }
  }

  /**
   * `NonBlockingSelectQuery.getSelectRequestPacket`: the reader is optional,
   * the query required; a query flagged as evil gives null; otherwise a
   * QUERY request with id -1 carrying the decoded projection.
   */
  function GetSelectRequestPacket(command: Object, queryContainsEvil: string -> bool): (r: Result<Option<SelectRequestPacket.Request>, JsonError>)
    ensures QUERY !in command ==> r.Err?
    ensures r.Ok? ==> command[QUERY].JStr?
    ensures r.Ok? ==> (r.value.None? <==> queryContainsEvil(command[QUERY].s))
    ensures r.Ok? && r.value.Some? ==>
      var p := r.value.value;
      p.requestId == -1 && p.operation == SelectRequestPacket.QUERY &&
      p.reader == OptString(command, GUID) && p.query == Some(command[QUERY].s) &&
      Ok(p.projection) == DecodeProjection(command) &&
      p.key.None? && p.value.None? && p.otherValue.None? && p.notificationStr.None? && p.nsReturnAddress.None? &&
      p.ccpQueryId == -1 && p.nsQueryId == -1
    ensures QUERY in command && command[QUERY].JStr? && queryContainsEvil(command[QUERY].s) ==> r == Ok(None)
  {
    var reader := OptString(command, GUID);
    var query :- GetString(command, QUERY);
    if queryContainsEvil(query) then Ok(None)
    else
      var projection :- DecodeProjection(command);
      Ok(Some(SelectRequestPacket.Request(-1, reader, None, None, None, Some(query), projection, -1, -1, SelectRequestPacket.QUERY, None, None)))
  }

  /** What SelectNotificationStatus passes on to `selectAndNotify`. */
  datatype SelectAndNotifyArgs = SelectAndNotifyArgs(
    reader: Option<string>,
    query: string,
    fields: Option<seq<string>>,
    signature: Option<string>,
    message: Option<string>,
    notificationStr: string)

  /**
   * `SelectNotificationStatus.execute` up to the delegated call: reader,
   * signature and message are optional, query and notification string
   * are required.
   */
  function ExecuteArguments(command: Object): (r: Result<SelectAndNotifyArgs, JsonError>)
    ensures QUERY !in command || SELECT_NOTIFICATION !in command ==> r.Err?
    ensures r.Ok? ==> r.value.reader == OptString(command, GUID)
    ensures r.Ok? ==> r.value.signature == OptString(command, SIGNATURE) && r.value.message == OptString(command, SIGNATUREFULLMESSAGE)
    ensures r.Ok? ==> command[QUERY] == JStr(r.value.query) && command[SELECT_NOTIFICATION] == JStr(r.value.notificationStr)
    ensures r.Ok? ==> Ok(r.value.fields) == DecodeProjection(command)
  {
    var reader := OptString(command, GUID);
    var query :- GetString(command, QUERY);
    var notificationStr :- GetString(command, SELECT_NOTIFICATION);
    var signature := OptString(command, SIGNATURE);
    var message := OptString(command, SIGNATUREFULLMESSAGE);
    var fields :- DecodeProjection(command);
    Ok(SelectAndNotifyArgs(reader, query, fields, signature, message, notificationStr))
  }

  /** The arguments that are passed as fields of the command, and how they read back. */
  function BaseCommand(args: SelectAndNotifyArgs): (r: Object)
    ensures FIELDS !in r
    ensures QUERY in r && r[QUERY] == JStr(args.query)
    ensures SELECT_NOTIFICATION in r && r[SELECT_NOTIFICATION] == JStr(args.notificationStr)
  {
    (if args.reader.Some? then map[GUID := JStr(args.reader.value)] else map[])
    + (if args.signature.Some? then map[SIGNATURE := JStr(args.signature.value)] else map[])
    + (if args.message.Some? then map[SIGNATUREFULLMESSAGE := JStr(args.message.value)] else map[])
    + map[QUERY := JStr(args.query), SELECT_NOTIFICATION := JStr(args.notificationStr)]
  }

  /** The command a client sends for these arguments. */
  function NotificationStatusCommand(args: SelectAndNotifyArgs): Object
  {
    BaseCommand(args) + ProjectionArgument(args.fields)
  }

  /** The optional arguments read back as given. */
  lemma OptionalArgumentsRead(args: SelectAndNotifyArgs)
    ensures var command := NotificationStatusCommand(args);
      && OptString(command, GUID) == args.reader
      && OptString(command, SIGNATURE) == args.signature
      && OptString(command, SIGNATUREFULLMESSAGE) == args.message
  {
    var command := NotificationStatusCommand(args);
    assert OptString(command, GUID) == args.reader;
    assert OptString(command, SIGNATURE) == args.signature;
  }

  /** The arguments of any such command are passed on unchanged. */
  lemma ExecuteRoundTrip(args: SelectAndNotifyArgs)
    ensures ExecuteArguments(NotificationStatusCommand(args)) == Ok(args)
  {
    ProjectionRoundTrip(args.fields, BaseCommand(args));
    OptionalArgumentsRead(args);
  }
}
