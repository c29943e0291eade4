/**
 * SelectHandleInfo: the pair (handle id, name server address) that
 * identifies a select-notify handle, and its JSON form, where the address
 * travels as one "ip:port" string.
 */
module SelectHandleInfo {
  import opened Wrappers
  import Text
  import opened Json
  import opened NodePartitioning

  const HANDLE_ID := "HANDLE_ID"
  const SERVER_ADDRESS := "SERVER_ADDRESS"

  datatype HandleInfo = HandleInfo(handleId: int, serverAddress: Address)

  /** What `fromJSONObject` throws. */
  datatype DecodeError =
    | JsonFailure(error: JsonError)   // JSONException from getLong/getString
    | IndexOutOfBounds                // `ipPort[1]` when the address has no second field
    | NumberFormat                    // Integer.parseInt on a port that is not a number
    | IllegalArgument                 // InetSocketAddress with a port outside 0..65535

  /** `toJSONObject`: the handle id and the address as `host + ":" + port`, nothing else. */
  function ToJson(h: HandleInfo): (r: Object)
    ensures r.Keys == {HANDLE_ID, SERVER_ADDRESS}
    ensures r[SERVER_ADDRESS].JStr? && r[HANDLE_ID].JNum?
  {
    map[HANDLE_ID := JNum(h.handleId), SERVER_ADDRESS := JStr(AddressString(h.serverAddress))]
  }

  /** `fromJSONObject`: the handle with `getLong`, then the address split at ':' into host and port. */
  function FromJson(o: Object): (r: Result<HandleInfo, DecodeError>)
    ensures HANDLE_ID !in o || SERVER_ADDRESS !in o ==> r.Err? && r.error.JsonFailure?
    ensures r.Ok? ==> Text.LONG_MIN <= r.value.handleId <= Text.LONG_MAX
    ensures r.Ok? ==> ':' !in r.value.serverAddress.host && 0 <= r.value.serverAddress.port <= 65535
  {
    match GetLong(o, HANDLE_ID)
    case Err(e) => Err(JsonFailure(e))
    case Ok(handle) =>
      match GetString(o, SERVER_ADDRESS)
      case Err(e) => Err(JsonFailure(e))
      case Ok(address) =>
        var ipPort := Text.Split(address, ':');
        if |ipPort| < 2 then Err(IndexOutOfBounds)
        else match Text.ParseInt(ipPort[1])
          case None => Err(NumberFormat)
          case Some(port) =>
            if 0 <= port <= 65535 then Ok(HandleInfo(handle, Address(ipPort[0], port)))
            else Err(IllegalArgument)
  }

  /** For an IPv4-literal host, a valid port and a handle that fits a long, parsing the JSON form gives the handle back. */
  lemma RoundTrip(h: HandleInfo)
    requires WellFormed(h.serverAddress)
    requires Text.LONG_MIN <= h.handleId <= Text.LONG_MAX
    ensures FromJson(ToJson(h)) == Ok(h)
  {
    var a := h.serverAddress;
    var digits := Text.IntToString(a.port);
    assert Text.AllDigits(digits);
    assert ':' !in digits by {
      forall i | 0 <= i < |digits| ensures digits[i] != ':' {
        assert Text.IsDigit(digits[i]);
      }
    }
    Text.SplitPair(a.host, digits, ':');
    Text.ParseIntRoundTrip(a.port);
  }

  /** An address without ':' has no port field: `ipPort[1]` is out of bounds. */
  lemma NoColonFails(o: Object, address: string)
    requires HANDLE_ID in o && o[HANDLE_ID].JNum?
    requires SERVER_ADDRESS in o && o[SERVER_ADDRESS] == JStr(address) && ':' !in address
    ensures FromJson(o) == Err(IndexOutOfBounds)
  {
  }

  /** A port field holding a character other than a sign or a digit raises NumberFormatException. */
  lemma NonNumericPortFails(o: Object, host: string, port: string, i: int)
    requires HANDLE_ID in o && o[HANDLE_ID].JNum?
    requires SERVER_ADDRESS in o && o[SERVER_ADDRESS] == JStr(host + ":" + port)
    requires ':' !in host && ':' !in port
    requires 0 < i < |port| && !Text.IsDigit(port[i])
    ensures FromJson(o) == Err(NumberFormat)
  {
    Text.SplitPair(host, port, ':');
    Text.ParseRejectsForeign(port, Text.INT_MIN, Text.INT_MAX, i);
  }
}
