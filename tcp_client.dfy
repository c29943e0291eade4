/**
 * The client's side of the command protocol (NewBasicUniversalTcpClient):
 * turning a response string into a value or the exception its error code
 * names, building a command object from alternating keys and values, and
 * the bookkeeping of request ids, returned results and the read timeout.
 * Sending and waiting are given as their outcome.
 */
module TcpClient {
  import opened Wrappers
  import opened Json
  import opened Protocol
  import opened GnsResponseCode
  import Text
  import FieldAccess

  // ---------------------------------------------------------------------
  // checkResponse

  /** The exceptions `checkResponse` throws, each with its message. */
  datatype GnsError =
    | InvalidBadResponse(message: string)   // GnsException: fewer than two tokens
    | EncryptionError                       // EncryptionException, no message
    | InvalidGuid(message: string)
    | InvalidField(message: string)
    | FieldNotFound(message: string)
    | InvalidUser(message: string)
    | InvalidGroup(message: string)
    | AclDenied(message: string)
    | DuplicateName(message: string)
    | VerificationFailed(message: string)
    | General(message: string)              // GnsException: any other code

  /** Every token prefixed by one space, in order: what the loop over tokens 2.. appends. */
  function SpacePrefixed(tokens: seq<string>): string
  {
    if |tokens| == 0 then "" else " " + tokens[0] + SpacePrefixed(tokens[1..])
  }

  lemma {:induction false} SpacePrefixedSnoc(tokens: seq<string>, t: string)
    ensures SpacePrefixed(tokens + [t]) == SpacePrefixed(tokens) + " " + t
  {
    if |tokens| > 0 {
      assert (tokens + [t])[1..] == tokens[1..] + [t];
      SpacePrefixedSnoc(tokens[1..], t);
    } else {
      assert tokens + [t] == [t];
    }
  }

  /** A token followed by the space-prefixed rest is the tokens joined by spaces. */
  lemma {:induction false} JoinIsSpacePrefixed(first: string, tokens: seq<string>)
    ensures Text.Join([first] + tokens, ' ') == first + SpacePrefixed(tokens)
    decreases |tokens|
  {
    if |tokens| > 0 {
      assert ([first] + tokens)[1..] == tokens;
      JoinIsSpacePrefixed(tokens[0], tokens[1..]);
      assert [tokens[0]] + tokens[1..] == tokens;
    } else {
      assert [first] + tokens == [first];
    }
  }

  /**
   * The exception for an error code and the rest of the response: codes
   * are matched as prefixes in a fixed order, the first group that matches
   * wins, and anything else is a general failure.
   */
  function Classify(error: string, rest: string): (r: GnsError)
    ensures !r.InvalidBadResponse?
    ensures r.EncryptionError? <==> BAD_SIGNATURE <= error
    ensures r.General? ==> r.message == "General command failure: " + error + rest
    ensures !r.General? && !r.EncryptionError? ==> r.message == error + rest
  {
    var message := error + rest;
    if BAD_SIGNATURE <= error then EncryptionError
    else if BAD_GUID <= error || BAD_ACCESSOR_GUID <= error || DUPLICATE_GUID <= error || BAD_ACCOUNT <= error then
      InvalidGuid(message)
    else if DUPLICATE_FIELD <= error then InvalidField(message)
    else if BAD_FIELD <= error || FIELD_NOT_FOUND <= error then FieldNotFound(message)
    else if BAD_USER <= error || DUPLICATE_USER <= error then InvalidUser(message)
    else if BAD_GROUP <= error || DUPLICATE_GROUP <= error then InvalidGroup(message)
    else if ACCESS_DENIED <= error then AclDenied(message)
    else if DUPLICATE_NAME <= error then DuplicateName(message)
    else if VERIFICATION_ERROR <= error then VerificationFailed(message)
    else General("General command failure: " + message)
  }

  /**
   * A response code that starts with one of the protocol's error codes
   * raises the exception meant for that code (its message is the code and
   * the rest, by the contract of `Classify`): no test made earlier
   * captures a later code.
   */
  lemma ClassifySignatureAndGuidCodes(error: string, rest: string)
    ensures BAD_SIGNATURE <= error ==> Classify(error, rest).EncryptionError?
    ensures BAD_GUID <= error ==> Classify(error, rest).InvalidGuid?
    ensures BAD_ACCESSOR_GUID <= error ==> Classify(error, rest).InvalidGuid?
    ensures DUPLICATE_GUID <= error ==> Classify(error, rest).InvalidGuid?
    ensures BAD_ACCOUNT <= error ==> Classify(error, rest).InvalidGuid?
  {
    if BAD_GUID <= error {
      assert error[4] == BAD_GUID[4];
    }
    if BAD_ACCESSOR_GUID <= error {
      assert error[4] == BAD_ACCESSOR_GUID[4];
    }
    if DUPLICATE_GUID <= error {
      assert error[1] == DUPLICATE_GUID[1];
    }
    if BAD_ACCOUNT <= error {
      assert error[4] == BAD_ACCOUNT[4];
    }
  }

  /** The same for the field codes. */
  lemma ClassifyFieldCodes(error: string, rest: string)
    ensures DUPLICATE_FIELD <= error ==> Classify(error, rest).InvalidField?
    ensures BAD_FIELD <= error ==> Classify(error, rest).FieldNotFound?
    ensures FIELD_NOT_FOUND <= error ==> Classify(error, rest).FieldNotFound?
  {
    if DUPLICATE_FIELD <= error {
      assert error[1] == DUPLICATE_FIELD[1] && error[10] == DUPLICATE_FIELD[10];
    }
    if BAD_FIELD <= error {
      assert error[1] == BAD_FIELD[1] && error[4] == BAD_FIELD[4];
    }
    if FIELD_NOT_FOUND <= error {
      assert error[1] == FIELD_NOT_FOUND[1];
    }
  }

  /** The same for the user codes. */
  lemma ClassifyUserCodes(error: string, rest: string)
    ensures BAD_USER <= error ==> Classify(error, rest).InvalidUser?
    ensures DUPLICATE_USER <= error ==> Classify(error, rest).InvalidUser?
  {
    if BAD_USER <= error {
      assert error[1] == BAD_USER[1] && error[4] == BAD_USER[4];
    }
    if DUPLICATE_USER <= error {
      assert error[1] == DUPLICATE_USER[1] && error[10] == DUPLICATE_USER[10];
    }
  }

  /** The same for the group codes. */
  lemma ClassifyGroupCodes(error: string, rest: string)
    ensures BAD_GROUP <= error ==> Classify(error, rest).InvalidGroup?
    ensures DUPLICATE_GROUP <= error ==> Classify(error, rest).InvalidGroup?
  {
    if BAD_GROUP <= error {
      assert error[1] == BAD_GROUP[1] && error[4] == BAD_GROUP[4] && error[5] == BAD_GROUP[5];
    }
    if DUPLICATE_GROUP <= error {
      assert error[1] == DUPLICATE_GROUP[1] && error[10] == DUPLICATE_GROUP[10] && error[11] == DUPLICATE_GROUP[11];
    }
  }

  /** The same for the access and name codes. */
  lemma ClassifyAccessAndNameCodes(error: string, rest: string)
    ensures ACCESS_DENIED <= error ==> Classify(error, rest).AclDenied?
    ensures DUPLICATE_NAME <= error ==> Classify(error, rest).DuplicateName?
  {
    if ACCESS_DENIED <= error {
      assert error[1] == ACCESS_DENIED[1];
    }
    if DUPLICATE_NAME <= error {
      assert error[1] == DUPLICATE_NAME[1] && error[10] == DUPLICATE_NAME[10];
    }
  }

  /** The same for the last code tested. */
  lemma ClassifyVerificationCode(error: string, rest: string)
    ensures VERIFICATION_ERROR <= error ==> Classify(error, rest).VerificationFailed?
  {
    if VERIFICATION_ERROR <= error {
      assert error[1] == VERIFICATION_ERROR[1];
    }
  }

  /**
   * A code whose second character is not that of any code tested (every
   * code is a '+' and a word) is a general failure, a stale command among them.
   */
  lemma UnknownCodeIsGeneral(error: string, rest: string)
    requires |error| >= 2 && error[1] !in {'B', 'D', 'F', 'A', 'V'}
    ensures Classify(error, rest) == General("General command failure: " + (error + rest))
  {
  }

  /**
   * What `checkResponse` gives for a response: a bad response is an
   * exception (named by its second token, with the later tokens as the
   * rest of the message); otherwise null for a null response and the
   * response itself for anything else.
   */
  function ResponseOutcome(command: Object, response: string): (r: Result<Option<string>, GnsError>)
    ensures r.Ok? <==> !(BAD_RESPONSE <= response)
    ensures r == Ok(None) <==> !(BAD_RESPONSE <= response) && NULL_RESPONSE <= response
    ensures r.Ok? && r.value.Some? ==> r.value.value == response
    ensures r.Err? && r.error.InvalidBadResponse? <==> BAD_RESPONSE <= response && |Text.Split(response, ' ')| < 2
  {
    if BAD_RESPONSE <= response then
      var results := Text.Split(response, ' ');
      if |results| < 2 then
        Err(InvalidBadResponse("Invalid bad response indicator: " + response + " Command: " + Render(JObj(command))))
      else
        Err(Classify(results[1], SpacePrefixed(results[2..])))
    else if NULL_RESPONSE <= response then Ok(None)
    else Ok(Some(response))
  }

  /** `checkResponse`, with its loop over the tokens after the error code. */
  method CheckResponse(command: Object, response: string) returns (r: Result<Option<string>, GnsError>)
    ensures r == ResponseOutcome(command, response)
  {
    if BAD_RESPONSE <= response {
      var results := Text.Split(response, ' ');
      if |results| < 2 {
        return Err(InvalidBadResponse("Invalid bad response indicator: " + response + " Command: " + Render(JObj(command))));
      }
      var error := results[1];
      var parts := "";
      var i := 2;
      while i < |results|
        invariant 2 <= i <= |results|
        invariant parts == SpacePrefixed(results[2..i])
      {
        SpacePrefixedSnoc(results[2..i], results[i]);
        assert results[2..i + 1] == results[2..i] + [results[i]];
        parts := parts + " " + results[i];
        i := i + 1;
      }
      assert results[2..i] == results[2..];
      return Err(Classify(error, parts));
    }
    if NULL_RESPONSE <= response {
      return Ok(None);
    }
    return Ok(Some(response));
  }

  /** A bad response without a space carries no error code. */
  lemma BareBadResponse(command: Object)
    ensures ResponseOutcome(command, BAD_RESPONSE).Err?
    ensures ResponseOutcome(command, BAD_RESPONSE).error.InvalidBadResponse?
  {
    assert ' ' !in BAD_RESPONSE;
  }

  /** A bad response written as the marker, a code and further words is those tokens joined by spaces. */
  lemma BadResponseJoin(code: string, words: seq<string>)
    ensures Text.Join([BAD_RESPONSE, code] + words, ' ') == BAD_RESPONSE + " " + (code + SpacePrefixed(words))
  {
    var parts := [BAD_RESPONSE, code] + words;
    assert parts[1..] == [code] + words;
    JoinIsSpacePrefixed(code, words);
  }

  /** The tokens of a bad response written as the marker, a code and further words. */
  lemma BadResponseTokens(code: string, words: seq<string>)
    requires code != "" && ' ' !in code
    requires forall i :: 0 <= i < |words| ==> ' ' !in words[i]
    requires |words| > 0 ==> words[|words| - 1] != ""
    ensures Text.Split(BAD_RESPONSE + " " + (code + SpacePrefixed(words)), ' ') == [BAD_RESPONSE, code] + words
  {
    var parts := [BAD_RESPONSE, code] + words;
    BadResponsePartsSplittable(code, words);
    Text.SplitJoin(parts, ' ');
    BadResponseJoin(code, words);
  }

  /** The tokens of such a response hold no space and the last is not empty. */
  lemma BadResponsePartsSplittable(code: string, words: seq<string>)
    requires code != "" && ' ' !in code
    requires forall i :: 0 <= i < |words| ==> ' ' !in words[i]
    requires |words| > 0 ==> words[|words| - 1] != ""
    ensures var parts := [BAD_RESPONSE, code] + words;
      |parts| >= 2 && parts[|parts| - 1] != "" && forall i :: 0 <= i < |parts| ==> ' ' !in parts[i]
  {
    var parts := [BAD_RESPONSE, code] + words;
    assert ' ' !in BAD_RESPONSE;
    forall i | 0 <= i < |parts| ensures ' ' !in parts[i] {
      if i >= 2 {
        assert parts[i] == words[i - 2];
      }
    }
    if |words| > 0 {
      assert parts[|parts| - 1] == words[|words| - 1];
    }
  }

  /**
   * A bad response written as the marker, a code and further words, each
   * separated by one space, raises the code's exception, and its message
   * is the response without its marker: nothing is lost or reordered.
   */
  lemma BadResponseRoundTrip(command: Object, code: string, words: seq<string>)
    requires code != "" && ' ' !in code
    requires forall i :: 0 <= i < |words| ==> ' ' !in words[i]
    requires |words| > 0 ==> words[|words| - 1] != ""
    ensures var response := BAD_RESPONSE + " " + (code + SpacePrefixed(words));
      ResponseOutcome(command, response) == Err(Classify(code, SpacePrefixed(words))) &&
      code + SpacePrefixed(words) == response[|BAD_RESPONSE| + 1..]
  {
    var head, message := BAD_RESPONSE + " ", code + SpacePrefixed(words);
    var response := head + message;
    assert response[|BAD_RESPONSE| + 1..] == message by {
      assert |head| == |BAD_RESPONSE| + 1;
    }
    assert BAD_RESPONSE <= response;
    var results := Text.Split(response, ' ');
    assert results[1] == code && results[2..] == words by {
      BadResponseTokens(code, words);
      assert ([BAD_RESPONSE, code] + words)[2..] == words;
    }
  }

  /**
   * A read refused by FieldAccess reaches the client as the exception its
   * code names: a signature failure as EncryptionException, a stale
   * command as a general failure naming the code.
   */
  lemma FailedReadReachesClient(command: Object, code: ResponseCode)
    requires ProtocolCode(code) != "" && ' ' !in ProtocolCode(code)
    ensures ResponseOutcome(command, FieldAccess.CheckFailed(code)) == Err(Classify(ProtocolCode(code), ""))
    ensures code == SIGNATURE_ERROR ==> ResponseOutcome(command, FieldAccess.CheckFailed(code)) == Err(EncryptionError)
    ensures code == STALE_COMMAND_VALUE ==>
      ResponseOutcome(command, FieldAccess.CheckFailed(code)) == Err(General("General command failure: " + STALE_COMMAND))
  {
    var c, response := ProtocolCode(code), FieldAccess.CheckFailed(code);
    assert ResponseOutcome(command, response) == Err(Classify(c, "")) by {
      BadResponseRoundTrip(command, c, []);
      assert c + SpacePrefixed([]) == c;
    }
    if code == SIGNATURE_ERROR {
      ClassifySignatureAndGuidCodes(c, "");
    }
    if code == STALE_COMMAND_VALUE {
      assert Classify(c, "") == General("General command failure: " + STALE_COMMAND) by {
        UnknownCodeIsGeneral(c, "");
        assert c + "" == c;
      }
    }
  }

  // ---------------------------------------------------------------------
  // createCommand

  /** An element of the `Object...` arguments: `None` is Java's null. */
  type Arg = Option<Value>

  /** Why building a command fails: a non-string key, a key without a value, a null key. */
  datatype CreateError = KeyNotString | MissingValue | NullKey

  /**
   * The loop of `createCommand` from argument `i` on: the key is cast
   * first, the value read next, then `put` refuses a null key and removes
   * the key for a null value.
   */
  function PutPairs(obj: Object, keysAndValues: seq<Arg>, i: nat): Result<Object, CreateError>
    decreases |keysAndValues| - i
  {
    if i >= |keysAndValues| then Ok(obj)
    else if keysAndValues[i].Some? && !keysAndValues[i].value.JStr? then Err(KeyNotString)
    else if i + 1 >= |keysAndValues| then Err(MissingValue)
    else if keysAndValues[i].None? then Err(NullKey)
    else
      var key := keysAndValues[i].value.s;
      var next := match keysAndValues[i + 1]
        case None => obj - {key}
        case Some(v) => obj[key := v];
      PutPairs(next, keysAndValues, i + 2)
  }

  /** The command object: the action under COMMANDNAME, then the pairs in order. */
  function Command(action: string, keysAndValues: seq<Arg>): Result<Object, CreateError>
  {
    PutPairs(map[COMMANDNAME := JStr(action)], keysAndValues, 0)
  }

  /** `createCommand`. */
  method CreateCommand(action: string, keysAndValues: seq<Arg>) returns (r: Result<Object, CreateError>)
    ensures r == Command(action, keysAndValues)
  {
    var result: Object := map[COMMANDNAME := JStr(action)];
    var i := 0;
    while i < |keysAndValues|
      invariant PutPairs(result, keysAndValues, i) == Command(action, keysAndValues)
      decreases |keysAndValues| - i
    {
      if keysAndValues[i].Some? && !keysAndValues[i].value.JStr? {
        return Err(KeyNotString);
      }
      if i + 1 >= |keysAndValues| {
        return Err(MissingValue);
      }
      if keysAndValues[i].None? {
        return Err(NullKey);
      }
      var key := keysAndValues[i].value.s;
      match keysAndValues[i + 1] {
        case None => result := result - {key};
        case Some(v) => result := result[key := v];
      }
      i := i + 2;
    }
    return Ok(result);
  }

  /** Keys and values alternate, from pair `p` on, and every key is a string. */
  predicate PairsFrom(keysAndValues: seq<Arg>, p: nat)
    decreases |keysAndValues| - 2 * p
  {
    if 2 * p >= |keysAndValues| then 2 * p == |keysAndValues|
    else
      && 2 * p + 1 < |keysAndValues|
      && keysAndValues[2 * p].Some? && keysAndValues[2 * p].value.JStr?
      && PairsFrom(keysAndValues, p + 1)
  }

  /** The last pair at or after pair `p` whose key is `k`, or -1. */
  function LastPairFrom(keysAndValues: seq<Arg>, k: string, p: nat): (q: int)
    ensures q == -1 || (p <= q && 2 * q + 1 < |keysAndValues| && keysAndValues[2 * q] == Some(JStr(k)))
    ensures q == -1 ==> forall j :: p <= j && 2 * j + 1 < |keysAndValues| ==> keysAndValues[2 * j] != Some(JStr(k))
    decreases |keysAndValues| - 2 * p
  {
    if 2 * p + 1 >= |keysAndValues| then -1
    else
      var later := LastPairFrom(keysAndValues, k, p + 1);
      if later >= 0 then later
      else if keysAndValues[2 * p] == Some(JStr(k)) then p
      else -1
  }

  /** What a key holds once pairs `p..` are put into `obj`: the last pair for it wins. */
  lemma {:induction false} PutPairsLastWins(obj: Object, keysAndValues: seq<Arg>, p: nat, k: string)
    requires PairsFrom(keysAndValues, p)
    ensures PutPairs(obj, keysAndValues, 2 * p).Ok?
    ensures var m := PutPairs(obj, keysAndValues, 2 * p).value;
      var q := LastPairFrom(keysAndValues, k, p);
      (q >= 0 && keysAndValues[2 * q + 1].None? ==> k !in m) &&
      (q >= 0 && keysAndValues[2 * q + 1].Some? ==> k in m && m[k] == keysAndValues[2 * q + 1].value) &&
      (q < 0 ==> (k in m <==> k in obj) && (k in obj ==> m[k] == obj[k]))
    decreases |keysAndValues| - 2 * p
  {
    if 2 * p < |keysAndValues| {
      assert keysAndValues[2 * p].Some? && keysAndValues[2 * p].value.JStr?;
      var key := keysAndValues[2 * p].value.s;
      var next := match keysAndValues[2 * p + 1]
        case None => obj - {key}
        case Some(v) => obj[key := v];
      assert PutPairs(obj, keysAndValues, 2 * p) == PutPairs(next, keysAndValues, 2 * (p + 1));
      PutPairsLastWins(next, keysAndValues, p + 1, k);
    }
  }

  /** Pairs that break the pattern make the whole command fail. */
  lemma {:induction false} PutPairsFails(obj: Object, keysAndValues: seq<Arg>, p: nat)
    requires 2 * p <= |keysAndValues| && !PairsFrom(keysAndValues, p)
    ensures PutPairs(obj, keysAndValues, 2 * p).Err?
    decreases |keysAndValues| - 2 * p
  {
    if keysAndValues[2 * p].Some? && keysAndValues[2 * p].value.JStr? && 2 * p + 1 < |keysAndValues| {
      var key := keysAndValues[2 * p].value.s;
      var next := match keysAndValues[2 * p + 1]
        case None => obj - {key}
        case Some(v) => obj[key := v];
      assert PutPairs(obj, keysAndValues, 2 * p) == PutPairs(next, keysAndValues, 2 * (p + 1));
      PutPairsFails(next, keysAndValues, p + 1);
    }
  }

  /**
   * `createCommand` succeeds exactly when keys and values alternate and
   * every key is a string; the command then holds the action under
   * COMMANDNAME unless a pair overrides it, and every key named in a pair
   * holds the value of its last pair (a null value removes it).
   */
  lemma CommandContents(action: string, keysAndValues: seq<Arg>, k: string)
    ensures Command(action, keysAndValues).Ok? <==> PairsFrom(keysAndValues, 0)
    ensures Command(action, keysAndValues).Ok? ==>
      var m := Command(action, keysAndValues).value;
      var q := LastPairFrom(keysAndValues, k, 0);
      (q >= 0 && keysAndValues[2 * q + 1].None? ==> k !in m) &&
      (q >= 0 && keysAndValues[2 * q + 1].Some? ==> k in m && m[k] == keysAndValues[2 * q + 1].value) &&
      (q < 0 ==> (k in m <==> k == COMMANDNAME) && (k == COMMANDNAME ==> m[k] == JStr(action)))
  {
    if PairsFrom(keysAndValues, 0) {
      PutPairsLastWins(map[COMMANDNAME := JStr(action)], keysAndValues, 0, k);
    } else {
      PutPairsFails(map[COMMANDNAME := JStr(action)], keysAndValues, 0);
    }
  }

  // ---------------------------------------------------------------------
  // Request ids, returned results and the read timeout

  /** A CommandValueReturnPacket as parsed: the request it answers, its code and its text. */
  datatype ReturnPacket = ReturnPacket(clientRequestId: int, errorCode: ResponseCode, returnValue: string)

  /** What `resultMap` keeps for a request. */
  datatype CommandResult = CommandResult(packet: ReturnPacket, receivedTime: int, latency: int)

  /** An exception the modelled methods do not catch. */
  datatype Crash = NullPointer

  /** What `sendCommandAndWait` does: an IOException with its message, or the response. */
  datatype SendOutcome = SendFailed(message: string) | Sent(response: string)

  /** The read timeout a new client starts with, in milliseconds. */
  const DEFAULT_READ_TIMEOUT: int := 15000
  /** The read timeout in force while connectivity is checked. */
  const CONNECTIVITY_TIMEOUT: int := 7000

  /**
   * The outcome of the connectivity probe: fine when the response starts
   * with OK_RESPONSE; otherwise an IOException carrying the second token
   * of a two-token response, or the whole response.
   */
  function Connectivity(outcome: SendOutcome): (r: Result<(), string>)
    ensures outcome.Sent? ==> (r.Ok? <==> OK_RESPONSE <= outcome.response)
    ensures outcome.SendFailed? ==> r == Err(outcome.message)
  {
    match outcome
    case SendFailed(message) => Err(message)
    case Sent(commandResult) =>
      if OK_RESPONSE <= commandResult then Ok(())
      else
        var results := Text.Split(commandResult, ' ');
        Err(if |results| == 2 then results[1] else commandResult)
  }

  /** A refusal of the form "BAD_RESPONSE code" is reported as the code alone. */
  lemma ConnectivityReportsCode(code: string)
    requires code != "" && ' ' !in code
    ensures Connectivity(Sent(BAD_RESPONSE + " " + code)) == Err(code)
  {
    Text.SplitPair(BAD_RESPONSE, code, ' ');
    assert BAD_RESPONSE + " " + code == BAD_RESPONSE + [' '] + code;
    assert !(OK_RESPONSE <= BAD_RESPONSE + " " + code) by {
      assert (BAD_RESPONSE + " " + code)[1] != OK_RESPONSE[1];
    }
  }

  class Client {
    var readTimeout: int
    var resultMap: map<int, CommandResult>
    var queryTimeStamp: map<int, int>
    var pendingAsynchPackets: map<int, Object>
    var totalAsynchErrors: int

    constructor ()
      ensures readTimeout == DEFAULT_READ_TIMEOUT
      ensures resultMap == map[] && queryTimeStamp == map[] && pendingAsynchPackets == map[]
      ensures totalAsynchErrors == 0
    {
      readTimeout := DEFAULT_READ_TIMEOUT;
      resultMap := map[];
      queryTimeStamp := map[];
      pendingAsynchPackets := map[];
      totalAsynchErrors := 0;
    }

    /**
     * `generateNextRequestID` as written: some int that is not the id of a
     * stored result. The loop draws until it finds one, which needs a free
     * int.
     */
    method GenerateNextRequestID() returns (id: int)
      requires exists free :: DrawAccepted(resultMap, free)
      ensures DrawAccepted(resultMap, id)
    {
      id :| DrawAccepted(resultMap, id);
    }

    /**
     * The id generator as intended: an int used neither by a stored result
     * nor by a request still waiting for its reply.
     */
    method GenerateNextRequestIDAvoidingPending() returns (id: int)
      requires exists free :: DrawAccepted(resultMap, free) && free !in queryTimeStamp
      ensures DrawAccepted(resultMap, id) && id !in queryTimeStamp
    {
      id :| DrawAccepted(resultMap, id) && id !in queryTimeStamp;
    }

    /**
     * `handleCommandValueReturnPacket`: without a recorded send time the
     * unboxing of the missing time throws and nothing changes; otherwise
     * the result is stored under its id with its latency, and an
     * asynchronous request is crossed off, counting it when it failed.
     * The result says whether waiting threads were woken.
     */
    method HandleCommandValueReturnPacket(packet: ReturnPacket, receivedTime: int) returns (r: Result<bool, Crash>)
      modifies this
      ensures var id := packet.clientRequestId;
        id !in old(queryTimeStamp) ==>
          r == Err(NullPointer) &&
          resultMap == old(resultMap) && queryTimeStamp == old(queryTimeStamp) &&
          pendingAsynchPackets == old(pendingAsynchPackets) && totalAsynchErrors == old(totalAsynchErrors)
      ensures var id := packet.clientRequestId;
        id in old(queryTimeStamp) ==>
          r == Ok(id !in old(pendingAsynchPackets)) &&
          queryTimeStamp == old(queryTimeStamp) - {id} &&
          resultMap == old(resultMap)[id := CommandResult(packet, receivedTime, receivedTime - old(queryTimeStamp)[id])] &&
          pendingAsynchPackets == old(pendingAsynchPackets) - {id} &&
          totalAsynchErrors == old(totalAsynchErrors) + (if id in old(pendingAsynchPackets) && IsError(packet.errorCode) then 1 else 0)
      ensures readTimeout == old(readTimeout)
    {
      var id := packet.clientRequestId;
      if id !in queryTimeStamp {
        return Err(NullPointer);
      }
      var queryStartTime := queryTimeStamp[id];
      queryTimeStamp := queryTimeStamp - {id};
      var latency := receivedTime - queryStartTime;
      resultMap := resultMap[id := CommandResult(packet, receivedTime, latency)];
      if id !in pendingAsynchPackets {
        return Ok(true);
      }
      pendingAsynchPackets := pendingAsynchPackets - {id};
      if IsError(packet.errorCode) {
        totalAsynchErrors := totalAsynchErrors + 1;
      }
      return Ok(false);
    }

    /**
     * `checkConnectivity`: the probe is sent under a 7-second read
     * timeout, and the original timeout is back on every way out.
     */
    method CheckConnectivity(sendCommandAndWait: (Object, int) -> SendOutcome) returns (r: Result<(), string>)
      modifies this
      ensures r == Connectivity(sendCommandAndWait(map[COMMANDNAME := JStr(CONNECTION_CHECK)], CONNECTIVITY_TIMEOUT))
      ensures readTimeout == old(readTimeout)
      ensures resultMap == old(resultMap) && queryTimeStamp == old(queryTimeStamp)
      ensures pendingAsynchPackets == old(pendingAsynchPackets) && totalAsynchErrors == old(totalAsynchErrors)
    {
      var originalReadTimeout := readTimeout;
      readTimeout := CONNECTIVITY_TIMEOUT;
      // A command without pairs is always built, so the GnsException handler never runs.
      var command := CreateCommand(CONNECTION_CHECK, []);
      var outcome := sendCommandAndWait(command.value, readTimeout);
      match outcome {
        case SendFailed(message) =>
          r := Err(message);
        case Sent(commandResult) =>
          if !(OK_RESPONSE <= commandResult) {
            var results := Text.Split(commandResult, ' ');
            r := Err(if |results| == 2 then results[1] else commandResult);
          } else {
            r := Ok(());
          }
      }
      readTimeout := originalReadTimeout;
    }

    /**
     * Two requests that were given the same id share one send time: the
     * first reply for that id uses it up, and the second reply is lost to
     * the NullPointerException of the missing send time.
     */
    method SharedIdLosesSecondReply(first: ReturnPacket, second: ReturnPacket, firstTime: int, secondTime: int)
      returns (r1: Result<bool, Crash>, r2: Result<bool, Crash>)
      requires first.clientRequestId == second.clientRequestId
      requires first.clientRequestId in queryTimeStamp
      modifies this
      ensures r1.Ok? && r2 == Err(NullPointer)
      ensures first.clientRequestId !in queryTimeStamp && first.clientRequestId in resultMap
    {
      r1 := HandleCommandValueReturnPacket(first, firstTime);
      r2 := HandleCommandValueReturnPacket(second, secondTime);
    }
  }

  /** The condition the id loop of `generateNextRequestID` stops on: an int with no stored result. */
  predicate DrawAccepted(resultMap: map<int, CommandResult>, id: int)
  {
    Text.INT_MIN <= id <= Text.INT_MAX && id !in resultMap
  }

  /**
   * The loop avoids only the ids of stored results: the id of a request
   * still waiting for its reply (it has a send time but no result yet) is
   * accepted again, whereas the intended generator refuses it.
   */
  lemma PendingIdCanBeDrawnAgain(resultMap: map<int, CommandResult>, queryTimeStamp: map<int, int>, pending: int)
    requires pending in queryTimeStamp && pending !in resultMap
    requires Text.INT_MIN <= pending <= Text.INT_MAX
    ensures DrawAccepted(resultMap, pending)
    ensures !(DrawAccepted(resultMap, pending) && pending !in queryTimeStamp)
  {
  }
}
