/**
 * The non-blocking select of the coordinating name server (CNSSelect): a
 * client's select is registered in a pending table under a fresh id and
 * sent to the servers the select policy chose; their responses are
 * gathered, and once every server has answered the entry is removed and
 * one reply goes back to the client. Sending is recorded in an outbox.
 */
module CnsSelect {
  import opened Wrappers
  import opened Json
  import opened Fresh
  import opened NodePartitioning
  import opened SelectRecords
  import SelectRequestPacket
  import Select

  type Request = SelectRequestPacket.Request
  type QueryInfo = Select.QueryInfo
  type Response = Select.Response

  /** What the coordinator keeps of the client's command packet. */
  datatype ClientRequest = ClientRequest(requestId: int, serviceName: string, clientAddress: Address)

  /** PendingSelectReqInfo: the client's request, when it arrived, and the gathering state. */
  datatype Pending = Pending(original: ClientRequest, reqArrivalTime: int, info: QueryInfo)

  /**
   * The guid list of the reply packet: the guids found, when no projection
   * was asked for; otherwise the full-records packet, which carries none.
   */
  datatype ClientResult = GuidList(guids: set<string>) | NoGuidList

  /** A message sent: the select to a name server, or the reply to the client. */
  datatype Message =
    | ToServer(server: Address, address: Address, request: Request)
    | ToClient(address: Address, requestId: int, serviceName: string, result: ClientResult, responseTime: int)

  /**
   * How `new JSONArray(guids)` lists a set: every element exactly once, in
   * the set's iteration order, which the model takes as a parameter.
   */
  ghost predicate ListsOnce(xs: seq<string>, s: set<string>)
  {
    && (forall x :: x in xs <==> x in s)
    && (forall i, j :: 0 <= i < j < |xs| ==> xs[i] != xs[j])
  }

  /** A list holding every element of a set exactly once is as long as the set is large. */
  lemma {:induction false} ListsOnceLength(xs: seq<string>, s: set<string>)
    requires ListsOnce(xs, s)
    ensures |xs| == |s|
  {
    if xs == [] {
      assert forall x :: x !in s;
    } else {
      var rest := s - {xs[0]};
      forall x ensures x in xs[1..] <==> x in rest {
        if x in xs[1..] {
          var j :| 0 <= j < |xs[1..]| && xs[1..][j] == x;
          assert xs[j + 1] == x;
        }
        if x in rest {
          var j :| 0 <= j < |xs| && xs[j] == x;
          assert j != 0 && xs[1..][j - 1] == x;
        }
      }
      assert ListsOnce(xs[1..], rest);
      ListsOnceLength(xs[1..], rest);
    }
  }

  /**
   * The array whose text is the return value of the reply: the reply
   * packet's guid array when it has one, otherwise an empty array. Every
   * guid of the list appears in it exactly once, as a string.
   */
  function ReturnArray(result: ClientResult, order: set<string> -> seq<string>): (v: Value)
    requires result.GuidList? ==> ListsOnce(order(result.guids), result.guids)
    ensures v.JArr?
    ensures result.NoGuidList? ==> v.items == []
    ensures result.GuidList? ==>
      && ArrayStrings(v.items).Some?
      && ListsOnce(ArrayStrings(v.items).value, result.guids)
      && |v.items| == |result.guids|
  {
    match result
    case GuidList(guids) =>
      ArrayStringsRoundTrip(order(guids));
      ListsOnceLength(order(guids), guids);
      StringArray(order(guids))
    case NoGuidList => JArr([])
  }

  /** A new entry: every chosen server still to respond, nothing received. */
  function NewPending(id: int, request: Request, serverAddresses: set<Address>, original: ClientRequest, now: int): Pending
  {
    var query := if request.query.Some? then request.query.value else "";
    Pending(original, now, Select.NewQueryInfo(id, serverAddresses, request.operation, query, request.projection))
  }

  /** The reply once every server has answered: guids without a projection, the full-records packet with one. */
  function ReplyFor(p: Pending, now: int): (m: Message)
    ensures m.ToClient? && m.address == p.original.clientAddress && m.requestId == p.original.requestId
    ensures p.info.projection.None? <==> m.result.GuidList?
  {
    var result := if p.info.projection.None? then GuidList(ExtractGuids(p.info.responses)) else NoGuidList;
    ToClient(p.original.clientAddress, p.original.requestId, p.original.serviceName, result, now - p.reqArrivalTime)
  }

  /**
   * What the client reads in the reply: without a projection, every guid
   * found among the gathered records, each once; with a projection, an
   * empty array.
   */
  lemma ReplyReturnArray(p: Pending, now: int, order: set<string> -> seq<string>)
    requires ListsOnce(order(ExtractGuids(p.info.responses)), ExtractGuids(p.info.responses))
    ensures var v := ReturnArray(ReplyFor(p, now).result, order);
      && (p.info.projection.Some? ==> v == JArr([]))
      && (p.info.projection.None? ==>
            && ArrayStrings(v.items).Some?
            && |v.items| == |ExtractGuids(p.info.responses)|
            && forall g :: g in ArrayStrings(v.items).value <==>
                 exists i :: 0 <= i < |p.info.responses| && NameOf(p.info.responses[i]) == Some(g))
  {
  }

  /** The effect of one response: the new table and what is sent. */
  datatype Effect = Effect(pending: map<int, Pending>, sent: seq<Message>)

  /**
   * `handleSelectResponseFromNS`: an unknown query id is ignored; the
   * records of a NOERROR response are stored (a record that cannot be read
   * stops the storing, and the rest of the handling goes on); the server
   * is crossed off whatever the code; when none is left, the entry is
   * removed and the reply sent.
   */
  function Respond(pending: map<int, Pending>, response: Response, now: int): (e: Effect)
    requires forall id :: id in pending ==> Select.ValidInfo(pending[id].info)
    ensures forall id :: id in e.pending ==> Select.ValidInfo(e.pending[id].info)
    ensures var id := response.nsQueryId;
      id !in pending ==> e == Effect(pending, [])
    ensures var id := response.nsQueryId;
      id in pending && pending[id].info.serversToBeProcessed - {response.nsAddress} != {} ==>
        && e.sent == [] && id in e.pending
        && e.pending[id].info.serversToBeProcessed == pending[id].info.serversToBeProcessed - {response.nsAddress}
        && e.pending[id].original == pending[id].original
        && (!response.noError ==> e.pending[id].info.responses == pending[id].info.responses)
    ensures var id := response.nsQueryId;
      id in pending && pending[id].info.serversToBeProcessed - {response.nsAddress} == {} ==>
        && id !in e.pending && |e.sent| == 1 && e.sent[0].ToClient?
        && e.sent[0].requestId == pending[id].original.requestId
        && (pending[id].info.projection.None? <==> e.sent[0].result.GuidList?)
    ensures var id := response.nsQueryId;
      forall other :: other != id ==> (other in e.pending <==> other in pending)
    ensures var id := response.nsQueryId;
      forall other :: other != id && other in pending ==> other in e.pending && e.pending[other] == pending[other]
  {
    var id := response.nsQueryId;
    if id !in pending then Effect(pending, [])
    else
      var p := pending[id];
      assert Select.ValidInfo(p.info);
      var stored := if response.noError then Select.StoreRecords(p.info, response.records).info else p.info;
      var info := stored.(serversToBeProcessed := stored.serversToBeProcessed - {response.nsAddress});
      assert Select.ValidInfo(info);
      if info.serversToBeProcessed != {} then Effect(pending[id := p.(info := info)], [])
      else Effect(pending - {id}, [ReplyFor(p.(info := info), now)])
  }

  /**
   * Without a projection the reply lists exactly the names of the records
   * stored: those gathered before plus, for a NOERROR response, those the
   * last server sent.
   */
  lemma ReplyListsStoredNames(pending: map<int, Pending>, response: Response, now: int)
    requires forall id :: id in pending ==> Select.ValidInfo(pending[id].info)
    requires response.nsQueryId in pending && pending[response.nsQueryId].info.projection.None?
    requires pending[response.nsQueryId].info.serversToBeProcessed - {response.nsAddress} == {}
    ensures var info, e := pending[response.nsQueryId].info, Respond(pending, response, now);
      var names := if response.noError then Select.StoreRecords(info, response.records).info.names else info.names;
      e.sent[0].result == GuidList(set n | n in names)
  {
    var info := pending[response.nsQueryId].info;
    assert Select.ValidInfo(info);
    if response.noError {
      Select.GuidsAreNames(Select.StoreRecords(info, response.records).info);
    } else {
      Select.GuidsAreNames(info);
    }
  }

  /** Only a NOERROR response adds records, and then only records under names not seen before. */
  lemma OnlyNoErrorAddsRecords(pending: map<int, Pending>, response: Response, now: int)
    requires forall id :: id in pending ==> Select.ValidInfo(pending[id].info)
    requires response.nsQueryId in pending
    ensures var id, e := response.nsQueryId, Respond(pending, response, now);
      id in e.pending ==>
        pending[id].info.names <= e.pending[id].info.names &&
        (!response.noError ==> e.pending[id].info.names == pending[id].info.names)
  {
  }

  /** The responses in order, from the start. */
  function Deliver(pending: map<int, Pending>, responses: seq<Response>, now: int): (e: Effect)
    requires forall id :: id in pending ==> Select.ValidInfo(pending[id].info)
    ensures forall id :: id in e.pending ==> Select.ValidInfo(e.pending[id].info)
    decreases |responses|
  {
    if |responses| == 0 then Effect(pending, [])
    else
      var first := Respond(pending, responses[0], now);
      var rest := Deliver(first.pending, responses[1..], now);
      Effect(rest.pending, first.sent + rest.sent)
  }

  /** The servers that responded. */
  function AddressesOf(responses: seq<Response>): set<Address>
  {
    set i | 0 <= i < |responses| :: responses[i].nsAddress
  }

  lemma AddressesOfCons(responses: seq<Response>)
    requires |responses| > 0
    ensures AddressesOf(responses) == {responses[0].nsAddress} + AddressesOf(responses[1..])
  {
    var rest := responses[1..];
    forall a | a in AddressesOf(responses) ensures a in {responses[0].nsAddress} + AddressesOf(rest) {
      var i :| 0 <= i < |responses| && responses[i].nsAddress == a;
      if i > 0 {
        assert rest[i - 1] == responses[i];
      }
    }
    forall a | a in AddressesOf(rest) ensures a in AddressesOf(responses) {
      var i :| 0 <= i < |rest| && rest[i].nsAddress == a;
      assert responses[i + 1] == rest[i];
    }
  }

  /** Responses for a query that is no longer pending are all ignored. */
  lemma {:induction false} DeliverAfterRemoval(pending: map<int, Pending>, id: int, responses: seq<Response>, now: int)
    requires forall q :: q in pending ==> Select.ValidInfo(pending[q].info)
    requires id !in pending
    requires forall i :: 0 <= i < |responses| ==> responses[i].nsQueryId == id
    ensures Deliver(pending, responses, now) == Effect(pending, [])
    decreases |responses|
  {
    if |responses| > 0 {
      DeliverAfterRemoval(pending, id, responses[1..], now);
    }
  }

  /**
   * Gathering one query's responses: exactly one reply is sent, and the
   * entry removed, once every server asked has responded; until then
   * nothing is sent and the servers yet to respond are those asked less
   * those heard from. Responses from a server twice, or from one not
   * asked, change nothing of this.
   */
  lemma {:induction false} GatherSendsOneReply(pending: map<int, Pending>, id: int, responses: seq<Response>, now: int)
    requires forall q :: q in pending ==> Select.ValidInfo(pending[q].info)
    requires id in pending
    requires forall i :: 0 <= i < |responses| ==> responses[i].nsQueryId == id
    ensures var e, servers := Deliver(pending, responses, now), pending[id].info.serversToBeProcessed;
      (|responses| > 0 && servers <= AddressesOf(responses) ==>
        id !in e.pending && |e.sent| == 1 && e.sent[0].ToClient? && e.sent[0].requestId == pending[id].original.requestId) &&
      (!(|responses| > 0 && servers <= AddressesOf(responses)) ==>
        id in e.pending && e.sent == [] && e.pending[id].info.serversToBeProcessed == servers - AddressesOf(responses))
    decreases |responses|
  {
    if |responses| > 0 {
      var servers := pending[id].info.serversToBeProcessed;
      var first := Respond(pending, responses[0], now);
      var rest := responses[1..];
      AddressesOfCons(responses);
      assert forall i :: 0 <= i < |rest| ==> rest[i] == responses[i + 1];
      if servers - {responses[0].nsAddress} == {} {
        DeliverAfterRemoval(first.pending, id, rest, now);
        assert first.sent + [] == first.sent;
      } else {
        GatherSendsOneReply(first.pending, id, rest, now);
        assert servers - {responses[0].nsAddress} - AddressesOf(rest) == servers - AddressesOf(responses);
      }
    }
  }

  /** The servers a sequence of messages was sent to. */
  function ServersOf(messages: seq<Message>): set<Address>
  {
    set i | 0 <= i < |messages| && messages[i].ToServer? :: messages[i].server
  }

  /** The select sent to a server's client-facing port. */
  predicate WellAddressed(m: Message, request: Request, clientFacingPort: int -> int)
  {
    && m.ToServer?
    && m.address == Address(m.server.host, clientFacingPort(m.server.port))
    && m.request == request
  }

  /** The select sent once to each of `servers`, and to nothing else. */
  predicate Scattered(sent: seq<Message>, servers: set<Address>, request: Request, clientFacingPort: int -> int)
  {
    && |sent| == |servers|
    && ServersOf(sent) == servers
    && forall i :: 0 <= i < |sent| ==> WellAddressed(sent[i], request, clientFacingPort)
  }

  lemma ServersOfSnoc(messages: seq<Message>, m: Message)
    requires m.ToServer?
    ensures ServersOf(messages + [m]) == ServersOf(messages) + {m.server}
  {
    var all := messages + [m];
    assert all[|messages|] == m;
    forall a | a in ServersOf(all) ensures a in ServersOf(messages) + {m.server} {
      var i :| 0 <= i < |all| && all[i].ToServer? && all[i].server == a;
      if i < |messages| {
        assert all[i] == messages[i];
      }
    }
    forall a | a in ServersOf(messages) ensures a in ServersOf(all) {
      var i :| 0 <= i < |messages| && messages[i].ToServer? && messages[i].server == a;
      assert all[i] == messages[i];
    }
  }

  /** The sending loop of `handleSelectRequestFromClient`: the select, once to each server. */
  method Scatter(serverAddresses: set<Address>, outgoing: Request, clientFacingPort: int -> int)
    returns (sent: seq<Message>)
    ensures Scattered(sent, serverAddresses, outgoing, clientFacingPort)
  {
    sent := [];
    var remaining := serverAddresses;
    while remaining != {}
      invariant remaining <= serverAddresses
      invariant |sent| + |remaining| == |serverAddresses|
      invariant ServersOf(sent) == serverAddresses - remaining
      invariant forall i :: 0 <= i < |sent| ==> WellAddressed(sent[i], outgoing, clientFacingPort)
      decreases |remaining|
    {
      var address :| address in remaining;
      var message := ToServer(address, Address(address.host, clientFacingPort(address.port)), outgoing);
      ServersOfSnoc(sent, message);
      sent := sent + [message];
      remaining := remaining - {address};
    }
  }

  /** The coordinator's pending table and what it has sent. */
  class Coordinator {
    var pendingSelectRequests: map<int, Pending>
    var outbox: seq<Message>

    predicate Valid()
      reads this
    {
      forall id :: id in pendingSelectRequests ==> Select.ValidInfo(pendingSelectRequests[id].info)
    }

    constructor ()
      ensures Valid() && pendingSelectRequests == map[] && outbox == []
    {
      pendingSelectRequests := map[];
      outbox := [];
    }

    /** `addSelectRequestIntoPendingMap`: an id not in use, with the new entry stored under it. */
    method AddSelectRequestIntoPendingMap(request: Request, serverAddresses: set<Address>, original: ClientRequest, now: int)
      returns (reqId: int)
      requires Valid()
      modifies this
      ensures Valid()
      ensures reqId !in old(pendingSelectRequests)
      ensures pendingSelectRequests == old(pendingSelectRequests)[reqId := NewPending(reqId, request, serverAddresses, original, now)]
      ensures outbox == old(outbox)
    {
      assert Bound(pendingSelectRequests.Keys) !in pendingSelectRequests;
      reqId :| reqId !in pendingSelectRequests;
      pendingSelectRequests := pendingSelectRequests[reqId := NewPending(reqId, request, serverAddresses, original, now)];
    }

    /**
     * `handleSelectRequestFromClient`: a select packet that could not be
     * built (`None`) or a failed signature check registers and sends
     * nothing; otherwise the request is registered and sent, carrying its
     * id and the coordinator's client-facing address as its return
     * address, once to each server chosen, at that server's client-facing
     * port.
     */
    method HandleSelectRequestFromClient(packet: Option<Request>, signatureOk: bool, serverAddresses: set<Address>,
                                         original: ClientRequest, now: int, nodeAddress: Address, clientFacingPort: int -> int)
      returns (registered: Option<int>)
      requires Valid()
      modifies this
      ensures Valid()
      ensures packet.None? || !signatureOk ==>
        registered.None? && pendingSelectRequests == old(pendingSelectRequests) && outbox == old(outbox)
      ensures packet.Some? && signatureOk ==>
        registered.Some? && registered.value !in old(pendingSelectRequests) &&
        pendingSelectRequests == old(pendingSelectRequests)[registered.value := NewPending(registered.value, packet.value, serverAddresses, original, now)] &&
        old(outbox) <= outbox &&
        Scattered(outbox[|old(outbox)|..], serverAddresses,
                  packet.value.(nsReturnAddress := Some(AddressString(Address(nodeAddress.host, clientFacingPort(nodeAddress.port)))),
                                nsQueryId := registered.value),
                  clientFacingPort)
    {
      if packet.None? || !signatureOk {
        return None;
      }
      var requestId := AddSelectRequestIntoPendingMap(packet.value, serverAddresses, original, now);
      var returnAddress := Address(nodeAddress.host, clientFacingPort(nodeAddress.port));
      var outgoing := packet.value.(nsReturnAddress := Some(AddressString(returnAddress)), nsQueryId := requestId);
      var sent := Scatter(serverAddresses, outgoing, clientFacingPort);
      outbox := outbox + sent;
      assert outbox[|old(outbox)|..] == sent;
      return Some(requestId);
    }

    /** `handleSelectResponseFromNS` with `handledAllServersResponded`. */
    method HandleSelectResponseFromNS(response: Response, now: int)
      requires Valid()
      modifies this
      ensures Valid()
      ensures pendingSelectRequests == Respond(old(pendingSelectRequests), response, now).pending
      ensures outbox == old(outbox) + Respond(old(pendingSelectRequests), response, now).sent
    {
      var id := response.nsQueryId;
      if id !in pendingSelectRequests {
        return;
      }
      var pendingSelect := pendingSelectRequests[id];
      var info := pendingSelect.info;
      if response.noError {
        var stored := Select.StoreRecordsLoop(info, response.records);
        info := stored.info;
      }
      info := info.(serversToBeProcessed := info.serversToBeProcessed - {response.nsAddress});
      pendingSelect := pendingSelect.(info := info);
      if info.serversToBeProcessed != {} {
        pendingSelectRequests := pendingSelectRequests[id := pendingSelect];
        return;
      }
      var returnPacket := ReplyFor(pendingSelect, now);
      pendingSelectRequests := pendingSelectRequests - {id};
      outbox := outbox + [returnPacket];
    }
  }
}
