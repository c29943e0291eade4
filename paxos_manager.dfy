/**
 * The process-wide registry of Paxos instances (gns/paxos/tmp/PaxosManager):
 * instances are stored under a lookup key derived from their ID, so that
 * the instance among the actives of a name is found without knowing its
 * current epoch; inbound messages are routed by packet type; proposals not
 * yet accepted are kept in accept-time order and resent when stale.
 *
 * The replicas, the logger and the executor are collaborators whose code is
 * not part of this model: what the manager asks of them is recorded as a
 * sequence of calls, log records and submitted tasks.
 */
module PaxosManager {
  import opened Wrappers
  import Text

  /** `RESEND_PENDING_MSG_INTERVAL_MILLIS`. */
  const RESEND_PENDING_MSG_INTERVAL_MILLIS: int := 2000

  /** The `PaxosPacketType` of a message. */
  datatype PacketKind =
    | Decision
    | FailureDetect
    | FailureResponse
    | Request
    | OtherKind(code: int)

  /** An inbound message: its type and Paxos ID when present, and the rest of its content. */
  datatype Packet = Packet(kind: Option<PacketKind>, paxosID: Option<string>, payload: string)

  /** A replica object: `PaxosReplica` for primaries, `PaxosReplicaNew` otherwise. */
  datatype Replica = Replica(paxosID: string, nodeIDs: set<int>, isPrimary: bool)

  /** A proposal awaiting acceptance by a majority, with the time it was sent for acceptance. */
  datatype Proposal = Proposal(paxosID: string, slot: int, acceptTime: int)

  /** What the manager hands to `PaxosLogger`. */
  datatype LogRecord =
    | PaxosStart(paxosID: string, nodeIDs: set<int>, slot: int, state: string)
    | PaxosStop(paxosID: string)
    | LogAndExecute(paxosID: string, packet: Packet)

  /** What the manager asks of a replica. */
  datatype ReplicaCall =
    | HandleMessage(paxosID: string, kind: PacketKind, payload: string)
    | RemovePendingProposals(paxosID: string)
    | CheckCoordinatorFailure(paxosID: string)
    | ResendPendingProposal(proposal: Proposal)

  /** What the manager submits to its executor. */
  datatype Task =
    | PaxosMessageTask(packet: Packet, kind: PacketKind)
    | FailureDetectionTask(packet: Packet)
    | ResendTask(delayMillis: int)

  /**
   * `getPaxosKeyFromPaxosID`: a primary ID `name-P` is its own key; an
   * active ID `name-X` has the key `name`, the part before the last '-'.
   */
  function PaxosKey(isPrimary: string -> bool, paxosID: string): (r: string)
    ensures r <= paxosID
    ensures isPrimary(paxosID) || '-' !in paxosID ==> r == paxosID
    ensures !isPrimary(paxosID) && '-' in paxosID ==>
      |r| < |paxosID| && paxosID[|r|] == '-' && '-' !in paxosID[|r| + 1..]
  {
    if isPrimary(paxosID) then paxosID
    else
      var index := Text.LastIndexOf(paxosID, '-');
      if index == -1 then paxosID
      else
        paxosID[..index]
  }

  /** An active ID `name-X`, with an epoch X free of '-', has the key `name` whatever X is. */
  lemma ActiveIDKey(isPrimary: string -> bool, name: string, epoch: string)
    requires !isPrimary(name + "-" + epoch) && '-' !in epoch
    ensures PaxosKey(isPrimary, name + "-" + epoch) == name
  {
    var id := name + "-" + epoch;
    assert id[|name|] == '-';
    assert id[..|name|] == name;
  }

  /** Two IDs of the same name in different epochs share their key. */
  lemma EpochsShareKey(isPrimary: string -> bool, name: string, x: string, y: string)
    requires !isPrimary(name + "-" + x) && !isPrimary(name + "-" + y)
    requires '-' !in x && '-' !in y
    ensures PaxosKey(isPrimary, name + "-" + x) == PaxosKey(isPrimary, name + "-" + y)
  {
    ActiveIDKey(isPrimary, name, x);
    ActiveIDKey(isPrimary, name, y);
  }

  // ---------------------------------------------------------------------
  // The proposal set: a TreeSet in accept-time order

  predicate Ordered(s: seq<Proposal>)
  {
    forall i, j :: 0 <= i < j < |s| ==> s[i].acceptTime <= s[j].acceptTime
  }

  predicate Distinct(s: seq<Proposal>)
  {
    forall i, j :: 0 <= i < j < |s| ==> s[i] != s[j]
  }

  /** `TreeSet.add` of a proposal not yet present: after every proposal accepted no later. */
  function InsertByTime(p: Proposal, s: seq<Proposal>): (r: seq<Proposal>)
    requires Ordered(s)
    ensures Ordered(r) && |r| == |s| + 1
    ensures forall x :: x in r <==> x == p || x in s
  {
    if s == [] then [p]
    else if p.acceptTime < s[0].acceptTime then [p] + s
    else
      var t := InsertByTime(p, s[1..]);
      assert forall x :: x in s[1..] ==> x in s;
      assert forall x :: x in t ==> s[0].acceptTime <= x.acceptTime;
      [s[0]] + t
  }

  /** Inserting a proposal that is not present keeps the set free of duplicates. */
  lemma {:induction false} InsertByTimeDistinct(p: Proposal, s: seq<Proposal>)
    requires Ordered(s) && Distinct(s) && p !in s
    ensures Distinct(InsertByTime(p, s))
  {
    if s != [] && p.acceptTime >= s[0].acceptTime {
      assert forall x :: x in s[1..] ==> x in s;
      assert Distinct(s[1..]) by {
        forall i, j | 0 <= i < j < |s[1..]| ensures s[1..][i] != s[1..][j] {
          assert s[i + 1] != s[j + 1];
        }
      }
      InsertByTimeDistinct(p, s[1..]);
      var t := InsertByTime(p, s[1..]);
      assert s[0] !in s[1..];
      assert s[0] !in t;
      assert InsertByTime(p, s) == [s[0]] + t;
    }
  }

  /** The proposals of `s` that are not in `removed`, in the same order. */
  function Survivors(s: seq<Proposal>, removed: set<Proposal>): (r: seq<Proposal>)
    ensures forall x :: x in r <==> x in s && x !in removed
    ensures |r| <= |s|
  {
    if s == [] then []
    else if s[0] in removed then Survivors(s[1..], removed)
    else [s[0]] + Survivors(s[1..], removed)
  }

  /** The tail of an ordered duplicate-free sequence is one too, and its head comes first and occurs once. */
  lemma TailValid(s: seq<Proposal>)
    requires s != [] && Ordered(s) && Distinct(s)
    ensures Ordered(s[1..]) && Distinct(s[1..])
    ensures forall x :: x in s[1..] ==> s[0].acceptTime <= x.acceptTime && x != s[0]
  {
    forall i, j | 0 <= i < j < |s[1..]| ensures s[1..][i] != s[1..][j] {
      assert s[i + 1] != s[j + 1];
    }
  }

  /** A proposal accepted no later than every one of a valid sequence, and not in it, can lead it. */
  lemma ConsValid(x: Proposal, t: seq<Proposal>)
    requires Ordered(t) && Distinct(t)
    requires forall y :: y in t ==> x.acceptTime <= y.acceptTime && y != x
    ensures Ordered([x] + t) && Distinct([x] + t)
  {
    var s := [x] + t;
    forall i, j | 0 <= i < j < |s| ensures s[i].acceptTime <= s[j].acceptTime && s[i] != s[j] {
      assert s[j] == t[j - 1];
      if i > 0 {
        assert s[i] == t[i - 1];
      }
    }
  }

  /** Removing keeps the accept-time order and leaves no duplicates. */
  lemma {:induction false} SurvivorsValid(s: seq<Proposal>, removed: set<Proposal>)
    requires Ordered(s) && Distinct(s)
    ensures Ordered(Survivors(s, removed)) && Distinct(Survivors(s, removed))
  {
    if s != [] {
      TailValid(s);
      SurvivorsValid(s[1..], removed);
      if s[0] !in removed {
        ConsValid(s[0], Survivors(s[1..], removed));
      }
    }
  }

  lemma {:induction false} SurvivorsNone(s: seq<Proposal>)
    ensures Survivors(s, {}) == s
  {
    if s != [] {
      SurvivorsNone(s[1..]);
    }
  }

  /** Removing one set and then another is removing their union. */
  lemma {:induction false} SurvivorsUnion(s: seq<Proposal>, a: set<Proposal>, b: set<Proposal>)
    ensures Survivors(Survivors(s, a), b) == Survivors(s, a + b)
  {
    if s != [] {
      SurvivorsUnion(s[1..], a, b);
    }
  }

  /** A proposal is stale once more than the resend interval has passed since its accept was sent. */
  predicate Stale(p: Proposal, now: int)
  {
    now - p.acceptTime > RESEND_PENDING_MSG_INTERVAL_MILLIS
  }

  /** The leading run of stale proposals. */
  function StalePrefix(s: seq<Proposal>, now: int): (r: seq<Proposal>)
    ensures r <= s
    ensures forall i :: 0 <= i < |r| ==> Stale(r[i], now)
    ensures |r| < |s| ==> !Stale(s[|r|], now)
  {
    if s == [] || !Stale(s[0], now) then [] else [s[0]] + StalePrefix(s[1..], now)
  }

  /** In accept-time order the leading run holds every stale proposal. */
  lemma {:induction false} StalePrefixComplete(s: seq<Proposal>, now: int, p: Proposal)
    requires Ordered(s) && p in s && Stale(p, now)
    ensures p in StalePrefix(s, now)
  {
    if s[0] != p {
      assert p in s[1..];
      StalePrefixComplete(s[1..], now, p);
    }
  }

  /** One `ResendPendingProposal` call per proposal, in order. */
  function ResendCalls(ps: seq<Proposal>): (r: seq<ReplicaCall>)
    ensures |r| == |ps|
    ensures forall i :: 0 <= i < |ps| ==> r[i] == ResendPendingProposal(ps[i])
  {
    if ps == [] then [] else [ResendPendingProposal(ps[0])] + ResendCalls(ps[1..])
  }

  // ---------------------------------------------------------------------
  // The manager

  class Manager {
    /** This node's ID. */
    const nodeID: int
    /** `ReplicaController.isPrimaryPaxosID`. */
    const isPrimary: string -> bool
    /** `StartNameServer.experimentMode`: state logging is off during experiments. */
    const experimentMode: bool

    /** `paxosInstances`: lookup key to replica. */
    var paxosInstances: map<string, Replica>
    /** `proposalStates`, in its iteration order. */
    var proposalStates: seq<Proposal>
    /** The records handed to the logger, oldest first. */
    var log: seq<LogRecord>
    /** The calls made on replicas, oldest first. */
    var calls: seq<ReplicaCall>
    /** The tasks submitted to the executor, oldest first. */
    var tasks: seq<Task>
    /** `logMsgID`: the number of the last message logged to the database. */
    var logMsgID: int

    function Key(paxosID: string): string
    {
      PaxosKey(isPrimary, paxosID)
    }

    /**
     * Every instance is stored under the key of its own ID, and the
     * proposal set is in accept-time order without duplicates.
     */
    predicate Valid()
      reads this
    {
      (forall k :: k in paxosInstances ==> Key(paxosInstances[k].paxosID) == k)
      && Ordered(proposalStates) && Distinct(proposalStates)
    }

    constructor (nodeID: int, isPrimary: string -> bool, experimentMode: bool)
      ensures Valid()
      ensures this.nodeID == nodeID && this.isPrimary == isPrimary && this.experimentMode == experimentMode
      ensures paxosInstances == map[] && proposalStates == [] && log == [] && calls == [] && tasks == []
      ensures logMsgID == 0
    {
      this.nodeID := nodeID;
      this.isPrimary := isPrimary;
      this.experimentMode := experimentMode;
      paxosInstances := map[];
      proposalStates := [];
      log := [];
      calls := [];
      tasks := [];
      logMsgID := 0;
    }

    /** Under `Valid`, the instance with a given full ID, if any, is the one under that ID's key. */
    lemma FindByKey(paxosID: string)
      requires Valid()
      ensures (Key(paxosID) in paxosInstances && paxosInstances[Key(paxosID)].paxosID == paxosID)
        <==> exists k :: k in paxosInstances && paxosInstances[k].paxosID == paxosID
    {
    }

    /**
     * `createPaxosInstance`: refuses fewer than three members, a group
     * without this node, and an ID already registered; otherwise stores a
     * new replica under the ID's key, logs its start with slot 0 and the
     * initial state, and, when it displaces an instance of another epoch,
     * drops that instance's pending proposals and logs its stop.
     */
    method CreatePaxosInstance(paxosID: string, nodeIDs: set<int>, initialState: string)
      returns (created: bool)
      requires Valid()
      modifies this
      ensures Valid()
      ensures created <==>
        |nodeIDs| >= 3 && nodeID in nodeIDs &&
        !(Key(paxosID) in old(paxosInstances) && old(paxosInstances)[Key(paxosID)].paxosID == paxosID)
      ensures !created ==>
        paxosInstances == old(paxosInstances) && log == old(log) && calls == old(calls)
      ensures created ==>
        paxosInstances == old(paxosInstances)[Key(paxosID) := Replica(paxosID, nodeIDs, isPrimary(paxosID))]
      ensures created ==>
        var displaced := Key(paxosID) in old(paxosInstances);
        var oldID := if displaced then old(paxosInstances)[Key(paxosID)].paxosID else "";
        log == old(log)
          + (if experimentMode then [] else [PaxosStart(paxosID, nodeIDs, 0, initialState)])
          + (if displaced then [PaxosStop(oldID)] else [])
        && calls == old(calls)
          + (if displaced then [RemovePendingProposals(oldID)] else [])
          + [CheckCoordinatorFailure(paxosID)]
      ensures proposalStates == old(proposalStates) && tasks == old(tasks) && logMsgID == old(logMsgID)
    {
      if |nodeIDs| < 3 {
        return false;
      }
      if nodeID !in nodeIDs {
        return false;
      }
      var key := Key(paxosID);
      var r1: Option<Replica> := if key in paxosInstances then Some(paxosInstances[key]) else None;
      if r1.Some? && r1.value.paxosID == paxosID {
        return false;
      }
      var r := Replica(paxosID, nodeIDs, isPrimary(paxosID));
      if !experimentMode {
        log := log + [PaxosStart(paxosID, nodeIDs, 0, initialState)];
      }
      paxosInstances := paxosInstances[key := r];
      if r1.Some? && r1.value.paxosID != paxosID {
        calls := calls + [RemovePendingProposals(r1.value.paxosID)];
        log := log + [PaxosStop(r1.value.paxosID)];
      }
      calls := calls + [CheckCoordinatorFailure(paxosID)];
      return true;
    }

    /**
     * `propose`: hands the request to the instance registered under the
     * ID's key and returns that instance's full ID, which may belong to
     * another epoch of the same name; `None` when no instance is registered.
     */
    method Propose(paxosID: string, request: string) returns (r: Option<string>)
      requires Valid()
      modifies this
      ensures r.None? <==> Key(paxosID) !in paxosInstances
      ensures r.None? ==> calls == old(calls)
      ensures r.Some? ==>
        r.value == paxosInstances[Key(paxosID)].paxosID && Key(r.value) == Key(paxosID) &&
        calls == old(calls) + [HandleMessage(r.value, Request, request)]
      ensures paxosInstances == old(paxosInstances) && proposalStates == old(proposalStates)
      ensures log == old(log) && tasks == old(tasks) && logMsgID == old(logMsgID)
    {
      var key := Key(paxosID);
      if key !in paxosInstances {
        return None;
      }
      var replica := paxosInstances[key];
      calls := calls + [HandleMessage(replica.paxosID, Request, request)];
      return Some(replica.paxosID);
    }

    /**
     * `handleIncomingPacket`: a message without a type is dropped; a
     * decision goes to the logger to be logged and executed; failure
     * detection messages go to the failure detection task; anything else
     * goes to a message task.
     */
    method HandleIncomingPacket(packet: Packet)
      modifies this
      ensures packet.kind.None? ==> log == old(log) && tasks == old(tasks)
      ensures packet.kind == Some(Decision) ==>
        tasks == old(tasks) &&
        log == old(log) + (if packet.paxosID.Some? then [LogAndExecute(packet.paxosID.value, packet)] else [])
      ensures packet.kind == Some(FailureDetect) || packet.kind == Some(FailureResponse) ==>
        log == old(log) && tasks == old(tasks) + [FailureDetectionTask(packet)]
      ensures packet.kind.Some? && packet.kind.value !in {Decision, FailureDetect, FailureResponse} ==>
        log == old(log) && tasks == old(tasks) + [PaxosMessageTask(packet, packet.kind.value)]
      ensures paxosInstances == old(paxosInstances) && proposalStates == old(proposalStates)
      ensures calls == old(calls) && logMsgID == old(logMsgID)
    {
      if packet.kind.None? {
        return;
      }
      var incomingPacketType := packet.kind.value;
      match incomingPacketType {
        case Decision =>
          if packet.paxosID.Some? {
            log := log + [LogAndExecute(packet.paxosID.value, packet)];
          }
        case FailureDetect =>
          tasks := tasks + [FailureDetectionTask(packet)];
        case FailureResponse =>
          tasks := tasks + [FailureDetectionTask(packet)];
        case _ =>
          tasks := tasks + [PaxosMessageTask(packet, incomingPacketType)];
      }
    }

    /**
     * `HandlePaxosMessageTask.run`: the message reaches a replica only when
     * the instance under its ID's key has exactly that ID; a message for
     * another epoch, or without an ID, is not delivered.
     */
    method RunPaxosMessageTask(packet: Packet, kind: PacketKind) returns (delivered: bool)
      requires Valid()
      modifies this
      ensures delivered <==> (packet.paxosID.Some? &&
        exists k :: k in paxosInstances && paxosInstances[k].paxosID == packet.paxosID.value)
      ensures calls == old(calls) + (if delivered then [HandleMessage(packet.paxosID.value, kind, packet.payload)] else [])
      ensures paxosInstances == old(paxosInstances) && proposalStates == old(proposalStates)
      ensures log == old(log) && tasks == old(tasks) && logMsgID == old(logMsgID)
    {
      if packet.paxosID.None? {
        return false;
      }
      var paxosID := packet.paxosID.value;
      FindByKey(paxosID);
      var key := Key(paxosID);
      if key in paxosInstances && paxosInstances[key].paxosID == paxosID {
        calls := calls + [HandleMessage(paxosID, kind, packet.payload)];
        assert paxosInstances[key].paxosID == packet.paxosID.value;
        return true;
      }
      return false;
    }

    /** `addToActiveProposals`: a set insertion in accept-time order. */
    method AddToActiveProposals(p: Proposal)
      requires Valid()
      modifies this
      ensures Valid()
      ensures forall x :: x in proposalStates <==> x == p || x in old(proposalStates)
      ensures p in old(proposalStates) ==> proposalStates == old(proposalStates)
      ensures paxosInstances == old(paxosInstances) && log == old(log) && calls == old(calls)
      ensures tasks == old(tasks) && logMsgID == old(logMsgID)
    {
      if p !in proposalStates {
        InsertByTimeDistinct(p, proposalStates);
        proposalStates := InsertByTime(p, proposalStates);
      }
    }

    /** `removeFromActiveProposals`: a set removal; the order of the rest is kept. */
    method RemoveFromActiveProposals(p: Proposal)
      requires Valid()
      modifies this
      ensures Valid()
      ensures proposalStates == Survivors(old(proposalStates), {p})
      ensures paxosInstances == old(paxosInstances) && log == old(log) && calls == old(calls)
      ensures tasks == old(tasks) && logMsgID == old(logMsgID)
    {
      SurvivorsValid(proposalStates, {p});
      proposalStates := Survivors(proposalStates, {p});
    }

    /**
     * `ResendPendingMessagesTask.run` at time `now`: collects the leading
     * run of stale proposals, asks each one's replica to resend it (its
     * answer is `resend`), removes those whose resend reports false and
     * schedules the scan again.
     */
    method ResendPendingMessages(now: int, resend: Proposal -> bool) returns (reattempts: seq<Proposal>)
      requires Valid()
      modifies this
      ensures Valid()
      ensures reattempts == StalePrefix(old(proposalStates), now)
      ensures proposalStates == Survivors(old(proposalStates), set p | p in reattempts && !resend(p))
      ensures calls == old(calls) + ResendCalls(reattempts)
      ensures tasks == old(tasks) + [ResendTask(RESEND_PENDING_MSG_INTERVAL_MILLIS)]
      ensures paxosInstances == old(paxosInstances) && log == old(log) && logMsgID == old(logMsgID)
    {
      reattempts := CollectStale(proposalStates, now);
      var states, newCalls := ResendEach(proposalStates, reattempts, resend);
      proposalStates := states;
      calls := calls + newCalls;
      tasks := tasks + [ResendTask(RESEND_PENDING_MSG_INTERVAL_MILLIS)];
    }

    /**
     * `logMsgID` is incremented, as a Java int, before each database log
     * write, which is not part of this model.
     */
    method NextLogMessageID() returns (msgID: int)
      modifies this
      ensures msgID == Text.Int32(old(logMsgID) + 1) && logMsgID == msgID
      ensures paxosInstances == old(paxosInstances) && proposalStates == old(proposalStates)
      ensures log == old(log) && calls == old(calls) && tasks == old(tasks)
    {
      logMsgID := Text.Int32(logMsgID + 1);
      msgID := logMsgID;
    }

    /** `resetAll`: forgets every instance and clears the logs. */
    method ResetAll()
      requires Valid()
      modifies this
      ensures Valid()
      ensures paxosInstances == map[] && log == []
      ensures proposalStates == old(proposalStates) && calls == old(calls)
      ensures tasks == old(tasks) && logMsgID == old(logMsgID)
    {
      paxosInstances := map[];
      log := [];
    }
  }

  /** The scan's first loop: the leading run of stale proposals. */
  method CollectStale(proposalStates: seq<Proposal>, now: int) returns (reattempts: seq<Proposal>)
    ensures reattempts == StalePrefix(proposalStates, now)
  {
    reattempts := [];
    var i := 0;
    while i < |proposalStates| && Stale(proposalStates[i], now)
      invariant 0 <= i <= |proposalStates|
      invariant reattempts == proposalStates[..i]
      invariant forall j :: 0 <= j < i ==> Stale(proposalStates[j], now)
    {
      reattempts := reattempts + [proposalStates[i]];
      i := i + 1;
    }
    StalePrefixIs(proposalStates, now, i);
  }

  /**
   * The scan's second loop: each collected proposal is resent, and removed
   * from the set when its resend reports false.
   */
  method ResendEach(start: seq<Proposal>, reattempts: seq<Proposal>, resend: Proposal -> bool)
    returns (states: seq<Proposal>, newCalls: seq<ReplicaCall>)
    requires Ordered(start) && Distinct(start)
    ensures Ordered(states) && Distinct(states)
    ensures states == Survivors(start, set p | p in reattempts && !resend(p))
    ensures newCalls == ResendCalls(reattempts)
  {
    states, newCalls := start, [];
    assert (set p | p in reattempts[..0] && !resend(p)) == {};
    SurvivorsNone(start);
    var j := 0;
    while j < |reattempts|
      invariant 0 <= j <= |reattempts|
      invariant Ordered(states) && Distinct(states)
      invariant states == Survivors(start, set p | p in reattempts[..j] && !resend(p))
      invariant newCalls == ResendCalls(reattempts[..j])
    {
      var propState := reattempts[j];
      ResendStep(start, reattempts, j, resend);
      ResendCallsStep(reattempts, j);
      newCalls := newCalls + [ResendPendingProposal(propState)];
      var result := resend(propState);
      if !result {
        SurvivorsValid(states, {propState});
        states := Survivors(states, {propState});
      }
      j := j + 1;
    }
    assert reattempts[..j] == reattempts;
  }

  /** The run the scan's first loop collects is the stale prefix. */
  lemma {:induction false} StalePrefixIs(s: seq<Proposal>, now: int, i: int)
    requires 0 <= i <= |s|
    requires forall j :: 0 <= j < i ==> Stale(s[j], now)
    requires i < |s| ==> !Stale(s[i], now)
    ensures StalePrefix(s, now) == s[..i]
  {
    if i > 0 {
      StalePrefixIs(s[1..], now, i - 1);
      assert s[..i] == [s[0]] + s[1..][..i - 1];
    }
  }

  /** One step of the scan's removal loop. */
  lemma ResendStep(start: seq<Proposal>, reattempts: seq<Proposal>, j: int, resend: Proposal -> bool)
    requires 0 <= j < |reattempts|
    ensures var before := set p | p in reattempts[..j] && !resend(p);
      var after := set p | p in reattempts[..j + 1] && !resend(p);
      Survivors(start, after) ==
        if resend(reattempts[j]) then Survivors(start, before)
        else Survivors(Survivors(start, before), {reattempts[j]})
  {
    var before := set p | p in reattempts[..j] && !resend(p);
    var after := set p | p in reattempts[..j + 1] && !resend(p);
    assert reattempts[..j + 1] == reattempts[..j] + [reattempts[j]];
    if resend(reattempts[j]) {
      assert after == before;
    } else {
      assert after == before + {reattempts[j]};
      SurvivorsUnion(start, before, {reattempts[j]});
    }
  }

  lemma ResendCallsStep(ps: seq<Proposal>, j: int)
    requires 0 <= j < |ps|
    ensures ResendCalls(ps[..j + 1]) == ResendCalls(ps[..j]) + [ResendPendingProposal(ps[j])]
  {
  }
}
