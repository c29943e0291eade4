/**
 * The administrative listener of the command processor (ListenerAdmin):
 * it multicasts dump requests to the active replicas, counts their
 * responses down in `replicationMap`, and hands the responses, and one
 * sentinel after the last, to the admin intercessor. Sockets, packet
 * framing and the intercessor are not modelled: what is handed on and
 * what is multicast is recorded instead.
 */
module ListenerAdmin {
  import opened Wrappers

  /** The operations of an admin request; a log level is given as parsed, `None` when `Level.parse` rejects it. */
  datatype AdminOperation =
    | DeleteAllRecords
    | ResetDb
    | ChangeLogLevel(level: Option<string>)
    | OtherOperation

  /** An incoming packet, by type. */
  datatype AdminPacket =
    | DumpRequest(id: int, primaryNameServer: Option<string>)
    | AdminRequest(operation: AdminOperation)
    | AdminResponse(response: string)
    | OtherPacket

  /** What is handed to the admin intercessor. */
  datatype Relayed = DumpResponse(id: int) | Sentinel(id: int) | AdminResponseRelayed(response: string)

  /** A packet multicast to a set of replicas. */
  datatype Multicast = Multicast(packet: AdminPacket, to: set<string>)

  /**
   * How handling ended: normally, with an exception the handler catches
   * and logs, or with one it does not catch, which ends the listener thread.
   */
  datatype Outcome = Handled | Ignored | Crashed

  datatype AdminState = AdminState(
    replicationMap: map<int, int>,
    relayed: seq<Relayed>,
    multicasts: seq<Multicast>,
    logLevel: Option<string>)

  datatype StepResult = StepResult(state: AdminState, outcome: Outcome)

  /** `handlePacket` for one packet, with `replicas` the active replicas at that moment. */
  function Step(s: AdminState, packet: AdminPacket, replicas: set<string>): StepResult
  {
    match packet
    case DumpRequest(id, primary) =>
      if primary.None? then
        // Outgoing: wait for one response per replica.
        StepResult(s.(replicationMap := s.replicationMap[id := |replicas|],
                      multicasts := s.multicasts + [Multicast(packet, replicas)]), Handled)
      else
        // Incoming: relayed first, then counted; an unknown id fails on unboxing null.
        var relayed := s.relayed + [DumpResponse(id)];
        if id !in s.replicationMap then StepResult(s.(relayed := relayed), Crashed)
        else
          var remaining := s.replicationMap[id] - 1;
          if remaining > 0 then
            StepResult(s.(replicationMap := s.replicationMap[id := remaining], relayed := relayed), Handled)
          else
            StepResult(s.(replicationMap := s.replicationMap - {id}, relayed := relayed + [Sentinel(id)]), Handled)
    case AdminRequest(operation) =>
      (match operation
       case DeleteAllRecords => StepResult(s.(multicasts := s.multicasts + [Multicast(packet, replicas)]), Handled)
       case ResetDb => StepResult(s.(multicasts := s.multicasts + [Multicast(packet, replicas)]), Handled)
       case ChangeLogLevel(level) =>
         if level.None? then StepResult(s, Ignored)
         else StepResult(s.(logLevel := level, multicasts := s.multicasts + [Multicast(packet, replicas)]), Handled)
       case OtherOperation => StepResult(s, Handled))
    case AdminResponse(response) => StepResult(s.(relayed := s.relayed + [AdminResponseRelayed(response)]), Handled)
    case OtherPacket => StepResult(s, Handled)
  }

  /** The accept loop over a run of packets: it stops at the first packet that crashes it. */
  function Run(s: AdminState, packets: seq<AdminPacket>, replicas: set<string>): AdminState
    decreases |packets|
  {
    if |packets| == 0 then s
    else
      var r := Step(s, packets[0], replicas);
      if r.outcome == Crashed then r.state else Run(r.state, packets[1..], replicas)
  }

  /** `k` incoming responses to dump request `id`. */
  function Responses(id: int, primary: string, k: nat): (r: seq<AdminPacket>)
    ensures |r| == k && forall i :: 0 <= i < k ==> r[i] == DumpRequest(id, Some(primary))
  {
    if k == 0 then [] else Responses(id, primary, k - 1) + [DumpRequest(id, Some(primary))]
  }

  /** `k` relayed responses to dump request `id`. */
  function Relays(id: int, k: nat): (r: seq<Relayed>)
    ensures |r| == k && forall i :: 0 <= i < k ==> r[i] == DumpResponse(id)
  {
    if k == 0 then [] else [DumpResponse(id)] + Relays(id, k - 1)
  }

  /**
   * With `k` responses still expected for `id`, `k` responses relay each
   * of them, then remove the entry and hand on exactly one sentinel,
   * last; nothing else changes.
   */
  lemma {:induction false} CountdownEndsWithOneSentinel(s: AdminState, id: int, primary: string, k: nat, replicas: set<string>)
    requires id in s.replicationMap && s.replicationMap[id] == k && k >= 1
    ensures Run(s, Responses(id, primary, k), replicas) ==
      s.(replicationMap := s.replicationMap - {id}, relayed := s.relayed + Relays(id, k) + [Sentinel(id)])
    decreases k
  {
    var packets := Responses(id, primary, k);
    var r := Step(s, packets[0], replicas);
    assert packets[0] == DumpRequest(id, Some(primary));
    if k == 1 {
      assert packets[1..] == [];
      assert Relays(id, 1) == [DumpResponse(id)];
    } else {
      assert r.state == s.(replicationMap := s.replicationMap[id := k - 1], relayed := s.relayed + [DumpResponse(id)]);
      assert packets[1..] == Responses(id, primary, k - 1) by {
        ResponsesTail(id, primary, k);
      }
      CountdownEndsWithOneSentinel(r.state, id, primary, k - 1, replicas);
      assert r.state.replicationMap[id := k - 1] - {id} == s.replicationMap - {id};
      assert [DumpResponse(id)] + Relays(id, k - 1) == Relays(id, k);
    }
  }

  lemma {:induction false} ResponsesTail(id: int, primary: string, k: nat)
    requires k >= 1
    ensures Responses(id, primary, k)[1..] == Responses(id, primary, k - 1)
  {
  }

  /**
   * A whole dump round: the request is multicast to the active replicas,
   * one response from each of them is relayed, and then the entry is gone
   * and exactly one sentinel has been handed on.
   */
  lemma DumpRound(s: AdminState, id: int, primary: string, replicas: set<string>)
    requires |replicas| >= 1
    ensures var t := Run(s, [DumpRequest(id, None)] + Responses(id, primary, |replicas|), replicas);
      t.replicationMap == s.replicationMap - {id} &&
      t.relayed == s.relayed + Relays(id, |replicas|) + [Sentinel(id)] &&
      t.multicasts == s.multicasts + [Multicast(DumpRequest(id, None), replicas)] &&
      t.logLevel == s.logLevel
  {
    var packets := [DumpRequest(id, None)] + Responses(id, primary, |replicas|);
    var r := Step(s, packets[0], replicas);
    assert packets[1..] == Responses(id, primary, |replicas|);
    CountdownEndsWithOneSentinel(r.state, id, primary, |replicas|, replicas);
    assert s.replicationMap[id := |replicas|] - {id} == s.replicationMap - {id};
  }

  /** Until the last response, the count of responses still expected goes down by one each time and no sentinel is sent. */
  lemma {:induction false} CountdownInProgress(s: AdminState, id: int, primary: string, k: nat, j: nat, replicas: set<string>)
    requires id in s.replicationMap && s.replicationMap[id] == k && j < k
    ensures var t := Run(s, Responses(id, primary, j), replicas);
      id in t.replicationMap && t.replicationMap[id] == k - j &&
      t.relayed == s.relayed + Relays(id, j) &&
      (forall other :: other != id ==> (other in t.replicationMap <==> other in s.replicationMap))
    decreases j
  {
    if j > 0 {
      var packets := Responses(id, primary, j);
      var r := Step(s, packets[0], replicas);
      assert packets[0] == DumpRequest(id, Some(primary));
      assert packets[1..] == Responses(id, primary, j - 1) by {
        ResponsesTail(id, primary, j);
      }
      CountdownInProgress(r.state, id, primary, k - 1, j - 1, replicas);
      assert [DumpResponse(id)] + Relays(id, j - 1) == Relays(id, j);
    }
  }

  /** A response for an id with no entry is still relayed, and then stops the listener with the map unchanged. */
  lemma UnknownResponseCrashes(s: AdminState, id: int, primary: string, replicas: set<string>)
    requires id !in s.replicationMap
    ensures Step(s, DumpRequest(id, Some(primary)), replicas) ==
      StepResult(s.(relayed := s.relayed + [DumpResponse(id)]), Crashed)
  {
  }

  /** Packets other than dump requests never touch `replicationMap`, and only a dump response can crash the listener. */
  lemma OnlyDumpsTouchTheCount(s: AdminState, packet: AdminPacket, replicas: set<string>)
    ensures !packet.DumpRequest? ==> Step(s, packet, replicas).state.replicationMap == s.replicationMap
    ensures !packet.DumpRequest? ==> Step(s, packet, replicas).outcome != Crashed
    ensures packet == AdminRequest(OtherOperation) || packet == OtherPacket ==> Step(s, packet, replicas) == StepResult(s, Handled)
    ensures Step(s, packet, replicas).outcome == Crashed <==>
      packet.DumpRequest? && packet.primaryNameServer.Some? && packet.id !in s.replicationMap
  {
  }

  /** A log level that does not parse is caught and logged: nothing changes and nothing is forwarded. */
  lemma BadLogLevelIsIgnored(s: AdminState, replicas: set<string>)
    ensures Step(s, AdminRequest(ChangeLogLevel(None)), replicas) == StepResult(s, Ignored)
  {
  }

  /** The listener, with the state `handlePacket` changes. */
  class Listener {
    var replicationMap: map<int, int>
    var relayed: seq<Relayed>
    var multicasts: seq<Multicast>
    var logLevel: Option<string>

    function State(): AdminState
      reads this
    {
      AdminState(replicationMap, relayed, multicasts, logLevel)
    }

    constructor (level: Option<string>)
      ensures State() == AdminState(map[], [], [], level)
    {
      replicationMap := map[];
      relayed := [];
      multicasts := [];
      logLevel := level;
    }

    /** `handlePacket`. */
    method HandlePacket(packet: AdminPacket, replicas: set<string>) returns (outcome: Outcome)
      modifies this
      ensures State() == Step(old(State()), packet, replicas).state
      ensures outcome == Step(old(State()), packet, replicas).outcome
    {
      outcome := Handled;
      match packet {
        case DumpRequest(id, primary) =>
          if primary.None? {
            replicationMap := replicationMap[id := |replicas|];
            multicasts := multicasts + [Multicast(packet, replicas)];
          } else {
            relayed := relayed + [DumpResponse(id)];
            if id !in replicationMap {
              return Crashed;
            }
            var remaining := replicationMap[id];
            remaining := remaining - 1;
            if remaining > 0 {
              replicationMap := replicationMap[id := remaining];
            } else {
              replicationMap := replicationMap - {id};
              relayed := relayed + [Sentinel(id)];
            }
          }
        case AdminRequest(operation) =>
          match operation {
            case DeleteAllRecords =>
              multicasts := multicasts + [Multicast(packet, replicas)];
            case ResetDb =>
              multicasts := multicasts + [Multicast(packet, replicas)];
            case ChangeLogLevel(level) =>
              if level.None? {
                return Ignored;
              }
              logLevel := level;
              multicasts := multicasts + [Multicast(packet, replicas)];
            case OtherOperation =>
          }
        case AdminResponse(response) =>
          relayed := relayed + [AdminResponseRelayed(response)];
        case OtherPacket =>
      }
    }

    /**
     * `run`: the accept loop, handling packets in the order they arrive
     * until one crashes the thread; the result is how many were taken.
     */
    method Serve(packets: seq<AdminPacket>, replicas: set<string>) returns (taken: nat)
      modifies this
      ensures State() == Run(old(State()), packets, replicas)
      ensures taken <= |packets|
    {
      taken := 0;
      while taken < |packets|
        invariant taken <= |packets|
        invariant Run(State(), packets[taken..], replicas) == Run(old(State()), packets, replicas)
        decreases |packets| - taken
      {
        ghost var before := State();
        var outcome := HandlePacket(packets[taken], replicas);
        taken := taken + 1;
        if outcome == Crashed {
          assert State() == Run(before, packets[taken - 1..], replicas);
          return;
        }
        assert packets[taken - 1..][1..] == packets[taken..];
      }
    }
  }
}
