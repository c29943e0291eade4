/**
 * The scatter/gather side of Select.java. The collecting name server keeps
 * a table of queries in progress (NSSelectInfo) keyed by a fresh id; each
 * name server's response is stored, the server is crossed off, and once no
 * server is left the combined reply is put where the waiting coordinator
 * finds it. A name server answering a select-notify request sends the
 * matching guids in batches and reports the summed sending statistics.
 */
module Select {
  import opened Wrappers
  import opened Json
  import opened Fresh
  import opened NodePartitioning
  import opened SelectRequestPacket
  import opened SelectRecords
  import NotificationStats
  import SelectHandleInfo
  import opened NotificationState

  type StatsToIssuer = NotificationStats.StatsToIssuer
  type HandleInfo = SelectHandleInfo.HandleInfo

  // ---------------------------------------------------------------------
  // Summing statistics

  /** Component-wise sum of two sets of counts. */
  function Add(a: StatsToIssuer, b: StatsToIssuer): StatsToIssuer
  {
    NotificationStats.StatsToIssuer(
      a.totalNotifications + b.totalNotifications,
      a.failedNotifications + b.failedNotifications,
      a.pendingNotifications + b.pendingNotifications)
  }

  const Zero: StatsToIssuer := NotificationStats.StatsToIssuer(0, 0, 0)

  /** The counts one sent batch contributes: failures are the failed guids. */
  function Counts(s: SendingStats): StatsToIssuer
  {
    NotificationStats.StatsToIssuer(s.totalNotifications, |s.guidsFailed|, s.numberPending)
  }

  /** The sum of the counts of a list of sending statistics. */
  function SendingTotals(stats: seq<SendingStats>): (r: StatsToIssuer)
    ensures r.failedNotifications >= 0
  {
    if |stats| == 0 then Zero
    else Add(SendingTotals(stats[..|stats| - 1]), Counts(stats[|stats| - 1]))
  }

  /** The sum of a list of counts reported by name servers. */
  function Totals(stats: seq<StatsToIssuer>): StatsToIssuer
  {
    if |stats| == 0 then Zero
    else Add(Totals(stats[..|stats| - 1]), stats[|stats| - 1])
  }

  /** Summing is additive over concatenation, so per-batch and per-server sums compose. */
  lemma {:induction false} SendingTotalsAppend(a: seq<SendingStats>, b: seq<SendingStats>)
    ensures SendingTotals(a + b) == Add(SendingTotals(a), SendingTotals(b))
    decreases |b|
  {
    if |b| == 0 {
      assert a + b == a;
    } else {
      var c, b' := a + b, b[..|b| - 1];
      assert c[..|c| - 1] == a + b' && c[|c| - 1] == b[|b| - 1];
      SendingTotalsAppend(a, b');
      assert SendingTotals(c) == Add(Add(SendingTotals(a), SendingTotals(b')), Counts(b[|b| - 1]));
    }
  }

  /** The same for the counts name servers report. */
  lemma {:induction false} TotalsAppend(a: seq<StatsToIssuer>, b: seq<StatsToIssuer>)
    ensures Totals(a + b) == Add(Totals(a), Totals(b))
    decreases |b|
  {
    if |b| == 0 {
      assert a + b == a;
    } else {
      var c, b' := a + b, b[..|b| - 1];
      assert c[..|c| - 1] == a + b' && c[|c| - 1] == b[|b| - 1];
      TotalsAppend(a, b');
      assert Totals(c) == Add(Add(Totals(a), Totals(b')), b[|b| - 1]);
    }
  }

  /** The summing loop over the name server's own sending statistics. */
  method SumSendingStats(allStats: seq<SendingStats>) returns (r: StatsToIssuer)
    ensures r == SendingTotals(allStats)
  {
    var totalNot := 0;
    var totalFailed := 0;
    var totalPending := 0;
    var i := 0;
    while i < |allStats|
      invariant 0 <= i <= |allStats|
      invariant NotificationStats.StatsToIssuer(totalNot, totalFailed, totalPending) == SendingTotals(allStats[..i])
    {
      assert allStats[..i + 1][..i] == allStats[..i];
      totalNot := totalNot + allStats[i].totalNotifications;
      totalFailed := totalFailed + |allStats[i].guidsFailed|;
      totalPending := totalPending + allStats[i].numberPending;
      i := i + 1;
    }
    assert allStats[..i] == allStats;
    r := NotificationStats.StatsToIssuer(totalNot, totalFailed, totalPending);
  }

  /** The summing loop of the collecting server over the name servers' reports. */
  method SumIssuerStats(statsList: seq<StatsToIssuer>) returns (r: StatsToIssuer)
    ensures r == Totals(statsList)
  {
    var totalNot := 0;
    var failedNot := 0;
    var pendingNot := 0;
    var i := 0;
    while i < |statsList|
      invariant 0 <= i <= |statsList|
      invariant NotificationStats.StatsToIssuer(totalNot, failedNot, pendingNot) == Totals(statsList[..i])
    {
      assert statsList[..i + 1][..i] == statsList[..i];
      totalNot := totalNot + statsList[i].totalNotifications;
      failedNot := failedNot + statsList[i].failedNotifications;
      pendingNot := pendingNot + statsList[i].pendingNotifications;
      i := i + 1;
    }
    assert statsList[..i] == statsList;
    r := NotificationStats.StatsToIssuer(totalNot, failedNot, pendingNot);
  }

  // ---------------------------------------------------------------------
  // Batching the guids of a select-notify request

  /**
   * What the cursor loop sees per record: the record's guid, or `None`
   * when the ACL check or the projection dropped it or its name could not
   * be read.
   */
  type CursorItem = Option<string>

  /** The guids of the items, in cursor order. */
  function GuidsOf(items: seq<CursorItem>): (r: seq<string>)
    ensures |r| <= |items|
  {
    if |items| == 0 then []
    else GuidsOf(items[..|items| - 1]) + (if items[|items| - 1].Some? then [items[|items| - 1].value] else [])
  }

  /** The batches sent so far and the list being filled. */
  datatype ScanState = ScanState(sent: seq<seq<string>>, curr: seq<string>)

  /**
   * The state after the cursor loop has seen `items`: after every record
   * the current list is sent once it holds at least `fetchSize` guids.
   */
  function Scan(items: seq<CursorItem>, fetchSize: int): ScanState
  {
    if |items| == 0 then ScanState([], [])
    else ScanOne(Scan(items[..|items| - 1], fetchSize), items[|items| - 1], fetchSize)
  }

  /** One record of the cursor loop: its guid joins the current list, which is sent once it is full. */
  function ScanOne(s: ScanState, item: CursorItem, fetchSize: int): ScanState
  {
    var curr := if item.Some? then s.curr + [item.value] else s.curr;
    if |curr| >= fetchSize then ScanState(s.sent + [curr], []) else ScanState(s.sent, curr)
  }

  /** Every batch sent for the request: those sent in the loop, then a non-empty remainder. */
  function Batches(items: seq<CursorItem>, fetchSize: int): seq<seq<string>>
  {
    var s := Scan(items, fetchSize);
    if |s.curr| > 0 then s.sent + [s.curr] else s.sent
  }

  function Flatten(batches: seq<seq<string>>): seq<string>
  {
    if |batches| == 0 then [] else Flatten(batches[..|batches| - 1]) + batches[|batches| - 1]
  }

  /** Full batches sent, a short current list, and together the guids seen, in order. */
  predicate ScanKeeps(s: ScanState, guids: seq<string>, fetchSize: int)
  {
    && Flatten(s.sent) + s.curr == guids
    && (forall i :: 0 <= i < |s.sent| ==> |s.sent[i]| == fetchSize)
    && |s.curr| < fetchSize
  }

  lemma ScanOneKeeps(s: ScanState, guids: seq<string>, item: CursorItem, fetchSize: int)
    requires ScanKeeps(s, guids, fetchSize)
    ensures ScanKeeps(ScanOne(s, item, fetchSize), guids + (if item.Some? then [item.value] else []), fetchSize)
  {
    var added := if item.Some? then [item.value] else [];
    var curr := s.curr + added;
    assert Flatten(s.sent) + curr == guids + added;
    if |curr| >= fetchSize {
      FlattenSnoc(s.sent, curr);
      assert ScanOne(s, item, fetchSize) == ScanState(s.sent + [curr], []);
    } else {
      assert ScanOne(s, item, fetchSize) == ScanState(s.sent, curr);
    }
  }

  /** The loop keeps: full batches sent, a short current list, and every guid exactly once in order. */
  lemma {:induction false} ScanInvariant(items: seq<CursorItem>, fetchSize: int)
    requires fetchSize >= 1
    ensures Flatten(Scan(items, fetchSize).sent) + Scan(items, fetchSize).curr == GuidsOf(items)
    ensures forall i :: 0 <= i < |Scan(items, fetchSize).sent| ==> |Scan(items, fetchSize).sent[i]| == fetchSize
    ensures |Scan(items, fetchSize).curr| < fetchSize
  {
    if |items| > 0 {
      var init := items[..|items| - 1];
      ScanInvariant(init, fetchSize);
      ScanOneKeeps(Scan(init, fetchSize), GuidsOf(init), items[|items| - 1], fetchSize);
    }
  }

  lemma FlattenSnoc(batches: seq<seq<string>>, b: seq<string>)
    ensures Flatten(batches + [b]) == Flatten(batches) + b
  {
    assert (batches + [b])[..|batches|] == batches;
  }

  /**
   * With a positive fetch size the batches split the guids, in order, into
   * runs of exactly `fetchSize` followed by one non-empty remainder of at
   * most `fetchSize`, so there are ceil(|guids| / fetchSize) of them: none
   * without guids, and otherwise just enough to hold them all.
   */
  lemma BatchesSplitGuids(items: seq<CursorItem>, fetchSize: int)
    requires fetchSize >= 1
    ensures var b := Batches(items, fetchSize);
      Flatten(b) == GuidsOf(items) &&
      (forall i :: 0 <= i < |b| - 1 ==> |b[i]| == fetchSize) &&
      (|b| > 0 ==> 0 < |b[|b| - 1]| <= fetchSize) &&
      (|b| == 0 <==> |GuidsOf(items)| == 0) &&
      (|b| > 0 ==> (|b| - 1) * fetchSize < |GuidsOf(items)| <= |b| * fetchSize)
  {
    ScanInvariant(items, fetchSize);
    var s := Scan(items, fetchSize);
    var b := Batches(items, fetchSize);
    if |s.curr| > 0 {
      assert b[..|s.sent|] == s.sent;
    }
    FlattenLength(s.sent, fetchSize);
    assert |GuidsOf(items)| == |s.sent| * fetchSize + |s.curr|;
    BatchCount(|s.sent|, |s.curr|, fetchSize);
  }

  /** `q` full batches and a remainder of `c` guids need `q` batches, plus one when `c` is positive. */
  lemma BatchCount(q: nat, c: nat, f: int)
    requires f >= 1 && c < f
    ensures var n := q * f + c;
      var k := q + (if c > 0 then 1 else 0);
      (k == 0 <==> n == 0) && (k > 0 ==> (k - 1) * f < n <= k * f)
  {
    if c > 0 {
      assert (q + 1) * f == q * f + f;
    } else if q > 0 {
      assert (q - 1) * f == q * f - f;
    }
  }

  /** Full batches flatten to their number times the fetch size. */
  lemma {:induction false} FlattenLength(sent: seq<seq<string>>, fetchSize: int)
    requires forall i :: 0 <= i < |sent| ==> |sent[i]| == fetchSize
    ensures |Flatten(sent)| == |sent| * fetchSize
  {
    if |sent| > 0 {
      FlattenLength(sent[..|sent| - 1], fetchSize);
    }
  }

  /** With a fetch size of at most zero every record sends a batch of its own, possibly empty. */
  lemma {:induction false} NonPositiveFetchSize(items: seq<CursorItem>, fetchSize: int)
    requires fetchSize <= 0
    ensures var b := Batches(items, fetchSize);
      |b| == |items| &&
      forall i :: 0 <= i < |items| ==> b[i] == (if items[i].Some? then [items[i].value] else [])
  {
    if |items| > 0 {
      NonPositiveFetchSize(items[..|items| - 1], fetchSize);
    }
  }

  /** The statistics reported for each batch, in order. */
  function SendAll(batches: seq<seq<string>>, notificationStr: string, send: (seq<string>, string) -> SendingStats): (r: seq<SendingStats>)
    ensures |r| == |batches| && forall i :: 0 <= i < |batches| ==> r[i] == send(batches[i], notificationStr)
  {
    seq(|batches|, i requires 0 <= i < |batches| => send(batches[i], notificationStr))
  }

  /**
   * A sender that reports one notification per guid it was given makes
   * the total the number of guids the query matched.
   */
  lemma {:induction false} TotalCountsEveryGuid(batches: seq<seq<string>>, notificationStr: string, send: (seq<string>, string) -> SendingStats)
    requires forall b :: send(b, notificationStr).totalNotifications == |b|
    ensures SendingTotals(SendAll(batches, notificationStr, send)).totalNotifications == |Flatten(batches)|
  {
    if |batches| > 0 {
      var init := batches[..|batches| - 1];
      TotalCountsEveryGuid(init, notificationStr, send);
      assert SendAll(batches, notificationStr, send)[..|batches| - 1] == SendAll(init, notificationStr, send);
    }
  }

  // ---------------------------------------------------------------------
  // The collecting server's table of queries in progress

  /** Removing a key just added to a map gives the map back. */
  lemma UpdateThenRemove<K, V>(m: map<K, V>, k: K, v: V)
    requires k !in m
    ensures m[k := v] - {k} == m
  {
  }

  /**
   * The response a name server sends back (SelectResponsePacket is not
   * part of this model): the records it found, or its notification counts.
   */
  datatype Response = Response(
    requestId: int,
    nsQueryId: int,
    nsAddress: Address,
    noError: bool,
    records: seq<Value>,
    notificationStats: StatsToIssuer)

  /** The reply left for the coordinator. */
  datatype Reply =
    | Guids(requestId: int, guids: set<string>)                 // projection null: guids only
    | Records(requestId: int, records: seq<Object>)              // otherwise the massaged records
    | NotificationStatsOnly(requestId: int, handle: HandleInfo, stats: StatsToIssuer)

  /**
   * NSSelectInfo (not part of this model): the servers yet to respond, all
   * servers asked, the request, the records received so far with their
   * names (the first record seen under a name wins) and the notification
   * counts received so far.
   */
  datatype QueryInfo = QueryInfo(
    id: int,
    serversToBeProcessed: set<Address>,
    allServers: set<Address>,
    operation: SelectOperation,
    query: string,
    projection: Option<seq<string>>,
    responses: seq<Object>,
    names: seq<string>,
    notificationStats: seq<StatsToIssuer>)

  /** The records received carry their names, one record per name. */
  predicate ValidInfo(info: QueryInfo)
  {
    |info.responses| == |info.names| &&
    (forall i :: 0 <= i < |info.names| ==> NameOf(info.responses[i]) == Some(info.names[i])) &&
    (forall i, j :: 0 <= i < j < |info.names| ==> info.names[i] != info.names[j])
  }

  /** A fresh query: every server still to respond, nothing received. */
  function NewQueryInfo(id: int, serverAddresses: set<Address>, operation: SelectOperation, query: string, projection: Option<seq<string>>): (r: QueryInfo)
    ensures ValidInfo(r) && r.serversToBeProcessed == r.allServers == serverAddresses
  {
    QueryInfo(id, serverAddresses, serverAddresses, operation, query, projection, [], [], [])
  }

  /** `addRecordResponseIfNotSeenYet`: a record under a new name is appended, one under a known name ignored. */
  function AddRecordIfNotSeen(info: QueryInfo, name: string, record: Object): (r: QueryInfo)
    requires NameOf(record) == Some(name)
    requires ValidInfo(info)
    ensures ValidInfo(r)
    ensures name in info.names ==> r == info
    ensures name !in info.names ==> r == info.(responses := info.responses + [record], names := info.names + [name])
  {
    if name in info.names then info
    else info.(responses := info.responses + [record], names := info.names + [name])
  }

  /** The info after storing, and whether storing finished without a JSONException. */
  datatype Stored = Stored(info: QueryInfo, complete: bool)

  /**
   * The record loop of `storeReply`: each element must be an object with
   * a readable name; the first that is not aborts the loop, keeping what
   * was stored before it.
   */
  function StoreRecords(info: QueryInfo, records: seq<Value>): (r: Stored)
    requires ValidInfo(info)
    ensures ValidInfo(r.info)
    ensures r.info == info.(responses := r.info.responses, names := r.info.names)
    ensures info.names <= r.info.names && info.responses <= r.info.responses
    ensures r.complete <==> forall i :: 0 <= i < |records| ==> records[i].JObj? && NameOf(records[i].fields).Some?
    ensures r.complete ==> forall i :: 0 <= i < |records| ==> NameOf(records[i].fields).value in r.info.names
    decreases |records|
  {
    if |records| == 0 then Stored(info, true)
    else if !records[0].JObj? then Stored(info, false)
    else
      match NameOf(records[0].fields)
      case None => Stored(info, false)
      case Some(name) =>
        var next := AddRecordIfNotSeen(info, name, records[0].fields);
        var r := StoreRecords(next, records[1..]);
        assert forall i :: 1 <= i < |records| ==> records[i] == records[1..][i - 1];
        assert name in next.names;
        assert name in r.info.names by {
          var j :| 0 <= j < |next.names| && next.names[j] == name;
          assert r.info.names[j] == name;
        }
        r
  }

  /** The loop of `storeReply`, one record at a time. */
  method StoreRecordsLoop(info: QueryInfo, records: seq<Value>) returns (r: Stored)
    requires ValidInfo(info)
    ensures r == StoreRecords(info, records)
  {
    var cur := info;
    var i := 0;
    while i < |records|
      invariant 0 <= i <= |records|
      invariant ValidInfo(cur)
      invariant StoreRecords(cur, records[i..]) == StoreRecords(info, records)
    {
      if !records[i].JObj? {
        return Stored(cur, false);
      }
      var name := NameOf(records[i].fields);
      if name.None? {
        return Stored(cur, false);
      }
      assert records[i..][1..] == records[i + 1..];
      cur := AddRecordIfNotSeen(cur, name.value, records[i].fields);
      i := i + 1;
    }
    return Stored(cur, true);
  }

  /** For a valid info the guids extracted from the stored records are exactly the names recorded. */
  lemma GuidsAreNames(info: QueryInfo)
    requires ValidInfo(info)
    ensures ExtractGuids(info.responses) == set n | n in info.names
  {
    forall g | g in ExtractGuids(info.responses) ensures g in info.names {
      var i :| 0 <= i < |info.responses| && NameOf(info.responses[i]) == Some(g);
      assert info.names[i] == g;
    }
    forall g | g in info.names ensures g in ExtractGuids(info.responses) {
      var i :| 0 <= i < |info.names| && info.names[i] == g;
      assert NameOf(info.responses[i]) == Some(g);
    }
  }

  /** `storeReply` for a NO_ERROR response, by operation. */
  function StoreReply(info: QueryInfo, packet: Response): (r: Stored)
    requires ValidInfo(info)
    ensures ValidInfo(r.info)
    ensures r.info.serversToBeProcessed == info.serversToBeProcessed && r.info.allServers == info.allServers
    ensures r.info.operation == info.operation && r.info.projection == info.projection
    ensures info.operation == SELECT_NOTIFY ==>
      r == Stored(info.(notificationStats := info.notificationStats + [packet.notificationStats]), true)
    ensures info.operation in {NOTIFICATION_STATUS, NOTIFICATION_STATUS_REPLY} ==> r == Stored(info, true)
  {
    match info.operation
    case SELECT_NOTIFY => Stored(info.(notificationStats := info.notificationStats + [packet.notificationStats]), true)
    case NOTIFICATION_STATUS => Stored(info, true)
    case NOTIFICATION_STATUS_REPLY => Stored(info, true)
    case _ => StoreRecords(info, packet.records)
  }

  /** Whether the operation returns records (and so guids) rather than notification counts. */
  predicate ReturnsRecords(operation: SelectOperation)
  {
    operation in {EQUALS, NEAR, WITHIN, SelectOperation.QUERY}
  }

  /**
   * The reply `handledAllServersResponded` builds once every server has
   * answered; `handle` is the entry-point handle a select-notify request
   * receives. `None` for the operations it has no case for.
   */
  function ReplyFor(info: QueryInfo, packet: Response, nodeAddress: Address, isInternalField: string -> bool, handle: int): (r: Option<Reply>)
    requires ValidInfo(info)
    ensures r.None? <==> !ReturnsRecords(info.operation) && info.operation != SELECT_NOTIFY
    ensures ReturnsRecords(info.operation) && info.projection.None? ==>
      r == Some(Guids(packet.requestId, set n | n in info.names))
    ensures ReturnsRecords(info.operation) && info.projection.Some? ==>
      r == Some(Records(packet.requestId, FilterAndMassage(info.responses, isInternalField)))
    ensures info.operation == SELECT_NOTIFY ==>
      r == Some(NotificationStatsOnly(packet.requestId, SelectHandleInfo.HandleInfo(handle, nodeAddress), Totals(info.notificationStats)))
  {
    if ReturnsRecords(info.operation) then
      if info.projection.None? then
        GuidsAreNames(info);
        Some(Guids(packet.requestId, ExtractGuids(info.responses)))
      else
        Some(Records(packet.requestId, FilterAndMassage(info.responses, isInternalField)))
    else if info.operation == SELECT_NOTIFY then
      Some(NotificationStatsOnly(packet.requestId, SelectHandleInfo.HandleInfo(handle, nodeAddress), Totals(info.notificationStats)))
    else None
  }

  /**
   * Every stored record has a name, so massaging drops one only when its
   * values map cannot be read; records always carrying one lose none.
   */
  lemma ValidRecordsReadable(info: QueryInfo, isInternalField: string -> bool)
    requires ValidInfo(info)
    ensures (forall i :: 0 <= i < |info.responses| ==> VALUES_MAP in info.responses[i] && info.responses[i][VALUES_MAP].JObj?) ==>
      |FilterAndMassage(info.responses, isInternalField)| == |info.names|
  {
    if forall i :: 0 <= i < |info.responses| ==> VALUES_MAP in info.responses[i] && info.responses[i][VALUES_MAP].JObj? {
      FilterAndMassageKeepsReadable(info.responses, isInternalField);
    }
  }

  /** What handling one response led to. */
  datatype Outcome =
    | Ignored                 // no query in progress under that id
    | StoreFailed             // storeReply threw a JSONException; the server stays pending
    | Waiting                 // servers still to respond
    | Completed(reply: Reply) // the reply was put in the result table
    | NoReply                 // no reply for the operation: putting null into the table throws

  /** The info once `packet` has been stored (if NO_ERROR), before the server is crossed off. */
  function Received(info: QueryInfo, packet: Response): (r: Stored)
    requires ValidInfo(info)
    ensures ValidInfo(r.info)
    ensures !packet.noError ==> r == Stored(info, true)
  {
    if packet.noError then StoreReply(info, packet) else Stored(info, true)
  }

  class SelectState {
    /** QUERIES_IN_PROGRESS: query id to its info. */
    var queriesInProgress: map<int, QueryInfo>
    /** QUERY_RESULT: query id to the reply left for the coordinator. */
    var queryResult: map<int, Reply>
    const entryPointState: EntryPointState
    /** The per-handle statistics of notifications this name server sends. */
    const pendingNotifications: NameServerState

    predicate Valid()
      reads this
    {
      forall id :: id in queriesInProgress ==> ValidInfo(queriesInProgress[id])
    }

    constructor ()
      ensures Valid()
      ensures queriesInProgress == map[] && queryResult == map[]
      ensures fresh(entryPointState) && entryPointState.entryPointStateMap == map[]
      ensures fresh(pendingNotifications) && pendingNotifications.notificationInfo == map[]
    {
      queriesInProgress := map[];
      queryResult := map[];
      entryPointState := new EntryPointState();
      pendingNotifications := new NameServerState();
    }

    /** `addQueryInfo`: registers a new query under an id not in use and returns the id. */
    method AddQueryInfo(serverAddresses: set<Address>, selectOperation: SelectOperation, query: string, projection: Option<seq<string>>)
      returns (id: int)
      requires Valid()
      modifies this
      ensures Valid()
      ensures id !in old(queriesInProgress)
      ensures queriesInProgress == old(queriesInProgress)[id := NewQueryInfo(id, serverAddresses, selectOperation, query, projection)]
      ensures queryResult == old(queryResult)
    {
      assert Bound(queriesInProgress.Keys) !in queriesInProgress;
      id :| id !in queriesInProgress;
      queriesInProgress := queriesInProgress[id := NewQueryInfo(id, serverAddresses, selectOperation, query, projection)];
    }

    /**
     * `handleSelectResponse` with `handledAllServersResponded`: an unknown
     * query id is ignored; a NO_ERROR response is stored; the responding
     * server is crossed off whatever the response code; when no server is
     * left, the reply is put in the result table and, when the client
     * messaging is delegated, the query is removed.
     */
    method HandleSelectResponse(packet: Response, nodeAddress: Address, isInternalField: string -> bool, delegateClientMessaging: bool)
      returns (outcome: Outcome)
      requires Valid()
      modifies this, entryPointState
      ensures Valid()
      ensures packet.nsQueryId !in old(queriesInProgress) ==>
        outcome == Ignored && queriesInProgress == old(queriesInProgress) && queryResult == old(queryResult)
      ensures packet.nsQueryId in old(queriesInProgress) ==>
        var id := packet.nsQueryId;
        var stored := Received(old(queriesInProgress)[id], packet);
        var info := stored.info.(serversToBeProcessed := stored.info.serversToBeProcessed - {packet.nsAddress});
        (!stored.complete ==>
          outcome == StoreFailed && queriesInProgress == old(queriesInProgress)[id := stored.info] &&
          queryResult == old(queryResult)) &&
        (stored.complete && info.serversToBeProcessed != {} ==>
          outcome == Waiting && queriesInProgress == old(queriesInProgress)[id := info] &&
          queryResult == old(queryResult)) &&
        (stored.complete && info.serversToBeProcessed == {} && outcome.NoReply? ==>
          ReplyFor(info, packet, nodeAddress, isInternalField, 0).None? &&
          queriesInProgress == old(queriesInProgress)[id := info] && queryResult == old(queryResult)) &&
        (stored.complete && info.serversToBeProcessed == {} && !outcome.NoReply? ==>
          outcome.Completed? &&
          (info.operation == SELECT_NOTIFY ==>
            outcome.reply.NotificationStatsOnly? &&
            var handle := outcome.reply.handle.handleId;
            handle !in old(entryPointState.entryPointStateMap) &&
            entryPointState.entryPointStateMap == old(entryPointState.entryPointStateMap)[handle := info.allServers]) &&
          Some(outcome.reply) == ReplyFor(info, packet, nodeAddress, isInternalField,
            if outcome.reply.NotificationStatsOnly? then outcome.reply.handle.handleId else 0) &&
          queryResult == old(queryResult)[id := outcome.reply] &&
          queriesInProgress == (if delegateClientMessaging then old(queriesInProgress)[id := info] - {id}
                                else old(queriesInProgress)[id := info]))
      ensures !(outcome.Completed? && outcome.reply.NotificationStatsOnly?) ==> entryPointState.entryPointStateMap == old(entryPointState.entryPointStateMap)
    {
      var id := packet.nsQueryId;
      if id !in queriesInProgress {
        return Ignored;
      }
      var stored := Received(queriesInProgress[id], packet);
      if packet.noError && ReturnsRecords(queriesInProgress[id].operation) {
        // storeReply's record loop
        stored := StoreRecordsLoop(queriesInProgress[id], packet.records);
      }
      queriesInProgress := queriesInProgress[id := stored.info];
      if !stored.complete {
        return StoreFailed;
      }
      var info := stored.info.(serversToBeProcessed := stored.info.serversToBeProcessed - {packet.nsAddress});
      queriesInProgress := queriesInProgress[id := info];
      if info.serversToBeProcessed != {} {
        return Waiting;
      }
      outcome := HandledAllServersResponded(id, packet, info, nodeAddress, isInternalField, delegateClientMessaging);
    }

    /** `handledAllServersResponded`: builds the reply and publishes it. */
    method HandledAllServersResponded(id: int, packet: Response, info: QueryInfo, nodeAddress: Address, isInternalField: string -> bool, delegateClientMessaging: bool)
      returns (outcome: Outcome)
      requires Valid() && ValidInfo(info) && id in queriesInProgress && queriesInProgress[id] == info
      modifies this, entryPointState
      ensures Valid()
      ensures outcome.NoReply? || outcome.Completed?
      ensures outcome.NoReply? ==>
        ReplyFor(info, packet, nodeAddress, isInternalField, 0).None? &&
        queriesInProgress == old(queriesInProgress) && queryResult == old(queryResult) &&
        entryPointState.entryPointStateMap == old(entryPointState.entryPointStateMap)
      ensures outcome.Completed? ==>
        (info.operation == SELECT_NOTIFY ==>
          outcome.reply.NotificationStatsOnly? &&
          var handle := outcome.reply.handle.handleId;
          handle !in old(entryPointState.entryPointStateMap) &&
          entryPointState.entryPointStateMap == old(entryPointState.entryPointStateMap)[handle := info.allServers]) &&
        (info.operation != SELECT_NOTIFY ==> entryPointState.entryPointStateMap == old(entryPointState.entryPointStateMap)) &&
        Some(outcome.reply) == ReplyFor(info, packet, nodeAddress, isInternalField,
          if outcome.reply.NotificationStatsOnly? then outcome.reply.handle.handleId else 0) &&
        queryResult == old(queryResult)[id := outcome.reply] &&
        queriesInProgress == (if delegateClientMessaging then old(queriesInProgress) - {id} else old(queriesInProgress))
    {
      var response: Option<Reply> := None;
      if ReturnsRecords(info.operation) {
        response := ReplyFor(info, packet, nodeAddress, isInternalField, 0);
      } else if info.operation == SELECT_NOTIFY {
        var merged := SumIssuerStats(info.notificationStats);
        var localHandle := entryPointState.AddNotificationState(info.allServers);
        response := Some(NotificationStatsOnly(packet.requestId, SelectHandleInfo.HandleInfo(localHandle, nodeAddress), merged));
      }
      if response.None? {
        return NoReply;
      }
      queryResult := queryResult[id := response.value];
      if delegateClientMessaging {
        queriesInProgress := queriesInProgress - {id};
      }
      return Completed(response.value);
    }

    /**
     * The SELECT_NOTIFY branch of `processSelectRequest`: walks the cursor,
     * sending the current list whenever it holds `fetchSize` guids and
     * once more for a non-empty remainder; the first batch draws a local
     * handle under which every batch's statistics are recorded; the sums
     * are read back and the handle removed before returning. `firstHandle`
     * is the first handle drawn (-1 when none was): the source uses -1 as
     * "no handle yet", so a first draw of -1 would be drawn again at the
     * next batch; the result is stated for the draws that are not -1.
     */
    method ProcessSelectNotify(items: seq<CursorItem>, fetchSize: int, notificationStr: string, send: (seq<string>, string) -> SendingStats)
      returns (localhandle: int, totals: StatsToIssuer, ghost firstHandle: int)
      modifies pendingNotifications
      ensures Batches(items, fetchSize) == [] ==>
        localhandle == -1 &&
        totals == SendingTotals(if -1 in old(pendingNotifications.notificationInfo) then old(pendingNotifications.notificationInfo)[-1] else []) &&
        pendingNotifications.notificationInfo == old(pendingNotifications.notificationInfo) - {-1}
      ensures Batches(items, fetchSize) != [] && firstHandle != -1 ==>
        localhandle == firstHandle && localhandle !in old(pendingNotifications.notificationInfo) &&
        totals == SendingTotals(SendAll(Batches(items, fetchSize), notificationStr, send)) &&
        pendingNotifications.notificationInfo == old(pendingNotifications.notificationInfo)
    {
      var pending := pendingNotifications;
      ghost var before := pending.notificationInfo;
      var currList: seq<string> := [];
      localhandle := -1;
      firstHandle := -1;
      ghost var sent: seq<seq<string>> := [];
      var i := 0;
      while i < |items|
        invariant 0 <= i <= |items|
        invariant Scan(items[..i], fetchSize) == ScanState(sent, currList)
        invariant sent == [] ==> localhandle == -1 && firstHandle == -1 && pending.notificationInfo == before
        invariant sent != [] && firstHandle != -1 ==>
          localhandle == firstHandle && firstHandle !in before &&
          pending.notificationInfo == before[firstHandle := SendAll(sent, notificationStr, send)]
      {
        assert items[..i + 1][..i] == items[..i];
        if items[i].Some? {
          currList := currList + [items[i].value];
        }
        if |currList| >= fetchSize {
          localhandle, firstHandle := SendBatch(currList, notificationStr, send, localhandle, sent, firstHandle);
          assert sent == [] ==> sent + [currList] == [currList];
          sent := sent + [currList];
          currList := [];
        }
        i := i + 1;
      }
      assert items[..i] == items;
      if |currList| > 0 {
        localhandle, firstHandle := SendBatch(currList, notificationStr, send, localhandle, sent, firstHandle);
        assert sent == [] ==> sent + [currList] == [currList];
        sent := sent + [currList];
      }
      assert sent == Batches(items, fetchSize);
      var allStats := pending.LookupNotificationStats(localhandle);
      totals := SumSendingStats(if allStats.Some? then allStats.value else []);
      var removed := pending.RemoveNotificationInfo(localhandle);
      if sent != [] && firstHandle != -1 {
        UpdateThenRemove(before, firstHandle, SendAll(sent, notificationStr, send));
      }
    }

    /** One batch: draw the handle if none is held yet, send, record the statistics. */
    method SendBatch(currList: seq<string>, notificationStr: string, send: (seq<string>, string) -> SendingStats,
                     handle: int, ghost sent: seq<seq<string>>, ghost first: int)
      returns (localhandle: int, ghost firstHandle: int)
      modifies pendingNotifications
      requires sent == [] ==> handle == -1 && first == -1
      requires sent != [] && first != -1 ==>
        (handle == first && first in pendingNotifications.notificationInfo &&
         pendingNotifications.notificationInfo[first] == SendAll(sent, notificationStr, send))
      ensures sent == [] ==>
        (firstHandle == localhandle && localhandle !in old(pendingNotifications.notificationInfo) &&
         pendingNotifications.notificationInfo == old(pendingNotifications.notificationInfo)[localhandle := SendAll([currList], notificationStr, send)])
      ensures sent != [] ==> firstHandle == first
      ensures sent != [] && first != -1 ==>
        (localhandle == first &&
         pendingNotifications.notificationInfo == old(pendingNotifications.notificationInfo)[first := SendAll(sent + [currList], notificationStr, send)])
    {
      localhandle := handle;
      firstHandle := first;
      ghost var start := pendingNotifications.notificationInfo;
      if localhandle == -1 {
        localhandle := pendingNotifications.GetUniqueIDAndInit();
        if sent == [] {
          firstHandle := localhandle;
        }
      }
      ghost var drawn := pendingNotifications.notificationInfo;
      var stats := send(currList, notificationStr);
      var failed := pendingNotifications.AddNotificationStats(localhandle, stats);
      if sent == [] {
        assert localhandle !in start;
        assert drawn == start[localhandle := []];
        assert !failed;
        assert drawn[localhandle] + [stats] == [stats];
        assert pendingNotifications.notificationInfo == drawn[localhandle := [stats]];
        assert SendAll([currList], notificationStr, send) == [stats];
      } else if first != -1 {
        assert SendAll(sent + [currList], notificationStr, send) == SendAll(sent, notificationStr, send) + [stats];
      }
    }
  }
}
