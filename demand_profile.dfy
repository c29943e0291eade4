/**
 * The server-side demand profile (gnsapp/demandprofiles/
 * SqrtNReplicationDemandProfile): it counts the requests for one name and,
 * the first time it is asked, places the name on one replica in each of the
 * floor(sqrt(n)) partitions of the active IP addresses, chosen by a
 * consistent hash of the name; after that it never asks again.
 */
module DemandProfile {
  import opened Wrappers
  import Sorting
  import Seqs
  import opened Dealing
  import opened Text

  /**
   * A request as `register` inspects it: its name, whether it is a
   * CommandPacket (other requests are ignored), and whether it is a
   * ReplicableRequest that needs coordination.
   */
  datatype Request = Request(serviceName: string, isCommandPacket: bool, needsCoordination: bool)

  /** One request more than `Integer.MAX_VALUE` wraps around to `Integer.MIN_VALUE`. */
  lemma CounterWrapsAround()
    ensures Int32(INT_MAX + 1) == INT_MIN
  {
  }

  /**
   * The votes of a VotesMap: a count per key. VotesMap is not part of this
   * model; a missing key counts as zero votes.
   */
  type Votes = map<string, int>

  function VotesFor(votes: Votes, k: string): int
  {
    if k in votes then votes[k] else 0
  }

  /** `VotesMap.combine`: the keys of both maps, each with the sum of its votes in the two. */
  function MergeVotes(a: Votes, b: Votes): (r: Votes)
    ensures r.Keys == a.Keys + b.Keys
    ensures forall k :: VotesFor(r, k) == VotesFor(a, k) + VotesFor(b, k)
  {
    map k | k in a.Keys + b.Keys :: VotesFor(a, k) + VotesFor(b, k)
  }

  /** Merging an empty map (a profile just reset) changes nothing. */
  lemma MergeEmptyVotes(a: Votes)
    ensures MergeVotes(a, map[]) == a && MergeVotes(map[], a) == a
  {
    assert MergeVotes(a, map[]) == a;
  }

  /** Profiles can be combined in any order and grouping: the merge is commutative and associative. */
  lemma MergeVotesOrderFree(a: Votes, b: Votes, c: Votes)
    ensures MergeVotes(a, b) == MergeVotes(b, a)
    ensures MergeVotes(MergeVotes(a, b), c) == MergeVotes(a, MergeVotes(b, c))
  {
    assert MergeVotes(a, b) == MergeVotes(b, a);
    assert forall k :: VotesFor(MergeVotes(MergeVotes(a, b), c), k) == VotesFor(MergeVotes(a, MergeVotes(b, c)), k);
  }

  /** The counters and votes `clone` copies into the profile `justReconfigured` keeps. */
  datatype Counters = Counters(
    lastRequestTime: int,
    numRequests: int,
    numTotalRequests: int,
    lookupCount: int,
    updateCount: int,
    votes: Votes)

  /**
   * The partitions of the active IP address strings: sorted, dealt
   * round-robin into floor(sqrt(n)) lists, each list sorted again.
   */
  function SqrtNPartitions(activeIPs: seq<string>): (r: seq<seq<string>>)
    ensures |r| == FloorSqrt(|activeIPs|)
  {
    assert activeIPs != [] ==> FloorSqrt(|activeIPs|) >= 1 by {
      if activeIPs != [] { FloorSqrtBounds(|activeIPs|); }
    }
    Deal(Sorting.Sort(activeIPs), FloorSqrt(|activeIPs|))
  }

  /** Every address is in exactly one partition, and nothing else is. */
  lemma SqrtNPartitionsCover(activeIPs: seq<string>)
    ensures multiset(Seqs.Flatten(SqrtNPartitions(activeIPs))) == multiset(activeIPs)
  {
    Sorting.SortMultiset(activeIPs);
    if activeIPs != [] {
      FloorSqrtBounds(|activeIPs|);
      DealMultiset(Sorting.Sort(activeIPs), FloorSqrt(|activeIPs|));
    }
  }

  /** Each partition is in ascending order, so sorting it again changes nothing. */
  lemma SqrtNPartitionSorted(activeIPs: seq<string>, p: int)
    requires 0 <= p < FloorSqrt(|activeIPs|)
    ensures Sorting.Sorted(SqrtNPartitions(activeIPs)[p])
    ensures Sorting.Sort(SqrtNPartitions(activeIPs)[p]) == SqrtNPartitions(activeIPs)[p]
  {
    ColumnSorted(Sorting.Sort(activeIPs), FloorSqrt(|activeIPs|), p);
    Sorting.SortOfSorted(SqrtNPartitions(activeIPs)[p]);
  }

  /**
   * With n addresses and k = floor(sqrt(n)) partitions, partition `p` holds
   * n / k addresses, one more when p < n mod k; in particular it is not empty.
   */
  lemma SqrtNPartitionSize(activeIPs: seq<string>, p: int)
    requires 0 <= p < FloorSqrt(|activeIPs|)
    ensures var k := FloorSqrt(|activeIPs|);
      |SqrtNPartitions(activeIPs)[p]| == |activeIPs| / k + (if p < |activeIPs| % k then 1 else 0)
    ensures SqrtNPartitions(activeIPs)[p] != []
  {
    var k := FloorSqrt(|activeIPs|);
    FloorSqrtBounds(|activeIPs|);
    ColumnSize(Sorting.Sort(activeIPs), k, p);
    ColumnNonEmpty(Sorting.Sort(activeIPs), k, p);
  }

  /** The partitions depend only on the addresses, not on the order the configuration lists them in. */
  lemma SqrtNPartitionsOrderIndependent(a: seq<string>, b: seq<string>)
    requires multiset(a) == multiset(b)
    ensures SqrtNPartitions(a) == SqrtNPartitions(b)
  {
    assert |a| == |multiset(a)| == |multiset(b)| == |b|;
    Sorting.SortOrderIndependent(a, b);
  }

  /** Every member of a partition is one of the active addresses. */
  lemma SqrtNPartitionWithin(activeIPs: seq<string>, p: int, x: string)
    requires 0 <= p < FloorSqrt(|activeIPs|)
    requires x in SqrtNPartitions(activeIPs)[p]
    ensures x in activeIPs
  {
    Sorting.SortMultiset(activeIPs);
    ColumnFrom(Sorting.Sort(activeIPs), FloorSqrt(|activeIPs|), p, x);
    assert x in multiset(Sorting.Sort(activeIPs));
  }

  class Profile {
    /** The service name (GUID) this profile is for. */
    const name: string
    var lastRequestTime: int
    var numRequests: int
    var numTotalRequests: int
    var lookupCount: int
    var updateCount: int
    var votes: Votes
    /** Set by the first `shouldReconfigure`; nothing clears it. */
    var reconfigurationHappened: bool
    /** The copy `justReconfigured` keeps; `None` until it is first called. */
    var lastReconfiguredProfile: Option<Counters>

    /** The counters as `clone` copies them. */
    function Snapshot(): Counters
      reads this
    {
      Counters(lastRequestTime, numRequests, numTotalRequests, lookupCount, updateCount, votes)
    }

    /** The four request counters are Java `int`s. */
    predicate Valid()
      reads this
    {
      && INT_MIN <= numRequests <= INT_MAX
      && INT_MIN <= numTotalRequests <= INT_MAX
      && INT_MIN <= lookupCount <= INT_MAX
      && INT_MIN <= updateCount <= INT_MAX
    }

    constructor (name: string)
      ensures this.name == name && Snapshot() == Counters(0, 0, 0, 0, 0, map[])
      ensures Valid() && !reconfigurationHappened && lastReconfiguredProfile == None
    {
      this.name := name;
      lastRequestTime, numRequests, numTotalRequests := 0, 0, 0;
      lookupCount, updateCount := 0, 0;
      votes := map[];
      reconfigurationHappened := false;
      lastReconfiguredProfile := None;
    }

    /** Whether `register` counts this request. */
    predicate Counts(request: Request, nodeConfigPresent: bool)
    {
      request.serviceName == name && request.isCommandPacket && nodeConfigPresent
    }

    /**
     * Counts one request for this name: both request counters go up by one
     * and so does exactly one of the update and lookup counters, each with
     * Java `int` wrap-around. The time of the first counted request is kept
     * (`now` is the current time); the votes are not touched.
     */
    method Register(request: Request, nodeConfigPresent: bool, now: int)
      requires Valid()
      modifies this
      ensures Valid()
      ensures !Counts(request, nodeConfigPresent) ==> Snapshot() == old(Snapshot())
      ensures Counts(request, nodeConfigPresent) ==>
        && numRequests == Int32(old(numRequests) + 1)
        && numTotalRequests == Int32(old(numTotalRequests) + 1)
        && updateCount == Int32(old(updateCount) + (if request.needsCoordination then 1 else 0))
        && lookupCount == Int32(old(lookupCount) + (if request.needsCoordination then 0 else 1))
        && lastRequestTime == (if old(lastRequestTime) > 0 then old(lastRequestTime) else now)
        && votes == old(votes)
      ensures reconfigurationHappened == old(reconfigurationHappened)
      ensures lastReconfiguredProfile == old(lastReconfiguredProfile)
    {
      if request.serviceName != name {
        return;
      }
      if !request.isCommandPacket {
        return;
      }
      if !nodeConfigPresent {
        return;
      }
      numRequests := Int32(numRequests + 1);
      numTotalRequests := Int32(numTotalRequests + 1);
      if lastRequestTime <= 0 {
        lastRequestTime := now;
      }
      if request.needsCoordination {
        updateCount := Int32(updateCount + 1);
      } else {
        lookupCount := Int32(lookupCount + 1);
      }
    }

    /** Zeroes the per-epoch counters and empties the votes; the running total and the one-shot flag survive. */
    method Reset()
      requires Valid()
      modifies this
      ensures Valid()
      ensures Snapshot() == Counters(0, 0, old(numTotalRequests), 0, 0, map[])
      ensures reconfigurationHappened == old(reconfigurationHappened)
      ensures lastReconfiguredProfile == old(lastReconfiguredProfile)
    {
      lastRequestTime := 0;
      numRequests := 0;
      votes := map[];
      updateCount := 0;
      lookupCount := 0;
    }

    /**
     * Adds another profile's counts (with Java `int` wrap-around) and votes
     * into this one; the later of the two request times is kept.
     */
    method Combine(update: Profile)
      requires Valid()
      modifies this
      ensures Valid()
      ensures numRequests == Int32(old(numRequests) + old(update.numRequests))
      ensures numTotalRequests == Int32(old(numTotalRequests) + old(update.numTotalRequests))
      ensures updateCount == Int32(old(updateCount) + old(update.updateCount))
      ensures lookupCount == Int32(old(lookupCount) + old(update.lookupCount))
      ensures votes == MergeVotes(old(votes), old(update.votes))
      ensures lastRequestTime == if old(lastRequestTime) >= old(update.lastRequestTime)
        then old(lastRequestTime) else old(update.lastRequestTime)
      ensures reconfigurationHappened == old(reconfigurationHappened)
      ensures lastReconfiguredProfile == old(lastReconfiguredProfile)
    {
      var u := update.Snapshot();
      lastRequestTime := if lastRequestTime >= u.lastRequestTime then lastRequestTime else u.lastRequestTime;
      numRequests := Int32(numRequests + u.numRequests);
      numTotalRequests := Int32(numTotalRequests + u.numTotalRequests);
      updateCount := Int32(updateCount + u.updateCount);
      lookupCount := Int32(lookupCount + u.lookupCount);
      votes := MergeVotes(votes, u.votes);
    }

    /** Keeps a copy of the current counters. */
    method JustReconfigured()
      modifies this
      ensures lastReconfiguredProfile == Some(old(Snapshot()))
      ensures Snapshot() == old(Snapshot()) && reconfigurationHappened == old(reconfigurationHappened)
    {
      lastReconfiguredProfile := Some(Snapshot());
    }

    /** Statistics are reported only until the reconfiguration has happened. */
    predicate ShouldReport()
      reads this
    {
      !reconfigurationHappened
    }

    /**
     * The first call returns one active per partition of `activeIPs` (the
     * node configuration's active addresses), in partition order, and sets
     * the one-shot flag; every later call returns `None`.
     */
    method ShouldReconfigure(activeIPs: seq<string>, hash: (string, int) -> int)
      returns (r: Option<seq<string>>)
      requires HashWithin(hash)
      modifies this
      ensures r.Some? <==> !old(reconfigurationHappened)
      ensures reconfigurationHappened && !ShouldReport()
      ensures r.Some? ==>
        var partitions := SqrtNPartitions(activeIPs);
        |r.value| == |partitions| == FloorSqrt(|activeIPs|) &&
        forall i :: 0 <= i < |partitions| ==>
          r.value[i] in partitions[i] && r.value[i] in activeIPs &&
          r.value[i] == partitions[i][hash(name, |partitions[i]|)]
      ensures Snapshot() == old(Snapshot()) && lastReconfiguredProfile == old(lastReconfiguredProfile)
    {
      if reconfigurationHappened {
        return None;
      }
      var partitionlist := CreateSqrtNPartitionsOfNodes(activeIPs);
      forall i | 0 <= i < |partitionlist| ensures partitionlist[i] != [] {
        SqrtNPartitionSize(activeIPs, i);
      }
      var actives := CreateActiveReplicasForGUID(name, partitionlist, hash);
      forall i | 0 <= i < |partitionlist| ensures actives[i] in activeIPs {
        SqrtNPartitionWithin(activeIPs, i, actives[i]);
      }
      reconfigurationHappened := true;
      return Some(actives);
    }

    /** Builds `SqrtNPartitions(activeIPs)` with the loops of the original: copy, sort, deal, sort each list. */
    static method CreateSqrtNPartitionsOfNodes(activeIPs: seq<string>) returns (partitionlist: seq<seq<string>>)
      ensures partitionlist == SqrtNPartitions(activeIPs)
    {
      var nodesString: seq<string> := [];
      var i := 0;
      while i < |activeIPs|
        invariant 0 <= i <= |activeIPs| && nodesString == activeIPs[..i]
      {
        assert activeIPs[..i + 1] == activeIPs[..i] + [activeIPs[i]];
        nodesString := nodesString + [activeIPs[i]];
        i := i + 1;
      }
      assert nodesString == activeIPs;
      nodesString := Sorting.Sort(nodesString);
      var sqrtn := FloorSqrt(|nodesString|);
      if nodesString != [] {
        FloorSqrtBounds(|nodesString|);
      }
      partitionlist := [];
      i := 0;
      while i < sqrtn
        invariant 0 <= i <= sqrtn && |partitionlist| == i
        invariant forall p :: 0 <= p < i ==> partitionlist[p] == []
      {
        partitionlist := partitionlist + [[]];
        i := i + 1;
      }
      assert partitionlist == Deal(nodesString[..0], sqrtn);
      i := 0;
      while i < |nodesString|
        invariant 0 <= i <= |nodesString|
        invariant partitionlist == Deal(nodesString[..i], sqrtn)
      {
        var partNum := i % sqrtn;
        DealPrefixStep(nodesString, i, sqrtn);
        partitionlist := partitionlist[partNum := partitionlist[partNum] + [nodesString[i]]];
        i := i + 1;
      }
      assert nodesString[..i] == nodesString;
      i := 0;
      while i < sqrtn
        invariant 0 <= i <= sqrtn
        invariant partitionlist == SqrtNPartitions(activeIPs)
      {
        SqrtNPartitionSorted(activeIPs, i);
        partitionlist := partitionlist[i := Sorting.Sort(partitionlist[i])];
        i := i + 1;
      }
    }

    /** For each partition, its member at the index the consistent hash of the name picks. */
    static method CreateActiveReplicasForGUID(guid: string, partitionlist: seq<seq<string>>, hash: (string, int) -> int)
      returns (activeReplicas: seq<string>)
      requires HashWithin(hash)
      requires forall i :: 0 <= i < |partitionlist| ==> partitionlist[i] != []
      ensures |activeReplicas| == |partitionlist|
      ensures forall i :: 0 <= i < |partitionlist| ==>
        0 <= hash(guid, |partitionlist[i]|) < |partitionlist[i]| &&
        activeReplicas[i] == partitionlist[i][hash(guid, |partitionlist[i]|)] &&
        activeReplicas[i] in partitionlist[i]
    {
      activeReplicas := [];
      var i := 0;
      while i < |partitionlist|
        invariant 0 <= i <= |partitionlist| && |activeReplicas| == i
        invariant forall j :: 0 <= j < i ==>
          0 <= hash(guid, |partitionlist[j]|) < |partitionlist[j]| &&
          activeReplicas[j] == partitionlist[j][hash(guid, |partitionlist[j]|)]
      {
        var partition := partitionlist[i];
        var index := hash(guid, |partition|);
        activeReplicas := activeReplicas + [partition[index]];
        i := i + 1;
      }
    }
  }
}
