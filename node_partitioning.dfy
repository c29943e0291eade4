/**
 * NodePartitioning.createPartitions: the active replicas, written as
 * "ip:port" strings, are sorted and dealt round-robin into a given number of
 * lists, so that every node that holds the same set of replicas computes
 * the same partitions.
 */
module NodePartitioning {
  import opened Wrappers
  import Text
  import Sorting
  import Seqs
  import opened Dealing

  /** An InetSocketAddress: the textual IP address and the port. */
  datatype Address = Address(host: string, port: int)

  /** An IPv4 literal (no ':') and a port in the range InetSocketAddress accepts. */
  predicate WellFormed(a: Address)
  {
    a.host != "" && ':' !in a.host && 0 <= a.port <= 65535
  }

  predicate AllWellFormed(nodes: seq<Address>)
  {
    forall a :: a in nodes ==> WellFormed(a)
  }

  /** `getAddress().getHostAddress() + ":" + getPort()`. */
  function AddressString(a: Address): string
  {
    a.host + ":" + Text.IntToString(a.port)
  }

  /**
   * Splitting at ':' and rebuilding the socket address from the first two
   * fields; `None` where that would throw (no second field, a port that is
   * not a number or out of range).
   */
  function ParseAddress(s: string): (r: Option<Address>)
    ensures r.Some? ==> 0 <= r.value.port <= 65535 && ':' !in r.value.host
  {
    var parsed := Text.Split(s, ':');
    if |parsed| < 2 then None
    else match Text.ParseInt(parsed[1])
      case Some(port) => if 0 <= port <= 65535 then Some(Address(parsed[0], port)) else None
      case None => None
  }

  /** The string form of a well-formed address parses back to the same address. */
  lemma ParseAddressString(a: Address)
    requires WellFormed(a)
    ensures ParseAddress(AddressString(a)) == Some(a)
  {
    var digits := Text.IntToString(a.port);
    assert Text.AllDigits(digits);
    assert ':' !in digits by {
      forall i | 0 <= i < |digits| ensures digits[i] != ':' {
        assert Text.IsDigit(digits[i]);
      }
    }
    Text.SplitPair(a.host, digits, ':');
    Text.ParseIntRoundTrip(a.port);
  }

  /** Distinct well-formed addresses have distinct string forms. */
  lemma AddressStringInjective(a: Address, b: Address)
    requires WellFormed(a) && WellFormed(b) && AddressString(a) == AddressString(b)
    ensures a == b
  {
    ParseAddressString(a);
    ParseAddressString(b);
  }

  /** The address rebuilt from `s` (the source builds one only when `s` parses). */
  function Reparse(s: string): Address
  {
    match ParseAddress(s)
    case Some(a) => a
    case None => Address(s, -1)
  }

  function NodeStrings(nodes: seq<Address>): seq<string>
  {
    Seqs.Map(AddressString, nodes)
  }

  /** The replicas in the order of their sorted "ip:port" strings. */
  function SortedNodes(nodes: seq<Address>): seq<Address>
  {
    Seqs.Map(Reparse, Sorting.Sort(NodeStrings(nodes)))
  }

  /** What createPartitions returns for the replicas `nodes` and `numPartitions` lists. */
  function Partitions(nodes: seq<Address>, numPartitions: int): seq<seq<Address>>
    requires nodes != [] ==> numPartitions > 0
  {
    Deal(SortedNodes(nodes), numPartitions)
  }

  /**
   * createPartitions (NodePartitioning.java:36-79). `totalActiveReplicas`
   * is the set in its iteration order; the result does not depend on that
   * order (PartitionsOrderIndependent).
   */
  method CreatePartitions(totalActiveReplicas: seq<Address>, numPartitions: int)
    returns (partitionList: seq<seq<Address>>)
    requires AllWellFormed(totalActiveReplicas)
    requires totalActiveReplicas != [] ==> numPartitions > 0
    ensures partitionList == Partitions(totalActiveReplicas, numPartitions)
  {
    var nodesString: seq<string> := [];
    var i := 0;
    while i < |totalActiveReplicas|
      invariant 0 <= i <= |totalActiveReplicas|
      invariant nodesString == NodeStrings(totalActiveReplicas[..i])
    {
      assert totalActiveReplicas[..i + 1] == totalActiveReplicas[..i] + [totalActiveReplicas[i]];
      Seqs.MapConcat(AddressString, totalActiveReplicas[..i], [totalActiveReplicas[i]]);
      nodesString := nodesString + [AddressString(totalActiveReplicas[i])];
      i := i + 1;
    }
    assert totalActiveReplicas[..i] == totalActiveReplicas;
    assert nodesString == NodeStrings(totalActiveReplicas);
    nodesString := Sorting.Sort(nodesString);

    partitionList := [];
    i := 0;
    while i < numPartitions
      invariant 0 <= i && (i <= numPartitions || i == 0)
      invariant |partitionList| == i
      invariant forall p :: 0 <= p < i ==> partitionList[p] == []
    {
      partitionList := partitionList + [[]];
      i := i + 1;
    }

    ghost var sorted := SortedNodes(totalActiveReplicas);
    SortedNodesLength(totalActiveReplicas);
    assert partitionList == Deal(sorted[..0], numPartitions);
    i := 0;
    while i < |nodesString|
      invariant 0 <= i <= |nodesString| == |sorted|
      invariant partitionList == Deal(sorted[..i], numPartitions)
    {
      var partNum := i % numPartitions;
      var parsed := ParseAddress(nodesString[i]);
      SortedNodeAt(totalActiveReplicas, i);
      assert parsed == Some(sorted[i]);
      match parsed {
        case Some(sock) =>
          DealPrefixStep(sorted, i, numPartitions);
          partitionList := partitionList[partNum := partitionList[partNum] + [sock]];
        case None =>
          assert false;
      }
      i := i + 1;
    }
    assert sorted[..i] == sorted;
    assert partitionList == Deal(sorted, numPartitions);
  }

  // ---------------------------------------------------------------------
  // Lemmas about the sorted replica list

  /** Every sorted string parses back to the replica at the same position, which is well formed. */
  lemma SortedNodesParse(nodes: seq<Address>)
    requires AllWellFormed(nodes)
    ensures |SortedNodes(nodes)| == |Sorting.Sort(NodeStrings(nodes))| == |nodes|
    ensures forall j :: 0 <= j < |nodes| ==>
      ParseAddress(Sorting.Sort(NodeStrings(nodes))[j]) == Some(SortedNodes(nodes)[j])
      && WellFormed(SortedNodes(nodes)[j])
      && AddressString(SortedNodes(nodes)[j]) == Sorting.Sort(NodeStrings(nodes))[j]
  {
    var ns := NodeStrings(nodes);
    var ss := Sorting.Sort(ns);
    Sorting.SortMultiset(ns);
    forall j | 0 <= j < |ss|
      ensures ParseAddress(ss[j]) == Some(SortedNodes(nodes)[j])
      ensures WellFormed(SortedNodes(nodes)[j]) && AddressString(SortedNodes(nodes)[j]) == ss[j]
    {
      assert ss[j] in multiset(ns);
      var m :| 0 <= m < |ns| && ns[m] == ss[j];
      ParseAddressString(nodes[m]);
    }
  }

  lemma SortedNodesLength(nodes: seq<Address>)
    ensures |SortedNodes(nodes)| == |Sorting.Sort(NodeStrings(nodes))| == |nodes|
  {
  }

  /** The sorted string at position `j` parses to the replica at position `j`. */
  lemma SortedNodeAt(nodes: seq<Address>, j: int)
    requires AllWellFormed(nodes)
    requires 0 <= j < |nodes|
    ensures |SortedNodes(nodes)| == |Sorting.Sort(NodeStrings(nodes))| == |nodes|
    ensures ParseAddress(Sorting.Sort(NodeStrings(nodes))[j]) == Some(SortedNodes(nodes)[j])
  {
    SortedNodesParse(nodes);
  }

  /** The sorted list holds exactly the replicas. */
  lemma SortedNodesMultiset(nodes: seq<Address>)
    requires AllWellFormed(nodes)
    ensures multiset(SortedNodes(nodes)) == multiset(nodes)
  {
    var ns := NodeStrings(nodes);
    Sorting.SortMultiset(ns);
    Seqs.MapMultiset(Reparse, Sorting.Sort(ns), ns);
    forall j | 0 <= j < |nodes| ensures Seqs.Map(Reparse, ns)[j] == nodes[j] {
      ParseAddressString(nodes[j]);
    }
    assert Seqs.Map(Reparse, ns) == nodes;
  }

  /** The sorted list is in ascending order of the "ip:port" strings. */
  lemma SortedNodesOrdered(nodes: seq<Address>)
    requires AllWellFormed(nodes)
    ensures NodeStrings(SortedNodes(nodes)) == Sorting.Sort(NodeStrings(nodes))
    ensures Sorting.Sorted(NodeStrings(SortedNodes(nodes)))
  {
    SortedNodesParse(nodes);
  }

  // ---------------------------------------------------------------------
  // The properties createPartitions promises

  /**
   * The node at position `j == q * numPartitions + p` of the sorted list
   * (`p` the remainder) is element `q` of partition `p`: position `j` goes
   * to partition `j mod numPartitions`.
   */
  lemma PartitionOfPosition(nodes: seq<Address>, numPartitions: int, j: int, p: int, q: int)
    requires 0 <= j < |nodes| && 0 <= q && 0 <= p < numPartitions && j == q * numPartitions + p
    ensures |SortedNodes(nodes)| == |nodes| && |Partitions(nodes, numPartitions)| == numPartitions
    ensures q < |Partitions(nodes, numPartitions)[p]|
    ensures Partitions(nodes, numPartitions)[p][q] == SortedNodes(nodes)[j]
  {
    var sorted := SortedNodes(nodes);
    SortedNodesLength(nodes);
    DivModUnique(j, numPartitions, q, p);
    ColumnIndex(sorted, numPartitions, j);
    assert Partitions(nodes, numPartitions)[p] == Column(sorted, numPartitions, p);
  }

  /** Every replica appears in exactly one partition, as often as in the input, and nothing else appears. */
  lemma PartitionsCover(nodes: seq<Address>, numPartitions: int)
    requires AllWellFormed(nodes)
    requires nodes != [] ==> numPartitions > 0
    ensures multiset(Seqs.Flatten(Partitions(nodes, numPartitions))) == multiset(nodes)
  {
    SortedNodesMultiset(nodes);
    if numPartitions > 0 {
      DealMultiset(SortedNodes(nodes), numPartitions);
    } else {
      assert SortedNodes(nodes) == [];
    }
  }

  /** Each partition is in ascending order of its "ip:port" strings. */
  lemma PartitionsSorted(nodes: seq<Address>, numPartitions: int, p: int)
    requires AllWellFormed(nodes)
    requires numPartitions > 0 && 0 <= p < numPartitions
    ensures Sorting.Sorted(NodeStrings(Partitions(nodes, numPartitions)[p]))
  {
    var sorted := SortedNodes(nodes);
    SortedNodesOrdered(nodes);
    ColumnSorted(NodeStrings(sorted), numPartitions, p);
    ColumnMap(AddressString, sorted, numPartitions, p);
  }

  /** Partition sizes differ by at most one. */
  lemma PartitionsBalanced(nodes: seq<Address>, numPartitions: int, p: int, q: int)
    requires AllWellFormed(nodes)
    requires 0 <= p < numPartitions && 0 <= q < numPartitions
    ensures |Partitions(nodes, numPartitions)[p]| <= |Partitions(nodes, numPartitions)[q]| + 1
  {
    ColumnSize(SortedNodes(nodes), numPartitions, p);
    ColumnSize(SortedNodes(nodes), numPartitions, q);
  }

  /** Two iteration orders of the same replica set give the same partitions. */
  lemma PartitionsOrderIndependent(a: seq<Address>, b: seq<Address>, numPartitions: int)
    requires multiset(a) == multiset(b)
    requires a != [] ==> numPartitions > 0
    ensures b != [] ==> numPartitions > 0
    ensures Partitions(a, numPartitions) == Partitions(b, numPartitions)
  {
    SortedNodesOrderIndependent(a, b);
  }

  /** The sorted replica list depends only on the replicas, not on their order. */
  lemma SortedNodesOrderIndependent(a: seq<Address>, b: seq<Address>)
    requires multiset(a) == multiset(b)
    ensures |a| == |b| && SortedNodes(a) == SortedNodes(b)
  {
    assert |a| == |multiset(a)| == |multiset(b)| == |b|;
    Seqs.MapMultiset(AddressString, a, b);
    Sorting.SortOrderIndependent(NodeStrings(a), NodeStrings(b));
  }

  /** With at least one active replica every one of the floor(sqrt(n)) partitions holds a node. */
  lemma PartitionNonEmpty(actives: seq<Address>, p: int)
    requires actives != [] && 0 <= p < FloorSqrt(|actives|)
    ensures |Partitions(actives, FloorSqrt(|actives|))| == FloorSqrt(|actives|)
    ensures Partitions(actives, FloorSqrt(|actives|))[p] != []
  {
    var k := FloorSqrt(|actives|);
    FloorSqrtBounds(|actives|);
    SortedNodesLength(actives);
    ColumnNonEmpty(SortedNodes(actives), k, p);
  }

  /** Every member of a partition is one of the replicas it was computed from. */
  lemma PartitionWithinActives(actives: seq<Address>, k: int, p: int)
    requires AllWellFormed(actives)
    requires 0 <= p < k
    ensures |Partitions(actives, k)| == k
    ensures forall a :: a in Partitions(actives, k)[p] ==> a in actives
  {
    var sorted := SortedNodes(actives);
    SortedNodesMultiset(actives);
    forall a | a in Partitions(actives, k)[p] ensures a in actives {
      ColumnFrom(sorted, k, p, a);
      assert a in multiset(sorted);
    }
  }

  /** The host part of a string that parses as an address is its first ':'-separated field. */
  lemma HostField(s: string)
    requires ParseAddress(s).Some?
    ensures |Text.Split(s, ':')| >= 2 && Text.Split(s, ':')[0] == ParseAddress(s).value.host
  {
  }
}
