/**
 * SqrtNPartitioningSelectPolicy.getNodesForSelectRequest: the current
 * active replicas are dealt into floor(sqrt(n)) partitions by
 * createPartitions and one partition, picked at random, receives the select
 * request.
 */
module SqrtNSelectPolicy {
  import opened Wrappers
  import opened NodePartitioning
  import opened Dealing

  /** Why no set of nodes is returned. */
  datatype PolicyError = NoPartitions   // `Random.nextInt(0)` throws IllegalArgumentException

  /**
   * The set of nodes a select request is sent to. `currentActives` is the
   * replica set read afresh on this call, in its iteration order, and
   * `draw` is what `rand.nextInt(partitions.size())` returns; it is only
   * consulted when there is at least one partition.
   */
  method GetNodesForSelectRequest(currentActives: seq<Address>, draw: int)
    returns (r: Result<set<Address>, PolicyError>)
    requires AllWellFormed(currentActives)
    requires currentActives != [] ==> 0 <= draw < FloorSqrt(|currentActives|)
    ensures r.Err? <==> currentActives == []
    ensures r.Ok? ==> r.value == set a | a in Partitions(currentActives, FloorSqrt(|currentActives|))[draw]
    ensures r.Ok? ==> r.value != {} && r.value <= set a | a in currentActives
  {
    var sqrtn := FloorSqrt(|currentActives|);
    var partitions := CreatePartitions(currentActives, sqrtn);
    if currentActives != [] {
      FloorSqrtBounds(|currentActives|);
    }
    assert |partitions| == sqrtn;
    if |partitions| == 0 {
      return Err(NoPartitions);
    }
    var plist := partitions[draw];
    var snodes: set<Address> := {};
    snodes := snodes + set a | a in plist;
    PartitionNonEmpty(currentActives, draw);
    assert plist[0] in snodes;
    PartitionWithinActives(currentActives, sqrtn, draw);
    r := Ok(snodes);
  }
}
