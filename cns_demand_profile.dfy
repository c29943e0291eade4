/**
 * The context-service demand profile (cns/demandprofile/
 * SqrtNReplicationDemandProfile): a name's active replicas are one replica
 * in each of the floor(sqrt(n)) partitions of the active set, chosen inside
 * the partition by a consistent hash of the name over the partition's
 * sorted "ip:port" strings.
 */
module CnsDemandProfile {
  import opened Wrappers
  import Text
  import Sorting
  import opened Dealing
  import opened NodePartitioning

  /** What `shouldReconfigure` is given as node configuration. */
  datatype NodeConfig =
    | Consistent(activeSockets: seq<Address>)   // a ConsistentReconfigurableNodeConfig
    | OtherConfig                               // any other InterfaceGetActiveIPs

  /** A request as `register` inspects it. */
  datatype Request = Request(serviceName: string, isCommandPacket: bool)

  /**
   * The replica a partition contributes: the member at index
   * `hash(guid, |partition|)` of the partition in ascending "ip:port" order.
   */
  ghost function ChosenActive(guid: string, partition: seq<Address>, hash: (string, int) -> int): Address
    requires HashWithin(hash) && partition != []
  {
    SortedNodesLength(partition);
    SortedNodes(partition)[hash(guid, |partition|)]
  }

  /** The host of the chosen replica, which `shouldReconfigure` reports as the active. */
  ghost function ChosenHost(guid: string, partition: seq<Address>, hash: (string, int) -> int): string
  {
    if HashWithin(hash) && partition != [] then ChosenActive(guid, partition, hash).host else ""
  }

  /** The chosen hosts of a list of partitions, in partition order. */
  ghost function ChosenHosts(guid: string, partitions: seq<seq<Address>>, hash: (string, int) -> int): (r: seq<string>)
    ensures |r| == |partitions|
  {
    if partitions == [] then []
    else ChosenHosts(guid, partitions[..|partitions| - 1], hash) + [ChosenHost(guid, partitions[|partitions| - 1], hash)]
  }

  /** Entry `i` of the chosen hosts is the host chosen in partition `i`. */
  lemma {:induction false} ChosenHostsAt(guid: string, partitions: seq<seq<Address>>, hash: (string, int) -> int, i: int)
    requires 0 <= i < |partitions|
    ensures ChosenHosts(guid, partitions, hash)[i] == ChosenHost(guid, partitions[i], hash)
  {
    if i < |partitions| - 1 {
      ChosenHostsAt(guid, partitions[..|partitions| - 1], hash, i);
    }
  }

  /** The chosen replica is a member of its partition. */
  lemma ChosenActiveMember(guid: string, partition: seq<Address>, hash: (string, int) -> int)
    requires HashWithin(hash) && partition != []
    requires AllWellFormed(partition)
    ensures ChosenActive(guid, partition, hash) in partition
  {
    SortedNodesLength(partition);
    SortedNodesMultiset(partition);
    assert ChosenActive(guid, partition, hash) in multiset(SortedNodes(partition));
  }

  /** The choice depends on the partition's members, not on the order they are listed in. */
  lemma ChosenActiveOrderIndependent(guid: string, p1: seq<Address>, p2: seq<Address>, hash: (string, int) -> int)
    requires HashWithin(hash) && p1 != [] && multiset(p1) == multiset(p2)
    ensures p2 != [] && ChosenActive(guid, p1, hash) == ChosenActive(guid, p2, hash)
  {
    SortedNodesOrderIndependent(p1, p2);
  }

  class Profile {
    /** The service name (GUID) this profile is for. */
    const name: string
    /** The name of the copy `justReconfigured` keeps; `None` until it is first called. */
    var lastReconfiguredProfile: Option<string>

    constructor (name: string)
      ensures this.name == name && lastReconfiguredProfile == None
    {
      this.name := name;
      lastReconfiguredProfile := None;
    }

    /** Requests are looked at but not counted: nothing changes. */
    method Register(request: Request)
      ensures lastReconfiguredProfile == old(lastReconfiguredProfile)
    {
      if request.serviceName != name {
        return;
      }
      if !request.isCommandPacket {
        return;
      }
    }

    /** Profiles are not merged: nothing changes. */
    method Combine(other: Profile)
      ensures lastReconfiguredProfile == old(lastReconfiguredProfile)
      ensures other.lastReconfiguredProfile == old(other.lastReconfiguredProfile)
    {
    }

    /** The profile always asks to be reported. */
    predicate ShouldReport()
      ensures ShouldReport()
    {
      true
    }

    /** Remembers a copy of this profile, which carries only the name. */
    method JustReconfigured()
      modifies this
      ensures lastReconfiguredProfile == Some(name)
    {
      lastReconfiguredProfile := Some(name);
    }

    /**
     * The new active replicas for this name: `None` when the configuration
     * does not give full socket addresses, otherwise one replica per
     * partition of the active set, in partition order.
     */
    method ShouldReconfigure(nodeConfig: NodeConfig, hash: (string, int) -> int)
      returns (r: Option<seq<string>>)
      requires HashWithin(hash)
      requires nodeConfig.Consistent? ==> AllWellFormed(nodeConfig.activeSockets)
      ensures r.None? <==> nodeConfig.OtherConfig?
      ensures r.Some? ==>
        var actives := nodeConfig.activeSockets;
        var k := FloorSqrt(|actives|);
        |r.value| == k && |Partitions(actives, k)| == k &&
        forall i :: 0 <= i < k ==>
          Partitions(actives, k)[i] != [] &&
          r.value[i] == ChosenHost(name, Partitions(actives, k)[i], hash)
    {
      match nodeConfig {
        case OtherConfig =>
          return None;
        case Consistent(activeSockets) =>
          var sqrtn := FloorSqrt(|activeSockets|);
          var partitionlist := CreatePartitions(activeSockets, sqrtn);
          forall i | 0 <= i < sqrtn
            ensures partitionlist[i] != []
            ensures AllWellFormed(partitionlist[i])
          {
            PartitionNonEmpty(activeSockets, i);
            PartitionWithinActives(activeSockets, sqrtn, i);
          }
          var actives := CreateActiveReplicasForGUID(name, partitionlist, hash);
          forall i | 0 <= i < sqrtn ensures actives[i] == ChosenHost(name, partitionlist[i], hash) {
            ChosenHostsAt(name, partitionlist, hash, i);
          }
          return Some(actives);
      }
    }

    /**
     * For each partition, the host of the member at the hashed index of
     * its sorted "ip:port" strings.
     */
    static method CreateActiveReplicasForGUID(guid: string, partitionlist: seq<seq<Address>>, hash: (string, int) -> int)
      returns (activeReplicas: seq<string>)
      requires HashWithin(hash)
      requires forall i :: 0 <= i < |partitionlist| ==> partitionlist[i] != []
      requires forall i :: 0 <= i < |partitionlist| ==> AllWellFormed(partitionlist[i])
      ensures activeReplicas == ChosenHosts(guid, partitionlist, hash)
    {
      activeReplicas := [];
      var i := 0;
      while i < |partitionlist|
        invariant 0 <= i <= |partitionlist|
        invariant activeReplicas == ChosenHosts(guid, partitionlist[..i], hash)
      {
        var host := ActiveInPartition(guid, partitionlist[i], hash);
        assert partitionlist[..i + 1][..i] == partitionlist[..i];
        activeReplicas := activeReplicas + [host];
        i := i + 1;
      }
      assert partitionlist[..i] == partitionlist;
    }

    /** One pass of the loop above: sort the partition's strings and take the host of the hashed one. */
    static method ActiveInPartition(guid: string, partition: seq<Address>, hash: (string, int) -> int)
      returns (host: string)
      requires HashWithin(hash) && partition != []
      requires AllWellFormed(partition)
      ensures host == ChosenHost(guid, partition, hash)
    {
      var pString := PartitionStrings(partition);
      pString := Sorting.Sort(pString);
      var index := hash(guid, |pString|);
      SortedNodeAt(partition, index);
      HostField(pString[index]);
      host := Text.Split(pString[index], ':')[0];
    }

    /** The "ip:port" strings of a partition's members, in the partition's order. */
    static method PartitionStrings(partition: seq<Address>) returns (pString: seq<string>)
      ensures pString == NodeStrings(partition)
    {
      pString := [];
      var j := 0;
      while j < |partition|
        invariant 0 <= j <= |partition|
        invariant pString == NodeStrings(partition[..j])
      {
        assert partition[..j + 1] == partition[..j] + [partition[j]];
        Seqs.MapConcat(AddressString, partition[..j], [partition[j]]);
        pString := pString + [AddressString(partition[j])];
        j := j + 1;
      }
      assert partition[..j] == partition;
    }
  }
}
