# GNS core, modelled in Dafny

This project models the sequential core of the GNS (Global Name Service)
server and client and proves properties of that model. It covers these parts:

- **The Paxos instance registry** (`PaxosManager`):
  - instances are stored under a lookup key derived from their Paxos ID;
  - proposals are forwarded to the instance registered under that key;
  - inbound messages are routed by packet type;
  - proposals that are not yet accepted are kept in accept-time order and resent when stale.
- **Deterministic placement**:
  - `NodePartitioning` sorts the `"ip:port"` strings of the replicas and deals them round-robin into k lists;
  - the select policy sends a select request to one of floor(sqrt(n)) partitions;
  - the two `SqrtNReplicationDemandProfile` classes pick one replica per partition by consistent hashing. The later of the two also keeps request counters and a one-shot reconfiguration flag.
- **Select processing** (`Select`, `CNSSelect`):
  - record projection;
  - `~field` extraction from queries;
  - guid extraction and record massaging;
  - the scatter/gather tables of queries in progress;
  - batching of select-notify guids and summing of their statistics;
  - the notification-handle tables.
- **Select messages and commands**:
  - the JSON forms of `SelectRequestPacket`, `NotificationStatsToIssuer` and `SelectHandleInfo`, with their round trips;
  - argument decoding in `NonBlockingSelectQuery` and `SelectNotificationStatus`.
- **Command helpers**:
  - `FieldAccess`: its field-name predicates, the read check and the shaping of lookup and select responses;
  - the client's `checkResponse`, `createCommand` and request-id and result bookkeeping;
  - the dump-response countdown of `ListenerAdmin`.

The model takes the form of the code it models:

- Objects whose fields change become classes with `modifies` clauses: the Paxos manager, the demand profiles, the select tables, the packet, the client and the listener.
- Loops become methods with invariants, proved against specification functions.
- Pure parsing and formatting code becomes functions with round-trip lemmas.

Some collaborators are not part of this model: the replicas, the logger, the database, the ACL check, the consistent hash, `isInternalField` and `queryContainsEvil`. Each one is a parameter, or a recorded call, with the contract the model relies on. Clocks, random draws and remote replies are parameters too.

Supporting modules:

- `Text`: Java's `split`, `indexOf`/`lastIndexOf`, and decimal printing and parsing, with their edge cases.
- `Sorting`: the string order and a sort with the uniqueness of sorted permutations.
- `Dealing`: round-robin dealing and the integer square root.
- `Json`: a JSON value model with `getString`, `getInt`, `getLong` and `optString`.
- `Seqs`, `Fresh` and `Wrappers`: small sequence helpers, fresh keys, and `Option`/`Result`.
- `Protocol` and `GnsResponseCode`: the protocol's marker strings and response codes.

## Model

| member | source | states |
|---|---|---|
| PaxosManager.PaxosKey | src/edu/umass/cs/gns/paxos/tmp/PaxosManager.java:974-981 | a primary ID, or an ID without '-', is its own key; otherwise the key is the prefix before the last '-' (which holds no '-' after it); the key is always a prefix of the ID |
| PaxosManager.ActiveIDKey | src/edu/umass/cs/gns/paxos/tmp/PaxosManager.java:62-71 | an active ID `name-X` with X free of '-' has key `name`, whatever X is |
| PaxosManager.EpochsShareKey | src/edu/umass/cs/gns/paxos/tmp/PaxosManager.java:62-71 | two active IDs of the same name in different epochs share one lookup key |
| PaxosManager.InsertByTime | src/edu/umass/cs/gns/paxos/tmp/PaxosManager.java:930-934 | `TreeSet.add` of an absent proposal keeps accept-time order, grows the set by one and adds exactly that proposal |
| PaxosManager.InsertByTimeDistinct | src/edu/umass/cs/gns/paxos/tmp/PaxosManager.java:930-934 | inserting an absent proposal keeps the set free of duplicates |
| PaxosManager.Survivors | src/edu/umass/cs/gns/paxos/tmp/PaxosManager.java:936-940 | removal keeps exactly the proposals not removed and never grows the set |
| PaxosManager.SurvivorsValid | src/edu/umass/cs/gns/paxos/tmp/PaxosManager.java:1114-1125 | removals keep the set ordered by accept time and free of duplicates |
| PaxosManager.SurvivorsNone | src/edu/umass/cs/gns/paxos/tmp/PaxosManager.java:1114-1125 | removing nothing leaves the set as it was |
| PaxosManager.SurvivorsUnion | src/edu/umass/cs/gns/paxos/tmp/PaxosManager.java:1114-1125 | removing one set of proposals after another equals removing their union |
| PaxosManager.StalePrefix | src/edu/umass/cs/gns/paxos/tmp/PaxosManager.java:1105-1112 | the collected run is a prefix of the set, every element is older than the resend interval, and the first element after it is not |
| PaxosManager.StalePrefixComplete | src/edu/umass/cs/gns/paxos/tmp/PaxosManager.java:1105-1112 | in accept-time order the collected run holds every stale proposal of the set |
| PaxosManager.StalePrefixIs | src/edu/umass/cs/gns/paxos/tmp/PaxosManager.java:1106-1111 | a loop that stops at the first fresh proposal has collected exactly the stale prefix |
| PaxosManager.ResendCalls | src/edu/umass/cs/gns/paxos/tmp/PaxosManager.java:1114-1115 | one `resendPendingProposal` call per collected proposal, in order |
| PaxosManager.CollectStale | src/edu/umass/cs/gns/paxos/tmp/PaxosManager.java:1101-1112 | the scan's first loop returns the stale prefix |
| PaxosManager.ResendEach | src/edu/umass/cs/gns/paxos/tmp/PaxosManager.java:1114-1125 | the scan's second loop resends each collected proposal in order and removes exactly those whose resend returned false, keeping the set valid |
| PaxosManager.Manager.constructor | src/edu/umass/cs/gns/paxos/tmp/PaxosManager.java:102 | a new manager has no instances, no proposals, no log, no calls and `logMsgID` 0 |
| PaxosManager.Manager.FindByKey | src/edu/umass/cs/gns/paxos/tmp/PaxosManager.java:1061-1062 | the instance with a given full ID, if any, is the one stored under that ID's key |
| PaxosManager.Manager.CreatePaxosInstance | src/edu/umass/cs/gns/paxos/tmp/PaxosManager.java:537-596 | false with nothing changed for fewer than 3 members, for a group without this node, or for an already registered identical ID; otherwise a new replica with that ID under its key, with no other key changed, a start record logged with slot 0 and the initial state, and, when an older epoch is displaced, that epoch's proposals dropped and its stop logged |
| PaxosManager.Manager.Propose | src/edu/umass/cs/gns/paxos/tmp/PaxosManager.java:671-703 | None iff no instance is registered under the key; otherwise the request goes to that instance and its full ID (perhaps another epoch) is returned; nothing else changes |
| PaxosManager.Manager.HandleIncomingPacket | src/edu/umass/cs/gns/paxos/tmp/PaxosManager.java:777-838 | a message without a type is dropped; DECISION goes to the logger as log-and-execute; failure detection messages go to the failure task; anything else goes to a message task |
| PaxosManager.Manager.RunPaxosMessageTask | src/edu/umass/cs/gns/paxos/tmp/PaxosManager.java:1049-1080 | the message reaches a replica iff it has an ID and the instance under that ID's key has exactly that ID |
| PaxosManager.Manager.AddToActiveProposals | src/edu/umass/cs/gns/paxos/tmp/PaxosManager.java:930-934 | the proposal set gains the proposal (nothing changes if present), stays ordered and duplicate-free |
| PaxosManager.Manager.RemoveFromActiveProposals | src/edu/umass/cs/gns/paxos/tmp/PaxosManager.java:936-940 | the proposal set loses exactly that proposal, keeping the order of the rest |
| PaxosManager.Manager.ResendPendingMessages | src/edu/umass/cs/gns/paxos/tmp/PaxosManager.java:1099-1132 | collects exactly the stale prefix, resends each, removes those whose resend reports false, keeps the set valid and schedules the scan again; instances and log unchanged |
| PaxosManager.Manager.NextLogMessageID | src/edu/umass/cs/gns/paxos/tmp/PaxosManager.java:952-960 | `logMsgID` is incremented as a Java int, wrapping around at the int range, and the new value is returned |
| PaxosManager.Manager.ResetAll | src/edu/umass/cs/gns/paxos/tmp/PaxosManager.java:525-532 | no instances and an empty log afterwards |
| NodePartitioning.ParseAddress | src/edu/umass/cs/gnsserver/gnsapp/cns/common/NodePartitioning.java:64-68 | a parsed string gives a host without ':' and a port in range |
| NodePartitioning.ParseAddressString | src/edu/umass/cs/gnsserver/gnsapp/cns/common/NodePartitioning.java:46-68 | the `"ip:port"` string of a well-formed address parses back to that address |
| NodePartitioning.AddressStringInjective | src/edu/umass/cs/gnsserver/gnsapp/cns/common/NodePartitioning.java:46 | distinct well-formed addresses have distinct strings |
| NodePartitioning.CreatePartitions | src/edu/umass/cs/gnsserver/gnsapp/cns/common/NodePartitioning.java:36-79 | the loops build exactly the partitions: the sorted strings parsed back and dealt round-robin into `numPartitions` lists |
| NodePartitioning.SortedNodesParse | src/edu/umass/cs/gnsserver/gnsapp/cns/common/NodePartitioning.java:60-75 | every sorted string parses back to a well-formed replica, so the parse never fails |
| NodePartitioning.SortedNodesLength | src/edu/umass/cs/gnsserver/gnsapp/cns/common/NodePartitioning.java:39-49 | sorting keeps the number of replicas |
| NodePartitioning.SortedNodeAt | src/edu/umass/cs/gnsserver/gnsapp/cns/common/NodePartitioning.java:63-68 | the sorted string at position j parses to the sorted replica at position j |
| NodePartitioning.SortedNodesMultiset | src/edu/umass/cs/gnsserver/gnsapp/cns/common/NodePartitioning.java:39-75 | the sorted list holds exactly the input replicas |
| NodePartitioning.SortedNodesOrdered | src/edu/umass/cs/gnsserver/gnsapp/cns/common/NodePartitioning.java:49 | the sorted list is in ascending order of its strings |
| NodePartitioning.PartitionOfPosition | src/edu/umass/cs/gnsserver/gnsapp/cns/common/NodePartitioning.java:54-69 | there are exactly `numPartitions` lists, and the replica at sorted position j = q*k+p is element q of list p |
| NodePartitioning.PartitionsCover | src/edu/umass/cs/gnsserver/gnsapp/cns/common/NodePartitioning.java:39-76 | the partitions together hold every replica exactly as often as the input does, and nothing else |
| NodePartitioning.PartitionsSorted | src/edu/umass/cs/gnsserver/gnsapp/cns/common/NodePartitioning.java:49-69 | each partition is in ascending order of its strings |
| NodePartitioning.PartitionsBalanced | src/edu/umass/cs/gnsserver/gnsapp/cns/common/NodePartitioning.java:60-62 | partition sizes differ by at most one |
| NodePartitioning.PartitionsOrderIndependent | src/edu/umass/cs/gnsserver/gnsapp/cns/common/NodePartitioning.java:41-49 | two iteration orders of the same replicas give the same partitions |
| NodePartitioning.SortedNodesOrderIndependent | src/edu/umass/cs/gnsserver/gnsapp/cns/common/NodePartitioning.java:41-49 | the sorted list depends only on the replicas, not on their order |
| NodePartitioning.PartitionNonEmpty | src/edu/umass/cs/gnsserver/gnsapp/cns/selectpolicy/SqrtNPartitioningSelectPolicy.java:42-46 | with at least one replica each of the floor(sqrt(n)) partitions is non-empty |
| NodePartitioning.PartitionWithinActives | src/edu/umass/cs/gnsserver/gnsapp/cns/common/NodePartitioning.java:60-69 | every member of a partition is one of the input replicas |
| NodePartitioning.HostField | src/edu/umass/cs/gnsserver/gnsapp/cns/demandprofile/SqrtNReplicationDemandProfile.java:276-278 | the first ':'-field of a parseable address string is its host |
| Dealing.FloorSqrt | src/edu/umass/cs/gnsserver/gnsapp/cns/selectpolicy/SqrtNPartitioningSelectPolicy.java:42 | `(int)Math.sqrt(n)`: r*r <= n < (r+1)*(r+1) |
| SqrtNSelectPolicy.GetNodesForSelectRequest | src/edu/umass/cs/gnsserver/gnsapp/cns/selectpolicy/SqrtNPartitioningSelectPolicy.java:39-56 | an error (nextInt(0) throws) iff there are no actives; otherwise the members of the drawn one of the floor(sqrt(n)) partitions of the current actives, a non-empty subset of them |
| CnsDemandProfile.ChosenHosts | src/edu/umass/cs/gnsserver/gnsapp/cns/demandprofile/SqrtNReplicationDemandProfile.java:257-288 | one chosen host per partition |
| CnsDemandProfile.ChosenHostsAt | src/edu/umass/cs/gnsserver/gnsapp/cns/demandprofile/SqrtNReplicationDemandProfile.java:257-288 | entry i is the host chosen in partition i, in partition order |
| CnsDemandProfile.ChosenActiveMember | src/edu/umass/cs/gnsserver/gnsapp/cns/demandprofile/SqrtNReplicationDemandProfile.java:268-278 | the chosen replica is a member of its partition |
| CnsDemandProfile.ChosenActiveOrderIndependent | src/edu/umass/cs/gnsserver/gnsapp/cns/demandprofile/SqrtNReplicationDemandProfile.java:268-271 | the choice depends on the partition's members, not on their order, because the strings are sorted first |
| CnsDemandProfile.Profile.constructor | src/edu/umass/cs/gnsserver/gnsapp/cns/demandprofile/SqrtNReplicationDemandProfile.java:100-110 | a profile for a name with no copy kept |
| CnsDemandProfile.Profile.Register | src/edu/umass/cs/gnsserver/gnsapp/cns/demandprofile/SqrtNReplicationDemandProfile.java:131-147 | registering a request changes nothing |
| CnsDemandProfile.Profile.Combine | src/edu/umass/cs/gnsserver/gnsapp/cns/demandprofile/SqrtNReplicationDemandProfile.java:160-163 | combining changes neither profile |
| CnsDemandProfile.Profile.ShouldReport | src/edu/umass/cs/gnsserver/gnsapp/cns/demandprofile/SqrtNReplicationDemandProfile.java:228-232 | always true |
| CnsDemandProfile.Profile.JustReconfigured | src/edu/umass/cs/gnsserver/gnsapp/cns/demandprofile/SqrtNReplicationDemandProfile.java:166-172 | keeps a copy, which carries only the name |
| CnsDemandProfile.Profile.ShouldReconfigure | src/edu/umass/cs/gnsserver/gnsapp/cns/demandprofile/SqrtNReplicationDemandProfile.java:186-224 | None iff the node config is not a consistent one; otherwise floor(sqrt(n)) hosts, the i-th chosen by the hash among partition i's sorted strings; the result is determined by the config and the name, so repeated calls agree |
| CnsDemandProfile.Profile.CreateActiveReplicasForGUID | src/edu/umass/cs/gnsserver/gnsapp/cns/demandprofile/SqrtNReplicationDemandProfile.java:254-289 | the loop returns the chosen host of each partition, in partition order |
| CnsDemandProfile.Profile.ActiveInPartition | src/edu/umass/cs/gnsserver/gnsapp/cns/demandprofile/SqrtNReplicationDemandProfile.java:261-280 | one pass: sort the partition's strings, take the hashed one's host |
| CnsDemandProfile.Profile.PartitionStrings | src/edu/umass/cs/gnsserver/gnsapp/cns/demandprofile/SqrtNReplicationDemandProfile.java:261-271 | the inner loop builds the `"ip:port"` strings of the partition, in order |
| DemandProfile.SqrtNPartitions | src/edu/umass/cs/gnsserver/gnsapp/demandprofiles/SqrtNReplicationDemandProfile.java:388-429 | exactly floor(sqrt(n)) partitions |
| DemandProfile.SqrtNPartitionsCover | src/edu/umass/cs/gnsserver/gnsapp/demandprofiles/SqrtNReplicationDemandProfile.java:388-429 | every active address is in exactly one partition, and nothing else is |
| DemandProfile.SqrtNPartitionSorted | src/edu/umass/cs/gnsserver/gnsapp/demandprofiles/SqrtNReplicationDemandProfile.java:388-429 | each partition is sorted, so sorting it again changes nothing |
| DemandProfile.SqrtNPartitionSize | src/edu/umass/cs/gnsserver/gnsapp/demandprofiles/SqrtNReplicationDemandProfile.java:388-429 | sizes are n/k or n/k+1 and no partition is empty |
| DemandProfile.SqrtNPartitionsOrderIndependent | src/edu/umass/cs/gnsserver/gnsapp/demandprofiles/SqrtNReplicationDemandProfile.java:388-429 | the partitions depend only on the addresses, not on their listed order |
| DemandProfile.SqrtNPartitionWithin | src/edu/umass/cs/gnsserver/gnsapp/demandprofiles/SqrtNReplicationDemandProfile.java:388-429 | each partition member is an active address |
| Text.Int32 | src/edu/umass/cs/gnsserver/gnsapp/demandprofiles/SqrtNReplicationDemandProfile.java:88-93 | the value an int counter holds: within int range, unchanged when the exact result fits, and congruent to it modulo 2^32 |
| DemandProfile.CounterWrapsAround | src/edu/umass/cs/gnsserver/gnsapp/demandprofiles/SqrtNReplicationDemandProfile.java:215-216 | one request past Integer.MAX_VALUE makes a counter Integer.MIN_VALUE |
| DemandProfile.MergeVotes | src/edu/umass/cs/gnsserver/gnsapp/demandprofiles/SqrtNReplicationDemandProfile.java:272 | `votesMap.combine`: the keys of both maps, each with the sum of its votes in the two |
| DemandProfile.MergeEmptyVotes | src/edu/umass/cs/gnsserver/gnsapp/demandprofiles/SqrtNReplicationDemandProfile.java:244-272 | combining with a profile just reset (an empty votes map), in either order, leaves the votes unchanged |
| DemandProfile.MergeVotesOrderFree | src/edu/umass/cs/gnsserver/gnsapp/demandprofiles/SqrtNReplicationDemandProfile.java:260-274 | the votes merge is commutative and associative, so reports can be combined in any order |
| DemandProfile.Profile.constructor | src/edu/umass/cs/gnsserver/gnsapp/demandprofiles/SqrtNReplicationDemandProfile.java:160-175 | all counters zero, no votes, flag off, no copy kept; the counters start within int range |
| DemandProfile.Profile.Register | src/edu/umass/cs/gnsserver/gnsapp/demandprofiles/SqrtNReplicationDemandProfile.java:192-232 | counters unchanged for another name, a non-command request or a missing node config; otherwise numRequests and numTotalRequests grow by one and exactly one of updateCount/lookupCount does, updateCount iff coordination is needed, each wrapping around at the int range; the first request time is recorded; the votes are untouched |
| DemandProfile.Profile.Reset | src/edu/umass/cs/gnsserver/gnsapp/demandprofiles/SqrtNReplicationDemandProfile.java:238-247 | numRequests, updateCount, lookupCount and the request time are zeroed and the votes map emptied; numTotalRequests and the flag survive |
| DemandProfile.Profile.Combine | src/edu/umass/cs/gnsserver/gnsapp/demandprofiles/SqrtNReplicationDemandProfile.java:260-274 | the four counts are added with int wrap-around, the votes merged key by key, and the later request time kept |
| DemandProfile.Profile.JustReconfigured | src/edu/umass/cs/gnsserver/gnsapp/demandprofiles/SqrtNReplicationDemandProfile.java:277-283 | keeps a copy of the current counters and votes, as `clone` makes it |
| DemandProfile.Profile.ShouldReconfigure | src/edu/umass/cs/gnsserver/gnsapp/demandprofiles/SqrtNReplicationDemandProfile.java:286-319 | actives iff this is the first call, and after it the flag is set and `shouldReport` is false; the actives are, per partition, the member at the hashed index |
| DemandProfile.Profile.CreateSqrtNPartitionsOfNodes | src/edu/umass/cs/gnsserver/gnsapp/demandprofiles/SqrtNReplicationDemandProfile.java:388-429 | the copy/sort/deal/sort loops build exactly the specified partitions |
| DemandProfile.Profile.CreateActiveReplicasForGUID | src/edu/umass/cs/gnsserver/gnsapp/demandprofiles/SqrtNReplicationDemandProfile.java:432-453 | one member per partition, the one at `hash(name, size)`, in partition order |
| SelectRecords.Projected | src/edu/umass/cs/gnsserver/gnsapp/Select.java:586-646 | the record unchanged when the projection is null or starts with ENTIRE_RECORD; otherwise NAME kept, other top-level keys removed, and values-map keys kept exactly when named; null when the values map is not an object |
| SelectRecords.ProjectedIdempotent | src/edu/umass/cs/gnsserver/gnsapp/Select.java:586-646 | projecting a projected record again changes nothing |
| SelectRecords.PerformProjection | src/edu/umass/cs/gnsserver/gnsapp/Select.java:586-646 | the key-removal loops compute exactly the projection |
| SelectRecords.FilterValuesMap | src/edu/umass/cs/gnsserver/gnsapp/Select.java:622-631 | the iterator loop keeps exactly the values-map keys named in the projection, with their values |
| SelectRecords.FieldsFromQueryArePaths | src/edu/umass/cs/gnsserver/gnsapp/Select.java:751-760 | every extracted field matches `\w+(\.\w+)*` |
| SelectRecords.FieldsFromQueryMentioning | src/edu/umass/cs/gnsserver/gnsapp/Select.java:751-760 | a query mentioning fields as `~f ` yields exactly those fields, in order |
| SelectRecords.FieldsFromMention | src/edu/umass/cs/gnsserver/gnsapp/Select.java:754-758 | one `~field ` at the front contributes that field and nothing else |
| SelectRecords.FieldsForQueryType | src/edu/umass/cs/gnsserver/gnsapp/Select.java:736-748 | EQUALS/NEAR/WITHIN give `[key]`, QUERY/SELECT_NOTIFY the fields of the query, anything else `[]` |
| SelectRecords.ExtractGuids | src/edu/umass/cs/gnsserver/gnsapp/Select.java:966-975 | exactly the names of the records that have one |
| SelectRecords.Massage | src/edu/umass/cs/gnsserver/gnsapp/Select.java:944-958 | a record is kept iff its name and values map can be read; it then holds `_GUID` = name and exactly the non-internal values-map entries |
| SelectRecords.FilterAndMassage | src/edu/umass/cs/gnsserver/gnsapp/Select.java:941-962 | never more records out than in |
| SelectRecords.FilterAndMassageRecords | src/edu/umass/cs/gnsserver/gnsapp/Select.java:941-962 | the loop computes the massaged readable records, in order |
| SelectRecords.FilterAndMassageKeepsReadable | src/edu/umass/cs/gnsserver/gnsapp/Select.java:941-962 | nothing readable is dropped |
| SelectRecords.MassagedGuidsExtracted | src/edu/umass/cs/gnsserver/gnsapp/Select.java:941-975 | every massaged record's `_GUID` is among the extracted guids |
| Select.SendingTotals | src/edu/umass/cs/gnsserver/gnsapp/Select.java:404-416 | the total of the per-batch sending statistics |
| Select.SendingTotalsAppend | src/edu/umass/cs/gnsserver/gnsapp/Select.java:404-416 | the per-batch total is additive over concatenation |
| Select.TotalsAppend | src/edu/umass/cs/gnsserver/gnsapp/Select.java:889-899 | the per-server total is additive over concatenation |
| Select.SumSendingStats | src/edu/umass/cs/gnsserver/gnsapp/Select.java:404-416 | the summing loop returns the total of the batches' counts, failures counted as failed guids |
| Select.SumIssuerStats | src/edu/umass/cs/gnsserver/gnsapp/Select.java:889-899 | the summing loop returns the total of the servers' counts |
| Select.GuidsOf | src/edu/umass/cs/gnsserver/gnsapp/Select.java:332-357 | the guids of the readable records, in cursor order |
| Select.ScanOneKeeps | src/edu/umass/cs/gnsserver/gnsapp/Select.java:332-381 | one record of the cursor loop keeps the batching invariant |
| Select.ScanInvariant | src/edu/umass/cs/gnsserver/gnsapp/Select.java:332-381 | after the cursor loop every sent batch is full, the current list is short, and together they hold every guid once, in order |
| Select.BatchesSplitGuids | src/edu/umass/cs/gnsserver/gnsapp/Select.java:359-402 | with a positive fetch size the batches are runs of exactly SELECT_FETCH_SIZE guids plus one non-empty remainder, ceil(guids/size) in all, and they hold the guids in order |
| Select.NonPositiveFetchSize | src/edu/umass/cs/gnsserver/gnsapp/Select.java:359-381 | with a fetch size of at most zero every record sends a batch of its own |
| Select.SendAll | src/edu/umass/cs/gnsserver/gnsapp/Select.java:372-401 | one sending-statistics entry per batch |
| Select.TotalCountsEveryGuid | src/edu/umass/cs/gnsserver/gnsapp/Select.java:404-416 | a sender reporting one notification per guid makes the total equal the number of matching guids |
| Select.NewQueryInfo | src/edu/umass/cs/gnsserver/gnsapp/Select.java:986-988 | a new query info: every server still to respond, nothing received |
| Select.AddRecordIfNotSeen | src/edu/umass/cs/gnsserver/gnsapp/Select.java:1008-1009 | a record under a new name is appended; one under a known name is ignored |
| Select.StoreRecords | src/edu/umass/cs/gnsserver/gnsapp/Select.java:1003-1011 | the record loop stores records in order until the first unreadable one, which aborts with a JSONException |
| Select.StoreRecordsLoop | src/edu/umass/cs/gnsserver/gnsapp/Select.java:1003-1011 | the loop computes exactly that |
| Select.GuidsAreNames | src/edu/umass/cs/gnsserver/gnsapp/Select.java:863-864 | the guids extracted from the stored records are exactly the names recorded |
| Select.StoreReply | src/edu/umass/cs/gnsserver/gnsapp/Select.java:993-1023 | records stored for record queries, notification stats appended for SELECT_NOTIFY, nothing for other operations; the pending servers unchanged |
| Select.ReplyFor | src/edu/umass/cs/gnsserver/gnsapp/Select.java:850-919 | guids only for a null projection, massaged records otherwise, merged notification totals with a fresh handle for SELECT_NOTIFY, and no reply for other operations |
| Select.ValidRecordsReadable | src/edu/umass/cs/gnsserver/gnsapp/Select.java:941-962 | stored records with a readable values map are all kept by massaging |
| Select.Received | src/edu/umass/cs/gnsserver/gnsapp/Select.java:791-825 | an error response stores nothing; a NO_ERROR one is stored |
| Select.SelectState.constructor | src/edu/umass/cs/gnsserver/gnsapp/Select.java:264-275 | empty tables |
| Select.SelectState.AddQueryInfo | src/edu/umass/cs/gnsserver/gnsapp/Select.java:977-990 | a new query info under an id not in use; nothing else changes |
| Select.SelectState.HandleSelectResponse | src/edu/umass/cs/gnsserver/gnsapp/Select.java:774-847 | an unknown id changes nothing; the server is crossed off whatever the code; records are stored only for NO_ERROR; when no server is left the reply is published and, when delegated, the query removed |
| Select.SelectState.HandledAllServersResponded | src/edu/umass/cs/gnsserver/gnsapp/Select.java:850-937 | the reply is put under the query id, and the query is removed iff client messaging is delegated |
| Select.SelectState.ProcessSelectNotify | src/edu/umass/cs/gnsserver/gnsapp/Select.java:323-431 | no batches means no handle and zero totals; otherwise the batches are sent, their summed statistics returned, and the handle removed before returning |
| Select.SelectState.SendBatch | src/edu/umass/cs/gnsserver/gnsapp/Select.java:359-401 | draws a handle only when none is held, sends the batch, and appends its statistics under the handle |
| CnsSelect.ReturnArray | src/edu/umass/cs/gnsserver/gnsapp/nonblockingselect/CNSSelect.java:250-262 | the array whose text the client receives: each guid of the reply's list exactly once, as a string, or an empty array when the reply carries no guid list |
| CnsSelect.ListsOnceLength | src/edu/umass/cs/gnsserver/gnsapp/nonblockingselect/CNSSelect.java:236 | a list holding each guid of a set exactly once is as long as the set is large |
| CnsSelect.ReplyFor | src/edu/umass/cs/gnsserver/gnsapp/nonblockingselect/CNSSelect.java:216-295 | one response to the client's address with the original request id; a guid list iff the projection was null; the elapsed time since arrival |
| CnsSelect.ReplyReturnArray | src/edu/umass/cs/gnsserver/gnsapp/nonblockingselect/CNSSelect.java:224-262 | without a projection the client reads every guid named by a gathered record, each once; with a projection it reads an empty array |
| CnsSelect.Respond | src/edu/umass/cs/gnsserver/gnsapp/nonblockingselect/CNSSelect.java:150-213 | an unknown id changes nothing; only NOERROR stores records; the server is crossed off whatever the code; while servers remain nothing is sent; once none remains the entry is removed and exactly one reply is sent; other entries unchanged |
| CnsSelect.ReplyListsStoredNames | src/edu/umass/cs/gnsserver/gnsapp/nonblockingselect/CNSSelect.java:224-236 | the guids in a reply are exactly the names stored |
| CnsSelect.OnlyNoErrorAddsRecords | src/edu/umass/cs/gnsserver/gnsapp/nonblockingselect/CNSSelect.java:171-184 | stored names only grow, and an error response adds none |
| CnsSelect.Deliver | src/edu/umass/cs/gnsserver/gnsapp/nonblockingselect/CNSSelect.java:150-213 | a run of responses: the state and the replies sent, in order |
| CnsSelect.AddressesOfCons | src/edu/umass/cs/gnsserver/gnsapp/nonblockingselect/CNSSelect.java:196-201 | the responding servers of a run, head first |
| CnsSelect.DeliverAfterRemoval | src/edu/umass/cs/gnsserver/gnsapp/nonblockingselect/CNSSelect.java:158-168 | once the entry is gone, later responses change nothing and send nothing |
| CnsSelect.GatherSendsOneReply | src/edu/umass/cs/gnsserver/gnsapp/nonblockingselect/CNSSelect.java:196-205 | if the run answers for every pending server and has at least one response, the entry is removed and exactly one reply is sent; otherwise the entry stays, nothing is sent, and the servers left are those that did not answer |
| CnsSelect.ServersOfSnoc | src/edu/umass/cs/gnsserver/gnsapp/nonblockingselect/CNSSelect.java:117-125 | the servers of the sent messages, with one message more |
| CnsSelect.Scatter | src/edu/umass/cs/gnsserver/gnsapp/nonblockingselect/CNSSelect.java:115-125 | one message per server, each to the server's client-facing port, carrying the same packet |
| CnsSelect.Coordinator.constructor | src/edu/umass/cs/gnsserver/gnsapp/nonblockingselect/CNSSelect.java:60-75 | empty tables |
| CnsSelect.Coordinator.AddSelectRequestIntoPendingMap | src/edu/umass/cs/gnsserver/gnsapp/nonblockingselect/CNSSelect.java:298-326 | an id not previously in use, now holding the new entry; nothing else changes |
| CnsSelect.Coordinator.HandleSelectRequestFromClient | src/edu/umass/cs/gnsserver/gnsapp/nonblockingselect/CNSSelect.java:82-127 | a null packet or a failed signature registers and sends nothing; otherwise the request is registered under a fresh id and sent to every chosen server's client-facing port, the packet carrying that id and this node's client-facing address as its return address |
| CnsSelect.Coordinator.HandleSelectResponseFromNS | src/edu/umass/cs/gnsserver/gnsapp/nonblockingselect/CNSSelect.java:150-213 | the table and outbox are updated as `Respond` says |
| SelectRequestPacket.OperationValueOf | src/edu/umass/cs/gnsserver/gnsapp/packet/SelectRequestPacket.java:179 | `valueOf` gives an operation whose name is the string |
| SelectRequestPacket.OperationNameRoundTrip | src/edu/umass/cs/gnsserver/gnsapp/packet/SelectRequestPacket.java:179-224 | every operation's name is read back as that operation |
| SelectRequestPacket.Written | src/edu/umass/cs/gnsserver/gnsapp/packet/SelectRequestPacket.java:196-227 | the type, id, both query ids and the operation are always written; every other field, the superclass's return address among them, iff it is not null; no other key |
| SelectRequestPacket.StringIfPresent | src/edu/umass/cs/gnsserver/gnsapp/packet/SelectRequestPacket.java:166-167 | null iff the key is absent, otherwise the stored string |
| SelectRequestPacket.ArrayIfPresent | src/edu/umass/cs/gnsserver/gnsapp/packet/SelectRequestPacket.java:171-175 | null iff the key is absent |
| SelectRequestPacket.OptValue | src/edu/umass/cs/gnsserver/gnsapp/packet/SelectRequestPacket.java:168-170 | null iff absent or JSON null, otherwise a string |
| SelectRequestPacket.Decode | src/edu/umass/cs/gnsserver/gnsapp/packet/SelectRequestPacket.java:158-180 | the return address is read first; then a wrong packet type is rejected; missing id, query ids or operation are errors; ids within long/int range; the optional fields null exactly when absent |
| SelectRequestPacket.RoundTrip | src/edu/umass/cs/gnsserver/gnsapp/packet/SelectRequestPacket.java:158-227 | decoding what `addToJSONObject` wrote gives every field back, the return address included, whatever else the object holds |
| SelectRequestPacket.RequiredFieldsRead | src/edu/umass/cs/gnsserver/gnsapp/packet/SelectRequestPacket.java:199-226 | the always-written fields read back by their getters |
| SelectRequestPacket.OptionalFieldsRead | src/edu/umass/cs/gnsserver/gnsapp/packet/SelectRequestPacket.java:159-226 | the optional fields and the return address read back as the same optional values |
| SelectRequestPacket.NumericValueBecomesString | src/edu/umass/cs/gnsserver/gnsapp/packet/SelectRequestPacket.java:168-207 | a numeric `value` comes back as its decimal text |
| SelectRequestPacket.SelectRequestPacket.constructor | src/edu/umass/cs/gnsserver/gnsapp/packet/SelectRequestPacket.java:78-90 | the given fields, no query and no projection, both query ids -1 |
| SelectRequestPacket.SelectRequestPacket.ForQuery | src/edu/umass/cs/gnsserver/gnsapp/packet/SelectRequestPacket.java:101-116 | key, value and otherValue null, both query ids -1 |
| SelectRequestPacket.SelectRequestPacket.MakeQueryRequest | src/edu/umass/cs/gnsserver/gnsapp/packet/SelectRequestPacket.java:127-131 | a QUERY request without a notification |
| SelectRequestPacket.SelectRequestPacket.MakeSelectNotifyRequest | src/edu/umass/cs/gnsserver/gnsapp/packet/SelectRequestPacket.java:145-150 | a SELECT_NOTIFY request carrying the notification string |
| SelectRequestPacket.SelectRequestPacket.FromJson | src/edu/umass/cs/gnsserver/gnsapp/packet/SelectRequestPacket.java:158-180 | a new packet holding the decoded fields, or the decoding error |
| SelectRequestPacket.SelectRequestPacket.AddToJSONObject | src/edu/umass/cs/gnsserver/gnsapp/packet/SelectRequestPacket.java:196-227 | the caller's object with the packet's entries written over it, other entries kept, and decodable back to the packet |
| SelectRequestPacket.SelectRequestPacket.ToJSONObject | src/edu/umass/cs/gnsserver/gnsapp/packet/SelectRequestPacket.java:189-193 | exactly the written entries |
| SelectRequestPacket.SelectRequestPacket.SetCCPQueryId | src/edu/umass/cs/gnsserver/gnsapp/packet/SelectRequestPacket.java:234-236 | only ccpQueryId changes |
| SelectRequestPacket.SelectRequestPacket.SetNSReturnAddress | src/edu/umass/cs/gnsserver/gnsapp/nonblockingselect/CNSSelect.java:109-114 | only the return address changes, to the address given |
| SelectRequestPacket.SelectRequestPacket.SetNsQueryId | src/edu/umass/cs/gnsserver/gnsapp/packet/SelectRequestPacket.java:243-245 | only nsQueryId changes |
| SelectRequestPacket.SelectRequestPacket.SetRequestId | src/edu/umass/cs/gnsserver/gnsapp/packet/SelectRequestPacket.java:261-263 | only the request id changes |
| SelectRequestPacket.SelectRequestPacket.SetQuery | src/edu/umass/cs/gnsserver/gnsapp/packet/SelectRequestPacket.java:342-344 | only the query changes |
| SelectRequestPacket.SelectRequestPacket.SetProjection | src/edu/umass/cs/gnsserver/gnsapp/packet/SelectRequestPacket.java:358-360 | only the projection changes |
| SelectRequestPacket.SelectRequestPacket.GetServiceName | src/edu/umass/cs/gnsserver/gnsapp/packet/SelectRequestPacket.java:367-376 | the same non-empty name whatever the packet's fields |
| SelectCommands.DecodeProjection | src/edu/umass/cs/gnsserver/gnsapp/nonblockingselect/commands/NonBlockingSelectQuery.java:50-61 | null when FIELDS is absent, `[ENTIRE_RECORD]` when it is that marker, otherwise the array of strings in order, and an error when it is not one |
| SelectCommands.ProjectionArgument | src/edu/umass/cs/gnsserver/gnsapp/nonblockingselect/commands/NonBlockingSelectQuery.java:50-61 | how a client writes a projection: only under FIELDS |
| SelectCommands.ProjectionRoundTrip | src/edu/umass/cs/gnsserver/gnsapp/nonblockingselect/commands/NonBlockingSelectQuery.java:50-61 | every projection a client can pass decodes back to itself |
| SelectCommands.GetSelectRequestPacket | src/edu/umass/cs/gnsserver/gnsapp/nonblockingselect/commands/NonBlockingSelectQuery.java:34-66 | QUERY required, reader optional; an evil query gives null; otherwise a QUERY request with id -1 and the decoded projection |
| SelectCommands.ExecuteArguments | src/edu/umass/cs/gnsserver/gnsapp/clientCommandProcessor/commands/select/SelectNotificationStatus.java:43-72 | QUERY and SELECT_NOTIFICATION required; reader, signature and message optional; the projection decoded as above |
| SelectCommands.BaseCommand | src/edu/umass/cs/gnsserver/gnsapp/clientCommandProcessor/commands/select/SelectNotificationStatus.java:47-53 | the command holds the query and notification string under their keys and no FIELDS |
| SelectCommands.OptionalArgumentsRead | src/edu/umass/cs/gnsserver/gnsapp/clientCommandProcessor/commands/select/SelectNotificationStatus.java:47-53 | the optional arguments read back as given |
| SelectCommands.ExecuteRoundTrip | src/edu/umass/cs/gnsserver/gnsapp/clientCommandProcessor/commands/select/SelectNotificationStatus.java:43-72 | exactly the values a client passed are forwarded to `selectAndNotify` |
| NotificationState.NameServerState.constructor | src/edu/umass/cs/gnsserver/gnsapp/selectnotification/NameServerSelectNotificationState.java:22-27 | an empty table |
| NotificationState.NameServerState.AddNotificationStats | src/edu/umass/cs/gnsserver/gnsapp/selectnotification/NameServerSelectNotificationState.java:36-42 | appends to that handle's list, others unchanged; an unregistered handle fails with nothing changed |
| NotificationState.NameServerState.LookupNotificationStats | src/edu/umass/cs/gnsserver/gnsapp/selectnotification/NameServerSelectNotificationState.java:45-48 | the handle's current list, or null when absent |
| NotificationState.NameServerState.RemoveNotificationInfo | src/edu/umass/cs/gnsserver/gnsapp/selectnotification/NameServerSelectNotificationState.java:50-56 | the handle is gone and its previous list (or null) is returned |
| NotificationState.NameServerState.GetUniqueIDAndInit | src/edu/umass/cs/gnsserver/gnsapp/selectnotification/NameServerSelectNotificationState.java:59-71 | a handle not previously used, now mapped to an empty list |
| NotificationState.EntryPointState.constructor | src/edu/umass/cs/gnsserver/gnsapp/selectnotification/EntryPointSelectNotificationState.java:14-19 | an empty table |
| NotificationState.EntryPointState.AddNotificationState | src/edu/umass/cs/gnsserver/gnsapp/selectnotification/EntryPointSelectNotificationState.java:29-42 | a handle not previously used, now mapped to the servers; the table grows by exactly one and nothing else changes |
| NotificationState.EntryPointState.RemoveNotificationState | src/edu/umass/cs/gnsserver/gnsapp/selectnotification/EntryPointSelectNotificationState.java:51-54 | always false, nothing changes |
| NotificationStats.ToJson | src/edu/umass/cs/gnsserver/gnsapp/selectnotification/NotificationStatsToIssuer.java:50-57 | exactly the three keys, each a number |
| NotificationStats.FromJson | src/edu/umass/cs/gnsserver/gnsapp/selectnotification/NotificationStatsToIssuer.java:59-66 | counts within long range; any missing key is an error |
| NotificationStats.RoundTrip | src/edu/umass/cs/gnsserver/gnsapp/selectnotification/NotificationStatsToIssuer.java:50-66 | counts that fit a long survive the round trip |
| SelectHandleInfo.ToJson | src/edu/umass/cs/gnscommon/packets/commandreply/SelectHandleInfo.java:43-50 | exactly HANDLE_ID and SERVER_ADDRESS, the address as one string |
| SelectHandleInfo.FromJson | src/edu/umass/cs/gnscommon/packets/commandreply/SelectHandleInfo.java:53-62 | a missing key is a JSON error; otherwise a handle within long range and an address split at ':' with a port in range |
| SelectHandleInfo.RoundTrip | src/edu/umass/cs/gnscommon/packets/commandreply/SelectHandleInfo.java:43-62 | for an IPv4 host, a valid port and a long handle, the round trip gives the handle back |
| SelectHandleInfo.NoColonFails | src/edu/umass/cs/gnscommon/packets/commandreply/SelectHandleInfo.java:56-59 | an address without ':' fails on `ipPort[1]` |
| SelectHandleInfo.NonNumericPortFails | src/edu/umass/cs/gnscommon/packets/commandreply/SelectHandleInfo.java:56-59 | a non-numeric port raises NumberFormatException |
| Text.Split | src/edu/umass/cs/gnscommon/packets/commandreply/SelectHandleInfo.java:56 | Java `split` on one character: the whole string when the separator is absent, otherwise the fields with trailing empty ones dropped |
| FieldAccess.DotNotationIffDot | src/edu/umass/cs/gnsserver/gnsapp/clientCommandProcessor/commandSupport/FieldAccess.java:93-95 | dot notation iff the name contains '.' |
| FieldAccess.AllFieldsOrTopLevelIffNoDot | src/edu/umass/cs/gnsserver/gnsapp/clientCommandProcessor/commandSupport/FieldAccess.java:103-105 | "all fields or top level" iff the name has no '.', the marker having none |
| FieldAccess.SignatureAndACLCheckForRead | src/edu/umass/cs/gnsserver/gnsapp/clientCommandProcessor/commandSupport/FieldAccess.java:641-665 | NO_ERROR unless the ACL check ran and failed; a stale timestamp gives STALE_COMMAND_VALUE; an exception gives SIGNATURE_ERROR |
| FieldAccess.AclIgnoredWhenNotChecked | src/edu/umass/cs/gnsserver/gnsapp/clientCommandProcessor/commandSupport/FieldAccess.java:648-653 | without a reader, or without a field or field list, the ACL is never consulted |
| FieldAccess.StaleIffOlderThanThirtyMinutes | src/edu/umass/cs/gnsserver/gnsapp/clientCommandProcessor/commandSupport/FieldAccess.java:641-658 | a command is stale iff it was issued more than 30 minutes before now |
| FieldAccess.RemoveInternalFields | src/edu/umass/cs/gnsserver/gnsapp/clientCommandProcessor/commandSupport/FieldAccess.java:133-135 | the values map without its internal fields |
| FieldAccess.LookupSingleField | src/edu/umass/cs/gnsserver/gnsapp/clientCommandProcessor/commandSupport/FieldAccess.java:121-150 | the corrected lookup: a failed check answers BAD_RESPONSE with the code; a failed DB read answers UNSPECIFIED_ERROR; a null values map answers ""; otherwise the field's string, internal fields hidden from a known reader |
| FieldAccess.LookupSingleFieldAsWritten | src/edu/umass/cs/gnsserver/gnsapp/clientCommandProcessor/commandSupport/FieldAccess.java:121-150 | the code as written: it crashes iff the check passes, the values map is null and the reader is known; otherwise it agrees with the corrected lookup |
| FieldAccess.MissingRecordCrashesSignedRead | src/edu/umass/cs/gnsserver/gnsapp/clientCommandProcessor/commandSupport/FieldAccess.java:133-140 | a signed read of a missing record crashes, while an unsigned read answers "" |
| FieldAccess.LookupOne | src/edu/umass/cs/gnsserver/gnsapp/clientCommandProcessor/commandSupport/FieldAccess.java:277-299 | a failed check answers BAD_RESPONSE with the code; an empty value answers FIELD_NOT_FOUND; otherwise the first element, as decimal text when it is a number |
| FieldAccess.LookupOneNumberRoundTrip | src/edu/umass/cs/gnsserver/gnsapp/clientCommandProcessor/commandSupport/FieldAccess.java:287-298 | a numeric first value is answered as text that parses back to the number |
| FieldAccess.SelectReply | src/edu/umass/cs/gnsserver/gnsapp/clientCommandProcessor/commandSupport/FieldAccess.java:500-569 | the result's text, or "[]" on an exception or null |
| FieldAccess.FailedSelectLooksEmpty | src/edu/umass/cs/gnsserver/gnsapp/clientCommandProcessor/commandSupport/FieldAccess.java:500-569 | a failed select cannot be told apart from one that matched nothing |
| FieldAccess.SelectsAnswerAnArray | src/edu/umass/cs/gnsserver/gnsapp/clientCommandProcessor/commandSupport/FieldAccess.java:500-569 | each select command answers a JSON array, never an error code |
| TcpClient.JoinIsSpacePrefixed | src/edu/umass/cs/gnsclient/client/NewBasicUniversalTcpClient.java:1366-1371 | the code followed by the space-prefixed rest is the tokens joined by spaces |
| TcpClient.Classify | src/edu/umass/cs/gnsclient/client/NewBasicUniversalTcpClient.java:1373-1404 | the first matching error group, in the fixed order, decides the exception; anything else is a general failure |
| TcpClient.ClassifySignatureAndGuidCodes | src/edu/umass/cs/gnsclient/client/NewBasicUniversalTcpClient.java:1373-1379 | codes starting with BAD_SIGNATURE or a guid/account code raise their own exception |
| TcpClient.ClassifyFieldCodes | src/edu/umass/cs/gnsclient/client/NewBasicUniversalTcpClient.java:1380-1385 | the field codes raise their own exception |
| TcpClient.ClassifyUserCodes | src/edu/umass/cs/gnsclient/client/NewBasicUniversalTcpClient.java:1386-1388 | the user codes raise their own exception |
| TcpClient.ClassifyGroupCodes | src/edu/umass/cs/gnsclient/client/NewBasicUniversalTcpClient.java:1389-1391 | the group codes raise their own exception |
| TcpClient.ClassifyAccessAndNameCodes | src/edu/umass/cs/gnsclient/client/NewBasicUniversalTcpClient.java:1393-1399 | ACCESS_DENIED and DUPLICATE_NAME raise their own exception |
| TcpClient.ClassifyVerificationCode | src/edu/umass/cs/gnsclient/client/NewBasicUniversalTcpClient.java:1401-1403 | VERIFICATION_ERROR raises its own exception |
| TcpClient.UnknownCodeIsGeneral | src/edu/umass/cs/gnsclient/client/NewBasicUniversalTcpClient.java:1404 | any other code is a general failure |
| TcpClient.ResponseOutcome | src/edu/umass/cs/gnsclient/client/NewBasicUniversalTcpClient.java:1354-1412 | a bad response with fewer than 2 tokens is "invalid bad response indicator"; otherwise token 1 names the exception, the rest as message; a null response gives null; any other comes back unchanged |
| TcpClient.CheckResponse | src/edu/umass/cs/gnsclient/client/NewBasicUniversalTcpClient.java:1354-1412 | the token loop computes that outcome |
| TcpClient.BareBadResponse | src/edu/umass/cs/gnsclient/client/NewBasicUniversalTcpClient.java:1356-1360 | the bare marker raises "invalid bad response indicator" |
| TcpClient.BadResponseTokens | src/edu/umass/cs/gnsclient/client/NewBasicUniversalTcpClient.java:1357 | the tokens of a well-formed bad response |
| TcpClient.BadResponseRoundTrip | src/edu/umass/cs/gnsclient/client/NewBasicUniversalTcpClient.java:1356-1404 | a bad response of marker, code and words raises the code's exception with the whole message |
| TcpClient.FailedReadReachesClient | src/edu/umass/cs/gnsclient/client/NewBasicUniversalTcpClient.java:1373-1404 | a signature failure reaches the client as EncryptionException; a stale command as a general failure naming the code |
| TcpClient.CreateCommand | src/edu/umass/cs/gnsclient/client/NewBasicUniversalTcpClient.java:1423-1440 | the loop computes the command; a non-string key, a missing value or a null key is an error |
| TcpClient.LastPairFrom | src/edu/umass/cs/gnsclient/client/NewBasicUniversalTcpClient.java:1430-1434 | the last pair for a key, or -1 |
| TcpClient.PutPairsLastWins | src/edu/umass/cs/gnsclient/client/NewBasicUniversalTcpClient.java:1430-1434 | after the loop a key holds the value of its last pair |
| TcpClient.PutPairsFails | src/edu/umass/cs/gnsclient/client/NewBasicUniversalTcpClient.java:1430-1434 | pairs that break the pattern make the command fail |
| TcpClient.CommandContents | src/edu/umass/cs/gnsclient/client/NewBasicUniversalTcpClient.java:1423-1440 | success iff the keys and values alternate with string keys; the action under COMMANDNAME unless a pair overrides it; every key holds the value of its last pair |
| TcpClient.Connectivity | src/edu/umass/cs/gnsclient/client/NewBasicUniversalTcpClient.java:1506-1509 | fine on OK_RESPONSE; otherwise an IOException with token 1 of a two-token response, or the whole response |
| TcpClient.ConnectivityReportsCode | src/edu/umass/cs/gnsclient/client/NewBasicUniversalTcpClient.java:1507-1508 | "BAD_RESPONSE code" is reported as the code alone |
| TcpClient.Client.constructor | src/edu/umass/cs/gnsclient/client/NewBasicUniversalTcpClient.java:105-127 | a 15-second read timeout, empty maps, no errors |
| TcpClient.Client.GenerateNextRequestID | src/edu/umass/cs/gnsclient/client/NewBasicUniversalTcpClient.java:1665-1673 | an int that is not a key of the result map |
| TcpClient.Client.HandleCommandValueReturnPacket | src/edu/umass/cs/gnsclient/client/NewBasicUniversalTcpClient.java:1631-1662 | without a recorded send time it throws and nothing changes; otherwise the result is stored under its id, an asynchronous id is crossed off, and the error count grows iff the packet carries an error |
| TcpClient.Client.CheckConnectivity | src/edu/umass/cs/gnsclient/client/NewBasicUniversalTcpClient.java:1498-1514 | the probe runs under a 7-second timeout, the outcome is as `Connectivity` says, and the original timeout is restored on every way out |
| TcpClient.PendingIdCanBeDrawnAgain | src/edu/umass/cs/gnsclient/client/NewBasicUniversalTcpClient.java:1665-1673 | the id loop accepts the id of a request still waiting for its reply, which the intended generator refuses |
| TcpClient.Client.GenerateNextRequestIDAvoidingPending | src/edu/umass/cs/gnsclient/client/NewBasicUniversalTcpClient.java:1665-1673 | the corrected generator: an int used neither by a stored result nor by a request waiting for its reply |
| TcpClient.Client.SharedIdLosesSecondReply | src/edu/umass/cs/gnsclient/client/NewBasicUniversalTcpClient.java:1636-1644 | two requests sharing an id share one send time: the first reply uses it up and the second throws NullPointerException |
| ListenerAdmin.Responses | src/edu/umass/cs/gnsserver/gnsapp/clientCommandProcessor/ListenerAdmin.java:125-142 | k dump responses for an id |
| ListenerAdmin.Relays | src/edu/umass/cs/gnsserver/gnsapp/clientCommandProcessor/ListenerAdmin.java:125-142 | k relayed responses |
| ListenerAdmin.CountdownEndsWithOneSentinel | src/edu/umass/cs/gnsserver/gnsapp/clientCommandProcessor/ListenerAdmin.java:133-141 | with k responses expected, k responses relay each one, then the entry is removed and exactly one sentinel is handed on, last |
| ListenerAdmin.DumpRound | src/edu/umass/cs/gnsserver/gnsapp/clientCommandProcessor/ListenerAdmin.java:116-141 | a dump request counts the active replicas, and one response from each ends the round with the entry gone and one sentinel |
| ListenerAdmin.CountdownInProgress | src/edu/umass/cs/gnsserver/gnsapp/clientCommandProcessor/ListenerAdmin.java:133-136 | until the last response the count drops by one each time and no sentinel is sent |
| ListenerAdmin.UnknownResponseCrashes | src/edu/umass/cs/gnsserver/gnsapp/clientCommandProcessor/ListenerAdmin.java:133-191 | a response for an id without an entry is relayed and then crashes the listener, the map unchanged |
| ListenerAdmin.OnlyDumpsTouchTheCount | src/edu/umass/cs/gnsserver/gnsapp/clientCommandProcessor/ListenerAdmin.java:144-189 | other packets never touch the map, and only a dump response can crash the listener |
| ListenerAdmin.BadLogLevelIsIgnored | src/edu/umass/cs/gnsserver/gnsapp/clientCommandProcessor/ListenerAdmin.java:159-191 | an unparsable log level is caught: nothing changes and nothing is forwarded |
| ListenerAdmin.Listener.constructor | src/edu/umass/cs/gnsserver/gnsapp/clientCommandProcessor/ListenerAdmin.java:66-72 | an empty map |
| ListenerAdmin.Listener.HandlePacket | src/edu/umass/cs/gnsserver/gnsapp/clientCommandProcessor/ListenerAdmin.java:111-200 | the state and outcome are one step of the listener |
| ListenerAdmin.Listener.Serve | src/edu/umass/cs/gnsserver/gnsapp/clientCommandProcessor/ListenerAdmin.java:78-100 | the accept loop handles packets in order until one crashes it |

## Left out

- Networking is not modelled:
  - sending and receiving, sockets and the JSON framing of `ListenerAdmin`;
  - the client's send/wait and its Android path;
  - PaxosManager's transport and test configuration.

  What is sent, forwarded or submitted is recorded in a sequence instead.
- Concurrency is not modelled. `synchronized` blocks, `wait`/`notify` and executor scheduling become sequential steps, and rescheduling the resend scan is a recorded task.
- Random draws are not modelled:
  - The fresh-id loops become a choice of a key not in the map.
  - The policy's `nextInt` becomes a parameter `draw`.
  - `rand.nextInt` ids are unbounded integers, except in the client, whose ids are Java ints.
- Clocks (`currentTimeMillis`, `new Date()`) are parameters.
- Floating point is not modelled: the `interArrivalTime` moving averages, `getRequestRate` and the client's `movingAvgLatency`.
- The collaborators not shown are abstract parameters:
  - PaxosReplica, PaxosLogger and the failure detector are recorded calls;
  - `isPrimaryPaxosID`, `consistentHashAString` (assumed to give an index in range), `isInternalField`, `queryContainsEvil`, the ACL and signature checks, and the database reads.
- `ProposalStateAtCoordinator` is assumed to be ordered by accept time.
- NSSelectInfo and SelectResponsePacket are values whose fields the select code reads.
- `GNSProtocol`/`GNSCommandProtocol` marker strings and `GNSResponseCode` protocol codes are stand-in constants with the same prefix relations. The proofs use only that the codes are distinct and that the client's prefix tests tell them apart.
- Packet-type codes are stand-ins: `Packet.putPacketType` is represented by a `type` key with one code.
- The `int` request counters of the demand profile (`numRequests`, `numTotalRequests`, `lookupCount`, `updateCount`) wrap around as Java ints do, and so does `logMsgID` of PaxosManager. Java `long` overflow in the select statistics sums is not modelled: those sums are unbounded, and round trips require counts within the range of a long.
- Exception messages other than those the client parses are not modelled, and neither is logging.
- `Level.parse` is given as its outcome.
- Numbers are integers only; `Number.toString` of non-integers is not modelled.
- The Mongo write behind `logMsgID` is left out; only the increment is modelled.
- The ACL filter `aclCheckForRecord` is left out. Its effect on the select-notify cursor is folded into the record stream the loop sees (`CursorItem`), so no rule of its own is stated.
- `SelectNotificationStatus.getCommandType` is a constant and is not modelled.
- `CnsSelect.ReplyFor` takes the full-records reply packet to carry no guid list, so the client receives "[]" for a non-null projection. SelectResponsePacket's `getGuids` is not part of this model.
- The guid order of a JSONArray built from a HashSet is a parameter.
- `DemandProfile.Profile.Combine`: VotesMap is not part of this model. Its votes are a map from key to count, `combine` is taken to add the counts key by key, and the counts do not wrap around.
- BasicPacketWithNSReturnAddress is not part of this model. Its JSON entry is one optional string under a stand-in key, holding the address text; it is written when set and read, when present, before the packet type is checked.
- `CnsSelect.Respond`: `Select.processJSONRecords`, which CNSSelect.java calls at line 176, is not part of this model. It is taken to store the records as `handleSelectResponse` of Select does (`Select.StoreRecords`), and its JSONException, caught at lines 177-182, keeps the records stored before it.
- `CnsSelect.Coordinator.HandleSelectRequestFromClient`: a JSONException or IOException during sending is not modelled, and a null query is stored as "".
- `Select.SelectState.ProcessSelectNotify`: the source uses -1 as "no handle yet", so a first drawn handle of -1 would be drawn again at the next batch. The contract is stated only for runs whose first handle is not -1.
- `Select.SelectState.SendBatch`: the same gap; nothing is stated for a batch sent when the handle drawn first is -1.
- `NodePartitioning.CreatePartitions` requires a positive partition count when there are replicas. With none, line 62 of NodePartitioning.java divides by zero.
- `NodePartitioning.CreatePartitions` requires IPv4-literal hosts, for which `getHostAddress` prints the host itself. `SelectHandleInfo.RoundTrip` requires the same, because the ':' split is not claimed for IPv6.
- The commands that only forward to code not shown, the abstract select classes and the unimplemented Paxos paths are not part of this model.

## Findings

| source | as written | input that shows it | evidently intended | confidence | as-written member | corrected member |
|---|---|---|---|---|---|---|
| src/edu/umass/cs/gnsserver/gnsapp/clientCommandProcessor/commandSupport/FieldAccess.java:133-140 | a known reader's values map is stripped of internal fields before it is checked for null | a signed read (reader not null) of a guid whose record is missing, with the check passing: `removeInternalFields` runs on null | a missing record answers "" for every reader, as the `valuesMap != null` test shows | not executed | FieldAccess.LookupSingleFieldAsWritten | FieldAccess.LookupSingleField |
| src/edu/umass/cs/gnsclient/client/NewBasicUniversalTcpClient.java:1665-1673 | the id loop redraws only ids that already have a stored result | a request sent with id p and not yet answered (p has a send time but no result) and a next draw that returns p: the new request gets p too, and the second reply for p throws NullPointerException | an id no outstanding request uses, as the comment at lines 1669-1670 admits | not executed | TcpClient.PendingIdCanBeDrawnAgain | TcpClient.Client.GenerateNextRequestIDAvoidingPending |
