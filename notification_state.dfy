/**
 * The tables that track select-notify requests. A name server keeps, per
 * local handle, the list of sending statistics of the batches it has sent
 * (NameServerSelectNotificationState); the entry-point name server keeps,
 * per handle, the set of name servers the request was forwarded to
 * (EntryPointSelectNotificationState). Handles are fresh random keys.
 */
module NotificationState {
  import opened Wrappers
  import opened Fresh
  import opened NodePartitioning

  /**
   * What sending one batch of notifications reports. NotificationSendingStats
   * is not part of this model; these are the three quantities the select
   * code reads from it.
   */
  datatype SendingStats = SendingStats(totalNotifications: int, guidsFailed: seq<string>, numberPending: int)

  class NameServerState {
    /** Local handle to the statistics of the batches sent under it, oldest first. */
    var notificationInfo: map<int, seq<SendingStats>>

    constructor ()
      ensures notificationInfo == map[]
    {
      notificationInfo := map[];
    }

    /**
     * `addNotificationStats`: appends to the handle's list. On a handle
     * that is not registered `get` returns null and the call throws
     * NullPointerException (`failed`), changing nothing.
     */
    method AddNotificationStats(localHandle: int, stats: SendingStats) returns (failed: bool)
      modifies this
      ensures failed <==> localHandle !in old(notificationInfo)
      ensures failed ==> notificationInfo == old(notificationInfo)
      ensures !failed ==> notificationInfo == old(notificationInfo)[localHandle := old(notificationInfo)[localHandle] + [stats]]
    {
      if localHandle !in notificationInfo {
        return true;
      }
      notificationInfo := notificationInfo[localHandle := notificationInfo[localHandle] + [stats]];
      return false;
    }

    /** `lookupNotificationStats`: the handle's current list, or null when it is not registered. */
    function LookupNotificationStats(localHandle: int): (r: Option<seq<SendingStats>>)
      reads this
      ensures r.None? <==> localHandle !in notificationInfo
      ensures r.Some? ==> r.value == notificationInfo[localHandle]
    {
      if localHandle in notificationInfo then Some(notificationInfo[localHandle]) else None
    }

    /** `removeNotificationInfo`: deletes the handle and returns its list, or null when it was absent. */
    method RemoveNotificationInfo(localHandle: int) returns (r: Option<seq<SendingStats>>)
      modifies this
      ensures r == old(LookupNotificationStats(localHandle))
      ensures notificationInfo == old(notificationInfo) - {localHandle}
    {
      r := LookupNotificationStats(localHandle);
      notificationInfo := notificationInfo - {localHandle};
    }

    /** `getUniqueIDAndInit`: a handle that was not registered, now mapped to an empty list. */
    method GetUniqueIDAndInit() returns (reqId: int)
      modifies this
      ensures reqId !in old(notificationInfo)
      ensures notificationInfo == old(notificationInfo)[reqId := []]
    {
      assert Bound(notificationInfo.Keys) !in notificationInfo;
      reqId :| reqId !in notificationInfo;
      notificationInfo := notificationInfo[reqId := []];
    }
  }

  class EntryPointState {
    /** Handle to the name servers a select-notify request was forwarded to. */
    var entryPointStateMap: map<int, set<Address>>

    constructor ()
      ensures entryPointStateMap == map[]
    {
      entryPointStateMap := map[];
    }

    /** `addNotificationState`: stores the servers under a handle that was not in use; the table grows by one entry. */
    method AddNotificationState(forwardedServers: set<Address>) returns (currHandle: int)
      modifies this
      ensures currHandle !in old(entryPointStateMap)
      ensures entryPointStateMap == old(entryPointStateMap)[currHandle := forwardedServers]
      ensures |entryPointStateMap| == |old(entryPointStateMap)| + 1
    {
      assert Bound(entryPointStateMap.Keys) !in entryPointStateMap;
      currHandle :| currHandle !in entryPointStateMap;
      entryPointStateMap := entryPointStateMap[currHandle := forwardedServers];
      assert entryPointStateMap.Keys == old(entryPointStateMap).Keys + {currHandle};
    }

    /** `removeNotificationState`: not implemented; reports failure and changes nothing. */
    method RemoveNotificationState() returns (removed: bool)
      ensures !removed
    {
      return false;
    }
  }
}
