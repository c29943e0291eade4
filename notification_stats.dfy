/**
 * NotificationStatsToIssuer: the three counts a name server reports to
 * the issuer of a select-notify request, and their JSON form.
 */
module NotificationStats {
  import opened Wrappers
  import Text
  import opened Json

  const TOTAL_NOTIFICATIONS := "TOTAL_NOTIFICATIONS"
  const FAILED_NOTIFICATIONS := "FAILED_NOTIFICATIONS"
  const PENDING_NOTIFICATIONS := "PENDING_NOTIFICATIONS"

  /** The immutable counts; the getters are the field selectors. */
  datatype StatsToIssuer = StatsToIssuer(totalNotifications: int, failedNotifications: int, pendingNotifications: int)

  /** Every count fits a Java `long`. */
  predicate InLongRange(s: StatsToIssuer)
  {
    Text.LONG_MIN <= s.totalNotifications <= Text.LONG_MAX &&
    Text.LONG_MIN <= s.failedNotifications <= Text.LONG_MAX &&
    Text.LONG_MIN <= s.pendingNotifications <= Text.LONG_MAX
  }

  /** `toJSONObject`: the three counts under their three keys and nothing else. */
  function ToJson(s: StatsToIssuer): (r: Object)
    ensures r.Keys == {TOTAL_NOTIFICATIONS, FAILED_NOTIFICATIONS, PENDING_NOTIFICATIONS}
    ensures forall k :: k in r ==> r[k].JNum?
  {
    map[TOTAL_NOTIFICATIONS := JNum(s.totalNotifications),
        FAILED_NOTIFICATIONS := JNum(s.failedNotifications),
        PENDING_NOTIFICATIONS := JNum(s.pendingNotifications)]
  }

  /** `fromJSON`: `getLong` of each key in turn; the first one that throws decides the error. */
  function FromJson(o: Object): (r: Result<StatsToIssuer, JsonError>)
    ensures r.Ok? ==> InLongRange(r.value)
    ensures TOTAL_NOTIFICATIONS !in o || FAILED_NOTIFICATIONS !in o || PENDING_NOTIFICATIONS !in o ==> r.Err?
  {
    match GetLong(o, TOTAL_NOTIFICATIONS)
    case Err(e) => Err(e)
    case Ok(total) =>
      match GetLong(o, FAILED_NOTIFICATIONS)
      case Err(e) => Err(e)
      case Ok(failed) =>
        match GetLong(o, PENDING_NOTIFICATIONS)
        case Err(e) => Err(e)
        case Ok(pending) => Ok(StatsToIssuer(total, failed, pending))
  }

  /** Counts that fit a long survive serialising and parsing back. */
  lemma RoundTrip(s: StatsToIssuer)
    requires InLongRange(s)
    ensures FromJson(ToJson(s)) == Ok(s)
  {
  }
}
