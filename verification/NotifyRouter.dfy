/** The decision functions of src/alerts/notify_router.hpp. Times are ticks of a steady clock. */
module NotifyRouter {
  import opened Decimal

  const TICKS_PER_SECOND := 1_000_000_000

  /** The fields that routing, silencing and digests look at. */
  datatype AlertEvent = AlertEvent(
    ruleId: string, severity: string, eventType: string, filePath: string, exe: string, pid: int,
    timestamp: string, occurrences: int, firstSeen: string, lastSeen: string)

  /** Unknown severities rank as medium. */
  function SeverityRank(s: string): (r: nat)
    ensures r <= 3
  {
    if s == "critical" then 3 else if s == "high" then 2 else if s == "low" then 0 else 1
  }

  predicate SeverityIsValid(s: string) {
    s == "critical" || s == "high" || s == "medium" || s == "low"
  }

  /** An empty or invalid minimum reads as high. */
  predicate ShouldRouteByLevel(severity: string, minLevel: string) {
    SeverityRank(severity) >= SeverityRank(if SeverityIsValid(minLevel) then minLevel else "high")
  }

  function SilenceObjectKey(e: AlertEvent): string {
    if "process." <= e.eventType then "proc:" + e.exe + ":" + IntText(e.pid)
    else if e.filePath != "" then "file:" + e.filePath
    else if e.exe != "" then "proc:" + e.exe + ":" + IntText(e.pid)
    else "-"
  }

  /** The key of both the silence and the aggregation map. */
  function AlertKey(e: AlertEvent): string {
    e.ruleId + "|" + SilenceObjectKey(e)
  }

  predicate SilenceWindowActive(lastSent: int, now: int, windowSeconds: int) {
    windowSeconds > 0 && now - lastSent < windowSeconds * TICKS_PER_SECOND
  }

  datatype AggAction = OpenAndSend | Merge | FlushAndSend

  function AggregationAction(windowExists: bool, winStart: int, now: int, windowSeconds: int): AggAction {
    if !windowExists then OpenAndSend
    else if SilenceWindowActive(winStart, now, windowSeconds) then Merge
    else FlushAndSend
  }
}
