/** pingback/services/plans.py with the caps of pingback/config.py. */
module Plans {

  function HistoryDays(plan: string): int {
    if plan == "pro" then 90
    else if plan == "business" then 365
    else 7
  }

  /** Fastest check interval a plan may ask for, in seconds. */
  function MinInterval(plan: string): int {
    if plan == "pro" then 60
    else if plan == "business" then 30
    else 300
  }

  /** `ensure_interval_allowed` */
  predicate IntervalAllowed(plan: string, intervalSeconds: int) {
    intervalSeconds >= MinInterval(plan)
  }
}
