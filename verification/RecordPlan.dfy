/** The record plan table: three plans, each a set of week days and a time of day. */
module RecordPlan {
  const SECONDS_PER_DAY := 86400
  const DAY_PER_WEEK := 7
  const MAX_RECORD_PLAN_NUM := 3

  /** A flag for each day, Sunday being 0. */
  type Week = w: seq<int> | |w| == DAY_PER_WEEK witness [0, 0, 0, 0, 0, 0, 0]

  const NO_DAYS: Week := [0, 0, 0, 0, 0, 0, 0]

  /** `struct record_plan_config`; times are seconds of the day. */
  datatype PlanEntry = PlanEntry(active: int, week: Week, startTime: int, endTime: int)

  /** The plans of a configuration whose times are not negative. */
  type Table = t: seq<PlanEntry> |
      |t| == MAX_RECORD_PLAN_NUM && forall i | 0 <= i < |t| :: t[i].startTime >= 0 && t[i].endTime >= 0
    witness var p := PlanEntry(0, NO_DAYS, 0, 0); [p, p, p]
}
