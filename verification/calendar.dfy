/**
 * `looksLikeCalendarImport(task, config, now)`: the heuristic that tells an
 * event synced from an external calendar apart from a planned task.
 */
module CalendarImport {
  import opened Optional
  import opened Time
  import opened Tasks

  /** No effort estimate attached: the estimate is absent or zero. */
  predicate HasNoEstimate(t: Task) {
    t.timeEstimate.None? || t.timeEstimate.value == 0
  }

  /**
   * The task was created at most `windowMinutes` minutes before `now`
   * (boundary included); a task without a creation time is never recent.
   */
  predicate CreatedWithin(t: Task, now: int, windowMinutes: int) {
    match t.created
    case None => false
    case Some(c) => (now - c) as real / MsPerMinute as real <= windowMinutes as real
  }

  /**
   * A task with a due date is an import when it recurs, or when it was
   * created within the detection window and carries no estimate.
   */
  function LooksLikeCalendarImport(t: Task, config: Config, now: int): (b: bool)
    ensures GetTaskDueDate(t).None? ==> !b
    ensures t.repeatCfg.Some? ==> (b <==> GetTaskDueDate(t).Some?)
    ensures t.repeatCfg.None? ==>
      (b <==> GetTaskDueDate(t).Some? && HasNoEstimate(t) && t.created.Some?
              && now - t.created.value <= config.calendarDetectionWindowMinutes * MsPerMinute)
  {
    if GetTaskDueDate(t).None? then false
    else if t.repeatCfg.Some? then true
    else CreatedWithin(t, now, config.calendarDetectionWindowMinutes) && HasNoEstimate(t)
  }

  /** A recurring task with a due date is an import whatever its estimate and age. */
  lemma RecurringScheduledIsImport(t: Task, config: Config, now: int)
    requires t.repeatCfg.Some? && t.dueWithTime.Some?
    ensures LooksLikeCalendarImport(t, config, now)
  {
  }

  /** Widening the detection window never turns an import into a non-import. */
  lemma WindowMonotone(t: Task, config: Config, now: int, wider: int)
    requires config.calendarDetectionWindowMinutes <= wider
    requires LooksLikeCalendarImport(t, config, now)
    ensures LooksLikeCalendarImport(t, config.(calendarDetectionWindowMinutes := wider), now)
  {
  }

  /**
   * The window is inclusive: created exactly `window` minutes ago counts,
   * one millisecond earlier does not.
   */
  lemma WindowBoundary(t: Task, config: Config, now: int)
    requires t.repeatCfg.None? && t.dueWithTime.Some? && t.timeEstimate == Some(0)
    ensures var w := config.calendarDetectionWindowMinutes * MsPerMinute;
      && LooksLikeCalendarImport(t.(created := Some(now - w)), config, now)
      && !LooksLikeCalendarImport(t.(created := Some(now - w - 1)), config, now)
  {
  }
}
