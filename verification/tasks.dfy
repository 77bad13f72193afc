/**
 * The task record the scheduler reads, its configuration, and the small
 * accessors over a task: estimated, remaining and elapsed time, due date.
 */
module Tasks {
  import opened Optional
  import opened Time

  /** A recurrence descriptor; its presence is what marks a task as recurring. */
  datatype Recurrence = Recurrence(repeatEvery: int, repeatEveryUnit: string)

  /**
   * A task as the host supplies it. Absent or null fields are `None`;
   * timestamps and durations are integer milliseconds.
   */
  datatype Task = Task(
    id: string,
    title: string,
    timeEstimate: Option<int>,
    timeSpent: Option<int>,
    tagIds: seq<string>,
    projectId: Option<string>,
    parentId: Option<string>,
    created: Option<int>,
    isDone: bool,
    notes: Option<string>,
    dueWithTime: Option<int>,
    dueDate: Option<int>,
    repeatCfg: Option<Recurrence>)

  /** Per-run options. */
  datatype Config = Config(
    blockSizeMinutes: int,
    splitSuffix: bool,
    splitPrefix: string,
    calendarDetectionWindowMinutes: int)

  /** Block length used whenever a non-positive block size is requested. */
  const DefaultBlockSizeMinutes: int := 120

  const DefaultConfig: Config := Config(DefaultBlockSizeMinutes, true, "", 5)

  /** Effort still to do, in milliseconds: the estimate minus time spent, floored at 0. */
  function RemainingMs(t: Task): (ms: nat)
    ensures t.timeEstimate.None? ==> ms == 0
    ensures t.timeEstimate.Some? ==> ms as int >= t.timeEstimate.value - t.timeSpent.GetOr(0)
    ensures ms > 0 ==> t.timeEstimate.Some? && ms == t.timeEstimate.value - t.timeSpent.GetOr(0)
  {
    match t.timeEstimate
    case None => 0
    case Some(e) =>
      var d := e - t.timeSpent.GetOr(0);
      if d > 0 then d else 0
  }

  /** `getEstimatedHours`: the estimate in hours; 0 when absent, null, zero or negative. */
  function GetEstimatedHours(t: Task): (h: real)
    ensures h >= 0.0
    ensures h == 0.0 <==> t.timeEstimate.None? || t.timeEstimate.value <= 0
    ensures h > 0.0 ==> h * MsPerHour as real == t.timeEstimate.value as real
  {
    match t.timeEstimate
    case None => 0.0
    case Some(e) => if e > 0 then e as real / MsPerHour as real else 0.0
  }

  /** `getRemainingHours`: estimate minus spent (spent defaulting to 0), in hours, floored at 0. */
  function GetRemainingHours(t: Task): (h: real)
    ensures h >= 0.0
    ensures h == 0.0 <==> t.timeEstimate.None? || t.timeEstimate.value <= t.timeSpent.GetOr(0)
    ensures h * MsPerHour as real == RemainingMs(t) as real
  {
    RemainingMs(t) as real / MsPerHour as real
  }

  /** What is left never exceeds the estimate, and with no time spent it is the estimate. */
  lemma RemainingWithinEstimate(t: Task)
    requires t.timeSpent.GetOr(0) >= 0
    ensures GetRemainingHours(t) <= GetEstimatedHours(t)
    ensures t.timeSpent.GetOr(0) == 0 ==> GetRemainingHours(t) == GetEstimatedHours(t)
  {
  }

  /** Remaining plus spent gives back the estimate while the task is not overrun. */
  lemma RemainingPlusSpent(t: Task)
    requires t.timeEstimate.Some? && 0 <= t.timeSpent.GetOr(0) <= t.timeEstimate.value
    ensures GetRemainingHours(t) + t.timeSpent.GetOr(0) as real / MsPerHour as real
            == GetEstimatedHours(t)
  {
  }

  /** `getTaskAgeInDays(task, now)`: days since creation, 0 when `created` is absent. */
  function GetTaskAgeInDays(t: Task, now: int): (d: real)
    ensures d >= 0.0
    ensures t.created.None? ==> d == 0.0
    ensures t.created.Some? ==> d == DaysBetween(t.created.value, now)
    ensures t.created.Some? && t.created.value <= now ==> d * MsPerDay as real == (now - t.created.value) as real
  {
    match t.created
    case None => 0.0
    case Some(c) => DaysBetween(c, now)
  }

  /** `getTaskDueDate`: `dueWithTime` when set, else `dueDate` when set, else none. */
  function GetTaskDueDate(t: Task): (d: Option<int>)
    ensures d.Some? <==> t.dueWithTime.Some? || t.dueDate.Some?
    ensures d.Some? ==> d == t.dueWithTime || d == t.dueDate
    ensures t.dueWithTime.Some? ==> d == t.dueWithTime
  {
    if t.dueWithTime.Some? then t.dueWithTime else t.dueDate
  }
}
