/**
 * The task splitter: turns a task's remaining effort into consecutive
 * bounded blocks linked by index, and partitions a batch of tasks into
 * split blocks, skipped parents and already-processed tasks.
 */
module Splitter {
  import opened Optional
  import opened Time
  import opened Tasks
  import Roman

  /** One schedulable block of a task. */
  datatype Split = Split(
    originalTaskId: string,
    title: string,
    estimatedHours: real,
    splitIndex: nat,
    totalSplits: nat,
    prevSplitIndex: Option<nat>,
    nextSplitIndex: Option<nat>,
    tagIds: seq<string>,
    projectId: Option<string>,
    parentId: Option<string>)

  /** The result of classifying a batch. */
  datatype Outcome = Outcome(splits: seq<Split>, skippedParents: seq<Task>, alreadyProcessed: seq<Task>)

  // ---------------------------------------------------------------------------
  // Splitting one task

  /** The block length actually used: non-positive requests fall back to the default. */
  function EffectiveBlockMinutes(blockSizeMinutes: int): (m: int)
    ensures m > 0
    ensures blockSizeMinutes > 0 ==> m == blockSizeMinutes
    ensures blockSizeMinutes <= 0 ==> m == DefaultBlockSizeMinutes
  {
    if blockSizeMinutes > 0 then blockSizeMinutes else DefaultBlockSizeMinutes
  }

  function BlockHours(blockSizeMinutes: int): real {
    EffectiveBlockMinutes(blockSizeMinutes) as real / 60.0
  }

  function BlockMs(blockSizeMinutes: int): int {
    EffectiveBlockMinutes(blockSizeMinutes) * MsPerMinute
  }

  /** Number of blocks needed to cover `remainingMs`: the ceiling of the quotient. */
  function SplitCount(remainingMs: nat, blockMs: int): (n: nat)
    requires blockMs > 0
    ensures n == 0 <==> remainingMs == 0
    ensures n > 0 ==> (n - 1) * blockMs < remainingMs <= n * blockMs
  {
    var n := (remainingMs + blockMs - 1) / blockMs;
    assert n * blockMs <= remainingMs + blockMs - 1 < (n + 1) * blockMs;
    n
  }

  /** `n` blocks of length `unit` are needed to cover `total`, and one fewer would not do. */
  predicate IsCeiling(n: nat, total: real, unit: real) {
    n > 0 ==> (n - 1) as real * unit < total <= n as real * unit
  }

  /** Length of block `i`: a full block, or what is left for the last one. */
  function BlockLengthMs(remainingMs: nat, blockMs: int, i: nat): int {
    var left := remainingMs - i * blockMs;
    if left < blockMs then left else blockMs
  }

  /** Title of block `i`: prefix, base title and, when enabled, the ordinal suffix. */
  function SplitTitle(config: Config, title: string, i: nat): string {
    config.splitPrefix + title + OrdinalSuffix(config, i)
  }

  /** ` <Roman>` for the 1-based ordinal of block `i`, or nothing when suffixes are off. */
  function OrdinalSuffix(config: Config, i: nat): string {
    if config.splitSuffix then " <" + Roman.ToRoman(i + 1) + ">" else ""
  }

  /** Blocks are numbered 0..n-1 and each points at its neighbours, with none past either end. */
  predicate Linked(r: seq<Split>) {
    forall i :: 0 <= i < |r| ==>
      && r[i].splitIndex == i
      && r[i].totalSplits == |r|
      && r[i].prevSplitIndex == (if i == 0 then None else Some(i - 1))
      && r[i].nextSplitIndex == (if i == |r| - 1 then None else Some(i + 1))
  }

  /** A block carries its source task's identity and metadata unchanged. */
  predicate CarriesMetadata(s: Split, t: Task) {
    && s.originalTaskId == t.id
    && s.tagIds == t.tagIds
    && s.projectId == t.projectId
    && s.parentId == t.parentId
  }

  /** `splitTask(task, blockSizeMinutes, config)`. */
  function SplitTask(t: Task, blockSizeMinutes: int, config: Config): (r: seq<Split>)
    ensures |r| == SplitCount(RemainingMs(t), BlockMs(blockSizeMinutes))
    ensures |r| == 0 <==> GetRemainingHours(t) == 0.0
    ensures IsCeiling(|r|, GetRemainingHours(t), BlockHours(blockSizeMinutes))
    ensures Linked(r)
    ensures forall i :: 0 <= i < |r| ==> CarriesMetadata(r[i], t)
    ensures forall i :: 0 <= i < |r| ==> r[i].title == SplitTitle(config, t.title, i)
    ensures forall i :: 0 <= i < |r| - 1 ==> r[i].estimatedHours == BlockHours(blockSizeMinutes)
    ensures |r| > 0 ==> 0.0 < r[|r| - 1].estimatedHours <= BlockHours(blockSizeMinutes)
  {
    var rem := RemainingMs(t);
    var block := BlockMs(blockSizeMinutes);
    var n := SplitCount(rem, block);
    CountInHours(t, blockSizeMinutes);
    BlockHoursFacts(rem, block, n, blockSizeMinutes);
    Blocks(t, config, rem, block, n)
  }

  /** The `n` blocks of a task, block `i` lasting `BlockLengthMs(rem, block, i)`. */
  function Blocks(t: Task, config: Config, rem: nat, block: int, n: nat): (r: seq<Split>)
    ensures |r| == n
    ensures Linked(r)
    ensures forall i :: 0 <= i < n ==>
      && CarriesMetadata(r[i], t)
      && r[i].title == SplitTitle(config, t.title, i)
      && r[i].estimatedHours == BlockLengthMs(rem, block, i) as real / MsPerHour as real
  {
    seq(n, i requires 0 <= i < n =>
      Split(
        t.id,
        SplitTitle(config, t.title, i),
        BlockLengthMs(rem, block, i) as real / MsPerHour as real,
        i,
        n,
        if i == 0 then None else Some(i - 1),
        if i == n - 1 then None else Some(i + 1),
        t.tagIds,
        t.projectId,
        t.parentId))
  }

  /** The block count is the ceiling of remaining hours over block hours. */
  lemma CountInHours(t: Task, blockSizeMinutes: int)
    ensures var n := SplitCount(RemainingMs(t), BlockMs(blockSizeMinutes));
      && (n == 0 <==> GetRemainingHours(t) == 0.0)
      && IsCeiling(n, GetRemainingHours(t), BlockHours(blockSizeMinutes))
  {
    var rem, block := RemainingMs(t), BlockMs(blockSizeMinutes);
    var n := SplitCount(rem, block);
    HoursOfCount(rem, block, n, blockSizeMinutes);
    assert GetRemainingHours(t) == rem as real / MsPerHour as real;
  }

  lemma HoursOfCount(rem: nat, block: int, n: nat, blockSizeMinutes: int)
    requires block == BlockMs(blockSizeMinutes)
    requires n > 0 ==> (n - 1) * block < rem <= n * block
    ensures n > 0 ==>
      (n - 1) as real * BlockHours(blockSizeMinutes) < rem as real / MsPerHour as real
      <= n as real * BlockHours(blockSizeMinutes)
  {
    var m := EffectiveBlockMinutes(blockSizeMinutes);
    if n > 0 {
      assert ((n - 1) * block) as real == (n - 1) as real * m as real * 60000.0;
      assert (n * block) as real == n as real * m as real * 60000.0;
    }
  }

  lemma BlockHoursFacts(rem: nat, block: int, n: nat, blockSizeMinutes: int)
    requires block == BlockMs(blockSizeMinutes)
    requires n > 0 ==> (n - 1) * block < rem <= n * block
    ensures forall i :: 0 <= i < n - 1 ==>
      BlockLengthMs(rem, block, i) as real / MsPerHour as real == BlockHours(blockSizeMinutes)
    ensures n > 0 ==>
      0.0 < BlockLengthMs(rem, block, n - 1) as real / MsPerHour as real <= BlockHours(blockSizeMinutes)
  {
    var m := EffectiveBlockMinutes(blockSizeMinutes);
    forall i | 0 <= i < n - 1
      ensures BlockLengthMs(rem, block, i) as real / MsPerHour as real == BlockHours(blockSizeMinutes)
    {
      assert i * block + block <= (n - 1) * block by {
        assert i + 1 <= n - 1;
        MulMonotone(i + 1, n - 1, block);
      }
      assert BlockLengthMs(rem, block, i) == block;
    }
    if n > 0 {
      var last := BlockLengthMs(rem, block, n - 1);
      assert 0 < last <= block;
    }
  }

  /**
   * Multiplying by a non-negative factor keeps order. Kept apart so that the
   * block lemmas see one instance instead of the general product axioms.
   */
  lemma MulMonotone(a: int, b: int, c: int)
    requires a <= b && c >= 0
    ensures a * c <= b * c
  {
  }

  /** Sum of the hours of a sequence of blocks. */
  function TotalHours(r: seq<Split>): real
    decreases |r|
  {
    if |r| == 0 then 0.0 else TotalHours(r[..|r| - 1]) + r[|r| - 1].estimatedHours
  }

  /** The blocks of a task add up to exactly its remaining effort. */
  lemma SplitHoursSum(t: Task, blockSizeMinutes: int, config: Config)
    ensures TotalHours(SplitTask(t, blockSizeMinutes, config)) == GetRemainingHours(t)
  {
    var rem, block := RemainingMs(t), BlockMs(blockSizeMinutes);
    var n := SplitCount(rem, block);
    assert SplitTask(t, blockSizeMinutes, config) == Blocks(t, config, rem, block, n);
    BlocksTotal(t, config, rem, block, n);
  }

  lemma BlocksTotal(t: Task, config: Config, rem: nat, block: int, n: nat)
    requires block > 0 && n == SplitCount(rem, block)
    ensures TotalHours(Blocks(t, config, rem, block, n)) == rem as real / MsPerHour as real
  {
    var r := Blocks(t, config, rem, block, n);
    if n > 0 {
      FullBlocksAreFull(t, config, rem, block, n);
      FullBlocksSum(r, n - 1, block);
      var x := (n - 1) * block;
      assert TotalHours(r) == TotalHours(r[..n - 1]) + r[n - 1].estimatedHours by {
        assert r[..n] == r;
      }
      assert r[n - 1].estimatedHours == (rem - x) as real / MsPerHour as real;
    }
  }

  lemma FullBlocksAreFull(t: Task, config: Config, rem: nat, block: int, n: nat)
    requires block > 0 && n == SplitCount(rem, block)
    ensures forall i :: 0 <= i < n - 1 ==>
      Blocks(t, config, rem, block, n)[i].estimatedHours == block as real / MsPerHour as real
  {
    forall i | 0 <= i < n - 1
      ensures BlockLengthMs(rem, block, i) == block
    {
      MulMonotone(i + 1, n - 1, block);
    }
  }

  lemma {:induction false} FullBlocksSum(r: seq<Split>, k: nat, block: int)
    requires k <= |r|
    requires forall i :: 0 <= i < k ==> r[i].estimatedHours == block as real / MsPerHour as real
    ensures TotalHours(r[..k]) == (k * block) as real / MsPerHour as real
    decreases k
  {
    if k > 0 {
      FullBlocksSum(r, k - 1, block);
      assert r[..k][..k - 1] == r[..k - 1];
      assert k * block == (k - 1) * block + block;
    }
  }

  /** Every block can be reached from its neighbour and back. */
  lemma LinksAreInverse(r: seq<Split>, i: nat)
    requires Linked(r) && i < |r|
    ensures r[i].nextSplitIndex.Some? ==>
      r[i].nextSplitIndex.value < |r| && r[r[i].nextSplitIndex.value].prevSplitIndex == Some(i)
    ensures r[i].prevSplitIndex.Some? ==>
      r[i].prevSplitIndex.value < |r| && r[r[i].prevSplitIndex.value].nextSplitIndex == Some(i)
    ensures r[i].prevSplitIndex.None? <==> i == 0
    ensures r[i].nextSplitIndex.None? <==> i == |r| - 1
  {
    if i + 1 < |r| {
      assert r[i + 1].prevSplitIndex == Some(i);
    }
    if i > 0 {
      assert r[i - 1].nextSplitIndex == Some(i);
    }
  }

  /** With the ordinal suffix on, the blocks of one task have pairwise distinct titles. */
  lemma SuffixedTitlesDistinct(config: Config, title: string, i: nat, j: nat)
    requires config.splitSuffix
    requires i < j < 3999
    ensures SplitTitle(config, title, i) != SplitTitle(config, title, j)
  {
    var a, b := Roman.ToRoman(i + 1), Roman.ToRoman(j + 1);
    Roman.ToRomanInjective(i + 1, j + 1);
    if OrdinalSuffix(config, i) == OrdinalSuffix(config, j) {
      CancelAround(" <", a, b, ">");
    }
    if SplitTitle(config, title, i) == SplitTitle(config, title, j) {
      CancelAround(config.splitPrefix + title, OrdinalSuffix(config, i), OrdinalSuffix(config, j), "");
    }
  }

  /** Equal strings with the same text around the middle have equal middles. */
  lemma CancelAround(p: string, a: string, b: string, q: string)
    requires p + a + q == p + b + q
    ensures a == b
  {
    var s, t := p + a + q, p + b + q;
    assert |a| == |b|;
    assert s[|p|..|p| + |a|] == a;
    assert t[|p|..|p| + |b|] == b;
  }

  /** Without the suffix every block is titled with prefix and base title alone. */
  lemma UnsuffixedTitle(config: Config, title: string, i: nat)
    requires !config.splitSuffix
    ensures SplitTitle(config, title, i) == config.splitPrefix + title
  {
  }

  // ---------------------------------------------------------------------------
  // Already-processed marker

  /** The marker a previous scheduling pass writes into a task's notes. */
  const Marker: string := "[AutoPlan]"

  ghost predicate OccursAt(s: string, m: string, k: int) {
    0 <= k && k + |m| <= |s| && s[k..k + |m|] == m
  }

  /** Substring search starting at position `j`. */
  function ContainsFrom(s: string, m: string, j: nat): (b: bool)
    requires j <= |s|
    ensures b <==> exists k :: j <= k && OccursAt(s, m, k)
    decreases |s| - j
  {
    if j + |m| > |s| then false
    else if s[j..j + |m|] == m then
      assert OccursAt(s, m, j);
      true
    else ContainsFrom(s, m, j + 1)
  }

  /** `isAlreadyProcessed(task)`: the notes are present and contain the marker. */
  function IsAlreadyProcessed(t: Task): (b: bool)
    ensures b <==> t.notes.Some? && exists k :: OccursAt(t.notes.value, Marker, k)
  {
    match t.notes
    case None => false
    case Some(n) => ContainsFrom(n, Marker, 0)
  }

  /** Notes that carry the marker anywhere are recognised. */
  lemma MarkedNotesDetected(t: Task, before: string, after: string)
    ensures IsAlreadyProcessed(t.(notes := Some(before + Marker + after)))
  {
    var n := before + Marker + after;
    assert n[|before|..|before| + |Marker|] == Marker;
    assert OccursAt(n, Marker, |before|);
  }

  /** Notes without the marker's opening bracket cannot carry the marker. */
  lemma NoBracketNotProcessed(t: Task)
    requires t.notes.Some? && forall i :: 0 <= i < |t.notes.value| ==> t.notes.value[i] != '['
    ensures !IsAlreadyProcessed(t)
  {
    var n := t.notes.value;
    forall k
      ensures !OccursAt(n, Marker, k)
    {
      if 0 <= k && k + |Marker| <= |n| {
        assert n[k..k + |Marker|][0] == n[k];
      }
    }
  }

  // ---------------------------------------------------------------------------
  // Classifying a batch

  /** Which output a task goes to. Earlier alternatives take precedence. */
  datatype Category = SkippedParent | AlreadyProcessed | Dropped | Splittable

  /** Ids referenced as `parentId` by some task of the batch. */
  function ParentIds(tasks: seq<Task>): (p: set<string>)
    ensures forall id :: id in p <==> exists x :: x in tasks && x.parentId == Some(id)
  {
    set x | x in tasks && x.parentId.Some? :: x.parentId.value
  }

  ghost predicate IsParentIn(t: Task, tasks: seq<Task>) {
    exists x :: x in tasks && x.parentId == Some(t.id)
  }

  /** The estimate is present and non-zero. */
  predicate HasEstimate(t: Task) {
    t.timeEstimate.Some? && t.timeEstimate.value != 0
  }

  function Classify(t: Task, parents: set<string>): Category {
    if t.id in parents then SkippedParent
    else if IsAlreadyProcessed(t) then AlreadyProcessed
    else if t.isDone || !HasEstimate(t) then Dropped
    else Splittable
  }

  /** Walks the batch in order, routing each task by its category. */
  function Partition(tasks: seq<Task>, parents: set<string>, blockSizeMinutes: int, config: Config): Outcome
    decreases |tasks|
  {
    if |tasks| == 0 then Outcome([], [], [])
    else
      var x := tasks[0];
      var rest := Partition(tasks[1..], parents, blockSizeMinutes, config);
      match Classify(x, parents)
      case SkippedParent => rest.(skippedParents := [x] + rest.skippedParents)
      case AlreadyProcessed => rest.(alreadyProcessed := [x] + rest.alreadyProcessed)
      case Dropped => rest
      case Splittable => rest.(splits := SplitTask(x, blockSizeMinutes, config) + rest.splits)
  }

  /** Each output holds exactly the tasks (or the blocks of the tasks) of its category. */
  lemma {:induction false} PartitionMembership(tasks: seq<Task>, parents: set<string>, blockSizeMinutes: int, config: Config)
    ensures var o := Partition(tasks, parents, blockSizeMinutes, config);
      && (forall x :: x in o.skippedParents <==> x in tasks && Classify(x, parents) == SkippedParent)
      && (forall x :: x in o.alreadyProcessed <==> x in tasks && Classify(x, parents) == AlreadyProcessed)
      && (forall s :: s in o.splits ==>
           exists x :: x in tasks && Classify(x, parents) == Splittable && s in SplitTask(x, blockSizeMinutes, config))
      && (forall x, s ::
           x in tasks && Classify(x, parents) == Splittable && s in SplitTask(x, blockSizeMinutes, config) ==> s in o.splits)
      && |o.skippedParents| + |o.alreadyProcessed| <= |tasks|
    decreases |tasks|
  {
    if |tasks| > 0 {
      PartitionMembership(tasks[1..], parents, blockSizeMinutes, config);
      assert tasks == [tasks[0]] + tasks[1..];
    }
  }

  /**
   * `processAllTasks(tasks, blockSizeMinutes, config)`. A task referenced as
   * a parent is skipped; otherwise a marked task is reported as already
   * processed; otherwise a done task or one without an estimate is dropped;
   * every other task is split.
   */
  function ProcessAllTasks(tasks: seq<Task>, blockSizeMinutes: int, config: Config): (o: Outcome)
    ensures forall x :: x in o.skippedParents <==> x in tasks && IsParentIn(x, tasks)
    ensures forall x :: x in o.alreadyProcessed <==>
      x in tasks && !IsParentIn(x, tasks) && IsAlreadyProcessed(x)
    ensures forall x :: x in o.skippedParents ==> x !in o.alreadyProcessed
    ensures forall s :: s in o.splits ==>
      exists x :: && x in tasks && !IsParentIn(x, tasks) && !IsAlreadyProcessed(x)
                  && !x.isDone && HasEstimate(x) && s in SplitTask(x, blockSizeMinutes, config)
    ensures forall x, s ::
      && x in tasks && !IsParentIn(x, tasks) && !IsAlreadyProcessed(x) && !x.isDone && HasEstimate(x)
      && s in SplitTask(x, blockSizeMinutes, config)
      ==> s in o.splits
    ensures |o.splits| == EligibleBlockCount(tasks, ParentIds(tasks), blockSizeMinutes)
    ensures |tasks| == 0 ==> o == Outcome([], [], [])
  {
    PartitionMembership(tasks, ParentIds(tasks), blockSizeMinutes, config);
    SplitCountOfBatch(tasks, ParentIds(tasks), blockSizeMinutes, config);
    Partition(tasks, ParentIds(tasks), blockSizeMinutes, config)
  }

  /** Total number of blocks the splittable tasks need, counted per task as a ceiling. */
  function EligibleBlockCount(tasks: seq<Task>, parents: set<string>, blockSizeMinutes: int): nat
    decreases |tasks|
  {
    if |tasks| == 0 then 0
    else
      (if Classify(tasks[0], parents) == Splittable
       then SplitCount(RemainingMs(tasks[0]), BlockMs(blockSizeMinutes)) else 0)
      + EligibleBlockCount(tasks[1..], parents, blockSizeMinutes)
  }

  /** Each splittable task contributes exactly its block count to the batch's splits. */
  lemma {:induction false} SplitCountOfBatch(tasks: seq<Task>, parents: set<string>, blockSizeMinutes: int, config: Config)
    ensures |Partition(tasks, parents, blockSizeMinutes, config).splits|
            == EligibleBlockCount(tasks, parents, blockSizeMinutes)
    decreases |tasks|
  {
    if |tasks| > 0 {
      SplitCountOfBatch(tasks[1..], parents, blockSizeMinutes, config);
    }
  }

  /** Splits are produced in input order: a batch's outcome is the concatenation of its parts'. */
  lemma {:induction false} PartitionConcat(a: seq<Task>, b: seq<Task>, parents: set<string>, blockSizeMinutes: int, config: Config)
    ensures var oa := Partition(a, parents, blockSizeMinutes, config);
      var ob := Partition(b, parents, blockSizeMinutes, config);
      Partition(a + b, parents, blockSizeMinutes, config)
      == Outcome(oa.splits + ob.splits, oa.skippedParents + ob.skippedParents, oa.alreadyProcessed + ob.alreadyProcessed)
    decreases |a|
  {
    if |a| == 0 {
      assert a + b == b;
    } else {
      assert (a + b)[0] == a[0];
      assert (a + b)[1..] == a[1..] + b;
      PartitionConcat(a[1..], b, parents, blockSizeMinutes, config);
      var oa' := Partition(a[1..], parents, blockSizeMinutes, config);
      var ob := Partition(b, parents, blockSizeMinutes, config);
      match Classify(a[0], parents)
      case SkippedParent =>
        assert [a[0]] + (oa'.skippedParents + ob.skippedParents) == ([a[0]] + oa'.skippedParents) + ob.skippedParents;
      case AlreadyProcessed =>
        assert [a[0]] + (oa'.alreadyProcessed + ob.alreadyProcessed) == ([a[0]] + oa'.alreadyProcessed) + ob.alreadyProcessed;
      case Dropped =>
      case Splittable =>
        var r := SplitTask(a[0], blockSizeMinutes, config);
        assert r + (oa'.splits + ob.splits) == (r + oa'.splits) + ob.splits;
    }
  }

  /** A task whose notes carry the marker is never split again, unless it is skipped as a parent. */
  lemma MarkedTaskNotResplit(tasks: seq<Task>, blockSizeMinutes: int, config: Config, x: Task)
    requires x in tasks && IsAlreadyProcessed(x)
    ensures x in ProcessAllTasks(tasks, blockSizeMinutes, config).skippedParents
         || x in ProcessAllTasks(tasks, blockSizeMinutes, config).alreadyProcessed
  {
  }
}
