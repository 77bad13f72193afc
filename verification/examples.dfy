/**
 * The concrete cases the repository's tests check, stated over the model,
 * one module per component.
 */
module RomanCases {
  import opened Roman

  /** The conversion loop on the small cases, from the first table entry. */
  lemma LoopSmall()
    ensures Convert(1, 0) == "I" && Convert(2, 0) == "II" && Convert(3, 0) == "III" && Convert(4, 0) == "IV"
  {
  }

  lemma LoopFives()
    ensures Convert(5, 0) == "V" && Convert(9, 0) == "IX" && Convert(10, 0) == "X"
  {
  }

  lemma LoopSymbols()
    ensures Convert(50, 0) == "L" && Convert(100, 0) == "C" && Convert(500, 0) == "D" && Convert(1000, 0) == "M"
  {
  }

  lemma SmallNumerals()
    ensures ToRoman(1) == "I" && ToRoman(2) == "II" && ToRoman(3) == "III" && ToRoman(4) == "IV"
    ensures ToRoman(5) == "V" && ToRoman(9) == "IX" && ToRoman(10) == "X"
    ensures ToRoman(50) == "L" && ToRoman(100) == "C" && ToRoman(500) == "D" && ToRoman(1000) == "M"
  {
    LoopSmall();
    LoopFives();
    LoopSymbols();
  }

  /** The loop from the hundreds entries on, on the tail of 1994 and of 2024. */
  lemma Loop94()
    ensures Convert(94, 1) == "XCIV"
  {
    assert Convert(4, 9) == "IV";
    assert Convert(4, 5) == "IV";
  }

  lemma Year1994()
    ensures ToRoman(1994) == "MCMXCIV"
  {
    Loop94();
    assert Convert(1994, 0) == "MCMXCIV";
  }

  lemma Loop24()
    ensures Convert(24, 1) == "XXIV"
  {
    assert Convert(4, 9) == "IV";
    assert Convert(4, 8) == "IV";
    assert Convert(14, 8) == "XIV";
    assert Convert(24, 5) == "XXIV";
  }

  lemma Year2024()
    ensures ToRoman(2024) == "MMXXIV"
  {
    Loop24();
    assert Convert(2024, 0) == "MMXXIV";
  }

  lemma OutOfRange()
    ensures ToRoman(0) == "I" && ToRoman(-5) == "I"
    ensures ToRoman(4000) == "4000" && ToRoman(5000) == "5000"
  {
    assert Decimal(4) == "4" && Decimal(40) == "40" && Decimal(400) == "400";
    assert Decimal(5) == "5" && Decimal(50) == "50" && Decimal(500) == "500";
  }
}

/**
 * Equalities between string literals used by the escaping cases. They are
 * stated apart from the escaping functions, whose definitions would
 * otherwise be unfolded on every substring of the literals.
 */
module EscapeLiterals {
  lemma PlusParts()
    ensures "a" + ['+'] + "b" == "a+b" && "a" + ['\\', '+'] + "b" == "a\\+b"
  {
  }

  lemma QuestionParts()
    ensures "what" + ['?'] + "" == "what?" && "what" + ['\\', '?'] + "" == "what\\?"
  {
  }

  lemma DotParts()
    ensures "hello" + ['.'] + "world" == "hello.world"
    ensures "hello" + ['\\', '.'] + "world" == "hello\\.world"
  {
  }

  lemma StarParts()
    ensures "test" + ['*'] + "" == "test*" && "test" + ['\\', '*'] + "" == "test\\*"
  {
  }

  lemma BracketParts()
    ensures ['('] + "test" + [')'] == "(test)" && ['\\', '('] + "test" + ['\\', ')'] == "\\(test\\)"
    ensures ['['] + "1" + [']'] == "[1]" && ['\\', '['] + "1" + ['\\', ']'] == "\\[1\\]"
    ensures "(test)" + "[1]" == "(test)[1]"
    ensures "\\(test\\)" + "\\[1\\]" == "\\(test\\)\\[1\\]"
  {
  }
}

/**
 * The literal pieces of a prefixed, suffixed block title. Kept in a module
 * of its own, away from the string functions, so that the solver compares
 * the literals without unfolding those definitions.
 */
module TitleLiterals {
  lemma PrefixedTitle()
    ensures "[SPLIT] " + "Test Task" + (" <" + "I" + ">") == "[SPLIT] Test Task <I>"
  {
  }
}

module EscapeCases {
  import opened Escape
  import opened EscapeLiterals

  lemma Plus()
    ensures EscapeRegex("a+b") == "a\\+b"
  {
    PlainAroundMeta("a", '+', "b");
    PlusParts();
  }

  lemma Question()
    ensures EscapeRegex("what?") == "what\\?"
  {
    PlainAroundMeta("what", '?', "");
    QuestionParts();
  }

  lemma Dot()
    ensures EscapeRegex("hello.world") == "hello\\.world"
  {
    PlainAroundMeta("hello", '.', "world");
    DotParts();
  }

  lemma Star()
    ensures EscapeRegex("test*") == "test\\*"
  {
    PlainAroundMeta("test", '*', "");
    StarParts();
  }

  /** Several metacharacters, each escaped in place. */
  lemma Brackets()
    ensures EscapeRegex("(test)[1]") == "\\(test\\)\\[1\\]"
  {
    BracketParts();
    MetaAroundPlain('(', "test", ')');
    MetaAroundPlain('[', "1", ']');
    EscapeConcat("(test)", "[1]");
  }

  lemma Single(c: char)
    ensures EscapeRegex([c]) == EscapeChar(c)
  {
    assert [c][1..] == [];
  }

  /** One metacharacter between two plain strings gains a backslash and nothing else changes. */
  lemma PlainAroundMeta(a: string, c: char, b: string)
    requires forall i :: 0 <= i < |a| ==> !IsMeta(a[i])
    requires forall i :: 0 <= i < |b| ==> !IsMeta(b[i])
    requires IsMeta(c)
    ensures EscapeRegex(a + [c] + b) == a + ['\\', c] + b
  {
    EscapeIdentity(a);
    EscapeIdentity(b);
    Single(c);
    EscapeConcat(a, [c]);
    EscapeConcat(a + [c], b);
  }

  /** A plain string between two metacharacters: both gain a backslash. */
  lemma MetaAroundPlain(c: char, a: string, d: char)
    requires forall i :: 0 <= i < |a| ==> !IsMeta(a[i])
    requires IsMeta(c) && IsMeta(d)
    ensures EscapeRegex([c] + a + [d]) == ['\\', c] + a + ['\\', d]
  {
    EscapeIdentity(a);
    Single(c);
    Single(d);
    EscapeConcat([c], a);
    EscapeConcat([c] + a, [d]);
  }

  lemma NoMetacharacters()
    ensures EscapeRegex("hello world") == "hello world"
  {
    EscapeIdentity("hello world");
  }
}

module TimeCases {
  import opened Optional
  import opened Time
  import opened Tasks

  const Hour: int := MsPerHour

  lemma Between()
    ensures HoursBetween(0, 2 * Hour) == 2.0 && HoursBetween(2 * Hour, 0) == 2.0
    ensures HoursBetween(0, 90 * MsPerMinute) == 1.5 && HoursBetween(7, 7) == 0.0
    ensures DaysBetween(0, 7 * MsPerDay) == 7.0 && DaysBetween(7 * MsPerDay, 0) == 7.0
    ensures DaysBetween(0, 12 * Hour) == 0.5
  {
  }

  function Bare(): Task {
    Task("t", "Test Task", None, None, [], None, None, None, false, None, None, None, None)
  }

  lemma Estimates()
    ensures GetEstimatedHours(Bare().(timeEstimate := Some(2 * Hour))) == 2.0
    ensures GetEstimatedHours(Bare().(timeEstimate := Some(90 * MsPerMinute))) == 1.5
    ensures GetEstimatedHours(Bare()) == 0.0 && GetEstimatedHours(Bare().(timeEstimate := Some(0))) == 0.0
    ensures GetRemainingHours(Bare().(timeEstimate := Some(4 * Hour), timeSpent := Some(Hour))) == 3.0
    ensures GetRemainingHours(Bare().(timeEstimate := Some(Hour), timeSpent := Some(2 * Hour))) == 0.0
    ensures GetRemainingHours(Bare().(timeEstimate := Some(2 * Hour))) == 2.0
    ensures GetRemainingHours(Bare().(timeSpent := Some(Hour))) == 0.0
  {
  }

  lemma Ages()
    ensures GetTaskAgeInDays(Bare().(created := Some(0)), 5 * MsPerDay) == 5.0
    ensures GetTaskAgeInDays(Bare(), 5 * MsPerDay) == 0.0
  {
  }

  lemma DueDates()
    ensures GetTaskDueDate(Bare().(dueWithTime := Some(15))) == Some(15)
    ensures GetTaskDueDate(Bare().(dueDate := Some(20))) == Some(20)
    ensures GetTaskDueDate(Bare().(dueWithTime := Some(15), dueDate := Some(21))) == Some(15)
    ensures GetTaskDueDate(Bare()) == None
  {
  }
}

module CalendarCases {
  import opened Optional
  import opened Time
  import opened Tasks
  import opened CalendarImport

  /** 2024-01-15T10:00:00Z in milliseconds. */
  const Now: int := 1705312800000

  function Scheduled(created: Option<int>, estimate: int): Task {
    Task("t", "Event", Some(estimate), None, [], None, None, created, false, None,
         Some(Now + 5 * MsPerHour), None, None)
  }

  const Window5: Config := Config(120, true, "", 5)

  lemma Detected()
    ensures LooksLikeCalendarImport(
      Scheduled(Some(Now - MsPerMinute), 0).(repeatCfg := Some(Recurrence(1, "week"))), Window5, Now)
    ensures LooksLikeCalendarImport(
      Scheduled(Some(Now - MsPerMinute), 900000).(repeatCfg := Some(Recurrence(1, "day"))), Window5, Now)
    ensures LooksLikeCalendarImport(Scheduled(Some(Now - 2 * MsPerMinute), 0), Window5, Now)
    ensures LooksLikeCalendarImport(Scheduled(Some(Now - 5 * MsPerMinute), 0), Window5, Now)
  {
  }

  lemma NotDetected()
    ensures !LooksLikeCalendarImport(Scheduled(Some(Now - 5 * MsPerDay - MsPerHour), 0), Window5, Now)
    ensures !LooksLikeCalendarImport(Scheduled(Some(Now - MsPerMinute), MsPerHour), Window5, Now)
    ensures !LooksLikeCalendarImport(Scheduled(Some(Now - MsPerMinute), 0).(dueWithTime := None), Window5, Now)
    ensures !LooksLikeCalendarImport(Scheduled(None, 0), Window5, Now)
  {
  }

  lemma CustomWindow()
    ensures !LooksLikeCalendarImport(Scheduled(Some(Now - 8 * MsPerMinute), 0), Window5, Now)
    ensures LooksLikeCalendarImport(
      Scheduled(Some(Now - 8 * MsPerMinute), 0), Window5.(calendarDetectionWindowMinutes := 10), Now)
  {
  }
}

module SplitterCases {
  import opened Optional
  import opened Time
  import opened Tasks
  import opened Splitter
  import RomanCases
  import TitleLiterals

  const Hour: int := MsPerHour

  /** The tests' default task: "Test Task", one tag, a project, no parent, empty notes. */
  function TestTask(id: string, estimate: int, spent: int): Task {
    Task(id, "Test Task", Some(estimate), Some(spent), ["tag-1"], Some("project-1"), None,
         None, false, Some(""), None, None, None)
  }

  const SuffixConfig: Config := DefaultConfig.(splitSuffix := true)

  lemma Counts()
    ensures var r := SplitTask(TestTask("task-1", 4 * Hour, 0), 120, SuffixConfig);
      |r| == 2 && r[0].estimatedHours == 2.0 && r[1].estimatedHours == 2.0
    ensures var r := SplitTask(TestTask("task-1", Hour, 0), 120, SuffixConfig);
      |r| == 1 && r[0].estimatedHours == 1.0
  {
    FourHours();
    OneHour();
  }

  /** Four hours in two-hour blocks: two blocks of 2 hours. */
  lemma FourHours()
    ensures var r := SplitTask(TestTask("task-1", 4 * Hour, 0), 120, SuffixConfig);
      |r| == 2 && r[0].estimatedHours == 2.0 && r[1].estimatedHours == 2.0
  {
    var t := TestTask("task-1", 4 * Hour, 0);
    var r := SplitTask(t, 120, SuffixConfig);
    assert RemainingMs(t) == 4 * Hour;
    assert BlockMs(120) == 2 * Hour;
    FourHoursInTwo();
    assert r == Blocks(t, SuffixConfig, 4 * Hour, 2 * Hour, 2);
    assert BlockLengthMs(4 * Hour, 2 * Hour, 1) == 2 * Hour;
  }

  /** One hour in two-hour blocks: a single block of 1 hour. */
  lemma OneHour()
    ensures var r := SplitTask(TestTask("task-1", Hour, 0), 120, SuffixConfig);
      |r| == 1 && r[0].estimatedHours == 1.0
  {
    var t := TestTask("task-1", Hour, 0);
    var r := SplitTask(t, 120, SuffixConfig);
    assert RemainingMs(t) == Hour;
    assert BlockMs(120) == 2 * Hour;
    assert SplitCount(Hour, 2 * Hour) == 1 by {
      var n := SplitCount(Hour, 2 * Hour);
      assert (n - 1) * 7200000 < 3600000 <= n * 7200000;
    }
    assert r == Blocks(t, SuffixConfig, Hour, 2 * Hour, 1);
    assert BlockLengthMs(Hour, 2 * Hour, 0) == Hour;
  }

  /** Four hours take two two-hour blocks. */
  lemma FourHoursInTwo()
    ensures SplitCount(4 * Hour, 2 * Hour) == 2
  {
    var n := SplitCount(4 * Hour, 2 * Hour);
    assert (n - 1) * 7200000 < 4 * 3600000 <= n * 7200000;
  }

  lemma DefaultBlockCounts()
    ensures |SplitTask(TestTask("task-1", 4 * Hour, 0), 0, SuffixConfig)| == 2
    ensures |SplitTask(TestTask("task-1", 4 * Hour, 0), -60, SuffixConfig)| == 2
  {
    assert RemainingMs(TestTask("task-1", 4 * Hour, 0)) == 4 * Hour;
    assert BlockMs(0) == BlockMs(-60) == 2 * Hour;
    FourHoursInTwo();
  }

  lemma NothingRemaining()
    ensures |SplitTask(TestTask("task-1", 2 * Hour, 2 * Hour), 120, SuffixConfig)| == 0
    ensures |SplitTask(TestTask("task-1", 2 * Hour, 3 * Hour), 120, SuffixConfig)| == 0
  {
  }

  /** Five hours in two-hour blocks: three blocks of 2, 2 and 1 hours. */
  lemma FiveHours()
    ensures var r := SplitTask(TestTask("task-1", 5 * Hour, 0), 120, SuffixConfig);
      |r| == 3 && r[0].estimatedHours == 2.0 && r[1].estimatedHours == 2.0 && r[2].estimatedHours == 1.0
  {
    var t := TestTask("task-1", 5 * Hour, 0);
    var r := SplitTask(t, 120, SuffixConfig);
    assert RemainingMs(t) == 5 * Hour;
    assert BlockMs(120) == 2 * Hour;
    assert SplitCount(5 * Hour, 2 * Hour) == 3 by {
      var n := SplitCount(5 * Hour, 2 * Hour);
      assert (n - 1) * 7200000 < 5* 3600000 <= n * 7200000;
    }
    assert r == Blocks(t, SuffixConfig, 5 * Hour, 2 * Hour, 3);
    assert BlockLengthMs(5 * Hour, 2 * Hour, 2) == Hour;
  }

  /** Six hours in two-hour blocks: three blocks linked in order. */
  lemma SixHoursLinks()
    ensures var r := SplitTask(TestTask("task-1", 6 * Hour, 0), 120, SuffixConfig);
      && |r| == 3
      && r[0].splitIndex == 0 && r[0].totalSplits == 3
      && r[0].prevSplitIndex == None && r[0].nextSplitIndex == Some(1)
      && r[1].splitIndex == 1 && r[1].prevSplitIndex == Some(0) && r[1].nextSplitIndex == Some(2)
      && r[2].splitIndex == 2 && r[2].prevSplitIndex == Some(1) && r[2].nextSplitIndex == None
  {
    SixHoursCount();
  }

  /** The three blocks of a six-hour task are titled with ordinals I, II, III. */
  lemma SixHoursTitles()
    ensures var r := SplitTask(TestTask("task-1", 6 * Hour, 0), 120, SuffixConfig);
      && |r| == 3
      && r[0].title == "Test Task <I>" && r[1].title == "Test Task <II>" && r[2].title == "Test Task <III>"
  {
    SixHoursCount();
    SixHoursSuffixes();
  }

  lemma SixHoursSuffixes()
    ensures OrdinalSuffix(SuffixConfig, 0) == " <I>"
    ensures OrdinalSuffix(SuffixConfig, 1) == " <II>"
    ensures OrdinalSuffix(SuffixConfig, 2) == " <III>"
  {
    RomanCases.LoopSmall();
  }

  lemma SixHoursCount()
    ensures |SplitTask(TestTask("task-1", 6 * Hour, 0), 120, SuffixConfig)| == 3
  {
    var t := TestTask("task-1", 6 * Hour, 0);
    assert RemainingMs(t) == 6 * Hour;
    assert BlockMs(120) == 2 * Hour;
    assert SplitCount(6 * Hour, 2 * Hour) == 3 by {
      var n := SplitCount(6 * Hour, 2 * Hour);
      assert (n - 1) * 7200000 < 6 * 3600000 <= n * 7200000;
    }
  }

  /** A two-hour task with a prefix: its one block is titled "[SPLIT] Test Task <I>". */
  lemma Titles()
    ensures var r := SplitTask(TestTask("task-1", 2 * Hour, 0), 120, SuffixConfig.(splitPrefix := "[SPLIT] "));
      |r| >= 1 && r[0].title == "[SPLIT] Test Task <I>"
  {
    var c := SuffixConfig.(splitPrefix := "[SPLIT] ");
    var t := TestTask("task-1", 2 * Hour, 0);
    assert RemainingMs(t) == 2 * Hour;
    var r := SplitTask(t, 120, c);
    assert r[0].title == SplitTitle(c, "Test Task", 0);
    RomanCases.LoopSmall();
    assert OrdinalSuffix(c, 0) == " <" + "I" + ">";
    TitleLiterals.PrefixedTitle();
  }

  /** A four-hour task with the suffix off: both blocks carry the bare title. */
  lemma SuffixOff()
    ensures var r := SplitTask(TestTask("task-1", 4 * Hour, 0), 120, SuffixConfig.(splitSuffix := false));
      |r| >= 2 && r[0].title == "Test Task" && r[1].title == "Test Task"
  {
    var c := SuffixConfig.(splitSuffix := false);
    var t := TestTask("task-1", 4 * Hour, 0);
    assert RemainingMs(t) == 4 * Hour;
    assert BlockMs(120) == 2 * Hour;
    FourHoursInTwo();
    var r := SplitTask(t, 120, c);
    assert r[0].title == SplitTitle(c, "Test Task", 0);
    assert r[1].title == SplitTitle(c, "Test Task", 1);
    assert "" + "Test Task" + "" == "Test Task";
  }

  function Tagged(): Task {
    TestTask("my-task", 4 * Hour, 0).(tagIds := ["tag-a", "tag-b"],
      projectId := Some("proj-123"), parentId := Some("parent-1"))
  }

  lemma Metadata()
    ensures var r := SplitTask(Tagged(), 120, SuffixConfig);
      && |r| > 0 && r[0].originalTaskId == "my-task" && r[0].tagIds == ["tag-a", "tag-b"]
      && r[0].projectId == Some("proj-123") && r[0].parentId == Some("parent-1")
  {
    var r := SplitTask(Tagged(), 120, SuffixConfig);
    assert GetRemainingHours(Tagged()) > 0.0;
    assert CarriesMetadata(r[0], Tagged());
  }

  /** Notes "Some notes", a blank line, then "[AutoPlan] This task was split.". */
  lemma Processed()
    ensures IsAlreadyProcessed(TestTask("t", Hour, 0).(notes := Some("Some notes\n\n" + Marker + " This task was split.")))
  {
    MarkedNotesDetected(TestTask("t", Hour, 0), "Some notes\n\n", " This task was split.");
  }

  lemma NotProcessed()
    ensures !IsAlreadyProcessed(TestTask("t", Hour, 0).(notes := Some("Regular notes")))
    ensures !IsAlreadyProcessed(TestTask("t", Hour, 0).(notes := None))
  {
    NoBracketNotProcessed(TestTask("t", Hour, 0).(notes := Some("Regular notes")));
  }

  /** A parent and its child: only the child is split, the parent is skipped. */
  lemma ParentAndChild()
    ensures var parent := TestTask("parent", 4 * Hour, 0);
      var child := TestTask("child", 2 * Hour, 0).(parentId := Some("parent"));
      var o := ProcessAllTasks([parent, child], 120, SuffixConfig);
      && |o.splits| == 1 && o.splits[0].originalTaskId == "child"
      && o.skippedParents == [parent] && o.alreadyProcessed == []
  {
    var parent := TestTask("parent", 4 * Hour, 0);
    var child := TestTask("child", 2 * Hour, 0).(parentId := Some("parent"));
    var tasks := [parent, child];
    var p := ParentIds(tasks);
    assert "parent" in p by { assert child in tasks; }
    assert "child" !in p by {
      assert |"child"| != |"parent"|;
      forall x | x in tasks
        ensures x.parentId != Some("child")
      {
        assert x == parent || x == child;
      }
    }
    assert !IsAlreadyProcessed(child);
    assert Classify(parent, p) == SkippedParent;
    assert Classify(child, p) == Splittable;
    assert |SplitTask(child, 120, SuffixConfig)| == 1 by {
      assert RemainingMs(child) == 2 * Hour;
      assert BlockMs(120) == 2 * Hour;
      assert SplitCount(2 * Hour, 2 * Hour) == 1;
    }
    assert tasks[1..] == [child] && [child][1..] == [];
    var o1 := Partition([child], p, 120, SuffixConfig);
    assert Partition([child][1..], p, 120, SuffixConfig) == Outcome([], [], []);
    assert SplitTask(child, 120, SuffixConfig) + [] == SplitTask(child, 120, SuffixConfig);
    assert o1 == Outcome(SplitTask(child, 120, SuffixConfig), [], []);
    assert Partition(tasks, p, 120, SuffixConfig) == o1.(skippedParents := [parent]);
  }

  /** In a batch where no task names a parent, no task is skipped as one. */
  lemma NoParentIds(tasks: seq<Task>)
    requires forall x :: x in tasks ==> x.parentId.None?
    ensures ParentIds(tasks) == {}
  {
  }

  lemma TwoBlocks(t: Task)
    requires t.timeEstimate == Some(4 * Hour) && t.timeSpent == Some(0)
    ensures SplitCount(RemainingMs(t), BlockMs(120)) == 2
  {
    assert RemainingMs(t) == 4 * Hour;
    assert BlockMs(120) == 2 * Hour;
    var n := SplitCount(4 * Hour, 2 * Hour);
    assert (n - 1) * 7200000 < 4 * 3600000 <= n * 7200000;
  }

  lemma OneBlock(t: Task)
    requires t.timeEstimate == Some(2 * Hour) && t.timeSpent == Some(0)
    ensures SplitCount(RemainingMs(t), BlockMs(120)) == 1
  {
    assert RemainingMs(t) == 2 * Hour;
    assert BlockMs(120) == 2 * Hour;
  }

  /** The block count of a two-task batch, task by task. */
  lemma PairCount(a: Task, b: Task, parents: set<string>)
    ensures EligibleBlockCount([a, b], parents, 120)
         == (if Classify(a, parents) == Splittable then SplitCount(RemainingMs(a), BlockMs(120)) else 0)
          + (if Classify(b, parents) == Splittable then SplitCount(RemainingMs(b), BlockMs(120)) else 0)
  {
    var tasks := [a, b];
    assert tasks[0] == a && tasks[1..] == [b];
    assert [b][0] == b && [b][1..] == [];
    assert EligibleBlockCount([b], parents, 120)
        == (if Classify(b, parents) == Splittable then SplitCount(RemainingMs(b), BlockMs(120)) else 0);
  }

  /** A sequence with no members is empty. */
  lemma NoMembers<T>(s: seq<T>)
    ensures (forall x :: x !in s) ==> s == []
  {
    if |s| > 0 {
      assert s[0] in s;
    }
  }

  /** Two unrelated tasks of 4 and 2 hours give 2 + 1 blocks and nothing skipped. */
  lemma MultipleTasks()
    ensures var o := ProcessAllTasks([TestTask("task-1", 4 * Hour, 0), TestTask("task-2", 2 * Hour, 0)], 120, SuffixConfig);
      |o.splits| == 3 && o.skippedParents == [] && o.alreadyProcessed == []
  {
    var a, b := TestTask("task-1", 4 * Hour, 0), TestTask("task-2", 2 * Hour, 0);
    var tasks := [a, b];
    var o := ProcessAllTasks(tasks, 120, SuffixConfig);
    NoParentIds(tasks);
    assert !IsAlreadyProcessed(a) && !IsAlreadyProcessed(b);
    TwoBlocks(a);
    OneBlock(b);
    PairCount(a, b, {});
    NoMembers(o.skippedParents);
    NoMembers(o.alreadyProcessed);
  }

  /** Splits of a two-task batch whose first task is not split all come from the second. */
  lemma OnlySecondSplit(a: Task, b: Task)
    requires a.parentId.None? && b.parentId.None? && !IsAlreadyProcessed(b)
    requires b.timeEstimate == Some(2 * Hour) && b.timeSpent == Some(0) && !b.isDone
    requires a.isDone || !HasEstimate(a) || IsAlreadyProcessed(a)
    ensures var o := ProcessAllTasks([a, b], 120, SuffixConfig);
      |o.splits| == 1 && o.splits[0].originalTaskId == b.id
  {
    var tasks := [a, b];
    var o := ProcessAllTasks(tasks, 120, SuffixConfig);
    NoParentIds(tasks);
    OneBlock(b);
    PairCount(a, b, {});
    assert o.splits[0] in o.splits;
  }

  /** A completed task contributes no blocks. */
  lemma CompletedSkipped()
    ensures var o := ProcessAllTasks([TestTask("task-1", 4 * Hour, 0).(isDone := true), TestTask("task-2", 2 * Hour, 0)], 120, SuffixConfig);
      |o.splits| == 1 && o.splits[0].originalTaskId == "task-2"
  {
    var b := TestTask("task-2", 2 * Hour, 0);
    assert !IsAlreadyProcessed(b);
    OnlySecondSplit(TestTask("task-1", 4 * Hour, 0).(isDone := true), b);
  }

  /** A task with a zero estimate contributes no blocks. */
  lemma NoEstimateSkipped()
    ensures var o := ProcessAllTasks([TestTask("task-1", 0, 0), TestTask("task-2", 2 * Hour, 0)], 120, SuffixConfig);
      |o.splits| == 1 && o.splits[0].originalTaskId == "task-2"
  {
    var b := TestTask("task-2", 2 * Hour, 0);
    assert !IsAlreadyProcessed(b);
    OnlySecondSplit(TestTask("task-1", 0, 0), b);
  }

  /** A task whose notes carry the marker is reported as processed, not split. */
  lemma ProcessedSkipped()
    ensures var a := TestTask("task-1", 4 * Hour, 0).(notes := Some(Marker + " Already processed"));
      var o := ProcessAllTasks([a, TestTask("task-2", 2 * Hour, 0)], 120, SuffixConfig);
      |o.splits| == 1 && o.splits[0].originalTaskId == "task-2" && o.alreadyProcessed == [a]
  {
    var a := TestTask("task-1", 4 * Hour, 0).(notes := Some(Marker + " Already processed"));
    var b := TestTask("task-2", 2 * Hour, 0);
    var tasks := [a, b];
    MarkedNotesDetected(a, "", " Already processed");
    assert "" + Marker + " Already processed" == Marker + " Already processed";
    assert !IsAlreadyProcessed(b);
    OnlySecondSplit(a, b);
    NoParentIds(tasks);
    assert Classify(a, {}) == AlreadyProcessed;
    assert Classify(b, {}) == Splittable;
    assert tasks[1..] == [b] && [b][1..] == [];
    assert Partition([b], {}, 120, SuffixConfig).alreadyProcessed == [];
    assert Partition(tasks, {}, 120, SuffixConfig).alreadyProcessed == [a];
  }

  lemma EmptyBatch()
    ensures ProcessAllTasks([], 120, SuffixConfig) == Outcome([], [], [])
  {
  }
}
