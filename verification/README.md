# sp-autoplan core, modelled in Dafny

sp-autoplan is a task-urgency scheduler plugin. Before scheduling, it cuts
each task's remaining effort into fixed-size time blocks. This project models
the pure logic underneath that step, in three parts:

- **Task splitter** (`TaskSplitter.splitTask`, `isAlreadyProcessed`,
  `processAllTasks`).
  - One task becomes `ceil(remaining / block)` blocks. Each block has a
    position, its neighbour links and a generated title.
  - A batch of tasks is partitioned into split blocks, skipped parent tasks
    and tasks an earlier pass already processed.
- **Utilities**: `toRoman`, `hoursBetween`, `daysBetween`,
  `getTaskAgeInDays`, `getEstimatedHours`, `getRemainingHours`,
  `getTaskDueDate` and `escapeRegex`.
- **Calendar-import classifier** (`looksLikeCalendarImport`). It tells an
  event synced from an external calendar apart from a planned task.

`src/core.js`, the module that implements these functions, is not part of
this model's sources. The model is rebuilt from what the repository's three
test files assert about it. The tests are cited by path and line below.

Representation:

- Instants and durations are integer milliseconds. Hours and days are exact
  `real` quotients (ms / 3 600 000, ms / 86 400 000), so no floating point is
  involved.
- Absent or `null` fields are `Option.None`.
- The current time `now` is a parameter, not a clock read.

Files and modules:

| file | module | contents |
|---|---|---|
| `optional.dfy` | `Optional` | `Option` |
| `time.dfy` | `Time` | millisecond constants, `HoursBetween`, `DaysBetween` |
| `tasks.dfy` | `Tasks` | `Task`, `Config`, `DefaultConfig` and the estimate, remaining, age and due-date accessors |
| `sequences.dfy` | `Sequences` | associativity of concatenation, shared by the string proofs |
| `roman.dfy` | `Roman` | `ToRoman` as a table-driven conversion loop, with the standard place-by-place numeral, a subtractive-notation decoder and a decimal decoder as reference definitions |
| `escape.dfy` | `Escape` | `EscapeRegex`, with `Unescape` as its inverse |
| `calendar.dfy` | `CalendarImport` | `LooksLikeCalendarImport` |
| `splitter.dfy` | `Splitter` | `SplitTask`, `IsAlreadyProcessed`, `ProcessAllTasks` and their lemmas |
| `examples.dfy` | `RomanCases`, `TitleLiterals`, `EscapeLiterals`, `EscapeCases`, `TimeCases`, `CalendarCases`, `SplitterCases` | the concrete cases of the tests |

## Model

| member | source | states |
|---|---|---|
| Roman.ToRoman | tests/utils.test.js:17-48 | Every n ≤ 0 gives "I". Every n in 1..3999 gives exactly the standard place-by-place numeral (`Canonical`): a non-empty string of Roman symbols whose subtractive reading (`RomanValue`) is n. Every n > 3999 gives the decimal digits of n with no leading zero. |
| Roman.Run | tests/utils.test.js:17-35 | When a one-symbol table entry fits m times, the conversion loop writes m copies of that symbol and moves on to the next entry. |
| Roman.PlaceConvert | tests/utils.test.js:17-35 | Over the four table entries of a place (nine, five, four and one units), the loop writes that place's digit in standard notation and leaves the remainder below one unit to the next place. |
| Roman.ConvertCanonical | tests/utils.test.js:17-35 | On 0..3999 the conversion loop over the 13-entry table produces exactly the standard numeral: thousands as repeated M, then the hundreds, tens and units digits. |
| Roman.ValueOfConcat | tests/utils.test.js:17-35 | Appending a numeral that starts with a symbol no larger than the last one adds the values. |
| Roman.RepeatValue | tests/utils.test.js:17-35 | m copies of a symbol read as m times its value. |
| Roman.DigitValue | tests/utils.test.js:17-35 | A digit d written with a place's one, five and ten symbols reads as d units, uses no symbol below one unit, and starts with a symbol worth at most five units. |
| Roman.JoinValue | tests/utils.test.js:17-35 | Placing a part whose symbols are all at least some value before a part that starts at or below that value adds the two readings. |
| Roman.CanonicalValue | tests/utils.test.js:17-35 | The standard numeral of every n in 0..3999 uses only Roman symbols, reads back as n, and is non-empty when n ≥ 1. |
| Roman.DecimalRoundTrip | tests/utils.test.js:45-48 | The decimal rendering is a non-empty string of digits, has no leading zero when n > 0, and reads back as n. |
| Roman.ToRomanInjective | tests/utils.test.js:17-35 | Distinct numbers in 1..3999 give distinct numerals. |
| RomanCases.SmallNumerals | tests/utils.test.js:18-32 | 1, 2, 3, 4, 5, 9, 10, 50, 100, 500 and 1000 give I, II, III, IV, V, IX, X, L, C, D and M. |
| RomanCases.Year1994 | tests/utils.test.js:28-35 | 1994 gives MCMXCIV. |
| RomanCases.Year2024 | tests/utils.test.js:28-35 | 2024 gives MMXXIV. |
| RomanCases.OutOfRange | tests/utils.test.js:37-48 | 0 and -5 give "I"; 4000 and 5000 give "4000" and "5000". |
| Time.HoursBetween | tests/utils.test.js:51-74 | The result is never negative. It is 0 exactly on equal instants. Multiplied by 3 600 000 it gives the absolute distance in ms, in either argument order. |
| Time.DaysBetween | tests/utils.test.js:76-94 | The same as `HoursBetween`, with 86 400 000 ms per day. |
| Time.BetweenSymmetric | tests/utils.test.js:58-62 | Both distances are symmetric in their arguments. |
| Time.DaysAreTwentyFourHours | tests/utils.test.js:51-94 | The hour distance is 24 times the day distance. |
| Time.HoursAdditive | tests/utils.test.js:51-74 | On ordered instants a ≤ b ≤ c, hours(a, c) = hours(a, b) + hours(b, c). |
| TimeCases.Between | tests/utils.test.js:51-94 | 2 h, 1.5 h, 0 h, 7 days and 0.5 day, in both argument orders. |
| Tasks.GetEstimatedHours | tests/utils.test.js:115-131 | The result is never negative. It is 0 exactly when the estimate is absent or not positive. Otherwise, multiplied by 3 600 000, it is the estimate in ms. |
| Tasks.RemainingMs | tests/utils.test.js:133-159 | The result is 0 without an estimate. Otherwise it is at least estimate − spent, with spent defaulting to 0. When positive, it equals estimate − spent. |
| Tasks.GetRemainingHours | tests/utils.test.js:133-159 | The result is never negative. It is 0 exactly when the estimate is absent or spent ≥ estimate. It is `RemainingMs` in hours. |
| Tasks.RemainingWithinEstimate | tests/utils.test.js:133-159 | With non-negative time spent, remaining ≤ estimated, and equality holds when nothing was spent. |
| Tasks.RemainingPlusSpent | tests/utils.test.js:134-140 | While spent ≤ estimate, remaining + spent = estimate, in hours. |
| Tasks.GetTaskAgeInDays | tests/utils.test.js:96-106 | The result is 0 without `created`. Otherwise it is `DaysBetween(created, now)`, never negative, and for a task created at or before `now` it is the elapsed milliseconds divided by 86 400 000. |
| Tasks.GetTaskDueDate | tests/utils.test.js:178-212 | There is a due date iff `dueWithTime` or `dueDate` is set. `dueWithTime` wins when set. The result is always one of the two fields. |
| TimeCases.Estimates | tests/utils.test.js:115-159 | 2 h, 1.5 h and 0 estimates; remaining 3 h, 0 h when overrun, 2 h with no time spent, and 0 h without an estimate. |
| TimeCases.Ages | tests/utils.test.js:96-106 | Created 5 days before `now` gives 5.0. No `created` gives 0. |
| TimeCases.DueDates | tests/utils.test.js:178-212 | `dueWithTime` alone, `dueDate` alone, both set (`dueWithTime` wins), and neither set (none). |
| Escape.EscapeRegex | tests/utils.test.js:161-176 | The result is a literal pattern: every metacharacter is preceded by a backslash. Unescaping it gives back the input. Its length is the input's plus one per metacharacter. |
| Escape.EscapeIdentity | tests/utils.test.js:173-175 | A string without metacharacters is returned unchanged. |
| Escape.EscapeConcat | tests/utils.test.js:161-176 | Escaping distributes over concatenation, so it is a per-character transform. |
| Escape.EscapeInjective | tests/utils.test.js:161-176 | Different strings never escape to the same pattern. |
| EscapeCases.Plus | tests/utils.test.js:162-167 | "a+b" becomes `a\+b`. |
| EscapeCases.Question | tests/utils.test.js:162-167 | "what?" becomes `what\?`. |
| EscapeCases.Dot | tests/utils.test.js:162-167 | "hello.world" becomes `hello\.world`. |
| EscapeCases.Star | tests/utils.test.js:162-167 | "test*" becomes `test\*`. |
| EscapeCases.Brackets | tests/utils.test.js:169-171 | "(test)[1]" becomes `\(test\)\[1\]`. |
| EscapeCases.PlainAroundMeta | tests/utils.test.js:162-167 | One metacharacter between two plain strings gains a backslash, and nothing else changes. |
| EscapeCases.NoMetacharacters | tests/utils.test.js:173-175 | A plain word is returned unchanged. |
| CalendarImport.LooksLikeCalendarImport | tests/calendar-import.test.js:9-133 | Without a due date the result is false. A recurring task is an import iff it has a due date. A non-recurring task is an import iff it has a due date, a zero or absent estimate, and a `created` no more than window × 60 000 ms before `now`. |
| CalendarImport.RecurringScheduledIsImport | tests/calendar-import.test.js:10-22 | A recurring task with a due time is an import, whatever its estimate. |
| CalendarImport.WindowMonotone | tests/calendar-import.test.js:87-105 | Widening the detection window never turns an import into a non-import. |
| CalendarImport.WindowBoundary | tests/calendar-import.test.js:107-118 | Created exactly at the window's edge is an import. One ms earlier is not. |
| CalendarCases.Detected | tests/calendar-import.test.js:10-133 | Recurring tasks (with and without an estimate) and recent unestimated tasks, including one at the 5-minute edge, are imports. |
| CalendarCases.NotDetected | tests/calendar-import.test.js:37-85 | These are not imports: a task 5 days old, a recent task with an estimate, a task without a due date, and a task without `created`. |
| CalendarCases.CustomWindow | tests/calendar-import.test.js:87-105 | Created 8 minutes ago: not an import with a 5-minute window, an import with a 10-minute window. |
| Splitter.EffectiveBlockMinutes | tests/splitter.test.js:132-140 | A positive block size is kept. Zero or negative falls back to the 120-minute default. |
| Splitter.SplitCount | tests/splitter.test.js:28-53 | The result is 0 iff nothing remains. Otherwise (n−1)·block < remaining ≤ n·block, i.e. the ceiling of the quotient. |
| Splitter.SplitTask | tests/splitter.test.js:28-140 | The number of blocks is the ceiling of remaining hours over block hours, and zero iff nothing remains. Blocks are linked: index i, total n, neighbours i−1 and i+1, none past the ends. Every block copies the task's id, tags, project and parent. Block i is titled prefix + title + ordinal suffix. Every block but the last is one block long, and the last is in (0, block]. |
| Splitter.CountInHours | tests/splitter.test.js:28-53 | The millisecond ceiling count is also the ceiling in hours, and is zero iff no hours remain. |
| Splitter.BlockHoursFacts | tests/splitter.test.js:45-53 | All blocks before the last are exactly one block in hours, and the last is in (0, block]. |
| Splitter.SplitHoursSum | tests/splitter.test.js:45-53 | The block hours add up exactly to the task's remaining hours. |
| Splitter.FullBlocksSum | tests/splitter.test.js:45-53 | k full blocks sum to k · block. |
| Splitter.LinksAreInverse | tests/splitter.test.js:96-112 | Following `next` then `prev`, or `prev` then `next`, returns to the same block. `prev` is null only at the first block, and `next` only at the last. |
| Splitter.SuffixedTitlesDistinct | tests/splitter.test.js:55-62 | With the suffix on, blocks 0..3998 of one task have pairwise distinct titles. |
| Splitter.UnsuffixedTitle | tests/splitter.test.js:64-71 | With the suffix off, every block's title is prefix + title. |
| Splitter.ContainsFrom | tests/splitter.test.js:143-160 | The result is true iff the marker occurs at some position ≥ j. |
| Splitter.IsAlreadyProcessed | tests/splitter.test.js:143-160 | The result is true iff notes are present and contain "[AutoPlan]" somewhere. |
| Splitter.MarkedNotesDetected | tests/splitter.test.js:144-149 | Notes of the form before + "[AutoPlan]" + after are always recognised. |
| Splitter.NoBracketNotProcessed | tests/splitter.test.js:151-154 | Notes without a '[' are never recognised. |
| Splitter.ParentIds | tests/splitter.test.js:179-190 | An id is in the set iff some task of the batch names it as its `parentId`. |
| Splitter.PartitionMembership | tests/splitter.test.js:162-238 | Each output list holds exactly the batch tasks of its category. The splits are exactly the blocks of the splittable tasks. |
| Splitter.ProcessAllTasks | tests/splitter.test.js:162-238 | A task is a skipped parent iff some task names it as parent. It is already processed iff it is not a parent and carries the marker. The two lists are disjoint. Every split is a block of a task that is not a parent, not marked, not done and has an estimate, and every block of such a task is a split. The split count is the sum of per-task ceilings. An empty batch gives three empty lists. |
| Splitter.SplitCountOfBatch | tests/splitter.test.js:165-177 | The number of splits of a batch is the sum of the block counts of its splittable tasks. |
| Splitter.PartitionConcat | tests/splitter.test.js:162-238 | The outcome of a + b is the outcome of a followed by that of b, list by list, so the input order is kept. |
| Splitter.MarkedTaskNotResplit | tests/splitter.test.js:203-218 | A marked task always lands in `skippedParents` or `alreadyProcessed`. |
| SplitterCases.Counts | tests/splitter.test.js:28-42 | 4 h in 120-minute blocks gives 2 blocks of 2 hours each; 1 h gives 1 block of 1 hour. |
| SplitterCases.DefaultBlockCounts | tests/splitter.test.js:132-140 | Block sizes 0 and −60 give 2 blocks for 4 h. |
| SplitterCases.NothingRemaining | tests/splitter.test.js:114-130 | Spent = estimate and spent > estimate give no blocks. |
| SplitterCases.FiveHours | tests/splitter.test.js:45-53 | 5 h gives three blocks of 2, 2 and 1 h. |
| SplitterCases.SixHoursLinks | tests/splitter.test.js:96-112 | The indices, total and neighbour links of the three blocks of 6 h. |
| SplitterCases.SixHoursTitles | tests/splitter.test.js:55-62 | "Test Task <I>", "<II>" and "<III>". |
| SplitterCases.Titles | tests/splitter.test.js:73-79 | With prefix "[SPLIT] ", the 2 h task's first block is titled "[SPLIT] Test Task <I>". |
| SplitterCases.SuffixOff | tests/splitter.test.js:64-71 | With the suffix off, both blocks of the 4 h task are titled "Test Task". |
| SplitterCases.Metadata | tests/splitter.test.js:81-94 | The id, tags, project and parent of "my-task" are copied into its block. |
| SplitterCases.Processed | tests/splitter.test.js:144-149 | Notes with "[AutoPlan] This task was split." after other text are recognised. |
| SplitterCases.NotProcessed | tests/splitter.test.js:151-159 | "Regular notes" and absent notes are not recognised. |
| SplitterCases.MultipleTasks | tests/splitter.test.js:165-177 | 4 h and 2 h tasks give 3 splits and nothing skipped. |
| SplitterCases.ParentAndChild | tests/splitter.test.js:179-190 | The parent is skipped, and only the child is split. |
| SplitterCases.CompletedSkipped | tests/splitter.test.js:192-201 | A done task gives no splits; the one split comes from task-2. |
| SplitterCases.ProcessedSkipped | tests/splitter.test.js:203-218 | A marked task is listed as already processed; the one split comes from task-2. |
| SplitterCases.EmptyBatch | tests/splitter.test.js:220-227 | An empty batch gives three empty lists. |
| SplitterCases.NoEstimateSkipped | tests/splitter.test.js:229-238 | A task with a zero estimate gives no splits; the one split comes from task-2. |

## Left out

- `src/core.js` is not part of this model. Every behaviour is taken from the assertions of the three test files. Where those tests leave a branch open, the model makes its own choice, listed below.
- `build.js`: it reads and writes files and rewrites source text with regular expressions in order to bundle the plugin. It has no logic to verify.
- The urgency scorer and the scheduler/placer: neither is pinned down by the tests, and the weighting formula is not fixed.
- `hasTag`: the calendar tests import it but never exercise it.
- Parsing `created` from a date string (tests/utils.test.js:108-112): JavaScript `Date` parsing is not modelled. `created` is an optional integer millisecond timestamp.
- JavaScript truthiness: a timestamp of 0 counts as present here. A `!task.created` check would treat it as absent.
- `DefaultConfig`: only the 120-minute block size and the empty prefix are pinned by the tests. The default `splitSuffix` (true) and the 5-minute detection window are chosen to match the tests' usage.
- The clock: `now` is always a parameter.
- Tasks.GetEstimatedHours: a negative estimate gives 0, so the hours are never negative. The tests cover positive, absent, zero and `null` estimates (tests/utils.test.js:115-131) and never a negative one, so this clamp is a modelling choice.
- CalendarImport.LooksLikeCalendarImport: an absent estimate counts as "no estimate", like an estimate of 0. The calendar tests write "no estimate" only as `timeEstimate: 0` (tests/calendar-import.test.js:10-117), so treating an absent estimate the same way is a modelling choice.
- CalendarImport.LooksLikeCalendarImport: a due date from either field counts as scheduled, because the classifier asks `GetTaskDueDate`; a task with only a day-level `dueDate` can therefore be an import. Every test that expects an import sets `dueWithTime`, and the one without a schedule sets neither field (tests/calendar-import.test.js:63-73), so the `dueDate`-only case is the model's choice.
- CalendarImport.LooksLikeCalendarImport: a `created` later than `now` counts as recent, since the window test only bounds how far `created` lies before `now`. No test uses a future creation time.
- Tasks.GetTaskAgeInDays: a `created` later than `now` gives a positive age, the absolute distance that `DaysBetween` measures, not 0. The tests only use past creation times (tests/utils.test.js:96-113).
- CalendarImport.LooksLikeCalendarImport: the recurring branch does not require the task to be recent. Both recurring tests use a task created one minute before `now` (tests/calendar-import.test.js:10-22 and 120-133), so whether an old recurring task still counts is left open; the model chooses that it does.
- Splitter.ProcessAllTasks: when a task qualifies for several categories, the precedence is parent, then already processed, then done or unestimated (dropped). The tests never combine categories. A task whose `parentId` is its own id counts as a parent.
- Splitter.SuffixedTitlesDistinct: distinctness is stated for block indices below 3999 only. Above that, `toRoman` switches to decimal strings.
- Escape.EscapeRegex: the tests use only `. * + ? ( ) [ ]` (tests/utils.test.js:161-176). The model also escapes `^ $ { } | \` and leaves every other character as it is, including `-` and `/`, which some escaping helpers escape too; what `escapeRegex` does with those untested characters is the model's choice.
- Floating-point hours: block counts and block lengths are computed on exact integers and reals. A JavaScript implementation that divides hours in IEEE doubles can round differently; for example 23 minutes in 1-minute blocks gives 23/60 / (1/60) = 23.000000000000004, and `Math.ceil` would make 24 blocks where the model makes 23. Such rounding is not modelled.
- Roman.ToRoman: above 3999 the tests expect the decimal string ("4000", "5000"), and the model renders every such n as its plain decimal digits. A JavaScript number-to-string conversion switches to exponent notation from 1e21 and loses integer precision above 2^53; neither is modelled, since Dafny integers are unbounded.
- Splitter.EffectiveBlockMinutes: a block size of zero or less falls back to the constant 120 minutes, the default configuration's block size. The `blockSizeMinutes` field of the `Config` passed alongside is carried but never read: every operation takes the block size as its own argument, as the tests call `splitTask(task, blockSizeMinutes, config)`.
- The vitest test runner, the host application's task store and its UI.
