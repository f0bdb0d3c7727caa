# Weekly work-block scheduling (`gestao`)

A Dafny model of the scheduling core of the `gestao` Django app. The app keeps
**work blocks**: a time slot (start and end time) on a day given as separate day,
month and year columns, with a default duration in hours, an hourly value and a
`constant` flag. It also keeps **assignments** of employees to blocks, each with
its own duration and a completion flag. The model covers:

- **Calendar** (`calendar.dfy`): the parts of Python's `datetime` and `calendar`
  that the core relies on. These are leap years, month lengths, the dates that
  `datetime(y, m, d)` accepts, date order, the next day, `date + timedelta(days=n)`
  and `weekday()`.
- **WorkBlocks** (`workblocks.dfy`): the records of `models.py`, the `clean`
  validation, and the per-employee lookups over the assignment table under its
  `unique_together` constraint.
- **WeekView** (`weekview.dfy`): the `index` schedule view. It keeps the week's
  blocks, buckets them per day, sorts each day stably by start time, groups
  overlapping blocks greedily and positions every block on the grid. It also
  covers the `employee_tasks` view's week and day lists.
- **Recurrence** (`recurrence.dfy`): `WorkBlockAdmin.save_model`. A newly saved
  constant block is copied onto each later day of its month that falls on the
  same weekday, unless a constant block with the same key already exists there.
- **DurationFilters** (`duration.dfy`): the `duration_format` and
  `duration_format_js` template filters. They render decimal hours as `Hh` or
  `HhMMm`.

Representation:

- Times of day are minutes since midnight.
- Two-decimal `DecimalField`s are whole numbers of hundredths.
- Python floats in the grid geometry are exact `real`s.
- A `ValueError` from `datetime(...)` is an `Option`/outcome value, not an exception.
- Database queries are replaced by the sequence of rows they return, passed in as a parameter.

The main results:

- The grouping of a sorted day partitions its blocks into groups that never overlap in time.
- Hence no two drawn rectangles of a day intersect.
- Each group tiles 95% of the column from 2.5% to 97.5%.
- The sort is stable and is a permutation.
- The week view fails exactly when a fetched block has a nonexistent date.
- The recurrence expansion keeps existing rows, is idempotent and adds a block on a candidate day exactly when none with the key was there.
- Every candidate day falls on the template's weekday.
- The duration format can be read back as the value's whole hours and whole minutes.

## Model

| member | source | states |
|---|---|---|
| `WeekView.BlocksOverlap` | gestao/views.py:40-47 | intervals that merely touch (one ends when the other starts) do not overlap; overlapping implies each starts before the other ends |
| `WeekView.OverlapSymmetric` | gestao/views.py:40-47 | the overlap test is symmetric |
| `WeekView.OverlapIffCommonMinute` | gestao/views.py:40-47 | for blocks with start before end, overlap holds exactly when some minute lies in both half-open intervals |
| `WeekView.OverlapsItself` | gestao/views.py:40-47 | a block with start before end overlaps itself |
| `WeekView.InWeek` | gestao/views.py:32-33 | a block's date exists and lies from `start_date` to `start_date + 6 days` (Python's date order); its properties are stated by `WeekFilterMembers` |
| `WeekView.WeekFilter` | gestao/views.py:29-34 | the blocks kept by the loop, in input order, never more than were fetched; membership and order are stated by `WeekFilterMembers` and `WeekFilterAppend`, and `WeekBlocks` is proved equal to it |
| `WeekView.WeekFilterMembers` | gestao/views.py:29-34 | the week's list holds exactly the fetched blocks whose date lies from the start date to six days later |
| `WeekView.WeekFilterAppend` | gestao/views.py:29-34 | the week filter keeps input order (it distributes over concatenation) |
| `WeekView.WeekBlocks` | gestao/views.py:29-34 | the loop fails (ValueError) exactly when some fetched block has a date that does not exist; otherwise it returns the order-preserving week filter |
| `WeekView.OnDate` | gestao/views.py:51 | same day of month and month as the date, with the year not compared |
| `WeekView.DayFilter` | gestao/views.py:51 | the comprehension's list, never longer than the week's; membership and order are stated by `DayFilterMembers` and `DayFilterAppend` |
| `WeekView.DayFilterMembers` | gestao/views.py:51 | a day's list holds exactly the week's blocks with that day and month |
| `WeekView.DayFilterAppend` | gestao/views.py:51 | the day's list keeps input order |
| `WeekView.SplitPoint` | gestao/views.py:54 | the insertion point puts a block after every block starting no later than it and before every block starting later |
| `WeekView.InsertByStart` | gestao/views.py:54 | one step of the stable insertion sort; its properties are stated by `InsertByStartSorted`, `InsertByStartPermutes` and `InsertByStartStable` |
| `WeekView.SortByStart` | gestao/views.py:54 | `day_blocks.sort(key=start_time)`; `SortByStartSorts` and `SortByStartStable` state that it is Python's stable sort on the start time |
| `WeekView.InsertByStartSorted` | gestao/views.py:54 | inserting into a start-sorted list keeps it sorted |
| `WeekView.InsertByStartPermutes` | gestao/views.py:54 | insertion adds exactly the one block |
| `WeekView.SortByStartSorts` | gestao/views.py:54 | `sort(key=start_time)` yields a start-sorted permutation of the day's blocks |
| `WeekView.InsertByStartStable` | gestao/views.py:54 | insertion appends the block to the sub-list of its start minute and leaves every other sub-list as it was |
| `WeekView.SortByStartStable` | gestao/views.py:54 | the sort is stable: blocks sharing a start minute keep their input order |
| `WeekView.FirstOverlapping` | gestao/views.py:61-65 | the scan stops at the first group holding a block the new block overlaps, and no earlier group holds one |
| `WeekView.Place` | gestao/views.py:58-67 | one round of the grouping loop; `PlaceFirstMatch` states where the block goes |
| `WeekView.GroupAll` | gestao/views.py:57-67 | the groups built from a day's blocks; `GroupOverlaps` is proved equal to it, and `GroupAllPartitions`, `GroupAllNonEmpty`, `GroupAllSeparated` and `GroupAllChained` state what it yields |
| `WeekView.PlaceFirstMatch` | gestao/views.py:58-67 | a block joins the lowest-index overlapping group, or opens a new group at the end when it overlaps no group |
| `WeekView.GroupOverlaps` | gestao/views.py:57-67 | the loop with its `placed` flag and `break` computes the greedy grouping, and no group is empty |
| `WeekView.GroupAllPartitions` | gestao/views.py:57-67 | every block of the day lands in exactly one group |
| `WeekView.GroupAllNonEmpty` | gestao/views.py:57-67 | grouping never yields an empty group (so `95 / len(group)` never divides by zero) |
| `WeekView.GroupAllStartsBounded` | gestao/views.py:57-67 | grouping adds no block that was not in the input, so a bound on the input starts bounds every grouped block |
| `WeekView.PlaceSeparated` | gestao/views.py:58-67 | in start order, placing a block keeps earlier groups ending before later groups start |
| `WeekView.GroupAllSeparated` | gestao/views.py:54-67 | on a start-sorted day with start before end, every block of an earlier group ends no later than any block of a later group starts |
| `WeekView.GroupsDoNotOverlap` | gestao/views.py:54-67 | on such a day, no block overlaps a block of another group |
| `WeekView.PlaceChained` | gestao/views.py:61-65 | a block that joins a group overlaps a block already in it, so each later block of every group still overlaps an earlier block of that group |
| `WeekView.GroupAllChained` | gestao/views.py:57-67 | every block of a group after its first overlaps an earlier block of the same group; with `GroupsDoNotOverlap`, each group on a sorted day is one cluster of overlapping blocks |
| `WeekView.Position` | gestao/views.py:72-88 | the `top`, `height`, `width` and `left` of the `idx`-th block of a group of n; `GroupTiles`, `VerticalExtent`, `SideBySide` and `Above` state what they mean on the grid |
| `WeekView.PositionGroup` | gestao/views.py:72-89 | the `idx`-th block of a group of n gets top 48 + (start − 360)·0.5, height (end − start)·0.5, width 95/n and left 2.5 + idx·95/n |
| `WeekView.PositionAll` | gestao/views.py:70-89 | positioned blocks come in the order of the groups laid end to end, one per grouped block |
| `WeekView.PositionBlocks` | gestao/views.py:70-89 | the nested loops build exactly the positions `PositionAll` specifies; callers pass no empty group |
| `WeekView.TotalWidthConstant` | gestao/views.py:72 | n equal widths w add up to n·w |
| `WeekView.GroupContiguous` | gestao/views.py:72-88 | each block of a group starts where the previous one ends |
| `WeekView.GroupRightEdge` | gestao/views.py:72-88 | the last block of a group ends at 97.5% |
| `WeekView.GroupTotalWidth` | gestao/views.py:72-88 | the widths of a group add up to 95% |
| `WeekView.GroupTiles` | gestao/views.py:72-88 | a group tiles the column from 2.5% to 97.5% in equal, contiguous shares |
| `WeekView.VerticalExtent` | gestao/views.py:75-81 | the height is positive exactly when start < end, and one block's bottom edge is at or above another's top exactly when it ends no later than the other starts |
| `WeekView.SideBySide` | gestao/views.py:72-88 | two different blocks of one group are drawn without intersecting |
| `WeekView.Above` | gestao/views.py:75-81 | a block that ends before another starts is drawn above it |
| `WeekView.PositionAllOrigin` | gestao/views.py:70-89 | every positioned block is the position of some block of some group, at its index in that group |
| `WeekView.PairDisjoint` | gestao/views.py:70-89 | any two positioned blocks of separated groups are drawn without intersecting |
| `WeekView.AcrossGroups` | gestao/views.py:70-89 | a block of an earlier separated group is drawn above every block of the last group |
| `WeekView.PositionAllDisjoint` | gestao/views.py:70-89 | no two positioned blocks of separated groups intersect |
| `WeekView.LayoutDay` | gestao/views.py:50-91 | a date's blocks filtered, sorted, grouped and positioned; `LayoutDayBlocks` and `LayoutDayDisjoint` state that it shows each block once and without overlap |
| `WeekView.LayoutOneDay` | gestao/views.py:50-91 | one round of the day loop gives the i-th date of the week and the sorted, grouped and positioned blocks of that date |
| `WeekView.LayoutWeek` | gestao/views.py:49-91 | the day loop gives seven entries, the i-th for `start + i days` with that day's layout |
| `WeekView.Index` | gestao/views.py:29-91 | the view fails exactly when a fetched block has a nonexistent date; otherwise seven days, each laid out from the week-filtered blocks |
| `WeekView.LayoutDayBlocks` | gestao/views.py:51-91 | a day shows each of its blocks exactly once |
| `WeekView.LayoutDayDisjoint` | gestao/views.py:51-91 | when every block of a day starts before it ends, no two of its drawn rectangles intersect |
| `WeekView.EmployeeTasks` | gestao/views.py:128-139 | fails exactly when a fetched block has a nonexistent date; otherwise seven days, each with the week's blocks of that date in input order |
| `WeekView.AcceptedBlockStopsWeekView` | gestao/views.py:32 | a block on 31 February passes `clean` yet makes the week view's date construction fail |
| `WeekView.CleanDateKeepsWeekViewUp` | gestao/views.py:32 | blocks that pass the date-checking validation never make the week view fail |
| `WorkBlocks.Clean` | gestao/models.py:54-58 | day out of 1..31 is rejected first; then start ≥ end is rejected; everything else is accepted (each an if-and-only-if) |
| `WorkBlocks.CleanAcceptsNonexistentDate` | gestao/models.py:54-58 | `clean` accepts 31 February 2025, which is not a date |
| `WorkBlocks.CleanDate` | gestao/models.py:54-58 | accepts exactly the blocks on a real date with start before end; rejects what `clean` rejects with the same error, and the nonexistent dates besides |
| `WorkBlocks.RowsFor` | gestao/models.py:70 | the matching rows are exactly the assignments for the (employee, block) pair |
| `WorkBlocks.Get` | gestao/models.py:70 | `objects.get` returns a row only when it matches the pair |
| `WorkBlocks.GetUnique` | gestao/models.py:30-31 | under `unique_together`, `get` never finds several rows, finds none exactly when no row has the pair, and otherwise finds that row |
| `WorkBlocks.RowsForAtMostOne` | gestao/models.py:30-31 | under `unique_together` at most one row matches a pair |
| `WorkBlocks.EmployeeDuration` | gestao/models.py:67-73 | the employee's assignment duration when the assignment exists, otherwise the block's default duration |
| `WorkBlocks.IsEmployeeCompleted` | gestao/models.py:75-81 | the assignment's completion flag when it exists, otherwise false |
| `WorkBlocks.EmployeesConcluded` | gestao/models.py:60-65 | the employees with a completed assignment on the block; `ConcludedIffCompleted` relates it to `IsEmployeeCompleted` |
| `WorkBlocks.ConcludedIffCompleted` | gestao/models.py:60-81 | an employee is among `get_employees_concluded` exactly when `is_employee_completed` holds for them |
| `Calendar.ValidDate` | gestao/views.py:32 | the dates `datetime(year, month, day)` accepts (also at gestao/views.py:131 and gestao/admin.py:15): years 1..9999, months 1..12, a day the month has; `WeekBlocks` and `SaveModel` fail exactly outside it |
| `Calendar.DaysInMonth` | gestao/admin.py:17 | `monthrange`'s day count: 31 for the long months, 30 for the short ones, 29 in February exactly in leap years |
| `Calendar.NextDay` | gestao/views.py:50 | the next day is a valid date strictly after the given one |
| `Calendar.NextDayIsSuccessor` | gestao/views.py:50 | no valid date lies strictly between a date and its next day |
| `Calendar.AddDays` | gestao/views.py:20 | adding up to six days gives a valid date no earlier than the start, in the same year or early in January of the next |
| `Calendar.Weekday` | gestao/admin.py:16 | `weekday()` is between 0 and 6 |
| `Calendar.WeekdayMondayIsZero` | gestao/admin.py:16 | Monday 13 October 2025 has weekday 0 and the Sunday after it weekday 6, as `weekday()` numbers them |
| `Calendar.WeekdayEveryWeek` | gestao/admin.py:16-19 | moving a date forward by whole weeks keeps its weekday |
| `Recurrence.Candidates` | gestao/admin.py:18 | `range(day + 7, last + 1, 7)`: the k-th candidate is day + 7(k + 1), all lie after `day` and up to `last`, and there are (last − day)/7 of them |
| `Recurrence.CandidatesIncreasing` | gestao/admin.py:18 | the candidates come in increasing order |
| `Recurrence.CandidatesComplete` | gestao/admin.py:18 | every day after `day`, up to `last` and a whole number of weeks away is a candidate |
| `Recurrence.AtMostFourCandidates` | gestao/admin.py:17-18 | a block has at most four later occurrences in its month |
| `Recurrence.CandidatesShareWeekday` | gestao/admin.py:16-19 | every candidate is a real date of the month on the template's weekday, which the guard at line 19 intends but does not check |
| `Recurrence.ConstantAt` | gestao/admin.py:20-27 | the existence filter: a constant block on the day, in the template's month and year, with its start and end times |
| `Recurrence.ExistsConstantAt` | gestao/admin.py:20-27 | `.exists()` of that filter over the stored blocks |
| `Recurrence.Copy` | gestao/admin.py:29-41 | the block `objects.create` makes; `CopyFields` states how it differs from the template |
| `Recurrence.Step` | gestao/admin.py:19-42 | one round of the loop: nothing when a matching block exists, otherwise the copy with the template's employee set |
| `Recurrence.Expand` | gestao/admin.py:18-42 | the rounds for the candidate days in order; `ExpandConstant` is proved equal to it, and the `Expand…` lemmas state what it does |
| `Recurrence.CopyFields` | gestao/admin.py:29-41 | a copy equals the template except for the day and `hourly_value`, which takes its default 0; it matches the existence filter for its day exactly when the template is constant |
| `Recurrence.ExpandNext` | gestao/admin.py:18-42 | handling the candidates up to a day is handling those a week earlier, then that day |
| `Recurrence.ExpandKeepsExisting` | gestao/admin.py:18-42 | existing blocks and employee sets are never changed or removed; at most as many blocks are added as days are handled, each with an employee set |
| `Recurrence.ExpandOnePerDay` | gestao/admin.py:18-42 | for days in increasing order (as the candidates are), the added blocks lie on strictly increasing days, so no day gets more than one |
| `Recurrence.ExpandAddsCopies` | gestao/admin.py:29-42 | every added block is the template's copy for a candidate day, with the template's employee set |
| `Recurrence.ExpandCovers` | gestao/admin.py:20-41 | after expanding a constant template, every candidate day has a matching constant block |
| `Recurrence.ExpandCovered` | gestao/admin.py:20-28 | when every candidate day already has its block, nothing is added |
| `Recurrence.ExpandIdempotent` | gestao/admin.py:18-42 | expanding a constant template a second time creates nothing |
| `Recurrence.MatchIgnoresCopies` | gestao/admin.py:20-41 | copies added for other days neither satisfy the existence filter for a day nor lie on it |
| `Recurrence.ExpandCreatesIff` | gestao/admin.py:18-42 | a candidate day gets a new block exactly when no constant block with the template's key was there before |
| `Recurrence.AddedOnStep` | gestao/admin.py:20-41 | handling one day adds no block on another day |
| `Recurrence.BlockStore.SaveModel` | gestao/admin.py:12-42 | an edit replaces the row and nothing else; an add appends the block; a new constant block with a nonexistent date fails after being saved; otherwise the store becomes the expansion over the month's candidates |
| `Recurrence.BlockStore.ExpandConstant` | gestao/admin.py:15-42 | the loop, with its always-true weekday guard and existence check, leaves the store equal to the expansion over all candidate days |
| `DurationFilters.NatToString` | gestao/templatetags/duration_filters.py:24-26 | `str` of a natural number: at least one digit and no leading zero |
| `DurationFilters.NatToStringRoundTrip` | gestao/templatetags/duration_filters.py:24-26 | the digits read back as the number |
| `DurationFilters.Pad2RoundTrip` | gestao/templatetags/duration_filters.py:26 | `{m:02d}` has two digits that read back as `m` |
| `DurationFilters.DurationFormat` | gestao/templatetags/duration_filters.py:7-26 | `None` gives `0h`; otherwise whole hours, then two-digit minutes and `m` unless they are zero; `FormatParses`, `FormatTruncatesToMinutes` and `NoMinutesIff` state what the text means |
| `DurationFilters.DurationFormatJs` | gestao/templatetags/duration_filters.py:28-34 | delegates to `duration_format`; `FormatJsAgrees` states it |
| `DurationFilters.Minutes` | gestao/templatetags/duration_filters.py:19-20 | the minutes are the fraction of the hour times 60, truncated, and at most 59 |
| `DurationFilters.FormatJsAgrees` | gestao/templatetags/duration_filters.py:28-34 | `duration_format_js` returns what `duration_format` returns |
| `DurationFilters.FormatParses` | gestao/templatetags/duration_filters.py:12-26 | the formatted text reads back as the value's whole hours and whole minutes, through `ParseDuration`, a reader of the `Hh`/`HhMMm` shape defined here as the format's inverse (the source has no reader) |
| `DurationFilters.FormatTruncatesToMinutes` | gestao/templatetags/duration_filters.py:19-26 | the text shows minutes below 60 and a time at most the value and less than one minute short of it |
| `DurationFilters.FormatExactOnWholeMinutes` | gestao/templatetags/duration_filters.py:19-26 | on multiples of 0.05 h the shown hours and minutes make the value again |
| `DurationFilters.NoMinutesIff` | gestao/templatetags/duration_filters.py:23-24 | the minutes suffix is left out exactly when the fraction is 0.00 or 0.01 h |
| `DurationFilters.FormatDocumentedExamples` | gestao/templatetags/duration_filters.py:10 | 15.50 → `15h30m`, 2.25 → `2h15m`, 1.00 → `1h` |
| `DurationFilters.FormatEdgeExamples` | gestao/templatetags/duration_filters.py:12-26 | `None` → `0h`, 1.05 → `1h03m`, 0.01 → `0h` |

## Left out

- The database queries (gestao/views.py:23-27, :121-126) are not modelled. The rows they return are the `fetched` parameter. Their filters are therefore not modelled either: `archived=False`, the assigned employee, `year=year` and the month list. The `year` there is the view's argument, which gestao/views.py:19 reads as the ISO year. So a week that spans New Year fetches only the blocks whose calendar year equals that ISO year. For example, `year=2026, week=1` is the week from Monday 2025-12-29 to Sunday 2026-01-04: its January 2026 blocks are fetched and its December 2025 blocks are not. Conversely, the last ISO week of a year loses the next year's January blocks.
- The clock is not modelled. This covers `timezone.now`, the ISO-week arithmetic (`isocalendar`, `fromisocalendar`) that picks the start date, and the previous/next/current week navigation. The start date is a parameter. The source's default week pairs the calendar year with the ISO week number (gestao/views.py:16 and :117). On a day whose ISO year differs from its calendar year, such as 2025-12-29 (ISO week 1 of 2026), that pair names a week a year away. This is not part of this model.
- `login_required`, the employee lookup for the logged-in user, template rendering and the `time_slots` list are not modelled. They are presentation or framework concerns.
- Start dates in year 9999 are excluded. The seven days of such a week can run past `date.max`, where Python raises `OverflowError`.
- Seconds and microseconds of a `TimeField` are not modelled: the model assumes every time has zero seconds. `blocks_overlap` and the positions use hour and minute only (gestao/views.py:42-45, :75, :79). Three places in the source see the seconds:
  - the sort key at gestao/views.py:54, which is the whole `start_time`;
  - the comparison `start_time >= end_time` in `clean` at gestao/models.py:57;
  - the exact time match of the existence filter at gestao/admin.py:24-25.
  With non-zero seconds the model and the source can differ. Blocks starting at 09:00:40 and then 09:00:10 are reordered by the source, but keep input order in the model. A block from 09:00:10 to 09:00:50 passes `clean`, but the model's `Clean` rejects it, because start equals end in minutes.
- Floating-point rounding in `95 / len(group)` and the pixel arithmetic is not modelled. The geometry uses exact reals.
- `WeekView.LayoutDayDisjoint` assumes every block of the day starts before it ends. `clean` ensures this only when it is called. The admin path calls it; blocks created by `objects.create` are copies of a cleaned template.
- The assignment rows (`EmployeeWorkAssignment`) are not modelled in the admin store. The store keeps only the set of assigned employees per block.
- The set that gestao/admin.py:42 copies is always empty, and the model does not capture that:
  - The expansion runs only for a block being added (gestao/admin.py:14).
  - Django's admin saves the form's many-to-many data after `save_model` returns, so no assignment row can reference that block yet.
  - With a non-empty set, `set()` could not insert the rows anyway. `EmployeeWorkAssignment.duration` (gestao/models.py:25) has no default and is not nullable, and `set()` on a custom through model needs `through_defaults` for such fields.
  - The model takes the set as the `employees` parameter, so a non-empty `employees` in `SaveModel` and `ExpandAddsCopies` is a case the admin never produces.
- The transaction rollback of the admin request after the `ValueError` at gestao/admin.py:15 is not modelled. `SaveModel` reports `InvalidDate` with the block already stored, as `super().save_model` left it.
- Negative durations and values with more than two decimals are not modelled. The filters are modelled on non-negative hundredths, which is what a two-decimal `DecimalField` of hours holds in this app.
- Pay and billing (`hourly_value` beyond its default, clients, contracts) are outside this core.
- The model follows the code in places where one might expect otherwise:
  - Two blocks with the same day and times but a different name or client are the same block to the existence check at gestao/admin.py:20-27. It ignores name, localization, client and archived, so no copy is made.
  - A copy gets `hourly_value` 0.00 rather than the template's value, and no per-assignment durations (gestao/admin.py:29-42).
  - The weekday guard at gestao/admin.py:19 compares the template's date with itself, so it never skips a day. The candidates fall on the template's weekday only because they are whole weeks apart.
  - A very short block is drawn with its true height. There is no minimum height (gestao/views.py:81).
  - A block that overlaps blocks of two groups joins only the first. The groups are not merged. On a start-sorted day this cannot happen (`GroupsDoNotOverlap`).

## Findings

| source | as written | input that shows it | evidently intended | confidence | as-written member | corrected member |
|---|---|---|---|---|---|---|
| gestao/models.py:54-58 | `clean` checks only that the day is in 1..31 and that start is before end, so it accepts a day the month does not have; `datetime(...)` at gestao/views.py:32 and :131 and at gestao/admin.py:15 then raises `ValueError` for that block | a block on day 31, month 2, year 2025, 09:00-10:00 | reject blocks whose day, month and year do not form a date | not executed; high | `WorkBlocks.CleanAcceptsNonexistentDate`, `WeekView.AcceptedBlockStopsWeekView` | `WorkBlocks.CleanDate`, `WeekView.CleanDateKeepsWeekViewUp` |
