# Habit tracker core in Dafny

This project models the core of a small Flask habit tracker. That core is the
`Habit` class in `project.py`. The class keeps habits and their daily
completion marks in two SQLite tables (`habits` and `habit_tracker`), and it
computes two statistics from the marks:

- the current streak: the number of consecutive days, counting back from
  today, on which the habit was marked done;
- a heatmap grid: the trailing window `today-90 .. today` as 0/1 flags,
  cut into weeks of seven days and transposed into seven weekday rows.

Three modules, one per component:

- `StreakEngine` (`streak.dfy`). `ComputeStreak` is the streak loop, with its
  early `break`. It is proved equal to the recursive reference `Streak`.
  Lemmas then say what that number is: the length of the marked run that
  ends today.
- `Timeline` (`timeline.dfy`). `BuildTimeline`, `IntoWeeks` and `Transpose`
  are the three loops of the heatmap code. Each is proved equal to a
  reference function. The lemmas give the window, the week count and
  padding, the round trips (flattening the weeks, reading the grid's columns
  back), and the value of every grid cell.
- `HabitStore` (`store.dfy`). The two tables are maps from primary key to
  row, and each AUTOINCREMENT key has its own counter. The pure functions
  `AddHabit`, `DeleteHabit`, `MarkDone`, `UnmarkDone` and `ListHabits` give
  the effect of each SQL statement on a `Db` value. The class `Habit` holds
  the tables in its fields, and its methods are proved to change them
  exactly as those functions say. `WellFormed` is the integrity the schema
  enforces (unique names, at most one row per habit and date, ids below
  their counters), and every operation preserves it.

Modelling choices:

- Dates are day numbers (`int`). The stored ISO `YYYY-MM-DD` strings are
  taken as an injective encoding whose order is the chronological one, so
  `order by date DESC` gives a strictly descending sequence.
- "Today" is a parameter of every operation that reads the clock.
- `mark` and `unmark` take `date: Option<int>`. `None` stands for the
  missing or empty date that the code replaces with today.
- The code does not check that a habit exists before marking it. The
  foreign key is declared, but SQLite does not enforce it unless a pragma
  turns it on. So `MarkDone` accepts any habit id, and orphan marks can
  exist. `streak` and `habit_chart` select marks by habit id alone, so an
  id without a habit row still gets a streak and heatmap cells from its
  marks. `ListHabits` is driven by the `habits` table and lists no such id.
  When AUTOINCREMENT later hands that id to a new habit, the new habit
  inherits the orphan marks and counts them in `total_done`
  (`OrphanMarksInherited`).
- The code does not check that a name is non-empty. Only the `UNIQUE`
  constraint is modelled.
- `add` returns nothing in the code and raises on a duplicate name. The model
  returns `Failure(DuplicateName)` for the raise, and `Success(id)` with the
  id the row received.
- A mark dated after today comes first in the descending order and stops the
  streak loop at once. The streak is then 0 even if today is marked
  (`FutureMarkBreaksStreak`). The routes only ever mark today, so this
  happens only when the method is called with an explicit later date.
- `get_all` has no `order by`. The model lists rows in ascending id order,
  which is the order SQLite's `group by h.id` produces in practice.
- For an id with no habit row and no marks, `streak` gives 0 and the heatmap
  is all zeros. The code raises no error in either case, and neither does
  the model.

## Model

| member | source | states |
|---|---|---|
| `StreakEngine.StreakFrom` | project.py:105-110 | with `acc` days already counted, the walk ends between `acc` and `acc` plus the number of remaining dates |
| `StreakEngine.Streak` | project.py:98-111 | the streak is at most the number of marks (so 0 with no marks), and 0 when today is not marked, whatever older marks exist |
| `StreakEngine.ComputeStreak` | project.py:100-111 | the loop with its `break` returns exactly the reference streak, and never more than the number of dates |
| `StreakEngine.StreakFromRun` | project.py:105-110 | for descending dates none later than `today-acc`, every day from `today-acc` back to the end of the walk is marked, and the day where the walk stops is not |
| `StreakEngine.StreakIsRun` | project.py:99-110 | with no future marks, the streak `r` is the length of the run ending today: `today .. today-(r-1)` are marked, `today-r` is not |
| `StreakEngine.StreakValue` | project.py:105-110 | marks on `today .. today-(k-1)` and none on `today-k` give a streak of exactly `k`; runs after the gap are ignored |
| `StreakEngine.FutureMarkBreaksStreak` | project.py:103-110 | any mark dated after today makes the streak 0 |
| `StreakEngine.GapEndsStreak` | project.py:105-110 | marks on days 0, 1, 2, 4 with today = 4 give a streak of 1 |
| `Timeline.BuildTimeline` | project.py:182-192 | the day-by-day walk from `today-90` to today builds exactly the reference timeline |
| `Timeline.TimelineCoversWindow` | project.py:182-192 | the timeline has 91 entries on consecutive days from `today-90` to today, and the days it flags 1 are exactly the marked days inside that window |
| `Timeline.IntoWeeks` | project.py:195-203 | the bucketing loops build exactly the reference weeks: week `w`, day `j` is the status at `7w+j`, or 0 past the end |
| `Timeline.WeeksPartitionTimeline` | project.py:195-203 | every week has 7 entries, there are `n/7` rounded up of them, and laid end to end they are the timeline's statuses followed by zero padding |
| `Timeline.WindowWeeks` | project.py:183-203 | the 91-day window gives 13 weeks with no padding cell |
| `Timeline.Transpose` | project.py:206-211 | the transpose loops build exactly the reference grid: row `r`, column `c` is day `r` of week `c` |
| `Timeline.TransposeRoundTrip` | project.py:206-211 | for any list of full weeks, including none, the grid has 7 rows of one cell per week, and reading its columns back gives the weeks again |
| `Timeline.BuildHeatmap` | project.py:177-211 | the heatmap grid has 7 rows of 13 cells, and cell `(r, c)` is 1 exactly when day `today-90+7c+r` is marked |
| `Timeline.HeatmapCells` | project.py:177-211 | the cell formula above, for the reference grid |
| `Timeline.AllMarkedAllOnes` | project.py:185-211 | every day of the window marked gives an all-1 grid |
| `Timeline.NoMarksAllZeros` | project.py:185-211 | no day of the window marked gives an all-0 grid |
| `HabitStore.AddHabit` | project.py:39-46 | adding fails exactly when the name is taken, and then changes nothing; otherwise it inserts the habit, created today, under the next AUTOINCREMENT id (never used before), touches no mark, and keeps the store well formed |
| `HabitStore.MarkDone` | project.py:66-74 | the marks become the old marks plus `(h, d)`; existing rows are untouched, any new row holds `(h, d)`, habits and the habit id counter are unchanged, uniqueness is kept |
| `HabitStore.UnmarkDone` | project.py:77-85 | the marks become the old marks less `(h, d)`; only rows holding `(h, d)` go; an absent mark leaves the store unchanged; habits and the habit id counter are unchanged |
| `HabitStore.DeleteHabit` | project.py:49-57 | the habit and every tracker row of it are removed; every other habit and every other row is kept unchanged, and both AUTOINCREMENT counters stay where they were |
| `HabitStore.ListHabits` | project.py:88-95 | one row per habit, in ascending id order, with every habit present, each carrying the habit's columns and its number of tracker rows |
| `HabitStore.DescendingOf` | project.py:103 | the selected dates come out strictly descending, each date exactly once |
| `HabitStore.StreakOfMarkedDays` | project.py:103-111 | walking a habit's marked days newest first gives a streak no larger than their number; with no future marks it is the length of the marked run ending today; any future mark makes it 0 |
| `HabitStore.RowCountIsMarkedDays` | project.py:27-35 | under `UNIQUE (habit_id, date)` a habit's number of tracker rows equals its number of distinct marked days |
| `HabitStore.TotalDoneIsMarkedDays` | project.py:92 | `total_done` is the number of distinct days the habit was marked |
| `HabitStore.UnmarkedHabitListed` | project.py:92 | a habit with no marks is listed, with `total_done = 0` |
| `HabitStore.OrphanMarksInherited` | project.py:66-74 | a mark for id 1 made before any habit exists is counted, as `total_done = 1`, for the habit that then receives id 1 |
| `HabitStore.AddSameNameTwice` | project.py:39-46 | adding a name twice: the second add fails and leaves the store as it was, and exactly one habit carries the name |
| `HabitStore.DeleteFreesName` | project.py:49-57 | after a habit is deleted, adding its name again succeeds |
| `HabitStore.DeletedIdNotReused` | project.py:20-22 | after a habit is deleted, the next add never receives its id, even if an orphan mark for that id was made after the delete |
| `HabitStore.DeleteLeavesOthers` | project.py:52-57 | after a delete the habit has no marked day, and every other habit keeps its row and its marked days |
| `HabitStore.MarkIdempotent` | project.py:66-74 | marking twice equals marking once, and afterwards exactly one row holds the mark |
| `HabitStore.UnmarkAfterMark` | project.py:77-85 | unmark after mark leaves the old marks less that day, and exactly the old marks if it was not marked |
| `HabitStore.Habit.constructor` | project.py:11-37 | on a fresh database file the store starts with both tables empty and well formed |
| `HabitStore.Habit.Open` | project.py:11-37 | on an existing database file `CREATE TABLE IF NOT EXISTS` keeps the rows and counters already there: the store starts in that well-formed state |
| `HabitStore.Habit.Add` | project.py:39-46 | the new state and the result are those of `AddHabit` on the old state |
| `HabitStore.Habit.Delete` | project.py:49-63 | the new state is `DeleteHabit` of the old state |
| `HabitStore.Habit.Mark` | project.py:66-74 | the new state is `MarkDone` of the old state, on the given date or on today when none is given |
| `HabitStore.Habit.Unmark` | project.py:77-85 | the new state is `UnmarkDone` of the old state, on the given date or on today when none is given |
| `HabitStore.Habit.GetAll` | project.py:88-95 | returns `ListHabits` of the current tables and changes nothing: one row per habit, in ascending id order, every habit present, each carrying the habit's columns and its number of tracker rows |
| `HabitStore.Habit.Streak` | project.py:98-111 | the streak is at most the habit's number of marked days; with no future marks it is the length of the marked run ending today; any future mark makes it 0 |
| `HabitStore.Habit.HabitChart` | project.py:160-211 | the grid of the habit's marked dates: 7 rows of 13 cells, cell `(r, c)` being 1 exactly when day `today-90+7c+r` is marked |

## Left out

- Flask routes and application start-up (`project.py` lines 7 and 264-331). The `index` route only combines `get_all` with `streak`.
- `generate_chart` and all plotly figure building and PNG writing. These are foreign library calls that only pass the computed lists through.
- The heatmap's row labels. They are a fixed list starting at Saturday. They are not derived from the weekday of `today - 90`, so rows are mislabelled whenever that day is not a Saturday.
- SQLite connections, cursors, commits and `_create_tables`. The abstract tables of `Db` stand in for them. So does the database file name: `habit_chart` opens `habits.db` directly instead of `self.db_name`.
- The clock (`datetime.date.today()`). Today is a parameter.
- The exception handler in `delete`: printing, rollback, and swallowing the error. `DeleteHabit` is total, because both deletes always succeed on the abstract tables.
- `Timeline.BuildTimeline`, `Timeline.TimelineCoversWindow`, `Timeline.BuildHeatmap` and `HabitStore.Habit.HabitChart` build a 91-day timeline and a 7×13 grid for every day number, because day numbers are unbounded. Python dates are bounded, and the code raises `OverflowError` at either end of their range. It raises at `today - 90 days` when today is before 0001-04-01 (line 183). It raises at the final `current_date += 1 day` when today is 9999-12-31 (line 192). Neither error is modelled.
- Date string parsing and formatting (`fromisoformat`, `strftime`). They are abstracted as an injective day-number encoding.
- Foreign-key cascade. It is declared in the schema but not enforced, so it is not modelled. `delete` removes the marks itself.
