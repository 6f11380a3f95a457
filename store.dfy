/**
 Persistence store of the habit tracker and the queries the pages use.

 The two tables are modelled as maps from primary key to row: `habits`
 (id -> habit) and `habit_tracker` (row id -> (habit id, date)), each with
 its AUTOINCREMENT counter. The pure functions on `Db` below are the
 specification of every statement the store runs; the class `Habit` holds the
 tables in its fields and its methods are proved to move the state exactly as
 those functions say.

 Dates are day numbers (`int`), "today" is a parameter, and the stored ISO
 date strings are taken as an injective encoding of day numbers whose order is
 the chronological one.
 */
module HabitStore {
  import opened StreakEngine
  import opened Timeline

  datatype Option<T> = None | Some(value: T)

  datatype Result<T, E> = Success(value: T) | Failure(error: E)

  /** The constraint violation `add` raises: `name` is declared UNIQUE. */
  datatype StoreError = DuplicateName

  /** A row of the `habits` table. */
  datatype HabitRecord = HabitRecord(id: int, name: string, description: string, createdDate: int)

  /** A row of the `habit_tracker` table, less its own id (the key it is stored under). */
  datatype Completion = Completion(habitId: int, date: int)

  /** A row of the summary query: the habit's columns and its completion count. */
  datatype HabitSummary = HabitSummary(id: int, name: string, description: string, createdDate: int, totalDone: nat)

  /** The database: both tables and the next id each AUTOINCREMENT key hands out. */
  datatype Db = Db(habits: map<int, HabitRecord>, tracker: map<int, Completion>, nextHabitId: int, nextMarkId: int)

  /** The freshly created database: both tables empty, ids starting at 1. */
  const EmptyDb: Db := Db(map[], map[], 1, 1)

  /** `UNIQUE (habit_id, date)`: no two tracker rows hold the same mark. */
  predicate UniqueMarks(tracker: map<int, Completion>) {
    forall r1, r2 :: r1 in tracker && r2 in tracker && tracker[r1] == tracker[r2] ==> r1 == r2
  }

  /** `name TEXT NOT NULL UNIQUE`: no two habits share a name. */
  predicate UniqueNames(habits: map<int, HabitRecord>) {
    forall i1, i2 :: i1 in habits && i2 in habits && habits[i1].name == habits[i2].name ==> i1 == i2
  }

  /** The integrity the schema enforces. Marks of unknown habits are allowed:
      the foreign key is declared but sqlite does not enforce it by default. */
  predicate WellFormed(db: Db) {
    && db.nextHabitId >= 1
    && db.nextMarkId >= 1
    && (forall id :: id in db.habits ==> db.habits[id].id == id && 1 <= id < db.nextHabitId)
    && (forall rid :: rid in db.tracker ==> 1 <= rid < db.nextMarkId)
    && UniqueNames(db.habits)
    && UniqueMarks(db.tracker)
  }

  predicate NameTaken(habits: map<int, HabitRecord>, name: string) {
    exists id :: id in habits && habits[id].name == name
  }

  /** The marks the tracker table holds. */
  function Completions(tracker: map<int, Completion>): set<Completion> {
    set rid | rid in tracker :: tracker[rid]
  }

  lemma CompletionsInsert(tracker: map<int, Completion>, rid: int, c: Completion)
    requires rid !in tracker
    ensures Completions(tracker[rid := c]) == Completions(tracker) + {c}
  {
    var after := tracker[rid := c];
    forall x | x in Completions(tracker) ensures x in Completions(after) {
      var k :| k in tracker && tracker[k] == x;
      assert after[k] == x;
    }
    assert after[rid] == c;
  }

  lemma CompletionsRemove(tracker: map<int, Completion>, c: Completion)
    ensures Completions(map rid | rid in tracker && tracker[rid] != c :: tracker[rid]) == Completions(tracker) - {c}
  {
    var after := map rid | rid in tracker && tracker[rid] != c :: tracker[rid];
    forall x | x in Completions(tracker) && x != c ensures x in Completions(after) {
      var k :| k in tracker && tracker[k] == x;
      assert after[k] == x;
    }
  }

  /** Ids of the tracker rows of habit `h`. */
  function RowsOf(tracker: map<int, Completion>, h: int): set<int> {
    set rid | rid in tracker && tracker[rid].habitId == h
  }

  /** Dates on which habit `h` is marked done. */
  function DatesOf(tracker: map<int, Completion>, h: int): set<int> {
    set rid | rid in tracker && tracker[rid].habitId == h :: tracker[rid].date
  }

  /** `INSERT INTO habits`: a new habit created today under the next id,
      unless the name is taken, in which case nothing changes. */
  function AddHabit(db: Db, name: string, description: string, today: int): (r: (Db, Result<int, StoreError>))
    requires WellFormed(db)
    ensures WellFormed(r.0)
    ensures r.1.Failure? <==> NameTaken(db.habits, name)
    ensures r.1.Failure? ==> r.0 == db && r.1.error == DuplicateName
    ensures r.1.Success? ==>
              && r.1.value == db.nextHabitId
              && r.1.value !in db.habits
              && r.0.habits == db.habits[r.1.value := HabitRecord(r.1.value, name, description, today)]
              && r.0.tracker == db.tracker
  {
    if NameTaken(db.habits, name) then (db, Failure(DuplicateName))
    else
      var id := db.nextHabitId;
      (db.(habits := db.habits[id := HabitRecord(id, name, description, today)], nextHabitId := id + 1), Success(id))
  }

  /** `INSERT OR IGNORE INTO habit_tracker`: a new row for the mark unless the
      UNIQUE constraint finds it already there. */
  function MarkDone(db: Db, h: int, d: int): (r: Db)
    requires WellFormed(db)
    ensures WellFormed(r)
    ensures Completions(r.tracker) == Completions(db.tracker) + {Completion(h, d)}
    ensures forall rid :: rid in db.tracker ==> rid in r.tracker && r.tracker[rid] == db.tracker[rid]
    ensures forall rid :: rid in r.tracker && rid !in db.tracker ==> r.tracker[rid] == Completion(h, d)
    ensures r.habits == db.habits && r.nextHabitId == db.nextHabitId
  {
    if Completion(h, d) in Completions(db.tracker) then db
    else
      CompletionsInsert(db.tracker, db.nextMarkId, Completion(h, d));
      db.(tracker := db.tracker[db.nextMarkId := Completion(h, d)], nextMarkId := db.nextMarkId + 1)
  }

  lemma RemoveAbsent(tracker: map<int, Completion>, c: Completion)
    ensures c !in Completions(tracker) ==> (map rid | rid in tracker && tracker[rid] != c :: tracker[rid]) == tracker
  {
    if c !in Completions(tracker) {
      forall rid | rid in tracker ensures tracker[rid] != c {
        assert tracker[rid] in Completions(tracker);
      }
    }
  }

  /** `DELETE FROM habit_tracker WHERE habit_id = ? AND date = ?`. */
  function UnmarkDone(db: Db, h: int, d: int): (r: Db)
    requires WellFormed(db)
    ensures WellFormed(r)
    ensures Completions(r.tracker) == Completions(db.tracker) - {Completion(h, d)}
    ensures forall rid :: rid in r.tracker <==> rid in db.tracker && db.tracker[rid] != Completion(h, d)
    ensures forall rid :: rid in r.tracker ==> r.tracker[rid] == db.tracker[rid]
    ensures Completion(h, d) !in Completions(db.tracker) ==> r == db
    ensures r.habits == db.habits && r.nextHabitId == db.nextHabitId
  {
    CompletionsRemove(db.tracker, Completion(h, d));
    RemoveAbsent(db.tracker, Completion(h, d));
    db.(tracker := map rid | rid in db.tracker && db.tracker[rid] != Completion(h, d) :: db.tracker[rid])
  }

  /** The two deletes of `delete`: first the habit's tracker rows, then the habit. */
  function DeleteHabit(db: Db, h: int): (r: Db)
    requires WellFormed(db)
    ensures WellFormed(r)
    ensures h !in r.habits && RowsOf(r.tracker, h) == {}
    ensures forall g :: g in r.habits <==> g in db.habits && g != h
    ensures forall g :: g in r.habits ==> r.habits[g] == db.habits[g]
    ensures forall rid :: rid in r.tracker <==> rid in db.tracker && db.tracker[rid].habitId != h
    ensures forall rid :: rid in r.tracker ==> r.tracker[rid] == db.tracker[rid]
    ensures r.nextHabitId == db.nextHabitId && r.nextMarkId == db.nextMarkId
  {
    var withoutMarks := db.(tracker := map rid | rid in db.tracker && db.tracker[rid].habitId != h :: db.tracker[rid]);
    withoutMarks.(habits := withoutMarks.habits - {h})
  }

  /** The summary row of habit `id`: its columns and `count(t.id)` over its tracker rows. */
  function Summary(db: Db, id: int): HabitSummary
    requires id in db.habits
  {
    var h := db.habits[id];
    HabitSummary(id, h.name, h.description, h.createdDate, |RowsOf(db.tracker, id)|)
  }

  /** The summary rows of the habits `ids`, taken from the last id to the first. */
  function SummariesOf(db: Db, ids: seq<int>): (rows: seq<HabitSummary>)
    requires forall k :: 0 <= k < |ids| ==> ids[k] in db.habits
    ensures |rows| == |ids|
    ensures forall i :: 0 <= i < |rows| ==> rows[i] == Summary(db, ids[|ids| - 1 - i])
  {
    if |ids| == 0 then [] else SummariesOf(db, ids[1..]) + [Summary(db, ids[0])]
  }

  /** `get_all`: the left join of habits with their tracker rows grouped by
      `h.id`: one row per habit in id order, habits without marks included,
      each carrying the habit's columns and the number of its tracker rows. */
  function ListHabits(db: Db): (rows: seq<HabitSummary>)
    ensures |rows| == |db.habits|
    ensures forall i :: 0 <= i < |rows| ==> rows[i].id in db.habits && rows[i] == Summary(db, rows[i].id)
    ensures forall id :: id in db.habits ==> exists i :: 0 <= i < |rows| && rows[i].id == id
    ensures forall i, j :: 0 <= i < j < |rows| ==> rows[i].id < rows[j].id
  {
    // `DescendingOf` lists the ids largest first and `SummariesOf` emits them
    // from the last to the first, so the rows come out in ascending id order.
    var ids := DescendingOf(db.habits.Keys);
    ListedInIdOrder(db, ids);
    SummariesOf(db, ids)
  }

  lemma ListedInIdOrder(db: Db, ids: seq<int>)
    requires ids == DescendingOf(db.habits.Keys)
    ensures forall k :: 0 <= k < |ids| ==> ids[k] in db.habits
    ensures |SummariesOf(db, ids)| == |db.habits|
    ensures forall i :: 0 <= i < |SummariesOf(db, ids)| ==>
              SummariesOf(db, ids)[i].id in db.habits && SummariesOf(db, ids)[i] == Summary(db, SummariesOf(db, ids)[i].id)
    ensures forall id :: id in db.habits ==> exists i :: 0 <= i < |SummariesOf(db, ids)| && SummariesOf(db, ids)[i].id == id
    ensures forall i, j :: 0 <= i < j < |SummariesOf(db, ids)| ==> SummariesOf(db, ids)[i].id < SummariesOf(db, ids)[j].id
  {
    IdsAreHabits(db, ids);
    assert |db.habits| == |db.habits.Keys|;
    RowIdsReversed(db, ids);
    forall id | id in db.habits ensures id in ids {
      assert id in db.habits.Keys;
    }
    EveryIdListed(db, ids, SummariesOf(db, ids));
    IdsAscending(db, ids);
  }

  lemma IdsAreHabits(db: Db, ids: seq<int>)
    requires ids == DescendingOf(db.habits.Keys)
    ensures forall k :: 0 <= k < |ids| ==> ids[k] in db.habits
  {
    forall k | 0 <= k < |ids| ensures ids[k] in db.habits {
      assert ids[k] in ids;
    }
  }

  lemma EveryIdListed(db: Db, ids: seq<int>, rows: seq<HabitSummary>)
    requires forall id :: id in db.habits ==> id in ids
    requires |rows| == |ids|
    requires forall i :: 0 <= i < |ids| ==> rows[i].id == ids[|ids| - 1 - i]
    ensures forall id :: id in db.habits ==> exists i :: 0 <= i < |rows| && rows[i].id == id
  {
    forall id | id in db.habits
      ensures exists i :: 0 <= i < |rows| && rows[i].id == id
    {
      var k :| 0 <= k < |ids| && ids[k] == id;
      assert rows[|ids| - 1 - k].id == id;
    }
  }

  lemma IdsAscending(db: Db, ids: seq<int>)
    requires StrictlyDescending(ids)
    requires forall k :: 0 <= k < |ids| ==> ids[k] in db.habits
    requires forall i :: 0 <= i < |ids| ==> SummariesOf(db, ids)[i].id == ids[|ids| - 1 - i]
    ensures forall i, j :: 0 <= i < j < |SummariesOf(db, ids)| ==> SummariesOf(db, ids)[i].id < SummariesOf(db, ids)[j].id
  {
    var rows := SummariesOf(db, ids);
    forall i, j | 0 <= i < j < |rows| ensures rows[i].id < rows[j].id {
      assert rows[i].id == ids[|ids| - 1 - i];
      assert rows[j].id == ids[|ids| - 1 - j];
    }
  }

  lemma RowIdsReversed(db: Db, ids: seq<int>)
    requires forall k :: 0 <= k < |ids| ==> ids[k] in db.habits
    ensures forall i :: 0 <= i < |ids| ==> SummariesOf(db, ids)[i].id == ids[|ids| - 1 - i]
    ensures forall i :: 0 <= i < |ids| ==> SummariesOf(db, ids)[i] == Summary(db, SummariesOf(db, ids)[i].id)
  {
    forall i | 0 <= i < |ids| ensures SummariesOf(db, ids)[i].id == ids[|ids| - 1 - i] {
      assert SummariesOf(db, ids)[i] == Summary(db, ids[|ids| - 1 - i]);
    }
  }

  /** Taking one row out of the tracker: how the habit's row ids change. */
  lemma RowsWithout(tracker: map<int, Completion>, rid: int, h: int)
    requires rid in tracker
    ensures tracker[rid].habitId == h ==> RowsOf(tracker, h) == RowsOf(tracker - {rid}, h) + {rid} && rid !in RowsOf(tracker - {rid}, h)
    ensures tracker[rid].habitId != h ==> RowsOf(tracker, h) == RowsOf(tracker - {rid}, h)
  {
  }

  /** Taking one row out of the tracker: how the habit's marked days change. */
  lemma DatesWithout(tracker: map<int, Completion>, rid: int, h: int)
    requires UniqueMarks(tracker) && rid in tracker
    ensures tracker[rid].habitId == h ==>
              DatesOf(tracker, h) == DatesOf(tracker - {rid}, h) + {tracker[rid].date}
              && tracker[rid].date !in DatesOf(tracker - {rid}, h)
    ensures tracker[rid].habitId != h ==> DatesOf(tracker, h) == DatesOf(tracker - {rid}, h)
  {
    var rest := tracker - {rid};
    forall x | x in DatesOf(tracker, h)
      ensures x in DatesOf(rest, h) || (tracker[rid].habitId == h && x == tracker[rid].date)
    {
      var k :| k in tracker && tracker[k].habitId == h && tracker[k].date == x;
      if k != rid {
        assert rest[k] == tracker[k];
      }
    }
    forall x | x in DatesOf(rest, h) ensures x in DatesOf(tracker, h) {
      var k :| k in rest && rest[k].habitId == h && rest[k].date == x;
      assert tracker[k] == rest[k];
    }
    if tracker[rid].habitId == h {
      assert tracker[rid].date in DatesOf(tracker, h);
    }
  }

  /** Under `UNIQUE (habit_id, date)` a habit's row count is its number of marked days. */
  lemma {:induction false} RowCountIsMarkedDays(tracker: map<int, Completion>, h: int)
    requires UniqueMarks(tracker)
    ensures |RowsOf(tracker, h)| == |DatesOf(tracker, h)|
    decreases |tracker|
  {
    if tracker.Keys != {} {
      NonEmptyHasElement(tracker.Keys);
      var rid :| rid in tracker.Keys;
      var rest := tracker - {rid};
      assert |rest| == |tracker| - 1;
      RowCountIsMarkedDays(rest, h);
      RowsWithout(tracker, rid, h);
      DatesWithout(tracker, rid, h);
    } else {
      assert RowsOf(tracker, h) == {};
      assert DatesOf(tracker, h) == {};
    }
  }

  /** The count the summary reports is the number of distinct days the habit was marked. */
  lemma TotalDoneIsMarkedDays(db: Db, id: int)
    requires WellFormed(db) && id in db.habits
    ensures Summary(db, id).totalDone == |DatesOf(db.tracker, id)|
  {
    RowCountIsMarkedDays(db.tracker, id);
  }

  /** A habit never marked is still listed, with a count of 0 (left join, not inner join). */
  lemma UnmarkedHabitListed(db: Db, id: int)
    requires id in db.habits && RowsOf(db.tracker, id) == {}
    ensures exists i :: 0 <= i < |ListHabits(db)| && ListHabits(db)[i].id == id && ListHabits(db)[i].totalDone == 0
  {
    var rows := ListHabits(db);
    var i :| 0 <= i < |rows| && rows[i].id == id;
    assert rows[i] == Summary(db, id);
  }

  /** Marks are not tied to an existing habit: a mark made for id 1 before any
      habit exists is counted for the habit that AUTOINCREMENT later gives id 1. */
  lemma OrphanMarksInherited(name: string, description: string, today: int)
    ensures var (db, r) := AddHabit(MarkDone(EmptyDb, 1, today), name, description, today);
            && r == Success(1)
            && |ListHabits(db)| == 1
            && ListHabits(db)[0].id == 1
            && ListHabits(db)[0].totalDone == 1
  {
    var marked := MarkDone(EmptyDb, 1, today);
    assert marked.tracker == map[1 := Completion(1, today)];
    var (db, r) := AddHabit(marked, name, description, today);
    assert db.habits.Keys == {1};
    assert RowsOf(db.tracker, 1) == {1};
    var rows := ListHabits(db);
    assert rows[0] == Summary(db, rows[0].id);
  }

  /** Adding a name twice: the second add fails, leaves the store as the first
      left it, and exactly one habit carries the name. */
  lemma AddSameNameTwice(db: Db, name: string, d1: string, d2: string, today: int)
    requires WellFormed(db) && !NameTaken(db.habits, name)
    ensures var (db1, r1) := AddHabit(db, name, d1, today);
            && r1.Success?
            && AddHabit(db1, name, d2, today) == (db1, Failure(DuplicateName))
            && forall id :: id in db1.habits && db1.habits[id].name == name <==> id == r1.value
  {
    var (db1, r1) := AddHabit(db, name, d1, today);
    assert db1.habits[r1.value].name == name;
  }

  /** Deleting a habit frees its name: adding it again succeeds. */
  lemma DeleteFreesName(db: Db, h: int, description: string, today: int)
    requires WellFormed(db) && h in db.habits
    ensures AddHabit(DeleteHabit(db, h), db.habits[h].name, description, today).1.Success?
  {
  }

  /** AUTOINCREMENT never hands out a deleted habit's id again, not even when
      an orphan mark for that id was made after the delete. */
  lemma DeletedIdNotReused(db: Db, h: int, d: int, name: string, description: string, today: int)
    requires WellFormed(db) && h in db.habits
    ensures var r := AddHabit(DeleteHabit(db, h), name, description, today).1;
            r.Success? ==> r.value != h
    ensures var r := AddHabit(MarkDone(DeleteHabit(db, h), h, d), name, description, today).1;
            r.Success? ==> r.value != h
  {
  }

  /** After a delete no mark of the habit remains, and every other habit keeps
      its row and its marked days. */
  lemma DeleteLeavesOthers(db: Db, h: int, g: int)
    requires WellFormed(db) && g != h
    ensures DatesOf(DeleteHabit(db, h).tracker, h) == {}
    ensures DatesOf(DeleteHabit(db, h).tracker, g) == DatesOf(db.tracker, g)
    ensures g in db.habits ==> g in DeleteHabit(db, h).habits && DeleteHabit(db, h).habits[g] == db.habits[g]
  {
    var t := DeleteHabit(db, h).tracker;
    forall d | d in DatesOf(db.tracker, g) ensures d in DatesOf(t, g) {
      var rid :| rid in db.tracker && db.tracker[rid].habitId == g && db.tracker[rid].date == d;
      assert rid in t;
    }
  }

  /** Marking is idempotent, and after it exactly one tracker row holds the mark. */
  lemma MarkIdempotent(db: Db, h: int, d: int)
    requires WellFormed(db)
    ensures MarkDone(MarkDone(db, h, d), h, d) == MarkDone(db, h, d)
    ensures |set rid | rid in MarkDone(db, h, d).tracker && MarkDone(db, h, d).tracker[rid] == Completion(h, d)| == 1
  {
    var t := MarkDone(db, h, d).tracker;
    assert Completion(h, d) in Completions(t);
    var rid :| rid in t && t[rid] == Completion(h, d);
    var holders := set r | r in t && t[r] == Completion(h, d);
    forall r | r in holders ensures r == rid {
      assert t[r] == t[rid];
    }
    assert holders == {rid};
  }

  /** Unmarking undoes marking: the marks are back to what they were, less the day. */
  lemma UnmarkAfterMark(db: Db, h: int, d: int)
    requires WellFormed(db)
    ensures Completions(UnmarkDone(MarkDone(db, h, d), h, d).tracker) == Completions(db.tracker) - {Completion(h, d)}
    ensures Completion(h, d) !in Completions(db.tracker) ==> Completions(UnmarkDone(MarkDone(db, h, d), h, d).tracker) == Completions(db.tracker)
  {
  }

  lemma NonEmptyHasElement(s: set<int>)
    requires s != {}
    ensures exists x :: x in s
  {
    if forall x :: x !in s {
      assert false;
    }
  }

  /** The largest element of a non-empty set of dates. */
  function MaxOf(s: set<int>): (m: int)
    requires s != {}
    ensures m in s && forall x :: x in s ==> x <= m
  {
    MaxExists(s);
    var m :| m in s && forall x :: x in s ==> x <= m;
    m
  }

  lemma {:induction false} MaxExists(s: set<int>)
    requires s != {}
    ensures exists m :: m in s && forall x :: x in s ==> x <= m
    decreases |s|
  {
    NonEmptyHasElement(s);
    var y :| y in s;
    if s != {y} {
      var rest := s - {y};
      MaxExists(rest);
      var m :| m in rest && forall x :: x in rest ==> x <= m;
      var top := if y > m then y else m;
      forall x | x in s ensures x <= top {
        if x != y {
          assert x in rest;
        }
      }
      assert top in s;
    } else {
      assert forall x :: x in s ==> x <= y;
    }
  }

  /** `order by date DESC` on a habit's (distinct) dates. */
  function DescendingOf(s: set<int>): (r: seq<int>)
    ensures StrictlyDescending(r)
    ensures |r| == |s|
    ensures forall d :: d in r <==> d in s
    decreases |s|
  {
    if s == {} then []
    else
      var m := MaxOf(s);
      [m] + DescendingOf(s - {m})
  }

  /** What a streak `s` of the marked days `marked` means: at most their
      number; with none in the future, the length of the run ending today
      (`today, …, today-(s-1)` marked, `today-s` not); with one in the future, 0. */
  predicate IsStreakOf(marked: set<int>, today: int, s: nat) {
    && s <= |marked|
    && ((forall d :: d in marked ==> d <= today) ==>
          (forall d :: today - s < d <= today ==> d in marked) && today - s !in marked)
    && ((exists d :: d in marked && d > today) ==> s == 0)
  }

  /** The streak loop over the marked days, newest first, computes their streak. */
  lemma StreakOfMarkedDays(marked: set<int>, dates: seq<int>, today: int)
    requires StrictlyDescending(dates) && |dates| == |marked|
    requires forall d :: d in dates <==> d in marked
    ensures IsStreakOf(marked, today, StreakEngine.Streak(dates, today))
  {
    if forall d :: d in marked ==> d <= today {
      forall k | 0 <= k < |dates| ensures dates[k] <= today {
        assert dates[k] in marked;
      }
      StreakIsRun(dates, today);
    } else {
      var d :| d in marked && d > today;
      assert d in dates;
      var j :| 0 <= j < |dates| && dates[j] == d;
      FutureMarkBreaksStreak(dates, today, j);
    }
  }

  /** The store object: the tables live in its fields, and each method changes
      them exactly as the matching function on `Db` does. */
  class Habit {
    var habits: map<int, HabitRecord>
    var tracker: map<int, Completion>
    var nextHabitId: int
    var nextMarkId: int

    function State(): Db
      reads this
    {
      Db(habits, tracker, nextHabitId, nextMarkId)
    }

    ghost predicate Valid()
      reads this
    {
      WellFormed(State())
    }

    /** Creating the tables in a fresh database file: both start empty. */
    constructor ()
      ensures Valid() && State() == EmptyDb
    {
      habits, tracker := map[], map[];
      nextHabitId, nextMarkId := 1, 1;
    }

    /** Opening an existing database file: `CREATE TABLE IF NOT EXISTS` keeps
        the rows and counters earlier runs left. */
    constructor Open(db: Db)
      requires WellFormed(db)
      ensures Valid() && State() == db
    {
      habits, tracker := db.habits, db.tracker;
      nextHabitId, nextMarkId := db.nextHabitId, db.nextMarkId;
    }

    method Add(name: string, description: string, today: int) returns (result: Result<int, StoreError>)
      requires Valid()
      modifies this
      ensures Valid()
      ensures (State(), result) == AddHabit(old(State()), name, description, today)
    {
      if NameTaken(habits, name) {
        result := Failure(DuplicateName);
      } else {
        var id := nextHabitId;
        habits := habits[id := HabitRecord(id, name, description, today)];
        nextHabitId := id + 1;
        result := Success(id);
      }
    }

    method Delete(habitId: int)
      requires Valid()
      modifies this
      ensures Valid()
      ensures State() == DeleteHabit(old(State()), habitId)
    {
      tracker := map rid | rid in tracker && tracker[rid].habitId != habitId :: tracker[rid];
      habits := habits - {habitId};
    }

    /** `mark`: an absent date means today. */
    method Mark(habitId: int, date: Option<int>, today: int)
      requires Valid()
      modifies this
      ensures Valid()
      ensures date.None? ==> State() == MarkDone(old(State()), habitId, today)
      ensures date.Some? ==> State() == MarkDone(old(State()), habitId, date.value)
    {
      var d := if date.Some? then date.value else today;
      if Completion(habitId, d) !in Completions(tracker) {
        tracker := tracker[nextMarkId := Completion(habitId, d)];
        nextMarkId := nextMarkId + 1;
      }
    }

    /** `unmark`: an absent date means today. */
    method Unmark(habitId: int, date: Option<int>, today: int)
      requires Valid()
      modifies this
      ensures Valid()
      ensures date.None? ==> State() == UnmarkDone(old(State()), habitId, today)
      ensures date.Some? ==> State() == UnmarkDone(old(State()), habitId, date.value)
    {
      var d := if date.Some? then date.value else today;
      tracker := map rid | rid in tracker && tracker[rid] != Completion(habitId, d) :: tracker[rid];
    }

    method GetAll() returns (rows: seq<HabitSummary>)
      requires Valid()
      ensures rows == ListHabits(State())
      ensures |rows| == |habits|
      ensures forall i :: 0 <= i < |rows| ==>
                rows[i].id in habits && rows[i] == Summary(State(), rows[i].id)
      ensures forall id :: id in habits ==> exists i :: 0 <= i < |rows| && rows[i].id == id
      ensures forall i, j :: 0 <= i < j < |rows| ==> rows[i].id < rows[j].id
    {
      rows := ListHabits(State());
    }

    /** `streak`: the habit's dates newest first, walked by the streak loop. */
    method Streak(habitId: int, today: int) returns (streak: nat)
      ensures IsStreakOf(DatesOf(tracker, habitId), today, streak)
    {
      var marked := DatesOf(tracker, habitId);
      var dates := DescendingOf(marked);
      streak := ComputeStreak(dates, today);
      StreakOfMarkedDays(marked, dates, today);
    }

    /** `habit_chart` without the plotting: the habit's 7-row heatmap grid. */
    method HabitChart(habitId: int, today: int) returns (grid: seq<seq<int>>)
      ensures grid == HeatmapOf(DatesOf(tracker, habitId), today)
      ensures |grid| == DaysPerWeek
      ensures forall r :: 0 <= r < DaysPerWeek ==> |grid[r]| == 13
      ensures forall r, c :: 0 <= r < DaysPerWeek && 0 <= c < 13 ==>
                grid[r][c] == Status(DatesOf(tracker, habitId), WindowStart(today) + DaysPerWeek * c + r)
    {
      grid := BuildHeatmap(DatesOf(tracker, habitId), today);
    }
  }
}
