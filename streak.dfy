/**
 Streak engine of the habit tracker: the number of consecutive days, counting
 back from today, on which a habit was marked done.

 Calendar dates are day numbers (`int`); `today - k` is the date `k` days
 before today. The store hands the engine one habit's mark dates in the
 order `order by date DESC` produces, which for distinct dates is strictly
 descending.
 */
module StreakEngine {

  /** The order in which the store returns one habit's (distinct) mark dates. */
  predicate StrictlyDescending(dates: seq<int>) {
    forall i, j :: 0 <= i < j < |dates| ==> dates[i] > dates[j]
  }

  /** The streak counter after walking `dates`, with `acc` days already counted:
      a date equal to `today - acc` extends the streak, anything else stops the walk. */
  function StreakFrom(dates: seq<int>, today: int, acc: nat): (r: nat)
    ensures acc <= r <= acc + |dates|
    decreases |dates|
  {
    if |dates| == 0 then acc
    else if dates[0] == today - acc then StreakFrom(dates[1..], today, acc + 1)
    else acc
  }

  /** The streak of a habit whose marks, newest first, are `dates`. */
  function Streak(dates: seq<int>, today: int): (r: nat)
    ensures r <= |dates|
    ensures today !in dates ==> r == 0
  {
    StreakFrom(dates, today, 0)
  }

  /** The loop of the streak calculator: walk the dates newest first, count the
      ones that hit `today - streak`, and stop at the first one that does not. */
  method ComputeStreak(dates: seq<int>, today: int) returns (streak: nat)
    ensures streak == Streak(dates, today)
    ensures streak <= |dates|
  {
    streak := 0;
    var i := 0;
    while i < |dates|
      invariant 0 <= i <= |dates|
      invariant streak == i
      invariant StreakFrom(dates[i..], today, i) == Streak(dates, today)
    {
      if dates[i] == today - streak {
        streak := streak + 1;
      } else {
        break;
      }
      i := i + 1;
    }
  }

  /** With `acc` days counted and no remaining date later than `today - acc`,
      the walk ends exactly at the first day of the run that is missing. */
  lemma {:induction false} StreakFromRun(dates: seq<int>, today: int, acc: nat)
    requires StrictlyDescending(dates)
    requires forall k :: 0 <= k < |dates| ==> dates[k] <= today - acc
    ensures forall d :: today - StreakFrom(dates, today, acc) < d <= today - acc ==> d in dates
    ensures today - StreakFrom(dates, today, acc) !in dates
  {
    if |dates| > 0 {
      if dates[0] == today - acc {
        var rest := dates[1..];
        forall k | 0 <= k < |rest| ensures rest[k] <= today - (acc + 1) {
          assert rest[k] == dates[k + 1];
        }
        StreakFromRun(rest, today, acc + 1);
        var r := StreakFrom(dates, today, acc);
        assert r == StreakFrom(rest, today, acc + 1);
        forall d | today - r < d <= today - acc ensures d in dates {
          if d == today - acc {
            assert dates[0] == d;
          } else {
            assert d in rest;
          }
        }
        assert today - r !in rest;
        assert dates == [dates[0]] + rest;
      } else {
        forall k | 0 <= k < |dates| ensures dates[k] != today - acc {
          if k > 0 {
            assert dates[k] < dates[0];
          }
        }
      }
    }
  }

  /** When no mark lies in the future, the streak `r` is the length of the run
      ending today: `today, today-1, …, today-(r-1)` are marked and `today-r` is not. */
  lemma StreakIsRun(dates: seq<int>, today: int)
    requires StrictlyDescending(dates)
    requires forall k :: 0 <= k < |dates| ==> dates[k] <= today
    ensures forall d :: today - Streak(dates, today) < d <= today ==> d in dates
    ensures today - Streak(dates, today) !in dates
  {
    StreakFromRun(dates, today, 0);
  }

  /** Marks on `today, …, today-(k-1)` and none on `today-k` give a streak of
      exactly `k`; older runs beyond the gap do not count. */
  lemma StreakValue(dates: seq<int>, today: int, k: nat)
    requires StrictlyDescending(dates)
    requires forall j :: 0 <= j < |dates| ==> dates[j] <= today
    requires forall d :: today - k < d <= today ==> d in dates
    requires today - k !in dates
    ensures Streak(dates, today) == k
  {
    StreakIsRun(dates, today);
  }

  /** A mark dated after today comes first in the descending order and stops
      the walk at once, so the streak is 0 even if today is marked. */
  lemma FutureMarkBreaksStreak(dates: seq<int>, today: int, j: nat)
    requires StrictlyDescending(dates)
    requires j < |dates| && dates[j] > today
    ensures Streak(dates, today) == 0
  {
    if j > 0 {
      assert dates[0] > dates[j];
    }
  }

  /** Marks on days 0, 1, 2 and 4 with today = day 4: the gap on day 3 leaves
      a streak of 1, the earlier three-day run does not count. */
  lemma GapEndsStreak(today: int)
    ensures Streak([today, today - 2, today - 3, today - 4], today) == 1
  {
    var dates := [today, today - 2, today - 3, today - 4];
    assert dates[1..] == [today - 2, today - 3, today - 4];
    assert StreakFrom(dates[1..], today, 1) == 1;
  }
}
