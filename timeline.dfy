/**
 Timeline aggregator of the habit tracker: the computation behind the
 per-habit heatmap. It lays the trailing window `today-90 .. today` (both ends
 included, so 91 days) out as a flat 0/1 timeline, cuts it into weeks of
 seven days (zero-padding the last one), and transposes the weeks into seven
 weekday rows for the renderer.

 Dates are day numbers (`int`); the heatmap rendering itself is not modelled.
 */
module Timeline {

  /** How many days before today the window starts. */
  const LookbackDays: nat := 90

  /** Days per bucket, and so the number of rows of the grid. */
  const DaysPerWeek: nat := 7

  /** One entry of the flat timeline: a date and whether it was marked (1) or not (0). */
  datatype DayStatus = DayStatus(date: int, status: int)

  /** The flag of `day`: 1 when it is among the marked dates, 0 otherwise. */
  function Status(marked: set<int>, day: int): int {
    if day in marked then 1 else 0
  }

  /** The first day of the window ending at `today`. */
  function WindowStart(today: int): int {
    today - LookbackDays
  }

  /** Reference definition of the flat timeline: one entry per day of the
      window, oldest first. */
  function TimelineOf(marked: set<int>, today: int): seq<DayStatus> {
    seq(LookbackDays + 1, i => DayStatus(WindowStart(today) + i, Status(marked, WindowStart(today) + i)))
  }

  /** The marked dates a timeline records, read back from its entries. */
  function MarkedDays(timeline: seq<DayStatus>): set<int> {
    set i | 0 <= i < |timeline| && timeline[i].status == 1 :: timeline[i].date
  }

  /** The walk over the window: start at `today - 90`, append one entry per day
      with status 1 exactly when the day is marked, and stop after today. */
  method BuildTimeline(marked: set<int>, today: int) returns (timeline: seq<DayStatus>)
    ensures timeline == TimelineOf(marked, today)
  {
    timeline := [];
    var current := WindowStart(today);
    while current <= today
      invariant WindowStart(today) <= current <= today + 1
      invariant |timeline| == current - WindowStart(today)
      invariant forall i :: 0 <= i < |timeline| ==> timeline[i] == TimelineOf(marked, today)[i]
      decreases today - current
    {
      var status;
      if current in marked {
        status := 1;
      } else {
        status := 0;
      }
      assert status == Status(marked, current);
      timeline := timeline + [DayStatus(current, status)];
      current := current + 1;
    }
  }

  /** The timeline has 91 entries, one per day from `today - 90` up to today in
      ascending order, and the days it flags as marked are exactly the marked
      days inside that window. */
  lemma TimelineCoversWindow(marked: set<int>, today: int)
    ensures |TimelineOf(marked, today)| == 91
    ensures TimelineOf(marked, today)[0].date == today - 90
    ensures forall i :: 0 < i < 91 ==> TimelineOf(marked, today)[i].date == TimelineOf(marked, today)[i - 1].date + 1
    ensures MarkedDays(TimelineOf(marked, today)) == set d | d in marked && today - 90 <= d <= today
  {
    var t := TimelineOf(marked, today);
    assert t[0].date == WindowStart(today) + 0;
    var window := set d | d in marked && today - 90 <= d <= today;
    forall d | d in window ensures d in MarkedDays(t) {
      var i := d - WindowStart(today);
      assert t[i] == DayStatus(d, Status(marked, d));
      assert Status(marked, d) == 1;
    }
    forall i | 0 <= i < |t| && t[i].status == 1 ensures t[i].date in window {
      assert t[i] == DayStatus(WindowStart(today) + i, Status(marked, WindowStart(today) + i));
    }
  }

  /** Number of weeks the bucketing produces for `n` days: `n / 7` rounded up. */
  function WeekCount(n: nat): nat {
    (n + DaysPerWeek - 1) / DaysPerWeek
  }

  /** Day `j` of week `w`: the status at position `7w + j`, or 0 past the end. */
  function WeekCell(timeline: seq<DayStatus>, w: nat, j: nat): int {
    if DaysPerWeek * w + j < |timeline| then timeline[DaysPerWeek * w + j].status else 0
  }

  /** Reference definition of the week buckets. */
  function WeeksOf(timeline: seq<DayStatus>): seq<seq<int>> {
    seq(WeekCount(|timeline|), (w: int) requires 0 <= w =>
      seq(DaysPerWeek, (j: int) requires 0 <= j => WeekCell(timeline, w, j)))
  }

  /** The bucketing loop: from each multiple `i` of 7 below the timeline's
      length, one week of seven statuses, padded with 0 past the end. */
  method IntoWeeks(timeline: seq<DayStatus>) returns (weeks: seq<seq<int>>)
    ensures weeks == WeeksOf(timeline)
  {
    weeks := [];
    var i := 0;
    while i < |timeline|
      invariant i == DaysPerWeek * |weeks|
      invariant |weeks| <= WeekCount(|timeline|)
      invariant forall w :: 0 <= w < |weeks| ==> weeks[w] == WeeksOf(timeline)[w]
      decreases |timeline| - i
    {
      var week := [];
      for j := 0 to DaysPerWeek
        invariant |week| == j
        invariant forall k :: 0 <= k < j ==> week[k] == WeekCell(timeline, |weeks|, k)
      {
        if i + j < |timeline| {
          week := week + [timeline[i + j].status];
        } else {
          week := week + [0];
        }
      }
      weeks := weeks + [week];
      i := i + DaysPerWeek;
    }
  }

  /** The weeks laid end to end, oldest first. */
  function Flatten(weeks: seq<seq<int>>): seq<int> {
    if |weeks| == 0 then [] else weeks[0] + Flatten(weeks[1..])
  }

  predicate AllWeeksFull(weeks: seq<seq<int>>) {
    forall w :: 0 <= w < |weeks| ==> |weeks[w]| == DaysPerWeek
  }

  lemma {:induction false} FlattenAt(weeks: seq<seq<int>>, w: nat, j: nat)
    requires AllWeeksFull(weeks)
    requires w < |weeks| && j < DaysPerWeek
    ensures |Flatten(weeks)| == DaysPerWeek * |weeks|
    ensures Flatten(weeks)[DaysPerWeek * w + j] == weeks[w][j]
  {
    if w == 0 {
      FlattenLength(weeks[1..]);
    } else {
      FlattenAt(weeks[1..], w - 1, j);
    }
  }

  lemma {:induction false} FlattenLength(weeks: seq<seq<int>>)
    requires AllWeeksFull(weeks)
    ensures |Flatten(weeks)| == DaysPerWeek * |weeks|
  {
    if |weeks| > 0 {
      FlattenLength(weeks[1..]);
    }
  }

  /** Bucketing loses nothing and adds only padding: the weeks number `n / 7`
      rounded up, and laid end to end they give the timeline's statuses
      followed by zeros. */
  lemma WeeksPartitionTimeline(timeline: seq<DayStatus>)
    ensures AllWeeksFull(WeeksOf(timeline))
    ensures |timeline| <= DaysPerWeek * |WeeksOf(timeline)| < |timeline| + DaysPerWeek
    ensures |Flatten(WeeksOf(timeline))| == DaysPerWeek * |WeeksOf(timeline)|
    ensures forall k :: 0 <= k < |Flatten(WeeksOf(timeline))| ==>
              Flatten(WeeksOf(timeline))[k] == if k < |timeline| then timeline[k].status else 0
  {
    var weeks := WeeksOf(timeline);
    FlattenLength(weeks);
    forall k | 0 <= k < |Flatten(weeks)|
      ensures Flatten(weeks)[k] == if k < |timeline| then timeline[k].status else 0
    {
      var w, j := k / DaysPerWeek, k % DaysPerWeek;
      FlattenAt(weeks, w, j);
      assert DaysPerWeek * w + j == k;
    }
  }

  /** A 91-day window fills exactly 13 weeks, so no cell is padding. */
  lemma WindowWeeks(marked: set<int>, today: int)
    ensures |WeeksOf(TimelineOf(marked, today))| == 13
    ensures forall w, j :: 0 <= w < 13 && 0 <= j < DaysPerWeek ==>
              WeeksOf(TimelineOf(marked, today))[w][j] == TimelineOf(marked, today)[DaysPerWeek * w + j].status
  {
  }

  /** Reference definition of the transpose: row `r` holds day `r` of every week. */
  function TransposeOf(weeks: seq<seq<int>>): seq<seq<int>>
    requires forall w :: 0 <= w < |weeks| ==> |weeks[w]| >= DaysPerWeek
  {
    seq(DaysPerWeek, (r: int) requires 0 <= r < DaysPerWeek =>
      seq(|weeks|, (c: int) requires 0 <= c < |weeks| => weeks[c][r]))
  }

  /** The inverse reading: week `c` gathered back from column `c` of the rows. */
  function ColumnsOf(days: seq<seq<int>>): seq<seq<int>>
    requires |days| == DaysPerWeek
    requires forall r :: 0 <= r < DaysPerWeek ==> |days[r]| == |days[0]|
  {
    seq(|days[0]|, (c: int) requires 0 <= c < |days[0]| =>
      seq(DaysPerWeek, (r: int) requires 0 <= r < DaysPerWeek => days[r][c]))
  }

  /** The transpose loop: for each weekday position, one row collecting that
      position of every week in order. */
  method Transpose(weeks: seq<seq<int>>) returns (days: seq<seq<int>>)
    requires forall w :: 0 <= w < |weeks| ==> |weeks[w]| >= DaysPerWeek
    ensures days == TransposeOf(weeks)
  {
    days := [];
    for day := 0 to DaysPerWeek
      invariant |days| == day
      invariant forall r :: 0 <= r < day ==> days[r] == TransposeOf(weeks)[r]
    {
      var across := [];
      for c := 0 to |weeks|
        invariant |across| == c
        invariant forall k :: 0 <= k < c ==> across[k] == weeks[k][day]
      {
        across := across + [weeks[c][day]];
      }
      days := days + [across];
    }
  }

  /** Transposing full weeks loses nothing: the grid has 7 rows of one cell per
      week, and reading its columns back gives the weeks again. */
  lemma TransposeRoundTrip(weeks: seq<seq<int>>)
    requires AllWeeksFull(weeks)
    ensures |TransposeOf(weeks)| == DaysPerWeek
    ensures forall r :: 0 <= r < DaysPerWeek ==> |TransposeOf(weeks)[r]| == |weeks|
    ensures ColumnsOf(TransposeOf(weeks)) == weeks
  {
    var back := ColumnsOf(TransposeOf(weeks));
    assert |back| == |weeks|;
    forall c | 0 <= c < |weeks| ensures back[c] == weeks[c] {
      assert |back[c]| == |weeks[c]|;
    }
  }

  /** Reference definition of the heatmap grid of one habit. */
  function HeatmapOf(marked: set<int>, today: int): seq<seq<int>> {
    TransposeOf(WeeksOf(TimelineOf(marked, today)))
  }

  /** The non-plotting half of the heatmap: timeline, weeks, transpose. */
  method BuildHeatmap(marked: set<int>, today: int) returns (grid: seq<seq<int>>)
    ensures grid == HeatmapOf(marked, today)
    ensures |grid| == DaysPerWeek
    ensures forall r :: 0 <= r < DaysPerWeek ==> |grid[r]| == 13
    ensures forall r, c :: 0 <= r < DaysPerWeek && 0 <= c < 13 ==>
              grid[r][c] == Status(marked, WindowStart(today) + DaysPerWeek * c + r)
  {
    var timeline := BuildTimeline(marked, today);
    var weeks := IntoWeeks(timeline);
    grid := Transpose(weeks);
    HeatmapCells(marked, today);
  }

  /** Cell `(r, c)` of the grid is the flag of day `r` of week `c` of the window. */
  lemma HeatmapCells(marked: set<int>, today: int)
    ensures |HeatmapOf(marked, today)| == DaysPerWeek
    ensures forall r :: 0 <= r < DaysPerWeek ==> |HeatmapOf(marked, today)[r]| == 13
    ensures forall r, c :: 0 <= r < DaysPerWeek && 0 <= c < 13 ==>
              HeatmapOf(marked, today)[r][c] == Status(marked, WindowStart(today) + DaysPerWeek * c + r)
  {
    WindowWeeks(marked, today);
  }

  /** Every day of the window marked: every cell is 1. */
  lemma AllMarkedAllOnes(marked: set<int>, today: int)
    requires forall d :: today - 90 <= d <= today ==> d in marked
    ensures forall r, c :: 0 <= r < |HeatmapOf(marked, today)| && 0 <= c < |HeatmapOf(marked, today)[r]| ==>
              HeatmapOf(marked, today)[r][c] == 1
  {
    HeatmapCells(marked, today);
  }

  /** No day of the window marked: every cell is 0. */
  lemma NoMarksAllZeros(marked: set<int>, today: int)
    requires forall d :: today - 90 <= d <= today ==> d !in marked
    ensures forall r, c :: 0 <= r < |HeatmapOf(marked, today)| && 0 <= c < |HeatmapOf(marked, today)[r]| ==>
              HeatmapOf(marked, today)[r][c] == 0
  {
    HeatmapCells(marked, today);
  }
}
