/**
 * The Gantt chart page. Dates are day numbers. The compiled page filters the
 * tasks of the selected project, sorts them by start date and lays them out
 * in rows; the uncompiled page lays out every task. Both compute the same
 * 60-day window and the same bar geometry.
 */
module Gantt {
  import opened Wrappers
  import opened Tasks

  // ----- Sorting by start date -----

  /** The rows are in ascending order of their start dates (a missing start counting as today). */
  predicate SortedByStart(ts: seq<Task>, today: int) {
    forall i, j :: 0 <= i < j < |ts| ==> StartOr(ts[i], today) <= StartOr(ts[j], today)
  }

  /**
   * Where `t` goes in `sorted`: before the first task that starts later than
   * `t`. Every task before that point starts no later than `t`, and in a
   * sorted list every task from that point on starts later.
   */
  function InsertPos(t: Task, sorted: seq<Task>, today: int): (p: nat)
    ensures p <= |sorted|
    ensures p < |sorted| ==> StartOr(t, today) < StartOr(sorted[p], today)
    ensures forall j :: 0 <= j < p ==> StartOr(sorted[j], today) <= StartOr(t, today)
    ensures SortedByStart(sorted, today) ==> forall j :: p <= j < |sorted| ==> StartOr(t, today) < StartOr(sorted[j], today)
  {
    if sorted == [] || StartOr(t, today) < StartOr(sorted[0], today) then 0
    else
      assert SortedByStart(sorted, today) ==> SortedByStart(sorted[1..], today);
      InsertPos(t, sorted[1..], today) + 1
  }

  /** `t` placed into `sorted` after every task that starts no later. */
  function Insert(t: Task, sorted: seq<Task>, today: int): seq<Task> {
    var p := InsertPos(t, sorted, today);
    sorted[..p] + [t] + sorted[p..]
  }

  /**
   * The comparator sort `(a, b) => dateA - dateB`, which is stable: an
   * insertion sort that places each task after the earlier ones with the
   * same start.
   */
  function SortByStart(ts: seq<Task>, today: int): (r: seq<Task>)
    ensures |r| == |ts|
  {
    if ts == [] then [] else Insert(ts[|ts| - 1], SortByStart(ts[..|ts| - 1], today), today)
  }

  /** Inserting into a sorted list keeps it sorted. */
  lemma InsertSorted(t: Task, sorted: seq<Task>, today: int)
    requires SortedByStart(sorted, today)
    ensures SortedByStart(Insert(t, sorted, today), today)
  {
    var p := InsertPos(t, sorted, today);
    var r := Insert(t, sorted, today);
    forall i, j | 0 <= i < j < |r|
      ensures StartOr(r[i], today) <= StartOr(r[j], today)
    {
      if j < p || i > p {
        assert r[i] == (if i < p then sorted[i] else sorted[i - 1]);
        assert r[j] == (if j < p then sorted[j] else sorted[j - 1]);
      } else if i == p {
        assert r[j] == sorted[j - 1];
        assert StartOr(sorted[p], today) <= StartOr(sorted[j - 1], today);
      } else {
        assert r[i] == sorted[i];
      }
    }
  }

  /** The sort yields its input in ascending order of start date. */
  lemma {:induction false} SortSorted(ts: seq<Task>, today: int)
    ensures SortedByStart(SortByStart(ts, today), today)
  {
    if ts != [] {
      SortSorted(ts[..|ts| - 1], today);
      InsertSorted(ts[|ts| - 1], SortByStart(ts[..|ts| - 1], today), today);
    }
  }

  /** Inserting adds `t` and keeps everything else. */
  lemma InsertAdds(t: Task, sorted: seq<Task>, today: int)
    ensures multiset(Insert(t, sorted, today)) == multiset(sorted) + multiset{t}
  {
    var p := InsertPos(t, sorted, today);
    assert sorted == sorted[..p] + sorted[p..];
  }

  /** The sort is a permutation: every task is kept, as often as it occurs. */
  lemma {:induction false} SortPermutes(ts: seq<Task>, today: int)
    ensures multiset(SortByStart(ts, today)) == multiset(ts)
  {
    if ts != [] {
      var init := ts[..|ts| - 1];
      assert ts == init + [ts[|ts| - 1]];
      var sorted := SortByStart(init, today);
      SortPermutes(init, today);
      InsertAdds(ts[|ts| - 1], sorted, today);
    }
  }

  /** The test "starts on day `d`". */
  function StartsOn(d: int, today: int): Task -> bool {
    t => StartOr(t, today) == d
  }

  /** The tasks of `ts` that start on day `d`, in their order. */
  function StartingOn(ts: seq<Task>, d: int, today: int): seq<Task> {
    Filter(ts, StartsOn(d, today))
  }

  /** Inserting `t` appends it to the tasks with its start date and leaves the other dates' tasks alone. */
  lemma InsertStable(t: Task, sorted: seq<Task>, d: int, today: int)
    requires SortedByStart(sorted, today)
    ensures StartingOn(Insert(t, sorted, today), d, today)
      == StartingOn(sorted, d, today) + (if StartOr(t, today) == d then [t] else [])
  {
    var p := InsertPos(t, sorted, today);
    FilterSplice(sorted[..p], t, sorted[p..], StartsOn(d, today));
    assert sorted[..p] + sorted[p..] == sorted;
  }

  /** The sort is stable: the tasks with the same start date keep their relative order. */
  lemma {:induction false} SortStable(ts: seq<Task>, d: int, today: int)
    ensures StartingOn(SortByStart(ts, today), d, today) == StartingOn(ts, d, today)
  {
    if ts != [] {
      var init := ts[..|ts| - 1];
      SortStable(init, d, today);
      SortSorted(init, today);
      InsertStable(ts[|ts| - 1], SortByStart(init, today), d, today);
      assert ts == init + [ts[|ts| - 1]];
    }
  }

  // ----- The compiled page's rows -----

  /** `issue.projectId === selectedProject`. */
  function InProject(selectedProject: string): Task -> bool {
    (t: Task) => t.projectId == Some(selectedProject)
  }

  /** `issue.assigneeId === selectedAssignee`. */
  function OfAssignee(selectedAssignee: string): Task -> bool {
    (t: Task) => t.assigneeId == Some(selectedAssignee)
  }

  /** `issue.status !== 'Closed'`. */
  function NotClosed(): Task -> bool {
    (t: Task) => t.status != Some("Closed")
  }

  /**
   * The one test the three filters amount to: the selected project, the
   * selected assignee when one is selected, and not closed when closed
   * tasks are hidden.
   */
  predicate Shown(t: Task, selectedProject: string, selectedAssignee: string, hideClosed: bool) {
    && t.projectId == Some(selectedProject)
    && (selectedAssignee != "" ==> t.assigneeId == Some(selectedAssignee))
    && (hideClosed ==> t.status != Some("Closed"))
  }

  /** The shown test as a filter. */
  function ShownBy(selectedProject: string, selectedAssignee: string, hideClosed: bool): Task -> bool {
    t => Shown(t, selectedProject, selectedAssignee, hideClosed)
  }

  /**
   * `filteredIssues` of the compiled page: reassigned through up to three
   * filters, then sorted by start date.
   */
  method GanttRows(issues: seq<Task>, selectedProject: string, selectedAssignee: string, hideClosed: bool, today: int)
    returns (rows: seq<Task>)
    ensures rows == SortByStart(Filter(issues, ShownBy(selectedProject, selectedAssignee, hideClosed)), today)
  {
    rows := Filter(issues, InProject(selectedProject));
    FilterSameTest(issues, InProject(selectedProject), ShownBy(selectedProject, "", false));
    if selectedAssignee != "" {
      FilterTwice(issues, InProject(selectedProject), OfAssignee(selectedAssignee), ShownBy(selectedProject, selectedAssignee, false));
      rows := Filter(rows, OfAssignee(selectedAssignee));
    } else {
      FilterSameTest(issues, ShownBy(selectedProject, "", false), ShownBy(selectedProject, selectedAssignee, false));
    }
    if hideClosed {
      FilterTwice(issues, ShownBy(selectedProject, selectedAssignee, false), NotClosed(), ShownBy(selectedProject, selectedAssignee, true));
      rows := Filter(rows, NotClosed());
    }
    rows := SortByStart(rows, today);
  }

  /** The rows are exactly the shown tasks, each as often as it occurs, sorted by start date, with ties in list order. */
  lemma GanttRowsSpec(issues: seq<Task>, selectedProject: string, selectedAssignee: string, hideClosed: bool, today: int, t: Task, d: int)
    ensures var shown := Filter(issues, ShownBy(selectedProject, selectedAssignee, hideClosed));
      var rows := SortByStart(shown, today);
      && SortedByStart(rows, today)
      && multiset(rows)[t] == (if Shown(t, selectedProject, selectedAssignee, hideClosed) then multiset(issues)[t] else 0)
      && StartingOn(rows, d, today) == StartingOn(shown, d, today)
  {
    var keep := ShownBy(selectedProject, selectedAssignee, hideClosed);
    var shown := Filter(issues, keep);
    SortSorted(shown, today);
    SortPermutes(shown, today);
    FilterCount(issues, keep, t);
    SortStable(shown, d, today);
  }

  /** `[...new Set(projectIssues.map(issue => issue.assigneeId))]`, a missing assignee included. */
  function AssigneeOptions(issues: seq<Task>, selectedProject: string): seq<Option<string>> {
    var inProject := Filter(issues, InProject(selectedProject));
    Distinct(seq(|inProject|, i requires 0 <= i < |inProject| => inProject[i].assigneeId))
  }

  /**
   * The assignee list names each assignee of the project's tasks once, and
   * the assignee of every row is on it, whatever assignee and closed filters
   * are set.
   */
  lemma AssigneeOptionsCover(issues: seq<Task>, selectedProject: string, selectedAssignee: string, hideClosed: bool, t: Task)
    requires t in Filter(issues, ShownBy(selectedProject, selectedAssignee, hideClosed))
    ensures t.assigneeId in AssigneeOptions(issues, selectedProject)
    ensures NoDuplicates(AssigneeOptions(issues, selectedProject))
  {
    var inProject := Filter(issues, InProject(selectedProject));
    var names := seq(|inProject|, i requires 0 <= i < |inProject| => inProject[i].assigneeId);
    FilterMembers(issues, ShownBy(selectedProject, selectedAssignee, hideClosed), t);
    FilterMembers(issues, InProject(selectedProject), t);
    var k :| 0 <= k < |inProject| && inProject[k] == t;
    assert names[k] == t.assigneeId;
    DistinctFirstAppearance(names);
  }

  // ----- The 60-day window -----

  /** `FIXED_DAY_COUNT` and the pixel width of one day. */
  const DayCount: int := 60
  const DayWidth: int := 30

  /** `allDates`: each task's start and end, today and today + 3 standing in for missing ones. */
  function AllDates(ts: seq<Task>, today: int): (dates: seq<int>)
    ensures |dates| == 2 * |ts|
  {
    if ts == [] then []
    else AllDates(ts[..|ts| - 1], today) + [StartOr(ts[|ts| - 1], today), EndOr(ts[|ts| - 1], today)]
  }

  /** `Math.min(...xs)` of a non-empty list. */
  function MinOf(xs: seq<int>): (m: int)
    requires xs != []
    ensures m in xs
    ensures forall x :: x in xs ==> m <= x
  {
    if |xs| == 1 then xs[0]
    else
      var m := MinOf(xs[..|xs| - 1]);
      assert xs == xs[..|xs| - 1] + [xs[|xs| - 1]];
      if xs[|xs| - 1] < m then xs[|xs| - 1] else m
  }

  /** `startDate`: 15 days before today, or a week before the earliest date when that is earlier; 30 days before today stands in for the earliest date of an empty list. */
  function WindowStart(ts: seq<Task>, today: int): int {
    var dates := AllDates(ts, today);
    var minDate := if dates == [] then today - 30 else MinOf(dates);
    if today - 15 <= minDate - 7 then today - 15 else minDate - 7
  }

  /** Both dates of every task are among the collected dates. */
  lemma {:induction false} AllDatesHasTask(ts: seq<Task>, today: int, t: Task)
    requires t in ts
    ensures StartOr(t, today) in AllDates(ts, today) && EndOr(t, today) in AllDates(ts, today)
  {
    var init := ts[..|ts| - 1];
    if t != ts[|ts| - 1] {
      assert ts == init + [ts[|ts| - 1]];
      AllDatesHasTask(init, today, t);
    }
  }

  /** Every collected date is a date of some task. */
  lemma {:induction false} AllDatesFromTasks(ts: seq<Task>, today: int, x: int)
    requires x in AllDates(ts, today)
    ensures exists t :: t in ts && (x == StartOr(t, today) || x == EndOr(t, today))
  {
    var init := ts[..|ts| - 1];
    var last := ts[|ts| - 1];
    if x != StartOr(last, today) && x != EndOr(last, today) {
      AllDatesFromTasks(init, today, x);
      var t :| t in init && (x == StartOr(t, today) || x == EndOr(t, today));
      assert t in ts;
    } else {
      assert last in ts;
    }
  }

  /**
   * The window starts at least 15 days before today and at least a week
   * before every date of every task, and it is the latest day that does:
   * it is 15 days before today or a week before one of the dates.
   */
  lemma WindowStartBounds(ts: seq<Task>, today: int, t: Task)
    ensures WindowStart(ts, today) <= today - 15
    ensures t in ts ==> WindowStart(ts, today) <= StartOr(t, today) - 7 && WindowStart(ts, today) <= EndOr(t, today) - 7
    ensures ts == [] ==> WindowStart(ts, today) == today - 37
    ensures ts != [] ==> (WindowStart(ts, today) == today - 15
      || exists u :: u in ts && (WindowStart(ts, today) == StartOr(u, today) - 7 || WindowStart(ts, today) == EndOr(u, today) - 7))
  {
    var dates := AllDates(ts, today);
    if t in ts {
      AllDatesHasTask(ts, today, t);
    }
    if dates != [] {
      AllDatesFromTasks(ts, today, MinOf(dates));
    }
  }

  /** `days`: the 60 consecutive days from the window start. */
  method BuildDays(start: int) returns (days: array<int>)
    ensures fresh(days) && days.Length == DayCount
    ensures forall i :: 0 <= i < days.Length ==> days[i] == start + i
  {
    days := new int[DayCount];
    for i := 0 to DayCount
      invariant forall k :: 0 <= k < i ==> days[k] == start + k
    {
      days[i] := start + i;
    }
  }

  // ----- Bars -----

  /** `Math.max(1, days from start to end + 1)`: the number of days a bar spans. */
  function Duration(start: int, end: int): (n: int)
    ensures n >= 1
  {
    if end - start + 1 < 1 then 1 else end - start + 1
  }

  /** A drawn bar: its left edge and width in pixels. */
  datatype Bar = Bar(left: int, width: int)

  /** The bar of a task from `start` to `end` in the window from `windowStart`, or `None` for a row that is not drawn. */
  function BarOf(start: int, end: int, windowStart: int): Option<Bar> {
    var duration := Duration(start, end);
    var offset := start - windowStart;
    if offset >= DayCount || offset + duration < 0 then None
    else
      var clipped := if offset < 0 then 0 else offset;
      Some(Bar(if offset * DayWidth < 0 then 0 else offset * DayWidth,
               if duration * DayWidth < (DayCount - clipped) * DayWidth then duration * DayWidth else (DayCount - clipped) * DayWidth))
  }

  /** The days a task covers: its start through its end, or its start alone when the end is earlier. */
  predicate Covers(start: int, end: int, day: int) {
    start <= day < start + Duration(start, end)
  }

  /** A row is skipped exactly when the task starts after the window or ends more than a day before it. */
  lemma BarSkipped(start: int, end: int, windowStart: int)
    ensures BarOf(start, end, windowStart).None?
      <==> start - windowStart >= DayCount || start - windowStart + Duration(start, end) < 0
  {
  }

  /** Every drawn bar lies inside the chart and is at least one day wide. */
  lemma BarInsideChart(start: int, end: int, windowStart: int)
    requires BarOf(start, end, windowStart).Some?
    ensures var b := BarOf(start, end, windowStart).value;
      0 <= b.left && DayWidth <= b.width && b.left + b.width <= DayCount * DayWidth
  {
  }

  /**
   * A bar that starts inside the window covers exactly the day columns of
   * the days the task covers: column `c` lies under the bar iff day
   * `windowStart + c` is one of the task's days.
   */
  lemma BarCoversDays(start: int, end: int, windowStart: int, c: int)
    requires 0 <= start - windowStart < DayCount && 0 <= c < DayCount
    ensures var b := BarOf(start, end, windowStart).value;
      b.left <= c * DayWidth < b.left + b.width <==> Covers(start, end, windowStart + c)
  {
  }

  /**
   * On both pages the window is computed from the very tasks that are drawn,
   * so every bar starts at least a week into the window and is never clipped
   * on the left; a task is drawn exactly when it starts within the window.
   */
  lemma RowsStartInsideWindow(ts: seq<Task>, today: int, t: Task)
    requires t in ts
    ensures var ws := WindowStart(ts, today);
      && StartOr(t, today) - ws >= 7
      && (BarOf(StartOr(t, today), EndOr(t, today), ws).Some? <==> StartOr(t, today) - ws < DayCount)
  {
    WindowStartBounds(ts, today, t);
  }

  // ----- Rows -----

  /** The row pitch in pixels: 60 on the uncompiled page, 40 on the compiled one. */
  const PageRowPitch: nat := 60
  const CompiledRowPitch: nat := 40

  /** `top: index * pitch`: the row's top edge. */
  function RowTop(index: nat, pitch: nat): nat {
    index * pitch
  }

  /** A later row's top lies at least one pitch below an earlier row's top. */
  lemma {:induction false} RowsApart(i: nat, j: nat, pitch: nat)
    requires i < j
    ensures RowTop(i, pitch) + pitch <= RowTop(j, pitch)
    decreases j
  {
    assert RowTop(j, pitch) == RowTop(j - 1, pitch) + pitch;
    if i < j - 1 {
      RowsApart(i, j - 1, pitch);
    }
  }
}
