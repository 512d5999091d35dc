/**
 * Dragging a bar of the Gantt chart: a mouse-down on a bar or on its right
 * edge starts a drag, the first mouse-move at least half a column away
 * sends new dates for the task and ends the drag, and a mouse-up ends it.
 */
module Drag {
  import opened Wrappers
  import opened Tasks
  import opened Values
  import Issues

  /** The two ways to drag a bar: the whole bar, or its right edge. */
  datatype DragKind = Move | Resize

  /** `dragState`: the dragged task, the kind of drag and where the mouse went down. */
  datatype DragState = DragState(issue: Task, kind: DragKind, startX: int)

  /** The arguments of `updateTaskDates`: the task's key and its new dates. */
  datatype DateUpdate = DateUpdate(id: string, createdAt: string, startDate: int, endDate: int)

  /** The width of one day column in pixels. */
  const ColumnWidth: int := 30

  /** `Math.round(deltaX / 30)`: the nearest whole number of columns, halves rounded up. */
  function GridDelta(deltaX: int): (g: int)
    ensures ColumnWidth * g - ColumnWidth / 2 <= deltaX < ColumnWidth * g + ColumnWidth / 2
  {
    (deltaX + ColumnWidth / 2) / ColumnWidth
  }

  /** The rounding has exactly one answer: any whole number of columns within half a column of `deltaX` is `GridDelta(deltaX)`. */
  lemma GridDeltaUnique(deltaX: int, g: int)
    requires ColumnWidth * g - ColumnWidth / 2 <= deltaX < ColumnWidth * g + ColumnWidth / 2
    ensures g == GridDelta(deltaX)
  {
    var h := GridDelta(deltaX);
    assert ColumnWidth * (g - h) < ColumnWidth && ColumnWidth * (h - g) < ColumnWidth;
  }

  /**
   * What a mouse-move to `x` sends for the drag `s`: nothing while the
   * mouse is less than half a column away; a move shifts both dates by the
   * same number of days; a resize shifts the end only, and sends nothing
   * when the end would not lie after the start.
   */
  function DragUpdate(s: DragState, x: int, today: int): Option<DateUpdate> {
    var g := GridDelta(x - s.startX);
    var start := StartOr(s.issue, today);
    var end := EndOr(s.issue, today);
    if g == 0 then None
    else if s.kind == Move then Some(DateUpdate(s.issue.id, s.issue.createdAt, start + g, start + g + (end - start)))
    else if end + g > start then Some(DateUpdate(s.issue.id, s.issue.createdAt, start, end + g))
    else None
  }

  /** The handler ignores a move of less than half a column either way, and only then. */
  lemma SmallMoveIgnored(s: DragState, x: int, today: int)
    requires s.kind == Move
    ensures DragUpdate(s, x, today).None? <==> -ColumnWidth / 2 <= x - s.startX < ColumnWidth / 2
  {
    if GridDelta(x - s.startX) == 0 {
      assert -ColumnWidth / 2 <= x - s.startX < ColumnWidth / 2;
    } else if -ColumnWidth / 2 <= x - s.startX < ColumnWidth / 2 {
      GridDeltaUnique(x - s.startX, 0);
    }
  }

  /** An update always addresses the dragged task. */
  lemma UpdateAddressesDraggedTask(s: DragState, x: int, today: int)
    requires DragUpdate(s, x, today).Some?
    ensures DragUpdate(s, x, today).value.id == s.issue.id
    ensures DragUpdate(s, x, today).value.createdAt == s.issue.createdAt
  {
  }

  /** A move shifts the task by the rounded number of columns and keeps its length in days. */
  lemma MoveKeepsLength(s: DragState, x: int, today: int)
    requires s.kind == Move && DragUpdate(s, x, today).Some?
    ensures var u := DragUpdate(s, x, today).value;
      && u.startDate == StartOr(s.issue, today) + GridDelta(x - s.startX)
      && u.endDate - u.startDate == EndOr(s.issue, today) - StartOr(s.issue, today)
      && u.startDate != StartOr(s.issue, today)
  {
  }

  /**
   * A resize keeps the start, moves the end by the rounded number of
   * columns, and is sent exactly when the mouse moved at least half a
   * column and the new end lies after the start.
   */
  lemma ResizeKeepsStart(s: DragState, x: int, today: int)
    requires s.kind == Resize
    ensures var g := GridDelta(x - s.startX);
      DragUpdate(s, x, today).Some? <==> g != 0 && EndOr(s.issue, today) + g > StartOr(s.issue, today)
    ensures DragUpdate(s, x, today).Some? ==>
      var u := DragUpdate(s, x, today).value;
      && u.startDate == StartOr(s.issue, today)
      && u.endDate == EndOr(s.issue, today) + GridDelta(x - s.startX)
      && u.startDate < u.endDate
  {
  }

  /**
   * The body `updateTaskDates` sends: the two dates and the sort key. The
   * dates travel as their day numbers here; the backend copies them
   * verbatim, whatever their form.
   */
  function DateRequestBody(u: DateUpdate): Item {
    map["startDate" := Int(u.startDate), "endDate" := Int(u.endDate), "createdAt" := Str(u.createdAt)]
  }

  /** The PUT request `updateTaskDates` sends to the issues endpoint. */
  function DateRequest(u: DateUpdate): Event {
    Event(Some("PUT"), Some(DateRequestBody(u)), Some(u.id))
  }

  /** The dates of an update as the attributes the issues endpoint writes besides `status`. */
  function NewDates(u: DateUpdate): Item {
    map["startDate" := Int(u.startDate), "endDate" := Int(u.endDate)]
  }

  /** The issues endpoint writes the two dates of a date request, and `status` too, as `'Open'`. */
  lemma DateRequestPatch(u: DateUpdate)
    ensures Issues.Patch(DateRequestBody(u)) == NewDates(u)["status" := Str("Open")]
    ensures Issues.PatchKeepingStatus(DateRequestBody(u)) == NewDates(u)
  {
    var body := DateRequestBody(u);
    Issues.PatchContents(body);
    assert Issues.Patch(body).Keys == {"status", "startDate", "endDate"};
    Issues.PatchKeepingStatusContents(body);
    assert Issues.PatchKeepingStatus(body).Keys == {"startDate", "endDate"};
  }

  /**
   * As written: the date request has no `status`, and the issues endpoint
   * writes `'Open'` when the body has none, so dragging a task of any status
   * reopens it, besides storing the new dates.
   */
  lemma DragReopensTask(items: map<Issues.Key, Item>, u: DateUpdate)
    requires Issues.ValidKey(Issues.Key(u.id, u.createdAt))
    ensures var key := Issues.Key(u.id, u.createdAt);
      var after := Issues.Step(items, DateRequest(u)).1;
      && after == Issues.Updated(items, key, NewDates(u)["status" := Str("Open")])
      && after[key]["status"] == Str("Open")
  {
    var patch := NewDates(u)["status" := Str("Open")];
    assert Issues.IndexKeysTyped(patch);
    DateRequestPatch(u);
    assert Issues.RequestKey(DateRequest(u)) == Some(Issues.Key(u.id, u.createdAt));
  }

  /** With the corrected patch, a drag stores the new dates and keeps the stored status. */
  lemma DragKeepsStatusCorrected(items: map<Issues.Key, Item>, u: DateUpdate)
    ensures var key := Issues.Key(u.id, u.createdAt);
      var after := Issues.Updated(items, key, Issues.PatchKeepingStatus(DateRequestBody(u)));
      && after == Issues.Updated(items, key, NewDates(u))
      && (key in items && "status" in items[key] ==> "status" in after[key] && after[key]["status"] == items[key]["status"])
  {
    DateRequestPatch(u);
  }

  /** The drag handlers and the drag in progress. */
  class DragController {
    /** The drag in progress, if any. */
    var state: Option<DragState>

    /** No drag is in progress when the page loads. */
    constructor()
      ensures state == None
    {
      state := None;
    }

    /** `handleMouseDown`: starts dragging `issue` from `x`, replacing any drag in progress. */
    method MouseDown(issue: Task, kind: DragKind, x: int)
      modifies this
      ensures state == Some(DragState(issue, kind, x))
    {
      state := Some(DragState(issue, kind, x));
    }

    /**
     * `handleMouseMove`: without a drag nothing happens; a move of less than
     * half a column keeps the drag; otherwise the update, if any, is sent
     * and the drag ends, whether or not an update was sent.
     */
    method MouseMove(x: int, today: int) returns (update: Option<DateUpdate>)
      modifies this
      ensures old(state).None? ==> update.None? && state == old(state)
      ensures old(state).Some? ==> update == DragUpdate(old(state).value, x, today)
      ensures old(state).Some? ==>
        state == (if GridDelta(x - old(state).value.startX) == 0 then old(state) else None)
    {
      if state.None? {
        return None;
      }
      var s := state.value;
      var gridDelta := GridDelta(x - s.startX);
      if gridDelta == 0 {
        return None;
      }
      var start := StartOr(s.issue, today);
      var end := EndOr(s.issue, today);
      update := None;
      if s.kind == Move {
        var newStart := start + gridDelta;
        var duration := end - start;
        update := Some(DateUpdate(s.issue.id, s.issue.createdAt, newStart, newStart + duration));
      } else {
        var newEnd := end + gridDelta;
        if newEnd > start {
          update := Some(DateUpdate(s.issue.id, s.issue.createdAt, start, newEnd));
        }
      }
      state := None;
    }

    /** `handleMouseUp`: ends the drag. */
    method MouseUp()
      modifies this
      ensures state == None
    {
      state := None;
    }
  }
}
