/** `ImguiWidget`, one FlightMAX window: its table of aircraft, its pending
    window-mode request and the one-shot flight-loop callback that applies it;
    and the process-wide state all windows share. */
module Widget {
  import opened Options
  import opened Rows
  import opened Sorting
  import opened TableEdits
  import opened WindowMode

  /** The process-wide state: the window counter `num_win` and the static text
      buffers of `buildInterface` (search text and the "Add" row's staging
      fields), which every window shares. */
  class Globals {
    var numWin: int
    /** The window numbers handed out so far, in order. */
    ghost var issued: seq<int>
    var searchText: string
    var newTail: string
    var newType: string
    var newModel: string
    var newOwner: string
    var newHeading: int
    var newTurnsLeft: bool

    ghost predicate Valid()
      reads this
    {
      |issued| == numWin && forall i :: 0 <= i < |issued| ==> issued[i] == i + 1
    }

    constructor ()
      ensures Valid() && numWin == 0 && issued == []
      ensures searchText == [] && newTail == [] && newType == [] && newModel == [] && newOwner == []
      ensures newHeading == 0 && !newTurnsLeft
    {
      numWin := 0;
      issued := [];
      searchText := [];
      newTail, newType, newModel, newOwner := [], [], [], [];
      newHeading := 0;
      newTurnsLeft := false;
    }
  }

  /** Window numbers are distinct and count up from 1. */
  lemma IssuedNumbersDistinct(g: Globals)
    requires g.Valid()
    ensures forall i, j :: 0 <= i < j < |g.issued| ==> 0 < g.issued[i] < g.issued[j]
  {
  }

  /** The sort only runs when the specs are dirty, a sort column is given and
      there are at least two rows. */
  predicate SortRuns(dirty: bool, spec: Option<ColumnSortSpec>, rows: seq<Row>) {
    dirty && spec.Some? && |rows| > 1
  }

  class ImguiWidget {
    /** The number this window got at construction. */
    const myWinNum: int
    var tableList: seq<Row>
    /** ImGui's `SpecsDirty` flag of the table's sort specs. */
    var specsDirty: bool
    /** The requested, not yet applied positioning mode, or NoRequest. */
    var nextWinPosMode: int
    /** Host state: the window's positioning mode and geometry, and whether the
        flight loop exists and is scheduled. */
    var hostMode: int
    var geometry: Rect
    var loopCreated: bool
    var loopScheduled: bool

    /** A pending request always has the callback scheduled to apply it. */
    ghost predicate Valid()
      reads this
    {
      IsRequestValue(nextWinPosMode) && (nextWinPosMode != NoRequest ==> loopScheduled) && loopCreated
    }

    /** Takes the next window number, copies the template table and gives each
        row a heading from a draw of `rand()`; creates the flight loop without
        scheduling it. */
    constructor (ctx: Globals, left: int, top: int, right: int, bottom: int, draws: seq<int>)
      requires ctx.Valid()
      requires |draws| == |TableContent| && forall i :: 0 <= i < |draws| ==> draws[i] >= 0
      modifies ctx
      ensures ctx.Valid() && myWinNum == old(ctx.numWin) + 1 && ctx.numWin == myWinNum
      ensures ctx.issued == old(ctx.issued) + [myWinNum] && myWinNum !in old(ctx.issued)
      ensures ctx.searchText == old(ctx.searchText)
      ensures ctx.newTail == old(ctx.newTail) && ctx.newType == old(ctx.newType)
      ensures ctx.newModel == old(ctx.newModel) && ctx.newOwner == old(ctx.newOwner)
      ensures ctx.newHeading == old(ctx.newHeading) && ctx.newTurnsLeft == old(ctx.newTurnsLeft)
      ensures tableList == Seeded(TableContent, draws) && HeadingsInCircle(tableList)
      ensures Valid() && nextWinPosMode == NoRequest && !loopScheduled
      ensures hostMode == PositionFree && geometry == Rect(left, top, right, bottom)
      ensures specsDirty
    {
      ctx.numWin := ctx.numWin + 1;
      ctx.issued := ctx.issued + [ctx.numWin];
      myWinNum := ctx.numWin;
      tableList := TableContent;
      specsDirty := true;
      nextWinPosMode := NoRequest;
      hostMode := PositionFree;
      geometry := Rect(left, top, right, bottom);
      loopCreated := true;
      loopScheduled := false;
      new;
      var i := 0;
      while i < |tableList|
        invariant 0 <= i <= |tableList| == |TableContent|
        invariant forall k :: 0 <= k < i ==> tableList[k] == Seeded(TableContent, draws)[k]
        invariant forall k :: i <= k < |tableList| ==> tableList[k] == TableContent[k]
        modifies this`tableList
      {
        tableList := tableList[i := tableList[i].(heading := SeedHeading(draws[i]))];
        i := i + 1;
      }
    }

    /** The destructor: the flight loop is destroyed, so no callback can fire
        into the dead window; the window counter is left alone. */
    method Destroy()
      modifies this`loopCreated, this`loopScheduled
      ensures !loopCreated && !loopScheduled
    {
      loopCreated := false;
      loopScheduled := false;
    }

    // -------------------------------------------------------------------------
    // Window mode

    predicate IsPoppedOut()
      reads this
    {
      hostMode == PopOut
    }

    predicate IsInVR()
      reads this
    {
      hostMode == InVR
    }

    /** The window-mode buttons of the render pass: a fired button only records
        the request and the flight loop is scheduled; the mode and geometry are
        not touched here. */
    method DrawModeButtons(vrEnabled: bool, clicks: ModeClicks)
      requires Valid()
      modifies this`nextWinPosMode, this`loopScheduled
      ensures Valid()
      ensures nextWinPosMode == Requested(old(nextWinPosMode), hostMode, vrEnabled, clicks)
      ensures loopScheduled == (old(loopScheduled) || nextWinPosMode != NoRequest)
    {
      var btnPopOut := !IsPoppedOut();
      var btnPopIn := IsPoppedOut() || IsInVR();
      var btnVR := vrEnabled && !IsInVR();
      var numBtn := (if btnPopOut then 1 else 0) + (if btnPopIn then 1 else 0) + (if btnVR then 1 else 0);
      if numBtn > 0 {
        if btnVR && clicks.vr {
          nextWinPosMode := InVR;
        }
        if btnPopIn && clicks.popIn {
          nextWinPosMode := PositionFree;
        }
        if btnPopOut && clicks.popOut {
          nextWinPosMode := PopOut;
        }
        if nextWinPosMode >= 0 {
          loopScheduled := true;
        }
      }
    }

    /** `cbFlightLoop`, outside the render pass: applies a pending mode once,
        re-anchors the window at the host's standard top-left corner
        (`anchorLeft`, `anchorTop`, from `CalcWinCoords`) with its size kept
        when returning to free-floating, clears the request and returns 0 so
        that it is not called again. */
    method FlightLoopCallback(anchorLeft: int, anchorTop: int) returns (interval: real)
      requires Valid()
      modifies this`nextWinPosMode, this`hostMode, this`geometry, this`loopScheduled
      ensures Valid() && interval == 0.0 && !loopScheduled && nextWinPosMode == NoRequest
      ensures old(nextWinPosMode) != NoRequest ==> hostMode == old(nextWinPosMode)
      ensures old(nextWinPosMode) == PositionFree ==>
                geometry == Reanchored(old(geometry), anchorLeft, anchorTop)
      ensures old(nextWinPosMode) != PositionFree ==> geometry == old(geometry)
      ensures old(nextWinPosMode) == NoRequest ==> hostMode == old(hostMode)
    {
      if nextWinPosMode >= 0 {
        hostMode := nextWinPosMode;
        if nextWinPosMode == PositionFree {
          var width := geometry.right - geometry.left;
          var height := geometry.top - geometry.bottom;
          geometry := Rect(anchorLeft, anchorTop, anchorLeft + width, anchorTop - height);
        }
        nextWinPosMode := NoRequest;
      }
      loopScheduled := false;
      interval := 0.0;
    }

    // -------------------------------------------------------------------------
    // The table

    /** The search box reported an edit: the shared search text is `text`, and
        every row's `filtered` flag is recomputed. */
    method SearchTextEdited(ctx: Globals, text: string)
      modifies this`tableList, ctx`searchText
      ensures ctx.searchText == text
      ensures tableList == Refiltered(old(tableList), text)
    {
      ctx.searchText := text;
      var i := 0;
      while i < |tableList|
        invariant 0 <= i <= |tableList| == |old(tableList)|
        invariant forall k :: 0 <= k < i ==> tableList[k] == Refiltered(old(tableList), text)[k]
        invariant forall k :: i <= k < |tableList| ==> tableList[k] == old(tableList)[k]
        modifies this`tableList
      {
        var shown := if ctx.searchText != [] then Contains(tableList[i], ctx.searchText) else true;
        tableList := tableList[i := tableList[i].(filtered := shown)];
        i := i + 1;
      }
    }

    /** Turns every aircraft by the elapsed time `dt`. */
    method AnimateHeadings(dt: real)
      modifies this`tableList
      ensures tableList == Animated(old(tableList), dt)
    {
      var i := 0;
      while i < |tableList|
        invariant 0 <= i <= |tableList| == |old(tableList)|
        invariant forall k :: 0 <= k < i ==> tableList[k] == Animated(old(tableList), dt)[k]
        invariant forall k :: i <= k < |tableList| ==> tableList[k] == old(tableList)[k]
      {
        var h := tableList[i].heading;
        if tableList[i].turnsLeft {
          h := h - dt;
          if h < 0.0 {
            h := h + 360.0;
          }
        } else {
          h := h + dt;
          if h >= 360.0 {
            h := h - 360.0;
          }
        }
        tableList := tableList[i := tableList[i].(heading := h)];
        i := i + 1;
      }
    }

    /** Sorts the table in place by the given column and direction when the
        specs are dirty and there are two rows or more, then clears the flag. */
    method SortTable(spec: Option<ColumnSortSpec>)
      modifies this`tableList, this`specsDirty
      ensures multiset(tableList) == multiset(old(tableList))
      ensures SortRuns(old(specsDirty), spec, old(tableList)) ==>
                !specsDirty &&
                (spec.value.columnIndex != HeadingColumn ==> SortedBy(tableList, RowLess(spec.value)))
      ensures !SortRuns(old(specsDirty), spec, old(tableList)) ==>
                tableList == old(tableList) && specsDirty == old(specsDirty)
    {
      if specsDirty && spec.Some? && |tableList| > 1 {
        var rows := tableList;
        var a := new Row[|rows|](i requires 0 <= i < |rows| => rows[i]);
        assert a[..] == rows;
        SortInPlace(a, RowLess(spec.value));
        tableList := a[..];
        specsDirty := false;
        RowLessStrictWeakIff(spec.value);
      }
    }

    /** Draws the shown rows in order, applying their checkbox and compass
        buttons; a fired delete button only marks its row, and the marked row
        is erased after the loop. */
    method DrawRows(inputs: seq<RowInput>)
      requires |inputs| == |tableList|
      modifies this`tableList
      ensures tableList == Erased(EditedRows(old(tableList), inputs),
                                  MarkedRow(old(tableList), inputs, |old(tableList)|))
    {
      ghost var rows := tableList;
      ghost var edited := EditedRows(rows, inputs);
      var delIter := |tableList|;
      var i := 0;
      while i < |tableList|
        invariant 0 <= i <= |tableList| == |rows| == |edited|
        invariant forall k :: 0 <= k < i ==> tableList[k] == edited[k]
        invariant forall k :: i <= k < |tableList| ==> tableList[k] == rows[k]
        invariant delIter == match MarkedRow(rows, inputs, i)
                             case None => |tableList|
                             case Some(k) => k
      {
        var td := tableList[i];
        if td.filtered {
          tableList := tableList[i := Edited(td, inputs[i])];
          if inputs[i].delete {
            delIter := i;
          }
        }
        i := i + 1;
      }
      assert tableList == edited;
      if delIter != |tableList| {
        tableList := RemoveAt(tableList, delIter);
      }
    }

    /** The "Add" row: with all four staging texts entered and the button
        pressed, appends the new row and resets the staging fields. */
    method AddRow(ctx: Globals, clicked: bool)
      modifies this`tableList, ctx`newTail, ctx`newType, ctx`newModel, ctx`newOwner,
               ctx`newHeading, ctx`newTurnsLeft
      ensures tableList == Appended(old(tableList), old(ctx.newTail), old(ctx.newType), old(ctx.newModel),
                                    old(ctx.newOwner), old(ctx.newHeading), old(ctx.newTurnsLeft), clicked)
      ensures clicked && CanAdd(old(ctx.newTail), old(ctx.newType), old(ctx.newModel), old(ctx.newOwner)) ==>
                ctx.newTail == [] && ctx.newType == [] && ctx.newModel == [] && ctx.newOwner == [] &&
                ctx.newHeading == 0 && !ctx.newTurnsLeft
      ensures !(clicked && CanAdd(old(ctx.newTail), old(ctx.newType), old(ctx.newModel), old(ctx.newOwner))) ==>
                ctx.newTail == old(ctx.newTail) && ctx.newType == old(ctx.newType) &&
                ctx.newModel == old(ctx.newModel) && ctx.newOwner == old(ctx.newOwner) &&
                ctx.newHeading == old(ctx.newHeading) && ctx.newTurnsLeft == old(ctx.newTurnsLeft)
    {
      if ctx.newTail != [] && ctx.newType != [] && ctx.newModel != [] && ctx.newOwner != [] {
        if clicked {
          tableList := tableList + [NewRow(ctx.newTail, ctx.newType, ctx.newModel, ctx.newOwner,
                                           ctx.newHeading, ctx.newTurnsLeft)];
          ctx.newTail, ctx.newType, ctx.newModel, ctx.newOwner := [], [], [], [];
          ctx.newHeading := 0;
          ctx.newTurnsLeft := false;
        }
      }
    }

    /** The table block of one frame, in the order the render code runs it:
        the filter pass when the search text was edited; then, when the table
        is drawn, animation, sort, the row pass with its deferred delete, and
        the "Add" row. `sorted` is the table as the sort left it. */
    method RenderTable(ctx: Globals, edit: Option<string>, tableDrawn: bool, dt: real,
                       spec: Option<ColumnSortSpec>, inputs: seq<RowInput>, addClicked: bool)
      returns (ghost sorted: seq<Row>)
      requires |inputs| == |tableList|
      modifies this`tableList, this`specsDirty, ctx`searchText, ctx`newTail, ctx`newType,
               ctx`newModel, ctx`newOwner, ctx`newHeading, ctx`newTurnsLeft
      ensures var filtered := if edit.Some? then Refiltered(old(tableList), edit.value) else old(tableList);
              && (!tableDrawn ==> tableList == filtered && specsDirty == old(specsDirty))
              && (tableDrawn ==>
                    && multiset(sorted) == multiset(Animated(filtered, dt))
                    && |inputs| == |sorted|
                    && tableList == Appended(Erased(EditedRows(sorted, inputs), MarkedRow(sorted, inputs, |sorted|)),
                                             old(ctx.newTail), old(ctx.newType), old(ctx.newModel),
                                             old(ctx.newOwner), old(ctx.newHeading), old(ctx.newTurnsLeft),
                                             addClicked))
      ensures var filtered := if edit.Some? then Refiltered(old(tableList), edit.value) else old(tableList);
              tableDrawn ==>
                && (SortRuns(old(specsDirty), spec, filtered) ==>
                      && !specsDirty
                      && (spec.value.columnIndex != HeadingColumn ==> SortedBy(sorted, RowLess(spec.value))))
                && (!SortRuns(old(specsDirty), spec, filtered) ==>
                      sorted == Animated(filtered, dt) && specsDirty == old(specsDirty))
      ensures ctx.searchText == if edit.Some? then edit.value else old(ctx.searchText)
      ensures tableDrawn && addClicked && CanAdd(old(ctx.newTail), old(ctx.newType), old(ctx.newModel), old(ctx.newOwner)) ==>
                ctx.newTail == [] && ctx.newType == [] && ctx.newModel == [] && ctx.newOwner == [] &&
                ctx.newHeading == 0 && !ctx.newTurnsLeft
      ensures !(tableDrawn && addClicked && CanAdd(old(ctx.newTail), old(ctx.newType), old(ctx.newModel), old(ctx.newOwner))) ==>
                ctx.newTail == old(ctx.newTail) && ctx.newType == old(ctx.newType) &&
                ctx.newModel == old(ctx.newModel) && ctx.newOwner == old(ctx.newOwner) &&
                ctx.newHeading == old(ctx.newHeading) && ctx.newTurnsLeft == old(ctx.newTurnsLeft)
    {
      if edit.Some? {
        SearchTextEdited(ctx, edit.value);
      }
      sorted := tableList;
      if tableDrawn {
        AnimateHeadings(dt);
        SortTable(spec);
        sorted := tableList;
        assert |sorted| == |multiset(sorted)|;
        DrawRows(inputs);
        AddRow(ctx, addClicked);
      }
    }
  }

  /** Three windows get the numbers 1, 2 and 3, even when the first one is
      destroyed before the third is made. */
  method WindowNumberScenario()
  {
    var ctx := new Globals();
    var draws := seq(|TableContent|, _ => 0);
    var w1 := new ImguiWidget(ctx, 0, 100, 100, 0, draws);
    var w2 := new ImguiWidget(ctx, 0, 100, 100, 0, draws);
    w1.Destroy();
    var w3 := new ImguiWidget(ctx, 0, 100, 100, 0, draws);
    assert w1.myWinNum == 1 && w2.myWinNum == 2 && w3.myWinNum == 3;
  }

  /** A pop-out request made while drawing leaves the window where it is; the
      callback applies it, and a second callback with no new request changes
      nothing. */
  method ModeChangeScenario()
  {
    var ctx := new Globals();
    var w := new ImguiWidget(ctx, 10, 500, 410, 200, seq(|TableContent|, _ => 7));
    w.DrawModeButtons(false, ModeClicks(false, false, true));
    assert w.hostMode == PositionFree && w.nextWinPosMode == PopOut && w.loopScheduled;
    var interval := w.FlightLoopCallback(20, 600);
    assert w.hostMode == PopOut && w.nextWinPosMode == NoRequest && interval == 0.0;
    assert w.geometry == Rect(10, 500, 410, 200);
    w.DrawModeButtons(false, ModeClicks(false, true, false));
    assert w.nextWinPosMode == PositionFree;
    interval := w.FlightLoopCallback(20, 600);
    assert w.hostMode == PositionFree && w.geometry == Rect(20, 600, 420, 300);
    interval := w.FlightLoopCallback(0, 0);
    assert w.hostMode == PositionFree && w.geometry == Rect(20, 600, 420, 300);
  }
}
