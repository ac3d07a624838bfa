/**
 * The signal/plot workbench: a registry of signals, an ordered list of plot panes that each
 * show the signals dropped onto them, and a single drag slot that carries a signal's row
 * index from the registry to a pane. Every operation runs inside one UI frame; what the UI
 * reports back (a row being dragged, a colour picked, the pointer over a pane and released,
 * a close button or resize handle used, the height still available) is passed in as data.
 */
module Tplot {
  import opened Wrappers

  /** `Color32`: an RGBA colour, copied into an attachment when a signal is dropped. */
  datatype Color = Color(r: bv8, g: bv8, b: bv8, a: bv8)

  const Red: Color := Color(255, 0, 0, 255)
  const Blue: Color := Color(0, 0, 255, 255)

  /** Which closed-form function a signal samples (its `data_fn`). */
  datatype SignalKind = StepFunction | SineWave

  datatype Signal = Signal(name: string, color: Color, kind: SignalKind)

  /** A signal shown in a plot: a row index into the registry and the colour it had when dropped. */
  datatype ActiveSignal = ActiveSignal(signalIndex: nat, color: Color)

  datatype PlotInstance = PlotInstance(title: string, height: real, activeSignals: seq<ActiveSignal>)

  const DefaultHeight: real := 300.0
  /** The lower clamp applied when a pane is resized. */
  const MinHeight: real := 100.0

  /** `PlotInstance::default()`: every new pane is titled "Plot 1". */
  function DefaultPlot(): (p: PlotInstance)
    ensures p.title == "Plot 1" && p.activeSignals == [] && MinHeight <= p.height
  {
    PlotInstance("Plot 1", DefaultHeight, [])
  }

  /** The two signals the registry is seeded with. */
  function SeededSignals(): (r: seq<Signal>)
    ensures |r| == 2 && r[0].name != r[1].name
    ensures r[0].color == Red && r[1].color == Blue
  {
    [Signal("Step Function", Red, StepFunction), Signal("Sine Wave", Blue, SineWave)]
  }

  /** The registry after lazy initialisation: seeded when empty, untouched otherwise. */
  function InitialSignals(signals: seq<Signal>): (r: seq<Signal>)
    ensures |r| >= 1 && |r| >= |signals|
    ensures signals != [] ==> r == signals
  {
    if signals == [] then SeededSignals() else signals
  }

  /** The pane list after lazy initialisation: one default pane when empty, untouched otherwise. */
  function InitialPlots(plots: seq<PlotInstance>): (r: seq<PlotInstance>)
    ensures |r| >= 1 && |r| >= |plots|
    ensures plots != [] ==> r == plots
  {
    if plots == [] then [DefaultPlot()] else plots
  }

  // ---------------------------------------------------------------------------
  // What the UI reports for one frame
  // ---------------------------------------------------------------------------

  /** One registry row: is it being dragged, and did its colour button pick a new colour. */
  datatype RowInput = RowInput(dragged: bool, pickedColor: Option<Color>)

  /**
   * One pane: its close button was clicked, the pointer is over the plot area, a pointer
   * button was released, the resize handle moved by a delta, the height left in the layout.
   */
  datatype PlotInput = PlotInput(
    closeClicked: bool,
    hovered: bool,
    released: bool,
    resizeDelta: Option<real>,
    availableHeight: real)

  /** The pointer was released over this pane. */
  predicate Drops(input: PlotInput) {
    input.hovered && input.released
  }

  // ---------------------------------------------------------------------------
  // Invariants
  // ---------------------------------------------------------------------------

  /** Every signal a pane shows refers to one of the first `n` registry rows. */
  predicate AttachmentsIn(p: PlotInstance, n: nat) {
    forall j :: 0 <= j < |p.activeSignals| ==> p.activeSignals[j].signalIndex < n
  }

  /** Every pane's attachments name rows of a registry of `n` signals. */
  predicate AllAttachmentsIn(ps: seq<PlotInstance>, n: nat) {
    forall k :: 0 <= k < |ps| ==> AttachmentsIn(ps[k], n)
  }

  /** Removing a pane keeps every remaining pane's attachments within the registry. */
  lemma RemoveKeepsAttachments(ps: seq<PlotInstance>, i: nat, n: nat)
    requires AllAttachmentsIn(ps, n) && i < |ps|
    ensures AllAttachmentsIn(ps[..i] + ps[i + 1..], n)
  {
    var rest := ps[..i] + ps[i + 1..];
    forall k | 0 <= k < |rest|
      ensures AttachmentsIn(rest[k], n)
    {
      if k < i {
        assert rest[k] == ps[k];
      } else {
        assert rest[k] == ps[k + 1];
      }
    }
  }

  predicate DragIn(drag: Option<nat>, n: nat) {
    drag.Some? ==> drag.value < n
  }

  // ---------------------------------------------------------------------------
  // Pure specification of one frame
  // ---------------------------------------------------------------------------

  /** A registry row after its colour button: the picked colour, if any, replaces the old one. */
  function Recolored(s: Signal, row: RowInput): (r: Signal)
    ensures r.name == s.name && r.kind == s.kind
    ensures row.pickedColor.Some? ==> r.color == row.pickedColor.value
    ensures row.pickedColor.None? ==> r == s
  {
    s.(color := row.pickedColor.GetOr(s.color))
  }

  /** The drag slot after the rows of one frame: the last row reporting a drag writes it. */
  function LastDragged(rows: seq<RowInput>, drag: Option<nat>): (r: Option<nat>)
    ensures r == drag || (r.Some? && r.value < |rows|)
    decreases |rows|
  {
    if rows == [] then drag
    else if rows[|rows| - 1].dragged then Some(|rows| - 1)
    else LastDragged(rows[..|rows| - 1], drag)
  }

  /** Row `k` is the last one in the frame reporting a drag. */
  predicate IsLastDragged(rows: seq<RowInput>, k: int) {
    0 <= k < |rows| && rows[k].dragged && forall j :: k < j < |rows| ==> !rows[j].dragged
  }

  /** With several rows reporting a drag in one frame the last one wins; with none the slot is kept. */
  lemma {:induction false} LastDraggedWins(rows: seq<RowInput>, drag: Option<nat>)
    ensures forall k :: IsLastDragged(rows, k) ==> LastDragged(rows, drag) == Some(k)
    ensures (forall k :: 0 <= k < |rows| ==> !rows[k].dragged) ==> LastDragged(rows, drag) == drag
    decreases |rows|
  {
    if rows != [] {
      var init := rows[..|rows| - 1];
      LastDraggedWins(init, drag);
      forall k | IsLastDragged(rows, k) && k < |rows| - 1
        ensures IsLastDragged(init, k)
      {
      }
    }
  }

  /** The resize clamp `(h + dy).max(100.0).min(available)`. */
  function Resized(height: real, dy: real, available: real): (r: real)
    ensures r <= available
    ensures available >= MinHeight ==> r >= MinHeight
    ensures MinHeight <= height + dy <= available ==> r == height + dy
    ensures height + dy > available ==> r == available
    ensures height + dy < MinHeight <= available ==> r == MinHeight
    ensures available < MinHeight ==> r == available
    ensures r == available || r == MinHeight || r == height + dy
  {
    var atLeast := if height + dy >= MinHeight then height + dy else MinHeight;
    if atLeast <= available then atLeast else available
  }

  /** A pane's height after this frame's resize handle. */
  function NewHeight(height: real, input: PlotInput): (r: real)
    ensures input.resizeDelta.None? ==> r == height
    ensures input.resizeDelta.Some? ==> r <= input.availableHeight
    ensures input.resizeDelta.Some? && MinHeight <= input.availableHeight ==> MinHeight <= r
  {
    match input.resizeDelta
    case Some(dy) => Resized(height, dy, input.availableHeight)
    case None => height
  }

  /** A pane and the drag slot after the pane has been shown. */
  datatype Shown = Shown(plot: PlotInstance, drag: Option<nat>)

  /** One pane shown with the drag slot as it stands: a drop over it takes the dragged signal. */
  function ShowPlotStep(p: PlotInstance, drag: Option<nat>, signals: seq<Signal>, input: PlotInput): (r: Shown)
    requires DragIn(drag, |signals|)
    ensures r.plot.title == p.title && (r.drag == drag || r.drag == None)
  {
    var dropped := drag.Some? && Drops(input);
    var attached := if dropped
      then p.(activeSignals := p.activeSignals + [ActiveSignal(drag.value, signals[drag.value].color)])
      else p;
    Shown(attached.(height := NewHeight(p.height, input)), if dropped then None else drag)
  }

  /**
   * What showing one pane does: the title is kept and the height follows the resize handle; a
   * release over the pane while a signal is dragged appends that signal with its current colour
   * and empties the drag slot, and otherwise the attachments and the slot are unchanged.
   */
  lemma ShowPlotStepEffect(p: PlotInstance, drag: Option<nat>, signals: seq<Signal>, input: PlotInput)
    requires DragIn(drag, |signals|)
    ensures var s := ShowPlotStep(p, drag, signals, input);
      && s.plot.title == p.title
      && s.plot.height == NewHeight(p.height, input)
      && (drag.Some? && Drops(input) ==>
            s.plot.activeSignals == p.activeSignals + [ActiveSignal(drag.value, signals[drag.value].color)]
            && s.drag == None)
      && (!(drag.Some? && Drops(input)) ==> s.plot.activeSignals == p.activeSignals && s.drag == drag)
  {
  }

  /** Shows every pane in order, threading the drag slot from one to the next. */
  function VisitPlots(ps: seq<PlotInstance>, drag: Option<nat>, signals: seq<Signal>, inputs: seq<PlotInput>)
    : (r: (seq<PlotInstance>, Option<nat>))
    requires |ps| == |inputs| && DragIn(drag, |signals|)
    ensures |r.0| == |ps|
    ensures r.1 == drag || r.1 == None
    decreases |ps|
  {
    if ps == [] then ([], drag)
    else
      var before := VisitPlots(ps[..|ps| - 1], drag, signals, inputs[..|inputs| - 1]);
      var last := ShowPlotStep(ps[|ps| - 1], before.1, signals, inputs[|inputs| - 1]);
      (before.0 + [last.plot], last.drag)
  }

  /** Showing one more pane extends the shown list by that pane. */
  lemma VisitPlotsSnoc(ps: seq<PlotInstance>, drag: Option<nat>, signals: seq<Signal>, inputs: seq<PlotInput>, n: nat)
    requires |ps| == |inputs| && DragIn(drag, |signals|) && n < |ps|
    ensures var before := VisitPlots(ps[..n], drag, signals, inputs[..n]);
      var step := ShowPlotStep(ps[n], before.1, signals, inputs[n]);
      VisitPlots(ps[..n + 1], drag, signals, inputs[..n + 1]) == (before.0 + [step.plot], step.drag)
  {
    assert ps[..n + 1][..n] == ps[..n];
    assert inputs[..n + 1][..n] == inputs[..n];
  }

  /** The panes whose close button was not clicked, in their order. */
  function Kept(ps: seq<PlotInstance>, inputs: seq<PlotInput>): (r: seq<PlotInstance>)
    requires |ps| == |inputs|
    ensures |r| <= |ps|
    decreases |ps|
  {
    if ps == [] then []
    else
      Kept(ps[..|ps| - 1], inputs[..|inputs| - 1])
      + (if inputs[|inputs| - 1].closeClicked then [] else [ps[|ps| - 1]])
  }

  /** How many of the first `k` panes stay open: the position a kept pane moves to. */
  function OpenBefore(inputs: seq<PlotInput>, k: nat): nat
    requires k <= |inputs|
    decreases k
  {
    if k == 0 then 0 else OpenBefore(inputs, k - 1) + (if inputs[k - 1].closeClicked then 0 else 1)
  }

  /** A pane that stays open moves to a later position than every open pane before it. */
  lemma {:induction false} OpenBeforeIncreasing(inputs: seq<PlotInput>, j: nat, k: nat)
    requires j < k <= |inputs| && !inputs[j].closeClicked
    ensures OpenBefore(inputs, j) < OpenBefore(inputs, k)
    decreases k
  {
    if j < k - 1 {
      OpenBeforeIncreasing(inputs, j, k - 1);
    }
  }

  /** Some open pane of the frame moves to position `i`. */
  predicate OpenPaneLandsAt(inputs: seq<PlotInput>, i: int) {
    exists k :: 0 <= k < |inputs| && !inputs[k].closeClicked && OpenBefore(inputs, k) == i
  }

  /** The close loop keeps as many panes as were not closed. */
  lemma {:induction false} KeptLength(ps: seq<PlotInstance>, inputs: seq<PlotInput>)
    requires |ps| == |inputs|
    ensures |Kept(ps, inputs)| == OpenBefore(inputs, |inputs|)
    decreases |ps|
  {
    if ps != [] {
      var n := |ps| - 1;
      KeptLength(ps[..n], inputs[..n]);
      OpenBeforePrefix(inputs, n, n);
    }
  }

  /**
   * The close loop keeps every pane whose close button was not clicked, at position
   * OpenBefore(k); since these positions increase with `k` (OpenBeforeIncreasing), the kept
   * panes stay in their relative order.
   */
  lemma {:induction false} KeptPlacesOpenPanes(ps: seq<PlotInstance>, inputs: seq<PlotInput>)
    requires |ps| == |inputs|
    ensures forall k :: 0 <= k < |ps| && !inputs[k].closeClicked ==>
      OpenBefore(inputs, k) < |Kept(ps, inputs)| && Kept(ps, inputs)[OpenBefore(inputs, k)] == ps[k]
    decreases |ps|
  {
    if ps != [] {
      var n := |ps| - 1;
      var initPs, initIn := ps[..n], inputs[..n];
      KeptPlacesOpenPanes(initPs, initIn);
      KeptLength(initPs, initIn);
      OpenBeforePrefix(inputs, n, n);
      var kept := Kept(ps, inputs);
      forall k | 0 <= k < |ps| && !inputs[k].closeClicked
        ensures OpenBefore(inputs, k) < |kept| && kept[OpenBefore(inputs, k)] == ps[k]
      {
        if k < n {
          OpenBeforePrefix(inputs, n, k);
          assert !initIn[k].closeClicked;
        }
      }
    }
  }

  /** Every pane the close loop keeps is an open pane moved to its position. */
  lemma {:induction false} KeptOnlyOpenPanes(ps: seq<PlotInstance>, inputs: seq<PlotInput>)
    requires |ps| == |inputs|
    ensures forall i :: 0 <= i < |Kept(ps, inputs)| ==> OpenPaneLandsAt(inputs, i)
    decreases |ps|
  {
    if ps != [] {
      var n := |ps| - 1;
      var initPs, initIn := ps[..n], inputs[..n];
      KeptOnlyOpenPanes(initPs, initIn);
      KeptLength(initPs, initIn);
      OpenBeforePrefix(inputs, n, n);
      var kept := Kept(ps, inputs);
      var initKept := Kept(initPs, initIn);
      forall i | 0 <= i < |kept|
        ensures OpenPaneLandsAt(inputs, i)
      {
        if i < |initKept| {
          assert OpenPaneLandsAt(initIn, i);
          var k :| 0 <= k < n && !initIn[k].closeClicked && OpenBefore(initIn, k) == i;
          OpenBeforePrefix(inputs, n, k);
          assert !inputs[k].closeClicked && OpenBefore(inputs, k) == i;
        } else {
          assert !inputs[n].closeClicked && OpenBefore(inputs, n) == i;
        }
      }
    }
  }

  /** OpenBefore only looks at the panes before `k`. */
  lemma {:induction false} OpenBeforePrefix(inputs: seq<PlotInput>, n: nat, k: nat)
    requires k <= n <= |inputs|
    ensures OpenBefore(inputs[..n], k) == OpenBefore(inputs, k)
    decreases k
  {
    if k > 0 {
      OpenBeforePrefix(inputs, n, k - 1);
    }
  }

  /** Pane `k` is the first pane of the frame the pointer was released over. */
  predicate IsFirstDrop(inputs: seq<PlotInput>, k: int) {
    0 <= k < |inputs| && Drops(inputs[k]) && forall j :: 0 <= j < k ==> !Drops(inputs[j])
  }

  predicate AnyDrop(inputs: seq<PlotInput>) {
    exists k :: 0 <= k < |inputs| && Drops(inputs[k])
  }

  /** Some pane of a longer list is released over: one of the first panes, or the last. */
  lemma AnyDropSnoc(inputs: seq<PlotInput>)
    requires inputs != []
    ensures AnyDrop(inputs) <==> AnyDrop(inputs[..|inputs| - 1]) || Drops(inputs[|inputs| - 1])
  {
    var n := |inputs| - 1;
    if AnyDrop(inputs[..n]) {
      var k :| 0 <= k < n && Drops(inputs[..n][k]);
      assert Drops(inputs[k]);
    }
    if AnyDrop(inputs) && !Drops(inputs[n]) {
      var k :| 0 <= k < |inputs| && Drops(inputs[k]);
      assert Drops(inputs[..n][k]);
    }
  }

  /** The drag slot after the panes is emptied exactly when some pane was released over. */
  lemma {:induction false} VisitPlotsDrag(
    ps: seq<PlotInstance>, drag: Option<nat>, signals: seq<Signal>, inputs: seq<PlotInput>)
    requires |ps| == |inputs| && DragIn(drag, |signals|)
    ensures VisitPlots(ps, drag, signals, inputs).1 == if AnyDrop(inputs) then None else drag
    decreases |ps|
  {
    if ps != [] {
      var n := |ps| - 1;
      VisitPlotsDrag(ps[..n], drag, signals, inputs[..n]);
      AnyDropSnoc(inputs);
    }
  }

  /** Showing the panes keeps every title and applies each pane's own resize handle. */
  lemma {:induction false} VisitPlotsShape(
    ps: seq<PlotInstance>, drag: Option<nat>, signals: seq<Signal>, inputs: seq<PlotInput>)
    requires |ps| == |inputs| && DragIn(drag, |signals|)
    ensures forall k :: 0 <= k < |ps| ==> VisitPlots(ps, drag, signals, inputs).0[k].title == ps[k].title
    ensures forall k :: 0 <= k < |ps| ==>
      VisitPlots(ps, drag, signals, inputs).0[k].height == NewHeight(ps[k].height, inputs[k])
    decreases |ps|
  {
    if ps != [] {
      var n := |ps| - 1;
      VisitPlotsShape(ps[..n], drag, signals, inputs[..n]);
      var before := VisitPlots(ps[..n], drag, signals, inputs[..n]);
      assert VisitPlots(ps, drag, signals, inputs).0 ==
        before.0 + [ShowPlotStep(ps[n], before.1, signals, inputs[n]).plot];
    }
  }

  /** The dragged signal is attached to the first pane released over, and to no other. */
  lemma {:induction false} VisitPlotsAttach(
    ps: seq<PlotInstance>, drag: Option<nat>, signals: seq<Signal>, inputs: seq<PlotInput>)
    requires |ps| == |inputs| && DragIn(drag, |signals|)
    ensures forall k :: 0 <= k < |ps| ==>
      VisitPlots(ps, drag, signals, inputs).0[k].activeSignals ==
        ps[k].activeSignals
        + (if drag.Some? && IsFirstDrop(inputs, k)
           then [ActiveSignal(drag.value, signals[drag.value].color)] else [])
    decreases |ps|
  {
    if ps != [] {
      var n := |ps| - 1;
      var initPs, initIn := ps[..n], inputs[..n];
      VisitPlotsAttach(initPs, drag, signals, initIn);
      VisitPlotsDrag(initPs, drag, signals, initIn);
      var before := VisitPlots(initPs, drag, signals, initIn);
      assert VisitPlots(ps, drag, signals, inputs).0 ==
        before.0 + [ShowPlotStep(ps[n], before.1, signals, inputs[n]).plot];
      assert forall k :: 0 <= k < n ==> IsFirstDrop(initIn, k) == IsFirstDrop(inputs, k);
      assert IsFirstDrop(inputs, n) <==> !AnyDrop(initIn) && Drops(inputs[n]) by {
        if AnyDrop(initIn) {
          var k :| 0 <= k < n && Drops(initIn[k]);
          assert Drops(inputs[k]);
        }
      }
    }
  }

  /**
   * Showing the panes of one frame: titles are kept, each height follows its resize handle,
   * a dragged signal is attached to the first pane the pointer was released over and to no
   * other, and the drag slot is emptied by that drop and by nothing else.
   */
  lemma VisitPlotsEffect(
    ps: seq<PlotInstance>, drag: Option<nat>, signals: seq<Signal>, inputs: seq<PlotInput>)
    requires |ps| == |inputs| && DragIn(drag, |signals|)
    ensures forall k :: 0 <= k < |ps| ==> VisitPlots(ps, drag, signals, inputs).0[k].title == ps[k].title
    ensures forall k :: 0 <= k < |ps| ==>
      VisitPlots(ps, drag, signals, inputs).0[k].height == NewHeight(ps[k].height, inputs[k])
    ensures forall k :: 0 <= k < |ps| ==>
      VisitPlots(ps, drag, signals, inputs).0[k].activeSignals ==
        ps[k].activeSignals
        + (if drag.Some? && IsFirstDrop(inputs, k)
           then [ActiveSignal(drag.value, signals[drag.value].color)] else [])
    ensures VisitPlots(ps, drag, signals, inputs).1 == if AnyDrop(inputs) then None else drag
  {
    VisitPlotsShape(ps, drag, signals, inputs);
    VisitPlotsAttach(ps, drag, signals, inputs);
    VisitPlotsDrag(ps, drag, signals, inputs);
  }

  /** The number of signals shown over all panes. */
  function TotalAttachments(ps: seq<PlotInstance>): nat
    decreases |ps|
  {
    if ps == [] then 0 else TotalAttachments(ps[..|ps| - 1]) + |ps[|ps| - 1].activeSignals|
  }

  /** One release attaches at most one signal over all panes, and only while a drag is active. */
  lemma {:induction false} OneAttachmentPerRelease(
    ps: seq<PlotInstance>, drag: Option<nat>, signals: seq<Signal>, inputs: seq<PlotInput>)
    requires |ps| == |inputs| && DragIn(drag, |signals|)
    ensures TotalAttachments(VisitPlots(ps, drag, signals, inputs).0) ==
      TotalAttachments(ps) + (if drag.Some? && AnyDrop(inputs) then 1 else 0)
    decreases |ps|
  {
    if ps != [] {
      var n := |ps| - 1;
      var initPs, initIn := ps[..n], inputs[..n];
      OneAttachmentPerRelease(initPs, drag, signals, initIn);
      VisitPlotsDrag(initPs, drag, signals, initIn);
      AnyDropSnoc(inputs);
      var before := VisitPlots(initPs, drag, signals, initIn);
      var all := VisitPlots(ps, drag, signals, inputs);
      assert all.0[..n] == before.0;
      assert ps[..n] == initPs;
    }
  }

  /**
   * Attachments are not de-duplicated: dropping the same row on the same pane in two frames
   * leaves two identical entries at its end.
   */
  lemma DuplicateDrops(p: PlotInstance, idx: nat, signals: seq<Signal>, first: PlotInput, second: PlotInput)
    requires idx < |signals| && Drops(first) && Drops(second)
    ensures var once := ShowPlotStep(p, Some(idx), signals, first);
      once.drag == None &&
      ShowPlotStep(once.plot, Some(idx), signals, second).plot.activeSignals ==
        p.activeSignals + [ActiveSignal(idx, signals[idx].color), ActiveSignal(idx, signals[idx].color)]
  {
  }

  lemma ReplaceMiddle<T>(front: seq<T>, x: T, y: T, back: seq<T>)
    ensures (front + [x] + back)[|front| := y] == front + [y] + back
  {
  }

  lemma RemoveMiddle<T>(front: seq<T>, x: T, back: seq<T>)
    ensures var s := front + [x] + back; s[..|front|] + s[|front| + 1..] == front + back
  {
    var s := front + [x] + back;
    assert s[..|front|] == front;
    assert s[|front| + 1..] == back;
  }

  /**
   * The state of the close loop after `visited` panes: the kept panes shown so far, then the
   * panes not yet shown; `i` is where the next pane to show sits.
   */
  ghost predicate ClosedSoFar(
    plots: seq<PlotInstance>, i: nat, drag: Option<nat>,
    ps0: seq<PlotInstance>, drag0: Option<nat>, signals: seq<Signal>, inputs: seq<PlotInput>, visited: nat)
  {
    && |ps0| == |inputs| && DragIn(drag0, |signals|) && visited <= |ps0|
    && var shown := VisitPlots(ps0[..visited], drag0, signals, inputs[..visited]);
       var kept := Kept(shown.0, inputs[..visited]);
       plots == kept + ps0[visited..] && i == |kept| && drag == shown.1
  }

  lemma ClosedSoFarNext(
    plots: seq<PlotInstance>, i: nat, drag: Option<nat>,
    ps0: seq<PlotInstance>, drag0: Option<nat>, signals: seq<Signal>, inputs: seq<PlotInput>, visited: nat)
    requires ClosedSoFar(plots, i, drag, ps0, drag0, signals, inputs, visited)
    requires i < |plots|
    ensures visited < |ps0| && plots[i] == ps0[visited] && DragIn(drag, |signals|)
  {
  }

  lemma ClosedSoFarDone(
    plots: seq<PlotInstance>, i: nat, drag: Option<nat>,
    ps0: seq<PlotInstance>, drag0: Option<nat>, signals: seq<Signal>, inputs: seq<PlotInput>, visited: nat)
    requires ClosedSoFar(plots, i, drag, ps0, drag0, signals, inputs, visited)
    requires i >= |plots|
    ensures plots == Kept(VisitPlots(ps0, drag0, signals, inputs).0, inputs)
    ensures drag == VisitPlots(ps0, drag0, signals, inputs).1
  {
    assert ps0[..visited] == ps0 && inputs[..visited] == inputs;
  }

  /** Showing one more pane adds it to the kept panes unless its close button was clicked. */
  lemma KeptAfterNext(
    ps0: seq<PlotInstance>, drag0: Option<nat>, signals: seq<Signal>, inputs: seq<PlotInput>, visited: nat)
    requires |ps0| == |inputs| && DragIn(drag0, |signals|) && visited < |ps0|
    ensures var before := VisitPlots(ps0[..visited], drag0, signals, inputs[..visited]);
      var step := ShowPlotStep(ps0[visited], before.1, signals, inputs[visited]);
      var after := VisitPlots(ps0[..visited + 1], drag0, signals, inputs[..visited + 1]);
      && after.1 == step.drag
      && Kept(after.0, inputs[..visited + 1]) ==
           Kept(before.0, inputs[..visited]) + (if inputs[visited].closeClicked then [] else [step.plot])
  {
    VisitPlotsSnoc(ps0, drag0, signals, inputs, visited);
    var before := VisitPlots(ps0[..visited], drag0, signals, inputs[..visited]);
    var after := VisitPlots(ps0[..visited + 1], drag0, signals, inputs[..visited + 1]);
    assert after.0[..visited] == before.0;
    assert inputs[..visited + 1][..visited] == inputs[..visited];
  }

  /** Mid-loop, the pane to show next sits between the kept panes and the panes not yet shown. */
  lemma ClosedSoFarSplit(
    plots: seq<PlotInstance>, i: nat, drag: Option<nat>,
    ps0: seq<PlotInstance>, drag0: Option<nat>, signals: seq<Signal>, inputs: seq<PlotInput>, visited: nat)
    requires ClosedSoFar(plots, i, drag, ps0, drag0, signals, inputs, visited)
    requires visited < |ps0|
    ensures var before := VisitPlots(ps0[..visited], drag0, signals, inputs[..visited]);
      var kept := Kept(before.0, inputs[..visited]);
      plots == kept + [ps0[visited]] + ps0[visited + 1..] && i == |kept| && drag == before.1
  {
    assert ps0[visited..] == [ps0[visited]] + ps0[visited + 1..];
  }

  /** A turn of the close loop that keeps pane `i` steps past it. */
  lemma CloseLoopKeep(
    plots: seq<PlotInstance>, i: nat, drag: Option<nat>,
    ps0: seq<PlotInstance>, drag0: Option<nat>, signals: seq<Signal>, inputs: seq<PlotInput>, visited: nat,
    shownPlot: PlotInstance, newDrag: Option<nat>)
    requires ClosedSoFar(plots, i, drag, ps0, drag0, signals, inputs, visited)
    requires visited < |ps0| && i < |plots| && DragIn(drag, |signals|) && !inputs[visited].closeClicked
    requires Shown(shownPlot, newDrag) == ShowPlotStep(plots[i], drag, signals, inputs[visited])
    ensures ClosedSoFar(plots[i := shownPlot], i + 1, newDrag, ps0, drag0, signals, inputs, visited + 1)
  {
    ClosedSoFarSplit(plots, i, drag, ps0, drag0, signals, inputs, visited);
    KeptAfterNext(ps0, drag0, signals, inputs, visited);
    var kept := Kept(VisitPlots(ps0[..visited], drag0, signals, inputs[..visited]).0, inputs[..visited]);
    ReplaceMiddle(kept, ps0[visited], shownPlot, ps0[visited + 1..]);
  }

  /** Closing the next pane leaves the kept panes as they were, followed by the panes not yet shown. */
  lemma ClosedAfterRemove(
    ps0: seq<PlotInstance>, drag0: Option<nat>, signals: seq<Signal>, inputs: seq<PlotInput>, visited: nat)
    requires |ps0| == |inputs| && DragIn(drag0, |signals|) && visited < |ps0| && inputs[visited].closeClicked
    ensures var before := VisitPlots(ps0[..visited], drag0, signals, inputs[..visited]);
      var kept := Kept(before.0, inputs[..visited]);
      var step := ShowPlotStep(ps0[visited], before.1, signals, inputs[visited]);
      ClosedSoFar(kept + ps0[visited + 1..], |kept|, step.drag, ps0, drag0, signals, inputs, visited + 1)
  {
    KeptAfterNext(ps0, drag0, signals, inputs, visited);
  }

  /** A turn of the close loop that closes pane `i` removes it and stays at `i`. */
  lemma CloseLoopRemove(
    plots: seq<PlotInstance>, i: nat, drag: Option<nat>,
    ps0: seq<PlotInstance>, drag0: Option<nat>, signals: seq<Signal>, inputs: seq<PlotInput>, visited: nat,
    shownPlot: PlotInstance, newDrag: Option<nat>)
    requires ClosedSoFar(plots, i, drag, ps0, drag0, signals, inputs, visited)
    requires visited < |ps0| && i < |plots| && DragIn(drag, |signals|) && inputs[visited].closeClicked
    requires Shown(shownPlot, newDrag) == ShowPlotStep(plots[i], drag, signals, inputs[visited])
    ensures var post := plots[i := shownPlot];
      ClosedSoFar(post[..i] + post[i + 1..], i, newDrag, ps0, drag0, signals, inputs, visited + 1)
  {
    ClosedSoFarSplit(plots, i, drag, ps0, drag0, signals, inputs, visited);
    ClosedAfterRemove(ps0, drag0, signals, inputs, visited);
    var kept := Kept(VisitPlots(ps0[..visited], drag0, signals, inputs[..visited]).0, inputs[..visited]);
    var rest := ps0[visited + 1..];
    var post := plots[i := shownPlot];
    assert post == kept + [shownPlot] + rest by {
      ReplaceMiddle(kept, ps0[visited], shownPlot, rest);
    }
    assert post[..i] + post[i + 1..] == kept + rest by {
      RemoveMiddle(kept, shownPlot, rest);
    }
  }

  /** One turn of the close loop, from the panes `mid` left by showing pane `i`. */
  lemma CloseLoopStep(
    plots: seq<PlotInstance>, i: nat, drag: Option<nat>,
    ps0: seq<PlotInstance>, drag0: Option<nat>, signals: seq<Signal>, inputs: seq<PlotInput>, visited: nat,
    mid: seq<PlotInstance>, newDrag: Option<nat>)
    requires ClosedSoFar(plots, i, drag, ps0, drag0, signals, inputs, visited)
    requires visited < |ps0| && i < |plots| && DragIn(drag, |signals|)
    requires |mid| == |plots| && mid == plots[i := mid[i]]
    requires Shown(mid[i], newDrag) == ShowPlotStep(plots[i], drag, signals, inputs[visited])
    ensures if inputs[visited].closeClicked
      then ClosedSoFar(mid[..i] + mid[i + 1..], i, newDrag, ps0, drag0, signals, inputs, visited + 1)
      else ClosedSoFar(mid, i + 1, newDrag, ps0, drag0, signals, inputs, visited + 1)
  {
    if inputs[visited].closeClicked {
      CloseLoopRemove(plots, i, drag, ps0, drag0, signals, inputs, visited, mid[i], newDrag);
    } else {
      CloseLoopKeep(plots, i, drag, ps0, drag0, signals, inputs, visited, mid[i], newDrag);
    }
  }

  // ---------------------------------------------------------------------------
  // The workbench
  // ---------------------------------------------------------------------------

  class Tplot {
    var signals: seq<Signal>
    var plots: seq<PlotInstance>
    var draggedSignal: Option<nat>

    /** Attachments and the drag slot only ever name rows of the registry. */
    ghost predicate Valid()
      reads this
    {
      && DragIn(draggedSignal, |signals|)
      && AllAttachmentsIn(plots, |signals|)
    }

    /** `Tplot::default()`: no signals, no panes, nothing dragged. */
    constructor ()
      ensures Valid()
      ensures signals == [] && plots == [] && draggedSignal == None
    {
      signals := [];
      plots := [];
      draggedSignal := None;
    }

    /** Seeds the registry with two signals when it is empty, and adds a pane when there is none. */
    method EnsureSignalsInitialized()
      requires Valid()
      modifies this
      ensures Valid()
      ensures signals == InitialSignals(old(signals))
      ensures plots == InitialPlots(old(plots))
      ensures draggedSignal == old(draggedSignal)
      ensures |signals| >= 1 && |plots| >= 1
      ensures |signals| >= |old(signals)|
    {
      if signals == [] {
        signals := [
          Signal("Step Function", Red, StepFunction),
          Signal("Sine Wave", Blue, SineWave)
        ];
      }
      if plots == [] {
        plots := plots + [DefaultPlot()];
      }
    }

    /** One registry row: its colour button may recolour it, and dragging it fills the drag slot. */
    method ShowSignal(idx: nat, row: RowInput)
      requires Valid() && idx < |signals|
      modifies this
      ensures Valid()
      ensures signals == old(signals)[idx := Recolored(old(signals)[idx], row)]
      ensures plots == old(plots)
      ensures draggedSignal == if row.dragged then Some(idx) else old(draggedSignal)
    {
      var signal := signals[idx];
      if row.pickedColor.Some? {
        signals := signals[idx := signal.(color := row.pickedColor.value)];
      }
      if row.dragged {
        draggedSignal := Some(idx);
      }
    }

    /** The side panel's loop over the registry rows. */
    method ShowSignals(rows: seq<RowInput>)
      requires Valid() && |rows| == |signals|
      modifies this
      ensures Valid()
      ensures |signals| == |old(signals)|
      ensures forall k :: 0 <= k < |signals| ==> signals[k] == Recolored(old(signals)[k], rows[k])
      ensures plots == old(plots)
      ensures draggedSignal == LastDragged(rows, old(draggedSignal))
    {
      for idx := 0 to |signals|
        invariant Valid()
        invariant |signals| == |old(signals)| && plots == old(plots)
        invariant forall k :: 0 <= k < idx ==> signals[k] == Recolored(old(signals)[k], rows[k])
        invariant forall k :: idx <= k < |signals| ==> signals[k] == old(signals)[k]
        invariant draggedSignal == LastDragged(rows[..idx], old(draggedSignal))
      {
        ShowSignal(idx, rows[idx]);
        assert rows[..idx + 1][..idx] == rows[..idx];
      }
      assert rows[..|signals|] == rows;
    }

    /** "Add Plot": appends a default pane. */
    method AddPlot()
      requires Valid()
      modifies this
      ensures Valid()
      ensures plots == old(plots) + [DefaultPlot()]
      ensures signals == old(signals) && draggedSignal == old(draggedSignal)
    {
      plots := plots + [DefaultPlot()];
    }

    /**
     * Shows pane `index`: a release over it while a signal is dragged takes the drag slot and
     * appends that signal with its current colour; the resize handle clamps its height. Returns
     * whether its close button was clicked.
     */
    method ShowPlot(index: nat, input: PlotInput) returns (shouldRemove: bool)
      requires Valid() && index < |plots|
      modifies this
      ensures Valid()
      ensures shouldRemove == input.closeClicked
      ensures signals == old(signals)
      ensures |plots| == |old(plots)| && plots == old(plots)[index := plots[index]]
      ensures Shown(plots[index], draggedSignal) == ShowPlotStep(old(plots)[index], old(draggedSignal), signals, input)
    {
      shouldRemove := input.closeClicked;
      var plot := plots[index];
      var isBeingDragged := draggedSignal.Some?;
      if isBeingDragged && input.hovered {
        if input.released {
          var taken := draggedSignal;
          draggedSignal := None;
          if taken.Some? {
            var signalIdx := taken.value;
            plot := plot.(activeSignals := plot.activeSignals + [ActiveSignal(signalIdx, signals[signalIdx].color)]);
          }
        }
      }
      if input.resizeDelta.Some? {
        plot := plot.(height := Resized(plot.height, input.resizeDelta.value, input.availableHeight));
      }
      plots := plots[index := plot];
    }

    /**
     * The central panel's loop: shows each pane once, in order, removing a pane in place when
     * its close button was clicked. `inputs[v]` is what the UI reports for the v-th pane shown.
     */
    method ShowPlots(inputs: seq<PlotInput>)
      requires Valid() && |inputs| == |plots|
      modifies this
      ensures Valid()
      ensures signals == old(signals)
      ensures plots == Kept(VisitPlots(old(plots), old(draggedSignal), signals, inputs).0, inputs)
      ensures draggedSignal == VisitPlots(old(plots), old(draggedSignal), signals, inputs).1
    {
      ghost var ps0, drag0 := plots, draggedSignal;
      var i, visited := 0, 0;
      while i < |plots|
        invariant Valid() && signals == old(signals)
        invariant ClosedSoFar(plots, i, draggedSignal, ps0, drag0, signals, inputs, visited)
        decreases |plots| - i
      {
        ClosedSoFarNext(plots, i, draggedSignal, ps0, drag0, signals, inputs, visited);
        ghost var pre, dragPre := plots, draggedSignal;
        var shouldRemove := ShowPlot(i, inputs[visited]);
        CloseLoopStep(pre, i, dragPre, ps0, drag0, signals, inputs, visited, plots, draggedSignal);
        if shouldRemove {
          RemoveKeepsAttachments(plots, i, |signals|);
          plots := plots[..i] + plots[i + 1..];
        } else {
          i := i + 1;
        }
        visited := visited + 1;
      }
      ClosedSoFarDone(plots, i, draggedSignal, ps0, drag0, signals, inputs, visited);
    }

    /**
     * One frame of the workbench: lazy initialisation, the registry rows, the "Add Plot"
     * button, then the panes. `rows` has one report per registry row and `plotInputs` one per
     * pane shown, as the UI produces them.
     */
    method Ui(rows: seq<RowInput>, addPlotClicked: bool, plotInputs: seq<PlotInput>)
      requires Valid()
      requires |rows| == |InitialSignals(signals)|
      requires |plotInputs| == |InitialPlots(plots)| + (if addPlotClicked then 1 else 0)
      modifies this
      ensures Valid()
      ensures |signals| == |InitialSignals(old(signals))|
      ensures forall k :: 0 <= k < |signals| ==>
        signals[k] == Recolored(InitialSignals(old(signals))[k], rows[k])
      ensures var shown := VisitPlots(
          InitialPlots(old(plots)) + (if addPlotClicked then [DefaultPlot()] else []),
          LastDragged(rows, old(draggedSignal)), signals, plotInputs);
        plots == Kept(shown.0, plotInputs) && draggedSignal == shown.1
    {
      EnsureSignalsInitialized();
      ShowSignals(rows);
      assert draggedSignal == LastDragged(rows, old(draggedSignal));
      if addPlotClicked {
        AddPlot();
      }
      assert plots == InitialPlots(old(plots)) + (if addPlotClicked then [DefaultPlot()] else []);
      ghost var sig := signals;
      ShowPlots(plotInputs);
      assert signals == sig;
    }
  }

  /** A frame over a single pane released over while row `idx` is dragged attaches that row. */
  lemma SinglePaneDrop(p: PlotInstance, idx: nat, signals: seq<Signal>, input: PlotInput)
    requires idx < |signals| && Drops(input) && !input.closeClicked && input.resizeDelta.None?
    ensures var v := VisitPlots([p], Some(idx), signals, [input]);
      && v.1 == None
      && Kept(v.0, [input]) ==
           [p.(activeSignals := p.activeSignals + [ActiveSignal(idx, signals[idx].color)])]
  {
    assert [p][..0] == [] && [input][..0] == [];
    assert VisitPlots([p][..0], Some(idx), signals, [input][..0]) == ([], Some(idx));
    var v := VisitPlots([p], Some(idx), signals, [input]);
    assert v.0 == [ShowPlotStep(p, Some(idx), signals, input).plot];
    assert v.0[..0] == [];
  }

  /** A frame over a single pane that is not released over leaves the pane and the drag slot as they were. */
  lemma SinglePaneNoDrop(p: PlotInstance, drag: Option<nat>, signals: seq<Signal>, input: PlotInput)
    requires DragIn(drag, |signals|) && !Drops(input) && !input.closeClicked && input.resizeDelta.None?
    ensures var v := VisitPlots([p], drag, signals, [input]);
      v.1 == drag && Kept(v.0, [input]) == [p]
  {
    assert [p][..0] == [] && [input][..0] == [];
    assert VisitPlots([p][..0], drag, signals, [input][..0]) == ([], drag);
    var v := VisitPlots([p], drag, signals, [input]);
    assert v.0 == [ShowPlotStep(p, drag, signals, input).plot];
    assert v.0[..0] == [];
  }

  /**
   * Two signals, one pane: "Sine Wave" is dragged in one frame with the pointer held over the
   * pane, and released over it in the next with no row dragged any more. The drag slot carries
   * the row from the first frame to the second, where the drop attaches it in blue.
   */
  method DragAcrossFrames() returns (w: Tplot)
    ensures fresh(w) && w.Valid()
    ensures w.plots == [DefaultPlot().(activeSignals := [ActiveSignal(1, Blue)])]
    ensures w.draggedSignal == None
  {
    w := new Tplot();
    var idle := RowInput(false, None);
    var grab := RowInput(true, None);
    var hold := PlotInput(false, true, false, None, 600.0);
    var release := PlotInput(false, true, true, None, 600.0);
    assert forall d :: LastDragged([idle, grab], d) == Some(1);
    SinglePaneNoDrop(DefaultPlot(), Some(1), SeededSignals(), hold);
    assert InitialPlots([]) + [] == [DefaultPlot()];
    w.Ui([idle, grab], false, [hold]);
    assert w.signals == SeededSignals();
    assert w.plots == [DefaultPlot()] && w.draggedSignal == Some(1);
    assert LastDragged([idle, idle], Some(1)) == Some(1);
    SinglePaneDrop(DefaultPlot(), 1, SeededSignals(), release);
    assert DefaultPlot().activeSignals + [ActiveSignal(1, Blue)] == [ActiveSignal(1, Blue)];
    w.Ui([idle, idle], false, [release]);
  }

  /**
   * Two signals, one pane: dragging "Sine Wave" onto the pane in two frames attaches it twice,
   * in blue, and leaves the drag slot empty.
   */
  method DropSineWaveTwice() returns (w: Tplot)
    ensures fresh(w) && w.Valid()
    ensures |w.plots| == 1
    ensures w.plots[0].activeSignals == [ActiveSignal(1, Blue), ActiveSignal(1, Blue)]
    ensures w.draggedSignal == None
  {
    w := new Tplot();
    var idle := RowInput(false, None);
    var grab := RowInput(true, None);
    var release := PlotInput(false, true, true, None, 600.0);
    var rows := [idle, grab];
    assert forall d :: LastDragged(rows, d) == Some(1);
    var once := DefaultPlot().(activeSignals := [ActiveSignal(1, Blue)]);
    SinglePaneDrop(DefaultPlot(), 1, SeededSignals(), release);
    assert InitialPlots([]) + [] == [DefaultPlot()];
    assert DefaultPlot().activeSignals + [ActiveSignal(1, Blue)] == once.activeSignals;
    w.Ui(rows, false, [release]);
    assert w.signals == SeededSignals();
    assert w.plots == [once];
    SinglePaneDrop(once, 1, SeededSignals(), release);
    w.Ui(rows, false, [release]);
  }
}
