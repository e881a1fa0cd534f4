/**
 * The drag-to-close gesture as values: an idle/dragging record, the three
 * pointer transitions and the close decision. Coordinates and the drawer
 * height are integers; the 30% threshold is written as `10 * d > 3 * h`.
 */
module Gesture {

  datatype DragState = DragState(isDragging: bool, startY: int, currentY: int, dragDistance: int)

  /** The record at mount and after every release. */
  const Idle := DragState(false, 0, 0, 0)

  /** A pointer-down: a touch, or a mouse press with its button number. */
  datatype Press = Touch(clientY: int) | Mouse(button: int, clientY: int)

  /** `Math.max(0, delta)`: only downward motion counts. */
  function Clamp(delta: int): nat
  {
    if delta < 0 then 0 else delta
  }

  /** The record keeps its meaning: while dragging the distance is the clamped offset. */
  ghost predicate Consistent(g: DragState)
  {
    && (g.isDragging ==> g.dragDistance == Clamp(g.currentY - g.startY))
    && (!g.isDragging ==> g == Idle)
  }

  /** Pointer-down; a mouse press other than the left button is ignored. */
  function Start(g: DragState, press: Press): (r: DragState)
    ensures Consistent(g) ==> Consistent(r)
    ensures press.Touch? || press.button == 0 ==> r.isDragging && r.dragDistance == 0
  {
    if press.Mouse? && press.button != 0 then g
    else DragState(true, press.clientY, press.clientY, 0)
  }

  /** Pointer-move to `y`; ignored unless a drag is in progress. */
  function MoveTo(g: DragState, y: int): (r: DragState)
    ensures Consistent(g) ==> Consistent(r)
    ensures r.isDragging == g.isDragging && r.startY == g.startY
    ensures g.isDragging ==> r.dragDistance >= 0 && (y <= g.startY ==> r.dragDistance == 0)
  {
    if !g.isDragging then g
    else g.(currentY := y, dragDistance := Clamp(y - g.startY))
  }

  /** The close decision at release: strictly more than 30% of the drawer height. */
  predicate ShouldClose(distance: int, height: nat)
    ensures ShouldClose(distance, height) ==> distance > 0
    ensures height == 0 ==> (ShouldClose(distance, height) <==> distance > 0)
  {
    10 * distance > 3 * height
  }

  /** Pointer-up: the new record and whether the close callback is invoked. */
  function Release(g: DragState, height: nat): (r: (DragState, bool))
    ensures Consistent(g) ==> Consistent(r.0)
    ensures g.isDragging ==> r.0 == Idle
    ensures r.1 ==> g.isDragging && g.dragDistance > 0
  {
    if !g.isDragging then (g, false)
    else (Idle, ShouldClose(g.dragDistance, height))
  }

  /** Inline opacity while dragging: `max(0.3, 1 - d / 300)`, as an exact real. */
  function Opacity(distance: nat): (o: real)
    ensures 0.3 <= o <= 1.0
    ensures distance == 0 ==> o == 1.0
    ensures distance >= 210 ==> o == 0.3
  {
    var fade := 1.0 - distance as real / 300.0;
    if fade < 0.3 then 0.3 else fade
  }

  lemma OpacityNonIncreasing(d1: nat, d2: nat)
    requires d1 <= d2
    ensures Opacity(d2) <= Opacity(d1)
  {
  }

  /** A sequence of pointer-moves to the positions `ys`. */
  function Track(g: DragState, ys: seq<int>): DragState
    decreases |ys|
  {
    if ys == [] then g else Track(MoveTo(g, ys[0]), ys[1..])
  }

  /** During a drag only the last position counts. */
  lemma {:induction false} TrackLast(g: DragState, ys: seq<int>)
    requires g.isDragging
    ensures Track(g, ys).isDragging && Track(g, ys).startY == g.startY
    ensures ys == [] ==> Track(g, ys) == g
    ensures ys != [] ==> Track(g, ys).currentY == ys[|ys| - 1]
    ensures ys != [] ==> Track(g, ys).dragDistance == Clamp(ys[|ys| - 1] - g.startY)
    decreases |ys|
  {
    if ys != [] {
      TrackLast(MoveTo(g, ys[0]), ys[1..]);
      if |ys| > 1 {
        assert ys[1..][|ys[1..]| - 1] == ys[|ys| - 1];
      }
    }
  }

  /** While idle, moves change nothing. */
  lemma {:induction false} TrackIdle(g: DragState, ys: seq<int>)
    requires !g.isDragging
    ensures Track(g, ys) == g
    decreases |ys|
  {
    if ys != [] {
      TrackIdle(MoveTo(g, ys[0]), ys[1..]);
    }
  }

  /** The distance a whole gesture ends with: that of its last position, 0 without moves. */
  function FinalDistance(y0: int, ys: seq<int>): nat
  {
    if ys == [] then 0 else Clamp(ys[|ys| - 1] - y0)
  }

  /**
   * A complete gesture: a press at `y0`, moves through `ys`, a release on a
   * drawer of height `height`. It ends idle, and closes exactly when the
   * final clamped distance exceeds 30% of the height.
   */
  lemma WholeGesture(g: DragState, press: Press, ys: seq<int>, height: nat)
    requires press.Touch? || press.button == 0
    ensures Release(Track(Start(g, press), ys), height).0 == Idle
    ensures Release(Track(Start(g, press), ys), height).1
        <==> ShouldClose(FinalDistance(press.clientY, ys), height)
  {
    TrackLast(Start(g, press), ys);
  }

  /** A gesture that never ends below its start point cannot close the drawer. */
  lemma UpwardNeverCloses(g: DragState, press: Press, ys: seq<int>, height: nat)
    requires press.Touch? || press.button == 0
    requires forall k :: 0 <= k < |ys| ==> ys[k] <= press.clientY
    ensures !Release(Track(Start(g, press), ys), height).1
  {
    WholeGesture(g, press, ys, height);
  }

  /** A press other than the left mouse button starts nothing: the gesture is inert. */
  lemma OtherButtonInert(press: Press, ys: seq<int>, height: nat)
    requires press.Mouse? && press.button != 0
    ensures Release(Track(Start(Idle, press), ys), height) == (Idle, false)
  {
    TrackIdle(Start(Idle, press), ys);
  }

  /** Release with the threshold exactly met does not close; height 0 closes on any motion. */
  lemma ThresholdEdges(distance: nat, height: nat)
    ensures 10 * distance == 3 * height ==> !ShouldClose(distance, height)
    ensures height == 0 ==> (ShouldClose(distance, height) <==> distance > 0)
  {
  }

  /**
   * The mouse-up listener that is actually registered: the listener effect
   * depends only on `isDragging`, so it is attached in the render that started
   * the drag and decides on that render's record, whose distance is still 0,
   * whatever moves follow.
   */
  function RegisteredMouseUp(g: DragState, y0: int, ys: seq<int>, height: nat): (r: (DragState, bool))
    ensures r == (Idle, false)
  {
    var atStart := Start(g, Mouse(0, y0));
    var latest := Track(atStart, ys);
    TrackLast(atStart, ys);
    (Release(latest, height).0, Release(atStart, height).1)
  }

  /**
   * A mouse drag 200 down a 400-high drawer (threshold 120): the handler body
   * closes, the registered listener does not.
   */
  lemma StaleMouseUpCounterexample()
    ensures Release(Track(Start(Idle, Mouse(0, 100)), [300]), 400) == (Idle, true)
    ensures RegisteredMouseUp(Idle, 100, [300], 400) == (Idle, false)
  {
    WholeGesture(Idle, Mouse(0, 100), [300], 400);
  }
}
