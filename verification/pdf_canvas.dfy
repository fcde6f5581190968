/** The drag-to-rectangle gesture of the page canvas: press, drag and release
    handlers over the two drawing-state fields, and the one way drawing the
    labels can fail.  What is drawn on the screen is left out. */
module PdfCanvas {
  import opened Results
  import opened Labels

  /** An integer pointer position, as delivered with each mouse event. */
  datatype Point = Point(x: int, y: int)

  /** A rectangle `(x1, y1, x2, y2)`. */
  datatype Box = Box(x1: int, y1: int, x2: int, y2: int)

  /** `rectStart` is the press position; `drawingRect` says whether a dashed
      preview rectangle is on the canvas; `hasCallback` whether a handler for
      drawn rectangles is installed. */
  datatype Gesture = Gesture(rectStart: Option<Point>, drawingRect: bool, hasCallback: bool)

  /** A side must be strictly longer than this many pixels. */
  const MinSide: int := 5

  function Abs(n: int): nat {
    if n < 0 then -n else n
  }

  function Min(a: int, b: int): int {
    if a <= b then a else b
  }

  function Max(a: int, b: int): int {
    if a >= b then a else b
  }

  /** No preview rectangle exists without a press position. */
  predicate Consistent(g: Gesture) {
    g.drawingRect ==> g.rectStart.Some?
  }

  /** The box handed out as a label's `bbox`. */
  function Coords(b: Box): (cs: seq<int>)
    ensures |cs| == 4
  {
    [b.x1, b.y1, b.x2, b.y2]
  }

  /** `_draw_labels` reads `bbox[0]` to `bbox[3]` of every label on the page
      it draws: it draws them all exactly when no box has fewer than four
      coordinates, and raises `IndexError` otherwise. */
  predicate Drawable(labels: seq<Label>) {
    forall i :: 0 <= i < |labels| ==> |labels[i].bbox| >= 4
  }

  /** A label appended to a page is drawable after the others exactly when
      its own box has four coordinates. */
  lemma DrawableAppend(labels: seq<Label>, l: Label)
    ensures Drawable(labels + [l]) <==> Drawable(labels) && |l.bbox| >= 4
  {
    assert forall i :: 0 <= i < |labels| ==> (labels + [l])[i] == labels[i];
    assert (labels + [l])[|labels|] == l;
  }

  /** The box spanned by two corners, whichever way the drag went. */
  function Normalize(a: Point, b: Point): (r: Box)
    ensures r.x1 <= r.x2 && r.y1 <= r.y2
    ensures r.x2 - r.x1 == Abs(b.x - a.x) && r.y2 - r.y1 == Abs(b.y - a.y)
    ensures (r.x1 == a.x && r.x2 == b.x) || (r.x1 == b.x && r.x2 == a.x)
    ensures (r.y1 == a.y && r.y2 == b.y) || (r.y1 == b.y && r.y2 == a.y)
  {
    Box(Min(a.x, b.x), Min(a.y, b.y), Max(a.x, b.x), Max(a.y, b.y))
  }

  /** `_on_mouse_down`: records the press position and nothing else. */
  function MouseDown(g: Gesture, p: Point): (r: Gesture)
    ensures r.rectStart == Some(p)
    ensures r.drawingRect == g.drawingRect && r.hasCallback == g.hasCallback
    ensures Consistent(r)
  {
    g.(rectStart := Some(p))
  }

  /** `_on_mouse_drag`: with a press position, (re)draws the preview; without
      one, does nothing. */
  function MouseDrag(g: Gesture, p: Point): (r: Gesture)
    ensures g.rectStart.None? ==> r == g
    ensures g.rectStart.Some? ==> r == g.(drawingRect := true)
    ensures Consistent(g) ==> Consistent(r)
  {
    if g.rectStart.Some? then g.(drawingRect := true) else g
  }

  /** Whether a release at `p` after a press at `start` is big enough. */
  predicate LargeEnough(start: Point, p: Point) {
    Abs(p.x - start.x) > MinSide && Abs(p.y - start.y) > MinSide
  }

  /** `_on_mouse_up`: the new state and the box passed to the handler, if any.
      Only a release that follows a drag does anything; it proposes the
      normalised box when both sides exceed the threshold and a handler is
      installed, and returns to idle either way. */
  function MouseUp(g: Gesture, p: Point): (r: (Gesture, Option<Box>))
    ensures !(g.rectStart.Some? && g.drawingRect) ==> r == (g, None)
    ensures g.rectStart.Some? && g.drawingRect ==>
              r.0 == Gesture(None, false, g.hasCallback)
    ensures r.1.Some? <==>
              g.rectStart.Some? && g.drawingRect && g.hasCallback && LargeEnough(g.rectStart.value, p)
    ensures r.1.Some? ==> r.1.value == Normalize(g.rectStart.value, p)
    ensures Consistent(g) ==> Consistent(r.0)
  {
    if g.rectStart.Some? && g.drawingRect then
      var start := g.rectStart.value;
      var bbox := Normalize(start, p);
      var proposal := if LargeEnough(start, p) && g.hasCallback then Some(bbox) else None;
      (Gesture(None, false, g.hasCallback), proposal)
    else (g, None)
  }

  /** A sequence of drag events. */
  function DragThrough(g: Gesture, moves: seq<Point>): Gesture
    decreases |moves|
  {
    if |moves| == 0 then g else DragThrough(MouseDrag(g, moves[0]), moves[1..])
  }

  /** A whole gesture: press at `a`, the drag events `moves`, release at `b`. */
  function Stroke(g: Gesture, a: Point, moves: seq<Point>, b: Point): (Gesture, Option<Box>) {
    MouseUp(DragThrough(MouseDown(g, a), moves), b)
  }

  /** After a press, drag events keep the press position and leave a preview
      exactly when there was at least one of them (or one already existed). */
  lemma {:induction false} DragThroughAfterPress(g: Gesture, moves: seq<Point>)
    requires g.rectStart.Some?
    ensures DragThrough(g, moves) == g.(drawingRect := g.drawingRect || |moves| > 0)
    decreases |moves|
  {
    if |moves| > 0 {
      DragThroughAfterPress(MouseDrag(g, moves[0]), moves[1..]);
    }
  }

  /** From idle, a press-drag-release proposes a box exactly when the pointer
      moved while pressed, both sides exceed 5 pixels and a handler is
      installed; the box is the normalised one, and the gesture ends idle
      whenever it was dragged. */
  lemma StrokeFromIdle(hasCallback: bool, a: Point, moves: seq<Point>, b: Point)
    ensures var (g, proposal) := Stroke(Gesture(None, false, hasCallback), a, moves, b);
            && (proposal.Some? <==> |moves| > 0 && hasCallback && LargeEnough(a, b))
            && (proposal.Some? ==> proposal.value == Normalize(a, b))
            && (|moves| > 0 ==> g == Gesture(None, false, hasCallback))
            && (|moves| == 0 ==> g == Gesture(Some(a), false, hasCallback))
  {
    DragThroughAfterPress(MouseDown(Gesture(None, false, hasCallback), a), moves);
  }

  /** Dragging up-left or down-right between the same two corners gives the
      same box. */
  lemma StrokeSymmetric(hasCallback: bool, a: Point, moves: seq<Point>, moves': seq<Point>, b: Point)
    requires |moves| > 0 <==> |moves'| > 0
    ensures Stroke(Gesture(None, false, hasCallback), a, moves, b).1
            == Stroke(Gesture(None, false, hasCallback), b, moves', a).1
  {
    StrokeFromIdle(hasCallback, a, moves, b);
    StrokeFromIdle(hasCallback, b, moves', a);
    assert LargeEnough(a, b) <==> LargeEnough(b, a);
    assert Normalize(a, b) == Normalize(b, a);
  }
}
