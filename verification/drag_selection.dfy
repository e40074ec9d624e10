/** Rubber-band selection on the canvas (src/composables/useDragSelection.ts).
    Pointer positions arrive already converted to canvas pixels; a missing
    position stands for a canvas whose screen transform is unavailable. */
module DragSelection {
  import opened Wrappers
  import Config

  datatype Point = Point(x: real, y: real)

  datatype Rect = Rect(x: real, y: real, width: real, height: real)

  /** A key's box in key units, as the canvas hands it over. */
  datatype KeyBounds = KeyBounds(id: string, x: real, y: real, width: real, height: real)

  datatype Drag = Drag(dragging: bool, start: Point, end: Point, justFinishedDrag: bool)

  const Idle: Drag := Drag(false, Point(0.0, 0.0), Point(0.0, 0.0), false)

  function Min(a: real, b: real): real { if a <= b then a else b }
  function Abs(a: real): real { if a >= 0.0 then a else -a }

  /** selectionRect: nothing unless dragging; otherwise the rectangle spanned
      by the two corners, whichever way the pointer went. */
  function SelectionRect(d: Drag): (r: Option<Rect>)
    ensures r.None? <==> !d.dragging
    ensures r.Some? ==> r.value.width >= 0.0 && r.value.height >= 0.0
    ensures r.Some? ==> r.value.x <= d.start.x && r.value.x <= d.end.x && r.value.y <= d.start.y && r.value.y <= d.end.y
    ensures r.Some? ==> (r.value.x == d.start.x || r.value.x == d.end.x) && (r.value.y == d.start.y || r.value.y == d.end.y)
    ensures r.Some? ==> r.value.x + r.value.width == (if d.start.x >= d.end.x then d.start.x else d.end.x)
    ensures r.Some? ==> r.value.y + r.value.height == (if d.start.y >= d.end.y then d.start.y else d.end.y)
  {
    if !d.dragging then None
    else Some(Rect(Min(d.start.x, d.end.x), Min(d.start.y, d.end.y), Abs(d.end.x - d.start.x), Abs(d.end.y - d.start.y)))
  }

  /** The rectangle does not depend on the direction of the drag. */
  lemma SelectionRectSymmetric(d: Drag)
    ensures SelectionRect(d) == SelectionRect(d.(start := d.end, end := d.start))
  {}

  /** handleMouseDown: with a position, a drag starts there with both corners
      on it; without one nothing changes. */
  function MouseDown(d: Drag, at: Option<Point>): (r: Drag)
    ensures at.None? ==> r == d
    ensures at.Some? ==> r.dragging && r.start == at.value && r.end == at.value
    ensures r.justFinishedDrag == d.justFinishedDrag
  {
    match at
    case None => d
    case Some(p) => d.(dragging := true, start := p, end := p)
  }

  /** handleMouseMove: only the end corner follows the pointer, and only
      while dragging. */
  function MouseMove(d: Drag, at: Option<Point>): (r: Drag)
    ensures !d.dragging || at.None? ==> r == d
    ensures d.dragging && at.Some? ==> r == d.(end := at.value)
  {
    if !d.dragging || at.None? then d else d.(end := at.value)
  }

  /** The key's box, scaled to pixels, overlaps the rectangle with a
      positive area: strictly on all four sides. */
  predicate Overlaps(k: KeyBounds, rect: Rect) {
    var kx, ky := k.x * Config.KEY_UNIT, k.y * Config.KEY_UNIT;
    && kx < rect.x + rect.width
    && kx + k.width * Config.KEY_UNIT > rect.x
    && ky < rect.y + rect.height
    && ky + k.height * Config.KEY_UNIT > rect.y
  }

  /** The ids of the overlapping keys, in the keys' order. */
  function HitIds(keys: seq<KeyBounds>, rect: Rect): (ids: seq<string>)
    ensures |ids| <= |keys|
    ensures forall id :: id in ids <==> exists k :: k in keys && Overlaps(k, rect) && k.id == id
  {
    if keys == [] then []
    else
      var rest := HitIds(keys[1..], rect);
      assert forall k :: k in keys <==> k == keys[0] || k in keys[1..];
      if Overlaps(keys[0], rect) then [keys[0].id] + rest else rest
  }

  /** Selection keeps the keys' order: the hits of two runs of keys are the
      hits of the first followed by the hits of the second. */
  lemma {:induction false} HitIdsAppend(a: seq<KeyBounds>, b: seq<KeyBounds>, rect: Rect)
    ensures HitIds(a + b, rect) == HitIds(a, rect) + HitIds(b, rect)
  {
    if a == [] {
      assert a + b == b;
    } else {
      assert (a + b)[0] == a[0] && (a + b)[1..] == a[1..] + b;
      HitIdsAppend(a[1..], b, rect);
    }
  }

  /** A movement of at most one pixel each way is a click, not a drag. */
  predicate Moved(rect: Rect) {
    rect.width > 1.0 || rect.height > 1.0
  }

  /** handleMouseUp: the drag ends; the keys under a rectangle that moved
      more than a pixel are returned, and the just-finished flag is raised
      only when something was selected. Outside a drag nothing happens. */
  function MouseUp(d: Drag, keys: seq<KeyBounds>): (r: (Drag, seq<string>))
    ensures !d.dragging ==> r == (d, [])
    ensures !r.0.dragging && r.0.start == d.start && r.0.end == d.end
    ensures d.dragging ==> r.0.justFinishedDrag == (r.1 != [] || d.justFinishedDrag)
    ensures d.dragging && !Moved(SelectionRect(d).value) ==> r.1 == []
    ensures d.dragging && Moved(SelectionRect(d).value) ==> r.1 == HitIds(keys, SelectionRect(d).value)
  {
    if !d.dragging then (d, [])
    else
      var rect := SelectionRect(d).value;
      var ids := if Moved(rect) then HitIds(keys, rect) else [];
      (d.(dragging := false, justFinishedDrag := ids != [] || d.justFinishedDrag), ids)
  }

  /** resetDrag: back to the idle state, whatever came before. */
  function Reset(d: Drag): (r: Drag)
    ensures !r.dragging && !r.justFinishedDrag
    ensures r.start == Point(0.0, 0.0) && r.end == Point(0.0, 0.0)
    ensures SelectionRect(r).None?
  {
    Idle
  }

  /** A press and release without movement is a click: it selects nothing
      and leaves the just-finished flag as it was. */
  lemma ClickSelectsNothing(d: Drag, p: Point, keys: seq<KeyBounds>)
    ensures var up := MouseUp(MouseDown(d, Some(p)), keys);
      up.1 == [] && !up.0.dragging && up.0.justFinishedDrag == d.justFinishedDrag
  {}

  /** The selection does not depend on the direction of the drag. */
  lemma SelectionSymmetric(d: Drag, keys: seq<KeyBounds>)
    ensures MouseUp(d, keys).1 == MouseUp(d.(start := d.end, end := d.start), keys).1
  {
    SelectionRectSymmetric(d);
  }

  /** A key entirely inside the rectangle is selected. */
  lemma ContainedKeyIsHit(k: KeyBounds, rect: Rect, keys: seq<KeyBounds>)
    requires k in keys && k.width > 0.0 && k.height > 0.0
    requires rect.x <= k.x * Config.KEY_UNIT && (k.x + k.width) * Config.KEY_UNIT <= rect.x + rect.width
    requires rect.y <= k.y * Config.KEY_UNIT && (k.y + k.height) * Config.KEY_UNIT <= rect.y + rect.height
    ensures k.id in HitIds(keys, rect)
  {
    assert Overlaps(k, rect);
  }

  /** Growing the rectangle never loses a key. */
  lemma {:induction false} HitsMonotone(keys: seq<KeyBounds>, small: Rect, big: Rect)
    requires big.x <= small.x && big.y <= small.y
    requires small.x + small.width <= big.x + big.width && small.y + small.height <= big.y + big.height
    ensures forall id :: id in HitIds(keys, small) ==> id in HitIds(keys, big)
  {
    forall id | id in HitIds(keys, small) ensures id in HitIds(keys, big) {
      var k :| k in keys && Overlaps(k, small) && k.id == id;
      assert Overlaps(k, big);
    }
  }
}
