/**
 Picking a control point with the pointer: the first control point, in curve
 order, whose squared distance to the cursor is within the click threshold.
 The index of that point stands for the pointer into the point vector.
 */
module Picking {
  import opened Geometry
  import opened Wrappers

  /** Squared distance up to which a press picks a control point (a radius of 10). */
  const CLICK_THRESHOLD: real := 100.0

  /** Whether the cursor is close enough to p to pick it; the bound is inclusive. */
  predicate IsNear(cursor: Vec2, p: Vec2) {
    Dist2(cursor, p) <= CLICK_THRESHOLD
  }

  /** The first index at or after `from` whose point is near the cursor, if any. */
  function ClickedPointFrom(cursor: Vec2, points: seq<Vec2>, from: nat): (r: Option<nat>)
    requires from <= |points|
    ensures r.Some? ==> from <= r.value < |points| && IsNear(cursor, points[r.value])
    ensures r.Some? ==> forall j :: from <= j < r.value ==> !IsNear(cursor, points[j])
    ensures r.None? <==> forall j :: from <= j < |points| ==> !IsNear(cursor, points[j])
    decreases |points| - from
  {
    if from == |points| then None
    else if IsNear(cursor, points[from]) then Some(from)
    else ClickedPointFrom(cursor, points, from + 1)
  }

  /** The control point a press at the cursor picks: none when every point is
      farther than the threshold, otherwise the first near one. */
  function ClickedPoint(cursor: Vec2, points: seq<Vec2>): (r: Option<nat>)
    ensures r.Some? ==> r.value < |points| && IsNear(cursor, points[r.value])
    ensures r.Some? ==> forall j :: 0 <= j < r.value ==> !IsNear(cursor, points[j])
    ensures r.None? <==> forall j :: 0 <= j < |points| ==> !IsNear(cursor, points[j])
  {
    ClickedPointFrom(cursor, points, 0)
  }

  /** A press exactly on a control point picks that point or an earlier one. */
  lemma PressOnPointPicksIt(cursor: Vec2, points: seq<Vec2>, k: nat)
    requires k < |points| && points[k] == cursor
    ensures ClickedPoint(cursor, points).Some?
    ensures ClickedPoint(cursor, points).value <= k
  {
    assert IsNear(cursor, points[k]);
  }

  /** The threshold is inclusive: a lone point at distance exactly 10 is picked,
      one at distance 10.5 is not. */
  lemma ThresholdIsInclusive(cursor: Vec2)
    ensures ClickedPoint(cursor, [Add(cursor, Vec2(10.0, 0.0))]) == Some(0)
    ensures ClickedPoint(cursor, [Add(cursor, Vec2(6.0, -8.0))]) == Some(0)
    ensures ClickedPoint(cursor, [Add(cursor, Vec2(10.5, 0.0))]) == None
  {
    OffsetDistance(cursor, Vec2(10.0, 0.0));
    OffsetDistance(cursor, Vec2(6.0, -8.0));
    OffsetDistance(cursor, Vec2(10.5, 0.0));
  }

  lemma OffsetDistance(cursor: Vec2, d: Vec2)
    ensures Dist2(cursor, Add(cursor, d)) == d.x * d.x + d.y * d.y
  {
    assert cursor.x - Add(cursor, d).x == -d.x;
    assert cursor.y - Add(cursor, d).y == -d.y;
    assert (-d.x) * (-d.x) == d.x * d.x;
    assert (-d.y) * (-d.y) == d.y * d.y;
  }
}
