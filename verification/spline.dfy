/**
 The Kochanek-Bartels (tension, continuity, bias) spline: the blending
 matrix built from the three shape parameters, the cubic segment over each
 window of four consecutive control points, and the polyline the drawing
 loops emit. Single-precision floats are modelled by exact reals, so the
 facts below are exact polynomial identities.

 A segment's geometry is the 2x4 matrix whose columns are the four control
 points; with M the blending matrix and T = [t^3, t^2, t, 1], the segment
 point is (G M) T, so row k of M weights control point k.
 */
module Spline {
  import opened Geometry

  /** Step between successive curve parameters. */
  const DELTA: real := 0.05

  /** Samples per segment in the exact-real model. The loop runs while
      t <= 1 + DELTA with t = k DELTA, which over the reals admits k = 0 .. 21.
      The program's single-precision loop stops one sample earlier; see
      FloatStepCount. */
  const SAMPLES_PER_SEGMENT: nat := 22

  /** The program's step 0.05f as an exact value: 13421773 / 2^28, a little
      more than 0.05. */
  const FLOAT_DELTA: real := 13421773.0 / 268435456.0

  /** The program's loop bound 1.0f + 0.05f after rounding to single
      precision: 4404019 / 2^22, a little less than 1.05. */
  const FLOAT_BOUND: real := 4404019.0 / 4194304.0

  /** With the single-precision step and bound, the multiples k * 0.05f that
      pass the loop test are exactly k = 0 .. 20: the program emits 21 samples
      per segment and the last one lies just past t = 1. */
  lemma FloatStepCount(k: nat)
    ensures k as real * FLOAT_DELTA <= FLOAT_BOUND <==> k <= 20
    ensures 1.0 < 20.0 * FLOAT_DELTA
  {
    if k <= 20 {
      assert k as real * FLOAT_DELTA <= 20.0 * FLOAT_DELTA;
    } else {
      assert k as real * FLOAT_DELTA >= 21.0 * FLOAT_DELTA;
    }
  }

  /** Fewest control points for which the curve is drawn. */
  const MINIMUM_CONTROL_POINTS: nat := 4

  /** One more than the largest value of a 64-bit size_t. */
  const SIZE_T_MODULUS: int := 0x1_0000_0000_0000_0000

  /** The blending matrix for the given shape parameters. Any reals are
      accepted. Whatever the parameters, its last column is (0, 1, 0, 0), its
      rows sum to (0, 0, 1, 0) and its columns sum to (0, 0, 0, 1): the segment
      starts at its second point, ends at its third, and its four blending
      weights always sum to one. */
  function CoefficientMatrix(tension: real, bias: real, continuity: real): (m: Mat4)
    ensures LastColumn(m) == Vec4(0.0, 1.0, 0.0, 0.0)
    ensures RowSums(m) == Vec4(0.0, 0.0, 1.0, 0.0)
    ensures ColumnSums(m) == Vec4(0.0, 0.0, 0.0, 1.0)
  {
    var s := 0.5 * (1.0 - tension);
    var q1 := s * (1.0 + bias) * (1.0 - continuity);
    var q2 := s * (1.0 - bias) * (1.0 + continuity);
    var q3 := s * (1.0 + bias) * (1.0 + continuity);
    var q4 := s * (1.0 - bias) * (1.0 - continuity);
    Mat4(Vec4(-q1, 2.0 * q1, -q1, 0.0),
         Vec4(q1 - q2 - q3 + 2.0, q3 - 2.0 * q1 + 2.0 * q2 - 3.0, q1 - q2, 1.0),
         Vec4(q2 + q3 - q4 - 2.0, q4 - q3 - 2.0 * q2 + 3.0, q2, 0.0),
         Vec4(q4, -q4, 0.0, 0.0))
  }

  /** The Catmull-Rom basis, written out entry by entry. */
  function CatmullRom(): Mat4 {
    Mat4(Vec4(-0.5, 1.0, -0.5, 0.0),
         Vec4(1.5, -2.5, 0.0, 1.0),
         Vec4(-1.5, 2.0, 0.5, 0.0),
         Vec4(0.5, -0.5, 0.0, 0.0))
  }

  /** With zero tension, bias and continuity every q is one half and the
      blending matrix is exactly the Catmull-Rom basis. */
  lemma CatmullRomSpecialCase()
    ensures CoefficientMatrix(0.0, 0.0, 0.0) == CatmullRom()
  {
  }

  /** The monomial vector [t^3, t^2, t, 1]. */
  function ParameterVector(t: real): Vec4 {
    Vec4(t * t * t, t * t, t, 1.0)
  }

  /** The blending weights of the four control points at parameter t. */
  function Weights(m: Mat4, t: real): Vec4 {
    MulVec(m, ParameterVector(t))
  }

  /** Segment i has the control points i .. i+3 as the columns of its geometry. */
  function SegmentGeometry(points: seq<Vec2>, i: nat): Mat24
    requires i + 3 < |points|
  {
    Mat24(points[i], points[i + 1], points[i + 2], points[i + 3])
  }

  /** The point of segment i at parameter t, computed as the program does:
      first the product of geometry and blending matrix, then that product
      applied to the monomial vector. */
  function SegmentPoint(m: Mat4, points: seq<Vec2>, i: nat, t: real): Vec2
    requires i + 3 < |points|
  {
    Apply(MulMat(SegmentGeometry(points, i), m), ParameterVector(t))
  }

  /** A segment point is the sum over k of control point i+k weighted by the
      k-th blending weight. */
  lemma SegmentPointIsBlend(m: Mat4, points: seq<Vec2>, i: nat, t: real)
    requires i + 3 < |points|
    ensures SegmentPoint(m, points, i, t) == Apply(SegmentGeometry(points, i), Weights(m, t))
  {
    ApplyMulMat(SegmentGeometry(points, i), m, ParameterVector(t));
  }

  /** For every shape and every t, the four blending weights sum to one. */
  lemma WeightsSumToOne(tension: real, bias: real, continuity: real, t: real)
    ensures Sum(Weights(CoefficientMatrix(tension, bias, continuity), t)) == 1.0
  {
    var m := CoefficientMatrix(tension, bias, continuity);
    SumMulVec(m, ParameterVector(t));
  }

  /** A blending matrix whose last column is (0, 1, 0, 0) makes segment i
      start (t = 0) at control point i+1. */
  lemma StartsAtSecondPoint(m: Mat4, points: seq<Vec2>, i: nat)
    requires LastColumn(m) == Vec4(0.0, 1.0, 0.0, 0.0)
    requires i + 3 < |points|
    ensures SegmentPoint(m, points, i, 0.0) == points[i + 1]
  {
    SegmentPointIsBlend(m, points, i, 0.0);
    assert ParameterVector(0.0) == Vec4(0.0, 0.0, 0.0, 1.0);
    MulVecSpecial(m);
    ApplyUnit(SegmentGeometry(points, i));
  }

  /** A blending matrix whose rows sum to (0, 0, 1, 0) makes segment i end
      (t = 1) at control point i+2. */
  lemma EndsAtThirdPoint(m: Mat4, points: seq<Vec2>, i: nat)
    requires RowSums(m) == Vec4(0.0, 0.0, 1.0, 0.0)
    requires i + 3 < |points|
    ensures SegmentPoint(m, points, i, 1.0) == points[i + 2]
  {
    SegmentPointIsBlend(m, points, i, 1.0);
    assert ParameterVector(1.0) == Vec4(1.0, 1.0, 1.0, 1.0);
    MulVecSpecial(m);
    ApplyUnit(SegmentGeometry(points, i));
  }

  /** For every shape, segment i starts (t = 0) at control point i+1. */
  lemma SegmentStartsAtSecondPoint(tension: real, bias: real, continuity: real,
                                   points: seq<Vec2>, i: nat)
    requires i + 3 < |points|
    ensures SegmentPoint(CoefficientMatrix(tension, bias, continuity), points, i, 0.0) == points[i + 1]
  {
    StartsAtSecondPoint(CoefficientMatrix(tension, bias, continuity), points, i);
  }

  /** For every shape, segment i ends (t = 1) at control point i+2. */
  lemma SegmentEndsAtThirdPoint(tension: real, bias: real, continuity: real,
                                points: seq<Vec2>, i: nat)
    requires i + 3 < |points|
    ensures SegmentPoint(CoefficientMatrix(tension, bias, continuity), points, i, 1.0) == points[i + 2]
  {
    EndsAtThirdPoint(CoefficientMatrix(tension, bias, continuity), points, i);
  }

  /** Every control point moved by d. */
  function Translate(points: seq<Vec2>, d: Vec2): (r: seq<Vec2>)
    ensures |r| == |points|
  {
    seq(|points|, j requires 0 <= j < |points| => Add(points[j], d))
  }

  /** Moving every control point by d moves every curve point by d. */
  lemma SegmentTranslates(tension: real, bias: real, continuity: real,
                          points: seq<Vec2>, d: Vec2, i: nat, t: real)
    requires i + 3 < |points|
    ensures SegmentPoint(CoefficientMatrix(tension, bias, continuity), Translate(points, d), i, t)
         == Add(SegmentPoint(CoefficientMatrix(tension, bias, continuity), points, i, t), d)
  {
    var m := CoefficientMatrix(tension, bias, continuity);
    var g := SegmentGeometry(points, i);
    var w := Weights(m, t);
    SegmentPointIsBlend(m, points, i, t);
    SegmentPointIsBlend(m, Translate(points, d), i, t);
    assert SegmentGeometry(Translate(points, d), i)
        == Mat24(Add(g.c0, d), Add(g.c1, d), Add(g.c2, d), Add(g.c3, d));
    ApplyShifted(g, d, w);
    WeightsSumToOne(tension, bias, continuity, t);
  }

  /** The curve parameter of the k-th sample. */
  function Param(k: nat): real {
    k as real * DELTA
  }

  /** The samples of segment i, at t = 0, DELTA, ..., 21 DELTA. */
  function SegmentSamples(m: Mat4, points: seq<Vec2>, i: nat): seq<Vec2>
    requires i + 3 < |points|
  {
    seq(SAMPLES_PER_SEGMENT, k requires 0 <= k < SAMPLES_PER_SEGMENT => SegmentPoint(m, points, i, Param(k)))
  }

  /** The sampling loop of one segment, with the running parameter t stepped by
      DELTA while t <= 1 + DELTA. It emits 22 points, the k-th at t = k DELTA. */
  method DrawSegment(i: nat, m: Mat4, points: seq<Vec2>) returns (samples: seq<Vec2>)
    requires i + 3 < |points|
    ensures |samples| == SAMPLES_PER_SEGMENT
    ensures forall k :: 0 <= k < |samples| ==> samples[k] == SegmentPoint(m, points, i, Param(k))
  {
    var gm := MulMat(SegmentGeometry(points, i), m);
    samples := [];
    var t := 0.0;
    while t <= 1.0 + DELTA
      invariant |samples| <= SAMPLES_PER_SEGMENT
      invariant t == Param(|samples|)
      invariant forall k :: 0 <= k < |samples| ==> samples[k] == SegmentPoint(m, points, i, Param(k))
      decreases SAMPLES_PER_SEGMENT - |samples|
    {
      samples := samples + [Apply(gm, ParameterVector(t))];
      t := t + DELTA;
    }
  }

  /** The wrap-around subtraction of two size_t values. */
  function SizeSub(a: nat, b: nat): (r: nat)
    requires a < SIZE_T_MODULUS && b < SIZE_T_MODULUS
    ensures r < SIZE_T_MODULUS
    ensures b <= a ==> r == a - b
    ensures a < b ==> r + b == a + SIZE_T_MODULUS
  {
    (a - b) % SIZE_T_MODULUS
  }

  /** Below three control points the segment count wraps around to a number
      larger than the point count, so the loop enters segment 0, whose fourth
      point, index 3, is not in the sequence. */
  lemma SegmentCountWrapsBelowThree(n: nat)
    requires n < 3
    ensures SizeSub(n, 3) == n + SIZE_T_MODULUS - 3
    ensures SizeSub(n, 3) > n
    ensures 0 < SizeSub(n, 3) && !(0 + 3 < n)
  {
  }

  /** The segments first .. N-4, each sampled, one after the other. */
  function CurveFrom(m: Mat4, points: seq<Vec2>, first: nat): (r: seq<Vec2>)
    requires 3 <= |points| && first <= |points| - 3
    ensures |r| == (|points| - 3 - first) * SAMPLES_PER_SEGMENT
    decreases |points| - 3 - first
  {
    if first == |points| - 3 then []
    else SegmentSamples(m, points, first) + CurveFrom(m, points, first + 1)
  }

  /** Sample j of the strip from segment `first` on is sample j mod 22 of
      segment first + j div 22. */
  lemma {:induction false} CurveFromSample(m: Mat4, points: seq<Vec2>, first: nat, j: nat)
    requires 3 <= |points| && first <= |points| - 3
    requires j < |CurveFrom(m, points, first)|
    ensures first + j / SAMPLES_PER_SEGMENT + 3 < |points|
    ensures CurveFrom(m, points, first)[j]
         == SegmentPoint(m, points, first + j / SAMPLES_PER_SEGMENT, Param(j % SAMPLES_PER_SEGMENT))
    decreases |points| - 3 - first
  {
    if j >= SAMPLES_PER_SEGMENT {
      var j' := j - SAMPLES_PER_SEGMENT;
      assert j / SAMPLES_PER_SEGMENT == 1 + j' / SAMPLES_PER_SEGMENT;
      assert j % SAMPLES_PER_SEGMENT == j' % SAMPLES_PER_SEGMENT;
      CurveFromSample(m, points, first + 1, j');
    }
  }

  /** The whole polyline: every segment of the control points, in order. */
  function Curve(m: Mat4, points: seq<Vec2>): seq<Vec2>
    requires 3 <= |points|
  {
    CurveFrom(m, points, 0)
  }

  /** The curve-drawing loop: N - 3 segments, computed as a size_t
      subtraction, each drawn into one line strip. */
  method DrawCurve(m: Mat4, points: seq<Vec2>) returns (strip: seq<Vec2>)
    requires 3 <= |points| < SIZE_T_MODULUS
    ensures strip == Curve(m, points)
  {
    var segmentCount := SizeSub(|points|, 3);
    strip := [];
    var i := 0;
    while i < segmentCount
      invariant i <= segmentCount
      invariant strip + CurveFrom(m, points, i) == Curve(m, points)
    {
      var samples := DrawSegment(i, m, points);
      CurveFromUnfolds(m, points, i, samples);
      strip := strip + samples;
      i := i + 1;
    }
  }

  /** The strip from segment i on is the samples of segment i followed by the
      strip from segment i+1 on. */
  lemma CurveFromUnfolds(m: Mat4, points: seq<Vec2>, i: nat, samples: seq<Vec2>)
    requires i + 3 < |points|
    requires |samples| == SAMPLES_PER_SEGMENT
    requires forall k :: 0 <= k < |samples| ==> samples[k] == SegmentPoint(m, points, i, Param(k))
    ensures CurveFrom(m, points, i) == samples + CurveFrom(m, points, i + 1)
  {
    assert samples == SegmentSamples(m, points, i);
  }

  /** Number of segments a sequence of n control points has. */
  function SegmentCount(n: nat): nat {
    if n < 3 then 0 else n - 3
  }

  /** What one frame draws as the curve: nothing below four control points,
      otherwise every segment with the blending matrix of the current shape. */
  function FrameCurve(tension: real, bias: real, continuity: real, points: seq<Vec2>): (strip: seq<Vec2>)
    ensures |points| < MINIMUM_CONTROL_POINTS ==> strip == []
    ensures |strip| == SegmentCount(|points|) * SAMPLES_PER_SEGMENT
  {
    if |points| >= MINIMUM_CONTROL_POINTS then
      Curve(CoefficientMatrix(tension, bias, continuity), points)
    else
      []
  }

  /** The frame's curve drawing: the blending matrix of the current shape and
      the segment loop, run only when there are at least four control points. */
  method DrawFrame(tension: real, bias: real, continuity: real, points: seq<Vec2>) returns (strip: seq<Vec2>)
    requires |points| < SIZE_T_MODULUS
    ensures strip == FrameCurve(tension, bias, continuity, points)
    ensures |strip| == SegmentCount(|points|) * SAMPLES_PER_SEGMENT
  {
    if |points| >= MINIMUM_CONTROL_POINTS {
      var m := CoefficientMatrix(tension, bias, continuity);
      strip := DrawCurve(m, points);
    } else {
      strip := [];
    }
  }

  /** Sample j of a frame's curve is sample j mod 22 of segment j div 22, with
      the blending matrix of the current shape. */
  lemma FrameCurveSample(tension: real, bias: real, continuity: real, points: seq<Vec2>, j: nat)
    requires j < |FrameCurve(tension, bias, continuity, points)|
    ensures j / SAMPLES_PER_SEGMENT + 3 < |points|
    ensures FrameCurve(tension, bias, continuity, points)[j]
         == SegmentPoint(CoefficientMatrix(tension, bias, continuity), points,
                         j / SAMPLES_PER_SEGMENT, Param(j % SAMPLES_PER_SEGMENT))
  {
    CurveFromSample(CoefficientMatrix(tension, bias, continuity), points, 0, j);
  }

  /** Where segment s ends (its sample 20, t = 1) the next segment starts (its
      sample 0, t = 0): both are control point s+2. */
  lemma CurveJoinsAreContinuous(tension: real, bias: real, continuity: real,
                                points: seq<Vec2>, s: nat)
    requires s + 4 < |points|
    ensures var strip := FrameCurve(tension, bias, continuity, points);
      (s + 1) * SAMPLES_PER_SEGMENT < |strip|
      && strip[s * SAMPLES_PER_SEGMENT + 20] == points[s + 2]
      && strip[(s + 1) * SAMPLES_PER_SEGMENT] == points[s + 2]
  {
    var strip := FrameCurve(tension, bias, continuity, points);
    var a := s * SAMPLES_PER_SEGMENT + 20;
    var b := (s + 1) * SAMPLES_PER_SEGMENT;
    assert a / SAMPLES_PER_SEGMENT == s && a % SAMPLES_PER_SEGMENT == 20;
    assert b / SAMPLES_PER_SEGMENT == s + 1 && b % SAMPLES_PER_SEGMENT == 0;
    assert Param(20) == 1.0;
    FrameCurveSample(tension, bias, continuity, points, a);
    FrameCurveSample(tension, bias, continuity, points, b);
    SegmentEndsAtThirdPoint(tension, bias, continuity, points, s);
    SegmentStartsAtSecondPoint(tension, bias, continuity, points, s + 1);
  }

  /** The drawn curve passes through every control point except the first and
      the last. */
  lemma CurveInterpolatesInteriorPoints(tension: real, bias: real, continuity: real,
                                        points: seq<Vec2>, j: nat)
    requires MINIMUM_CONTROL_POINTS <= |points|
    requires 1 <= j < |points| - 1
    ensures points[j] in FrameCurve(tension, bias, continuity, points)
  {
    var strip := FrameCurve(tension, bias, continuity, points);
    if j < |points| - 2 {
      var a := (j - 1) * SAMPLES_PER_SEGMENT;
      assert a / SAMPLES_PER_SEGMENT == j - 1 && a % SAMPLES_PER_SEGMENT == 0;
      FrameCurveSample(tension, bias, continuity, points, a);
      SegmentStartsAtSecondPoint(tension, bias, continuity, points, j - 1);
      assert strip[a] == points[j];
    } else {
      var a := (j - 2) * SAMPLES_PER_SEGMENT + 20;
      assert a / SAMPLES_PER_SEGMENT == j - 2 && a % SAMPLES_PER_SEGMENT == 20;
      assert Param(20) == 1.0;
      FrameCurveSample(tension, bias, continuity, points, a);
      SegmentEndsAtThirdPoint(tension, bias, continuity, points, j - 2);
      assert strip[a] == points[j];
    }
  }

  /** Four equally spaced points on the x axis. */
  predicate IsCollinearExample(points: seq<Vec2>) {
    && |points| == 4
    && points[0] == Vec2(0.0, 0.0)
    && points[1] == Vec2(100.0, 0.0)
    && points[2] == Vec2(200.0, 0.0)
    && points[3] == Vec2(300.0, 0.0)
  }

  /** With the Catmull-Rom basis (zero tension, bias and continuity), the one segment of four equally spaced
      collinear points is the straight line from (100, 0) to (200, 0), traced
      at uniform speed. */
  lemma CollinearSegmentIsStraight(m: Mat4, points: seq<Vec2>, t: real)
    requires m == CatmullRom()
    requires IsCollinearExample(points)
    ensures SegmentPoint(m, points, 0, t) == Vec2(100.0 + 100.0 * t, 0.0)
  {
    CatmullRomCollinearGeometry(points);
    StraightWhenProductIsLinear(CatmullRom(), points, t);
  }

  /** A segment whose geometry-times-basis product has the columns below is
      the line t |-> (100 + 100 t, 0). */
  lemma StraightWhenProductIsLinear(m: Mat4, points: seq<Vec2>, t: real)
    requires 3 < |points|
    requires MulMat(SegmentGeometry(points, 0), m)
          == Mat24(Vec2(0.0, 0.0), Vec2(0.0, 0.0), Vec2(100.0, 0.0), Vec2(100.0, 0.0))
    ensures SegmentPoint(m, points, 0, t) == Vec2(100.0 + 100.0 * t, 0.0)
  {
  }

  lemma CatmullRomCollinearGeometry(points: seq<Vec2>)
    requires IsCollinearExample(points)
    ensures MulMat(SegmentGeometry(points, 0), CatmullRom())
         == Mat24(Vec2(0.0, 0.0), Vec2(0.0, 0.0), Vec2(100.0, 0.0), Vec2(100.0, 0.0))
  {
    var g := Mat24(Vec2(0.0, 0.0), Vec2(100.0, 0.0), Vec2(200.0, 0.0), Vec2(300.0, 0.0));
    assert SegmentGeometry(points, 0) == g;
    var c := Transpose(CatmullRom());
    assert Apply(g, c.r0) == Vec2(0.0, 0.0);
    assert Apply(g, c.r1) == Vec2(0.0, 0.0);
    assert Apply(g, c.r2) == Vec2(100.0, 0.0);
    assert Apply(g, c.r3) == Vec2(100.0, 0.0);
  }

  /** Sample k of the collinear segment is (100 + 5k, 0). In the exact-real
      model the samples run from (100, 0) through (200, 0) at k = 20 to
      (205, 0) at k = 21, just past the end of the segment. */
  lemma CollinearSamples(m: Mat4, points: seq<Vec2>, k: nat)
    requires m == CatmullRom()
    requires IsCollinearExample(points)
    ensures SegmentPoint(m, points, 0, Param(k)) == Vec2(100.0 + 5.0 * k as real, 0.0)
  {
    CollinearSegmentIsStraight(m, points, Param(k));
  }
}
