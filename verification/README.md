# Kochanek–Bartels spline editor: verified model of the core

The program lets a user place and drag 2D control points with the mouse.
Every frame it draws the Kochanek–Bartels (tension, continuity, bias) spline
through them. This Dafny project models the three parts of `src/main.cpp`
that carry logic:

- **Blending matrix and curve evaluation** (`Spline`). `calculateCoefficientMatrix`
  maps tension, bias and continuity to a 4×4 matrix.
  - Each window of four consecutive control points is one cubic segment. Its
    point at `t` is `(G·M)·[t³, t², t, 1]`, where `G` has the four points as columns.
  - `drawSegment` samples a segment at `t = 0, 0.05, …` while `t ≤ 1.05`.
  - `drawCurve` draws segments `0 … N−4` into one line strip.
  - `main` draws the curve only when there are at least 4 control points.
  - Drawing is modelled as returning the sequence of emitted vertices.
- **Point picking** (`Picking`). `getClickedPoint` is a first-match search. It
  returns the first control point whose squared distance to the cursor is
  at most 100.
- **Pointer events** (`Session`). `onMouseButton` and `onMouseMove` act on a
  state made of the point sequence and the optional index of the dragged point.
  - A left press either appends the cursor or starts a drag.
  - A left release ends the drag.
  - A move rewrites only the dragged point.

`Geometry` defines the vector and matrix values and `dist2`. It stands in for
the `bevgrafmath2017.h` library, which is not part of this model. `Wrappers`
holds `Option`.

Modelling choices:

- All arithmetic is over exact `real`s instead of `float`s. The endpoint,
  Catmull-Rom and partition-of-unity facts are therefore exact identities.
- The sample parameter is `t = k · 0.05`. In the exact-real model the bound
  `t ≤ 1 + 0.05` admits `k = 0 … 21`, so each modelled segment has 22 samples.
  Sample 20 is at `t = 1`, and sample 21 (`t = 1.05`) lies past the segment's end.
  - `Spline.CollinearSamples` shows this on four equally spaced collinear
    points: the modelled samples run to (200, 0) and then on to (205, 0).
  - The program's single-precision loop stops one sample earlier. Its step
    0.05f is slightly above 0.05 and its bound 1.0f + 0.05f rounds slightly
    below 1.05, so it emits 21 vertices, `k = 0 … 20`. `Spline.FloatStepCount`
    states this for exact multiples of those two constants.
- The segment count `controlPoints.size() - 3` is a `size_t` subtraction. It is
  modelled with explicit wrap-around (`Spline.SizeSub`).
  - Below 3 points it wraps to a huge count, and the loop would read past the
    end of the vector.
  - `Spline.SegmentCountWrapsBelowThree` states this.
  - So `DrawCurve` requires at least 3 points. The gate in `main` gives it at least 4.
- The pointer the program keeps to the dragged point is modelled as an index.
  - The invariant `dragged < |points|` is proved to hold after every event.
  - In the program, a left press that appends a point while another point is
    being dragged keeps the old pointer. `push_back` may have invalidated that
    pointer.
  - The index model keeps the drag on the same point, which is what the
    pointer meant before reallocation.
- The cursor position a press reads with `glfwGetCursorPos` is a parameter of
  the event.
- With zero tension, bias and continuity all four `q` values are 0.5, so the
  matrix is the Catmull-Rom basis (`Spline.CatmullRomSpecialCase`).

## Model

| member | source | states |
|---|---|---|
| Spline.CoefficientMatrix | src/main.cpp:165-178 | for every tension, bias and continuity the matrix has last column (0,1,0,0), row sums (0,0,1,0) and column sums (0,0,0,1) |
| Spline.CatmullRomSpecialCase | src/main.cpp:165-177 | with tension = bias = continuity = 0 the matrix is exactly the Catmull-Rom basis, entry by entry |
| Spline.SegmentPointIsBlend | src/main.cpp:193-205 | the program's evaluation `(G·M)·T` equals the sum over k of control point i+k weighted by `(M·T)[k]` |
| Spline.WeightsSumToOne | src/main.cpp:172-177 | for every shape and every t the four blending weights sum to 1 (partition of unity) |
| Spline.StartsAtSecondPoint | src/main.cpp:193-205 | any blending matrix with last column (0,1,0,0) makes segment i start at control point i+1 |
| Spline.EndsAtThirdPoint | src/main.cpp:193-205 | any blending matrix with row sums (0,0,1,0) makes segment i end at control point i+2 |
| Spline.SegmentStartsAtSecondPoint | src/main.cpp:165-205 | for every shape, segment i evaluated at t = 0 is control point i+1 |
| Spline.SegmentEndsAtThirdPoint | src/main.cpp:165-205 | for every shape, segment i evaluated at t = 1 is control point i+2 |
| Spline.SegmentTranslates | src/main.cpp:165-205 | translating all control points by d translates every curve point by d |
| Spline.FloatStepCount | src/main.cpp:202 | with the single-precision step 0.05f and bound 1.0f + 0.05f, the multiples k·0.05f passing the loop test are exactly k = 0 … 20, and k = 20 lies past t = 1 |
| Spline.DrawSegment | src/main.cpp:192-209 | over exact reals the sampling loop with bound t ≤ 1 + δ emits exactly 22 points; the k-th is the segment point at t = k·δ |
| Spline.SizeSub | src/main.cpp:181 | the size_t subtraction equals a − b when b ≤ a and wraps to a − b + 2^64 otherwise |
| Spline.SegmentCountWrapsBelowThree | src/main.cpp:181-187 | below 3 points the size_t segment count wraps to n + 2^64 − 3, more than the point count, so segment 0 is entered although its point 3 does not exist |
| Spline.CurveFrom | src/main.cpp:180-190 | the strip of segments first … N−4 has (N−3−first)·22 points |
| Spline.CurveFromSample | src/main.cpp:180-209 | point j of that strip is sample j mod 22 of segment first + j div 22, and that segment's four points are in bounds |
| Spline.CurveFromUnfolds | src/main.cpp:186-188 | the strip from segment i on is the 22 samples of segment i followed by the strip from segment i+1 on |
| Spline.DrawCurve | src/main.cpp:180-190 | the segment loop, run for `size() − 3` segments, emits exactly the whole strip of segments 0 … N−4, each reading points i … i+3 in bounds |
| Spline.FrameCurve | src/main.cpp:93-97 | nothing is drawn below 4 points; otherwise max(0, N−3)·22 points |
| Spline.DrawFrame | src/main.cpp:93-97 | the frame's gated drawing builds the current shape's matrix and emits exactly the frame's curve: nothing below 4 points, otherwise (N−3)·22 points |
| Spline.FrameCurveSample | src/main.cpp:93-97 | point j of a frame's curve is sample j mod 22 of segment j div 22, evaluated with the current shape's matrix |
| Spline.CurveJoinsAreContinuous | src/main.cpp:180-205 | sample 20 of segment s (t = 1) and sample 0 of segment s+1 (t = 0) are both control point s+2 |
| Spline.CurveInterpolatesInteriorPoints | src/main.cpp:180-205 | every control point except the first and the last lies on the drawn curve |
| Spline.StraightWhenProductIsLinear | src/main.cpp:200-205 | a segment whose product G·M has columns (0,0), (0,0), (100,0), (100,0) is the line t ↦ (100 + 100t, 0) |
| Spline.CollinearSegmentIsStraight | src/main.cpp:192-205 | with the Catmull-Rom basis and points (0,0), (100,0), (200,0), (300,0) the segment is the straight line (100 + 100t, 0) |
| Spline.CatmullRomCollinearGeometry | src/main.cpp:193-200 | for those four points, G·M has columns (0,0), (0,0), (100,0), (100,0) |
| Spline.CollinearSamples | src/main.cpp:202-207 | in the collinear case sample k is (100 + 5k, 0); in the exact-real model its 22nd sample (k = 21) lies at (205, 0), past the segment end (200, 0) |
| Geometry.ApplyMulMat | src/main.cpp:200-205 | `(G·M)·v = G·(M·v)`: the order of products the program uses does not matter |
| Geometry.Dist2 | src/main.cpp:234 | the squared distance is never negative and is zero from a point to itself |
| Picking.ClickedPointFrom | src/main.cpp:232-240 | the result is the first index at or after `from` whose point is within squared distance 100, or none exactly when no such index exists |
| Picking.ClickedPoint | src/main.cpp:232-240 | none exactly when every point is farther than squared distance 100; otherwise the first index within it, with every earlier index farther |
| Picking.PressOnPointPicksIt | src/main.cpp:232-240 | a press exactly on point k picks point k or an earlier one |
| Picking.ThresholdIsInclusive | src/main.cpp:234 | a point at distance exactly 10 is picked and one at distance 10.5 is not |
| Session.Initial | src/main.cpp:39-40 | the session starts with no points and no drag, which satisfies the drag-index invariant |
| Session.OnMouseMove | src/main.cpp:117-122 | a move while dragging replaces only the dragged point with the position and keeps the length; a move without a drag changes nothing |
| Session.OnMouseButton | src/main.cpp:124-145 | left release clears the drag; left press away from every point appends exactly the cursor and keeps earlier points; left press near a point drags the first near one and keeps the points; other buttons and actions change nothing; the drag index stays valid |
| Session.Step | src/main.cpp:111-115 | any single event keeps the drag index valid and never removes a point |
| Session.Run | src/main.cpp:111-145 | over any sequence of events the drag index stays below the number of points and points are never removed |
| Session.PressThenMoveDragsPoint | src/main.cpp:117-143 | a press near a point and then a move set that point to the new position, leave the others and keep the length |
| Session.MoveAfterReleaseChangesNothing | src/main.cpp:117-128 | after a left release a move changes nothing |
| Session.DragScenario | src/main.cpp:117-143 | pressing at (100,0) over the point there picks it, and moving to (150,20) moves it there |

## Left out

- GLFW and OpenGL calls: window creation, the render loop, framebuffer setup, callback registration, `glBegin`/`glVertex2f`/`glEnd`. These are I/O and foreign calls. Drawing is modelled as returning the emitted vertex sequence.
- `drawControlPolygon` and `drawControlPoints`: they emit the control points unchanged, so there is nothing to state beyond the identity.
- `color_t`, `glColorCl`, `glClearColorCl`, and the line-width and point-size constants: styling, and a uint8-to-float conversion.
- Spline.DrawSegment: samples over exact reals, where δ = 0.05 puts k = 21 exactly on the bound and gives 22 samples. In the program 0.05f = 13421773/2^28 exceeds 0.05, the accumulated t₂₁ exceeds 1.0f + 0.05f, and the loop at `src/main.cpp:202` emits 21 vertices (k = 0 … 20). The `+ δ` in the bound acts as a rounding tolerance, so the 22nd sample and its overshoot past the segment end do not occur in the program. `Spline.FloatStepCount` states the count for exact multiples of the float constants; per-step rounding of the accumulated `t` is not modelled.
- Other IEEE float behaviour: rounding in the matrix and segment products, at segment joins, and in the `double` to `float` casts of the cursor. The model uses exact reals.
- The internals of `bevgrafmath2017.h` (`vec2`, `vec4`, `mat4`, `mat24`, `dist2`, `operator*`). `Geometry` defines the equivalent values and products: the 2×4 geometry has the points as columns, and `dist2` is dx² + dy².
- Geometry.Dist2: does not state that a zero distance implies equal points. Only "non-negative" and "zero on equal points" are proved.
- Continuity of the matrix entries in the shape parameters is not stated. The entries are polynomials in them.
- The shape parameters are inputs of `FrameCurve`. Nothing in `src/main.cpp` changes them.
