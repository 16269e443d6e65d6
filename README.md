# svg-time-series: affine algebra of the real line and streaming window arithmetic

This project models two parts of the svg-time-series chart library in Dafny and proves their laws.

- **`ViewZoomTransform`** (`view_zoom_transform.dfy`) models `viewZoomTransform.ts`.
  - `AR1` is an affine automorphism of the real line, x' = a·x + b. It supports `ComposeWith` (this first, the argument second), `Inverse` and `ApplyToPoint`.
  - `AR1Basis` is an ordered pair of reference points, with `ToArr` and `TransformWith`.
  - `BUnit` and `BPlaceholder` are the unit basis (0, 1).
  - `BetweenBasesAR1` and `BetweenTBasesAR1` form the closed-form solver. It gives the unique `AR1` that carries one basis onto another, first point to first point and second to second.
  - Numbers are `real`. The source lets a division by zero yield NaN or Infinity. Here that becomes a precondition: `a != 0` for `Inverse`, and distinct source points for the solver.
- **`Draw`** (`draw.dfy`) models the time and index arithmetic of the `TimeSeriesChart` class in `draw.ts`. It is a class with these fields:
  - the window of sample rows, a `seq` field that `push`/`shift` reassign;
  - the dates `minX` and `maxX` of the first and last row as last drawn;
  - the count `missedStepsCount` of rows received but not yet drawn;
  - the domains of the unzoomed (`x`) and zoomed (`rx`) time scales.

  Dates are integer milliseconds, as `Date.getTime()` returns them. `CalcDate(index, offset)` is `index * stepX + offset`. `GetZoomIntervalY` is the linear scan that finds the first and last row dated inside the visible interval. `UpdateChartWithNewData` and `DrawNewDataBody` slide the window. A ghost function `RowDate(i)` gives the date each row carries. The methods prove that every row keeps its date while the window slides, and that drawing moves `minX`, `maxX` and both domains by one step per received row.

## Model

| member | source | states |
|---|---|---|
| `ViewZoomTransform.ApplyToPointLine` | viewZoomTransform.ts:28-31 | the image of 0 is `b`, and two images differ by `a` times the distance between their points (a is the slope, b the intercept) |
| `ViewZoomTransform.AR1.ComposeWith` | viewZoomTransform.ts:15-20 | the composite sends every x to `other(this(x))`: this is applied first, the argument second |
| `ViewZoomTransform.ComposeOrderMatters` | viewZoomTransform.ts:15-20 | composition is not commutative: scale-by-2 then shift-by-1 is (2, 1); the other order is (2, 2) |
| `ViewZoomTransform.ComposeAssociative` | viewZoomTransform.ts:15-20 | composing (t1 with t2) with t3 gives the same coefficients as t1 with (t2 with t3) |
| `ViewZoomTransform.AR1.Inverse` | viewZoomTransform.ts:22-26 | for a != 0 the inverse has a non-zero scale and undoes the transform on both sides: inverse(t(x)) == x and t(inverse(x)) == x for every x |
| `ViewZoomTransform.InverseCancels` | viewZoomTransform.ts:22-26 | t composed with its inverse, in either order, has the identity coefficients (1, 0) |
| `ViewZoomTransform.AgreeOnTwoPoints` | viewZoomTransform.ts:50-52 | two automorphisms that agree on two distinct points have the same coefficients |
| `ViewZoomTransform.BetweenBasesAR1` | viewZoomTransform.ts:74-81 | for b1[0] != b1[1] the solved transform sends b1[0] to b2[0] and b1[1] to b2[1] |
| `ViewZoomTransform.BetweenBasesUnique` | viewZoomTransform.ts:50-53 | any automorphism that sends b1 onto b2 point for point equals the solver's result (the transform is determined by the pair of bases) |
| `ViewZoomTransform.BetweenBasesSwap` | viewZoomTransform.ts:60-62 | swapping the point order in both bases yields the same coefficients: only the correspondence matters, not which point is smaller |
| `ViewZoomTransform.FahrenheitToCelsius` | viewZoomTransform.ts:56-66 | solving (32, 212) onto (0, 100) gives a = 5/9, b = -160/9 and maps 98.6 to 37; the swapped bases give the same transform; (212, 32) onto (0, 100) gives the reversed scale (-5/9, 1060/9) |
| `ViewZoomTransform.BetweenBasesReversed` | viewZoomTransform.ts:77-81 | with both bases non-degenerate, the solved scale is non-zero and solving b2 onto b1 gives the inverse of solving b1 onto b2 |
| `ViewZoomTransform.BetweenTBasesAR1` | viewZoomTransform.ts:107-110 | the solver on typed bases sends b1's first point to b2's first and b1's second to b2's second |
| `ViewZoomTransform.TransformWithCompose` | viewZoomTransform.ts:95-97 | transforming a basis by t1 and then by t2 is transforming it once by t1 composed with t2 |
| `ViewZoomTransform.BetweenTBasesRecovers` | viewZoomTransform.ts:67-70 | for every automorphism T and every non-degenerate basis c, solving c onto c transformed by T gives exactly T, so infinitely many basis pairs define the same T |
| `ViewZoomTransform.BetweenTBasesFromUnit` | viewZoomTransform.ts:100-104 | the placeholder basis is the unit basis (0, 1), whose pair is (0, 1); solving the unit basis onto c gives scale c.p2 - c.p1 and offset c.p1 |
| `ViewZoomTransform.BetweenTBasesChain` | viewZoomTransform.ts:107-110 | solving b1 onto b2 and then b2 onto b3 composes to solving b1 onto b3 |
| `Draw.TimeSeriesChart.CalcDateAdditive` | draw.ts:202-204 | stepping i steps and then j steps from a date is stepping i + j steps |
| `Draw.TimeSeriesChart.constructor` | draw.ts:50-60 | after construction maxX = minX + (data.length - 1)·stepX, missedStepsCount = 0, and both time domains are [minX, maxX] |
| `Draw.TimeSeriesChart.WholeWindowVisible` | draw.ts:129 | with a non-negative step, every index below data.length, dated from minX as the scan at draw.ts:173 dates it, lies in the unzoomed domain [minX, maxX] |
| `Draw.TimeSeriesChart.InSubIntervalConvex` | draw.ts:173 | the rows dated inside a closed date interval form a contiguous range of indices, whatever the sign of the step |
| `Draw.TimeSeriesChart.GetZoomIntervalY` | draw.ts:169-183 | (intervalSize, 0) when no index below intervalSize is dated inside the interval. Otherwise `from` and `to` are matching indices with 0 <= from <= to < intervalSize, and an index below intervalSize matches if and only if from <= i <= to, so from is the smallest match and to the largest |
| `Draw.TimeSeriesChart.UpdateChartWithNewData` | draw.ts:62-72 | missedStepsCount grows by exactly 1 and the window length is unchanged. A non-empty window drops its first row and ends with the new row; an empty window stays empty. Every row keeps its date, and minX, maxX and both domains are unchanged |
| `Draw.TimeSeriesChart.DrawNewDataBody` | draw.ts:185-200 | missedStepsCount is reset to 0 and minX advances by stepsToDraw·stepX. Then maxX = minX + (data.length - 1)·stepX, and the unzoomed domain is [minX, maxX]. Both ends of the zoomed domain move by the same amount, so its width is preserved. Every row keeps its date; minX and maxX become the dates of the first and last row |
| `Draw.TimeSeriesChart.UpdatesThenDraw` | draw.ts:185-190 | k rows received before the deferred draw runs advance minX and both ends of the zoomed domain by exactly (pending + k)·stepX; the window is then (old window + rows) with its first k rows dropped, so its length is unchanged |

## Left out

- `AR1.applyToMatrixX` / `applyToMatrixY` (viewZoomTransform.ts:33-41) are not modelled. They append "translate by b, then scale by a" to a DOM `SVGMatrix`, whose arithmetic is part of the browser, not of this code.
- IEEE-754 behaviour is not modelled: rounding, and the NaN and Infinity that a zero scale or a degenerate basis produce. `AR1.Inverse` requires `a != 0`, and `BetweenBasesAR1` / `BetweenTBasesAR1` require distinct source points. Outside those preconditions the source returns non-finite coefficients, which reals cannot represent.
- `AR1` carries no non-zero-scale invariant. Its constructor (viewZoomTransform.ts:11-13) accepts any pair, so `ComposeWith` and `ApplyToPoint` accept `a == 0` and only `Inverse` demands `a != 0`.
- `ViewWindowTransform.ts`, the screen/model viewport mapper that `draw.ts` imports, is not part of this model, so `setViewPort`, `setViewWindow` and the screen/model conversions are absent.
- In `draw.ts`, these parts are not modelled: `drawChart` (scales, axes, selections, paths, DOM sizing), `zoom` (d3 zoom transform, the floating `scaleY`/`translateY` arithmetic), `drawProc` (timer-based throttling) and the `SegmentTree` rebuild at draw.ts:69, which is external and not shown. The x and rx scales appear only as their date domains.
- Draw.TimeSeriesChart.UpdateChartWithNewData: the call to `drawNewData()` at draw.ts:71 only schedules the body on a timer through `drawProc`. So the body is the separate method `DrawNewDataBody`, and `UpdatesThenDraw` models several rows arriving before the timer fires.
- Dates are modelled as unbounded integer milliseconds with an integer `stepX`. JavaScript's `Date` range limit and the truncation of a fractional `stepX` product are not modelled.
- The window `data` is a value, not an array shared with the caller. The source keeps the caller's array by reference (draw.ts:165), so aliasing is not captured.
- The constructor's `svg`, `buildSegmentTreeTuple` and `zoomHandler` parameters are left out: they only feed the parts above.
