# AxisTics — tics for annotating an axis

This project models `edu.mines.jtk.util.AxisTics` from the Mines Java Toolkit. Given
the values at the two ends of an axis, an `AxisTics` object holds the count,
interval and first value of the major tics and of the minor tics, plus the tic
multiple, which is the number of minor intervals per major interval. It can be
built in two ways:

- **interval mode** (`AxisTics(x1, x2, dtic)`): the major interval is given,
  and its sign is ignored;
- **count mode** (`AxisTics(x1, x2, ntic)`): the major interval is chosen
  among `m * 10^l` for `m` in 1, 2, 5 and 10. The choice keeps the number of
  major tics as large as possible without exceeding `ntic`.

In both modes the first major tic is the smallest multiple of the interval
that is at or above the axis minimum. The count is `1 + (int)((xmax - f) / d)`.
The minor tics come from walking back from the first major tic in minor steps,
for as long as the axis minimum is not passed.

The model has three files:

- `numerics.dfy` (module `Numerics`) gives exact stand-ins for the
  `java.lang.Math` calls the class uses:
  - `min`, `max` and `abs`;
  - the `(int)` cast as `Trunc`, which truncates toward zero;
  - `pow(10, l)` as `Pow10`;
  - `(int) log10(r)` as `TruncLog10`, characterised by bounds;
  - the test `almostEqual(rint(log10 x), log10 x)` as the exact predicate
    `IsPowerOfTen`.
- `axis_tics.dfy` (module `Tics`) has three parts:
  - closed forms for each tic parameter (`IntervalTics`, `CountTics` and the
    functions they use);
  - the invariants every object satisfies (`WellFormed`), with lemmas
    about them;
  - the class `AxisTics`. Its fields are those of the Java class, and its
    constructors and private methods compute step by step, with the same
    loops as the source. Each one is proved equal to the closed forms.
- `scenarios.dfy` (module `Scenarios`) works through concrete cases exactly.

Java `double` values are modelled as mathematical reals.

## Model

| member | source | states |
|---|---|---|
| Tics.AxisTics.ByInterval | src/edu/mines/jtk/util/AxisTics.java:49-64 | The interval-mode constructor leaves the fields equal to `IntervalTics(x1, x2, dtic)` for any nonzero interval, and the object satisfies every invariant (`Valid`). |
| Tics.AxisTics.ByCount | src/edu/mines/jtk/util/AxisTics.java:72-106 | The count-mode constructor's loop over the multiples 1, 2, 5 and 10 keeps the candidate that `BestIndex` selects, maps multiple 1 to 10, and leaves the fields equal to `CountTics(x1, x2, ntic)`, with every invariant holding. |
| Tics.AxisTics.PlaceFirstTic | src/edu/mines/jtk/util/AxisTics.java:53-55 | The loop starts at `((int)(xmin/d) - 1) * d` and steps up by `d` while below `xmin`. It terminates and ends exactly at `FirstTic(xmin, d)`, the least multiple of `d` not below `xmin`. |
| Tics.AxisTics.TryMultiple | src/edu/mines/jtk/util/AxisTics.java:83-89 | One pass of the count-mode loop body: the interval `m * 10^(int)log10((xmax-xmin)/(m*ntic))`, its first tic and its count equal that candidate's `MajorGrid`. |
| Tics.AxisTics.ComputeMultiple | src/edu/mines/jtk/util/AxisTics.java:180-192 | Changes only `mtic`, and sets it to `ClassifyMultiple(dtic)`: the tests for `dtic/10`, `dtic/5` and `dtic/2` being a power of ten, in that order, with 1 as the fallback. |
| Tics.AxisTics.ComputeMinorTics | src/edu/mines/jtk/util/AxisTics.java:194-203 | Changes only the three minor fields, and sets them to `MinorGrid` of the major tics: interval `dtic/mtic`, the walked-back first tic, and the truncated count. |
| Tics.AxisTics.WalkBack | src/edu/mines/jtk/util/AxisTics.java:196-198 | The loop `while (xmin <= fm - dm) fm -= dm` terminates and ends at the closed form `FirstMinorTic`, which is `ftic - floor((ftic - xmin)/dm) * dm` when `xmin <= ftic`. |
| Tics.AxisTics.CountMajor | src/edu/mines/jtk/util/AxisTics.java:112-114 | At least one major tic. When the first major tic is within the axis, the last counted tic is at most `xmax` and the next one would exceed it. |
| Tics.AxisTics.DeltaMajor | src/edu/mines/jtk/util/AxisTics.java:120-122 | The major interval is positive and equals the multiple times the minor interval. |
| Tics.AxisTics.FirstMajor | src/edu/mines/jtk/util/AxisTics.java:128-130 | The first major tic is an integer multiple of the major interval, lies in `[xmin, xmin + dtic)`, and so is the least such multiple. |
| Tics.AxisTics.CountMinor | src/edu/mines/jtk/util/AxisTics.java:136-138 | At least one minor tic. When the first minor tic is within the axis, the last counted tic is at most `xmax` and the next one would exceed it. |
| Tics.AxisTics.DeltaMinor | src/edu/mines/jtk/util/AxisTics.java:144-146 | The minor interval is positive, and the multiple times it gives the major interval. |
| Tics.AxisTics.FirstMinor | src/edu/mines/jtk/util/AxisTics.java:152-154 | The first minor tic is `k <= 0` minor steps from the first major tic, lies in `[xmin, ftic]`, and one more minor step down would fall below `xmin`. |
| Tics.AxisTics.Multiple | src/edu/mines/jtk/util/AxisTics.java:156-163 | The multiple is one of 1, 2, 5 or 10, and is the number of minor intervals per major interval. |
| Tics.FirstTicIsLeastMultiple | src/edu/mines/jtk/util/AxisTics.java:20-24 | The first major tic is an integer multiple of the interval, is not less than `xmin`, and is at most every multiple not less than `xmin`. |
| Tics.InitialGuessBelow | src/edu/mines/jtk/util/AxisTics.java:53 | The starting guess `((int)(xmin/d) - 1) * d` lies strictly below `xmin`, and the placement loop takes one or two steps from it. |
| Tics.TicCountBounds | src/edu/mines/jtk/util/AxisTics.java:24-26 | When the first tic is at most `xmax`, the last counted tic is at most `xmax` and the next one exceeds it. When `xmax < first < xmax + d`, the count is still 1 because the cast truncates toward zero. The count is positive exactly when `first < xmax + d`. |
| Tics.TicsWithinRange | src/edu/mines/jtk/util/AxisTics.java:56 | Every counted tic lies in `[first, xmax]` when the first tic is within the axis. |
| Numerics.Trunc | src/edu/mines/jtk/util/AxisTics.java:56 | The `(int)` cast: below `x` by less than 1 for `x >= 0`, above `x` by less than 1 for `x < 0`. |
| Numerics.Pow10 | src/edu/mines/jtk/util/AxisTics.java:85 | `pow(10.0, l)` is positive. |
| Numerics.Pow10Increasing | src/edu/mines/jtk/util/AxisTics.java:85 | Powers of ten are strictly increasing in the exponent, in both directions of the iff. |
| Numerics.TruncLog10 | src/edu/mines/jtk/util/AxisTics.java:84 | `(int) log10(r)` for `r > 0`. Above 1 it is the largest `l >= 0` with `10^l <= r`; below 1 it is the least `l <= 0` with `r <= 10^l`. |
| Numerics.TruncLog10Unique | src/edu/mines/jtk/util/AxisTics.java:84 | Those bounds determine the truncated logarithm uniquely. |
| Numerics.TruncLog10OfPower | src/edu/mines/jtk/util/AxisTics.java:84 | The truncated logarithm of `10^k` is `k`. |
| Numerics.PowerOfTenExact | src/edu/mines/jtk/util/AxisTics.java:205-207 | The exact counterpart of `almostEqual(rint(log10 x), log10 x)` holds exactly when `x == 10^k` for some integer `k`. |
| Numerics.BetweenPowersNotPower | src/edu/mines/jtk/util/AxisTics.java:185-189 | A value strictly between consecutive powers of ten fails the power-of-ten test. |
| Tics.MultipleClassifies | src/edu/mines/jtk/util/AxisTics.java:180-191 | For `d > 0` the multiple is 10 exactly when `d` is a power of ten, 5 exactly when `d` is 5 times one, 2 exactly when `d` is 2 times one, and 1 exactly when none of these holds. |
| Tics.ClassifiesTen | src/edu/mines/jtk/util/AxisTics.java:185-186 | The first test yields 10 if and only if `d` is a power of ten. |
| Tics.ClassifiesFive | src/edu/mines/jtk/util/AxisTics.java:187-188 | The result is 5 if and only if `d` is 5 times a power of ten; the earlier test for 10 never catches such a `d`. |
| Tics.ClassifiesTwo | src/edu/mines/jtk/util/AxisTics.java:189-190 | The result is 2 if and only if `d` is 2 times a power of ten; the earlier tests never catch such a `d`. |
| Tics.FirstMinorTicBounds | src/edu/mines/jtk/util/AxisTics.java:196-198 | The walked-back first minor tic is `k <= 0` minor steps from the first major tic, lies in `[xmin, ftic]`, and one more step would pass below `xmin`. |
| Tics.MajorGridOk | src/edu/mines/jtk/util/AxisTics.java:53-56 | For any positive interval, the major tics satisfy the major-tic invariants (`MajorOk`). |
| Tics.MinorGridOk | src/edu/mines/jtk/util/AxisTics.java:194-203 | From valid major tics and a multiple in {1, 2, 5, 10}, the minor tics satisfy the minor-tic invariants (`MinorOk`). |
| Tics.IntervalTicsWellFormed | src/edu/mines/jtk/util/AxisTics.java:49-64 | Interval mode yields parameters satisfying every invariant. |
| Tics.CountTicsWellFormed | src/edu/mines/jtk/util/AxisTics.java:72-106 | Count mode yields parameters satisfying every invariant. |
| Tics.ClampCount | src/edu/mines/jtk/util/AxisTics.java:75-76 | A maximum count of zero or less becomes 1; a positive maximum is kept. |
| Tics.CandidateCountPositive | src/edu/mines/jtk/util/AxisTics.java:86-89 | Every candidate has at least one tic. |
| Tics.BestIndex | src/edu/mines/jtk/util/AxisTics.java:82-96 | The kept candidate fits (`0 < n <= ntic`). No fitting candidate has more tics, and every fitting candidate tried before it has strictly fewer, so ties go to the first one tried. When none fits, the result is -1. |
| Tics.BestIndexStep | src/edu/mines/jtk/util/AxisTics.java:90-95 | One more candidate replaces the best so far exactly when `nbest < n && n <= ntic`. |
| Tics.CountTicsChoice | src/edu/mines/jtk/util/AxisTics.java:28-34 | In count mode the number of major tics lies between 1 and the clamped maximum. The major tics are the best candidate's, with interval `m * 10^l` for that candidate's multiple `m`. The stored multiple is 2, 5 or 10, because 1 becomes 10. |
| Tics.MajorTicsAreMinorTics | src/edu/mines/jtk/util/AxisTics.java:14 | When the first major tic is within the axis, every counted major tic is also a counted minor tic. |
| Tics.IntervalTicsSymmetric | src/edu/mines/jtk/util/AxisTics.java:50-52 | Interval mode gives the same result with the ends swapped or the interval negated, and its interval is positive. |
| Tics.CountTicsSymmetric | src/edu/mines/jtk/util/AxisTics.java:73-74 | Count mode is admissible, and gives the same result, with the ends swapped. |
| Scenarios.UnitRangeQuarterInterval | src/edu/mines/jtk/util/AxisTics.java:49-64 | Interval 0.25 on [0, 1] gives 5 major tics from 0. The multiple is 1 because none of 0.025, 0.05 and 0.125 is a power of ten, so the minor tics are the major tics. |
| Scenarios.SwappedEndsEvenInterval | src/edu/mines/jtk/util/AxisTics.java:49-64 | Ends 5 and -3 with interval 2 give 4 major tics from -2 and multiple 2. The minor tics are 9 tics from -3 with interval 1. |
| Scenarios.UnitRangeFourTics | src/edu/mines/jtk/util/AxisTics.java:72-106 | At most 4 tics on [0, 1]: the candidates give 2, 1, 3 and 2 tics. Multiple 5 wins, with 3 major tics of 0.5 and 11 minor tics of 0.1. |
| Scenarios.WideRangeOneTicHasNoCandidate | src/edu/mines/jtk/util/AxisTics.java:82-105 | At most 1 tic on [0, 10]: the candidates give 2, 6, 3 and 2 tics, all more than 1, so no candidate is kept. |
| Scenarios.MajorTicOutsideMinorTics | src/edu/mines/jtk/util/AxisTics.java:14 | With both ends 0.5 and interval 1, the major tic is 1 with multiple 10, but the minor tics walk back to the single tic 0.5, so the major tic is not a minor tic. |
| Scenarios.TicBeyondAxisStillCounted | src/edu/mines/jtk/util/AxisTics.java:53-56 | Ends 0.2 and 0.4 with interval 1 put the only major tic at 1, beyond the axis. The truncating cast still counts it. |

## Left out

- Floating point is not modelled. Doubles are reals, and `log10`, `pow` and `rint` are exact. The relative tolerance of `almostEqual` (100 ulps of `DBL_EPSILON`) is replaced by the exact test `IsPowerOfTen`. Rounding error that makes a computed interval miss or hit a power of ten is therefore not captured.
- `int` overflow is not modelled: neither the saturating `(int)` cast of huge quotients nor the product `m*ntic` overflowing.
- Tics.AxisTics.ByCount: requires `x1 != x2` and at least one candidate that fits (`CountModeAdmissible`), which is stronger than the source's contract.
  - With equal ends the source takes `log10(0)`.
  - When no candidate fits, the source stores `mtic = 0` and `ntic = 0`, then divides `0.0/0` in `computeMinorTics`, leaving NaN minor tics.
  - Neither NaN path is modelled. `Scenarios.WideRangeOneTicHasNoCandidate` shows the second path is reachable, for ends 0 and 10 with at most 1 tic.
  - Every candidate has at least one tic, so "no candidate" happens only when all of them exceed the maximum.
- Tics.AxisTics.Multiple: returns an `int`; the source's `getMultiple` returns the same value widened to `double`.
- Tics.MajorTicsAreMinorTics: proved only when the first major tic is within the axis. The class comment says major tics are a subset of minor tics, but `Scenarios.MajorTicOutsideMinorTics` shows that with both ends 0.5 and interval 1 the single counted major tic is 1 while the single minor tic is 0.5.
- The two Java constructors are overloads. Dafny has no overloading, so they are the named constructors `ByInterval` and `ByCount`.
- The private methods `computeMultiple` and `computeMinorTics` keep their names (`ComputeMultiple`, `ComputeMinorTics`), and each modifies only the fields it assigns.
- The loop that places the first tic appears twice in the source (lines 53-55 and 86-88), so it is modelled once, as `PlaceFirstTic`.
- `LinearTransformWrapper` and the scene-graph panel tests are not part of this model: they do not use the tic computation.
