/** Tics for annotating an axis (edu.mines.jtk.util.AxisTics).

    Given the values at the two ends of an axis, the tic parameters are the
    count, interval and first value of the major tics and of the minor tics;
    the major tics are a subset of the minor tics. The major interval is
    either given (interval mode) or chosen among 1, 2, 5 and 10 times a power
    of ten so that the number of major tics comes close to, but does not
    exceed, a given maximum (count mode).

    The first half of this module gives each quantity a closed form over the
    reals; the class AxisTics below computes it step by step as the source
    does, and its constructors are proved to agree with the closed forms. */
module Tics {
  import opened Numerics

  /** A uniform sequence of `count` tics: first, first + delta, ... */
  datatype Grid = Grid(count: int, delta: real, first: real)

  /** The value of tic number i of a uniform sequence. */
  function TicValue(first: real, delta: real, i: int): real
  {
    first + i as real * delta
  }

  /** Everything an AxisTics object holds, as a value. */
  datatype TicParams = TicParams(xmin: real, xmax: real, major: Grid, multiple: int, minor: Grid)

  ghost predicate IsMultipleOf(x: real, d: real)
  {
    exists k: int :: x == TicValue(0.0, d, k)
  }

  /** The smallest integer multiple of d that is not less than xmin. */
  function FirstTic(xmin: real, d: real): real
    requires 0.0 < d
  {
    Ceil(xmin / d) as real * d
  }

  /** The number of tics first, first + d, ... up to xmax, with the source's
      truncation toward zero: 1 + (int)((xmax - first) / d). */
  function TicCount(first: real, xmax: real, d: real): int
    requires 0.0 < d
  {
    1 + Trunc((xmax - first) / d)
  }

  /** The major tics for a known interval d. */
  function MajorGrid(xmin: real, xmax: real, d: real): Grid
    requires 0.0 < d
  {
    var f := FirstTic(xmin, d);
    Grid(TicCount(f, xmax, d), d, f)
  }

  /** The first minor tic: the major tic ftic moved back by as many whole
      minor steps dm as keep it at or above xmin. */
  function FirstMinorTic(xmin: real, ftic: real, dm: real): real
    requires 0.0 < dm
  {
    if ftic < xmin then ftic else ftic - ((ftic - xmin) / dm).Floor as real * dm
  }

  /** The minor tics derived from the major tics and the multiple m. */
  function MinorGrid(xmin: real, xmax: real, major: Grid, m: int): Grid
    requires 0.0 < major.delta && 1 <= m
  {
    var dm := major.delta / m as real;
    var fm := FirstMinorTic(xmin, major.first, dm);
    Grid(TicCount(fm, xmax, dm), dm, fm)
  }

  /** The tic multiple of a major interval d: the tests for d/10, d/5 and d/2
      being a power of ten are made in that order, and 1 is the fallback. */
  function ClassifyMultiple(d: real): int
  {
    if IsPowerOfTen(d / 10.0) then 10
    else if IsPowerOfTen(d / 5.0) then 5
    else if IsPowerOfTen(d / 2.0) then 2
    else 1
  }

  /** d is m times an integer power of ten. */
  ghost predicate IsScaledPowerOfTen(d: real, m: real)
  {
    exists k: int :: d == m * Pow10(k)
  }

  /** The parameters of interval mode, for axis ends x1, x2 and interval dtic. */
  function IntervalTics(x1: real, x2: real, dtic: real): TicParams
    requires dtic != 0.0
  {
    var xmin := Min(x1, x2);
    var xmax := Max(x1, x2);
    var major := MajorGrid(xmin, xmax, Abs(dtic));
    var m := ClassifyMultiple(major.delta);
    TicParams(xmin, xmax, major, m, MinorGrid(xmin, xmax, major, m))
  }

  /** The multiples tried by count mode, in the order they are tried. */
  const Multiples: seq<int> := [1, 2, 5, 10]

  /** A requested maximum count of zero or less counts as 1. */
  function ClampCount(ntic: int): (n: int)
    ensures 1 <= n
    ensures ntic <= 0 ==> n == 1
    ensures 0 < ntic ==> n == ntic
  {
    if ntic <= 0 then 1 else ntic
  }

  /** The candidate interval for multiple m: m * 10^l with
      l = (int)(log10((xmax - xmin) / (m * nmax))). */
  function CandidateInterval(xmin: real, xmax: real, nmax: int, m: int): (d: real)
    requires xmin < xmax && 1 <= nmax && 1 <= m
    ensures 0.0 < d
  {
    m as real * Pow10(TruncLog10((xmax - xmin) / (m * nmax) as real))
  }

  /** The major tics of the four candidates, in the order of Multiples. */
  function Candidates(xmin: real, xmax: real, nmax: int): (cs: seq<Grid>)
    requires xmin < xmax && 1 <= nmax
  {
    [MajorGrid(xmin, xmax, CandidateInterval(xmin, xmax, nmax, 1)),
     MajorGrid(xmin, xmax, CandidateInterval(xmin, xmax, nmax, 2)),
     MajorGrid(xmin, xmax, CandidateInterval(xmin, xmax, nmax, 5)),
     MajorGrid(xmin, xmax, CandidateInterval(xmin, xmax, nmax, 10))]
  }

  /** A candidate can win: its count is positive and within the maximum. */
  predicate Fits(g: Grid, nmax: int)
  {
    0 < g.count <= nmax
  }

  /** Candidate i is the one count mode keeps: it fits, no fitting candidate
      has more tics, and every fitting candidate before it has fewer. */
  predicate IsBest(cs: seq<Grid>, nmax: int, i: int)
  {
    0 <= i < |cs| && Fits(cs[i], nmax) &&
    forall j :: 0 <= j < |cs| && Fits(cs[j], nmax) ==>
      cs[j].count <= cs[i].count && (j < i ==> cs[j].count < cs[i].count)
  }

  /** The index of the best candidate, or -1 when none fits. */
  function BestIndex(cs: seq<Grid>, nmax: int): (r: int)
    ensures -1 <= r < |cs|
    ensures 0 <= r ==> IsBest(cs, nmax, r)
    ensures r < 0 ==> forall j :: 0 <= j < |cs| ==> !Fits(cs[j], nmax)
  {
    if cs == [] then -1
    else
      var r := BestIndex(cs[..|cs| - 1], nmax);
      var last := cs[|cs| - 1];
      if Fits(last, nmax) && (r < 0 || cs[r].count < last.count) then |cs| - 1 else r
  }

  /** Extending the candidates by one: the new one is kept exactly when it
      fits and has more tics than the best so far. */
  lemma BestIndexStep(cs: seq<Grid>, nmax: int, i: int)
    requires 0 <= i < |cs|
    ensures BestIndex(cs[..i + 1], nmax) ==
      var r := BestIndex(cs[..i], nmax);
      if Fits(cs[i], nmax) && (r < 0 || cs[r].count < cs[i].count) then i else r
  {
    assert cs[..i + 1][..i] == cs[..i];
  }

  /** What count mode needs: distinct ends and some candidate that fits. */
  predicate CountModeAdmissible(x1: real, x2: real, ntic: int)
  {
    x1 != x2 &&
    exists i :: 0 <= i < 4 && Fits(Candidates(Min(x1, x2), Max(x1, x2), ClampCount(ntic))[i], ClampCount(ntic))
  }

  /** The parameters of count mode, for axis ends x1, x2 and maximum count ntic. */
  function CountTics(x1: real, x2: real, ntic: int): TicParams
    requires CountModeAdmissible(x1, x2, ntic)
  {
    var xmin := Min(x1, x2);
    var xmax := Max(x1, x2);
    var nmax := ClampCount(ntic);
    var cs := Candidates(xmin, xmax, nmax);
    var i := BestIndex(cs, nmax);
    var m := if Multiples[i] == 1 then 10 else Multiples[i];
    TicParams(xmin, xmax, cs[i], m, MinorGrid(xmin, xmax, cs[i], m))
  }

  /** The invariants of the major tics: a positive interval, the first tic
      the least multiple of it at or above xmin, and the count as computed. */
  ghost predicate MajorOk(xmin: real, xmax: real, g: Grid)
  {
    0.0 < g.delta && IsMultipleOf(g.first, g.delta) &&
    xmin <= g.first < xmin + g.delta &&
    g.count == TicCount(g.first, xmax, g.delta)
  }

  /** The invariants of the minor tics: the interval is the major one over
      the multiple m, and the first minor tic lies on the minor grid through
      the first major tic, not above it, and is the lowest such point at or
      above xmin. */
  ghost predicate MinorOk(xmin: real, xmax: real, major: Grid, m: int, minor: Grid)
  {
    m in {1, 2, 5, 10} &&
    minor.delta == major.delta / m as real &&
    (exists k: int :: k <= 0 && minor.first == TicValue(major.first, minor.delta, k)) &&
    xmin <= minor.first && minor.first - minor.delta < xmin &&
    minor.count == TicCount(minor.first, xmax, minor.delta)
  }

  /** The invariants every AxisTics object satisfies. */
  ghost predicate WellFormed(p: TicParams)
  {
    p.xmin <= p.xmax &&
    MajorOk(p.xmin, p.xmax, p.major) &&
    MinorOk(p.xmin, p.xmax, p.major, p.multiple, p.minor)
  }

  // ---------------------------------------------------------------------
  // Arithmetic helpers

  lemma MulMonotone(a: real, b: real, d: real)
    requires a <= b && 0.0 < d
    ensures a * d <= b * d
  {
  }

  lemma MulDivOrder(a: real, x: real, d: real)
    requires 0.0 < d
    ensures a * d < x <==> a < x / d
    ensures a * d <= x <==> a <= x / d
  {
    assert x / d * d == x;
  }

  // ---------------------------------------------------------------------
  // Properties of the closed forms

  /** Scaling the bounds c - 1 < x / d <= c of a ceiling by d > 0. */
  lemma ScaledCeil(x: real, d: real, c: int)
    requires 0.0 < d && c as real - 1.0 < x / d <= c as real
    ensures c as real * d - d < x <= c as real * d
  {
    MulDivOrder(c as real, x, d);
    MulDivOrder(c as real - 1.0, x, d);
  }

  /** An integer k with k * d >= x is at least the ceiling of x / d. */
  lemma CeilIsLeast(x: real, d: real, k: int)
    requires 0.0 < d && x <= k as real * d
    ensures Ceil(x / d) <= k
  {
    MulDivOrder(k as real, x, d);
  }

  /** The first tic is the smallest integer multiple of d at or above xmin. */
  lemma FirstTicIsLeastMultiple(xmin: real, d: real)
    requires 0.0 < d
    ensures IsMultipleOf(FirstTic(xmin, d), d)
    ensures xmin <= FirstTic(xmin, d) < xmin + d
    ensures forall k: int :: xmin <= TicValue(0.0, d, k) ==> FirstTic(xmin, d) <= TicValue(0.0, d, k)
  {
    var c := Ceil(xmin / d);
    assert FirstTic(xmin, d) == TicValue(0.0, d, c);
    ScaledCeil(xmin, d, c);
    forall k: int | xmin <= TicValue(0.0, d, k)
      ensures FirstTic(xmin, d) <= TicValue(0.0, d, k)
    {
      CeilIsLeast(xmin, d, k);
      MulMonotone(c as real, k as real, d);
    }
  }

  /** The source's first guess (trunc(xmin/d) - 1) * d lies below xmin, and
      the placement loop needs one or two steps from it. */
  lemma InitialGuessBelow(xmin: real, d: real)
    requires 0.0 < d
    ensures (Trunc(xmin / d) - 1) as real * d < xmin
    ensures 1 <= Ceil(xmin / d) - (Trunc(xmin / d) - 1) <= 2
  {
    MulDivOrder((Trunc(xmin / d) - 1) as real, xmin, d);
  }

  /** The count of tics first, first + d, ...: when first <= xmax the last
      counted tic is at most xmax and the next one is beyond it; when
      xmax < first < xmax + d the count is still 1 because the cast
      truncates toward zero; there is at least one tic exactly when
      first < xmax + d. */
  lemma TicCountBounds(first: real, xmax: real, d: real)
    requires 0.0 < d
    ensures first <= xmax ==>
      1 <= TicCount(first, xmax, d) &&
      TicValue(first, d, TicCount(first, xmax, d) - 1) <= xmax < TicValue(first, d, TicCount(first, xmax, d))
    ensures xmax < first < xmax + d ==> TicCount(first, xmax, d) == 1
    ensures 1 <= TicCount(first, xmax, d) <==> first < xmax + d
  {
    var q := (xmax - first) / d;
    var t := Trunc(q);
    MulDivOrder(t as real, xmax - first, d);
    MulDivOrder(t as real + 1.0, xmax - first, d);
    MulDivOrder(-1.0, xmax - first, d);
  }

  /** Every tic counted by TicCount lies in [first, xmax] when first <= xmax. */
  lemma TicsWithinRange(first: real, xmax: real, d: real, i: int)
    requires 0.0 < d && first <= xmax
    requires 0 <= i < TicCount(first, xmax, d)
    ensures first <= TicValue(first, d, i) <= xmax
  {
    TicCountBounds(first, xmax, d);
    var n := TicCount(first, xmax, d);
    assert TicValue(first, d, n - 1) <= xmax;
    assert 0.0 <= i as real * d by {
      MulMonotone(0.0, i as real, d);
    }
    assert i as real * d <= (n - 1) as real * d by {
      MulMonotone(i as real, (n - 1) as real, d);
    }
  }

  lemma DivIff(x: real, m: real, p: real)
    requires 0.0 < m
    ensures p == x / m <==> x == m * p
  {
  }

  lemma ScaledPowerDivided(d: real, m: real)
    requires 0.0 < d && 0.0 < m && IsScaledPowerOfTen(d, m)
    ensures IsPowerOfTen(d / m)
  {
    var k: int :| d == m * Pow10(k);
    DivIff(d, m, Pow10(k));
    TruncLog10OfPower(k);
  }

  lemma DividedPowerScaled(d: real, m: real)
    requires 0.0 < d && 0.0 < m && IsPowerOfTen(d / m)
    ensures IsScaledPowerOfTen(d, m)
  {
    DivIff(d, m, Pow10(TruncLog10(d / m)));
  }

  /** Dividing by m > 0 gives a power of ten exactly when the value is m
      times one. */
  lemma DividedPowerOfTen(d: real, m: real)
    requires 0.0 < d && 0.0 < m
    ensures IsPowerOfTen(d / m) <==> IsScaledPowerOfTen(d, m)
  {
    if IsScaledPowerOfTen(d, m) {
      ScaledPowerDivided(d, m);
    }
    if IsPowerOfTen(d / m) {
      DividedPowerScaled(d, m);
    }
  }

  /** d / 10 is a power of ten exactly when d is one. */
  lemma TenthPowerOfTen(d: real)
    requires 0.0 < d
    ensures IsPowerOfTen(d / 10.0) <==> IsScaledPowerOfTen(d, 1.0)
  {
    DividedPowerOfTen(d, 10.0);
    if IsScaledPowerOfTen(d, 10.0) {
      var k: int :| d == 10.0 * Pow10(k);
      Pow10Succ(k);
      assert d == 1.0 * Pow10(k + 1);
    }
    if IsScaledPowerOfTen(d, 1.0) {
      var k: int :| d == 1.0 * Pow10(k);
      Pow10Succ(k - 1);
      assert d == 10.0 * Pow10(k - 1);
    }
  }

  /** 5 * 10^k does not pass the test for 10. */
  lemma FiveTimesPowerNotTen(d: real)
    requires 0.0 < d && IsScaledPowerOfTen(d, 5.0)
    ensures !IsPowerOfTen(d / 10.0)
  {
    var k: int :| d == 5.0 * Pow10(k);
    Pow10Succ(k - 1);
    // d / 10 == 10^k / 2 lies strictly between 10^(k-1) and 10^k
    BetweenPowersNotPower(d / 10.0, k - 1);
  }

  /** 2 * 10^k passes neither the test for 10 nor the test for 5. */
  lemma TwoTimesPowerNotTenNorFive(d: real)
    requires 0.0 < d && IsScaledPowerOfTen(d, 2.0)
    ensures !IsPowerOfTen(d / 10.0) && !IsPowerOfTen(d / 5.0)
  {
    var k: int :| d == 2.0 * Pow10(k);
    Pow10Succ(k - 1);
    // d / 10 == 10^k / 5 and d / 5 == 4 * 10^k / 10 both lie strictly
    // between 10^(k-1) and 10^k
    BetweenPowersNotPower(d / 10.0, k - 1);
    BetweenPowersNotPower(d / 5.0, k - 1);
  }

  lemma ClassifiesTen(d: real)
    requires 0.0 < d
    ensures ClassifyMultiple(d) == 10 <==> IsScaledPowerOfTen(d, 1.0)
  {
    TenthPowerOfTen(d);
  }

  lemma ClassifiesFive(d: real)
    requires 0.0 < d
    ensures ClassifyMultiple(d) == 5 <==> IsScaledPowerOfTen(d, 5.0)
  {
    DividedPowerOfTen(d, 5.0);
    if IsScaledPowerOfTen(d, 5.0) {
      FiveTimesPowerNotTen(d);
    }
  }

  lemma ClassifiesTwo(d: real)
    requires 0.0 < d
    ensures ClassifyMultiple(d) == 2 <==> IsScaledPowerOfTen(d, 2.0)
  {
    DividedPowerOfTen(d, 2.0);
    if IsScaledPowerOfTen(d, 2.0) {
      TwoTimesPowerNotTenNorFive(d);
    }
  }

  /** The classifier's answer, in the terms of the tic multiple: 10 exactly for
      powers of ten, 5 exactly for 5 * 10^k, 2 exactly for 2 * 10^k, and 1 for
      every other interval. */
  lemma MultipleClassifies(d: real)
    requires 0.0 < d
    ensures ClassifyMultiple(d) in {1, 2, 5, 10}
    ensures ClassifyMultiple(d) == 10 <==> IsScaledPowerOfTen(d, 1.0)
    ensures ClassifyMultiple(d) == 5 <==> IsScaledPowerOfTen(d, 5.0)
    ensures ClassifyMultiple(d) == 2 <==> IsScaledPowerOfTen(d, 2.0)
    ensures ClassifyMultiple(d) == 1 <==>
      !IsScaledPowerOfTen(d, 1.0) && !IsScaledPowerOfTen(d, 5.0) && !IsScaledPowerOfTen(d, 2.0)
  {
    ClassifiesTen(d);
    ClassifiesFive(d);
    ClassifiesTwo(d);
  }

  /** The walk back from the first major tic stops at the lowest point of
      the minor grid through ftic that is still at or above xmin. */
  lemma FirstMinorTicBounds(xmin: real, ftic: real, dm: real)
    requires 0.0 < dm && xmin <= ftic
    ensures exists k: int :: k <= 0 && FirstMinorTic(xmin, ftic, dm) == TicValue(ftic, dm, k)
    ensures xmin <= FirstMinorTic(xmin, ftic, dm) <= ftic
    ensures FirstMinorTic(xmin, ftic, dm) - dm < xmin
  {
    var q := (ftic - xmin) / dm;
    var k := q.Floor;
    assert FirstMinorTic(xmin, ftic, dm) == TicValue(ftic, dm, -k);
    MulDivOrder(k as real, ftic - xmin, dm);
    MulDivOrder(k as real + 1.0, ftic - xmin, dm);
  }

  /** The major tics for a known interval satisfy their invariants. */
  lemma MajorGridOk(xmin: real, xmax: real, d: real)
    requires 0.0 < d
    ensures MajorOk(xmin, xmax, MajorGrid(xmin, xmax, d))
  {
    FirstTicIsLeastMultiple(xmin, d);
  }

  /** The minor tics derived from valid major tics satisfy their invariants. */
  lemma MinorGridOk(xmin: real, xmax: real, major: Grid, m: int)
    requires MajorOk(xmin, xmax, major) && m in {1, 2, 5, 10}
    ensures MinorOk(xmin, xmax, major, m, MinorGrid(xmin, xmax, major, m))
  {
    FirstMinorTicBounds(xmin, major.first, major.delta / m as real);
  }

  /** One more step of the walk back stays within the number of whole minor
      steps between xmin and ftic. */
  lemma WalkBackStep(xmin: real, ftic: real, dm: real, k: int)
    requires 0.0 < dm && 0 <= k && xmin <= (ftic - k as real * dm) - dm
    ensures k + 1 <= ((ftic - xmin) / dm).Floor
  {
    MulDivOrder(k as real + 1.0, ftic - xmin, dm);
  }

  /** Where the walk back stops is the closed-form first minor tic. */
  lemma WalkBackStop(xmin: real, ftic: real, dm: real, k: int)
    requires 0.0 < dm && 0 <= k && (0 < k ==> k <= ((ftic - xmin) / dm).Floor)
    requires (ftic - k as real * dm) - dm < xmin
    ensures ftic - k as real * dm == FirstMinorTic(xmin, ftic, dm)
  {
    var q := (ftic - xmin) / dm;
    MulDivOrder(k as real + 1.0, ftic - xmin, dm);
    assert q < k as real + 1.0;
    if xmin <= ftic {
      assert 0.0 <= q;
      assert k as real <= q;
      assert q.Floor == k;
    } else {
      assert k == 0;
    }
  }

  /** Interval mode satisfies every AxisTics invariant. */
  lemma IntervalTicsWellFormed(x1: real, x2: real, dtic: real)
    requires dtic != 0.0
    ensures WellFormed(IntervalTics(x1, x2, dtic))
  {
    var p := IntervalTics(x1, x2, dtic);
    MajorGridOk(p.xmin, p.xmax, p.major.delta);
    MultipleClassifies(p.major.delta);
    MinorGridOk(p.xmin, p.xmax, p.major, p.multiple);
  }

  /** Each candidate has at least one tic: its first tic is below xmin + d. */
  lemma CandidateCountPositive(xmin: real, xmax: real, nmax: int, i: int)
    requires xmin < xmax && 1 <= nmax && 0 <= i < 4
    ensures 1 <= Candidates(xmin, xmax, nmax)[i].count
  {
    var g := Candidates(xmin, xmax, nmax)[i];
    FirstTicIsLeastMultiple(xmin, g.delta);
    TicCountBounds(g.first, xmax, g.delta);
  }

  /** Candidate i has the major tics of the interval for Multiples[i]. */
  lemma CandidateIsMultiple(xmin: real, xmax: real, nmax: int, i: int)
    requires xmin < xmax && 1 <= nmax && 0 <= i < 4
    ensures Candidates(xmin, xmax, nmax)[i] == MajorGrid(xmin, xmax, CandidateInterval(xmin, xmax, nmax, Multiples[i]))
  {
  }

  /** Count mode keeps the best candidate: the kept count is at most the
      clamped maximum, no candidate within the maximum has more tics, ties go
      to the multiple tried first, the interval is the candidate's
      m * 10^l, and the stored multiple is 2, 5 or 10 (1 becomes 10). */
  lemma CountTicsChoice(x1: real, x2: real, ntic: int)
    requires CountModeAdmissible(x1, x2, ntic)
    ensures 1 <= CountTics(x1, x2, ntic).major.count <= ClampCount(ntic)
    ensures exists i ::
      (IsBest(Candidates(Min(x1, x2), Max(x1, x2), ClampCount(ntic)), ClampCount(ntic), i) &&
       CountTics(x1, x2, ntic).major == Candidates(Min(x1, x2), Max(x1, x2), ClampCount(ntic))[i] &&
       CountTics(x1, x2, ntic).major.delta == CandidateInterval(Min(x1, x2), Max(x1, x2), ClampCount(ntic), Multiples[i]) &&
       CountTics(x1, x2, ntic).multiple == (if Multiples[i] == 1 then 10 else Multiples[i]))
    ensures CountTics(x1, x2, ntic).multiple in {2, 5, 10}
  {
    var xmin, xmax, nmax := Min(x1, x2), Max(x1, x2), ClampCount(ntic);
    var cs := Candidates(xmin, xmax, nmax);
    var i := BestIndex(cs, nmax);
    assert 0 <= i;
    CandidateIsMultiple(xmin, xmax, nmax, i);
  }

  /** Count mode satisfies every AxisTics invariant. */
  lemma CountTicsWellFormed(x1: real, x2: real, ntic: int)
    requires CountModeAdmissible(x1, x2, ntic)
    ensures WellFormed(CountTics(x1, x2, ntic))
  {
    var p := CountTics(x1, x2, ntic);
    var nmax := ClampCount(ntic);
    var cs := Candidates(p.xmin, p.xmax, nmax);
    var i := BestIndex(cs, nmax);
    assert 0 <= i;
    CandidateIsMultiple(p.xmin, p.xmax, nmax, i);
    MajorGridOk(p.xmin, p.xmax, CandidateInterval(p.xmin, p.xmax, nmax, Multiples[i]));
    assert p.multiple in {2, 5, 10};
    MinorGridOk(p.xmin, p.xmax, p.major, p.multiple);
  }

  /** Tic i of the grid with interval m * dm through f is tic i * m - k of
      the grid with interval dm that starts k steps of dm away from f. */
  lemma CoarseTicOnFineGrid(f: real, dm: real, m: int, k: int, i: int)
    ensures TicValue(TicValue(f, dm, k), dm, i * m - k) == TicValue(f, m as real * dm, i)
  {
    assert (i * m - k) as real * dm == i as real * (m as real * dm) - k as real * dm;
  }

  /** A tic at or below xmax is among those TicCount counts. */
  lemma CountedIfWithin(first: real, xmax: real, d: real, j: int)
    requires 0.0 < d && 0 <= j && TicValue(first, d, j) <= xmax
    ensures j < TicCount(first, xmax, d)
  {
    MulDivOrder(j as real, xmax - first, d);
  }

  /** Major tics are a subset of minor tics: every major tic within the axis
      is a minor tic within the axis. */
  lemma MajorTicsAreMinorTics(p: TicParams, i: int)
    requires WellFormed(p) && p.major.first <= p.xmax
    requires 0 <= i < p.major.count
    ensures exists j ::
      (0 <= j < p.minor.count &&
       TicValue(p.minor.first, p.minor.delta, j) == TicValue(p.major.first, p.major.delta, i))
  {
    var k: int :| k <= 0 && p.minor.first == TicValue(p.major.first, p.minor.delta, k);
    var m := p.multiple;
    var j := i * m - k;
    DivIff(p.major.delta, m as real, p.minor.delta);
    CoarseTicOnFineGrid(p.major.first, p.minor.delta, m, k, i);
    TicsWithinRange(p.major.first, p.xmax, p.major.delta, i);
    assert 0 <= j;
    CountedIfWithin(p.minor.first, p.xmax, p.minor.delta, j);
  }

  /** Interval mode depends on the ends only through their min and max, and
      on the interval only through its absolute value. */
  lemma IntervalTicsSymmetric(x1: real, x2: real, dtic: real)
    requires dtic != 0.0
    ensures IntervalTics(x2, x1, dtic) == IntervalTics(x1, x2, dtic)
    ensures IntervalTics(x1, x2, -dtic) == IntervalTics(x1, x2, dtic)
    ensures 0.0 < IntervalTics(x1, x2, dtic).major.delta
  {
  }

  /** Count mode depends on the ends only through their min and max. */
  lemma CountTicsSymmetric(x1: real, x2: real, ntic: int)
    requires CountModeAdmissible(x1, x2, ntic)
    ensures CountModeAdmissible(x2, x1, ntic)
    ensures CountTics(x2, x1, ntic) == CountTics(x1, x2, ntic)
  {
    assert Min(x2, x1) == Min(x1, x2) && Max(x2, x1) == Max(x1, x2);
  }

  // ---------------------------------------------------------------------
  // The object

  class AxisTics {
    var xmin: real
    var xmax: real
    var mtic: int
    var ntic: int
    var dtic: real
    var ftic: real
    var nticMinor: int
    var dticMinor: real
    var fticMinor: real

    /** The fields as one value. */
    ghost function Params(): TicParams
      reads this
    {
      TicParams(xmin, xmax, Grid(ntic, dtic, ftic), mtic, Grid(nticMinor, dticMinor, fticMinor))
    }

    ghost predicate Valid()
      reads this
    {
      WellFormed(Params())
    }

    /** Axis tics for a given major tic interval; its sign is ignored. */
    constructor ByInterval(x1: real, x2: real, interval: real)
      requires interval != 0.0
      ensures Valid()
      ensures Params() == IntervalTics(x1, x2, interval)
    {
      var xmin := Min(x1, x2);
      var xmax := Max(x1, x2);
      var d := Abs(interval);
      var f := PlaceFirstTic(xmin, d);
      var n := 1 + Trunc((xmax - f) / d);
      this.xmin := xmin;
      this.xmax := xmax;
      ntic := n;
      dtic := d;
      ftic := f;
      new;
      ComputeMultiple();
      ComputeMinorTics();
      IntervalTicsWellFormed(x1, x2, interval);
    }

    /** Axis tics for a given maximum number of major tics. */
    constructor ByCount(x1: real, x2: real, maxCount: int)
      requires CountModeAdmissible(x1, x2, maxCount)
      ensures Valid()
      ensures Params() == CountTics(x1, x2, maxCount)
    {
      var xmin := Min(x1, x2);
      var xmax := Max(x1, x2);
      var nmax := if maxCount <= 0 then 1 else maxCount;
      ghost var cs := Candidates(xmin, xmax, nmax);
      var nbest := 0;
      var mbest := 0;
      var dbest := 0.0;
      var fbest := 0.0;
      ghost var ibest := -1;
      for imult := 0 to |Multiples|
        invariant ibest == BestIndex(cs[..imult], nmax)
        invariant ibest < 0 ==> nbest == 0
        invariant 0 <= ibest ==>
          (nbest == cs[ibest].count && mbest == Multiples[ibest] &&
           dbest == cs[ibest].delta && fbest == cs[ibest].first)
      {
        var m := Multiples[imult];
        var n, d, f := TryMultiple(xmin, xmax, nmax, m);
        CandidateIsMultiple(xmin, xmax, nmax, imult);
        BestIndexStep(cs, nmax, imult);
        if nbest < n && n <= nmax {
          nbest := n;
          mbest := m;
          dbest := d;
          fbest := f;
          ibest := imult;
        }
      }
      assert cs[..|Multiples|] == cs;
      if mbest == 1 {
        mbest := 10;
      }
      this.xmin := xmin;
      this.xmax := xmax;
      mtic := mbest;
      ntic := nbest;
      dtic := dbest;
      ftic := fbest;
      new;
      ComputeMinorTics();
      CountTicsWellFormed(x1, x2, maxCount);
    }

    /** The number of major tics; at least one, and when the first major tic
        is within the axis the last one is too and the next one is not. */
    function CountMajor(): (n: int)
      reads this
      requires Valid()
      ensures 1 <= n
      ensures ftic <= xmax ==> TicValue(ftic, dtic, n - 1) <= xmax < TicValue(ftic, dtic, n)
    {
      TicCountBounds(ftic, xmax, dtic);
      ntic
    }

    /** The major tic interval: positive, and the multiple times the minor one. */
    function DeltaMajor(): (d: real)
      reads this
      requires Valid()
      ensures 0.0 < d
      ensures d == mtic as real * dticMinor
    {
      dtic
    }

    /** The first major tic: the smallest multiple of the major interval
        that is not less than the axis minimum. */
    function FirstMajor(): (f: real)
      reads this
      requires Valid()
      ensures IsMultipleOf(f, dtic)
      ensures xmin <= f < xmin + dtic
    {
      ftic
    }

    /** The number of minor tics; at least one, the last within the axis. */
    function CountMinor(): (n: int)
      reads this
      requires Valid()
      ensures 1 <= n
      ensures fticMinor <= xmax ==> TicValue(fticMinor, dticMinor, n - 1) <= xmax < TicValue(fticMinor, dticMinor, n)
    {
      TicCountBounds(fticMinor, xmax, dticMinor);
      nticMinor
    }

    /** The minor tic interval: the major interval divided by the multiple. */
    function DeltaMinor(): (d: real)
      reads this
      requires Valid()
      ensures 0.0 < d
      ensures d * mtic as real == dtic
    {
      dticMinor
    }

    /** The first minor tic: on the minor grid through the first major tic,
        not above it, at or above the axis minimum, and one minor step lower
        would be below the minimum. */
    function FirstMinor(): (f: real)
      reads this
      requires Valid()
      ensures exists k: int :: k <= 0 && f == TicValue(ftic, dticMinor, k)
      ensures xmin <= f <= ftic
      ensures f - dticMinor < xmin
    {
      fticMinor
    }

    /** The tic multiple: the number of minor intervals per major interval. */
    function Multiple(): (m: int)
      reads this
      requires Valid()
      ensures m in {1, 2, 5, 10}
      ensures dticMinor * m as real == dtic
    {
      mtic
    }

    /** The major tics that the interval m * 10^l gives, where
        l = (int)(log10((xmax - xmin) / (m * nmax))). */
    static method TryMultiple(xmin: real, xmax: real, nmax: int, m: int) returns (n: int, d: real, f: real)
      requires xmin < xmax && 1 <= nmax && 1 <= m
      ensures Grid(n, d, f) == MajorGrid(xmin, xmax, CandidateInterval(xmin, xmax, nmax, m))
    {
      ghost var target := CandidateInterval(xmin, xmax, nmax, m);
      assert 1 <= m * nmax by {
        assert 1 * nmax <= m * nmax;
      }
      var ratio := (xmax - xmin) / (m * nmax) as real;
      var l := TruncLog10(ratio);
      d := m as real * Pow10(l);
      assert d == target;
      f := PlaceFirstTic(xmin, d);
      n := 1 + Trunc((xmax - f) / d);
    }

    /** The first tic: starting from the multiple of d just below
        trunc(xmin / d) * d, step up by d until xmin is reached. */
    static method PlaceFirstTic(xmin: real, d: real) returns (f: real)
      requires 0.0 < d
      ensures f == FirstTic(xmin, d)
    {
      ghost var k := Trunc(xmin / d) - 1;
      f := (Trunc(xmin / d) - 1) as real * d;
      InitialGuessBelow(xmin, d);
      while f < xmin
        invariant f == k as real * d
        invariant k <= Ceil(xmin / d)
        decreases Ceil(xmin / d) - k
      {
        MulDivOrder(k as real, xmin, d);
        f := f + d;
        k := k + 1;
      }
      MulDivOrder(k as real, xmin, d);
    }

    /** Sets the multiple from the major interval (interval mode only). */
    method ComputeMultiple()
      requires 0.0 < dtic
      modifies this`mtic
      ensures mtic == ClassifyMultiple(dtic)
    {
      mtic := 1;
      if IsPowerOfTen(dtic / 10.0) {
        mtic := 10;
      } else if IsPowerOfTen(dtic / 5.0) {
        mtic := 5;
      } else if IsPowerOfTen(dtic / 2.0) {
        mtic := 2;
      }
    }

    /** Sets the minor tics: the interval is the major one over the multiple,
        and the first minor tic is found by walking back from the first major
        tic. */
    method ComputeMinorTics()
      requires 0.0 < dtic && 1 <= mtic
      modifies this`nticMinor, this`dticMinor, this`fticMinor
      ensures Grid(nticMinor, dticMinor, fticMinor) == MinorGrid(xmin, xmax, Grid(ntic, dtic, ftic), mtic)
    {
      var dm := dtic / mtic as real;
      var fm := WalkBack(xmin, ftic, dm);
      var nm := 1 + Trunc((xmax - fm) / dm);
      nticMinor := nm;
      dticMinor := dm;
      fticMinor := fm;
    }

    /** The walk back from the major tic ftic, one minor step dm at a time,
        while one more step does not pass below xmin. */
    static method WalkBack(xmin: real, ftic: real, dm: real) returns (fm: real)
      requires 0.0 < dm
      ensures fm == FirstMinorTic(xmin, ftic, dm)
    {
      fm := ftic;
      ghost var k := 0;
      while xmin <= fm - dm
        invariant fm == ftic - k as real * dm
        invariant 0 <= k && (0 < k ==> k <= ((ftic - xmin) / dm).Floor)
        decreases ((ftic - xmin) / dm).Floor - k
      {
        WalkBackStep(xmin, ftic, dm, k);
        fm := fm - dm;
        k := k + 1;
      }
      WalkBackStop(xmin, ftic, dm, k);
    }
  }
}
