/** Worked cases of both construction modes, computed exactly. */
module Scenarios {
  import opened Numerics
  import opened Tics

  /** Interval 0.25 on [0, 1]: none of 0.025, 0.05 and 0.125 is a power of
      ten, so the multiple is 1 and the minor tics are the major ones. */
  lemma UnitRangeQuarterInterval()
    ensures IntervalTics(0.0, 1.0, 0.25) == TicParams(0.0, 1.0, Grid(5, 0.25, 0.0), 1, Grid(5, 0.25, 0.0))
  {
    BetweenPowersNotPower(0.025, -2);
    BetweenPowersNotPower(0.05, -2);
    BetweenPowersNotPower(0.125, -1);
    assert ClassifyMultiple(0.25) == 1;
  }

  /** Interval 2 between 5 and -3: tics -2, 0, 2, 4; the multiple is 2 and
      the first minor tic walks back to -3. */
  lemma SwappedEndsEvenInterval()
    ensures IntervalTics(5.0, -3.0, 2.0) == TicParams(-3.0, 5.0, Grid(4, 2.0, -2.0), 2, Grid(9, 1.0, -3.0))
  {
    BetweenPowersNotPower(0.2, -1);
    BetweenPowersNotPower(0.4, -1);
    TruncLog10OfPower(0);
    assert ClassifyMultiple(2.0) == 2;
  }

  lemma UnitRangeFourTicsIntervals()
    ensures CandidateInterval(0.0, 1.0, 4, 1) == 1.0
    ensures CandidateInterval(0.0, 1.0, 4, 2) == 2.0
    ensures CandidateInterval(0.0, 1.0, 4, 5) == 0.5
    ensures CandidateInterval(0.0, 1.0, 4, 10) == 1.0
  {
    TruncLog10Unique(0.25, 0);
    TruncLog10Unique(0.125, 0);
    TruncLog10Unique(0.05, -1);
    TruncLog10Unique(0.025, -1);
  }

  lemma UnitRangeFourTicsCandidates()
    ensures Candidates(0.0, 1.0, 4) == [Grid(2, 1.0, 0.0), Grid(1, 2.0, 0.0), Grid(3, 0.5, 0.0), Grid(2, 1.0, 0.0)]
  {
    UnitRangeFourTicsIntervals();
    assert MajorGrid(0.0, 1.0, 1.0) == Grid(2, 1.0, 0.0);
    assert MajorGrid(0.0, 1.0, 2.0) == Grid(1, 2.0, 0.0);
    assert MajorGrid(0.0, 1.0, 0.5) == Grid(3, 0.5, 0.0);
  }

  /** At most 4 tics on [0, 1]: the candidates give 2, 1, 3 and 2 tics, so
      multiple 5 wins with interval 0.5, and the minor interval is 0.1. */
  lemma UnitRangeFourTics()
    ensures CountModeAdmissible(0.0, 1.0, 4)
    ensures CountTics(0.0, 1.0, 4) == TicParams(0.0, 1.0, Grid(3, 0.5, 0.0), 5, Grid(11, 0.1, 0.0))
  {
    UnitRangeFourTicsCandidates();
    var cs := Candidates(0.0, 1.0, 4);
    assert Min(0.0, 1.0) == 0.0 && Max(0.0, 1.0) == 1.0 && ClampCount(4) == 4;
    assert Fits(Candidates(Min(0.0, 1.0), Max(0.0, 1.0), ClampCount(4))[2], ClampCount(4));
    assert BestIndex(cs, 4) == 2;
    assert MinorGrid(0.0, 1.0, Grid(3, 0.5, 0.0), 5) == Grid(11, 0.1, 0.0);
  }

  lemma WideRangeOneTicIntervals()
    ensures CandidateInterval(0.0, 10.0, 1, 1) == 10.0
    ensures CandidateInterval(0.0, 10.0, 1, 2) == 2.0
    ensures CandidateInterval(0.0, 10.0, 1, 5) == 5.0
    ensures CandidateInterval(0.0, 10.0, 1, 10) == 10.0
  {
    TruncLog10Unique(10.0, 1);
    TruncLog10Unique(5.0, 0);
    TruncLog10Unique(2.0, 0);
    TruncLog10Unique(1.0, 0);
  }

  /** At most 1 tic on [0, 10]: the candidates give 2, 6, 3 and 2 tics, so
      none is kept and count mode has nothing to store. */
  lemma WideRangeOneTicHasNoCandidate()
    ensures !CountModeAdmissible(0.0, 10.0, 1)
  {
    WideRangeOneTicIntervals();
    assert MajorGrid(0.0, 10.0, 10.0) == Grid(2, 10.0, 0.0);
    assert MajorGrid(0.0, 10.0, 2.0) == Grid(6, 2.0, 0.0);
    assert MajorGrid(0.0, 10.0, 5.0) == Grid(3, 5.0, 0.0);
    assert Candidates(0.0, 10.0, 1) == [Grid(2, 10.0, 0.0), Grid(6, 2.0, 0.0), Grid(3, 5.0, 0.0), Grid(2, 10.0, 0.0)];
  }

  /** Ends 0.2 and 0.4 with interval 1: the first tic 1 is beyond the axis,
      yet the truncating cast counts one major tic. */
  lemma TicBeyondAxisStillCounted()
    ensures IntervalTics(0.2, 0.4, 1.0).major == Grid(1, 1.0, 1.0)
  {
  }

  /** Both ends 0.5 with interval 1: the only major tic is 1, beyond the
      axis, and the minor tics walk back from it to the single minor tic 0.5,
      so here the major tic is not among the minor tics. */
  lemma MajorTicOutsideMinorTics()
    ensures IntervalTics(0.5, 0.5, 1.0) == TicParams(0.5, 0.5, Grid(1, 1.0, 1.0), 10, Grid(1, 0.1, 0.5))
  {
    TruncLog10OfPower(-1);
    assert Pow10(-1) == 0.1;
    assert ClassifyMultiple(1.0) == 10;
    assert FirstMinorTic(0.5, 1.0, 0.1) == 0.5;
  }
}
