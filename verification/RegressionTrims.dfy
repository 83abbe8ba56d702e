/** The two trims on families of residuals of every length. */
module RegressionTrims {
  import opened Wrappers
  import opened Reals
  import opened StableSort
  import opened LineFit
  import opened Residuals
  import opened Regression

  // ----- mixed signs -----

  /** A residual is on the other side of nothing than the one before it. */
  predicate Crosses(res: seq<real>, i: int)
    requires 0 < i < |res|
  {
    res[i] > 0.0 <==> !(res[i - 1] > 0.0)
  }

  function Crossings(res: seq<real>): set<int> {
    set i | 0 < i < |res| && Crosses(res, i)
  }

  lemma {:induction false} RunsAreCrossings(res: seq<real>)
    requires res != []
    ensures Runs(res) == 1 + |Crossings(res)|
  {
    var n := |res| - 1;
    if n == 0 {
      assert res[..0] == [] && Crossings(res) == {};
    } else {
      RunsAreCrossings(res[..n]);
      assert forall i | 0 < i < n :: Crosses(res[..n], i) == Crosses(res, i);
      assert Crossings(res) == Crossings(res[..n]) + (if Crosses(res, n) then {n} else {});
    }
  }

  /** However large they are, residuals that cross nothing often enough cost no history. */
  lemma MixedLosesNothing(rows: seq<Row>, f: Fit, k: nat)
    requires 3 * (1 + |Crossings(ResidualsOf(rows, f))|) >= |rows|
    ensures HistoryTrimmed(rows, f, k) == (rows, f)
  {
    hide HalfGap, Median, Runs, Crossings;
    if rows != [] {
      RunsAreCrossings(ResidualsOf(rows, f));
    }
    HistoryStays(rows, f, k);
  }

  // ----- a step -----

  /** `m` residuals at one level, older than all the others, which are at another. */
  ghost predicate Stepped(res: seq<real>, m: nat, u: real, v: real) {
    m <= |res| && forall i | 0 <= i < |res| :: res[i] == if i < m then u else v
  }

  lemma {:induction false} LevelTotal(xs: seq<real>, v: real)
    requires forall i | 0 <= i < |xs| :: xs[i] == v
    ensures Total(xs) == |xs| as real * v
  {
    if xs != [] {
      LevelTotal(xs[..|xs| - 1], v);
      var n := |xs| as real;
      assert n * v == (n - 1.0) * v + v;
    }
  }

  lemma {:induction false} StepTotal(xs: seq<real>, m: nat, u: real, v: real)
    requires Stepped(xs, m, u, v)
    ensures Total(xs) == m as real * u + (|xs| - m) as real * v
    decreases |xs|
  {
    if m == |xs| {
      LevelTotal(xs, u);
      assert 0.0 * v == 0.0;
    } else {
      var n := |xs| - 1;
      StepTotal(xs[..n], m, u, v);
      var k := (|xs| - m) as real;
      assert k * v == (k - 1.0) * v + v;
    }
  }

  lemma MeanIs(xs: seq<real>)
    requires xs != []
    ensures Mean(xs) * |xs| as real == Total(xs)
  {
  }

  lemma SameFactor(a: real, b: real, c: real)
    requires a * c == b * c && c > 0.0
    ensures a == b
  {
    assert (a - b) * c == 0.0;
  }

  lemma LevelMean(xs: seq<real>, v: real)
    requires xs != [] && forall i | 0 <= i < |xs| :: xs[i] == v
    ensures Mean(xs) == v
  {
    hide Mean, Total;
    LevelTotal(xs, v);
    MeanIs(xs);
    var n := |xs| as real;
    assert n * v == v * n;
    SameFactor(Mean(xs), v, n);
  }

  lemma SameSign(a: real, h: real)
    requires h > 0.0
    ensures a >= 0.0 <==> a * h >= 0.0
  {
    if a < 0.0 {
      assert (-a) * h > 0.0;
    }
  }

  lemma GapOf(elder: real, v: real, h: real, m: real, u: real)
    requires elder * h == m * u + (h - m) * v && h > 0.0 && m > 0.0
    ensures Abs(elder - v) * h == m * Abs(u - v)
  {
    var gap, step := elder - v, u - v;
    assert gap * h == step * m;
    SameSign(gap, h);
    SameSign(step, m);
    assert gap >= 0.0 <==> step >= 0.0;
    assert (-gap) * h == m * (-step);
  }

  /** The halves differ by the part of the step that the older half has. */
  lemma StepGap(res: seq<real>, m: nat, u: real, v: real)
    requires Stepped(res, m, u, v) && 0 < m <= |res| / 2
    ensures HalfGap(res) * (|res| / 2) as real == m as real * Abs(u - v)
  {
    hide Mean, Total, Abs;
    var h := |res| / 2;
    assert Stepped(res[..h], m, u, v);
    StepTotal(res[..h], m, u, v);
    LevelMean(res[h..], v);
    MeanIs(res[..h]);
    GapOf(Mean(res[..h]), v, h as real, m as real, u);
  }

  /** The median, by what is below it and what is not above it. */
  lemma NthIs(mags: seq<real>, x: real)
    requires mags != [] && CountBelow(mags, Scaled(x)) < |mags| / 2 + 1
    requires forall bound: real | bound > Scaled(x) :: CountBelow(mags, bound) >= |mags| / 2 + 1
    ensures Nth(mags, |mags| / 2) == x
  {
    var med := Nth(mags, |mags| / 2);
    CountingFindsMedian(mags, Scaled(x));
    CountingFindsMedian(mags, Scaled(med));
  }

  lemma StepCount(mags: seq<real>, m: nat, a: real, b: real, bound: real)
    requires Stepped(mags, m, a, b)
    ensures CountBelow(mags, bound)
            == (if Scaled(a) < bound then m else 0) + (if Scaled(b) < bound then |mags| - m else 0)
  {
    assert mags == mags[..m] + mags[m..];
    CountParts(mags[..m], mags[m..], bound);
    CountAll(mags[..m], bound, Scaled(a) < bound);
    CountAll(mags[m..], bound, Scaled(b) < bound);
  }

  /** The median magnitude after a step in the older half. */
  function StepMedian(n: nat, m: nat, u: real, v: real): real {
    if 2 * m == n && Abs(u) > Abs(v) then Abs(u) else Abs(v)
  }

  lemma StepMedianIs(res: seq<real>, m: nat, u: real, v: real)
    requires Stepped(res, m, u, v) && 0 < m <= |res| / 2
    ensures Median(res) == StepMedian(|res|, m, u, v)
  {
    var n, a, b, x := |res|, Abs(u), Abs(v), StepMedian(|res|, m, u, v);
    var mags := Magnitudes(res);
    assert Stepped(mags, m, a, b);
    StepCount(mags, m, a, b, Scaled(x));
    forall bound: real | bound > Scaled(x)
      ensures CountBelow(mags, bound) >= n / 2 + 1
    {
      StepCount(mags, m, a, b, bound);
    }
    NthIs(mags, x);
  }

  lemma {:induction false} StepRuns(res: seq<real>, m: nat, u: real, v: real)
    requires Stepped(res, m, u, v)
    ensures Runs(res) <= if m == |res| then 1 else 2
    decreases |res|
  {
    if res != [] {
      var n := |res| - 1;
      if m == |res| {
        assert Stepped(res[..n], n, u, v);
        StepRuns(res[..n], n, u, v);
      } else {
        assert Stepped(res[..n], m, u, v);
        StepRuns(res[..n], m, u, v);
      }
    }
  }

  /** The step is large enough against the median for two regimes to show. */
  predicate Shows(n: nat, m: nat, u: real, v: real) {
    m as real * Abs(u - v) > 3.0 * Max(1.4826 * StepMedian(n, m, u, v), 0.000000001) * (n / 2) as real
  }

  lemma Compares(a: real, b: real, c: real)
    requires c > 0.0
    ensures a > b <==> a * c > b * c
  {
    assert (a - b) * c == a * c - b * c;
    if a > b {
      assert (a - b) * c > 0.0;
    } else {
      assert (b - a) * c >= 0.0;
    }
  }

  lemma ShowsMeans(n: nat, m: nat, u: real, v: real, gap: real)
    requires n >= 2 && gap * (n / 2) as real == m as real * Abs(u - v)
    ensures Shows(n, m, u, v) <==> gap > 3.0 * Max(1.4826 * StepMedian(n, m, u, v), 0.000000001)
  {
    hide StepMedian, Abs;
    Compares(gap, 3.0 * Max(1.4826 * StepMedian(n, m, u, v), 0.000000001), (n / 2) as real);
  }

  lemma StepShows(res: seq<real>, m: nat, u: real, v: real)
    requires Stepped(res, m, u, v) && 0 < m <= |res| / 2 && |res| >= 8
    ensures RegimeChange(res) <==> Shows(|res|, m, u, v)
  {
    hide HalfGap, Median, Runs, Stepped, Shows, StepMedian, Abs;
    StepRuns(res, m, u, v);
    StepGap(res, m, u, v);
    StepMedianIs(res, m, u, v);
    ShowsMeans(|res|, m, u, v, HalfGap(res));
    assert !WellMixed(res);
  }

  /**
   Where the oldest residuals, half of the window or fewer, are at one level and the others
   at another, the oldest quarter goes if and only if the step shows.
   */
  lemma StepLosesQuarter(rows: seq<Row>, f: Fit, k: nat, m: nat, u: real, v: real)
    requires k > 0 && |rows| >= 8 && LeastSquares(rows[Quarter(|rows|)..]).Some?
    requires Stepped(ResidualsOf(rows, f), m, u, v) && 0 < m <= |rows| / 2
    ensures var rest := rows[Quarter(|rows|)..];
            HistoryTrimmed(rows, f, k)
            == if Shows(|rows|, m, u, v) then HistoryTrimmed(rest, LeastSquares(rest).value, k - 1) else (rows, f)
    ensures |rows| / 4 >= 2 && Quarter(|rows|) == |rows| / 4
  {
    hide RegimeChange, Shows, LeastSquares;
    StepShows(ResidualsOf(rows, f), m, u, v);
    if Shows(|rows|, m, u, v) {
      HistoryStep(rows, f, k);
    } else {
      HistoryStays(rows, f, k);
    }
  }

  lemma ScaledProduct(a: real, b: real, c: real)
    requires a <= b && c >= 0.0
    ensures a * c <= b * c
  {
    assert (b - a) * c >= 0.0;
  }

  /**
   A step in the very middle never shows in an even window, however large it is: the
   median magnitude is then that of the larger level. Anything earlier shows where it is
   large enough, and where the later residuals are nothing it shows at once.
   */
  lemma MiddleStepNeverShows(n: nat, u: real, v: real)
    requires n % 2 == 0 && n >= 2
    ensures !Shows(n, n / 2, u, v)
  {
    var larger := Max(Abs(u), Abs(v));
    assert StepMedian(n, n / 2, u, v) == larger;
    ScaledProduct(Abs(u - v), 3.0 * Max(1.4826 * larger, 0.000000001), (n / 2) as real);
  }

  lemma EarlierStepShows(n: nat, m: nat, u: real)
    requires 0 < m && 2 * m < n
    ensures Shows(n, m, u, 0.0) <==> m as real * Abs(u) > 0.000000003 * (n / 2) as real
  {
  }

  // ----- a spike -----

  /** One residual of magnitude `a` at `i` among others of magnitude `b`. */
  ghost predicate Spiked(res: seq<real>, i: nat, a: real, b: real) {
    i < |res| && forall j | 0 <= j < |res| :: Abs(res[j]) == if j == i then a else b
  }

  lemma SpikeCount(mags: seq<real>, i: nat, a: real, b: real, bound: real)
    requires i < |mags| && forall j | 0 <= j < |mags| :: mags[j] == if j == i then a else b
    ensures CountBelow(mags, bound)
            == (if Scaled(a) < bound then 1 else 0) + (if Scaled(b) < bound then |mags| - 1 else 0)
  {
    CountLessOne(mags, i, bound);
    CountAll(mags[..i] + mags[i + 1..], bound, Scaled(b) < bound);
  }

  lemma SpikeMedian(mags: seq<real>, i: nat, a: real, b: real)
    requires |mags| >= 4 && i < |mags| && forall j | 0 <= j < |mags| :: mags[j] == if j == i then a else b
    ensures Nth(mags, |mags| / 2) == b
  {
    SpikeCount(mags, i, a, b, Scaled(b));
    forall bound: real | bound > Scaled(b)
      ensures CountBelow(mags, bound) >= |mags| / 2 + 1
    {
      SpikeCount(mags, i, a, b, bound);
    }
    NthIs(mags, b);
  }

  lemma {:induction false} WorstIs(mags: seq<real>, i: nat, a: real, b: real, m: nat)
    requires m <= |mags| && 0.0 <= b < a && forall j | 0 <= j < |mags| :: mags[j] == if j == i then a else b
    ensures Worst(mags, m) == if i < m then a else if m > 0 then b else 0.0
  {
    if m > 0 {
      WorstIs(mags, i, a, b, m - 1);
    }
  }

  /** The first `m` rows but the `i`th. */
  function But(rows: seq<Row>, i: nat, m: nat): seq<Row>
    requires m <= |rows|
  {
    if i < m then rows[..i] + rows[i + 1..m] else rows[..m]
  }

  lemma ButOneMore(rows: seq<Row>, i: nat, m: nat)
    requires m < |rows|
    ensures But(rows, i, m + 1) == But(rows, i, m) + (if m != i then [rows[m]] else [])
  {
    if i < m {
      assert rows[i + 1..m + 1] == rows[i + 1..m] + [rows[m]];
    } else if i > m {
      assert rows[..m + 1] == rows[..m] + [rows[m]];
    } else {
      assert rows[..m] + rows[m + 1..m + 1] == rows[..m];
    }
  }

  lemma {:induction false} KeptBut(rows: seq<Row>, mags: seq<real>, threshold: real, i: nat, m: nat)
    requires m <= |rows| == |mags| && forall j | 0 <= j < |mags| :: Keeps(mags, threshold, j) <==> j != i
    ensures Kept(rows, mags, threshold, m) == But(rows, i, m)
  {
    hide But, Keeps;
    if m > 0 {
      KeptBut(rows, mags, threshold, i, m - 1);
      ButOneMore(rows, i, m - 1);
    } else {
      ButNone(rows, i);
    }
  }

  lemma ButNone(rows: seq<Row>, i: nat)
    ensures But(rows, i, 0) == []
  {
  }

  /**
   A single larger residual before the newest three is dropped, and nothing with it, if
   and only if it exceeds 4.4478 times the others and a nanosecond.
   */
  lemma SpikeIsDropped(rows: seq<Row>, f: Fit, i: nat, a: real, b: real)
    requires |rows| > 4 && i < |rows| - 3 && 0.0 <= b < a && Spiked(ResidualsOf(rows, f), i, a, b)
    requires LeastSquares(rows[..i] + rows[i + 1..]).Some?
    ensures SpikesTrimmed(rows, f).0
            == if a > 4.4478 * b && a > 0.000000001 then rows[..i] + rows[i + 1..] else rows
  {
    hide LeastSquares, Nth, Worst, Kept;
    var mags := Magnitudes(ResidualsOf(rows, f));
    SpikeMedian(mags, i, a, b);
    WorstIs(mags, i, a, b, Droppable(|mags|));
    var bound := Max(Scaled(b), 0.000000001);
    if a > bound {
      assert SpikeThreshold(mags) == Some(bound);
      assert forall j | 0 <= j < |mags| :: Keeps(mags, bound, j) <==> j != i;
      KeptBut(rows, mags, bound, i, |rows|);
      assert rows[..i] + rows[i + 1..|rows|] == rows[..i] + rows[i + 1..];
    }
  }
}
