/**
 The regression on samples that lie on one line, and on samples too crowded in time for
 a slope.
 */
module RegressionExact {
  import opened Wrappers
  import opened Reals
  import opened StableSort
  import opened LineFit
  import opened Residuals
  import opened Regression
  import opened RegressionRows
  import opened RegressionSlew

  ghost predicate OnLine(rows: seq<Row>, p: real, q: real) {
    forall i | 0 <= i < |rows| :: rows[i].offset == p + q * rows[i].t
  }

  /** The same samples with nothing left to correct. */
  function Level(rows: seq<Row>): (s: seq<Row>)
    ensures |s| == |rows| && forall i | 0 <= i < |rows| :: s[i] == rows[i].(offset := 0.0)
  {
    seq(|rows|, i requires 0 <= i < |rows| => rows[i].(offset := 0.0))
  }

  /** The correction that turns no offset into the line `p + q * t`. */
  function Tilt(p: real, q: real): Correction {
    Correction(0.0, -q, -p)
  }

  lemma TiltAt(p: real, q: real, t: real)
    ensures Gained(t, Tilt(p, q)) == -(p + q * t)
  {
  }

  lemma LineIsTilted(rows: seq<Row>, p: real, q: real)
    requires OnLine(rows, p, q)
    ensures Moved(Level(rows), Tilt(p, q)) == rows
  {
    forall i | 0 <= i < |rows|
      ensures Moved(Level(rows), Tilt(p, q))[i] == rows[i]
    {
      TiltRow(rows[i], p, q);
    }
  }

  lemma TiltRow(r: Row, p: real, q: real)
    requires r.offset == p + q * r.t
    ensures SlewedRow(r.(offset := 0.0), 0.0, -q, -p) == r
  {
    TiltAt(p, q, r.t);
  }

  lemma {:induction false} LevelSums(rows: seq<Row>, t0: real)
    ensures var s := Level(rows);
            && SumW(s) == SumW(rows) && SumWT(s) == SumWT(rows) && SumXX(s, t0) == SumXX(rows, t0)
            && SumWY(s) == 0.0 && SumXY(s, t0) == 0.0
  {
    if rows != [] {
      var n := |rows| - 1;
      LevelSums(rows[..n], t0);
      assert Level(rows)[..n] == Level(rows[..n]);
      LevelTerms(rows[n], t0);
    }
  }

  lemma LevelTerms(r: Row, t0: real)
    ensures var s := r.(offset := 0.0);
            TermT(s) == TermT(r) && TermXX(s, t0) == TermXX(r, t0) && TermY(s) == 0.0 && TermXY(s, t0) == 0.0
  {
  }

  /** The fit through level samples is level. */
  lemma LevelFit(rows: seq<Row>)
    requires Weighty(rows) && |rows| >= 2
    ensures LeastSquares(rows).Some? && LeastSquares(Level(rows)) == Some(LeastSquares(rows).value.(a := 0.0, b := 0.0))
  {
    WeightyTotals(rows);
    LeastSquaresMeans(rows);
    LeastSquaresMeans(Level(rows));
    LevelSums(rows, SumWT(rows) / SumW(rows));
  }

  /**
   The fit through samples on the line `p + q * t` predicts its value at `now` if and
   only if there is no slope to find, the times are spread enough to find it, or `now`
   is the mean time.
   */
  lemma LineFitAt(rows: seq<Row>, p: real, q: real, now: real)
    requires Weighty(rows) && |rows| >= 2 && OnLine(rows, p, q)
    ensures LeastSquares(rows).Some?
    ensures var f := LeastSquares(rows).value;
            && (At(f, now) == p + q * now <==> q == 0.0 || f.sxx > SXX_MIN || now == f.t0)
            && (f.b == q <==> q == 0.0 || f.sxx > SXX_MIN)
  {
    LevelFit(rows);
    var f := LeastSquares(rows).value;
    LineIsTilted(rows, p, q);
    var c := Tilt(p, q);
    FitOfSlewed(Level(rows), c.tc, c.rate, c.d);
    if q == 0.0 || f.sxx > SXX_MIN {
      AtMoves(f.(a := 0.0, b := 0.0), now, c);
      TiltAt(p, q, now);
    } else {
      FlatFitOfLine(rows, p, q);
      ProductNotZero(q, now - f.t0);
    }
  }

  lemma ProductNotZero(q: real, x: real)
    requires q != 0.0
    ensures q * x == 0.0 <==> x == 0.0
  {
  }

  /** Too crowded for a slope, samples on a line are fitted by its value at their mean time. */
  lemma FlatFitOfLine(rows: seq<Row>, p: real, q: real)
    requires Weighty(rows) && |rows| >= 2 && OnLine(rows, p, q)
    requires LeastSquares(rows).Some? && LeastSquares(rows).value.sxx <= SXX_MIN
    ensures var f := LeastSquares(rows).value; f.b == 0.0 && f.a == p + q * f.t0
  {
    WeightyTotals(rows);
    LeastSquaresMeans(rows);
    LineIsTilted(rows, p, q);
    var c, s, t0 := Tilt(p, q), Level(rows), SumWT(rows) / SumW(rows);
    LevelSums(rows, t0);
    SlewedSums(s, t0, c.tc, c.rate, c.d);
    MovedQuotients(SumW(s), SumWT(s), SumXX(s, t0), SumWY(s), SumXY(s, t0), SumWY(rows), SumXY(rows, t0),
                   t0, c.tc, c.rate, c.d);
    TiltAt(p, q, t0);
  }

  // ----- nothing to trim -----

  ghost predicate AllZero(xs: seq<real>) {
    forall i | 0 <= i < |xs| :: xs[i] == 0.0
  }

  lemma {:induction false} TotalOfZeros(xs: seq<real>)
    requires AllZero(xs)
    ensures Total(xs) == 0.0
  {
    if xs != [] {
      TotalOfZeros(xs[..|xs| - 1]);
    }
  }

  lemma MeanOfZeros(xs: seq<real>)
    requires AllZero(xs)
    ensures Mean(xs) == 0.0
  {
    TotalOfZeros(xs);
  }

  lemma ZerosAreOneRegime(res: seq<real>)
    requires AllZero(res)
    ensures !RegimeChange(res)
  {
    MeanOfZeros(res[..|res| / 2]);
    MeanOfZeros(res[|res| / 2..]);
  }

  lemma {:induction false} WorstOfZeros(mags: seq<real>, m: nat)
    requires AllZero(mags) && m <= |mags|
    ensures Worst(mags, m) == 0.0
  {
    if m > 0 {
      WorstOfZeros(mags, m - 1);
    }
  }

  lemma ZerosHaveNoSpike(res: seq<real>)
    requires AllZero(res)
    ensures SpikeThreshold(Magnitudes(res)).None?
  {
    WorstOfZeros(Magnitudes(res), Droppable(|res|));
  }

  lemma {:induction false} SumRROfZeros(rows: seq<Row>, f: Fit)
    requires AllZero(ResidualsOf(rows, f))
    ensures SumRR(rows, f) == 0.0
  {
    if rows != [] {
      var n := |rows| - 1;
      assert ResidualsOf(rows, f)[n] == Residual(rows[n], f) == 0.0;
      assert ResidualsOf(rows[..n], f) == ResidualsOf(rows, f)[..n];
      SumRROfZeros(rows[..n], f);
    }
  }

  lemma {:induction false} SumRRNonNegative(rows: seq<Row>, f: Fit)
    requires Weighty(rows)
    ensures SumRR(rows, f) >= 0.0
  {
    if rows != [] {
      var n := |rows| - 1;
      SumRRNonNegative(rows[..n], f);
      Squares(rows[n].w, Residual(rows[n], f));
    }
  }

  lemma QuotientNonNegative(p: real, q: real)
    requires p >= 0.0 && q > 0.0
    ensures p / q >= 0.0
  {
  }

  lemma ProductNonNegative(p: real, q: real)
    requires p >= 0.0 && q >= 0.0
    ensures p * q >= 0.0
  {
  }

  lemma JudgedNonNegative(rows: seq<Row>, f: Fit, now: real)
    requires Weighty(rows) && Usable(f)
    ensures PredictionVariance(rows, f, now) >= 0.0
  {
    WeightyTotals(rows);
    SumRRNonNegative(rows, f);
    var n := |rows| as real;
    if SumW(rows) > 0.0 {
      QuotientNonNegative(SumRR(rows, f), SumW(rows));
      ProductNonNegative(SumRR(rows, f) / SumW(rows), n);
      QuotientNonNegative(SumRR(rows, f) / SumW(rows) * n, Max(n - 2.0, 1.0));
    }
    var dt := now - f.t0;
    SquareNonNegative(dt);
    QuotientNonNegative(dt * dt, f.sxx);
    QuotientNonNegative(1.0, f.sw);
    ProductNonNegative(Variance(rows, f), 1.0 / f.sw + dt * dt / f.sxx);
  }

  /** Nothing beats a window that fits perfectly. */
  lemma {:induction false} PerfectStays(rows: seq<Row>, now: real, len: nat, bestLen: nat)
    requires Weighty(rows) && len > 0
    ensures ChooseLen(rows, now, len, Some(0.0), bestLen) == bestLen
    decreases |rows| - len
  {
    if len < |rows| {
      var tail := Tail(rows, len);
      var fit := LeastSquares(tail);
      if fit.Some? && Usable(fit.value) {
        JudgedNonNegative(tail, fit.value, now);
      }
      PerfectStays(rows, now, 2 * len, bestLen);
    }
  }

  lemma PerfectSettles(rows: seq<Row>, f: Fit, now: real, adaptive: bool, trims: nat)
    requires Weighty(rows) && |rows| >= 3 && LeastSquares(rows) == Some(f) && f.sxx > 0.0 && f.sw > 0.0
    requires AllZero(ResidualsOf(rows, f))
    ensures Settled(rows, now, adaptive, trims) == Some((rows, f)) && Variance(rows, f) == 0.0
  {
    SumRROfZeros(rows, f);
    assert Judged(rows, Some(f), now) == Some(0.0);
    PerfectStays(rows, now, MIN_ADAPTIVE, |rows|);
    ZerosAreOneRegime(ResidualsOf(rows, f));
    HistoryStays(rows, f, trims);
    ZerosHaveNoSpike(ResidualsOf(rows, f));
    SettledBy(rows, now, adaptive, trims, f, rows, f, rows, f);
  }

  lemma ReseatedOnLine(rows: seq<Row>, p: real, q: real, now: real)
    requires OnLine(rows, p, q) && SumW(rows) > 0.0
    ensures Reseated(rows, q, now) == p + q * now
  {
    LineIsTilted(rows, p, q);
    LevelSums(rows, 0.0);
    ReseatedMoves(Level(rows), 0.0, now, Tilt(p, q));
    TiltAt(p, q, now);
  }

  lemma FitWeighs(rows: seq<Row>, f: Fit)
    requires LeastSquares(rows) == Some(f)
    ensures f.sw > 0.0
  {
    LeastSquaresMeans(rows);
  }

  lemma ResidualsOnLine(rows: seq<Row>, p: real, q: real, f: Fit)
    requires Weighty(rows) && |rows| >= 2 && OnLine(rows, p, q)
    requires LeastSquares(rows) == Some(f) && f.sxx > SXX_MIN
    ensures AllZero(ResidualsOf(rows, f))
  {
    forall i | 0 <= i < |rows|
      ensures ResidualsOf(rows, f)[i] == 0.0
    {
      LineFitAt(rows, p, q, rows[i].t);
    }
  }

  lemma OffsetOnLine(rows: seq<Row>, p: real, q: real, f: Fit, now: real, minDelay: real, tuning: Tuning)
    requires OnLine(rows, p, q) && f.b == q && At(f, now) == p + q * now
    ensures OffsetAt(rows, f, now, minDelay, tuning) == p + q * now
  {
    var sharp := Sharpened(rows, minDelay, FloorFor(minDelay, tuning.offsetFloorRatio));
    if SumW(sharp) > 0.0 {
      ReseatedOnLine(sharp, p, q, now);
    }
  }

  lemma LineSettles(rows: seq<Row>, p: real, q: real, now: real, minDelay: real, tuning: Tuning) returns (f: Fit)
    requires Weighty(rows) && |rows| >= 3 && OnLine(rows, p, q)
    requires LeastSquares(rows).Some? && LeastSquares(rows).value.sxx > SXX_MIN
    ensures Settled(rows, now, tuning.adaptive, tuning.trims) == Some((rows, f))
    ensures f.b == q && Variance(rows, f) == 0.0 && OffsetAt(rows, f, now, minDelay, tuning) == p + q * now
  {
    f := LeastSquares(rows).value;
    LineFitAt(rows, p, q, now);
    FitWeighs(rows, f);
    ResidualsOnLine(rows, p, q, f);
    PerfectSettles(rows, f, now, tuning.adaptive, tuning.trims);
    OffsetOnLine(rows, p, q, f, now, minDelay, tuning);
  }

  /**
   Samples on one line, spread enough for a slope, pass through untrimmed and give the
   line's value at `now`, its slope and no dispersion.
   */
  lemma LineIsExact(rows: seq<Row>, p: real, q: real, now: real, minDelay: real, tuning: Tuning)
    requires Weighty(rows) && |rows| >= 3 && OnLine(rows, p, q)
    requires LeastSquares(rows).Some? && LeastSquares(rows).value.sxx > SXX_MIN
    ensures Regressed(rows, now, minDelay, tuning)
            == Some(Estimate(
              p + q * now,
              if |rows| >= FREQ_MIN_SAMPLES && Span(rows) >= FREQ_MIN_SPAN then Some(q * 1000000.0) else None,
              0.0, |rows|, Span(rows)))
  {
    var f := LineSettles(rows, p, q, now, minDelay, tuning);
  }

  // ----- samples at one time -----

  /**
   Three samples taken at one time `t`: the estimate follows a correction if and only
   if the correction changes no rate or the estimate is asked for at `t`.
   */
  lemma CrowdedSamples(rows: seq<Row>, t: real, now: real, minDelay: real, tuning: Tuning, c: Correction)
    requires |rows| == 3 && Weighty(rows) && rows[0].t == rows[1].t == rows[2].t == t
    ensures Regressed(rows, now, minDelay, tuning).Some?
    ensures Regressed(Moved(rows, c), now, minDelay, tuning)
            == Some(MovedEstimate(Regressed(rows, now, minDelay, tuning).value, now, c))
            <==> c.rate == 0.0 || now == t
  {
    CrowdedFit(rows, t, c);
    var f, g := LeastSquares(rows).value, LeastSquares(Moved(rows, c)).value;
    FewSettle(rows, f, now, tuning.adaptive, tuning.trims);
    FewSettle(Moved(rows, c), g, now, tuning.adaptive, tuning.trims);
    assert Span(Moved(rows, c)) == Span(rows) == 0.0;
    ProductNotZero(if c.rate == 0.0 then 1.0 else c.rate, now - t);
    LevelVariance(rows, f, g, c, t);
    CrowdedOffset(rows, f, g, t, now, minDelay, tuning, c);
  }

  lemma FlatReseat(rows: seq<Row>, now: real)
    requires SumW(rows) > 0.0
    ensures Reseated(rows, 0.0, now) == SumWY(rows) / SumW(rows)
  {
    var x := now - SumWT(rows) / SumW(rows);
    assert 0.0 * x == 0.0;
  }

  lemma CrowdedReseat(rows: seq<Row>, t: real, now: real, c: Correction)
    requires SumW(rows) > 0.0 && forall i | 0 <= i < |rows| :: rows[i].t == t
    ensures SumW(Moved(rows, c)) == SumW(rows)
    ensures Reseated(Moved(rows, c), 0.0, now) == Reseated(rows, 0.0, now) - Gained(t, c)
  {
    CrowdedMean(rows, t);
    var t0, y := MeanMoves(rows, c);
    FlatReseat(rows, now);
    FlatReseat(Moved(rows, c), now);
  }

  lemma CrowdedOffset(rows: seq<Row>, f: Fit, g: Fit, t: real, now: real, minDelay: real, tuning: Tuning, c: Correction)
    requires forall i | 0 <= i < |rows| :: rows[i].t == t
    requires f.b == 0.0 == g.b && g.a == f.a - Gained(t, c)
    ensures OffsetAt(Moved(rows, c), g, now, minDelay, tuning)
            == OffsetAt(rows, f, now, minDelay, tuning) - Gained(t, c)
  {
    var floor := FloorFor(minDelay, tuning.offsetFloorRatio);
    var sharp := Sharpened(rows, minDelay, floor);
    SharpenedMoves(rows, minDelay, floor, c);
    SlewedSums(sharp, 0.0, c.tc, c.rate, c.d);
    if SumW(sharp) > 0.0 {
      CrowdedReseat(sharp, t, now, c);
    }
  }

  lemma FewSettle(rows: seq<Row>, f: Fit, now: real, adaptive: bool, trims: nat)
    requires |rows| == 3 && LeastSquares(rows) == Some(f)
    ensures Settled(rows, now, adaptive, trims) == Some((rows, f))
  {
    HistoryStays(rows, f, trims);
    SettledBy(rows, now, adaptive, trims, f, rows, f, rows, f);
  }

  lemma LevelVariance(rows: seq<Row>, f: Fit, g: Fit, c: Correction, t: real)
    requires forall i | 0 <= i < |rows| :: rows[i].t == t
    requires f.b == 0.0 == g.b && g.a == f.a - Gained(t, c)
    ensures Variance(Moved(rows, c), g) == Variance(rows, f)
  {
    SlewedSums(rows, 0.0, c.tc, c.rate, c.d);
    LevelSumRR(rows, f, g, c, t);
  }

  lemma {:induction false} LevelSumRR(rows: seq<Row>, f: Fit, g: Fit, c: Correction, t: real)
    requires forall i | 0 <= i < |rows| :: rows[i].t == t
    requires f.b == 0.0 == g.b && g.a == f.a - Gained(t, c)
    ensures SumRR(Moved(rows, c), g) == SumRR(rows, f)
  {
    if rows != [] {
      MovedInit(rows, c);
      LevelSumRR(rows[..|rows| - 1], f, g, c, t);
    }
  }

  lemma TimesOver(t: real, w: real)
    requires w > 0.0
    ensures (t * w) / w == t
  {
  }

  lemma {:induction false} CrowdedSums(rows: seq<Row>, t: real)
    requires forall i | 0 <= i < |rows| :: rows[i].t == t
    ensures SumWT(rows) == t * SumW(rows) && SumXX(rows, t) == 0.0
  {
    if rows != [] {
      CrowdedSums(rows[..|rows| - 1], t);
    }
  }

  lemma CrowdedMean(rows: seq<Row>, t: real)
    requires SumW(rows) > 0.0 && forall i | 0 <= i < |rows| :: rows[i].t == t
    ensures SumWT(rows) / SumW(rows) == t
  {
    CrowdedSums(rows, t);
    TimesOver(t, SumW(rows));
  }

  lemma CrowdedFit(rows: seq<Row>, t: real, c: Correction)
    requires |rows| >= 2 && Weighty(rows) && forall i | 0 <= i < |rows| :: rows[i].t == t
    ensures LeastSquares(rows).Some? && LeastSquares(Moved(rows, c)).Some?
    ensures var f, g := LeastSquares(rows).value, LeastSquares(Moved(rows, c)).value;
            f.b == 0.0 == g.b && f.t0 == t == g.t0 && g.a == f.a - Gained(t, c)
  {
    WeightyTotals(rows);
    var s := Moved(rows, c);
    LeastSquaresMeans(rows);
    LeastSquaresMeans(s);
    CrowdedSums(rows, t);
    CrowdedMean(rows, t);
    SlewedSums(rows, t, c.tc, c.rate, c.d);
    MovedQuotients(SumW(rows), SumWT(rows), SumXX(rows, t), SumWY(rows), SumXY(rows, t), SumWY(s), SumXY(s, t),
                   t, c.tc, c.rate, c.d);
  }
}
