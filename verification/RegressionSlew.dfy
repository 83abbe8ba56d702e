/**
 The regression commutes with a correction of the clock: every choice it makes stays
 the same, the predicted offset falls by exactly the correction made by then, and the
 frequency by exactly the change of rate.
 */
module RegressionSlew {
  import opened Wrappers
  import opened Reals
  import opened LineFit
  import opened Residuals
  import opened Regression
  import opened RegressionRows

  /** From `tc` on the clock runs faster by `rate`, and at `tc` it gained `d`. */
  datatype Correction = Correction(tc: real, rate: real, d: real)

  function Moved(rows: seq<Row>, c: Correction): (s: seq<Row>)
    ensures |s| == |rows|
  {
    Slewed(rows, c.tc, c.rate, c.d)
  }

  function MovedFit(f: Fit, c: Correction): Fit {
    SlewedFit(f, c.tc, c.rate, c.d)
  }

  function Gained(t: real, c: Correction): real {
    Shift(t, c.tc, c.rate, c.d)
  }

  /** Weighted rows over which a change of rate can be told from an offset. */
  ghost predicate Fittable(rows: seq<Row>, c: Correction) {
    Weighty(rows) && (c.rate == 0.0 || Spaced(rows))
  }

  lemma FitMoves(rows: seq<Row>, c: Correction)
    requires Fittable(rows, c) && |rows| >= 2
    ensures LeastSquares(rows).Some?
    ensures LeastSquares(Moved(rows, c)) == Some(MovedFit(LeastSquares(rows).value, c))
  {
    LeastSquaresMeans(rows);
    WeightyTotals(rows);
    if c.rate != 0.0 {
      SpacedIsSpread(rows);
    }
    FitOfSlewed(rows, c.tc, c.rate, c.d);
  }

  lemma ResidualUnmoved(r: Row, f: Fit, c: Correction)
    ensures Residual(SlewedRow(r, c.tc, c.rate, c.d), MovedFit(f, c)) == Residual(r, f)
  {
  }

  lemma ResidualsUnmoved(rows: seq<Row>, f: Fit, c: Correction)
    ensures ResidualsOf(Moved(rows, c), MovedFit(f, c)) == ResidualsOf(rows, f)
  {
    forall i | 0 <= i < |rows|
      ensures ResidualsOf(Moved(rows, c), MovedFit(f, c))[i] == ResidualsOf(rows, f)[i]
    {
      ResidualUnmoved(rows[i], f, c);
    }
  }

  lemma MovedInit(rows: seq<Row>, c: Correction)
    requires rows != []
    ensures Moved(rows, c)[..|rows| - 1] == Moved(rows[..|rows| - 1], c)
    ensures Moved(rows, c)[|rows| - 1] == SlewedRow(rows[|rows| - 1], c.tc, c.rate, c.d)
  {
  }

  lemma {:induction false} SumRRUnmoved(rows: seq<Row>, f: Fit, c: Correction)
    ensures SumRR(Moved(rows, c), MovedFit(f, c)) == SumRR(rows, f)
  {
    if rows != [] {
      var n := |rows| - 1;
      MovedInit(rows, c);
      SumRRUnmoved(rows[..n], f, c);
      ResidualUnmoved(rows[n], f, c);
    }
  }

  lemma VarianceUnmoved(rows: seq<Row>, f: Fit, c: Correction)
    ensures Variance(Moved(rows, c), MovedFit(f, c)) == Variance(rows, f)
  {
    SumRRUnmoved(rows, f, c);
    SlewedSums(rows, 0.0, c.tc, c.rate, c.d);
  }

  lemma JudgedUnmoved(rows: seq<Row>, f: Fit, now: real, c: Correction)
    ensures Judged(Moved(rows, c), Some(MovedFit(f, c)), now) == Judged(rows, Some(f), now)
  {
    VarianceUnmoved(rows, f, c);
  }

  lemma TailMoves(rows: seq<Row>, n: nat, c: Correction)
    ensures Tail(Moved(rows, c), n) == Moved(Tail(rows, n), c)
    ensures Fittable(rows, c) ==> Fittable(Tail(rows, n), c)
  {
  }

  lemma {:induction false} ChooseLenUnmoved(rows: seq<Row>, now: real, len: nat, best: Option<real>, bestLen: nat,
                                            c: Correction)
    requires Fittable(rows, c) && len >= 2
    ensures ChooseLen(Moved(rows, c), now, len, best, bestLen) == ChooseLen(rows, now, len, best, bestLen)
    decreases |rows| - len
  {
    if len < |rows| {
      var tail := Tail(rows, len);
      TailMoves(rows, len, c);
      FitMoves(tail, c);
      JudgedUnmoved(tail, LeastSquares(tail).value, now, c);
      var v := Judged(tail, LeastSquares(tail), now);
      if Better(v, best) {
        ChooseLenUnmoved(rows, now, 2 * len, v, len, c);
      } else {
        ChooseLenUnmoved(rows, now, 2 * len, best, bestLen, c);
      }
    }
  }

  /** Rows and fit, both as the correction moves them. */
  function MovedPair(p: (seq<Row>, Fit), c: Correction): (seq<Row>, Fit) {
    (Moved(p.0, c), MovedFit(p.1, c))
  }

  lemma NarrowedMoves(rows: seq<Row>, f: Fit, now: real, adaptive: bool, c: Correction)
    requires Fittable(rows, c)
    ensures Narrowed(rows, f, now, adaptive).Some?
    ensures var p := Narrowed(rows, f, now, adaptive).value;
            && Narrowed(Moved(rows, c), MovedFit(f, c), now, adaptive) == Some(MovedPair(p, c))
            && Fittable(p.0, c) && (|p.0| == |rows| || |p.0| >= MIN_ADAPTIVE)
  {
    if adaptive && |rows| >= MIN_ADAPTIVE {
      JudgedUnmoved(rows, f, now, c);
      var best := Judged(rows, Some(f), now);
      ChooseLenUnmoved(rows, now, MIN_ADAPTIVE, best, |rows|, c);
      var n := ChooseLen(rows, now, MIN_ADAPTIVE, best, |rows|);
      TailMoves(rows, n, c);
      FitMoves(Tail(rows, n), c);
    }
  }

  lemma SuffixMoves(rows: seq<Row>, k: nat, c: Correction)
    requires k <= |rows|
    ensures Moved(rows, c)[k..] == Moved(rows[k..], c)
    ensures Fittable(rows, c) ==> Fittable(rows[k..], c)
  {
  }

  lemma {:induction false} HistoryTrimMoves(rows: seq<Row>, f: Fit, k: nat, c: Correction)
    returns (p: (seq<Row>, Fit), q: (seq<Row>, Fit))
    requires Fittable(rows, c)
    ensures p == HistoryTrimmed(rows, f, k) && q == HistoryTrimmed(Moved(rows, c), MovedFit(f, c), k)
    ensures q == MovedPair(p, c) && Fittable(p.0, c)
    decreases k
  {
    hide RegimeChange, LeastSquares;
    ResidualsUnmoved(rows, f, c);
    if k > 0 && |rows| >= 8 && RegimeChange(ResidualsOf(rows, f)) {
      var rest := rows[Quarter(|rows|)..];
      SuffixMoves(rows, Quarter(|rows|), c);
      FitMoves(rest, c);
      HistoryStep(rows, f, k);
      HistoryStep(Moved(rows, c), MovedFit(f, c), k);
      p, q := HistoryTrimMoves(rest, LeastSquares(rest).value, k - 1, c);
    } else {
      HistoryStays(rows, f, k);
      HistoryStays(Moved(rows, c), MovedFit(f, c), k);
      p, q := (rows, f), (Moved(rows, c), MovedFit(f, c));
    }
  }

  lemma {:induction false} KeptMoves(rows: seq<Row>, mags: seq<real>, threshold: real, m: nat, c: Correction)
    requires m <= |rows| == |mags|
    ensures Kept(Moved(rows, c), mags, threshold, m) == Moved(Kept(rows, mags, threshold, m), c)
  {
    if m > 0 {
      KeptMoves(rows, mags, threshold, m - 1, c);
    }
  }

  lemma PickIsFittable(rows: seq<Row>, idx: seq<nat>, c: Correction)
    requires Rising(idx, |rows|) && Fittable(rows, c)
    ensures Fittable(Pick(rows, idx), c)
  {
  }

  lemma KeptIsFittable(rows: seq<Row>, mags: seq<real>, threshold: real, m: nat, c: Correction)
    requires m <= |rows| == |mags| && Fittable(rows, c)
    ensures Fittable(Kept(rows, mags, threshold, m), c)
  {
    var idx := KeptAt(rows, mags, threshold, m);
    PickIsFittable(rows, idx, c);
  }

  lemma SpikeTrimMoves(rows: seq<Row>, f: Fit, c: Correction)
    requires Fittable(rows, c)
    ensures SpikesTrimmed(Moved(rows, c), MovedFit(f, c)) == MovedPair(SpikesTrimmed(rows, f), c)
    ensures Fittable(SpikesTrimmed(rows, f).0, c)
  {
    ResidualsUnmoved(rows, f, c);
    var mags := Magnitudes(ResidualsOf(rows, f));
    if |rows| > 4 && SpikeThreshold(mags).Some? {
      var threshold := SpikeThreshold(mags).value;
      var kept := Kept(rows, mags, threshold, |rows|);
      KeptMoves(rows, mags, threshold, |rows|, c);
      KeptIsFittable(rows, mags, threshold, |rows|, c);
      if 3 <= |kept| {
        FitMoves(kept, c);
      }
    }
  }

  // ----- all passes together -----

  lemma SettledBy(rows: seq<Row>, now: real, adaptive: bool, trims: nat,
                  f: Fit, r1: seq<Row>, f1: Fit, r2: seq<Row>, f2: Fit)
    requires |rows| >= 3 && LeastSquares(rows) == Some(f)
    requires Narrowed(rows, f, now, adaptive) == Some((r1, f1)) && HistoryTrimmed(r1, f1, trims) == (r2, f2)
    ensures Settled(rows, now, adaptive, trims) == Some(SpikesTrimmed(r2, f2))
  {
  }

  /** The same rows are used, with the fit moved. */
  lemma SettledMoves(rows: seq<Row>, now: real, adaptive: bool, trims: nat, c: Correction)
    returns (used: seq<Row>, f: Fit)
    requires Fittable(rows, c) && |rows| >= 3
    ensures Settled(rows, now, adaptive, trims) == Some((used, f))
    ensures Settled(Moved(rows, c), now, adaptive, trims) == Some((Moved(used, c), MovedFit(f, c)))
    ensures Fittable(used, c)
  {
    FitMoves(rows, c);
    var f0 := LeastSquares(rows).value;
    NarrowedMoves(rows, f0, now, adaptive, c);
    var p1 := Narrowed(rows, f0, now, adaptive).value;
    var p2, q2 := HistoryTrimMoves(p1.0, p1.1, trims, c);
    SpikeTrimMoves(p2.0, p2.1, c);
    SettledBy(rows, now, adaptive, trims, f0, p1.0, p1.1, p2.0, p2.1);
    SettledBy(Moved(rows, c), now, adaptive, trims, MovedFit(f0, c),
              Moved(p1.0, c), MovedFit(p1.1, c), Moved(p2.0, c), MovedFit(p2.1, c));
    used, f := SpikesTrimmed(p2.0, p2.1).0, SpikesTrimmed(p2.0, p2.1).1;
  }

  // ----- the conclusion -----

  lemma AtMoves(f: Fit, now: real, c: Correction)
    ensures At(MovedFit(f, c), now) == At(f, now) - Gained(now, c)
  {
  }

  lemma MeanPointMoves(y: real, b: real, now: real, t0: real, c: Correction)
    ensures y - Gained(t0, c) + (b - c.rate) * (now - t0) == y + b * (now - t0) - Gained(now, c)
  {
  }

  /** The weighted mean offset falls by what the clock gained by the mean time. */
  lemma MeanMoves(rows: seq<Row>, c: Correction) returns (t0: real, y: real)
    requires SumW(rows) > 0.0
    ensures t0 == SumWT(rows) / SumW(rows) && y == SumWY(rows) / SumW(rows)
    ensures SumW(Moved(rows, c)) == SumW(rows) && SumWT(Moved(rows, c)) == SumWT(rows)
    ensures SumWY(Moved(rows, c)) / SumW(rows) == y - Gained(t0, c)
  {
    t0, y := SumWT(rows) / SumW(rows), SumWY(rows) / SumW(rows);
    var s := Moved(rows, c);
    SlewedSums(rows, t0, c.tc, c.rate, c.d);
    MovedQuotients(SumW(rows), SumWT(rows), SumXX(rows, t0), SumWY(rows), SumXY(rows, t0), SumWY(s), SumXY(s, t0),
                   t0, c.tc, c.rate, c.d);
  }

  lemma ReseatedMoves(rows: seq<Row>, b: real, now: real, c: Correction)
    requires SumW(rows) > 0.0
    ensures SumW(Moved(rows, c)) == SumW(rows)
    ensures Reseated(Moved(rows, c), b - c.rate, now) == Reseated(rows, b, now) - Gained(now, c)
  {
    var t0, y := MeanMoves(rows, c);
    MeanPointMoves(y, b, now, t0, c);
  }

  lemma SharpenedMoves(rows: seq<Row>, minDelay: real, floor: real, c: Correction)
    requires floor > 0.0
    ensures Sharpened(Moved(rows, c), minDelay, floor) == Moved(Sharpened(rows, minDelay, floor), c)
    ensures Weighty(Sharpened(rows, minDelay, floor))
  {
  }

  lemma OffsetMoves(rows: seq<Row>, f: Fit, now: real, minDelay: real, tuning: Tuning, c: Correction)
    ensures OffsetAt(Moved(rows, c), MovedFit(f, c), now, minDelay, tuning)
            == OffsetAt(rows, f, now, minDelay, tuning) - Gained(now, c)
  {
    var floor := FloorFor(minDelay, tuning.offsetFloorRatio);
    var sharp := Sharpened(rows, minDelay, floor);
    SharpenedMoves(rows, minDelay, floor, c);
    AtMoves(f, now, c);
    SlewedSums(sharp, 0.0, c.tc, c.rate, c.d);
    if SumW(sharp) > 0.0 {
      ReseatedMoves(sharp, f.b, now, c);
    }
  }

  /** An estimate as the correction moves it. */
  function MovedEstimate(e: Estimate, now: real, c: Correction): Estimate {
    e.(offset := e.offset - Gained(now, c),
       freqPpm := if e.freqPpm.Some? then Some(e.freqPpm.value - c.rate * 1000000.0) else None)
  }

  lemma ConclusionMoves(rows: seq<Row>, f: Fit, now: real, minDelay: real, tuning: Tuning, c: Correction)
    ensures Concluded(Moved(rows, c), MovedFit(f, c), now, minDelay, tuning)
            == MovedEstimate(Concluded(rows, f, now, minDelay, tuning), now, c)
  {
    OffsetMoves(rows, f, now, minDelay, tuning, c);
    VarianceUnmoved(rows, f, c);
    assert Span(Moved(rows, c)) == Span(rows);
  }

  /**
   The estimate over a corrected window is the estimate over the window, its offset
   lower by what the clock has gained by `now` and its frequency by the change of rate:
   the same rows, the same dispersion, the same span.
   */
  lemma RegressionCommutes(rows: seq<Row>, now: real, minDelay: real, tuning: Tuning, c: Correction)
    requires Fittable(rows, c)
    ensures Regressed(rows, now, minDelay, tuning).Some? <==> |rows| >= 3
    ensures Regressed(Moved(rows, c), now, minDelay, tuning)
            == match Regressed(rows, now, minDelay, tuning)
               case None => None
               case Some(e) => Some(MovedEstimate(e, now, c))
  {
    if |rows| >= 3 {
      var used, f := SettledMoves(rows, now, tuning.adaptive, tuning.trims, c);
      ConclusionMoves(used, f, now, minDelay, tuning, c);
    }
  }
}
