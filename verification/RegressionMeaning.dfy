/** What an estimate is, told from the rows it rests on and what it minimises there. */
module RegressionMeaning {
  import opened Wrappers
  import opened Reals
  import opened LineFit
  import opened Residuals
  import opened Regression
  import opened RegressionRows
  import opened RegressionExact
  import opened RegressionSlew

  // ----- the dispersion -----

  lemma {:induction false} ResidualsAreLoss(rows: seq<Row>, f: Fit)
    ensures SumRR(rows, f) == Loss(rows, f.a, f.b, f.t0)
  {
    if rows != [] {
      ResidualsAreLoss(rows[..|rows| - 1], f);
    }
  }

  /** `n`, or what takes two degrees of freedom off it but leaves one. */
  function Freedom(n: nat): nat {
    if n <= 3 then 1 else n - 2
  }

  lemma SpreadMeans(sw: real, loss: real, n: nat)
    requires sw > 0.0
    ensures Spread(sw, loss, n) * sw * Freedom(n) as real == loss * n as real && Freedom(n) >= 1
  {
    var free := Max(n as real - 2.0, 1.0);
    assert free == Freedom(n) as real;
    var q := loss / sw;
    assert q * sw == loss;
    var v := q * n as real / free;
    assert v * free == q * n as real;
    Commutes(v, sw, free);
    Commutes(q, n as real, sw);
  }

  lemma Commutes(a: real, b: real, c: real)
    ensures a * b * c == a * c * b
  {
  }

  predicate Meets(r: Row, f: Fit) {
    r.offset == f.a + f.b * (r.t - f.t0)
  }

  /** Every row is on the line of the fit. */
  ghost predicate OnFit(rows: seq<Row>, f: Fit) {
    forall i | 0 <= i < |rows| :: Meets(rows[i], f)
  }

  lemma TermVanishes(r: Row, f: Fit)
    requires r.w >= 0.000001
    ensures TermLoss(r, f.a, f.b, f.t0) >= 0.0 && (TermLoss(r, f.a, f.b, f.t0) == 0.0 <==> Meets(r, f))
  {
    Squares(r.w, r.offset - (f.a + f.b * (r.t - f.t0)));
  }

  lemma {:induction false} LossVanishes(rows: seq<Row>, f: Fit)
    requires Weighty(rows)
    ensures Loss(rows, f.a, f.b, f.t0) >= 0.0
    ensures Loss(rows, f.a, f.b, f.t0) == 0.0 <==> OnFit(rows, f)
  {
    hide TermLoss, Meets;
    if rows != [] {
      var n := |rows| - 1;
      LossVanishes(rows[..n], f);
      TermVanishes(rows[n], f);
      assert OnFit(rows, f) <==> OnFit(rows[..n], f) && Meets(rows[n], f) by {
        assert forall i | 0 <= i < n :: rows[..n][i] == rows[i];
        if OnFit(rows[..n], f) && Meets(rows[n], f) {
          forall i | 0 <= i < |rows|
            ensures Meets(rows[i], f)
          {
            assert i < n ==> Meets(rows[..n][i], f);
          }
        }
      }
    }
  }

  lemma ProductVanishes(a: real, b: real, c: real, d: real, e: real)
    requires a * b * c == d * e && b > 0.0 && c > 0.0 && e > 0.0
    ensures a == 0.0 <==> d == 0.0
  {
    if a == 0.0 {
      assert d * e == 0.0;
    }
    if d == 0.0 {
      assert a * b * c == 0.0;
      assert a * b == 0.0;
    }
  }

  /**
   The variance of a fit is the mean weighted square of its residuals, with two degrees of
   freedom gone, and nothing if and only if every row is on the line.
   */
  lemma VarianceMeans(rows: seq<Row>, f: Fit)
    requires Weighty(rows) && rows != []
    ensures Variance(rows, f) * SumW(rows) * Freedom(|rows|) as real == Loss(rows, f.a, f.b, f.t0) * |rows| as real
    ensures Variance(rows, f) == 0.0 <==> OnFit(rows, f)
  {
    hide Spread, Loss, SumRR, SumW, OnFit, Weighty, Freedom;
    WeightyTotals(rows);
    ResidualsAreLoss(rows, f);
    SpreadMeans(SumW(rows), SumRR(rows, f), |rows|);
    LossVanishes(rows, f);
    ProductVanishes(Variance(rows, f), SumW(rows), Freedom(|rows|) as real, Loss(rows, f.a, f.b, f.t0), |rows| as real);
  }

  lemma LineIsMet(rows: seq<Row>, f: Fit, p: real, q: real)
    requires Weighty(rows) && LeastSquares(rows) == Some(f) && f.sxx > SXX_MIN && OnLine(rows, p, q)
    ensures OnFit(rows, f)
  {
    hide LeastSquares;
    FitTakesTwo(rows);
    ResidualsOnLine(rows, p, q, f);
    forall i | 0 <= i < |rows|
      ensures Meets(rows[i], f)
    {
      assert ResidualsOf(rows, f)[i] == 0.0;
    }
  }

  lemma FitTakesTwo(rows: seq<Row>)
    requires LeastSquares(rows).Some?
    ensures |rows| >= 2
  {
    LeastSquaresMeans(rows);
  }

  /** Where the times spread enough for a slope, there is no dispersion if and only if the rows lie on some line. */
  lemma CollinearMeans(rows: seq<Row>, f: Fit)
    requires Weighty(rows) && LeastSquares(rows) == Some(f) && f.sxx > SXX_MIN
    ensures Variance(rows, f) == 0.0 <==> exists p, q :: OnLine(rows, p, q)
  {
    hide Variance, LeastSquares, OnLine, OnFit, Weighty, Loss, SumW, Freedom;
    FitTakesTwo(rows);
    VarianceMeans(rows, f);
    if OnFit(rows, f) {
      FitIsLine(rows, f);
    }
    if p, q :| OnLine(rows, p, q) {
      LineIsMet(rows, f, p, q);
    }
  }

  lemma FitIsLine(rows: seq<Row>, f: Fit)
    requires OnFit(rows, f)
    ensures OnLine(rows, f.a - f.b * f.t0, f.b)
  {
    forall i | 0 <= i < |rows|
      ensures rows[i].offset == f.a - f.b * f.t0 + f.b * rows[i].t
    {
      assert Meets(rows[i], f);
      assert f.b * (rows[i].t - f.t0) == f.b * rows[i].t - f.b * f.t0;
    }
  }

  // ----- the offset -----

  /** The weight of a sample: the inverse square of its excess delay against a floor, held at a millionth. */
  predicate Weighs(w: real, delay: real, minDelay: real, floor: real) {
    var reach := (if delay > minDelay then delay - minDelay else 0.0) + floor;
    && w >= 0.000001
    && (w * (reach * reach) == floor * floor || (w == 0.000001 && floor * floor <= w * (reach * reach)))
  }

  lemma WeightIs(delay: real, minDelay: real, floor: real)
    requires floor > 0.0
    ensures Weighs(WeightFor(delay, minDelay, floor), delay, minDelay, floor)
  {
    var reach := Max(delay - minDelay, 0.0) + floor;
    var q := floor / reach;
    assert q * reach == floor;
    assert (q * q) * (reach * reach) == floor * floor by {
      assert (q * q) * (reach * reach) == (q * reach) * (q * reach);
    }
    if q * q < 0.000001 {
      SquareNonNegative(reach);
      ProductGrows(q * q, 0.000001, reach * reach);
    }
  }

  /** The same rows on the weights of the offset. */
  ghost predicate OnOffsetWeights(rows: seq<Row>, sharp: seq<Row>, minDelay: real, ratio: real) {
    var floor := if minDelay * ratio > 0.000000001 then minDelay * ratio else 0.000000001;
    && |sharp| == |rows|
    && forall i | 0 <= i < |rows| ::
         && sharp[i].t == rows[i].t && sharp[i].offset == rows[i].offset
         && Weighs(sharp[i].w, rows[i].delay, minDelay, floor)
  }

  /** Of all lines of slope `b` the one with `offset` at `now` fits the rows best, and no other as well. */
  ghost predicate FitsBest(rows: seq<Row>, offset: real, b: real, now: real) {
    forall c: real | c != offset :: Loss(rows, c, b, now) > Loss(rows, offset, b, now)
  }

  /**
   Where the two floors differ, the offset is that of the line of the fitted slope that
   fits best on the sharper weights; otherwise it is the fit's.
   */
  lemma OffsetMeans(rows: seq<Row>, f: Fit, now: real, minDelay: real, tuning: Tuning) returns (sharp: seq<Row>)
    requires rows != []
    ensures OnOffsetWeights(rows, sharp, minDelay, tuning.offsetFloorRatio)
    ensures var offset := OffsetAt(rows, f, now, minDelay, tuning);
            if tuning.offsetFloorRatio != tuning.floorRatio then FitsBest(sharp, offset, f.b, now)
            else offset == f.a + f.b * (now - f.t0)
  {
    var floor := FloorFor(minDelay, tuning.offsetFloorRatio);
    sharp := Sharpened(rows, minDelay, floor);
    forall i | 0 <= i < |rows|
      ensures Weighs(sharp[i].w, rows[i].delay, minDelay, floor)
    {
      WeightIs(rows[i].delay, minDelay, floor);
    }
    WeightyTotals(sharp);
    forall c: real | c != Reseated(sharp, f.b, now)
      ensures Loss(sharp, c, f.b, now) > Loss(sharp, Reseated(sharp, f.b, now), f.b, now)
    {
      ReseatedIsLeast(sharp, f.b, now, c);
    }
  }

  // ----- the window -----

  /** The loss of `n` rows as a variance. */
  function LossVariance(loss: real, sw: real, n: nat): real
    requires sw > 0.0
  {
    loss / sw * n as real / Freedom(n) as real
  }

  /** A variance of a fit as that of its value so far from its mean time. */
  function Carried(variance: real, sw: real, sxx: real, dt: real): real
    requires sw > 0.0 && sxx > 0.0
  {
    variance * (1.0 / sw + dt * dt / sxx)
  }

  /** The variance of the offset that the fit of some rows predicts at `now`, where the fit has leverage. */
  function Predicted(rows: seq<Row>, now: real): Option<real> {
    var fit := LeastSquares(rows);
    if fit.None? || fit.value.sxx <= 0.0 || fit.value.sw <= 0.0 then None
    else
      var f := fit.value;
      Some(Carried(LossVariance(Loss(rows, f.a, f.b, f.t0), f.sw, |rows|), f.sw, f.sxx, now - f.t0))
  }

  predicate NoWorse(v: Option<real>, other: Option<real>) {
    other.None? || (v.Some? && v.value <= other.value)
  }

  lemma SpreadIs(sw: real, loss: real, n: nat)
    requires sw > 0.0
    ensures Spread(sw, loss, n) == LossVariance(loss, sw, n)
  {
  }

  lemma LeveredIs(variance: real, sw: real, sxx: real, dt: real)
    requires sw > 0.0 && sxx > 0.0
    ensures Levered(variance, sw, sxx, dt) == Carried(variance, sw, sxx, dt)
  {
  }

  lemma JudgedIsPredicted(rows: seq<Row>, now: real)
    ensures Judged(rows, LeastSquares(rows), now) == Predicted(rows, now)
  {
    hide Spread, SumRR, Loss, Freedom, LossVariance, Carried, Levered;
    var fit := LeastSquares(rows);
    if fit.Some? && Usable(fit.value) {
      var f := fit.value;
      LeastSquaresMeans(rows);
      ResidualsAreLoss(rows, f);
      assert f.sw == SumW(rows);
      SpreadIs(f.sw, Loss(rows, f.a, f.b, f.t0), |rows|);
      assert Variance(rows, f) == Spread(f.sw, Loss(rows, f.a, f.b, f.t0), |rows|);
      LeveredIs(Variance(rows, f), f.sw, f.sxx, now - f.t0);
    }
  }

  /** The lengths tried: eight and its doubles below the window's, and the whole window. */
  predicate Tried(n: nat, from: nat, len: nat)
    decreases n - from
  {
    0 < from < n && (len == from || Tried(n, 2 * from, len))
  }

  lemma {:induction false} ChooseLenIsBest(rows: seq<Row>, now: real, len: nat, best: Option<real>, bestLen: nat)
    requires 0 < len && best == Predicted(Tail(rows, bestLen), now)
    ensures var n := ChooseLen(rows, now, len, best, bestLen);
            var v := Predicted(Tail(rows, n), now);
            && (n == bestLen || Tried(|rows|, len, n)) && NoWorse(v, best)
            && (forall m | Tried(|rows|, len, m) :: NoWorse(v, Predicted(Tail(rows, m), now)))
            && (n != bestLen ==> !NoWorse(best, v))
    decreases |rows| - len
  {
    hide Predicted, Judged;
    if len < |rows| {
      JudgedIsPredicted(Tail(rows, len), now);
      var v := Predicted(Tail(rows, len), now);
      if Better(v, best) {
        ChooseLenIsBest(rows, now, 2 * len, v, len);
      } else {
        ChooseLenIsBest(rows, now, 2 * len, best, bestLen);
      }
    }
  }

  /**
   The window the passes begin with predicts the offset no worse than any other that was
   tried, and it is shorter than the whole only where it predicts it better.
   */
  lemma WindowIsBest(rows: seq<Row>, f: Fit, now: real)
    requires LeastSquares(rows) == Some(f) && |rows| >= MIN_ADAPTIVE && Narrowed(rows, f, now, true).Some?
    ensures var window := Narrowed(rows, f, now, true).value.0;
            && (window == rows || (Tried(|rows|, 8, |window|) && window == Tail(rows, |window|)))
            && NoWorse(Predicted(window, now), Predicted(rows, now))
            && (forall m | Tried(|rows|, 8, m) :: NoWorse(Predicted(window, now), Predicted(Tail(rows, m), now)))
            && (window != rows ==> !NoWorse(Predicted(rows, now), Predicted(window, now)))
  {
    hide Predicted, Judged;
    JudgedIsPredicted(rows, now);
    assert Tail(rows, |rows|) == rows;
    ChooseLenIsBest(rows, now, MIN_ADAPTIVE, Predicted(rows, now), |rows|);
    var n := ChooseLen(rows, now, MIN_ADAPTIVE, Predicted(rows, now), |rows|);
    assert Narrowed(rows, f, now, true).value.0 == Tail(rows, n);
  }

  // ----- the estimate -----

  lemma HasFit(rows: seq<Row>)
    requires Weighty(rows) && |rows| >= 2
    ensures LeastSquares(rows).Some?
  {
    LeastSquaresMeans(rows);
    WeightyTotals(rows);
  }

  /** Rows with the fit through them. */
  ghost predicate Fitted(p: (seq<Row>, Fit)) {
    Weighty(p.0) && |p.0| >= 2 && LeastSquares(p.0) == Some(p.1)
  }

  lemma NarrowedFits(rows: seq<Row>, f: Fit, now: real, adaptive: bool)
    requires Fitted((rows, f)) && Narrowed(rows, f, now, adaptive).Some?
    ensures Fitted(Narrowed(rows, f, now, adaptive).value)
  {
    hide LeastSquares, Judged;
  }

  lemma {:induction false} HistoryFits(rows: seq<Row>, f: Fit, k: nat)
    requires Fitted((rows, f))
    ensures Fitted(HistoryTrimmed(rows, f, k))
    decreases k
  {
    hide LeastSquares, RegimeChange;
    if k > 0 && |rows| >= 8 && RegimeChange(ResidualsOf(rows, f)) {
      var rest := rows[Quarter(|rows|)..];
      HasFit(rest);
      HistoryStep(rows, f, k);
      HistoryFits(rest, LeastSquares(rest).value, k - 1);
    } else {
      HistoryStays(rows, f, k);
    }
  }

  lemma SpikesFit(rows: seq<Row>, f: Fit)
    requires Fitted((rows, f)) && |rows| >= 3
    ensures Fitted(SpikesTrimmed(rows, f))
  {
    hide LeastSquares, SpikeThreshold, Kept;
    var idx := SpikesLeave(rows, f);
    PickWeighs(rows, idx);
  }

  lemma PickWeighs(rows: seq<Row>, idx: seq<nat>)
    requires Weighty(rows) && Rising(idx, |rows|)
    ensures Weighty(Pick(rows, idx))
  {
  }

  lemma SettledFits(rows: seq<Row>, now: real, adaptive: bool, trims: nat)
    requires Weighty(rows) && Settled(rows, now, adaptive, trims).Some?
    ensures Fitted(Settled(rows, now, adaptive, trims).value)
  {
    hide LeastSquares, Narrowed, HistoryTrimmed, SpikesTrimmed;
    var f, r1, f1, r2, f2 := Passes(rows, now, adaptive, trims);
    NarrowedFits(rows, f, now, adaptive);
    HistoryFits(r1, f1, trims);
    var a := NarrowedIsSuffix(rows, f, now, adaptive);
    var b := HistoryIsSuffix(r1, f1, trims);
    SpikesFit(r2, f2);
  }

  lemma AlwaysRegressed(rows: seq<Row>, now: real, minDelay: real, tuning: Tuning)
    requires Weighty(rows) && |rows| >= 3
    ensures Regressed(rows, now, minDelay, tuning).Some?
  {
    RegressionCommutes(rows, now, minDelay, tuning, Correction(0.0, 0.0, 0.0));
  }

  /**
   Three rows or more always give an estimate. It rests on rows in order, the three newest
   among them, and on the least squares fit through them: its variance is their loss with
   two degrees of freedom gone, its frequency the slope where they are at least four over
   at least eight seconds, and its offset that of the line of this slope that fits best on
   the weights of the offset, where these differ.
   */
  lemma EstimateMeans(rows: seq<Row>, now: real, minDelay: real, tuning: Tuning)
    returns (idx: seq<nat>, used: seq<Row>, fit: Fit, sharp: seq<Row>)
    requires Weighty(rows) && |rows| >= 3
    ensures Rising(idx, |rows|) && KeepsNewest(idx, |rows|) && used == Pick(rows, idx)
    ensures used != [] && LeastSquares(used) == Some(fit)
    ensures OnOffsetWeights(used, sharp, minDelay, tuning.offsetFloorRatio)
    ensures Regressed(rows, now, minDelay, tuning).Some?
    ensures var e := Regressed(rows, now, minDelay, tuning).value;
            && e.used == |used| && e.span == Max(used[|used| - 1].t - used[0].t, 0.0)
            && e.variance * SumW(used) * Freedom(|used|) as real == Loss(used, fit.a, fit.b, fit.t0) * |used| as real
            && (e.variance == 0.0 <==> OnFit(used, fit))
            && e.freqPpm == (if |used| >= 4 && e.span >= 8.0 then Some(fit.b * 1000000.0) else None)
            && if tuning.offsetFloorRatio != tuning.floorRatio then FitsBest(sharp, e.offset, fit.b, now)
               else e.offset == fit.a + fit.b * (now - fit.t0)
  {
    hide LeastSquares, Settled, OffsetAt, Variance, FitsBest, OnOffsetWeights, Loss, SumW, OnFit, Freedom;
    AlwaysRegressed(rows, now, minDelay, tuning);
    SettledFits(rows, now, tuning.adaptive, tuning.trims);
    idx, used, fit := UsedRows(rows, now, tuning.adaptive, tuning.trims);
    VarianceMeans(used, fit);
    sharp := OffsetMeans(used, fit, now, minDelay, tuning);
  }
}
