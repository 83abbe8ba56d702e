/** The passes of the regression as they are carried out. */
module RegressionPasses {
  import opened Wrappers
  import opened Reals
  import opened LineFit
  import opened Residuals
  import opened Regression

  method ResidualVariance(rows: seq<Row>, f: Fit) returns (variance: real)
    ensures variance == Variance(rows, f)
  {
    var sw, sr := 0.0, 0.0;
    for i := 0 to |rows|
      invariant sw == SumW(rows[..i]) && sr == SumRR(rows[..i], f)
    {
      assert rows[..i + 1][..i] == rows[..i];
      sw := sw + rows[i].w;
      sr := sr + TermRR(rows[i], f);
    }
    assert rows[..|rows|] == rows;
    return Spread(sw, sr, |rows|);
  }

  /** The variance predicted at `now`, where the fit has any leverage. */
  method Judge(rows: seq<Row>, fit: Option<Fit>, now: real) returns (v: Option<real>)
    ensures v == Judged(rows, fit, now)
  {
    if fit.Some? && fit.value.sxx > 0.0 && fit.value.sw > 0.0 {
      var variance := ResidualVariance(rows, fit.value);
      return Some(Levered(variance, fit.value.sw, fit.value.sxx, now - fit.value.t0));
    }
    return None;
  }

  /** What the fit through the newest `len` rows predicts. */
  method JudgeTail(rows: seq<Row>, now: real, len: nat) returns (se: Option<real>)
    requires len <= |rows|
    ensures se == Judged(Tail(rows, len), LeastSquares(Tail(rows, len)), now)
  {
    var tail := rows[|rows| - len..];
    var fit := WlsFit(tail);
    se := Judge(tail, fit, now);
  }

  /** Try ever longer tails against what the whole window predicts. */
  method TryTails(rows: seq<Row>, now: real, seed: Option<real>) returns (bestLen: nat)
    requires |rows| >= MIN_ADAPTIVE
    ensures bestLen == ChooseLen(rows, now, MIN_ADAPTIVE, seed, |rows|) && bestLen <= |rows|
  {
    var best := seed;
    bestLen := |rows|;
    var len := MIN_ADAPTIVE;
    ghost var goal := ChooseLen(rows, now, MIN_ADAPTIVE, seed, |rows|);
    while len < |rows|
      invariant len > 0 && bestLen <= |rows|
      invariant ChooseLen(rows, now, len, best, bestLen) == goal
    {
      var se := JudgeTail(rows, now, len);
      ChooseStep(rows, now, len, best, bestLen, se);
      if se.Some? && (best.None? || se.value < best.value) {
        best := se;
        bestLen := len;
      }
      len := len * 2;
    }
  }

  lemma ChooseStep(rows: seq<Row>, now: real, len: nat, best: Option<real>, bestLen: nat, se: Option<real>)
    requires 0 < len < |rows| && se == Judged(Tail(rows, len), LeastSquares(Tail(rows, len)), now)
    ensures ChooseLen(rows, now, len, best, bestLen)
            == if Better(se, best) then ChooseLen(rows, now, len * 2, se, len)
               else ChooseLen(rows, now, len * 2, best, bestLen)
  {
    hide LeastSquares, Judged;
  }

  /** Pick the window, seeded with all of it so that a shorter one has to beat it. */
  method AdaptWindow(rows: seq<Row>, f: Fit, now: real, adaptive: bool) returns (r: Option<(seq<Row>, Fit)>)
    ensures r == Narrowed(rows, f, now, adaptive)
  {
    if !adaptive || |rows| < MIN_ADAPTIVE {
      return Some((rows, f));
    }
    var seed := Judge(rows, Some(f), now);
    var bestLen := TryTails(rows, now, seed);
    if bestLen == |rows| {
      return Some((rows, f));
    }
    var tail := rows[|rows| - bestLen..];
    var refit := WlsFit(tail);
    if refit.None? {
      return None;
    }
    return Some((tail, refit.value));
  }

  method ShowsTwoRegimes(win: seq<Row>, f: Fit) returns (two: bool)
    ensures two == RegimeChange(ResidualsOf(win, f))
  {
    var mixed := ResidualsWellMixed(win, f);
    if mixed {
      return false;
    }
    var gap, mad := HalfGapAndMad(win, f);
    return gap > 3.0 * Max(1.4826 * mad, 0.000000001);
  }

  /** One look for another regime: the oldest quarter goes, or the trimming is over. */
  method TrimOnce(win: seq<Row>, f: Fit, ghost k: nat) returns (over: bool, used: seq<Row>, fit: Fit)
    requires k > 0
    ensures over ==> (used, fit) == HistoryTrimmed(win, f, k)
    ensures !over ==> |win| >= 8 && used == win[Quarter(|win|)..]
    ensures !over ==> HistoryTrimmed(used, fit, k - 1) == HistoryTrimmed(win, f, k)
  {
    hide RegimeChange;
    var two := false;
    if |win| >= 8 {
      two := ShowsTwoRegimes(win, f);
    }
    if !two {
      HistoryStays(win, f, k);
      return true, win, f;
    }
    used := win[Quarter(|win|)..];
    var refit := WlsFit(used);
    if refit.None? {
      HistoryStops(win, f, k);
      return true, used, f;
    }
    HistoryStep(win, f, k);
    return false, used, refit.value;
  }

  /** Advance a cursor past history that shows another regime; reclaim once. */
  method TrimHistory(rows: seq<Row>, f: Fit, trims: nat) returns (used: seq<Row>, fit: Fit)
    ensures (used, fit) == HistoryTrimmed(rows, f, trims)
  {
    hide HistoryTrimmed;
    var lo := 0;
    fit := f;
    ghost var goal := HistoryTrimmed(rows, f, trims);
    assert rows[0..] == rows;
    for i := 0 to trims
      invariant lo <= |rows|
      invariant HistoryTrimmed(rows[lo..], fit, trims - i) == goal
    {
      var win := rows[lo..];
      var over;
      over, used, fit := TrimOnce(win, fit, trims - i);
      if over {
        return;
      }
      lo := lo + Quarter(|win|);
      assert rows[lo..] == used;
    }
    HistoryStays(rows[lo..], fit, 0);
    used := rows[lo..];
  }

  /** Drop the interior spikes and refit, where enough rows remain. */
  method TrimSpikes(rows: seq<Row>, f: Fit) returns (used: seq<Row>, fit: Fit)
    ensures (used, fit) == SpikesTrimmed(rows, f)
  {
    used, fit := rows, f;
    if |rows| > 4 {
      var found := SpikeKeepMask(rows, f);
      if found.Some? {
        var (threshold, mask) := found.value;
        var kept := KeepRows(rows, f, threshold, mask);
        if 3 <= |kept| < |rows| {
          var refit := WlsFit(kept);
          if refit.Some? {
            used, fit := kept, refit.value;
          }
        }
      }
    }
  }

  /** Re-seat the offset on the sharper weights, holding the slope. */
  method SharpOffset(rows: seq<Row>, f: Fit, now: real, minDelay: real, tuning: Tuning) returns (offset: real)
    ensures offset == OffsetAt(rows, f, now, minDelay, tuning)
  {
    if tuning.offsetFloorRatio != tuning.floorRatio {
      var floor := FloorFor(minDelay, tuning.offsetFloorRatio);
      ghost var sharp := Sharpened(rows, minDelay, floor);
      var sw, swt, swy := 0.0, 0.0, 0.0;
      for i := 0 to |rows|
        invariant sw == SumW(sharp[..i]) && swt == SumWT(sharp[..i]) && swy == SumWY(sharp[..i])
      {
        assert sharp[..i + 1][..i] == sharp[..i];
        var r := rows[i].(w := WeightFor(rows[i].delay, minDelay, floor));
        sw := sw + r.w;
        swt := swt + TermT(r);
        swy := swy + TermY(r);
      }
      assert sharp[..|rows|] == sharp;
      if sw > 0.0 {
        return swy / sw + f.b * (now - swt / sw);
      }
    }
    return f.a + f.b * (now - f.t0);
  }

  /** The whole regression over weighted rows. */
  method RegressRows(rows: seq<Row>, now: real, minDelay: real, tuning: Tuning) returns (e: Option<Estimate>)
    requires |rows| >= 3
    ensures e == Regressed(rows, now, minDelay, tuning)
  {
    hide Narrowed, HistoryTrimmed, SpikesTrimmed, OffsetAt, Variance, LeastSquares;
    var first := WlsFit(rows);
    if first.None? {
      return None;
    }
    var narrowed := AdaptWindow(rows, first.value, now, tuning.adaptive);
    if narrowed.None? {
      return None;
    }
    var (used, fit) := narrowed.value;
    used, fit := TrimHistory(used, fit, tuning.trims);
    used, fit := TrimSpikes(used, fit);
    var span := if used == [] then 0.0 else Max(used[|used| - 1].t - used[0].t, 0.0);
    var freqPpm := if |used| >= FREQ_MIN_SAMPLES && span >= FREQ_MIN_SPAN then Some(fit.b * 1000000.0) else None;
    var offset := SharpOffset(used, fit, now, minDelay, tuning);
    var variance := ResidualVariance(used, fit);
    return Some(Estimate(offset, freqPpm, variance, |used|, span));
  }
}
