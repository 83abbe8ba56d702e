/**
 The regression over a window of samples, as functions: which rows it ends up using,
 and what it concludes from them. Method Regress in module RegressionPasses computes it.
 */
module Regression {
  import opened Wrappers
  import opened Reals
  import opened LineFit
  import opened Residuals

  /** `trims` is how often the history may be trimmed. */
  datatype Tuning = Tuning(adaptive: bool, floorRatio: real, offsetFloorRatio: real, trims: nat)

  /** `variance` is the square of the residual standard deviation. */
  datatype Estimate = Estimate(offset: real, freqPpm: Option<real>, variance: real, used: nat, span: real)

  const MIN_ADAPTIVE: nat := 8
  const FREQ_MIN_SPAN: real := 8.0
  const FREQ_MIN_SAMPLES: nat := 4

  // ----- dispersion -----

  function TermRR(r: Row, f: Fit): real {
    Sq(r.w, Residual(r, f))
  }

  function SumRR(rows: seq<Row>, f: Fit): real {
    if rows == [] then 0.0 else SumRR(rows[..|rows| - 1], f) + TermRR(rows[|rows| - 1], f)
  }

  /** From the total weight and the weighted squares of `n` residuals. */
  function Spread(sw: real, sr: real, n: nat): real {
    if sw <= 0.0 then 0.0 else sr / sw * n as real / Max(n as real - 2.0, 1.0)
  }

  function Variance(rows: seq<Row>, f: Fit): real {
    Spread(SumW(rows), SumRR(rows, f), |rows|)
  }

  // ----- the adaptive window -----

  predicate Usable(f: Fit) {
    f.sxx > 0.0 && f.sw > 0.0
  }

  /** A dispersion carried to `dt` away from the mean time. */
  function Levered(variance: real, sw: real, sxx: real, dt: real): real
    requires sw > 0.0 && sxx > 0.0
  {
    variance * (1.0 / sw + dt * dt / sxx)
  }

  /** The variance of the offset a fit predicts at `now`. */
  function PredictionVariance(rows: seq<Row>, f: Fit, now: real): real
    requires Usable(f)
  {
    Levered(Variance(rows, f), f.sw, f.sxx, now - f.t0)
  }

  /** No variance at all stands for an infinite one. */
  function Judged(rows: seq<Row>, fit: Option<Fit>, now: real): Option<real> {
    if fit.Some? && Usable(fit.value) then Some(PredictionVariance(rows, fit.value, now)) else None
  }

  predicate Better(v: Option<real>, best: Option<real>) {
    v.Some? && (best.None? || v.value < best.value)
  }

  function Tail(rows: seq<Row>, len: nat): seq<Row> {
    if len <= |rows| then rows[|rows| - len..] else rows
  }

  /** Try ever longer tails; keep the one that predicts best, the whole window where none beats it. */
  function ChooseLen(rows: seq<Row>, now: real, len: nat, best: Option<real>, bestLen: nat): (n: nat)
    requires 0 < len
    ensures n == bestLen || len <= n < |rows|
    decreases |rows| - len
  {
    if len >= |rows| then bestLen
    else
      var v := Judged(Tail(rows, len), LeastSquares(Tail(rows, len)), now);
      if Better(v, best) then ChooseLen(rows, now, 2 * len, v, len)
      else ChooseLen(rows, now, 2 * len, best, bestLen)
  }

  function Narrowed(rows: seq<Row>, f: Fit, now: real, adaptive: bool): Option<(seq<Row>, Fit)> {
    if !adaptive || |rows| < MIN_ADAPTIVE then Some((rows, f))
    else
      var n := ChooseLen(rows, now, MIN_ADAPTIVE, Judged(rows, Some(f), now), |rows|);
      if n == |rows| then Some((rows, f))
      else
        match LeastSquares(Tail(rows, n))
        case None => None
        case Some(g) => Some((Tail(rows, n), g))
  }

  // ----- the two trims -----

  function Quarter(n: nat): nat {
    if n / 4 < 2 then 2 else n / 4
  }

  /** While two regimes show, drop the oldest quarter and refit: at most `k` times. */
  function HistoryTrimmed(rows: seq<Row>, f: Fit, k: nat): (seq<Row>, Fit) {
    if k == 0 || |rows| < 8 || !RegimeChange(ResidualsOf(rows, f)) then (rows, f)
    else
      var rest := rows[Quarter(|rows|)..];
      match LeastSquares(rest)
      case None => (rest, f)
      case Some(g) => HistoryTrimmed(rest, g, k - 1)
  }

  lemma HistoryStep(rows: seq<Row>, f: Fit, k: nat)
    requires k > 0 && |rows| >= 8 && RegimeChange(ResidualsOf(rows, f)) && LeastSquares(rows[Quarter(|rows|)..]).Some?
    ensures HistoryTrimmed(rows, f, k)
            == HistoryTrimmed(rows[Quarter(|rows|)..], LeastSquares(rows[Quarter(|rows|)..]).value, k - 1)
  {
  }

  lemma HistoryStops(rows: seq<Row>, f: Fit, k: nat)
    requires k > 0 && |rows| >= 8 && RegimeChange(ResidualsOf(rows, f)) && LeastSquares(rows[Quarter(|rows|)..]).None?
    ensures HistoryTrimmed(rows, f, k) == (rows[Quarter(|rows|)..], f)
  {
  }

  lemma HistoryStays(rows: seq<Row>, f: Fit, k: nat)
    requires k == 0 || |rows| < 8 || !RegimeChange(ResidualsOf(rows, f))
    ensures HistoryTrimmed(rows, f, k) == (rows, f)
  {
  }

  /** Drop the rows that stand out, never the three newest. */
  function SpikesTrimmed(rows: seq<Row>, f: Fit): (seq<Row>, Fit) {
    var mags := Magnitudes(ResidualsOf(rows, f));
    if |rows| <= 4 || SpikeThreshold(mags).None? then (rows, f)
    else
      var kept := Kept(rows, mags, SpikeThreshold(mags).value, |rows|);
      if 3 <= |kept| < |rows| && LeastSquares(kept).Some? then (kept, LeastSquares(kept).value) else (rows, f)
  }

  /** The rows the estimate rests on, with the fit through them. */
  function Settled(rows: seq<Row>, now: real, adaptive: bool, trims: nat): Option<(seq<Row>, Fit)> {
    if |rows| < 3 then None
    else
      match LeastSquares(rows)
      case None => None
      case Some(f) =>
        match Narrowed(rows, f, now, adaptive)
        case None => None
        case Some((r1, f1)) =>
          var (r2, f2) := HistoryTrimmed(r1, f1, trims);
          Some(SpikesTrimmed(r2, f2))
  }

  // ----- the conclusion -----

  /** The square of the share the floor has in a floor with an excess, never nothing. */
  function ShareOf(floor: real, excess: real): (w: real)
    requires floor > 0.0 && excess >= 0.0
    ensures w >= 0.000001
  {
    var q := floor / (excess + floor);
    Max(q * q, 0.000001)
  }

  /** The weight of a sample: the inverse square of its excess delay, with a floor. */
  function WeightFor(delay: real, minDelay: real, floor: real): (w: real)
    requires floor > 0.0
    ensures w >= 0.000001
  {
    ShareOf(floor, Max(delay - minDelay, 0.0))
  }

  /** The least delayed sample weighs one; the more delayed weigh less, and never nothing. */
  lemma WeightMeaning(delay: real, later: real, minDelay: real, floor: real)
    requires floor > 0.0 && minDelay <= delay <= later
    ensures WeightFor(minDelay, minDelay, floor) == 1.0
    ensures 0.000001 <= WeightFor(later, minDelay, floor) <= WeightFor(delay, minDelay, floor) <= 1.0
  {
    hide ShareOf;
    ShareShrinks(floor, 0.0, 0.0);
    ShareShrinks(floor, 0.0, delay - minDelay);
    ShareShrinks(floor, delay - minDelay, later - minDelay);
  }

  lemma ShareShrinks(floor: real, excess: real, more: real)
    requires floor > 0.0 && 0.0 <= excess <= more
    ensures ShareOf(floor, more) <= ShareOf(floor, excess) <= 1.0
    ensures excess == 0.0 ==> ShareOf(floor, excess) == 1.0
  {
    var q, r := floor / (excess + floor), floor / (more + floor);
    QuotientShrinks(floor, floor, excess + floor);
    QuotientShrinks(floor, excess + floor, more + floor);
    WholeShare(floor);
    SquareGrows(r, q);
    SquareGrows(q, 1.0);
  }

  lemma WholeShare(a: real)
    requires a > 0.0
    ensures a / a == 1.0
  {
  }

  lemma QuotientShrinks(a: real, b: real, c: real)
    requires a > 0.0 && 0.0 < b <= c
    ensures 0.0 < a / c <= a / b
  {
    var p, q := a / b, a / c;
    assert p * b == a && q * c == a;
    if q > p {
      ProductGrows(b, c, q);
      StrictProduct(p, q, b);
    } else if q <= 0.0 {
      ProductGrows(q, 0.0, c);
    }
  }

  lemma StrictProduct(p: real, q: real, b: real)
    requires p < q && b > 0.0
    ensures p * b < q * b
  {
  }

  lemma SquareGrows(x: real, y: real)
    requires 0.0 <= x <= y
    ensures x * x <= y * y
  {
    ProductGrows(x, y, x);
    ProductGrows(x, y, y);
  }

  function FloorFor(minDelay: real, ratio: real): (floor: real)
    ensures floor > 0.0
  {
    Max(minDelay * ratio, 0.000000001)
  }

  /** The same rows on the sharper weights of the offset. */
  function Sharpened(rows: seq<Row>, minDelay: real, floor: real): (s: seq<Row>)
    requires floor > 0.0
    ensures |s| == |rows|
    ensures forall i | 0 <= i < |rows| :: s[i] == rows[i].(w := WeightFor(rows[i].delay, minDelay, floor))
  {
    seq(|rows|, i requires 0 <= i < |rows| => rows[i].(w := WeightFor(rows[i].delay, minDelay, floor)))
  }

  function OffsetAt(rows: seq<Row>, f: Fit, now: real, minDelay: real, tuning: Tuning): real {
    var sharp := Sharpened(rows, minDelay, FloorFor(minDelay, tuning.offsetFloorRatio));
    if tuning.offsetFloorRatio != tuning.floorRatio && SumW(sharp) > 0.0 then Reseated(sharp, f.b, now)
    else At(f, now)
  }

  function Span(rows: seq<Row>): real {
    if rows == [] then 0.0 else Max(rows[|rows| - 1].t - rows[0].t, 0.0)
  }

  function Concluded(rows: seq<Row>, f: Fit, now: real, minDelay: real, tuning: Tuning): Estimate {
    Estimate(
      OffsetAt(rows, f, now, minDelay, tuning),
      if |rows| >= FREQ_MIN_SAMPLES && Span(rows) >= FREQ_MIN_SPAN then Some(f.b * 1000000.0) else None,
      Variance(rows, f), |rows|, Span(rows))
  }

  function Regressed(rows: seq<Row>, now: real, minDelay: real, tuning: Tuning): Option<Estimate> {
    match Settled(rows, now, tuning.adaptive, tuning.trims)
    case None => None
    case Some((used, f)) => Some(Concluded(used, f, now, minDelay, tuning))
  }

  // ----- spread -----

  /** Far enough apart for two samples of the least weight to show a slope: a millisecond and a half. */
  const LEVER: real := 0.0015

  ghost predicate Spaced(rows: seq<Row>) {
    forall i, j | 0 <= i < j < |rows| :: rows[j].t - rows[i].t >= LEVER
  }

  ghost predicate Weighty(rows: seq<Row>) {
    forall i | 0 <= i < |rows| :: rows[i].w >= 0.000001
  }

  lemma {:induction false} WeightyTotals(rows: seq<Row>)
    requires Weighty(rows)
    ensures SumW(rows) >= 0.0 && (rows != [] ==> SumW(rows) > 0.0)
  {
    if rows != [] {
      WeightyTotals(rows[..|rows| - 1]);
    }
  }

  lemma TermXXBound(w: real, x: real)
    requires w >= 0.000001
    ensures w * x * x >= 0.000001 * (x * x) >= 0.0
  {
    SquareNonNegative(x);
    ProductGrows(0.000001, w, x * x);
  }

  lemma SquareNonNegative(x: real)
    ensures x * x >= 0.0
  {
  }

  lemma ProductGrows(v: real, w: real, s: real)
    requires v <= w && s >= 0.0
    ensures v * s <= w * s
  {
  }

  lemma TermXXNonNegative(row: Row, t0: real)
    requires row.w >= 0.000001
    ensures TermXX(row, t0) >= 0.0
  {
    TermXXBound(row.w, row.t - t0);
  }

  lemma {:induction false} SumXXGrows(rows: seq<Row>, t0: real, m: nat)
    requires Weighty(rows) && m <= |rows|
    ensures 0.0 <= SumXX(rows[..m], t0) <= SumXX(rows, t0)
  {
    hide TermXX;
    if rows == [] {
      assert rows[..m] == rows;
    } else {
      var n := |rows| - 1;
      TermXXNonNegative(rows[n], t0);
      SumXXGrows(rows[..n], t0, if m <= n then m else n);
      if m <= n {
        assert rows[..n][..m] == rows[..m];
      } else {
        assert rows[..m] == rows;
      }
    }
  }

  lemma TwoApart(x: real, y: real)
    requires y - x >= LEVER
    ensures x * x + y * y >= LEVER * LEVER / 2.0
  {
    SquareNonNegative(x + y);
    ProductGrows(LEVER, y - x, LEVER);
    ProductGrows(LEVER, y - x, y - x);
    assert (x + y) * (x + y) + (y - x) * (y - x) == 2.0 * (x * x + y * y);
  }

  lemma SumXXOfTwo(rows: seq<Row>, t0: real)
    requires |rows| == 2
    ensures SumXX(rows, t0) == TermXX(rows[0], t0) + TermXX(rows[1], t0)
  {
    assert rows[..1][..0] == [];
    assert SumXX(rows[..1], t0) == SumXX(rows[..1][..0], t0) + TermXX(rows[0], t0);
  }

  lemma TermBound(r: Row, t0: real) returns (square: real)
    requires r.w >= 0.000001
    ensures square == (r.t - t0) * (r.t - t0) && TermXX(r, t0) >= 0.000001 * square
  {
    TermXXBound(r.w, r.t - t0);
    square := (r.t - t0) * (r.t - t0);
  }

  lemma TwoTerms(a: Row, b: Row, t0: real)
    requires a.w >= 0.000001 && b.w >= 0.000001 && b.t - a.t >= LEVER
    ensures TermXX(a, t0) + TermXX(b, t0) > SXX_MIN
  {
    var p := TermBound(a, t0);
    var q := TermBound(b, t0);
    TwoApart(a.t - t0, b.t - t0);
    assert p + q >= LEVER * LEVER / 2.0 && 0.000001 * (LEVER * LEVER / 2.0) > SXX_MIN;
  }

  /** Two samples a millisecond and a half apart carry leverage enough for a slope. */
  lemma SpacedIsSpread(rows: seq<Row>)
    requires Weighty(rows) && Spaced(rows) && |rows| >= 2
    ensures LeastSquares(rows).Some? && LeastSquares(rows).value.sxx > SXX_MIN
  {
    LeastSquaresMeans(rows);
    WeightyTotals(rows);
    var t0 := SumWT(rows) / SumW(rows);
    SumXXGrows(rows, t0, 2);
    SumXXOfTwo(rows[..2], t0);
    TwoTerms(rows[0], rows[1], t0);
  }
}
