/**
 The weighted line through a window of samples: what it minimises, and how it moves
 when the clock the samples were taken against is corrected.
 */
module LineFit {
  import opened Wrappers
  import opened Reals

  /** A sample as the passes read it, with its weight. */
  datatype Row = Row(t: real, offset: real, delay: real, w: real)

  /** A line `a + b * (t - t0)` with its leverage and total weight. */
  datatype Fit = Fit(a: real, b: real, t0: real, sxx: real, sw: real)

  /** Below this spread of the sample times the slope is not trusted. */
  const SXX_MIN: real := 0.000000000001

  function At(f: Fit, t: real): real {
    f.a + f.b * (t - f.t0)
  }

  // ----- weighted sums -----

  function SumW(rows: seq<Row>): real {
    if rows == [] then 0.0 else SumW(rows[..|rows| - 1]) + rows[|rows| - 1].w
  }

  function TermT(r: Row): real {
    r.w * r.t
  }

  function TermY(r: Row): real {
    r.w * r.offset
  }

  function SumWT(rows: seq<Row>): real {
    if rows == [] then 0.0 else SumWT(rows[..|rows| - 1]) + TermT(rows[|rows| - 1])
  }

  function SumWY(rows: seq<Row>): real {
    if rows == [] then 0.0 else SumWY(rows[..|rows| - 1]) + TermY(rows[|rows| - 1])
  }

  function TermXX(r: Row, t0: real): real {
    r.w * (r.t - t0) * (r.t - t0)
  }

  function TermXY(r: Row, t0: real): real {
    r.w * (r.t - t0) * r.offset
  }

  function SumXX(rows: seq<Row>, t0: real): real {
    if rows == [] then 0.0 else SumXX(rows[..|rows| - 1], t0) + TermXX(rows[|rows| - 1], t0)
  }

  function SumXY(rows: seq<Row>, t0: real): real {
    if rows == [] then 0.0 else SumXY(rows[..|rows| - 1], t0) + TermXY(rows[|rows| - 1], t0)
  }

  /** The weighted squared residuals of the line `alpha + beta * (t - t0)`. */
  function TermLoss(r: Row, alpha: real, beta: real, t0: real): real {
    r.w * (r.offset - (alpha + beta * (r.t - t0))) * (r.offset - (alpha + beta * (r.t - t0)))
  }

  function Loss(rows: seq<Row>, alpha: real, beta: real, t0: real): real {
    if rows == [] then 0.0 else Loss(rows[..|rows| - 1], alpha, beta, t0) + TermLoss(rows[|rows| - 1], alpha, beta, t0)
  }

  // ----- the fit -----

  /** The fit from its sums. */
  function FitOf(sw: real, swt: real, sxx: real, sxy: real, sy: real): Fit
    requires sw > 0.0
  {
    Fit(sy / sw, if sxx > SXX_MIN then sxy / sxx else 0.0, swt / sw, sxx, sw)
  }

  function NormalEquations(rows: seq<Row>): Option<Fit> {
    if |rows| < 2 || SumW(rows) <= 0.0 then None
    else
      var t0 := SumWT(rows) / SumW(rows);
      Some(FitOf(SumW(rows), SumWT(rows), SumXX(rows, t0), SumXY(rows, t0), SumWY(rows)))
  }

  /**
   The fit, `depth` removes away from its sums: the passes of the regression are
   compared without looking into it, and LeastSquaresMeans opens it.
   */
  function Through(depth: nat, rows: seq<Row>): Option<Fit> {
    if depth == 0 then NormalEquations(rows) else Through(depth - 1, rows)
  }

  function LeastSquares(rows: seq<Row>): Option<Fit> {
    Through(3, rows)
  }

  lemma LeastSquaresMeans(rows: seq<Row>)
    ensures LeastSquares(rows) == NormalEquations(rows)
  {
    assert Through(1, rows) == NormalEquations(rows);
    assert Through(3, rows) == Through(1, rows);
  }

  /** The two accumulator passes. */
  method WlsFit(rows: seq<Row>) returns (fit: Option<Fit>)
    ensures fit == LeastSquares(rows)
  {
    LeastSquaresMeans(rows);
    var n := |rows|;
    if n < 2 {
      return None;
    }
    var sw, swt := 0.0, 0.0;
    for i := 0 to n
      invariant sw == SumW(rows[..i]) && swt == SumWT(rows[..i])
    {
      assert rows[..i + 1][..i] == rows[..i];
      sw := sw + rows[i].w;
      swt := swt + TermT(rows[i]);
    }
    assert rows[..n] == rows;
    if sw <= 0.0 {
      return None;
    }
    fit := FitAbout(rows, swt / sw, sw, swt);
  }

  /** The second pass, about the mean time. */
  method FitAbout(rows: seq<Row>, t0: real, sw: real, swt: real) returns (fit: Option<Fit>)
    requires |rows| >= 2 && sw == SumW(rows) > 0.0 && swt == SumWT(rows) && t0 == swt / sw
    ensures fit == LeastSquares(rows)
  {
    LeastSquaresMeans(rows);
    var sxx, sxy, sy := 0.0, 0.0, 0.0;
    for i := 0 to |rows|
      invariant sxx == SumXX(rows[..i], t0) && sxy == SumXY(rows[..i], t0) && sy == SumWY(rows[..i])
    {
      assert rows[..i + 1][..i] == rows[..i];
      sxx := sxx + TermXX(rows[i], t0);
      sxy := sxy + TermXY(rows[i], t0);
      sy := sy + TermY(rows[i]);
    }
    assert rows[..|rows|] == rows;
    var b := if sxx > SXX_MIN then sxy / sxx else 0.0;
    var a := sy / sw;
    return Some(Fit(a, b, t0, sxx, sw));
  }

  // ----- it minimises -----

  /** The sums a loss is made of. */
  datatype Sums = Sums(w: real, x: real, xx: real, y: real, xy: real, yy: real)

  function LossOf(s: Sums, alpha: real, beta: real): real {
    s.yy - 2.0 * alpha * s.y - 2.0 * beta * s.xy + alpha * alpha * s.w + 2.0 * alpha * beta * s.x + beta * beta * s.xx
  }

  function Grown(s: Sums, r: Row, t0: real): Sums {
    var x := r.t - t0;
    Sums(s.w + r.w, s.x + r.w * x, s.xx + TermXX(r, t0), s.y + TermY(r), s.xy + TermXY(r, t0),
         s.yy + r.w * r.offset * r.offset)
  }

  function SumsOf(rows: seq<Row>, t0: real): Sums {
    if rows == [] then Sums(0.0, 0.0, 0.0, 0.0, 0.0, 0.0)
    else Grown(SumsOf(rows[..|rows| - 1], t0), rows[|rows| - 1], t0)
  }

  lemma LossGrows(s: Sums, r: Row, t0: real, alpha: real, beta: real)
    ensures LossOf(Grown(s, r, t0), alpha, beta) == LossOf(s, alpha, beta) + TermLoss(r, alpha, beta, t0)
  {
  }

  lemma MomentGrows(r: Row, t0: real, swt: real, sw: real)
    ensures swt - t0 * sw + r.w * (r.t - t0) == (swt + TermT(r)) - t0 * (sw + r.w)
  {
  }

  lemma {:induction false} SumsMeaning(rows: seq<Row>, t0: real)
    ensures var s := SumsOf(rows, t0);
            && s.w == SumW(rows) && s.x == SumWT(rows) - t0 * SumW(rows)
            && s.xx == SumXX(rows, t0) && s.xy == SumXY(rows, t0) && s.y == SumWY(rows)
  {
    if rows != [] {
      var n := |rows| - 1;
      SumsMeaning(rows[..n], t0);
      MomentGrows(rows[n], t0, SumWT(rows[..n]), SumW(rows[..n]));
    }
  }

  lemma {:induction false} LossMeaning(rows: seq<Row>, alpha: real, beta: real, t0: real)
    ensures Loss(rows, alpha, beta, t0) == LossOf(SumsOf(rows, t0), alpha, beta)
  {
    if rows != [] {
      var n := |rows| - 1;
      LossMeaning(rows[..n], alpha, beta, t0);
      LossGrows(SumsOf(rows[..n], t0), rows[n], t0, alpha, beta);
    }
  }

  /** A weighted square. */
  function Sq(p: real, x: real): real {
    p * x * x
  }

  lemma Positive(p: real, y: real)
    requires p > 0.0 && y > 0.0
    ensures p * y > 0.0
  {
  }

  lemma SquarePositive(p: real, x: real)
    requires p > 0.0 && x > 0.0
    ensures Sq(p, x) > 0.0
  {
    Positive(p, x);
    Positive(p * x, x);
  }

  lemma Squares(p: real, x: real)
    requires p > 0.0
    ensures Sq(p, x) >= 0.0 && (Sq(p, x) == 0.0 <==> x == 0.0)
  {
    if x > 0.0 {
      SquarePositive(p, x);
    } else if x < 0.0 {
      SquarePositive(p, -x);
      assert Sq(p, -x) == Sq(p, x);
    }
  }

  /** About the weighted mean time the loss is a sum of two independent squares. */
  lemma CompleteSquares(s: Sums, a: real, b: real, alpha: real, beta: real)
    requires s.x == 0.0 && a * s.w == s.y && (b * s.xx == s.xy || beta == b)
    ensures LossOf(s, alpha, beta)
            == LossOf(s, a, b) + Sq(s.w, alpha - a) + Sq(s.xx, beta - b)
  {
  }

  lemma MeanTime(rows: seq<Row>, t0: real)
    requires SumW(rows) > 0.0 && t0 == SumWT(rows) / SumW(rows)
    ensures SumsOf(rows, t0).x == 0.0
  {
    SumsMeaning(rows, t0);
  }

  lemma QuotientTimes(p: real, q: real)
    requires q != 0.0
    ensures (p / q) * q == p
  {
  }

  /** How much worse any other line fits. */
  lemma ExcessLoss(rows: seq<Row>, f: Fit, alpha: real, beta: real)
    requires LeastSquares(rows) == Some(f) && (f.sxx > SXX_MIN || beta == f.b)
    ensures f.sw > 0.0
    ensures Loss(rows, alpha, beta, f.t0)
            == Loss(rows, f.a, f.b, f.t0) + Sq(f.sw, alpha - f.a) + Sq(f.sxx, beta - f.b)
  {
    LeastSquaresMeans(rows);
    SumsMeaning(rows, f.t0);
    MeanTime(rows, f.t0);
    QuotientTimes(SumWY(rows), SumW(rows));
    if f.sxx > SXX_MIN {
      QuotientTimes(SumXY(rows, f.t0), f.sxx);
    }
    LossMeaning(rows, alpha, beta, f.t0);
    LossMeaning(rows, f.a, f.b, f.t0);
    CompleteSquares(SumsOf(rows, f.t0), f.a, f.b, alpha, beta);
  }

  /** The same line about another time. */
  lemma {:induction false} Rebase(rows: seq<Row>, alpha: real, beta: real, t0: real, t1: real)
    ensures Loss(rows, alpha, beta, t0) == Loss(rows, alpha + beta * (t1 - t0), beta, t1)
  {
    if rows != [] {
      Rebase(rows[..|rows| - 1], alpha, beta, t0, t1);
      RebaseTerm(rows[|rows| - 1], alpha, beta, t0, t1);
    }
  }

  lemma RebaseTerm(r: Row, alpha: real, beta: real, t0: real, t1: real)
    ensures TermLoss(r, alpha, beta, t0) == TermLoss(r, alpha + beta * (t1 - t0), beta, t1)
  {
  }

  /**
   Where the sample times are spread enough, the fit is the one line that minimises
   the weighted squared residuals: every line `p + q * t` loses at least as much, and
   loses as much only if it is the same line.
   */
  lemma FitIsLeast(rows: seq<Row>, f: Fit, p: real, q: real)
    requires LeastSquares(rows) == Some(f) && f.sxx > SXX_MIN
    ensures Loss(rows, p, q, 0.0) >= Loss(rows, f.a, f.b, f.t0)
    ensures Loss(rows, p, q, 0.0) == Loss(rows, f.a, f.b, f.t0) <==> q == f.b && p + q * f.t0 == f.a
  {
    LeastSquaresMeans(rows);
    var alpha := p + q * (f.t0 - 0.0);
    Rebase(rows, p, q, 0.0, f.t0);
    ExcessLoss(rows, f, alpha, q);
    Squares(f.sw, alpha - f.a);
    Squares(f.sxx, q - f.b);
  }

  /** Otherwise it is the one horizontal line that does. */
  lemma FlatFitIsLeast(rows: seq<Row>, f: Fit, p: real)
    requires LeastSquares(rows) == Some(f) && f.sxx <= SXX_MIN
    ensures f.b == 0.0 && Loss(rows, p, 0.0, f.t0) >= Loss(rows, f.a, 0.0, f.t0)
    ensures Loss(rows, p, 0.0, f.t0) == Loss(rows, f.a, 0.0, f.t0) <==> p == f.a
  {
    LeastSquaresMeans(rows);
    ExcessLoss(rows, f, p, 0.0);
    Squares(f.sw, p - f.a);
  }

  // ----- the intercept on other weights -----

  /** The value at `now` of the line of slope `b` through the weighted mean point. */
  function Reseated(rows: seq<Row>, b: real, now: real): real
    requires SumW(rows) > 0.0
  {
    SumWY(rows) / SumW(rows) + b * (now - SumWT(rows) / SumW(rows))
  }

  /** Of all lines of slope `b` it is the one that minimises the residuals on these weights. */
  lemma ReseatedIsLeast(rows: seq<Row>, b: real, now: real, c: real)
    requires SumW(rows) > 0.0
    ensures Loss(rows, c, b, now) >= Loss(rows, Reseated(rows, b, now), b, now)
    ensures Loss(rows, c, b, now) == Loss(rows, Reseated(rows, b, now), b, now) <==> c == Reseated(rows, b, now)
  {
    var w := SumW(rows);
    var t0, a := SumWT(rows) / w, SumWY(rows) / w;
    var best := Reseated(rows, b, now);
    Rebase(rows, c, b, now, t0);
    Rebase(rows, best, b, now, t0);
    assert best + b * (t0 - now) == a;
    SumsMeaning(rows, t0);
    MeanTime(rows, t0);
    QuotientTimes(SumWY(rows), w);
    LossMeaning(rows, c + b * (t0 - now), b, t0);
    LossMeaning(rows, a, b, t0);
    CompleteSquares(SumsOf(rows, t0), a, b, c + b * (t0 - now), b);
    Squares(w, c + b * (t0 - now) - a);
  }

  // ----- when the clock is corrected -----

  /** What a correction of `d` at `tc` with a change of rate from there takes off an offset measured at `t`. */
  function Shift(t: real, tc: real, rate: real, d: real): real {
    d + rate * (t - tc)
  }

  function SlewedRow(r: Row, tc: real, rate: real, d: real): Row {
    r.(offset := r.offset - Shift(r.t, tc, rate, d))
  }

  function Slewed(rows: seq<Row>, tc: real, rate: real, d: real): (s: seq<Row>)
    ensures |s| == |rows| && forall i | 0 <= i < |rows| :: s[i] == SlewedRow(rows[i], tc, rate, d)
  {
    seq(|rows|, i requires 0 <= i < |rows| => SlewedRow(rows[i], tc, rate, d))
  }

  /** The fit as the correction moves it. */
  function SlewedFit(f: Fit, tc: real, rate: real, d: real): Fit {
    f.(a := f.a - Shift(f.t0, tc, rate, d), b := f.b - rate)
  }

  lemma SlewTerms(r: Row, t0: real, tc: real, rate: real, d: real)
    ensures var r' := SlewedRow(r, tc, rate, d);
            && TermT(r') == TermT(r) && TermXX(r', t0) == TermXX(r, t0)
            && TermY(r') == TermY(r) - d * r.w - rate * (TermT(r) - tc * r.w)
            && TermXY(r', t0) == TermXY(r, t0) - Shift(t0, tc, rate, d) * (TermT(r) - t0 * r.w) - rate * TermXX(r, t0)
  {
  }

  /** How a correction moves the sums. */
  ghost predicate SumsMoved(w: real, wt: real, xx: real, y: real, xy: real, y': real, xy': real, t0: real, tc: real,
                            rate: real, d: real)
  {
    && y' == y - d * w - rate * (wt - tc * w)
    && xy' == xy - Shift(t0, tc, rate, d) * (wt - t0 * w) - rate * xx
  }

  lemma MoveOn(w: real, wt: real, xx: real, y: real, xy: real, y': real, xy': real,
               r: Row, t0: real, tc: real, rate: real, d: real)
    requires SumsMoved(w, wt, xx, y, xy, y', xy', t0, tc, rate, d)
    ensures var s := SlewedRow(r, tc, rate, d);
            SumsMoved(w + r.w, wt + TermT(r), xx + TermXX(r, t0), y + TermY(r), xy + TermXY(r, t0),
                      y' + TermY(s), xy' + TermXY(s, t0), t0, tc, rate, d)
  {
    SlewTerms(r, t0, tc, rate, d);
  }

  lemma {:induction false} SlewedSums(rows: seq<Row>, t0: real, tc: real, rate: real, d: real)
    ensures var s := Slewed(rows, tc, rate, d);
            && SumW(s) == SumW(rows) && SumWT(s) == SumWT(rows) && SumXX(s, t0) == SumXX(rows, t0)
            && SumsMoved(SumW(rows), SumWT(rows), SumXX(rows, t0), SumWY(rows), SumXY(rows, t0),
                         SumWY(s), SumXY(s, t0), t0, tc, rate, d)
  {
    if rows != [] {
      var n := |rows| - 1;
      SlewedSums(rows[..n], t0, tc, rate, d);
      var s := Slewed(rows, tc, rate, d);
      assert s[..n] == Slewed(rows[..n], tc, rate, d);
      SlewTerms(rows[n], t0, tc, rate, d);
      MoveOn(SumW(rows[..n]), SumWT(rows[..n]), SumXX(rows[..n], t0), SumWY(rows[..n]), SumXY(rows[..n], t0),
             SumWY(s[..n]), SumXY(s[..n], t0), rows[n], t0, tc, rate, d);
    }
  }

  lemma MovedQuotients(w: real, wt: real, xx: real, y: real, xy: real, y': real, xy': real, t0: real, tc: real,
                       rate: real, d: real)
    requires SumsMoved(w, wt, xx, y, xy, y', xy', t0, tc, rate, d) && w > 0.0 && t0 == wt / w
    ensures y' / w == y / w - Shift(t0, tc, rate, d)
    ensures xx > 0.0 ==> xy' / xx == xy / xx - rate
  {
    assert t0 * w == wt;
    assert y' == (y / w - Shift(t0, tc, rate, d)) * w;
    if xx > 0.0 {
      assert xy' == (xy / xx - rate) * xx;
    }
  }

  /**
   Fitting commutes with a correction if and only if there is no change of rate or the
   sample times are spread enough for a slope.
   */
  lemma FitOfSlewed(rows: seq<Row>, tc: real, rate: real, d: real)
    ensures LeastSquares(rows).None? <==> LeastSquares(Slewed(rows, tc, rate, d)).None?
    ensures LeastSquares(rows).Some? ==>
              var f := LeastSquares(rows).value;
              LeastSquares(Slewed(rows, tc, rate, d)) == Some(SlewedFit(f, tc, rate, d))
              <==> rate == 0.0 || f.sxx > SXX_MIN
  {
    LeastSquaresMeans(rows);
    LeastSquaresMeans(Slewed(rows, tc, rate, d));
    SlewedSums(rows, 0.0, tc, rate, d);
    if LeastSquares(rows).Some? {
      var f := LeastSquares(rows).value;
      var s := Slewed(rows, tc, rate, d);
      SlewedSums(rows, f.t0, tc, rate, d);
      MovedQuotients(SumW(rows), SumWT(rows), SumXX(rows, f.t0), SumWY(rows), SumXY(rows, f.t0),
                     SumWY(s), SumXY(s, f.t0), f.t0, tc, rate, d);
    }
  }
}
