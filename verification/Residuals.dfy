/**
 The tests the regression puts to the residuals of a fit: are their signs well mixed,
 do the two halves of the window disagree, and does a single one stand out.
 */
module Residuals {
  import opened Wrappers
  import opened Reals
  import opened StableSort
  import opened LineFit

  function Residual(r: Row, f: Fit): real {
    r.offset - At(f, r.t)
  }

  function ResidualsOf(rows: seq<Row>, f: Fit): (res: seq<real>)
    ensures |res| == |rows| && forall i | 0 <= i < |rows| :: res[i] == Residual(rows[i], f)
  {
    seq(|rows|, i requires 0 <= i < |rows| => Residual(rows[i], f))
  }

  function Magnitudes(xs: seq<real>): (ys: seq<real>)
    ensures |ys| == |xs| && forall i | 0 <= i < |xs| :: ys[i] == Abs(xs[i])
  {
    seq(|xs|, i requires 0 <= i < |xs| => Abs(xs[i]))
  }

  // ----- runs of sign -----

  predicate Above(x: real) {
    x > 0.0
  }

  /** How many runs of like-signed residuals there are. */
  function Runs(res: seq<real>): (n: nat)
    ensures n <= |res|
  {
    if res == [] then 0
    else
      var n := |res| - 1;
      Runs(res[..n]) + (if n == 0 || Above(res[n]) != Above(res[n - 1]) then 1 else 0)
  }

  lemma RunsStep(res: seq<real>, i: nat)
    requires i < |res|
    ensures Runs(res[..i + 1]) == Runs(res[..i]) + (if i == 0 || Above(res[i]) != Above(res[i - 1]) then 1 else 0)
  {
    assert res[..i + 1][..i] == res[..i];
  }

  /** The runs reach a third of the window. */
  predicate WellMixed(res: seq<real>) {
    res != [] && 3 * Runs(res) >= |res|
  }

  lemma {:induction false} RunsGrow(res: seq<real>, m: nat)
    requires m <= |res|
    ensures Runs(res[..m]) <= Runs(res)
  {
    if m == |res| {
      assert res[..m] == res;
    } else {
      assert res[..|res| - 1][..m] == res[..m];
      RunsGrow(res[..|res| - 1], m);
    }
  }

  lemma RunsNone(res: seq<real>)
    ensures Runs(res[..0]) == 0
  {
  }

  /** Count runs until the answer is known. */
  method ResidualsWellMixed(rows: seq<Row>, f: Fit) returns (mixed: bool)
    ensures mixed == WellMixed(ResidualsOf(rows, f))
  {
    hide Runs, Residual;
    ghost var res := ResidualsOf(rows, f);
    var need := |rows|;
    var runs, lastSign := 0, 0;
    RunsNone(res);
    for i := 0 to |rows|
      invariant runs == Runs(res[..i]) && (i > 0 ==> 3 * runs < need)
      invariant lastSign == if i == 0 then 0 else if Above(res[i - 1]) then 1 else -1
    {
      RunsStep(res, i);
      var sign := if Above(Residual(rows[i], f)) then 1 else -1;
      if sign != lastSign {
        runs := runs + 1;
        lastSign := sign;
        if runs * 3 >= need {
          RunsGrow(res, i + 1);
          return true;
        }
      }
    }
    assert res[..|rows|] == res;
    return false;
  }

  // ----- the two halves, and the scale -----

  predicate RealLeq(a: real, b: real) {
    a <= b
  }

  /** The element a selection places at `k`. */
  function Nth(xs: seq<real>, k: nat): real
    requires k < |xs|
  {
    Sorted(xs, RealLeq)[k]
  }

  function Mean(xs: seq<real>): real {
    if xs == [] then 0.0 else Total(xs) / |xs| as real
  }

  /** How far apart the mean residuals of the older and the newer half are. */
  function HalfGap(res: seq<real>): real {
    Abs(Mean(res[..|res| / 2]) - Mean(res[|res| / 2..]))
  }

  /** The median of the magnitudes. */
  function Median(res: seq<real>): real {
    if res == [] then 0.0 else Nth(Magnitudes(res), |res| / 2)
  }

  method Sum(xs: seq<real>) returns (sum: real)
    ensures sum == Total(xs)
  {
    sum := 0.0;
    for i := 0 to |xs|
      invariant sum == Total(xs[..i])
    {
      assert xs[..i + 1][..i] == xs[..i];
      sum := sum + xs[i];
    }
    assert xs[..|xs|] == xs;
  }

  method HalfGapAndMad(rows: seq<Row>, f: Fit) returns (gap: real, mad: real)
    ensures gap == HalfGap(ResidualsOf(rows, f)) && mad == Median(ResidualsOf(rows, f))
  {
    var n := |rows|;
    if n == 0 {
      return 0.0, 0.0;
    }
    var half := n / 2;
    var res := ResidualsOf(rows, f);
    var sumOld := Sum(res[..half]);
    var sumNew := Sum(res[half..]);
    var meanOld := if half == 0 then 0.0 else sumOld / half as real;
    var meanNew := if n == half then 0.0 else sumNew / (n - half) as real;
    gap := Abs(meanOld - meanNew);
    mad := Nth(Magnitudes(res), n / 2);
  }

  /** The halves disagree by more than three robust deviations, and the signs do not mix. */
  predicate RegimeChange(res: seq<real>) {
    !WellMixed(res) && HalfGap(res) > 3.0 * Max(1.4826 * Median(res), 0.000000001)
  }

  // ----- the spike threshold -----

  /** The largest of the first `m` values, or zero. */
  function Worst(xs: seq<real>, m: nat): real
    requires m <= |xs|
  {
    if m == 0 then 0.0 else if xs[m - 1] > Worst(xs, m - 1) then xs[m - 1] else Worst(xs, m - 1)
  }

  /** The newest three are never dropped. */
  function Droppable(n: nat): nat {
    if n < 3 then 0 else n - 3
  }

  function Scaled(v: real): real {
    3.0 * 1.4826 * v
  }

  /** Three robust deviations, if the worst droppable magnitude exceeds them. */
  function SpikeThreshold(mags: seq<real>): Option<real> {
    if mags == [] then None
    else
      var bound := Max(Scaled(Nth(mags, |mags| / 2)), 0.000000001);
      if Worst(mags, Droppable(|mags|)) > bound then Some(bound) else None
  }

  function CountBelow(xs: seq<real>, bound: real): (n: nat)
    ensures n <= |xs|
  {
    if xs == [] then 0 else CountBelow(xs[..|xs| - 1], bound) + (if Scaled(xs[|xs| - 1]) < bound then 1 else 0)
  }

  lemma {:induction false} CountParts(a: seq<real>, b: seq<real>, bound: real)
    ensures CountBelow(a + b, bound) == CountBelow(a, bound) + CountBelow(b, bound)
  {
    if b == [] {
      assert a + b == a;
    } else {
      assert (a + b)[..|a + b| - 1] == a + b[..|b| - 1];
      CountParts(a, b[..|b| - 1], bound);
    }
  }

  lemma CountLessOne(xs: seq<real>, i: nat, bound: real)
    requires i < |xs|
    ensures CountBelow(xs, bound) == CountBelow(xs[..i] + xs[i + 1..], bound) + (if Scaled(xs[i]) < bound then 1 else 0)
    ensures multiset(xs[..i] + xs[i + 1..]) == multiset(xs) - multiset{xs[i]}
  {
    var l, m, r := xs[..i], [xs[i]], xs[i + 1..];
    assert xs == (l + m) + r;
    CountParts(l + m, r, bound);
    CountParts(l, m, bound);
    CountParts(l, r, bound);
    assert m[..0] == [];
  }

  lemma {:induction false} CountPermutation(a: seq<real>, b: seq<real>, bound: real)
    requires multiset(a) == multiset(b)
    ensures CountBelow(a, bound) == CountBelow(b, bound)
    decreases |a|
  {
    if a == [] {
      assert |b| == |multiset(b)| == 0;
    } else {
      var n := |a| - 1;
      assert a[n] in multiset(b);
      var i :| 0 <= i < |b| && b[i] == a[n];
      CountLessOne(b, i, bound);
      CountLessOne(a, n, bound);
      CountPermutation(a[..n] + a[n + 1..], b[..i] + b[i + 1..], bound);
    }
  }

  lemma {:induction false} CountAll(xs: seq<real>, bound: real, all: bool)
    requires forall i | 0 <= i < |xs| :: Scaled(xs[i]) < bound <==> all
    ensures CountBelow(xs, bound) == if all then |xs| else 0
  {
    if xs != [] {
      CountAll(xs[..|xs| - 1], bound, all);
    }
  }

  lemma CountSorted(s: seq<real>, mid: nat, bound: real)
    requires mid < |s| && Ascending(s, RealLeq)
    ensures CountBelow(s, bound) >= mid + 1 <==> Scaled(s[mid]) < bound
  {
    var below := Scaled(s[mid]) < bound;
    var cut := if below then mid + 1 else mid;
    assert s == s[..cut] + s[cut..];
    CountParts(s[..cut], s[cut..], bound);
    forall i | 0 <= i < |s| && i != mid
      ensures if i < mid then s[i] <= s[mid] else s[mid] <= s[i]
    {
      assert if i < mid then RealLeq(s[i], s[mid]) else RealLeq(s[mid], s[i]);
    }
    if below {
      CountAll(s[..cut], bound, true);
    } else {
      CountAll(s[cut..], bound, false);
    }
  }

  /** The scaled median is below a bound exactly when more than half of the scaled values are. */
  lemma CountingFindsMedian(mags: seq<real>, bound: real)
    requires mags != []
    ensures CountBelow(mags, bound) >= |mags| / 2 + 1 <==> Scaled(Nth(mags, |mags| / 2)) < bound
  {
    SortedAscends(mags, RealLeq);
    CountPermutation(Sorted(mags, RealLeq), mags, bound);
    CountSorted(Sorted(mags, RealLeq), |mags| / 2, bound);
  }

  /** Decide by counting; select the median only where it will be used. */
  method SpikeThresholdFrom(mags: seq<real>) returns (threshold: Option<real>)
    ensures threshold == SpikeThreshold(mags)
  {
    var n := |mags|;
    var droppable := Droppable(n);
    var worst := 0.0;
    for i := 0 to droppable
      invariant worst == Worst(mags, i)
    {
      if mags[i] > worst {
        worst := mags[i];
      }
    }
    if worst <= 0.000000001 {
      return None;
    }
    var mid, below := n / 2, 0;
    for i := 0 to n
      invariant below == CountBelow(mags[..i], worst)
    {
      assert mags[..i + 1][..i] == mags[..i];
      if Scaled(mags[i]) < worst {
        below := below + 1;
      }
    }
    assert mags[..n] == mags;
    CountingFindsMedian(mags, worst);
    if below < mid + 1 {
      return None;
    }
    return Some(Max(Scaled(Nth(mags, mid)), 0.000000001));
  }

  // ----- the keep mask -----

  predicate BitAt(mask: bv64, k: bv7)
    requires k < 64
  {
    mask & (1 << k) != 0
  }

  predicate Bit(mask: bv64, i: nat)
    requires i < 64
  {
    NarrowIsFaithful(i, i);
    BitAt(mask, i as bv7)
  }

  lemma NarrowIsFaithful(i: nat, j: nat)
    requires i < 64 && j < 64
    ensures i as bv7 < 64
    ensures i as bv7 == j as bv7 <==> i == j
  {
    assert (i as bv7) as nat == i && (j as bv7) as nat == j;
  }

  lemma SetBitAt(mask: bv64, k: bv7, l: bv7)
    requires k < 64 && l < 64
    ensures BitAt(mask | (1 << k), l) <==> k == l || BitAt(mask, l)
  {
  }

  function WithBit(mask: bv64, i: nat): bv64
    requires i < 64
  {
    NarrowIsFaithful(i, i);
    mask | (1 << (i as bv7))
  }

  lemma SetBit(mask: bv64, i: nat, j: nat)
    requires i < 64 && j < 64
    ensures Bit(WithBit(mask, i), j) <==> i == j || Bit(mask, j)
  {
    NarrowIsFaithful(i, j);
    NarrowIsFaithful(j, j);
    SetBitAt(mask, i as bv7, j as bv7);
  }

  /** Is row `i` of `n` kept: one of the newest three, or within the threshold? */
  predicate Keeps(mags: seq<real>, threshold: real, i: nat)
    requires i < |mags|
  {
    i >= |mags| - 3 || mags[i] <= threshold
  }

  /** The spike threshold and, for windows of at most 64 rows, which rows it keeps as a word. */
  method SpikeKeepMask(rows: seq<Row>, f: Fit) returns (r: Option<(real, Option<bv64>)>)
    ensures r.None? <==> SpikeThreshold(Magnitudes(ResidualsOf(rows, f))).None?
    ensures r.Some? ==>
              var mags := Magnitudes(ResidualsOf(rows, f));
              && SpikeThreshold(mags) == Some(r.value.0)
              && (r.value.1.Some? <==> |rows| <= 64)
              && (r.value.1.Some? ==>
                    forall i | 0 <= i < |rows| :: Bit(r.value.1.value, i) <==> Keeps(mags, r.value.0, i))
  {
    var n := |rows|;
    var mags := Magnitudes(ResidualsOf(rows, f));
    if n == 0 {
      return None;
    }
    var found := SpikeThresholdFrom(mags);
    if found.None? {
      return None;
    }
    var threshold := found.value;
    if n > 64 {
      return Some((threshold, None));
    }
    var protectFrom := n - 3;
    var keep: bv64 := 0;
    for i := 0 to n
      invariant forall j | 0 <= j < 64 :: Bit(keep, j) <==> j < i && Keeps(mags, threshold, j)
    {
      if i >= protectFrom || mags[i] <= threshold {
        ghost var before := keep;
        keep := WithBit(keep, i);
        forall j | 0 <= j < 64
          ensures Bit(keep, j) <==> i == j || Bit(before, j)
        {
          SetBit(before, i, j);
        }
      }
    }
    return Some((threshold, Some(keep)));
  }

  /** The rows a threshold keeps, of the first `m`. */
  function Kept(rows: seq<Row>, mags: seq<real>, threshold: real, m: nat): seq<Row>
    requires m <= |rows| == |mags|
  {
    if m == 0 then []
    else Kept(rows, mags, threshold, m - 1) + (if Keeps(mags, threshold, m - 1) then [rows[m - 1]] else [])
  }

  /** Filter by the word where there is one and by the residuals otherwise: the same rows. */
  method KeepRows(rows: seq<Row>, f: Fit, threshold: real, mask: Option<bv64>) returns (kept: seq<Row>)
    requires |rows| >= 3 && (mask.Some? ==> |rows| <= 64)
    requires mask.Some? ==>
               forall i | 0 <= i < |rows| :: Bit(mask.value, i)
                 <==> Keeps(Magnitudes(ResidualsOf(rows, f)), threshold, i)
    ensures kept == Kept(rows, Magnitudes(ResidualsOf(rows, f)), threshold, |rows|)
  {
    ghost var mags := Magnitudes(ResidualsOf(rows, f));
    var protectFrom := |rows| - 3;
    kept := [];
    for i := 0 to |rows|
      invariant kept == Kept(rows, mags, threshold, i)
    {
      var keep;
      if mask.Some? {
        keep := Bit(mask.value, i);
      } else {
        keep := i >= protectFrom || Abs(Residual(rows[i], f)) <= threshold;
      }
      if keep {
        kept := kept + [rows[i]];
      }
    }
  }
}
