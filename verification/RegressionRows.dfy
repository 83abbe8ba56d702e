/**
 Whatever the adaptive window and the two trims do, the rows the regression rests on
 are a subsequence of its window that keeps the three newest.
 */
module RegressionRows {
  import opened Wrappers
  import opened Reals
  import opened LineFit
  import opened Residuals
  import opened Regression

  function Pick(rows: seq<Row>, idx: seq<nat>): (p: seq<Row>)
    requires forall i | 0 <= i < |idx| :: idx[i] < |rows|
    ensures |p| == |idx| && forall i | 0 <= i < |idx| :: p[i] == rows[idx[i]]
  {
    seq(|idx|, i requires 0 <= i < |idx| => rows[idx[i]])
  }

  /** Positions in a window of `n`, in order. */
  ghost predicate Rising(idx: seq<nat>, n: nat) {
    && (forall i | 0 <= i < |idx| :: idx[i] < n)
    && (forall i, j | 0 <= i < j < |idx| :: idx[i] < idx[j])
  }

  lemma PickOneMore(rows: seq<Row>, idx: seq<nat>, k: nat)
    requires Rising(idx, k) && k < |rows|
    ensures Rising(idx + [k], k + 1) && Pick(rows, idx + [k]) == Pick(rows, idx) + [rows[k]]
  {
  }

  /** Of the first `m` positions those among the newest three of `n` are in. */
  ghost predicate NewestIn(idx: seq<nat>, m: nat, n: nat) {
    forall k | 0 <= k < m && k >= n - 3 :: k in idx
  }

  lemma NewestGrow(idx: seq<nat>, m: nat, n: nat)
    requires NewestIn(idx, m, n)
    ensures NewestIn(idx + [m], m + 1, n)
    ensures m < n - 3 ==> NewestIn(idx, m + 1, n)
  {
    forall k | 0 <= k < m + 1 && k >= n - 3
      ensures k in idx + [m]
    {
      if k == m {
        assert (idx + [m])[|idx|] == m;
      }
    }
  }

  lemma NewestKept(mags: seq<real>, threshold: real, k: nat)
    requires k < |mags|
    ensures k >= |mags| - 3 ==> Keeps(mags, threshold, k)
  {
  }

  lemma KeptStep(rows: seq<Row>, mags: seq<real>, threshold: real, m: nat)
    requires m < |rows| == |mags|
    ensures Kept(rows, mags, threshold, m + 1)
            == if Keeps(mags, threshold, m) then Kept(rows, mags, threshold, m) + [rows[m]]
               else Kept(rows, mags, threshold, m)
  {
    hide Keeps;
  }

  lemma NoneKept(rows: seq<Row>, mags: seq<real>, threshold: real)
    requires |rows| == |mags|
    ensures Rising([], 0) && Kept(rows, mags, threshold, 0) == Pick(rows, []) && NewestIn([], 0, |rows|)
  {
  }

  /** Where the kept rows are. */
  lemma {:induction false} KeptAt(rows: seq<Row>, mags: seq<real>, threshold: real, m: nat) returns (idx: seq<nat>)
    requires m <= |rows| == |mags|
    ensures Rising(idx, m) && Kept(rows, mags, threshold, m) == Pick(rows, idx)
    ensures NewestIn(idx, m, |rows|)
  {
    hide Keeps, Pick, Rising, NewestIn, Kept;
    if m == 0 {
      NoneKept(rows, mags, threshold);
      return [];
    }
    var shorter := KeptAt(rows, mags, threshold, m - 1);
    KeptStep(rows, mags, threshold, m - 1);
    NewestKept(mags, threshold, m - 1);
    NewestGrow(shorter, m - 1, |rows|);
    RisingWider(shorter, m - 1);
    if Keeps(mags, threshold, m - 1) {
      PickOneMore(rows, shorter, m - 1);
      idx := shorter + [m - 1];
    } else {
      idx := shorter;
    }
  }

  lemma RisingWider(idx: seq<nat>, n: nat)
    requires Rising(idx, n)
    ensures Rising(idx, n + 1)
  {
  }

  // ----- prefixes dropped -----

  lemma NarrowedIsSuffix(rows: seq<Row>, f: Fit, now: real, adaptive: bool) returns (m: nat)
    requires |rows| >= 3 && Narrowed(rows, f, now, adaptive).Some?
    ensures m + 3 <= |rows| && Narrowed(rows, f, now, adaptive).value.0 == rows[m..]
  {
    m := |rows| - |Narrowed(rows, f, now, adaptive).value.0|;
  }

  lemma {:induction false} HistoryIsSuffix(rows: seq<Row>, f: Fit, k: nat) returns (m: nat)
    requires |rows| >= 3
    ensures m + 3 <= |rows| && HistoryTrimmed(rows, f, k).0 == rows[m..]
    decreases k
  {
    hide RegimeChange, ResidualsOf, LeastSquares;
    m := 0;
    if k > 0 && |rows| >= 8 && RegimeChange(ResidualsOf(rows, f)) {
      var q := Quarter(|rows|);
      var rest := rows[q..];
      m := q;
      if LeastSquares(rest).Some? {
        var deeper := HistoryIsSuffix(rest, LeastSquares(rest).value, k - 1);
        assert rest[deeper..] == rows[q + deeper..];
        m := q + deeper;
      }
    }
  }

  // ----- the rows that are left -----

  /** The three newest of `n` are the last three positions. */
  ghost predicate KeepsNewest(idx: seq<nat>, n: nat) {
    |idx| >= 3 && n >= 3 && idx[|idx| - 3] == n - 3 && idx[|idx| - 2] == n - 2 && idx[|idx| - 1] == n - 1
  }

  lemma {:induction false} RisingGaps(idx: seq<nat>, n: nat, i: nat, j: nat)
    requires Rising(idx, n) && i <= j < |idx|
    ensures idx[j] - idx[i] >= j - i
    decreases j
  {
    if i < j {
      RisingGaps(idx, n, i, j - 1);
    }
  }

  lemma NewestAreLast(idx: seq<nat>, n: nat)
    requires Rising(idx, n) && n >= 3 && n - 3 in idx && n - 2 in idx && n - 1 in idx
    ensures KeepsNewest(idx, n)
  {
    var i :| 0 <= i < |idx| && idx[i] == n - 3;
    var j :| 0 <= j < |idx| && idx[j] == n - 2;
    var k :| 0 <= k < |idx| && idx[k] == n - 1;
    assert i < j < k;
    RisingGaps(idx, n, i, j);
    RisingGaps(idx, n, j, k);
    RisingGaps(idx, n, k, |idx| - 1);
  }

  function Raised(idx: seq<nat>, m: nat): (r: seq<nat>)
    ensures |r| == |idx| && forall i | 0 <= i < |idx| :: r[i] == idx[i] + m
  {
    seq(|idx|, i requires 0 <= i < |idx| => idx[i] + m)
  }

  lemma SpikesLeave(rows: seq<Row>, f: Fit) returns (idx: seq<nat>)
    requires |rows| >= 3
    ensures Rising(idx, |rows|) && KeepsNewest(idx, |rows|) && SpikesTrimmed(rows, f).0 == Pick(rows, idx)
  {
    var mags := Magnitudes(ResidualsOf(rows, f));
    var used := SpikesTrimmed(rows, f).0;
    if used == rows {
      idx := seq(|rows|, i => i);
    } else {
      idx := KeptAt(rows, mags, SpikeThreshold(mags).value, |rows|);
      NewestAreLast(idx, |rows|);
    }
  }

  lemma SuffixOfPick(rows: seq<Row>, m: nat, idx: seq<nat>)
    requires m <= |rows| && Rising(idx, |rows| - m)
    ensures Rising(Raised(idx, m), |rows|) && Pick(rows[m..], idx) == Pick(rows, Raised(idx, m))
  {
  }

  /** The passes a settled window went through. */
  lemma Passes(rows: seq<Row>, now: real, adaptive: bool, trims: nat)
    returns (f: Fit, r1: seq<Row>, f1: Fit, r2: seq<Row>, f2: Fit)
    requires Settled(rows, now, adaptive, trims).Some?
    ensures |rows| >= 3 && LeastSquares(rows) == Some(f)
    ensures Narrowed(rows, f, now, adaptive) == Some((r1, f1)) && HistoryTrimmed(r1, f1, trims) == (r2, f2)
    ensures Settled(rows, now, adaptive, trims) == Some(SpikesTrimmed(r2, f2))
  {
    f := LeastSquares(rows).value;
    r1, f1 := Narrowed(rows, f, now, adaptive).value.0, Narrowed(rows, f, now, adaptive).value.1;
    r2, f2 := HistoryTrimmed(r1, f1, trims).0, HistoryTrimmed(r1, f1, trims).1;
  }

  lemma ChainSuffixes(rows: seq<Row>, a: nat, b: nat, rest: seq<nat>) returns (idx: seq<nat>)
    requires a + b <= |rows| && Rising(rest, |rows| - (a + b)) && KeepsNewest(rest, |rows| - (a + b))
    ensures Rising(idx, |rows|) && KeepsNewest(idx, |rows|) && Pick(rows[a + b..], rest) == Pick(rows, idx)
  {
    SuffixOfPick(rows, a + b, rest);
    idx := Raised(rest, a + b);
  }

  /**
   The rows an estimate rests on: positions in the window in increasing order, at least
   three of them, the last three its newest.
   */
  lemma UsedRows(rows: seq<Row>, now: real, adaptive: bool, trims: nat)
    returns (idx: seq<nat>, used: seq<Row>, fit: Fit)
    requires Settled(rows, now, adaptive, trims).Some?
    ensures Settled(rows, now, adaptive, trims) == Some((used, fit))
    ensures Rising(idx, |rows|) && KeepsNewest(idx, |rows|) && used == Pick(rows, idx)
  {
    var f, r1, f1, r2, f2 := Passes(rows, now, adaptive, trims);
    var a := NarrowedIsSuffix(rows, f, now, adaptive);
    var b := HistoryIsSuffix(r1, f1, trims);
    var rest := SpikesLeave(r2, f2);
    assert r2 == rows[a..][b..] == rows[a + b..];
    idx := ChainSuffixes(rows, a, b, rest);
    used, fit := SpikesTrimmed(r2, f2).0, SpikesTrimmed(r2, f2).1;
  }
}
