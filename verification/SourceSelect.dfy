/** The selection of truechimers and of the source that drives the clock. */
module SourceSelect {
  import opened Wrappers
  import opened Reals
  import opened StableSort
  import opened Selection

  // ----- survivors -----

  /** Does the interval of `s` meet `[low, high]`? */
  predicate Survives(s: SourceEstimate, low: real, high: real) {
    High(s) >= low && Low(s) <= high
  }

  function Survivors(sources: seq<SourceEstimate>, low: real, high: real): seq<SourceEstimate> {
    if sources == [] then []
    else
      var s := sources[|sources| - 1];
      Survivors(sources[..|sources| - 1], low, high) + (if Survives(s, low, high) then [s] else [])
  }

  /** Lowest stratum first, then the tightest interval. */
  predicate QualityLeq(a: SourceEstimate, b: SourceEstimate) {
    a.stratum < b.stratum || (a.stratum == b.stratum && a.rootDistance <= b.rootDistance)
  }

  function Best(sources: seq<SourceEstimate>, low: real, high: real): seq<SourceEstimate> {
    Sorted(Survivors(sources, low, high), QualityLeq)
  }

  function Ids(sources: seq<SourceEstimate>): (ids: seq<nat>)
    ensures |ids| == |sources| && forall i | 0 <= i < |sources| :: ids[i] == sources[i].id
  {
    seq(|sources|, i requires 0 <= i < |sources| => sources[i].id)
  }

  lemma {:induction false} SurvivorsMeaning(sources: seq<SourceEstimate>, low: real, high: real)
    ensures forall s :: s in Survivors(sources, low, high) <==> s in sources && Survives(s, low, high)
    ensures low <= high ==> |Survivors(sources, low, high)| >= Cover(sources, low)
  {
    if sources != [] {
      var n := |sources| - 1;
      assert sources == sources[..n] + [sources[n]];
      SurvivorsMeaning(sources[..n], low, high);
    }
  }

  /** The truechimers are the sources whose intervals meet the picked one, best first. */
  lemma BestMeaning(sources: seq<SourceEstimate>, low: real, high: real)
    ensures multiset(Best(sources, low, high)) == multiset(Survivors(sources, low, high))
    ensures Ascending(Best(sources, low, high), QualityLeq)
    ensures forall s :: s in Best(sources, low, high) <==> s in sources && Survives(s, low, high)
    ensures low <= high ==> |Best(sources, low, high)| >= Cover(sources, low)
  {
    SurvivorsMeaning(sources, low, high);
    var survivors := Survivors(sources, low, high);
    SortedAscends(survivors, QualityLeq);
    forall s
      ensures s in Best(sources, low, high) <==> s in survivors
    {
      assert s in Best(sources, low, high) <==> s in multiset(Best(sources, low, high));
      assert s in survivors <==> s in multiset(survivors);
    }
  }

  // ----- combination -----

  function Weight(s: SourceEstimate): (w: real)
    ensures w > 0.0
  {
    1.0 / Half(s)
  }

  /** What a source contributes to the weighted sum of the offsets. */
  function Pull(s: SourceEstimate): real {
    Weight(s) * s.offset
  }

  function Weights(s: seq<SourceEstimate>): (ws: seq<real>)
    ensures |ws| == |s| && forall i | 0 <= i < |s| :: ws[i] == Weight(s[i])
  {
    seq(|s|, i requires 0 <= i < |s| => Weight(s[i]))
  }

  function Pulls(s: seq<SourceEstimate>): (ps: seq<real>)
    ensures |ps| == |s| && forall i | 0 <= i < |s| :: ps[i] == Pull(s[i])
  {
    seq(|s|, i requires 0 <= i < |s| => Pull(s[i]))
  }

  ghost predicate Within(s: seq<SourceEstimate>, a: real, b: real) {
    forall x | x in s :: a <= x.offset <= b
  }

  lemma ScaleBetween(w: real, a: real, x: real, b: real)
    requires w >= 0.0 && a <= x <= b
    ensures a * w <= w * x <= b * w
  {
  }

  ghost predicate Scaled(a: real, w: real, p: real, b: real) {
    a * w <= p <= b * w
  }

  lemma OneMore(a: real, v: real, o: real, w: real, p: real, b: real) returns (v': real, o': real)
    requires Scaled(a, v, o, b) && Scaled(a, w, p, b)
    ensures v' == v + w && o' == o + p && Scaled(a, v', o', b)
  {
    v', o' := v + w, o + p;
  }

  lemma {:induction false} TotalsBetween(a: real, ws: seq<real>, ps: seq<real>, b: real) returns (v: real, o: real)
    requires |ws| == |ps| && forall i | 0 <= i < |ws| :: Scaled(a, ws[i], ps[i], b)
    ensures v == Total(ws) && o == Total(ps) && Scaled(a, v, o, b)
  {
    if ws == [] {
      return 0.0, 0.0;
    }
    var n := |ws| - 1;
    v, o := TotalsBetween(a, ws[..n], ps[..n], b);
    v, o := OneMore(a, v, o, ws[n], ps[n], b);
  }

  lemma {:induction false} TotalPositive(ws: seq<real>)
    requires forall i | 0 <= i < |ws| :: ws[i] > 0.0
    ensures Total(ws) >= 0.0 && (ws != [] ==> Total(ws) > 0.0)
  {
    if ws != [] {
      TotalPositive(ws[..|ws| - 1]);
    }
  }

  lemma ScaleStrictly(w: real, a: real, b: real)
    requires w > 0.0 && a < b
    ensures a * w < b * w
  {
  }

  lemma DivideBetween(a: real, b: real, o: real, w: real)
    requires w > 0.0 && a * w <= o <= b * w
    ensures a <= o / w <= b
  {
    var q := o / w;
    assert q * w == o;
    if q < a {
      ScaleStrictly(w, q, a);
    } else if q > b {
      ScaleStrictly(w, b, q);
    }
  }

  /** The mean of the offsets, weighted by tightness. */
  function Mean(s: seq<SourceEstimate>): real
    requires s != []
  {
    TotalPositive(Weights(s));
    Total(Pulls(s)) / Total(Weights(s))
  }

  /** It lies between any bounds on the offsets it combines. */
  lemma MeanBetween(s: seq<SourceEstimate>, a: real, b: real)
    requires s != [] && Within(s, a, b)
    ensures a <= Mean(s) <= b
  {
    var ws, ps := Weights(s), Pulls(s);
    forall i | 0 <= i < |s|
      ensures Scaled(a, ws[i], ps[i], b)
    {
      assert s[i] in s;
      ScaleBetween(Weight(s[i]), a, s[i].offset, b);
    }
    var v, o := TotalsBetween(a, ws, ps, b);
    TotalPositive(ws);
    DivideBetween(a, b, o, v);
  }

  // ----- the sweep -----

  method ScanUp(edges: seq<Edge>, need: int) returns (low: Option<real>, ghost m: nat)
    requires need >= 1
    ensures low.Some? ==> LowAt(edges, need, m, low.value)
    ensures low.None? ==> forall k | 0 <= k <= |edges| :: Open(edges[..k]) < need
  {
    var count := 0;
    for i := 0 to |edges|
      invariant count == Open(edges[..i]) && count < need
      invariant forall k | 0 <= k <= i :: Open(edges[..k]) < need
    {
      assert edges[..i + 1][..i] == edges[..i];
      count := count + edges[i].kind;
      if count >= need {
        return Some(edges[i].value), i + 1;
      }
    }
    return None, 0;
  }

  method ScanDown(edges: seq<Edge>, need: int) returns (high: Option<real>, ghost m: nat)
    requires need >= 1 && Open(edges) == 0
    ensures high.Some? ==> HighAt(edges, need, m, high.value)
    ensures high.None? ==> forall k | 0 <= k <= |edges| :: Open(edges[..k]) < need
  {
    var count := 0;
    assert edges[..|edges|] == edges;
    for i := |edges| downto 0
      invariant count == Open(edges[..i]) && count < need
      invariant forall k | i <= k <= |edges| :: Open(edges[..k]) < need
    {
      assert edges[..i + 1][..i] == edges[..i];
      count := count - edges[i].kind;
      if count >= need {
        return Some(edges[i].value), i;
      }
    }
    return None, 0;
  }

  lemma OpenAtMostAll(sources: seq<SourceEstimate>, m: nat)
    requires 0 < m <= 2 * |sources|
    ensures Open(Swept(sources)[..m]) <= |sources|
  {
    var es := Swept(sources);
    SweptMeaning(sources, 0.0);
    PartsAt(es, m, m - 1);
    PartIsCovered(sources, m, es[m - 1].value);
  }

  /** Every interval opened is closed again. */
  lemma SweptCloses(sources: seq<SourceEstimate>)
    ensures Open(Swept(sources)) == 0
  {
    SweptMeaning(sources, 0.0);
  }

  lemma NeverMoreThanAll(sources: seq<SourceEstimate>)
    ensures NeverMore(Swept(sources), |sources|)
  {
    var es := Swept(sources);
    assert Open(es[..0]) == 0;
    forall m | 0 < m <= |es|
      ensures Open(es[..m]) <= |sources|
    {
      OpenAtMostAll(sources, m);
    }
  }

  lemma SweepPicks(sources: seq<SourceEstimate>, need: int, low: real, high: real, a: nat, b: nat)
    requires LowAt(Swept(sources), need, a, low) && HighAt(Swept(sources), need, b, high)
    requires Majority(|sources|, need) && NeverMore(Swept(sources), need)
    ensures low <= high && Picks(sources, need, low, high)
  {
    PickedEnds(sources, need, low, high, a, b);
  }

  lemma SweepFails(sources: seq<SourceEstimate>, need: int)
    requires NeverMore(Swept(sources), need) && 2 * need <= |sources|
    ensures NoPick(sources)
  {
  }

  /** Scan from both ends for `need` open intervals. */
  method TryNeed(sources: seq<SourceEstimate>, edges: seq<Edge>, need: int) returns (chosen: Option<(real, real)>)
    requires edges == Swept(sources) && Open(edges) == 0
    requires need >= 1 && Majority(|sources|, need) && NeverMore(edges, need)
    ensures chosen.Some? ==> Picks(sources, need, chosen.value.0, chosen.value.1)
    ensures chosen.None? ==> NeverMore(edges, need - 1)
  {
    var low, a := ScanUp(edges, need);
    var high, b := ScanDown(edges, need);
    if low.Some? && high.Some? {
      SweepPicks(sources, need, low.value, high.value, a, b);
      if low.value <= high.value {
        return Some((low.value, high.value));
      }
    }
    return None;
  }

  /** Sweep for the fewest falsetickers that leave a majority. */
  method FindInterval(sources: seq<SourceEstimate>) returns (chosen: Option<(real, real)>, ghost need: int)
    requires sources != []
    ensures chosen.Some? ==> Picks(sources, need, chosen.value.0, chosen.value.1)
    ensures chosen.None? ==> NoPick(sources)
  {
    var n := |sources|;
    var edges := Swept(sources);
    SweptCloses(sources);
    NeverMoreThanAll(sources);
    for f := 0 to (n - 1) / 2 + 1
      invariant NeverMore(edges, n - f)
    {
      need := n - f;
      chosen := TryNeed(sources, edges, n - f);
      if chosen.Some? {
        return;
      }
    }
    SweepFails(sources, n - (n - 1) / 2 - 1);
    need := 0;
    chosen := None;
  }

  /** Drop the sources whose intervals miss the picked one. */
  method KeepSurvivors(sources: seq<SourceEstimate>, low: real, high: real) returns (survivors: seq<SourceEstimate>)
    ensures survivors == Survivors(sources, low, high)
  {
    survivors := [];
    for i := 0 to |sources|
      invariant survivors == Survivors(sources[..i], low, high)
    {
      assert sources[..i + 1][..i] == sources[..i];
      if Survives(sources[i], low, high) {
        survivors := survivors + [sources[i]];
      }
    }
    assert sources[..|sources|] == sources;
  }

  method Combine(survivors: seq<SourceEstimate>) returns (offset: Option<real>)
    ensures offset == if survivors == [] then None else Some(Mean(survivors))
  {
    var wsum, osum := 0.0, 0.0;
    ghost var ws, ps := Weights(survivors), Pulls(survivors);
    for i := 0 to |survivors|
      invariant wsum == Total(ws[..i]) && osum == Total(ps[..i])
    {
      assert ws[..i + 1][..i] == ws[..i] && ps[..i + 1][..i] == ps[..i];
      var w := 1.0 / Half(survivors[i]);
      wsum := wsum + w;
      osum := osum + w * survivors[i].offset;
    }
    assert ws[..|survivors|] == ws && ps[..|survivors|] == ps;
    TotalPositive(ws);
    if wsum > 0.0 {
      return Some(osum / wsum);
    }
    return None;
  }

  datatype Pick = Pick(need: int, low: real, high: real)

  /**
   Select the truechimers. Something is selected exactly when the sweep meets a strict
   majority; then at least `need` sources survive, best first, they are those whose
   intervals meet the picked one, and the combined offset lies within the range of
   theirs.
   */
  method Select(sources: seq<SourceEstimate>) returns (sel: Selection, ghost pick: Option<Pick>)
    ensures pick.None? ==> NoPick(sources) && sel == Selection([], None)
    ensures pick.Some? ==>
              var Pick(need, low, high) := pick.value;
              var best := Best(sources, low, high);
              && Picks(sources, need, low, high)
              && |best| >= need > 0 && sel == Selection(Ids(best), Some(Mean(best)))
              && (forall a, b | Within(best, a, b) :: a <= sel.offset.value <= b)
  {
    if sources == [] {
      assert Swept(sources) == [];
      return Selection([], None), None;
    }
    var chosen, need := FindInterval(sources);
    if chosen.None? {
      return Selection([], None), None;
    }
    var (low, high) := chosen.value;
    PickedInterval(sources, need, low, high);
    BestMeaning(sources, low, high);
    var survivors := KeepSurvivors(sources, low, high);
    survivors := Sorted(survivors, QualityLeq);
    var offset := Combine(survivors);
    sel := Selection(Ids(survivors), offset);
    pick := Some(Pick(need, low, high));
    forall a, b | Within(survivors, a, b)
      ensures a <= Mean(survivors) <= b
    {
      MeanBetween(survivors, a, b);
    }
  }

  // ----- the quorum -----

  datatype Source = Source(
    hasEstimate: bool, lostInARow: nat, lastOffset: real, lastRootDistance: real, lastStratum: nat)

  const UNREACHABLE_AFTER: nat := 4

  predicate Answering(s: Source) {
    s.hasEstimate || s.lostInARow < UNREACHABLE_AFTER
  }

  /** How many sources still count, and how many of them have been heard. */
  function Expected(sources: seq<Source>): (n: nat) {
    if sources == [] then 0
    else Expected(sources[..|sources| - 1]) + (if Answering(sources[|sources| - 1]) then 1 else 0)
  }

  function Heard(sources: seq<Source>): (n: nat) {
    if sources == [] then 0
    else Heard(sources[..|sources| - 1]) + (if sources[|sources| - 1].hasEstimate then 1 else 0)
  }

  function Estimate(s: Source, id: nat): SourceEstimate {
    SourceEstimate(id, s.lastOffset, Max(s.lastRootDistance, 0.000000001), s.lastStratum)
  }

  /** The estimates selection is given, each under the index of its source. */
  function Estimates(sources: seq<Source>): seq<SourceEstimate> {
    if sources == [] then []
    else
      var n := |sources| - 1;
      Estimates(sources[..n]) + (if sources[n].hasEstimate then [Estimate(sources[n], n)] else [])
  }

  lemma {:induction false} EstimatesMeaning(sources: seq<Source>)
    ensures |Estimates(sources)| == Heard(sources)
    ensures forall e | e in Estimates(sources) ::
              e.id < |sources| && sources[e.id].hasEstimate && e == Estimate(sources[e.id], e.id)
  {
    if sources != [] {
      EstimatesMeaning(sources[..|sources| - 1]);
    }
  }

  /**
   Which source drives the clock. It has an estimate; where more than one source
   counts, more than half of those that count have been heard; and its interval meets
   the interval a strict majority of the estimates picked, at no worse quality than
   any other such source. There is none only without a quorum or without a majority.
   */
  method SelectedIndex(sources: seq<Source>) returns (index: Option<nat>, ghost pick: Option<Pick>)
    ensures index.Some? ==>
              && pick.Some? && index.value < |sources| && sources[index.value].hasEstimate
              && (Expected(sources) > 1 ==> 2 * Heard(sources) > Expected(sources))
              && Picks(Estimates(sources), pick.value.need, pick.value.low, pick.value.high)
              && var chosen := Estimate(sources[index.value], index.value);
              && Survives(chosen, pick.value.low, pick.value.high)
              && (forall e | e in Estimates(sources) && Survives(e, pick.value.low, pick.value.high) ::
                  QualityLeq(chosen, e))
    ensures index.None?
            <==> (Expected(sources) > 1 && 2 * Heard(sources) <= Expected(sources)) || NoPick(Estimates(sources))
  {
    pick := None;
    var answering, heard := 0, 0;
    for i := 0 to |sources|
      invariant answering == Expected(sources[..i]) && heard == Heard(sources[..i])
    {
      assert sources[..i + 1][..i] == sources[..i];
      if sources[i].hasEstimate || sources[i].lostInARow < UNREACHABLE_AFTER {
        answering := answering + 1;
      }
      if sources[i].hasEstimate {
        heard := heard + 1;
      }
    }
    assert sources[..|sources|] == sources;
    if answering > 1 && heard * 2 <= answering {
      return None, None;
    }
    var estimates := [];
    for i := 0 to |sources|
      invariant estimates == Estimates(sources[..i])
    {
      assert sources[..i + 1][..i] == sources[..i];
      if sources[i].hasEstimate {
        var distance := Max(sources[i].lastRootDistance, 0.000000001);
        estimates := estimates + [SourceEstimate(i, sources[i].lastOffset, distance, sources[i].lastStratum)];
      }
    }
    if estimates == [] {
      assert Swept(estimates) == [];
      return None, None;
    }
    EstimatesMeaning(sources);
    var sel;
    sel, pick := Select(estimates);
    if sel.truechimers == [] {
      return None, pick;
    }
    var Pick(need, low, high) := pick.value;
    FirstIsBest(estimates, need, low, high);
    return Some(sel.truechimers[0]), pick;
  }

  lemma FirstIsBest(sources: seq<SourceEstimate>, need: int, low: real, high: real)
    requires Picks(sources, need, low, high) && Best(sources, low, high) != []
    ensures var best := Best(sources, low, high)[0];
            && best in sources && Survives(best, low, high)
            && (forall e | e in sources && Survives(e, low, high) :: QualityLeq(best, e))
    ensures !NoPick(sources)
  {
    BestMeaning(sources, low, high);
    var best := Best(sources, low, high);
    assert best[0] in best;
    forall e | e in sources && Survives(e, low, high)
      ensures QualityLeq(best[0], e)
    {
      assert e in best;
      var i :| 0 <= i < |best| && best[i] == e;
      assert i > 0 ==> QualityLeq(best[0], best[i]);
    }
    var es := Swept(sources);
    var m: nat :| LowAt(es, need, m, low);
    assert 2 * Open(es[..m]) > |sources|;
  }
}
