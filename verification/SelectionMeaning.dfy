/** What is selected, told from the offsets, distances and strata of the sources. */
module SelectionMeaning {
  import opened Wrappers
  import opened Reals
  import opened StableSort
  import opened Selection
  import opened SourceSelect

  /** The root distance as it is used: a nanosecond at least. */
  function Reach(s: SourceEstimate): real {
    if s.rootDistance > 0.000000001 then s.rootDistance else 0.000000001
  }

  /** The sources whose intervals meet the pick, by their fields, lowest stratum first and then smallest distance. */
  lemma BestInOrder(sources: seq<SourceEstimate>, low: real, high: real)
    ensures var best := Best(sources, low, high);
            && (forall s :: s in best <==> s in sources && s.offset + Reach(s) >= low && s.offset - Reach(s) <= high)
            && forall i, j | 0 <= i < j < |best| ::
                 best[i].stratum < best[j].stratum
                 || (best[i].stratum == best[j].stratum && best[i].rootDistance <= best[j].rootDistance)
  {
    BestMeaning(sources, low, high);
    var best := Best(sources, low, high);
    forall i, j | 0 <= i < j < |best|
      ensures QualityLeq(best[i], best[j])
    {
    }
  }

  /**
   Where a strict majority of the sources are within their distance of the truth, both ends
   of the pick are within twice the distance of one of them.
   */
  lemma TruthIsKept(sources: seq<SourceEstimate>, truthful: seq<bool>, truth: real, need: int, low: real, high: real)
    returns (i: nat, j: nat)
    requires |truthful| == |sources| < 2 * Marked(truthful) && Picks(sources, need, low, high)
    requires forall k | 0 <= k < |sources| && truthful[k] :: Abs(sources[k].offset - truth) <= Reach(sources[k])
    ensures i < |sources| && truthful[i] && Abs(low - truth) <= 2.0 * Reach(sources[i])
    ensures j < |sources| && truthful[j] && Abs(high - truth) <= 2.0 * Reach(sources[j])
  {
    i, j := MajorityKeepsTruth(sources, truthful, truth, need, low, high);
  }

  // ----- the combined offset -----

  /** How hard the sources pull away from `m`, each by the inverse of its distance. */
  function Imbalance(s: seq<SourceEstimate>, m: real): real {
    if s == [] then 0.0
    else Imbalance(s[..|s| - 1], m) + (s[|s| - 1].offset - m) / Reach(s[|s| - 1])
  }

  lemma PullsApart(o: real, m: real, d: real)
    requires d > 0.0
    ensures (o - m) / d == 1.0 / d * o - m * (1.0 / d)
  {
    var w := 1.0 / d;
    assert w * d == 1.0;
    var q := (o - m) / d;
    assert q * d == o - m;
    assert (w * o - m * w) * d == (w * d) * (o - m);
    assert (q - (w * o - m * w)) * d == 0.0;
  }

  lemma TermIs(s: SourceEstimate, m: real)
    ensures (s.offset - m) / Reach(s) == Pull(s) - m * Weight(s)
  {
    PullsApart(s.offset, m, Reach(s));
  }

  lemma {:induction false} ImbalanceIs(s: seq<SourceEstimate>, m: real)
    ensures Imbalance(s, m) == Total(Pulls(s)) - m * Total(Weights(s))
  {
    hide Weight, Reach, Pull;
    if s != [] {
      var n := |s| - 1;
      ImbalanceIs(s[..n], m);
      TermIs(s[n], m);
      assert Pulls(s)[..n] == Pulls(s[..n]) && Weights(s)[..n] == Weights(s[..n]);
      var v := Total(Weights(s[..n]));
      assert m * (v + Weight(s[n])) == m * v + m * Weight(s[n]);
    }
  }

  /** The combined offset is the one value at which the sources balance. */
  lemma MeanBalances(s: seq<SourceEstimate>, m: real)
    requires s != []
    ensures Imbalance(s, m) == 0.0 <==> m == Mean(s)
  {
    hide Imbalance;
    ImbalanceIs(s, m);
    TotalPositive(Weights(s));
    var p, v := Total(Pulls(s)), Total(Weights(s));
    var q := p / v;
    assert q * v == p;
    if m * v == q * v {
      assert (m - q) * v == 0.0;
    }
  }

  // ----- the quorum -----

  /** A source that counts: it was heard, or has not yet been lost four times in a row. */
  predicate Counts(s: Source) {
    s.hasEstimate || s.lostInARow <= 3
  }

  function Counting(sources: seq<Source>): set<nat> {
    set i: nat | i < |sources| && Counts(sources[i])
  }

  function Hearing(sources: seq<Source>): set<nat> {
    set i: nat | i < |sources| && sources[i].hasEstimate
  }

  lemma OneMoreSource(sources: seq<Source>)
    requires sources != []
    ensures var n: nat, rest := |sources| - 1, sources[..|sources| - 1];
            && n !in Counting(rest) && Counting(sources) == Counting(rest) + (if Counts(sources[n]) then {n} else {})
            && n !in Hearing(rest) && Hearing(sources) == Hearing(rest) + (if sources[n].hasEstimate then {n} else {})
  {
  }

  /** How many sources count and how many were heard, as the quorum takes them. */
  lemma {:induction false} QuorumIs(sources: seq<Source>)
    ensures Expected(sources) == |Counting(sources)| && Heard(sources) == |Hearing(sources)|
  {
    hide Counting, Hearing;
    if sources == [] {
      NoSources();
    } else {
      QuorumIs(sources[..|sources| - 1]);
      OneMoreSource(sources);
    }
  }

  lemma NoSources()
    ensures Counting([]) == {} == Hearing([])
  {
  }
}
