/** When the order the sources come in decides what is selected: the exact condition. */
module SelectionOrder {
  import opened Reals
  import opened StableSort
  import opened Selection

  /** The most intervals any value lies in, and the least and the greatest value that lies in that many. */
  ghost predicate Top(sources: seq<SourceEstimate>, need: int, low: real, high: real) {
    && Cover(sources, low) == need == Cover(sources, high)
    && (forall x :: Cover(sources, x) <= need)
    && (forall x | Cover(sources, x) == need :: low <= x <= high)
  }

  ghost predicate Reorders(a: seq<SourceEstimate>, b: seq<SourceEstimate>) {
    multiset(b) == multiset(a)
  }

  /** Every order of the sources gets the same interval picked, or none does. */
  ghost predicate OrderIsIrrelevant(a: seq<SourceEstimate>) {
    forall b, c, need, low, high | Reorders(a, b) && Reorders(a, c) && Picks(b, need, low, high) ::
      Picks(c, need, low, high)
  }

  // ----- ties in the sweep -----

  predicate StartFirst(a: Edge, b: Edge) {
    a.kind == 1 || b.kind == -1
  }

  predicate EndFirst(a: Edge, b: Edge) {
    a.kind == -1 || b.kind == 1
  }

  predicate LowLeq(a: SourceEstimate, b: SourceEstimate) {
    Low(a) <= Low(b)
  }

  predicate LowGeq(a: SourceEstimate, b: SourceEstimate) {
    Low(a) >= Low(b)
  }

  lemma {:induction false} EdgesAt(sources: seq<SourceEstimate>, i: nat)
    requires i < |sources|
    ensures Edges(sources)[2 * i] == Edge(Low(sources[i]), 1)
    ensures Edges(sources)[2 * i + 1] == Edge(High(sources[i]), -1)
  {
    if i < |sources| - 1 {
      EdgesAt(sources[..|sources| - 1], i);
    }
  }

  lemma EdgeAt(sources: seq<SourceEstimate>, k: nat)
    requires k < 2 * |sources|
    ensures var s := sources[k / 2];
            Edges(sources)[k] == if k % 2 == 0 then Edge(Low(s), 1) else Edge(High(s), -1)
  {
    EdgesAt(sources, k / 2);
  }

  /** With the sources by descending lower ends, beginnings come before endings that tie with them. */
  lemma DescendingStartsFirst(sources: seq<SourceEstimate>)
    requires Ascending(sources, LowGeq)
    ensures TiesKeep(Swept(sources), ValueLeq, StartFirst)
  {
    var es := Edges(sources);
    forall i, j | 0 <= i < j < |es| && ValueLeq(es[i], es[j]) && ValueLeq(es[j], es[i])
      ensures StartFirst(es[i], es[j])
    {
      EdgeAt(sources, i);
      EdgeAt(sources, j);
      if i / 2 < j / 2 {
        assert LowGeq(sources[i / 2], sources[j / 2]);
      }
    }
    SortedKeeps(es, ValueLeq, StartFirst);
  }

  /** By ascending lower ends, endings come first. */
  lemma AscendingEndsFirst(sources: seq<SourceEstimate>)
    requires Ascending(sources, LowLeq)
    ensures TiesKeep(Swept(sources), ValueLeq, EndFirst)
  {
    var es := Edges(sources);
    forall i, j | 0 <= i < j < |es| && ValueLeq(es[i], es[j]) && ValueLeq(es[j], es[i])
      ensures EndFirst(es[i], es[j])
    {
      EdgeAt(sources, i);
      EdgeAt(sources, j);
      if i / 2 < j / 2 {
        assert LowLeq(sources[i / 2], sources[j / 2]);
      } else {
        assert i / 2 == j / 2;
      }
    }
    SortedKeeps(es, ValueLeq, EndFirst);
  }

  // ----- beginnings first: the sweep passes through every coverage -----

  function Prefix(es: seq<Edge>, v: real): (m: nat)
    ensures m <= |es|
  {
    if es == [] then 0 else if Counts(es[|es| - 1], v) then |es| else Prefix(es[..|es| - 1], v)
  }

  lemma {:induction false} PrefixCounts(es: seq<Edge>, v: real)
    requires Edgy(es) && Ascending(es, ValueLeq) && TiesKeep(es, ValueLeq, StartFirst)
    ensures forall i | 0 <= i < |es| :: Counts(es[i], v) <==> i < Prefix(es, v)
  {
    if es != [] {
      var n := |es| - 1;
      if Counts(es[n], v) {
        forall i | 0 <= i < n
          ensures Counts(es[i], v)
        {
          assert es[i] in es && es[n] in es;
          assert ValueLeq(es[i], es[n]);
        }
      } else {
        assert forall e | e in es[..n] :: e in es;
        PrefixCounts(es[..n], v);
      }
    }
  }

  lemma PrefixIsCover(sources: seq<SourceEstimate>, v: real) returns (m: nat)
    requires TiesKeep(Swept(sources), ValueLeq, StartFirst)
    ensures Parts(Swept(sources), m, v) && Open(Swept(sources)[..m]) == Cover(sources, v)
  {
    var es := Swept(sources);
    SweptMeaning(sources, v);
    m := Prefix(es, v);
    PrefixCounts(es, v);
    assert es == es[..m] + es[m..];
    Splits(es[..m], es[m..], v);
    AllOrNone(es[..m], v, true);
    AllOrNone(es[m..], v, false);
  }

  // ----- what is picked where the top is met -----

  lemma OpenIsCovered(sources: seq<SourceEstimate>, m: nat, i: nat)
    requires m <= 2 * |sources| && i < 2 * |sources| && (i == m || i + 1 == m)
    ensures Parts(Swept(sources), m, Swept(sources)[i].value)
    ensures Open(Swept(sources)[..m]) <= Cover(sources, Swept(sources)[i].value)
  {
    var es := Swept(sources);
    SweptMeaning(sources, 0.0);
    PartsAt(es, m, i);
    PartIsCovered(sources, m, es[i].value);
  }

  lemma TopIsNeverExceeded(sources: seq<SourceEstimate>, need: int)
    requires forall x :: Cover(sources, x) <= need
    ensures NeverMore(Swept(sources), need)
  {
    var es := Swept(sources);
    assert Open(es[..0]) == 0 <= Cover(sources, 0.0);
    forall m | 0 < m <= |es|
      ensures Open(es[..m]) <= need
    {
      OpenIsCovered(sources, m, m - 1);
    }
  }

  lemma FirstMet(es: seq<Edge>, need: int, m: nat) returns (a: nat)
    requires m <= |es| && Open(es[..m]) >= need > 0
    ensures 1 <= a <= m && Open(es[..a]) >= need && forall k | 0 <= k < a :: Open(es[..k]) < need
  {
    a := 0;
    while a < m && Open(es[..a]) < need
      invariant a <= m && forall k | 0 <= k < a :: Open(es[..k]) < need
    {
      a := a + 1;
    }
    assert Open(es[..0]) == 0;
  }

  lemma LastMet(es: seq<Edge>, need: int, m: nat) returns (b: nat)
    requires m <= |es| && Open(es[..m]) >= need > 0 && Open(es) == 0
    ensures m <= b < |es| && Open(es[..b]) >= need && forall k | b < k <= |es| :: Open(es[..k]) < need
  {
    b := |es|;
    assert es[..|es|] == es;
    while b > m && Open(es[..b]) < need
      invariant m <= b <= |es| && forall k | b < k <= |es| :: Open(es[..k]) < need
    {
      b := b - 1;
    }
  }

  /** Where the sweep meets the top coverage at both its ends, that is what it picks. */
  lemma MetIsPicked(sources: seq<SourceEstimate>, need: int, low: real, high: real, l: nat, h: nat)
    requires Top(sources, need, low, high) && Majority(|sources|, need)
    requires Parts(Swept(sources), l, low) && Open(Swept(sources)[..l]) == need
    requires Parts(Swept(sources), h, high) && Open(Swept(sources)[..h]) == need
    ensures Picks(sources, need, low, high)
  {
    var es := Swept(sources);
    SweptMeaning(sources, 0.0);
    TopIsNeverExceeded(sources, need);
    var a := FirstMet(es, need, l);
    OpenIsCovered(sources, a, a - 1);
    assert LowAt(es, need, a, low);
    var b := LastMet(es, need, h);
    OpenIsCovered(sources, b, b);
    assert HighAt(es, need, b, high);
  }

  /** A sweep picks one interval at most. */
  lemma PickIsOne(sources: seq<SourceEstimate>, need: int, low: real, high: real, need': int, low': real, high': real)
    requires Picks(sources, need, low, high) && Picks(sources, need', low', high')
    ensures need == need' && low == low' && high == high'
  {
    var es := Swept(sources);
    var a :| LowAt(es, need, a, low);
    var a' :| LowAt(es, need', a', low');
    var b :| HighAt(es, need, b, high);
    var b' :| HighAt(es, need', b', high');
    assert need == need';
    assert a == a' && b == b';
  }

  // ----- the same sources in another order -----

  lemma SameMembers(a: seq<SourceEstimate>, b: seq<SourceEstimate>)
    requires Reorders(a, b)
    ensures |b| == |a| && forall s :: s in b <==> s in a
  {
    assert |a| == |multiset(a)| && |b| == |multiset(b)|;
    forall s
      ensures s in b <==> s in a
    {
      assert s in b <==> s in multiset(b);
    }
  }

  lemma TopOfReordered(a: seq<SourceEstimate>, b: seq<SourceEstimate>, need: int, low: real, high: real)
    requires Reorders(a, b) && Top(a, need, low, high)
    ensures Top(b, need, low, high) && |b| == |a|
    ensures Plain(b, low) == Plain(a, low) && Plain(b, high) == Plain(a, high)
  {
    SameMembers(a, b);
    forall x
      ensures Cover(b, x) == Cover(a, x)
    {
      CoverOfPermutation(a, b, x);
    }
  }

  /** No majority anywhere: no order picks anything. */
  lemma NoMajorityNoPick(a: seq<SourceEstimate>, need: int, low: real, high: real, n: int, l: real, h: real)
    requires Top(a, need, low, high) && 2 * need <= |a|
    ensures !Picks(a, n, l, h)
  {
    if Picks(a, n, l, h) {
      PickedInterval(a, n, l, h);
    }
  }

  /** Where the ends of the top coverage are plain, every order picks them. */
  lemma PlainEndsArePicked(a: seq<SourceEstimate>, need: int, low: real, high: real)
    requires Top(a, need, low, high) && Majority(|a|, need) && Plain(a, low) && Plain(a, high)
    ensures Picks(a, need, low, high)
  {
    var l := CoverIsMet(a, low);
    var h := CoverIsMet(a, high);
    MetIsPicked(a, need, low, high, l, h);
  }

  /** Swept beginnings first, they are picked in any case. */
  lemma StartsFirstPicks(a: seq<SourceEstimate>, need: int, low: real, high: real)
    requires Top(a, need, low, high) && Majority(|a|, need) && TiesKeep(Swept(a), ValueLeq, StartFirst)
    ensures Picks(a, need, low, high)
  {
    var l := PrefixIsCover(a, low);
    var h := PrefixIsCover(a, high);
    MetIsPicked(a, need, low, high, l, h);
  }

  lemma {:induction false} EndingsLag(es: seq<Edge>, v: real)
    requires Edgy(es) && (forall e | e in es :: e.value <= v) && Edge(v, -1) in es
    ensures Open(es) + 1 <= Tally(es, v)
  {
    var n := |es| - 1;
    assert forall e | e in es[..n] :: e in es;
    assert es[n] in es;
    if Edge(v, -1) in es[..n] {
      EndingsLag(es[..n], v);
    } else {
      PartCounts(es[..n], v, true);
    }
  }

  lemma {:induction false} BeginningsCount(es: seq<Edge>, v: real)
    requires Edgy(es) && (forall e | e in es :: v <= e.value) && Edge(v, 1) in es
    ensures Tally(es, v) >= 1
  {
    var n := |es| - 1;
    assert forall e | e in es[..n] :: e in es;
    assert es[n] in es;
    if Edge(v, 1) in es[..n] {
      BeginningsCount(es[..n], v);
    } else {
      PartCounts(es[..n], v, false);
    }
  }

  lemma {:induction false} EdgesThere(sources: seq<SourceEstimate>, s: SourceEstimate)
    requires s in sources
    ensures Edge(Low(s), 1) in Swept(sources) && Edge(High(s), -1) in Swept(sources)
  {
    var i :| 0 <= i < |sources| && sources[i] == s;
    EdgesAt(sources, i);
    SortedAscends(Edges(sources), ValueLeq);
    assert Edge(Low(s), 1) in multiset(Edges(sources)) && Edge(High(s), -1) in multiset(Edges(sources));
    assert Edge(Low(s), 1) in multiset(Swept(sources)) && Edge(High(s), -1) in multiset(Swept(sources));
  }

  /** Passing an ending at `v` leaves fewer open than cover it. */
  lemma TooFew(es: seq<Edge>, m: nat, v: real)
    requires Edgy(es) && Parts(es, m, v) && (Edge(v, -1) in es[..m] || Edge(v, 1) in es[m..])
    ensures Open(es[..m]) < Tally(es, v)
  {
    assert es == es[..m] + es[m..];
    Splits(es[..m], es[m..], v);
    assert forall e | e in es[..m] :: e in es && e.value <= v;
    assert forall e | e in es[m..] :: e in es && v <= e.value;
    PartCounts(es[..m], v, true);
    PartCounts(es[m..], v, false);
    if Edge(v, -1) in es[..m] {
      EndingsLag(es[..m], v);
    } else {
      BeginningsCount(es[m..], v);
    }
  }

  lemma OpenStep(es: seq<Edge>, m: nat)
    requires m < |es|
    ensures Open(es[..m + 1]) == Open(es[..m]) + es[m].kind
  {
    assert es[..m + 1][..m] == es[..m];
  }

  /** Where the sweep first has `need` open an interval begins, and the endings that tie with it are past. */
  lemma EndingsArePast(es: seq<Edge>, need: int, m: nat, low: real)
    requires Edgy(es) && TiesKeep(es, ValueLeq, EndFirst) && LowAt(es, need, m, low)
    ensures Edge(low, -1) in es ==> Edge(low, -1) in es[..m]
  {
    OpenStep(es, m - 1);
    assert es[m - 1] in es;
    if Edge(low, -1) in es {
      var i :| 0 <= i < |es| && es[i] == Edge(low, -1);
      assert i >= m ==> EndFirst(es[m - 1], es[i]);
      assert es[..m][i] == Edge(low, -1);
    }
  }

  /** Where it last has, an interval ends, and the beginnings that tie with it are to come. */
  lemma BeginningsAreToCome(es: seq<Edge>, need: int, m: nat, high: real)
    requires Edgy(es) && TiesKeep(es, ValueLeq, EndFirst) && HighAt(es, need, m, high)
    ensures Edge(high, 1) in es ==> Edge(high, 1) in es[m..]
  {
    OpenStep(es, m);
    assert es[m] in es;
    if Edge(high, 1) in es {
      var i :| 0 <= i < |es| && es[i] == Edge(high, 1);
      assert i < m ==> EndFirst(es[i], es[m]);
      assert es[m..][i - m] == Edge(high, 1);
    }
  }

  /** Swept endings first, the top coverage is not met at an end where an interval begins as another ends. */
  lemma EndsFirstNeedsPlain(a: seq<SourceEstimate>, need: int, low: real, high: real)
    requires Top(a, need, low, high) && TiesKeep(Swept(a), ValueLeq, EndFirst) && Picks(a, need, low, high)
    ensures Plain(a, low) && Plain(a, high)
  {
    hide Swept, Cover, Tally, Open, TiesKeep;
    var es := Swept(a);
    var l: nat :| LowAt(es, need, l, low);
    var h: nat :| HighAt(es, need, h, high);
    SweptMeaning(a, low);
    EndingsArePast(es, need, l, low);
    OpenIsCovered(a, l, l - 1);
    if Edge(low, -1) in es {
      TooFew(es, l, low);
    }
    EndsPlain(a, low);
    SweptMeaning(a, high);
    BeginningsAreToCome(es, need, h, high);
    OpenIsCovered(a, h, h);
    if Edge(high, 1) in es {
      TooFew(es, h, high);
    }
    EndsPlain(a, high);
  }

  /** A value at which nothing begins, or nothing ends, is plain. */
  lemma EndsPlain(a: seq<SourceEstimate>, v: real)
    ensures Edge(v, -1) !in Swept(a) || Edge(v, 1) !in Swept(a) ==> Plain(a, v)
  {
    if !Plain(a, v) {
      var s :| s in a && Low(s) == v;
      var t :| t in a && High(t) == v;
      EdgesThere(a, s);
      EdgesThere(a, t);
    }
  }

  /** The top coverage exists. */
  lemma TopExists(a: seq<SourceEstimate>) returns (need: int, low: real, high: real)
    requires a != []
    ensures Top(a, need, low, high)
  {
    hide Swept, Cover, Open, TiesKeep, Sorted;
    var b := Sorted(a, LowGeq);
    SortedAscends(a, LowGeq);
    DescendingStartsFirst(b);
    var es := Swept(b);
    SweptMeaning(b, 0.0);
    var top := Most(es);
    need := Open(es[..top]);
    var first := PrefixIsCover(b, Low(b[0]));
    SomeCover(b);
    var i := FirstMet(es, need, top);
    var j := LastMet(es, need, top);
    low, high := es[i - 1].value, es[j].value;
    OpenIsCovered(b, i, i - 1);
    OpenIsCovered(b, j, j);
    forall x
      ensures Cover(b, x) <= need && (Cover(b, x) == need ==> low <= x <= high)
    {
      var m := PrefixIsCover(b, x);
      assert i <= m <= j || Open(es[..m]) < need;
    }
    TopOfReordered(b, a, need, low, high);
  }

  lemma SomeCover(sources: seq<SourceEstimate>)
    requires sources != []
    ensures Cover(sources, Low(sources[0])) >= 1
  {
    assert sources == [sources[0]] + sources[1..];
    CoverOfParts([sources[0]], sources[1..], Low(sources[0]));
    assert [sources[0]][..0] == [];
  }

  lemma Most(es: seq<Edge>) returns (top: nat)
    ensures top <= |es| && forall m | 0 <= m <= |es| :: Open(es[..m]) <= Open(es[..top])
  {
    top := 0;
    for k := 0 to |es| + 1
      invariant top <= |es| && forall m | 0 <= m < k :: Open(es[..m]) <= Open(es[..top])
    {
      if Open(es[..k]) > Open(es[..top]) {
        top := k;
      }
    }
  }

  /**
   The order the sources come in is irrelevant if and only if no value lies in a strict
   majority of the intervals, or at neither end of the top coverage does an interval begin
   where another ends.
   */
  lemma OrderMatters(a: seq<SourceEstimate>) returns (need: int, low: real, high: real)
    requires a != []
    ensures Top(a, need, low, high)
    ensures OrderIsIrrelevant(a) <==> 2 * need <= |a| || (Plain(a, low) && Plain(a, high))
  {
    need, low, high := TopExists(a);
    if 2 * need <= |a| || (Plain(a, low) && Plain(a, high)) {
      forall b, c, n, l, h | Reorders(a, b) && Reorders(a, c) && Picks(b, n, l, h)
        ensures Picks(c, n, l, h)
      {
        AllPickAlike(a, b, c, need, low, high, n, l, h);
      }
    } else {
      var b, c := Sorted(a, LowGeq), Sorted(a, LowLeq);
      SortedAscends(a, LowGeq);
      SortedAscends(a, LowLeq);
      TopOfReordered(a, b, need, low, high);
      TopOfReordered(a, c, need, low, high);
      DescendingStartsFirst(b);
      AscendingEndsFirst(c);
      TopIsMajority(a, need, low, high);
      StartsFirstPicks(b, need, low, high);
      if Picks(c, need, low, high) {
        EndsFirstNeedsPlain(c, need, low, high);
      }
      assert Reorders(a, b) && Reorders(a, c) && !Picks(c, need, low, high);
    }
  }

  lemma TopIsMajority(a: seq<SourceEstimate>, need: int, low: real, high: real)
    requires Top(a, need, low, high) && 2 * need > |a|
    ensures Majority(|a|, need)
  {
    assert Cover(a, low) <= |a|;
  }

  lemma AllPickAlike(
      a: seq<SourceEstimate>, b: seq<SourceEstimate>, c: seq<SourceEstimate>, need: int, low: real, high: real,
      n: int, l: real, h: real)
    requires Top(a, need, low, high) && (2 * need <= |a| || (Plain(a, low) && Plain(a, high)))
    requires Reorders(a, b) && Reorders(a, c) && Picks(b, n, l, h)
    ensures Picks(c, n, l, h)
  {
    TopOfReordered(a, b, need, low, high);
    TopOfReordered(a, c, need, low, high);
    if 2 * need <= |a| {
      NoMajorityNoPick(b, need, low, high, n, l, h);
    } else {
      TopIsMajority(a, need, low, high);
      PlainEndsArePicked(b, need, low, high);
      PickIsOne(b, n, l, h, need, low, high);
      PlainEndsArePicked(c, need, low, high);
    }
  }
}
