/**
 Falseticker rejection by interval intersection, and the weighted combination of the
 survivors. The sweep is the endpoint scan of section 11.2.1 of RFC 5905.
 */
module Selection {
  import opened Wrappers
  import opened Reals
  import opened StableSort

  datatype SourceEstimate = SourceEstimate(id: nat, offset: real, rootDistance: real, stratum: nat)

  datatype Selection = Selection(truechimers: seq<nat>, offset: Option<real>)

  /** An endpoint: `kind` is 1 for a lower one and -1 for an upper one. */
  datatype Edge = Edge(value: real, kind: int)

  // ----- intervals and coverage -----

  function Half(s: SourceEstimate): (r: real)
    ensures r > 0.0
  {
    Max(s.rootDistance, 0.000000001)
  }

  function Low(s: SourceEstimate): real {
    s.offset - Half(s)
  }

  function High(s: SourceEstimate): real {
    s.offset + Half(s)
  }

  predicate Contains(s: SourceEstimate, x: real) {
    Low(s) <= x <= High(s)
  }

  /** How many of the correctness intervals contain `x`. */
  function Cover(sources: seq<SourceEstimate>, x: real): (n: nat)
    ensures n <= |sources|
  {
    if sources == [] then 0
    else Cover(sources[..|sources| - 1], x) + (if Contains(sources[|sources| - 1], x) then 1 else 0)
  }

  /** No interval begins where another ends. */
  ghost predicate TouchFree(sources: seq<SourceEstimate>) {
    forall s, t | s in sources && t in sources :: Low(s) != High(t)
  }

  // ----- edges -----

  function Edges(sources: seq<SourceEstimate>): (es: seq<Edge>)
    ensures |es| == 2 * |sources|
  {
    if sources == [] then []
    else
      var s := sources[|sources| - 1];
      Edges(sources[..|sources| - 1]) + [Edge(Low(s), 1), Edge(High(s), -1)]
  }

  predicate ValueLeq(a: Edge, b: Edge) {
    a.value <= b.value
  }

  /** The sum of the kinds: how many intervals are open once these edges are passed. */
  function Open(es: seq<Edge>): int {
    if es == [] then 0 else Open(es[..|es| - 1]) + es[|es| - 1].kind
  }

  /** Does interval membership of `x` count this edge? */
  predicate Counts(e: Edge, x: real) {
    e.value < x || (e.value == x && e.kind == 1)
  }

  /** The sum of the kinds of the edges that count for `x`. */
  function Tally(es: seq<Edge>, x: real): int {
    if es == [] then 0
    else Tally(es[..|es| - 1], x) + (if Counts(es[|es| - 1], x) then es[|es| - 1].kind else 0)
  }

  ghost predicate Edgy(es: seq<Edge>) {
    forall e | e in es :: e.kind == 1 || e.kind == -1
  }

  lemma {:induction false} EdgesAreEnds(sources: seq<SourceEstimate>)
    ensures Edgy(Edges(sources))
    ensures forall e | e in Edges(sources) :: exists s | s in sources ::
            e.value == if e.kind == 1 then Low(s) else High(s)
  {
    if sources != [] {
      var n := |sources| - 1;
      EdgesAreEnds(sources[..n]);
      assert forall t | t in sources[..n] :: t in sources;
      assert sources[n] in sources;
    }
  }

  lemma {:induction false} EdgesMeaning(sources: seq<SourceEstimate>, x: real)
    ensures Edgy(Edges(sources)) && Open(Edges(sources)) == 0
    ensures Tally(Edges(sources), x) == Cover(sources, x)
    ensures forall e | e in Edges(sources) :: exists s | s in sources ::
            e.value == if e.kind == 1 then Low(s) else High(s)
  {
    EdgesAreEnds(sources);
    if sources != [] {
      var n := |sources| - 1;
      EdgesMeaning(sources[..n], x);
      var es, a, b := Edges(sources[..n]), Edge(Low(sources[n]), 1), Edge(High(sources[n]), -1);
      assert (es + [a, b])[..|es| + 1] == es + [a] && (es + [a])[..|es|] == es;
      assert Open(es + [a]) == Open(es) + 1 && Tally(es + [a], x) == Tally(es, x) + (if Counts(a, x) then 1 else 0);
    }
  }

  lemma {:induction false} Splits(a: seq<Edge>, b: seq<Edge>, x: real)
    ensures Open(a + b) == Open(a) + Open(b) && Tally(a + b, x) == Tally(a, x) + Tally(b, x)
  {
    if b == [] {
      assert a + b == a;
    } else {
      var n := |b| - 1;
      Splits(a, b[..n], x);
      assert (a + b)[..|a + b| - 1] == a + b[..n];
    }
  }

  lemma LessOne(b: seq<Edge>, i: nat, x: real)
    requires i < |b|
    ensures Open(b) == Open(b[..i] + b[i + 1..]) + b[i].kind
    ensures Tally(b, x) == Tally(b[..i] + b[i + 1..], x) + (if Counts(b[i], x) then b[i].kind else 0)
    ensures multiset(b[..i] + b[i + 1..]) == multiset(b) - multiset{b[i]}
  {
    var l, m, r := b[..i], [b[i]], b[i + 1..];
    assert b == (l + m) + r;
    Splits(l + m, r, x);
    Splits(l, m, x);
    Splits(l, r, x);
    assert m[..0] == [];
  }

  /** Open and Tally only depend on which edges there are. */
  lemma {:induction false} SameEdges(a: seq<Edge>, b: seq<Edge>, x: real)
    requires multiset(a) == multiset(b)
    ensures Open(a) == Open(b) && Tally(a, x) == Tally(b, x)
    decreases |a|
  {
    if a == [] {
      assert |b| == |multiset(b)| == 0;
    } else {
      var n := |a| - 1;
      assert a[n] in multiset(b);
      var i :| 0 <= i < |b| && b[i] == a[n];
      LessOne(b, i, x);
      LessOne(a, n, x);
      SameEdges(a[..n] + a[n + 1..], b[..i] + b[i + 1..], x);
    }
  }

  /** The endpoints in the order the sweep meets them. */
  function Swept(sources: seq<SourceEstimate>): (es: seq<Edge>)
    ensures |es| == 2 * |sources|
  {
    Sorted(Edges(sources), ValueLeq)
  }

  lemma SweptMeaning(sources: seq<SourceEstimate>, x: real)
    ensures var es := Swept(sources);
            && Edgy(es) && Open(es) == 0 && Tally(es, x) == Cover(sources, x) && Ascending(es, ValueLeq)
            && forall e | e in es :: exists s | s in sources :: e.value == if e.kind == 1 then Low(s) else High(s)
  {
    var es := Swept(sources);
    SortedAscends(Edges(sources), ValueLeq);
    EdgesMeaning(sources, x);
    SameEdges(es, Edges(sources), x);
    forall e | e in es
      ensures e in Edges(sources)
    {
      assert e in multiset(es);
    }
  }

  // ----- what the sweep finds -----

  /** Before position `m` are edges up to `v`, from `m` on edges from `v` up. */
  ghost predicate Parts(es: seq<Edge>, m: nat, v: real) {
    && m <= |es|
    && (forall i | 0 <= i < m :: es[i].value <= v)
    && (forall i | m <= i < |es| :: v <= es[i].value)
  }

  lemma {:induction false} PartCounts(es: seq<Edge>, v: real, below: bool)
    requires Edgy(es) && forall e | e in es :: if below then e.value <= v else v <= e.value
    ensures below ==> Open(es) <= Tally(es, v)
    ensures !below ==> 0 <= Tally(es, v)
  {
    if es != [] {
      var n := |es| - 1;
      assert forall e | e in es[..n] :: e in es;
      assert es[n] in es;
      PartCounts(es[..n], v, below);
    }
  }

  /** Wherever the sweep stands, at least as many intervals contain that value as it has open. */
  lemma PartIsCovered(sources: seq<SourceEstimate>, m: nat, v: real)
    requires Parts(Swept(sources), m, v)
    ensures Open(Swept(sources)[..m]) <= Cover(sources, v)
  {
    var es := Swept(sources);
    SweptMeaning(sources, v);
    assert es == es[..m] + es[m..];
    Splits(es[..m], es[m..], v);
    assert forall e | e in es[..m] :: e in es && e.value <= v;
    assert forall e | e in es[m..] :: e in es && v <= e.value;
    PartCounts(es[..m], v, true);
    PartCounts(es[m..], v, false);
  }

  /** How many edges lie up to `v`, or below it. */
  function Rank(es: seq<Edge>, v: real, inclusive: bool): (m: nat)
    ensures m <= |es|
  {
    if es == [] then 0
    else if (if inclusive then es[|es| - 1].value <= v else es[|es| - 1].value < v) then |es|
    else Rank(es[..|es| - 1], v, inclusive)
  }

  lemma {:induction false} RankParts(es: seq<Edge>, v: real, inclusive: bool)
    requires Ascending(es, ValueLeq)
    ensures forall i | 0 <= i < Rank(es, v, inclusive) :: if inclusive then es[i].value <= v else es[i].value < v
    ensures forall i | Rank(es, v, inclusive) <= i < |es| :: if inclusive then v < es[i].value else v <= es[i].value
  {
    if es != [] {
      var n := |es| - 1;
      if inclusive {
        assert forall i | 0 <= i < n :: ValueLeq(es[i], es[n]);
      } else {
        assert forall i | 0 <= i < n :: ValueLeq(es[i], es[n]);
      }
      RankParts(es[..n], v, inclusive);
    }
  }

  lemma {:induction false} AllOrNone(es: seq<Edge>, v: real, all: bool)
    requires forall e | e in es :: Counts(e, v) <==> all
    ensures Tally(es, v) == if all then Open(es) else 0
  {
    if es != [] {
      var n := |es| - 1;
      assert forall e | e in es[..n] :: e in es;
      assert es[n] in es;
      AllOrNone(es[..n], v, all);
    }
  }

  /** No interval begins at `v`, or none ends there. */
  ghost predicate Plain(sources: seq<SourceEstimate>, v: real) {
    (forall s | s in sources :: Low(s) != v) || (forall s | s in sources :: High(s) != v)
  }

  /** The sweep passes through the coverage of every value where no interval begins as another ends. */
  lemma CoverIsMet(sources: seq<SourceEstimate>, v: real) returns (m: nat)
    requires Plain(sources, v)
    ensures Parts(Swept(sources), m, v) && Open(Swept(sources)[..m]) == Cover(sources, v)
  {
    hide Swept, Cover;
    var es := Swept(sources);
    SweptMeaning(sources, v);
    var inclusive := forall s | s in sources :: High(s) != v;
    m := Rank(es, v, inclusive);
    RankParts(es, v, inclusive);
    assert es == es[..m] + es[m..];
    Splits(es[..m], es[m..], v);
    forall e | e in es[..m]
      ensures Counts(e, v)
    {
      assert e in es;
    }
    forall e | e in es[m..]
      ensures !Counts(e, v)
    {
      assert e in es;
    }
    AllOrNone(es[..m], v, true);
    AllOrNone(es[m..], v, false);
  }

  /** `low` is where the sweep from below first has `need` intervals open. */
  ghost predicate LowAt(es: seq<Edge>, need: int, m: nat, low: real) {
    && 1 <= m <= |es| && Open(es[..m]) >= need && low == es[m - 1].value
    && (forall k | 0 <= k < m :: Open(es[..k]) < need)
  }

  /** `high` is where the sweep from above first has `need` intervals open. */
  ghost predicate HighAt(es: seq<Edge>, need: int, m: nat, high: real) {
    && m < |es| && Open(es[..m]) >= need && high == es[m].value
    && (forall k | m < k <= |es| :: Open(es[..k]) < need)
  }

  ghost predicate NeverMore(es: seq<Edge>, need: int) {
    forall m | 0 <= m <= |es| :: Open(es[..m]) <= need
  }

  ghost predicate Majority(n: nat, need: int) {
    need <= n < 2 * need
  }

  /**
   The interval the sweep settles on: for the fewest falsetickers, where `need` intervals
   are first open from either side.
   */
  ghost predicate Picks(sources: seq<SourceEstimate>, need: int, low: real, high: real) {
    var es := Swept(sources);
    && Majority(|sources|, need) && NeverMore(es, need)
    && (exists m :: LowAt(es, need, m, low)) && (exists m :: HighAt(es, need, m, high))
  }

  /** There is no majority anywhere in the sweep. */
  ghost predicate NoPick(sources: seq<SourceEstimate>) {
    var es := Swept(sources);
    forall m | 0 <= m <= |es| :: 2 * Open(es[..m]) <= |sources|
  }

  lemma PartsAt(es: seq<Edge>, m: nat, i: nat)
    requires Ascending(es, ValueLeq) && m <= |es| && i < |es| && (i == m || i + 1 == m)
    ensures Parts(es, m, es[i].value)
  {
    forall k | 0 <= k < |es| && k != i
      ensures if k < i then es[k].value <= es[i].value else es[i].value <= es[k].value
    {
      assert if k < i then ValueLeq(es[k], es[i]) else ValueLeq(es[i], es[k]);
    }
  }

  lemma PickedEnds(sources: seq<SourceEstimate>, need: int, low: real, high: real, a: nat, b: nat)
    requires LowAt(Swept(sources), need, a, low) && HighAt(Swept(sources), need, b, high)
    ensures a <= b && low <= high && Cover(sources, low) >= need && Cover(sources, high) >= need
  {
    var es := Swept(sources);
    SweptMeaning(sources, low);
    PartsAt(es, a, a - 1);
    PartIsCovered(sources, a, low);
    PartsAt(es, b, b);
    PartIsCovered(sources, b, high);
    assert a <= b;
    assert ValueLeq(es[a - 1], es[b]);
  }

  lemma PickedCovers(sources: seq<SourceEstimate>, need: int, low: real, high: real, a: nat, b: nat, x: real)
    requires LowAt(Swept(sources), need, a, low) && HighAt(Swept(sources), need, b, high)
    requires Plain(sources, x) && Cover(sources, x) >= need
    ensures low <= x <= high
  {
    var m := CoverIsMet(sources, x);
    assert a <= m <= b;
  }

  /**
   The interval picked is not empty, both its ends lie in at least `need` of the
   intervals, a strict majority; every value where no interval begins as another ends
   and that lies in `need` intervals lies inside it, and no such value lies in more.
   */
  lemma PickedInterval(sources: seq<SourceEstimate>, need: int, low: real, high: real)
    requires Picks(sources, need, low, high)
    ensures low <= high && Majority(|sources|, need)
    ensures Cover(sources, low) >= need && Cover(sources, high) >= need
    ensures forall x | Plain(sources, x) :: Cover(sources, x) <= need
    ensures forall x | Plain(sources, x) && Cover(sources, x) >= need :: low <= x <= high
  {
    var es := Swept(sources);
    var a :| LowAt(es, need, a, low);
    var b :| HighAt(es, need, b, high);
    PickedEnds(sources, need, low, high, a, b);
    forall x | Plain(sources, x)
      ensures Cover(sources, x) <= need && (Cover(sources, x) >= need ==> low <= x <= high)
    {
      var m := CoverIsMet(sources, x);
      if Cover(sources, x) >= need {
        PickedCovers(sources, need, low, high, a, b, x);
      }
    }
  }

  /** Where nothing is picked, no value where no interval begins as another ends has a majority. */
  lemma NothingPicked(sources: seq<SourceEstimate>)
    requires NoPick(sources)
    ensures forall x | Plain(sources, x) :: 2 * Cover(sources, x) <= |sources|
  {
    forall x | Plain(sources, x)
      ensures 2 * Cover(sources, x) <= |sources|
    {
      var m := CoverIsMet(sources, x);
    }
  }

  // ----- consequences -----

  lemma {:induction false} CoverOfParts(a: seq<SourceEstimate>, b: seq<SourceEstimate>, x: real)
    ensures Cover(a + b, x) == Cover(a, x) + Cover(b, x)
  {
    if b == [] {
      assert a + b == a;
    } else {
      assert (a + b)[..|a + b| - 1] == a + b[..|b| - 1];
      CoverOfParts(a, b[..|b| - 1], x);
    }
  }

  lemma CoverLessOne(b: seq<SourceEstimate>, i: nat, x: real)
    requires i < |b|
    ensures Cover(b, x) == Cover(b[..i] + b[i + 1..], x) + (if Contains(b[i], x) then 1 else 0)
    ensures multiset(b[..i] + b[i + 1..]) == multiset(b) - multiset{b[i]}
  {
    var l, m, r := b[..i], [b[i]], b[i + 1..];
    assert b == (l + m) + r;
    CoverOfParts(l + m, r, x);
    CoverOfParts(l, m, x);
    CoverOfParts(l, r, x);
    assert m[..0] == [];
  }

  /** Coverage does not depend on the order of the sources. */
  lemma {:induction false} CoverOfPermutation(a: seq<SourceEstimate>, b: seq<SourceEstimate>, x: real)
    requires multiset(a) == multiset(b)
    ensures Cover(a, x) == Cover(b, x)
    decreases |a|
  {
    if a == [] {
      assert |b| == |multiset(b)| == 0;
    } else {
      var n := |a| - 1;
      assert a[n] in multiset(b);
      var i :| 0 <= i < |b| && b[i] == a[n];
      CoverLessOne(b, i, x);
      CoverLessOne(a, n, x);
      CoverOfPermutation(a[..n] + a[n + 1..], b[..i] + b[i + 1..], x);
    }
  }

  lemma TouchFreeIsPlain(sources: seq<SourceEstimate>, x: real)
    requires TouchFree(sources)
    ensures Plain(sources, x)
  {
  }

  /**
   When no interval begins where another ends, what is picked is decided by coverage
   alone: `need` is the most intervals any value lies in, and `low` and `high` are the
   least and the greatest value that lies in that many.
   */
  lemma TouchFreePick(sources: seq<SourceEstimate>, need: int, low: real, high: real)
    requires TouchFree(sources) && Picks(sources, need, low, high)
    ensures Cover(sources, low) == need == Cover(sources, high)
    ensures forall x :: Cover(sources, x) <= need && (Cover(sources, x) == need ==> low <= x <= high)
  {
    PickedInterval(sources, need, low, high);
    forall x
      ensures Cover(sources, x) <= need && (Cover(sources, x) == need ==> low <= x <= high)
    {
      TouchFreeIsPlain(sources, x);
    }
  }

  /** Then the order the sources come in does not matter. */
  lemma OrderDoesNotMatter(a: seq<SourceEstimate>, b: seq<SourceEstimate>, need: int, low: real, high: real,
                           need': int, low': real, high': real)
    requires multiset(a) == multiset(b) && TouchFree(a)
    requires Picks(a, need, low, high) && Picks(b, need', low', high')
    ensures need == need' && low == low' && high == high'
  {
    forall s | s in b
      ensures s in a
    {
      assert s in multiset(b);
    }
    TouchFreePick(a, need, low, high);
    TouchFreePick(b, need', low', high');
    CoverOfPermutation(a, b, low);
    CoverOfPermutation(a, b, high);
    CoverOfPermutation(a, b, low');
    CoverOfPermutation(a, b, high');
  }

  /** And an interval is picked exactly when some value lies in a strict majority of the intervals. */
  lemma TouchFreeNoPick(sources: seq<SourceEstimate>)
    requires TouchFree(sources)
    ensures NoPick(sources) <==> forall x :: 2 * Cover(sources, x) <= |sources|
  {
    hide Swept, Cover;
    if NoPick(sources) {
      NothingPicked(sources);
      forall x
        ensures 2 * Cover(sources, x) <= |sources|
      {
        TouchFreeIsPlain(sources, x);
      }
    } else {
      var es := Swept(sources);
      assert Open(es[..0]) == 0;
      var m :| 0 < m <= |es| && 2 * Open(es[..m]) > |sources|;
      SweptMeaning(sources, 0.0);
      PartsAt(es, m, m - 1);
      PartIsCovered(sources, m, es[m - 1].value);
    }
  }

  /**
   Touching intervals are decided by the order the sources come in: of two intervals
   that share one value only, the sweep meets a common value in one order and none in
   the other.
   */
  lemma TouchingDependsOnOrder()
    ensures var a, b := SourceEstimate(0, 1.0, 1.0, 2), SourceEstimate(1, 3.0, 1.0, 2);
            NoPick([a, b]) && Picks([b, a], 2, 2.0, 2.0)
  {
    var a, b := SourceEstimate(0, 1.0, 1.0, 2), SourceEstimate(1, 3.0, 1.0, 2);
    assert [a, b][..1] == [a] && [b, a][..1] == [b] && [a][..0] == [] && [b][..0] == [];
    assert Edges([a]) == [Edge(0.0, 1), Edge(2.0, -1)] && Edges([b]) == [Edge(2.0, 1), Edge(4.0, -1)];
    assert Edges([a, b]) == [Edge(0.0, 1), Edge(2.0, -1), Edge(2.0, 1), Edge(4.0, -1)];
    assert Edges([b, a]) == [Edge(2.0, 1), Edge(4.0, -1), Edge(0.0, 1), Edge(2.0, -1)];
    TouchingSwept();
    var es, fs := Swept([a, b]), Swept([b, a]);
    FourOpen(es);
    FourOpen(fs);
    assert LowAt(fs, 2, 2, 2.0) && HighAt(fs, 2, 2, 2.0);
  }

  lemma TouchingSwept()
    ensures Sorted([Edge(0.0, 1), Edge(2.0, -1), Edge(2.0, 1), Edge(4.0, -1)], ValueLeq)
            == [Edge(0.0, 1), Edge(2.0, -1), Edge(2.0, 1), Edge(4.0, -1)]
    ensures Sorted([Edge(2.0, 1), Edge(4.0, -1), Edge(0.0, 1), Edge(2.0, -1)], ValueLeq)
            == [Edge(0.0, 1), Edge(2.0, 1), Edge(2.0, -1), Edge(4.0, -1)]
  {
    var p, q, r, t := Edge(0.0, 1), Edge(2.0, -1), Edge(2.0, 1), Edge(4.0, -1);
    SortFour(p, q, r, t);
    SortFour(r, t, p, q);
    assert Inserted([r], t, ValueLeq) == [r, t];
    assert [r, t][..1] == [r] && [r][..0] == [];
    assert Inserted([r], p, ValueLeq) == [p, r];
    assert Inserted([r, t], p, ValueLeq) == [p, r, t];
    assert [p, r, t][..2] == [p, r];
    assert Inserted([p, r], q, ValueLeq) == [p, r, q];
  }

  lemma SortFour(a: Edge, b: Edge, c: Edge, d: Edge)
    ensures Sorted([a, b, c, d], ValueLeq)
            == Inserted(Inserted(Inserted([a], b, ValueLeq), c, ValueLeq), d, ValueLeq)
  {
    assert [a, b, c, d][..3] == [a, b, c] && [a, b, c][..2] == [a, b] && [a, b][..1] == [a] && [a][..0] == [];
    assert Sorted([a], ValueLeq) == [a];
    assert Sorted([a, b], ValueLeq) == Inserted([a], b, ValueLeq);
    assert Sorted([a, b, c], ValueLeq) == Inserted(Sorted([a, b], ValueLeq), c, ValueLeq);
  }

  lemma FourOpen(es: seq<Edge>)
    requires |es| == 4
    ensures Open(es[..0]) == 0 && Open(es[..1]) == es[0].kind && Open(es[..2]) == es[0].kind + es[1].kind
    ensures Open(es[..3]) == es[0].kind + es[1].kind + es[2].kind
    ensures Open(es[..4]) == es[0].kind + es[1].kind + es[2].kind + es[3].kind
  {
    assert es[..1][..0] == es[..0] && es[..2][..1] == es[..1] && es[..3][..2] == es[..2] && es[..4][..3] == es[..3];
  }

  /** How many of the sources `truthful` marks. */
  function Marked(truthful: seq<bool>): (n: nat)
    ensures n <= |truthful|
  {
    if truthful == [] then 0
    else Marked(truthful[..|truthful| - 1]) + (if truthful[|truthful| - 1] then 1 else 0)
  }

  lemma {:induction false} SharedMember(sources: seq<SourceEstimate>, truthful: seq<bool>, x: real) returns (i: nat)
    requires |truthful| == |sources| < Cover(sources, x) + Marked(truthful)
    ensures i < |sources| && truthful[i] && Contains(sources[i], x)
  {
    var n := |sources| - 1;
    if truthful[n] && Contains(sources[n], x) {
      return n;
    }
    i := SharedMember(sources[..n], truthful[..n], x);
  }

  /**
   If the intervals of a strict majority of the sources contain the true offset, both
   ends of the picked interval lie within the interval of one of those sources.
   */
  lemma MajorityKeepsTruth(sources: seq<SourceEstimate>, truthful: seq<bool>, truth: real, need: int, low: real,
                           high: real)
    returns (i: nat, j: nat)
    requires |truthful| == |sources| < 2 * Marked(truthful)
    requires forall k | 0 <= k < |sources| && truthful[k] :: Contains(sources[k], truth)
    requires Picks(sources, need, low, high)
    ensures i < |sources| && truthful[i] && Contains(sources[i], low) && Abs(low - truth) <= 2.0 * Half(sources[i])
    ensures j < |sources| && truthful[j] && Contains(sources[j], high) && Abs(high - truth) <= 2.0 * Half(sources[j])
  {
    PickedInterval(sources, need, low, high);
    i := SharedMember(sources, truthful, low);
    j := SharedMember(sources, truthful, high);
  }
}
