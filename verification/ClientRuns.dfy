/** What every run of the client table keeps, proved on the functions of module ClientPolicy. */
module ClientRuns {
  import opened Wrappers
  import opened Reals
  import opened ClientTypes
  import opened ClientPolicy

  // ----- shape: a bounded map and an ordering of its keys -----

  ghost predicate Differ<T>(s: seq<T>, i: int, j: int)
    requires 0 <= i < |s| && 0 <= j < |s|
  {
    s[i] != s[j]
  }

  ghost predicate Distinct<T>(s: seq<T>) {
    forall i, j {:trigger Differ(s, i, j)} | 0 <= i < j < |s| :: Differ(s, i, j)
  }

  ghost predicate Shaped<K>(p: Policy, t: Table<K>) {
    && Distinct(t.recency)
    && (forall k | k in t.recency :: k in t.records)
    && (forall k | k in t.records :: k in t.recency)
    && t.records.Keys == t.noted.Keys
    && |t.recency| <= p.capacity
  }

  lemma DistinctAt<T>(s: seq<T>, i: int, j: int)
    requires Distinct(s)
    ensures 0 <= i < |s| && 0 <= j < |s| && i != j ==> s[i] != s[j]
  {
    if 0 <= i < j < |s| {
      assert Differ(s, i, j);
    } else if 0 <= j < i < |s| {
      assert Differ(s, j, i);
    }
  }

  lemma OmitDistinct<T>(s: seq<T>, p: nat)
    requires Distinct(s) && p < |s|
    ensures Distinct(Omit(s, p)) && s[p] !in Omit(s, p)
    ensures forall x | x in Omit(s, p) :: x in s
    ensures forall x | x in s && x != s[p] :: x in Omit(s, p)
  {
    var r := Omit(s, p);
    forall i, j | 0 <= i < j < |r|
      ensures Differ(r, i, j)
    {
      DistinctAt(s, if i < p then i else i + 1, if j < p then j else j + 1);
    }
    forall i | 0 <= i < |r|
      ensures r[i] != s[p]
    {
      DistinctAt(s, if i < p then i else i + 1, p);
    }
    assert s == s[..p] + [s[p]] + s[p + 1..];
  }

  lemma PrependDistinct<T>(s: seq<T>, x: T)
    requires Distinct(s) && x !in s
    ensures Distinct([x] + s)
  {
    forall i, j | 0 <= i < j < |[x] + s|
      ensures Differ([x] + s, i, j)
    {
      if i > 0 {
        assert Differ(s, i - 1, j - 1);
      }
    }
  }

  lemma WithoutShape<K>(s: seq<K>, k: K)
    requires Distinct(s)
    ensures Distinct(Without(s, k))
    ensures forall x | x in Without(s, k) :: x in s && x != k
    ensures forall x | x in s && x != k :: x in Without(s, k)
    ensures |Without(s, k)| == |s| - (if k in s then 1 else 0)
  {
    var i := IndexOf(s, k);
    IndexOfMeaning(s, k);
    if i < |s| {
      OmitDistinct(s, i);
    }
  }

  lemma EvictKeepsShape<K>(p: Policy, t: Table<K>)
    requires Shaped(p, t) && |t.recency| > 0
    ensures Shaped(p, Evict(t)) && |Evict(t).recency| == |t.recency| - 1
    ensures forall k | k in Evict(t).records :: k in t.records && Evict(t).records[k] == t.records[k]
  {
    var s, n := t.recency, |t.recency| - 1;
    OmitDistinct(s, n);
    assert Omit(s, n) == s[..n];
  }

  lemma EnterKeepsShape<K>(p: Policy, t: Table<K>, key: K, now: real)
    requires Shaped(p, t) && p.capacity > 0
    ensures Shaped(p, Enter(p, t, key, now)) && key in Enter(p, t, key, now).records
  {
    if key in t.records {
      WithoutShape(t.recency, key);
      PrependDistinct(Without(t.recency, key), key);
    } else if |t.recency| >= p.capacity {
      EvictKeepsShape(p, t);
      PrependDistinct(Evict(t).recency, key);
    } else {
      PrependDistinct(t.recency, key);
    }
  }

  /** Booking a charge moves tokens and counters, not keys. */
  lemma SettleMovesNoKeys<K>(t: Table<K>, key: K, charged: (ClientRecord, Disposition))
    requires key in t.records
    ensures var t' := Settle(t, key, charged);
            t'.recency == t.recency && t'.records.Keys == t.records.Keys && t'.noted == t.noted
  {
  }

  lemma PassMovesKeys<K>(p: Policy, t: Table<K>, key: K, now: real)
    ensures var t', e := Pass(p, t, key, now).0, Enter(p, t, key, now);
            t'.recency == e.recency && t'.records.Keys == e.records.Keys && t'.noted == e.noted
  {
    var e := Enter(p, t, key, now);
    SettleMovesNoKeys(e, key, Charge(p.config, e.records[key], now));
  }

  lemma RefillMovesNoKeys<K>(c: RateLimitConfig, t: Table<K>, now: real)
    ensures var t' := GlobalRefill(c, Counted(t), now);
            t'.recency == t.recency && t'.records == t.records && t'.noted == t.noted
  {
  }

  /** Only a request that gets past the global ceiling moves keys, and it moves them by entering. */
  lemma AdmitMovesKeys<K>(p: Policy, t: Table<K>, key: K, now: real)
    ensures var t1 := GlobalRefill(p.config, Counted(t), now);
            var e := if Shed(p.config, t, now) then t1 else Enter(p, t1, key, now);
            var t' := Admit(p, t, key, now).0;
            t'.recency == e.recency && t'.records.Keys == e.records.Keys && t'.noted == e.noted
  {
    PassMovesKeys(p, GlobalRefill(p.config, Counted(t), now), key, now);
  }

  lemma StepKeepsShape<K>(p: Policy, t: Table<K>, e: Event<K>)
    requires Shaped(p, t) && p.capacity > 0
    ensures Shaped(p, Step(p, t, e))
  {
    match e {
      case Request(key, now) =>
        AdmitMovesKeys(p, t, key, now);
        RefillMovesNoKeys(p.config, t, now);
        EnterKeepsShape(p, GlobalRefill(p.config, Counted(t), now), key, now);
      case Mode(who, origin) =>
      case Answered(who, receive, sent) =>
      case Sent(who, transmit) =>
      case Refused =>
    }
  }

  /** In every run the table stays a map ordered by recency and never exceeds its capacity. */
  lemma {:induction false} RunKeepsShape<K>(p: Policy, t: Table<K>, events: seq<Event<K>>)
    requires Shaped(p, t) && p.capacity > 0
    ensures Shaped(p, Run(p, t, events))
    decreases |events|
  {
    if events != [] {
      StepKeepsShape(p, t, events[0]);
      RunKeepsShape(p, Step(p, t, events[0]), events[1..]);
    }
  }

  // ----- recency: the table is the most recently admitted keys -----

  /** The keys of a trace, most recently occurring first. */
  function MostRecentFirst<K(==)>(trace: seq<K>): seq<K> {
    if trace == [] then []
    else
      var k := trace[|trace| - 1];
      [k] + Without(MostRecentFirst(trace[..|trace| - 1]), k)
  }

  /** The position of the last occurrence of `k` in `trace`, or -1. */
  function LastAt<K(==)>(trace: seq<K>, k: K): (i: int)
    ensures -1 <= i < |trace|
    ensures i >= 0 <==> k in trace
    ensures i >= 0 ==> trace[i] == k && k !in trace[i + 1..]
  {
    if trace == [] then -1
    else if trace[|trace| - 1] == k then |trace| - 1
    else
      var i := LastAt(trace[..|trace| - 1], k);
      assert trace == trace[..|trace| - 1] + [trace[|trace| - 1]];
      assert i >= 0 ==> trace[i + 1..] == trace[..|trace| - 1][i + 1..] + [trace[|trace| - 1]];
      i
  }

  ghost predicate SortedByLast<K>(s: seq<K>, trace: seq<K>) {
    forall i, j | 0 <= i < j < |s| :: LastAt(trace, s[i]) > LastAt(trace, s[j])
  }

  lemma WithoutSorted<K>(s: seq<K>, k: K, trace: seq<K>)
    requires SortedByLast(s, trace)
    ensures SortedByLast(Without(s, k), trace)
  {
    IndexOfMeaning(s, k);
  }

  /** `MostRecentFirst` lists exactly the keys of the trace, by descending last occurrence. */
  lemma {:induction false} MostRecentFirstMeaning<K>(trace: seq<K>)
    ensures SortedByLast(MostRecentFirst(trace), trace) && Distinct(MostRecentFirst(trace))
    ensures forall k | k in trace :: k in MostRecentFirst(trace)
    ensures forall k | k in MostRecentFirst(trace) :: k in trace
  {
    if trace != [] {
      var n := |trace| - 1;
      var older := trace[..n];
      MostRecentFirstMeaning(older);
      assert trace == older + [trace[n]];
      FrontMeaning(older, trace[n], MostRecentFirst(older), trace, MostRecentFirst(trace));
    }
  }

  /** One more occurrence of `k` brings it to the front and leaves the others in order. */
  lemma FrontMeaning<K>(older: seq<K>, k: K, s: seq<K>, trace: seq<K>, s': seq<K>)
    requires SortedByLast(s, older) && Distinct(s)
    requires forall x | x in older :: x in s
    requires forall x | x in s :: x in older
    requires trace == older + [k] && s' == [k] + Without(s, k)
    ensures SortedByLast(s', trace) && Distinct(s')
    ensures forall x | x in trace :: x in s'
    ensures forall x | x in s' :: x in trace
  {
    var rest := Without(s, k);
    WithoutShape(s, k);
    PrependDistinct(Without(s, k), k);
    WithoutSorted(s, k, older);
    assert trace[..|older|] == older;
    forall x | x in rest
      ensures LastAt(trace, x) == LastAt(older, x)
    {
    }
  }

  function Take<T>(s: seq<T>, n: nat): seq<T> {
    if n <= |s| then s[..n] else s
  }

  /** Removing a key from the kept prefix commutes with keeping one key fewer. */
  lemma WithoutTake<K>(s: seq<K>, k: K, n: nat)
    requires Distinct(s) && n > 0
    ensures k in Take(s, n) ==> Without(Take(s, n), k) == Take(Without(s, k), n - 1)
    ensures k !in Take(s, n) ==> Take(s, n - 1) == Take(Without(s, k), n - 1)
  {
    var i := IndexOf(s, k);
    IndexOfMeaning(s, k);
    if n < |s| && i < n {
      assert s[..n][..i] == s[..i];
      IndexOfIs(s[..n], k, i);
      assert Omit(s[..n], i) == Omit(s, i)[..n - 1];
    } else if n < |s| {
      assert s[..n] == s[..i][..n];
      assert i < |s| ==> Omit(s, i)[..n - 1] == s[..n - 1];
    } else {
      assert s[..|s|] == s;
    }
  }

  /** The key a step admits to the table, if it admits one. */
  function AdmittedBy<K>(p: Policy, t: Table<K>, e: Event<K>): seq<K> {
    if e.Request? && !Shed(p.config, t, e.now) then [e.key] else []
  }

  /** The keys of the requests of a run that got past the global ceiling, in order. */
  function Reached<K(==)>(p: Policy, t: Table<K>, events: seq<Event<K>>): seq<K>
    decreases |events|
  {
    if events == [] then []
    else AdmittedBy(p, t, events[0]) + Reached(p, Step(p, t, events[0]), events[1..])
  }

  /** Bring the keys of `trace`, in order, to the front of `u`. */
  function ToFront<K(==)>(u: seq<K>, trace: seq<K>): seq<K>
    decreases |trace|
  {
    if trace == [] then u else ToFront([trace[0]] + Without(u, trace[0]), trace[1..])
  }

  lemma {:induction false} ToFrontLast<K>(u: seq<K>, a: seq<K>, k: K)
    ensures ToFront(u, a + [k]) == [k] + Without(ToFront(u, a), k)
    decreases |a|
  {
    if a == [] {
      assert (a + [k])[1..] == [];
    } else {
      ToFrontLast([a[0]] + Without(u, a[0]), a[1..], k);
      assert (a + [k])[1..] == a[1..] + [k];
    }
  }

  /** Bringing keys to the front one by one lists them by most recent occurrence. */
  lemma {:induction false} ToFrontIsMostRecentFirst<K>(trace: seq<K>)
    ensures ToFront([], trace) == MostRecentFirst(trace)
  {
    hide Without;
    if trace != [] {
      var older, k := trace[..|trace| - 1], trace[|trace| - 1];
      ToFrontIsMostRecentFirst(older);
      ToFrontLast([], older, k);
      assert trace == older + [k];
    }
  }

  /** One admission moves the key to the front and keeps the `capacity` most recent. */
  lemma EnterIsMoveToFront<K>(p: Policy, t: Table<K>, key: K, now: real, u: seq<K>)
    requires Shaped(p, t) && p.capacity > 0 && Distinct(u) && t.recency == Take(u, p.capacity)
    ensures Enter(p, t, key, now).recency == Take([key] + Without(u, key), p.capacity)
  {
    WithoutTake(u, key, p.capacity);
    WithoutShape(u, key);
    assert Take([key] + Without(u, key), p.capacity) == [key] + Take(Without(u, key), p.capacity - 1);
    if key !in t.records {
      assert key !in t.recency;
      if |t.recency| < p.capacity {
        assert t.recency == u && Take(u, p.capacity - 1) == u;
      } else {
        assert t.recency[..|t.recency| - 1] == Take(u, p.capacity - 1);
      }
    }
  }

  lemma StepIsMoveToFront<K>(p: Policy, t: Table<K>, e: Event<K>, u: seq<K>)
    requires Shaped(p, t) && p.capacity > 0 && Distinct(u) && t.recency == Take(u, p.capacity)
    ensures Step(p, t, e).recency == Take(ToFront(u, AdmittedBy(p, t, e)), p.capacity)
    ensures Distinct(ToFront(u, AdmittedBy(p, t, e)))
  {
    if e.Request? {
      AdmitMovesKeys(p, t, e.key, e.now);
      RefillMovesNoKeys(p.config, t, e.now);
      WithoutShape(u, e.key);
      PrependDistinct(Without(u, e.key), e.key);
    }
    if e.Request? && !Shed(p.config, t, e.now) {
      EnterIsMoveToFront(p, GlobalRefill(p.config, Counted(t), e.now), e.key, e.now, u);
      assert AdmittedBy(p, t, e)[1..] == [];
    }
  }

  lemma {:induction false} RunIsMoveToFront<K>(p: Policy, t: Table<K>, events: seq<Event<K>>, u: seq<K>)
    requires Shaped(p, t) && p.capacity > 0 && Distinct(u) && t.recency == Take(u, p.capacity)
    ensures Run(p, t, events).recency == Take(ToFront(u, Reached(p, t, events)), p.capacity)
    decreases |events|
  {
    if events != [] {
      var e, rest := events[0], Reached(p, Step(p, t, events[0]), events[1..]);
      StepKeepsShape(p, t, e);
      StepIsMoveToFront(p, t, e, u);
      RunIsMoveToFront(p, Step(p, t, e), events[1..], ToFront(u, AdmittedBy(p, t, e)));
      if AdmittedBy(p, t, e) == [] {
        assert Reached(p, t, events) == rest;
      } else {
        assert AdmittedBy(p, t, e)[1..] == [] && Reached(p, t, events)[1..] == rest;
      }
    }
  }

  /**
   After any run from the empty table, the table holds exactly the `capacity` most
   recently admitted distinct keys, most recent first: a full table evicts the least
   recently admitted key and nothing else.
   */
  lemma RunIsLeastRecentlyUsed<K>(p: Policy, events: seq<Event<K>>)
    requires p.capacity > 0
    ensures Run(p, Empty(p), events).recency == Take(MostRecentFirst(Reached(p, Empty(p), events)), p.capacity)
  {
    var trace := Reached(p, Empty(p), events);
    RunIsMoveToFront(p, Empty(p), events, []);
    ToFrontIsMostRecentFirst(trace);
  }
}
