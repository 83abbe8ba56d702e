/** What a stable library sort returns. */
module StableSort {
  /** `x` after everything it does not precede in an already sorted `s`. */
  function Inserted<T>(s: seq<T>, x: T, leq: (T, T) -> bool): (r: seq<T>)
    ensures |r| == |s| + 1
  {
    if s == [] || leq(s[|s| - 1], x) then s + [x]
    else Inserted(s[..|s| - 1], x, leq) + [s[|s| - 1]]
  }

  function Sorted<T>(s: seq<T>, leq: (T, T) -> bool): (r: seq<T>)
    ensures |r| == |s|
  {
    if s == [] then [] else Inserted(Sorted(s[..|s| - 1], leq), s[|s| - 1], leq)
  }

  ghost predicate TotalPreorder<T(!new)>(leq: (T, T) -> bool) {
    && (forall a, b :: leq(a, b) || leq(b, a))
    && (forall a, b, c :: leq(a, b) && leq(b, c) ==> leq(a, c))
  }

  ghost predicate Ascending<T>(s: seq<T>, leq: (T, T) -> bool) {
    forall i, j | 0 <= i < j < |s| :: leq(s[i], s[j])
  }

  lemma {:induction false} InsertedSame<T>(s: seq<T>, x: T, leq: (T, T) -> bool)
    ensures multiset(Inserted(s, x, leq)) == multiset(s) + multiset{x}
  {
    if s != [] && !leq(s[|s| - 1], x) {
      InsertedSame(s[..|s| - 1], x, leq);
      assert s == s[..|s| - 1] + [s[|s| - 1]];
    }
  }

  /** What is inserted or was already there is followed by the last. */
  lemma AllBeforeLast<T(!new)>(r: seq<T>, rest: seq<T>, x: T, last: T, leq: (T, T) -> bool)
    requires multiset(r) == multiset(rest) + multiset{x} && leq(x, last)
    requires forall y | y in rest :: leq(y, last)
    ensures forall y | y in r :: leq(y, last)
  {
    forall y | y in r
      ensures leq(y, last)
    {
      assert y in multiset(r);
    }
  }

  lemma {:induction false} InsertedAscends<T(!new)>(s: seq<T>, x: T, leq: (T, T) -> bool)
    requires TotalPreorder(leq) && Ascending(s, leq)
    ensures Ascending(Inserted(s, x, leq), leq)
  {
    if s == [] {
    } else if leq(s[|s| - 1], x) {
      forall y | y in s
        ensures leq(y, x)
      {
        assert leq(y, s[|s| - 1]);
      }
    } else {
      var rest, last := s[..|s| - 1], s[|s| - 1];
      InsertedAscends(rest, x, leq);
      InsertedSame(rest, x, leq);
      AllBeforeLast(Inserted(rest, x, leq), rest, x, last, leq);
      assert forall i | 0 <= i < |rest| + 1 :: Inserted(rest, x, leq)[i] in Inserted(rest, x, leq);
    }
  }

  /** A sort returns the same elements in ascending order. */
  lemma {:induction false} SortedAscends<T(!new)>(s: seq<T>, leq: (T, T) -> bool)
    requires TotalPreorder(leq)
    ensures Ascending(Sorted(s, leq), leq)
    ensures multiset(Sorted(s, leq)) == multiset(s)
  {
    if s != [] {
      SortedAscends(s[..|s| - 1], leq);
      InsertedAscends(Sorted(s[..|s| - 1], leq), s[|s| - 1], leq);
      InsertedSame(Sorted(s[..|s| - 1], leq), s[|s| - 1], leq);
      assert s == s[..|s| - 1] + [s[|s| - 1]];
    }
  }

  /** Elements that tie stand in an order `r` allows. */
  ghost predicate TiesKeep<T>(s: seq<T>, leq: (T, T) -> bool, r: (T, T) -> bool) {
    forall i, j | 0 <= i < j < |s| && leq(s[i], s[j]) && leq(s[j], s[i]) :: r(s[i], s[j])
  }

  lemma {:induction false} InsertedKeeps<T(!new)>(s: seq<T>, x: T, leq: (T, T) -> bool, r: (T, T) -> bool)
    requires TotalPreorder(leq) && TiesKeep(s, leq, r)
    requires forall y | y in s && leq(y, x) && leq(x, y) :: r(y, x)
    ensures TiesKeep(Inserted(s, x, leq), leq, r)
  {
    if s != [] && !leq(s[|s| - 1], x) {
      var rest, last := s[..|s| - 1], s[|s| - 1];
      assert forall y | y in rest :: y in s;
      InsertedKeeps(rest, x, leq, r);
      InsertedSame(rest, x, leq);
      var out := Inserted(rest, x, leq);
      forall i | 0 <= i < |out| && leq(out[i], last) && leq(last, out[i])
        ensures r(out[i], last)
      {
        assert out[i] in multiset(out);
        assert out[i] in rest;
        var k :| 0 <= k < |rest| && rest[k] == out[i];
        assert s[k] == out[i];
      }
    }
  }

  /** A stable sort leaves elements that tie in the order they came in. */
  lemma {:induction false} SortedKeeps<T(!new)>(s: seq<T>, leq: (T, T) -> bool, r: (T, T) -> bool)
    requires TotalPreorder(leq) && TiesKeep(s, leq, r)
    ensures TiesKeep(Sorted(s, leq), leq, r)
  {
    if s != [] {
      var n := |s| - 1;
      SortedKeeps(s[..n], leq, r);
      SortedAscends(s[..n], leq);
      forall y | y in Sorted(s[..n], leq) && leq(y, s[n]) && leq(s[n], y)
        ensures r(y, s[n])
      {
        assert y in multiset(Sorted(s[..n], leq));
        assert y in s[..n];
        var k :| 0 <= k < n && s[k] == y;
      }
      InsertedKeeps(Sorted(s[..n], leq), s[n], leq, r);
    }
  }
}
