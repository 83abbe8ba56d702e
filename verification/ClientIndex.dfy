/**
 The open-addressed index from client key to slot number: linear probing, buckets
 that hold a hash fragment and a handle but no key, and backward-shift deletion.
 */
module ClientIndex {
  import opened Arithmetic
  import opened Wrappers
  import opened ClientTypes

  datatype Bucket = Bucket(hash: nat, handle: nat)

  const EMPTY: nat := NIL

  // ----- cyclic positions -----

  /** The bucket after `i`, wrapping at `n`. */
  function Next(i: nat, n: nat): (r: nat)
    requires i < n
    ensures r < n
  {
    if i + 1 == n then 0 else i + 1
  }

  /** How many forward steps lead from one bucket to another. */
  function Dist(from: nat, to: nat, n: nat): (d: nat)
    requires from < n && to < n
    ensures d < n
  {
    if from <= to then to - from else n + to - from
  }

  /** The bucket a hash fragment asks for. */
  function Ideal(hash: nat, n: nat): (r: nat)
    requires n > 0
    ensures r < n
  {
    hash % n
  }

  /** The masked increment of the source is one cyclic step. */
  lemma NextIsMasked(i: nat, n: nat)
    requires i < n
    ensures (i + 1) % n == Next(i, n)
  {
    ModUnique(i + 1, n, if i + 1 == n then 1 else 0, Next(i, n));
  }

  /** The masked wrapping subtraction of the source is the cyclic distance. */
  lemma DistIsMasked(from: nat, to: nat, n: nat)
    requires from < n && to < n
    ensures (to - from) % n == Dist(from, to, n)
  {
    ModUnique(to - from, n, if from <= to then 0 else -1, Dist(from, to, n));
  }

  // ----- what a bucket array means -----

  ghost predicate Live(b: seq<Bucket>, i: int)
    requires 0 <= i < |b|
  {
    b[i].handle != EMPTY
  }

  /** `p` lies on the probe path of the entry in `j`, strictly before `j`. */
  ghost predicate OnPath(b: seq<Bucket>, j: int, p: int)
    requires 0 <= j < |b| && 0 <= p < |b|
  {
    Dist(Ideal(b[j].hash, |b|), p, |b|) < Dist(Ideal(b[j].hash, |b|), j, |b|)
  }

  /**
   The invariant a probe needs: every live entry is reached from its ideal bucket
   without crossing a free bucket, except possibly the bucket `hole`.
   */
  ghost predicate GapFreeBut(b: seq<Bucket>, hole: int) {
    forall j, p {:trigger OnPath(b, j, p)} | 0 <= j < |b| && 0 <= p < |b| && Live(b, j) && OnPath(b, j, p)
      && p != hole :: Live(b, p)
  }

  /** A free bucket other than the hole is on no live entry's path. */
  lemma GapFreeAt(b: seq<Bucket>, hole: int, j: nat, p: nat)
    requires GapFreeBut(b, hole) && j < |b| && p < |b| && Live(b, j) && !Live(b, p) && p != hole
    ensures !OnPath(b, j, p)
  {
  }

  ghost predicate GapFree(b: seq<Bucket>) {
    GapFreeBut(b, -1)
  }

  /** `owner` names the key behind every live bucket, and `pos` is its inverse. */
  ghost predicate Owned<K>(b: seq<Bucket>, owner: seq<Option<K>>, pos: map<K, nat>, hasher: K -> nat) {
    && |owner| == |b|
    && (forall i | 0 <= i < |b| :: Live(b, i) <==> owner[i].Some?)
    && (forall i | 0 <= i < |b| && owner[i].Some? ::
          b[i].hash == hasher(owner[i].value) && owner[i].value in pos && pos[owner[i].value] == i)
    && (forall k | k in pos :: pos[k] < |b| && owner[pos[k]] == Some(k))
  }

  /** The map from key to handle that an owned bucket array encodes. */
  ghost function Filed<K>(b: seq<Bucket>, pos: map<K, nat>): (m: map<K, nat>)
    requires forall k | k in pos :: pos[k] < |b|
  {
    map k | k in pos :: b[pos[k]].handle
  }

  /** Every handle names a slot that holds the key it is filed under. */
  ghost predicate Named<K>(contents: map<K, nat>, slots: seq<Slot<K>>) {
    forall k | k in contents :: contents[k] < |slots| && slots[contents[k]].key == k
  }

  /** No free bucket means at least as many keys as buckets. */
  lemma {:induction false} Crowded<K>(owner: seq<Option<K>>, pos: map<K, nat>)
    requires forall i | 0 <= i < |owner| :: owner[i].Some? && owner[i].value in pos && pos[owner[i].value] == i
    ensures |pos| >= |owner|
  {
    if |owner| > 0 {
      var k := owner[|owner| - 1].value;
      var pos' := pos - {k};
      Crowded(owner[..|owner| - 1], pos');
      assert pos.Keys == pos'.Keys + {k};
    }
  }

  /** With fewer keys than buckets some bucket is free, so every probe ends. */
  lemma FreeBucketExists<K>(b: seq<Bucket>, owner: seq<Option<K>>, pos: map<K, nat>, hasher: K -> nat) returns (e: nat)
    requires Owned(b, owner, pos, hasher) && |pos| < |b|
    ensures e < |b| && !Live(b, e)
  {
    if forall i | 0 <= i < |b| :: Live(b, i) {
      Crowded(owner, pos);
      assert false;
    }
    e :| 0 <= e < |b| && !Live(b, e);
  }

  // ----- the scan and the map -----

  /** A scan that started at `ideal` and stands at `i` crossed only live buckets of keys other than `key`. */
  ghost predicate Scanned<K>(b: seq<Bucket>, owner: seq<Option<K>>, key: K, ideal: nat, i: nat)
    requires |owner| == |b| && ideal < |b| && i < |b|
  {
    forall p | 0 <= p < |b| && Dist(ideal, p, |b|) < Dist(ideal, i, |b|) :: Live(b, p) && owner[p] != Some(key)
  }

  /** One step of a scan over a live bucket of another key, toward the free bucket `e`. */
  lemma ScanStep<K>(b: seq<Bucket>, owner: seq<Option<K>>, key: K, ideal: nat, i: nat, e: nat)
    requires |owner| == |b| && ideal < |b| && i < |b| && e < |b|
    requires Scanned(b, owner, key, ideal, i) && Live(b, i) && owner[i] != Some(key) && !Live(b, e)
    ensures Scanned(b, owner, key, ideal, Next(i, |b|))
    ensures Dist(Next(i, |b|), e, |b|) < Dist(i, e, |b|)
  {
    assert !(Dist(ideal, e, |b|) < Dist(ideal, i, |b|));
    forall p | 0 <= p < |b| && Dist(ideal, p, |b|) < Dist(ideal, Next(i, |b|), |b|)
      ensures Live(b, p) && owner[p] != Some(key)
    {
      if p != i {
        assert Dist(ideal, p, |b|) < Dist(ideal, i, |b|);
      }
    }
  }

  /** A scan that ends on a free bucket proves its key absent. */
  lemma ScanEndsAbsent<K>(b: seq<Bucket>, owner: seq<Option<K>>, pos: map<K, nat>, hasher: K -> nat, key: K, i: nat)
    requires Owned(b, owner, pos, hasher) && GapFree(b) && i < |b|
    requires !Live(b, i) && Scanned(b, owner, key, Ideal(hasher(key), |b|), i)
    ensures key !in pos
  {
    if key in pos {
      var j := pos[key];
      assert Live(b, j) && owner[j] == Some(key);
      assert OnPath(b, j, i);
    }
  }

  /** Filling the free bucket that ends a scan keeps every path free of gaps. */
  lemma FillKeepsGapFree(b: seq<Bucket>, i: nat, entry: Bucket)
    requires GapFree(b) && i < |b| && !Live(b, i) && entry.handle != EMPTY
    requires forall p | 0 <= p < |b| && Dist(Ideal(entry.hash, |b|), p, |b|) < Dist(Ideal(entry.hash, |b|), i, |b|) ::
             Live(b, p)
    ensures GapFree(b[i := entry])
  {
    var b' := b[i := entry];
    forall j, p | 0 <= j < |b'| && 0 <= p < |b'| && Live(b', j) && OnPath(b', j, p) && p != -1
      ensures Live(b', p)
    {
      if j != i && p != i {
        assert Live(b, j) && OnPath(b, j, p);
      }
    }
  }

  /** Filling a bucket for a new key extends the ownership by that key. */
  lemma FillKeepsOwned<K>(b: seq<Bucket>, owner: seq<Option<K>>, pos: map<K, nat>, hasher: K -> nat, key: K, i: nat,
                          entry: Bucket)
    requires Owned(b, owner, pos, hasher) && i < |b| && !Live(b, i) && key !in pos
    requires entry.handle != EMPTY && entry.hash == hasher(key)
    ensures Owned(b[i := entry], owner[i := Some(key)], pos[key := i], hasher)
    ensures Filed(b[i := entry], pos[key := i]) == Filed(b, pos)[key := entry.handle]
  {
  }

  /** Filing a known key under another handle changes that key's handle and nothing else. */
  lemma RefileKeepsOwned<K>(b: seq<Bucket>, owner: seq<Option<K>>, pos: map<K, nat>, hasher: K -> nat, key: K,
                            handle: nat)
    requires Owned(b, owner, pos, hasher) && GapFree(b) && key in pos && handle != EMPTY
    ensures var b' := b[pos[key] := b[pos[key]].(handle := handle)];
            Owned(b', owner, pos, hasher) && GapFree(b') && Filed(b', pos) == Filed(b, pos)[key := handle]
  {
    var b' := b[pos[key] := b[pos[key]].(handle := handle)];
    forall j, p | 0 <= j < |b'| && 0 <= p < |b'| && Live(b', j) && OnPath(b', j, p)
      ensures Live(b', p)
    {
      assert Live(b, j) && OnPath(b, j, p);
    }
  }

  // ----- backward-shift deletion -----

  /** Strictly after `hole` and strictly before `i`, going forward. */
  ghost predicate Between(hole: nat, p: nat, i: nat, n: nat)
    requires hole < n && p < n && i < n
  {
    0 < Dist(hole, p, n) < Dist(hole, i, n)
  }

  /**
   The state of a deletion whose hole is at `hole` and whose scan stands at `i`:
   only the hole may interrupt a path, and the entries already scanned were left
   where they are because the hole is not on their path. `e` is a free bucket the
   scan has not passed.
   */
  ghost predicate Shifting(b: seq<Bucket>, hole: nat, i: nat, e: nat) {
    && hole < |b| && i < |b| && e < |b| && e != hole
    && !Live(b, hole) && !Live(b, e)
    && GapFreeBut(b, hole)
    && 0 < Dist(hole, i, |b|) <= Dist(hole, e, |b|)
    && (forall p | 0 <= p < |b| && Between(hole, p, i, |b|) :: Live(b, p) && !OnPath(b, p, hole))
  }

  /** Freeing a key's bucket opens the hole; the scan starts right behind it. */
  lemma RemovalOpensHole(b: seq<Bucket>, hole: nat, e: nat)
    requires GapFree(b) && hole < |b| && Live(b, hole) && e < |b| && !Live(b, e)
    ensures Shifting(b[hole := b[hole].(handle := EMPTY)], hole, Next(hole, |b|), e)
  {
    var b' := b[hole := b[hole].(handle := EMPTY)];
    forall j, p | 0 <= j < |b'| && 0 <= p < |b'| && Live(b', j) && OnPath(b', j, p) && p != hole
      ensures Live(b', p)
    {
      assert Live(b, j) && OnPath(b, j, p);
    }
  }

  /** Freeing a key's bucket takes that key, and nothing else, out of the index. */
  lemma RemovalKeepsOwned<K>(b: seq<Bucket>, owner: seq<Option<K>>, pos: map<K, nat>, hasher: K -> nat, key: K)
    requires Owned(b, owner, pos, hasher) && key in pos
    ensures var hole, pos' := pos[key], pos - {key};
            var b' := b[hole := b[hole].(handle := EMPTY)];
            && Owned(b', owner[hole := None], pos', hasher)
            && (forall k | k in pos' :: pos'[k] != hole)
            && |pos'| == |pos| - 1
  {
    assert pos.Keys == (pos - {key}).Keys + {key};
  }

  /** Moving an entry from `i` into the hole moves its key along. */
  lemma MoveKeepsOwned<K>(b: seq<Bucket>, owner: seq<Option<K>>, pos: map<K, nat>, hasher: K -> nat, hole: nat, i: nat,
                          key: K)
    requires Owned(b, owner, pos, hasher) && hole < |b| && i < |b| && hole != i && !Live(b, hole)
    requires owner[i] == Some(key)
    ensures Owned(b[hole := b[i]][i := b[i].(handle := EMPTY)], owner[hole := Some(key)][i := None], pos[key := hole],
                  hasher)
    ensures |pos[key := hole]| == |pos|
  {
    var pos' := pos[key := hole];
    assert pos'.Keys == pos.Keys;
    forall k | k in pos'
      ensures pos'[k] < |b| && owner[hole := Some(key)][i := None][pos'[k]] == Some(k)
    {
      assert pos[k] < |b| && owner[pos[k]] == Some(k);
    }
  }

  /** ... and leaves every key filed under the same handle. */
  lemma MoveKeepsFiled<K>(b: seq<Bucket>, owner: seq<Option<K>>, pos: map<K, nat>, hasher: K -> nat, hole: nat, i: nat,
                          b': seq<Bucket>, pos': map<K, nat>)
    requires Owned(b, owner, pos, hasher) && hole < |b| && i < |b| && hole != i && !Live(b, hole)
    requires owner[i].Some? && pos' == pos[owner[i].value := hole] && (forall k | k in pos' :: pos'[k] < |b'|)
    requires b' == b[hole := b[i]][i := b[i].(handle := EMPTY)]
    ensures Filed(b', pos') == Filed(b, pos)
  {
  }

  /** The scan leaves an entry alone: it may not move into the hole. */
  lemma ShiftPasses(b: seq<Bucket>, hole: nat, i: nat, e: nat)
    requires Shifting(b, hole, i, e) && Live(b, i) && !OnPath(b, i, hole)
    ensures Shifting(b, hole, Next(i, |b|), e)
    ensures Dist(Next(i, |b|), e, |b|) < Dist(i, e, |b|)
  {
    var i' := Next(i, |b|);
    forall p | 0 <= p < |b| && Between(hole, p, i', |b|)
      ensures Live(b, p) && !OnPath(b, p, hole)
    {
      if p != i {
        assert Between(hole, p, i, |b|);
      }
    }
  }

  /** The scan pulls an entry back into the hole, which moves to where it was. */
  lemma ShiftMoves(b: seq<Bucket>, hole: nat, i: nat, e: nat)
    requires Shifting(b, hole, i, e) && Live(b, i) && OnPath(b, i, hole)
    ensures Shifting(b[hole := b[i]][i := b[i].(handle := EMPTY)], i, Next(i, |b|), e)
    ensures Dist(Next(i, |b|), e, |b|) < Dist(i, e, |b|)
  {
    var b' := b[hole := b[i]][i := b[i].(handle := EMPTY)];
    forall j, p | 0 <= j < |b'| && 0 <= p < |b'| && Live(b', j) && OnPath(b', j, p) && p != i
      ensures Live(b', p)
    {
      if p != hole {
        if j == hole {
          assert OnPath(b, i, p);
        } else {
          assert Live(b, j) && OnPath(b, j, p);
        }
        assert Live(b, p);
      }
    }
  }

  /** A path that crosses `hole` on its way past `i` crosses `i` too. */
  lemma PathRunsOn(ideal: nat, hole: nat, i: nat, j: nat, n: nat)
    requires ideal < n && hole < n && i < n && j < n
    requires Dist(ideal, hole, n) < Dist(ideal, j, n)
    requires j != i && !Between(hole, j, i, n) && hole != i
    ensures Dist(ideal, i, n) < Dist(ideal, j, n)
  {
  }

  /** When the scan reaches a free bucket, no path crosses the hole any more. */
  lemma ShiftEnds(b: seq<Bucket>, hole: nat, i: nat, e: nat)
    requires Shifting(b, hole, i, e) && !Live(b, i)
    ensures GapFree(b)
  {
    forall j | 0 <= j < |b| && Live(b, j)
      ensures !OnPath(b, j, hole)
    {
      GapFreeAt(b, hole, j, i);
      if OnPath(b, j, hole) && !Between(hole, j, i, |b|) {
        PathRunsOn(Ideal(b[j].hash, |b|), hole, i, j, |b|);
      }
    }
  }

  /** A deletion under way: who owns what, and where the hole is. */
  ghost predicate Deleting<K>(b: seq<Bucket>, owner: seq<Option<K>>, pos: map<K, nat>, hasher: K -> nat, hole: nat,
                              i: nat, e: nat)
  {
    Owned(b, owner, pos, hasher) && Shifting(b, hole, i, e)
  }

  lemma DeletionOpens<K>(b: seq<Bucket>, owner: seq<Option<K>>, pos: map<K, nat>, hasher: K -> nat, key: K, e: nat)
    returns (b': seq<Bucket>, owner': seq<Option<K>>, pos': map<K, nat>)
    requires Owned(b, owner, pos, hasher) && GapFree(b) && key in pos && e < |b| && !Live(b, e)
    ensures b' == b[pos[key] := b[pos[key]].(handle := EMPTY)]
    ensures Deleting(b', owner', pos', hasher, pos[key], Next(pos[key], |b|), e)
    ensures Filed(b', pos') == Filed(b, pos) - {key} && |pos'| == |pos| - 1
  {
    b', owner', pos' := b[pos[key] := b[pos[key]].(handle := EMPTY)], owner[pos[key] := None], pos - {key};
    RemovalOpensHole(b, pos[key], e);
    RemovalKeepsOwned(b, owner, pos, hasher, key);
  }

  lemma DeletionPulls<K>(b: seq<Bucket>, owner: seq<Option<K>>, pos: map<K, nat>, hasher: K -> nat, hole: nat, i: nat,
                         e: nat)
    returns (b': seq<Bucket>, owner': seq<Option<K>>, pos': map<K, nat>)
    requires Deleting(b, owner, pos, hasher, hole, i, e) && Live(b, i) && OnPath(b, i, hole)
    ensures b' == b[hole := b[i]][i := b[i].(handle := EMPTY)]
    ensures Deleting(b', owner', pos', hasher, i, Next(i, |b|), e)
    ensures Filed(b', pos') == Filed(b, pos) && |pos'| == |pos|
    ensures Dist(Next(i, |b|), e, |b|) < Dist(i, e, |b|)
  {
    var key := owner[i].value;
    b', owner', pos' :=
      b[hole := b[i]][i := b[i].(handle := EMPTY)], owner[hole := Some(key)][i := None], pos[key := hole];
    MoveKeepsOwned(b, owner, pos, hasher, hole, i, key);
    MoveKeepsFiled(b, owner, pos, hasher, hole, i, b', pos');
    ShiftMoves(b, hole, i, e);
  }

  // ----- the index -----

  /** Masking with one less is taking the remainder. */
  predicate PowerOfTwo(n: nat) {
    n == 1 || (n > 0 && n % 2 == 0 && PowerOfTwo(n / 2))
  }

  /** The smallest power of two that is at least `m`. */
  method NextPowerOfTwo(m: nat) returns (n: nat)
    requires m > 0
    ensures PowerOfTwo(n) && m <= n < 2 * m
  {
    n := 1;
    while n < m
      invariant PowerOfTwo(n) && n < 2 * m
      decreases m - n
    {
      n := 2 * n;
    }
  }

  class Index<K(==)> {
    const hasher: K -> nat
    const buckets: array<Bucket>
    var len: nat
    /** The map from key to handle that the buckets encode. */
    ghost var contents: map<K, nat>
    ghost var owner: seq<Option<K>>
    ghost var pos: map<K, nat>

    ghost predicate Valid()
      reads this, buckets
    {
      && Owned(buckets[..], owner, pos, hasher)
      && GapFree(buckets[..])
      && |pos| == len < buckets.Length
      && contents == Filed(buckets[..], pos)
    }

    /** Every handle in the index names a slot that holds the key it is filed under. */
    ghost predicate Agrees(slots: seq<Slot<K>>)
      reads this, buckets
      requires Valid()
    {
      Named(contents, slots)
    }

    constructor (capacity: nat, hasher: K -> nat)
      requires 4 * capacity <= WORD
      ensures Valid() && fresh(buckets) && contents == map[] && len == 0
      ensures this.hasher == hasher
      ensures PowerOfTwo(buckets.Length) && 4 * capacity <= buckets.Length
    {
      var n := NextPowerOfTwo(4 * (if capacity < 1 then 1 else capacity));
      this.hasher := hasher;
      buckets := new Bucket[n](_ => Bucket(0, EMPTY));
      len := 0;
      owner := seq(n, _ => None);
      pos := map[];
      contents := map[];
    }

    /** The bucket that holds `key`, or `None`. */
    method Probe(hash: nat, key: K, slots: seq<Slot<K>>) returns (r: Option<nat>)
      requires Valid() && Agrees(slots) && hash == hasher(key)
      ensures r == if key in pos then Some(pos[key]) else None
    {
      ghost var bs := buckets[..];
      var n := buckets.Length;
      ghost var e := FreeBucketExists(bs, owner, pos, hasher);
      var i: nat := hash % n;
      while true
        invariant i < n && Scanned(bs, owner, key, Ideal(hash, n), i)
        decreases Dist(i, e, n)
      {
        var b := buckets[i];
        assert b == bs[i];
        if b.handle == EMPTY {
          ScanEndsAbsent(bs, owner, pos, hasher, key, i);
          return None;
        }
        assert Live(bs, i) && owner[i].value in contents && contents[owner[i].value] == b.handle;
        if b.hash == hash && b.handle < |slots| && slots[b.handle].key == key {
          return Some(i);
        }
        ScanStep(bs, owner, key, Ideal(hash, n), i, e);
        NextIsMasked(i, n);
        i := (i + 1) % n;
      }
    }

    method Get(key: K, slots: seq<Slot<K>>) returns (r: Option<nat>)
      requires Valid() && Agrees(slots)
      ensures r == if key in contents then Some(contents[key]) else None
    {
      var i := Probe(hasher(key), key, slots);
      if i.None? { return None; }
      return Some(buckets[i.value].handle);
    }

    method Insert(key: K, handle: nat, slots: seq<Slot<K>>)
      requires Valid() && Agrees(slots) && handle != EMPTY
      requires len + 1 < buckets.Length
      modifies this, buckets
      ensures Valid() && contents == old(contents)[key := handle]
      ensures len == old(len) + (if key in old(contents) then 0 else 1)
    {
      var n := buckets.Length;
      var hash := hasher(key);
      ghost var bs, ow, ps := buckets[..], owner, pos;
      var found := Probe(hash, key, slots);
      if found.Some? {
        RefileKeepsOwned(bs, ow, ps, hasher, key, handle);
        buckets[found.value] := buckets[found.value].(handle := handle);
        contents := contents[key := handle];
        assert buckets[..] == bs[found.value := bs[found.value].(handle := handle)];
        return;
      }
      ghost var e := FreeBucketExists(bs, ow, ps, hasher);
      var i: nat := hash % n;
      while buckets[i].handle != EMPTY
        invariant i < n && Scanned(bs, ow, key, Ideal(hash, n), i)
        invariant buckets[..] == bs && owner == ow && pos == ps && len == old(len) && contents == old(contents)
        decreases Dist(i, e, n)
      {
        assert Live(bs, i);
        ScanStep(bs, ow, key, Ideal(hash, n), i, e);
        NextIsMasked(i, n);
        i := (i + 1) % n;
      }
      assert !Live(bs, i);
      FillKeepsGapFree(bs, i, Bucket(hash, handle));
      FillKeepsOwned(bs, ow, ps, hasher, key, i, Bucket(hash, handle));
      buckets[i] := Bucket(hash, handle);
      len := len + 1;
      owner := owner[i := Some(key)];
      pos := pos[key := i];
      contents := contents[key := handle];
      assert buckets[..] == bs[i := Bucket(hash, handle)];
    }

    method Remove(key: K, slots: seq<Slot<K>>)
      requires Valid() && Agrees(slots)
      modifies this, buckets
      ensures Valid() && contents == old(contents) - {key}
      ensures len == old(len) - (if key in old(contents) then 1 else 0)
    {
      hide Dist;
      var n := buckets.Length;
      ghost var bs, ow, ps := buckets[..], owner, pos;
      var found := Probe(hasher(key), key, slots);
      if found.None? {
        assert contents - {key} == contents;
        return;
      }
      var hole := found.value;
      ghost var e := FreeBucketExists(bs, ow, ps, hasher);
      bs, ow, ps := DeletionOpens(bs, ow, ps, hasher, key, e);
      buckets[hole] := buckets[hole].(handle := EMPTY);
      len := len - 1;
      owner, pos, contents := ow, ps, contents - {key};
      NextIsMasked(hole, n);
      var i: nat := (hole + 1) % n;
      while true
        invariant hole < n && i < n
        invariant buckets[..] == bs && owner == ow && pos == ps && len == old(len) - 1
        invariant Deleting(bs, ow, ps, hasher, hole, i, e)
        invariant |ps| == len && Filed(bs, ps) == contents == old(contents) - {key}
        decreases Dist(i, e, n)
      {
        var b := buckets[i];
        assert b == bs[i];
        if b.handle == EMPTY {
          ShiftEnds(bs, hole, i, e);
          break;
        }
        assert Live(bs, i);
        var ideal := b.hash % n;
        var toHole := (hole - ideal) % n;
        var toHere := (i - ideal) % n;
        DistIsMasked(ideal, hole, n);
        DistIsMasked(ideal, i, n);
        NextIsMasked(i, n);
        if toHole < toHere {
          bs, ow, ps := DeletionPulls(bs, ow, ps, hasher, hole, i, e);
          buckets[hole] := b;
          buckets[i] := b.(handle := EMPTY);
          owner, pos := ow, ps;
          hole := i;
        } else {
          ShiftPasses(bs, hole, i, e);
        }
        i := (i + 1) % n;
      }
    }
  }
}
