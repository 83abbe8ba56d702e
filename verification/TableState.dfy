/**
 The representation of the client table as one value, what ties it to the table it
 stands for, and what each change to it does to that table.
 */
module TableState {
  import opened Wrappers
  import opened ClientTypes
  import opened ClientIndex
  import opened ClientPolicy
  import opened ClientRuns
  import opened RecencyList

  /**
   A handle as it was issued: for which key, and for which tenancy of its slot. The
   tenancies of a slot are counted without wrapping; the handle carries the count
   modulo the width of a generation.
   */
  datatype Ticket<K> = Ticket(handle: ClientHandle, slot: nat, tenancy: nat, key: K)

  /**
   `order` lists the slots from most to least recent, `contents` is what the index
   holds, `tenancy` counts the tenants each slot has had and `tickets` are all the
   handles ever issued.
   */
  datatype State<K> = State(
    slots: seq<Slot<K>>, free: seq<nat>, mru: nat, lru: nat,
    order: seq<nat>, contents: map<K, nat>,
    tenancy: seq<nat>, tickets: set<Ticket<K>>)

  ghost predicate Chained<K>(s: State<K>) {
    Linked(s.slots, s.order, s.mru, s.lru)
  }

  /** The list spells out the table's recency order. */
  ghost predicate Listed<K>(s: State<K>, t: Table<K>) {
    && |t.recency| == |s.order|
    && (forall p | 0 <= p < |s.order| :: s.order[p] < |s.slots| && t.recency[p] == s.slots[s.order[p]].key)
  }

  /** The index files every listed slot under its key, and nothing else. */
  ghost predicate Matched<K>(s: State<K>) {
    && Named(s.contents, s.slots)
    && (forall k | k in s.contents :: s.contents[k] in s.order)
    && (forall i | i in s.order :: i < |s.slots| && s.slots[i].key in s.contents && s.contents[s.slots[i].key] == i)
  }

  /** The table's records are the filed slots' records. */
  ghost predicate Recorded<K>(s: State<K>, t: Table<K>) {
    && t.records.Keys == s.contents.Keys == t.noted.Keys
    && (forall k | k in s.contents :: s.contents[k] < |s.slots| && t.records[k] == s.slots[s.contents[k]].record)
  }

  /** Every slot is either listed or free. */
  ghost predicate Stored<K>(s: State<K>) {
    && |s.order| + |s.free| == |s.slots|
    && (forall f | f in s.free :: f < |s.slots| && f !in s.order)
    && (forall i | 0 <= i < |s.slots| :: i in s.order || i in s.free)
  }

  ghost predicate Issued<K>(s: State<K>, t: Ticket<K>) {
    && t.slot < |s.slots| == |s.tenancy|
    && t.handle == ClientHandle(t.slot, t.tenancy % WORD)
    && t.tenancy <= s.tenancy[t.slot]
    && (t.tenancy == s.tenancy[t.slot] ==> s.slots[t.slot].key == t.key)
  }

  /** Generations count tenancies modulo their width, and every ticket names a past or present tenancy. */
  ghost predicate Numbered<K>(s: State<K>) {
    && |s.tenancy| == |s.slots|
    && (forall i | 0 <= i < |s.slots| :: s.slots[i].generation == s.tenancy[i] % WORD)
    && (forall t | t in s.tickets :: Issued(s, t))
  }

  ghost predicate Rep<K>(cap: nat, s: State<K>, t: Table<K>) {
    |s.slots| <= cap && Chained(s) && Listed(s, t) && Matched(s) && Recorded(s, t) && Stored(s) && Numbered(s)
  }

  /**
   The same one step removed, so that a method that only carries it along is not
   proved with all of it in view: UnderSeal and BreakSeal go between the two.
   */
  ghost predicate Sealed<K>(depth: nat, cap: nat, s: State<K>, t: Table<K>) {
    if depth == 0 then Rep(cap, s, t) else Sealed(depth - 1, cap, s, t)
  }

  lemma UnderSeal<K>(cap: nat, s: State<K>, t: Table<K>)
    requires Rep(cap, s, t)
    ensures Sealed(3, cap, s, t)
  {
    assert Sealed(1, cap, s, t);
    assert Sealed(2, cap, s, t);
  }

  lemma BreakSeal<K>(cap: nat, s: State<K>, t: Table<K>)
    requires Sealed(3, cap, s, t)
    ensures Rep(cap, s, t)
  {
    assert Sealed(2, cap, s, t);
    assert Sealed(1, cap, s, t);
    assert Sealed(0, cap, s, t);
  }

  /** What a consistent state says about its list and its files. */
  lemma RepOpens<K>(cap: nat, s: State<K>, t: Table<K>)
    requires Sealed(3, cap, s, t)
    ensures Chained(s) && Listed(s, t) && Matched(s)
    ensures |t.recency| == |s.order| <= |s.slots| <= cap && |s.tenancy| == |s.slots|
    ensures t.records.Keys == s.contents.Keys
    ensures s.lru == NIL <==> |s.order| == 0
    ensures |s.order| > 0 ==> s.lru == s.order[|s.order| - 1] && s.lru in s.order
  {
    BreakSeal(cap, s, t);
  }

  /** The index of a consistent state leads to the key's own listed slot. */
  lemma FiledIsListed<K>(cap: nat, s: State<K>, t: Table<K>, key: K)
    requires Sealed(3, cap, s, t)
    ensures Named(s.contents, s.slots) && |t.recency| == |s.order| <= cap
    ensures key in s.contents <==> key in t.records
    ensures key in s.contents ==>
              && s.contents[key] in s.order && s.contents[key] < |s.slots| && s.slots[s.contents[key]].key == key
              && t.records[key] == s.slots[s.contents[key]].record
  {
    BreakSeal(cap, s, t);
  }

  lemma ListedIsFiled<K>(cap: nat, s: State<K>, t: Table<K>, i: nat)
    requires Sealed(3, cap, s, t) && i in s.order
    ensures i < |s.slots| && s.slots[i].key in t.records && t.records[s.slots[i].key] == s.slots[i].record
  {
    BreakSeal(cap, s, t);
  }

  lemma NotedKeys<K>(cap: nat, s: State<K>, t: Table<K>)
    requires Sealed(3, cap, s, t)
    ensures t.noted.Keys == t.records.Keys
  {
    BreakSeal(cap, s, t);
  }

  /** Walking the list from its most recent end meets the table's keys in order. */
  lemma WalkStarts<K>(cap: nat, s: State<K>, t: Table<K>)
    requires Sealed(3, cap, s, t)
    ensures |t.recency| == |s.order| && s.mru == if |s.order| == 0 then NIL else s.order[0]
    ensures |s.order| > 0 ==> s.mru != NIL
  {
    BreakSeal(cap, s, t);
  }

  lemma WalkOn<K>(cap: nat, s: State<K>, t: Table<K>, p: nat)
    requires Sealed(3, cap, s, t) && p < |s.order|
    ensures |t.recency| == |s.order| && s.order[p] < |s.slots| && s.slots[s.order[p]].key == t.recency[p]
    ensures t.recency[p] in t.records && t.records[t.recency[p]] == s.slots[s.order[p]].record
    ensures s.slots[s.order[p]].next == if p + 1 == |s.order| then NIL else s.order[p + 1]
    ensures p + 1 < |s.order| ==> s.order[p + 1] != NIL
  {
    BreakSeal(cap, s, t);
    assert s.order[p] in s.order;
    assert LinkedAt(s.slots, s.order, p);
    if p + 1 < |s.order| {
      assert LinkedAt(s.slots, s.order, p + 1);
    }
  }

  /** Is the tenancy a ticket was issued for still the one in its slot? */
  ghost predicate Current<K>(s: State<K>, t: Ticket<K>) {
    t.slot < |s.tenancy| && t.tenancy == s.tenancy[t.slot]
  }

  /** Relinking issues nothing and retires nothing. */
  lemma RelinkNumbers<K>(s: State<K>, s': State<K>)
    requires Numbered(s) && SameClients(s.slots, s'.slots) && s'.tenancy == s.tenancy && s'.tickets == s.tickets
    ensures Numbered(s')
  {
    forall t | t in s.tickets
      ensures Issued(s', t)
    {
      assert Issued(s, t);
    }
  }

  // ----- moving a listed slot to the front -----

  /** From `s` to `s'` the slot at position `p` was relinked to the front. */
  ghost predicate Touched<K>(s: State<K>, p: nat, s': State<K>) {
    && p < |s.order| && SameClients(s.slots, s'.slots) && Chained(s')
    && s'.order == [s.order[p]] + Omit(s.order, p)
    && s'.free == s.free && s'.contents == s.contents
    && s'.tenancy == s.tenancy && s'.tickets == s.tickets
  }

  /** In a filed list a key appears once, where its slot is. */
  lemma KeyPosition<K>(s: State<K>, t: Table<K>, p: nat)
    requires Chained(s) && Listed(s, t) && Matched(s) && p < |s.order|
    ensures IndexOf(t.recency, t.recency[p]) == p
  {
    forall q | 0 <= q < p
      ensures t.recency[q] != t.recency[p]
    {
      DistinctAt(s.order, q, p);
      assert s.order[q] in s.order && s.order[p] in s.order;
    }
    IndexOfIs(t.recency, t.recency[p], p);
  }

  lemma KeyAt<K>(s: State<K>, t: Table<K>, p: nat)
    requires Listed(s, t) && p < |s.order|
    ensures s.order[p] < |s.slots| && t.recency[p] == s.slots[s.order[p]].key
  {
  }

  lemma OmitMembers<T>(s: seq<T>, p: nat)
    requires p < |s|
    ensures forall x | x in s :: x == s[p] || x in Omit(s, p)
    ensures forall x | x in Omit(s, p) :: x in s
  {
    assert s == s[..p] + [s[p]] + s[p + 1..];
  }

  lemma TouchLists<K>(s: State<K>, t: Table<K>, p: nat, s': State<K>, t': Table<K>)
    requires Listed(s, t) && Touched(s, p, s')
    requires t'.recency == [t.recency[p]] + Omit(t.recency, p)
    ensures Listed(s', t')
  {
    forall q | 0 <= q < |s'.order|
      ensures s'.order[q] < |s'.slots| && t'.recency[q] == s'.slots[s'.order[q]].key
    {
      KeyAt(s, t, if q == 0 then p else if q <= p then q - 1 else q);
    }
  }

  lemma TouchFiles<K>(s: State<K>, t: Table<K>, p: nat, s': State<K>, t': Table<K>)
    requires Matched(s) && Recorded(s, t) && Stored(s) && Touched(s, p, s') && p < |s.order|
    requires t'.records == t.records && t'.noted == t.noted
    ensures Matched(s') && Recorded(s', t') && Stored(s')
  {
    OmitMembers(s.order, p);
    assert s.order[p] in s.order;
  }

  /** Touching a slot admits its key again. */
  lemma TouchRep<K>(cap: nat, s: State<K>, t: Table<K>, p: nat, s': State<K>, t': Table<K>)
    requires Sealed(3, cap, s, t) && Touched(s, p, s') && p < |t.recency|
    requires t' == t.(recency := [t.recency[p]] + Without(t.recency, t.recency[p]))
    ensures Sealed(3, cap, s', t')
  {
    BreakSeal(cap, s, t);
    KeyPosition(s, t, p);
    TouchLists(s, t, p, s', t');
    TouchFiles(s, t, p, s', t');
    RelinkNumbers(s, s');
    UnderSeal(cap, s', t');
  }

  // ----- evicting the tail -----

  /** From `s` to `s'` the tail of the list was unlinked, unfiled and set aside. */
  ghost predicate Evicted<K>(s: State<K>, s': State<K>) {
    && 0 < |s.order| && SameClients(s.slots, s'.slots) && Chained(s')
    && var n := |s.order| - 1;
    && s.order[n] < |s.slots|
    && s'.order == s.order[..n] && s'.free == s.free + [s.order[n]]
    && s'.contents == s.contents - {s.slots[s.order[n]].key}
    && s'.tenancy == s.tenancy && s'.tickets == s.tickets
  }

  lemma OmitLast<T>(s: seq<T>)
    requires |s| > 0
    ensures Omit(s, |s| - 1) == s[..|s| - 1]
    ensures forall x | x in s :: x == s[|s| - 1] || x in s[..|s| - 1]
    ensures forall x | x in s[..|s| - 1] :: x in s
    ensures Distinct(s) ==> s[|s| - 1] !in s[..|s| - 1]
  {
    if Distinct(s) {
      OmitDistinct(s, |s| - 1);
    }
    assert s == s[..|s| - 1] + [s[|s| - 1]];
  }

  lemma EvictMatches<K>(s: State<K>, s': State<K>)
    requires Chained(s) && Matched(s) && Evicted(s, s')
    ensures Matched(s')
  {
    OmitLast(s.order);
    assert s.order[|s.order| - 1] in s.order;
  }

  lemma EvictStores<K>(s: State<K>, s': State<K>)
    requires Chained(s) && Stored(s) && Evicted(s, s')
    ensures Stored(s')
  {
    OmitLast(s.order);
    assert s.order[|s.order| - 1] in s.order;
  }

  lemma EvictLists<K>(s: State<K>, t: Table<K>, s': State<K>, t': Table<K>)
    requires Listed(s, t) && Evicted(s, s') && |t.recency| > 0 && t'.recency == t.recency[..|t.recency| - 1]
    ensures Listed(s', t')
  {
    forall p | 0 <= p < |s'.order|
      ensures s'.order[p] < |s'.slots| && t'.recency[p] == s'.slots[s'.order[p]].key
    {
      KeyAt(s, t, p);
    }
  }

  lemma EvictRecords<K>(s: State<K>, t: Table<K>, s': State<K>, t': Table<K>)
    requires Listed(s, t) && Recorded(s, t) && Evicted(s, s')
    requires t'.records == t.records - {t.recency[|s.order| - 1]} && t'.noted == t.noted - {t.recency[|s.order| - 1]}
    ensures Recorded(s', t')
  {
    KeyAt(s, t, |s.order| - 1);
  }

  /** Evicting the tail is evicting the least recently admitted key. */
  lemma EvictRep<K>(cap: nat, s: State<K>, t: Table<K>, s': State<K>, t': Table<K>)
    requires Sealed(3, cap, s, t) && Evicted(s, s') && |t.recency| > 0 && t' == Evict(t)
    ensures Sealed(3, cap, s', t')
  {
    BreakSeal(cap, s, t);
    EvictMatches(s, s');
    EvictStores(s, s');
    EvictLists(s, t, s', t');
    EvictRecords(s, t, s', t');
    RelinkNumbers(s, s');
    UnderSeal(cap, s', t');
  }

  // ----- a new tenant -----

  ghost predicate Settleable<K>(s: State<K>) {
    |s.tenancy| == |s.slots| && (forall f | f in s.free :: f < |s.slots|)
  }

  /** Give a slot a new tenant: the last free slot, or one more slot. */
  ghost function Settled<K>(s: State<K>, key: K, record: ClientRecord): (r: (seq<Slot<K>>, seq<nat>, nat, seq<nat>))
    requires Settleable(s)
    ensures |r.0| == |r.1| == |s.slots| + (if s.free == [] then 1 else 0) && r.2 < |r.0|
  {
    if s.free != [] then
      var i := s.free[|s.free| - 1];
      assert i in s.free;
      (s.slots[i := Slot(key, record, NIL, NIL, (s.slots[i].generation + 1) % WORD)],
       s.tenancy[i := s.tenancy[i] + 1], i, s.free[..|s.free| - 1])
    else
      (s.slots + [Slot(key, record, NIL, NIL, 0)], s.tenancy + [0], |s.slots|, [])
  }

  /** From `s` to `s'` a new tenant was settled, hung in front of the list and filed. */
  ghost predicate Entered<K>(s: State<K>, key: K, record: ClientRecord, s': State<K>) {
    && Settleable(s)
    && var (slots, tenancy, i, free) := Settled(s, key, record);
    && SameClients(slots, s'.slots) && Chained(s')
    && s'.order == [i] + s.order && s'.free == free && s'.tenancy == tenancy
    && s'.contents == s.contents[key := i] && s'.tickets == s.tickets
  }

  /** How many tenants each slot has had, once a key sits in slot `i`. */
  ghost predicate Tenants(before: seq<nat>, after: seq<nat>, i: nat, known: bool, full: bool) {
    if known then after == before
    else if full then i < |before| && after == before[i := before[i] + 1]
    else i == |before| && after == before + [0]
  }

  lemma ModSucc(n: nat)
    ensures (n % WORD + 1) % WORD == (n + 1) % WORD
  {
  }

  /** The slot a new tenant gets is not in the list, and the list does not notice. */
  lemma SettledIsDetached<K>(cap: nat, s: State<K>, t: Table<K>, key: K, record: ClientRecord)
    requires Sealed(3, cap, s, t) && cap < NIL && |s.order| < cap
    ensures Settleable(s)
    ensures var (slots, tenancy, i, free) := Settled(s, key, record);
            && |slots| <= cap && i !in s.order && Linked(slots, s.order, s.mru, s.lru)
            && slots[i].key == key && slots[i].record == record && slots[i].generation == tenancy[i] % WORD
            && (forall j | 0 <= j < |s.slots| && j != i :: slots[j] == s.slots[j] && tenancy[j] == s.tenancy[j])
            && (i < |s.slots| ==> tenancy[i] == s.tenancy[i] + 1)
  {
    BreakSeal(cap, s, t);
    var (slots, tenancy, i, free) := Settled(s, key, record);
    if s.free != [] {
      assert i in s.free;
      ModSucc(s.tenancy[i]);
    }
    forall p | 0 <= p < |s.order|
      ensures LinkedAt(slots, s.order, p)
    {
      assert LinkedAt(s.slots, s.order, p) && s.order[p] in s.order;
    }
  }

  /** What settling a tenant in slot `i` and relinking leave as it was. */
  ghost predicate Tenanted<K>(s: State<K>, i: nat, key: K, record: ClientRecord, slots: seq<Slot<K>>) {
    && i < |slots| && |s.slots| <= |slots| && i !in s.order
    && slots[i].key == key && slots[i].record == record
    && (forall j | 0 <= j < |s.slots| && j != i ::
        slots[j].key == s.slots[j].key && slots[j].record == s.slots[j].record)
  }

  lemma EnterLists<K>(s: State<K>, t: Table<K>, i: nat, key: K, record: ClientRecord, s': State<K>, t': Table<K>)
    requires Listed(s, t) && Tenanted(s, i, key, record, s'.slots)
    requires s'.order == [i] + s.order && t'.recency == [key] + t.recency
    ensures Listed(s', t')
  {
    forall p | 0 <= p < |s.order|
      ensures s.order[p] in s.order && s'.slots[s.order[p]].key == t.recency[p]
    {
    }
  }

  lemma EnterMatches<K>(s: State<K>, i: nat, key: K, record: ClientRecord, s': State<K>)
    requires Matched(s) && Tenanted(s, i, key, record, s'.slots) && key !in s.contents
    requires s'.order == [i] + s.order && s'.contents == s.contents[key := i]
    ensures Matched(s')
  {
    assert forall j | j in s'.order :: j == i || j in s.order;
    assert forall j | j in s.order :: j in s'.order;
  }

  lemma EnterRecords<K>(s: State<K>, t: Table<K>, i: nat, key: K, record: ClientRecord, s': State<K>)
    requires Matched(s) && Recorded(s, t) && Tenanted(s, i, key, record, s'.slots) && key !in s.contents
    requires s'.contents == s.contents[key := i]
    ensures Recorded(s', Newcomer(t, key, record))
  {
  }

  /** Before it is filed, the new tenant disturbs no other key's handle. */
  lemma EnterNames<K>(cap: nat, s: State<K>, t: Table<K>, key: K, record: ClientRecord, slots: seq<Slot<K>>)
    requires Sealed(3, cap, s, t) && cap < NIL && |s.order| < cap
    requires Settleable(s)
    requires SameClients(Settled(s, key, record).0, slots)
    ensures Named(s.contents, slots) && Settled(s, key, record).2 < NIL
  {
    BreakSeal(cap, s, t);
    SettledIsDetached(cap, s, t, key, record);
  }

  lemma EnterStores<K>(s: State<K>, key: K, record: ClientRecord, s': State<K>)
    requires Stored(s) && |s.free| <= 1 && Entered(s, key, record, s')
    ensures Stored(s') && s'.free == []
  {
    var room := Settled(s, key, record);
    var i := room.2;
    assert |room.0| == |s'.slots| && room.3 == s'.free;
    if s.free != [] {
      assert s.free == [i];
    }
    forall j | 0 <= j < |s'.slots|
      ensures j in s'.order
    {
      assert s'.order[0] == i;
      if j != i {
        assert j !in s.free && j < |s.slots|;
        var p :| 0 <= p < |s.order| && s.order[p] == j;
        assert s'.order[p + 1] == j;
      }
    }
  }

  lemma EnterNumbers<K>(cap: nat, s: State<K>, t: Table<K>, key: K, record: ClientRecord, s': State<K>)
    requires Rep(cap, s, t) && cap < NIL && |s.order| < cap && Entered(s, key, record, s')
    ensures Numbered(s')
  {
    UnderSeal(cap, s, t);
    SettledIsDetached(cap, s, t, key, record);
    forall u | u in s.tickets
      ensures Issued(s', u)
    {
      assert Issued(s, u);
    }
  }

  /** Settling, listing and filing a new tenant enters its key. */
  lemma EnterRep<K>(cap: nat, s: State<K>, t: Table<K>, key: K, record: ClientRecord, s': State<K>, t': Table<K>)
    requires Sealed(3, cap, s, t) && cap < NIL && |s.order| < cap && |s.free| <= 1 && key !in s.contents
    requires Entered(s, key, record, s') && t' == Newcomer(t, key, record)
    ensures Sealed(3, cap, s', t') && s'.free == []
  {
    BreakSeal(cap, s, t);
    SettledIsDetached(cap, s, t, key, record);
    var i := Settled(s, key, record).2;
    EnterLists(s, t, i, key, record, s', t');
    EnterMatches(s, i, key, record, s');
    EnterRecords(s, t, i, key, record, s');
    EnterStores(s, key, record, s');
    EnterNumbers(cap, s, t, key, record, s');
    UnderSeal(cap, s', t');
  }

  // ----- the three ways in -----

  /** From `s` to `s'` a ticket stays current exactly while its key stays tabled. */
  ghost predicate Followed<K>(s: State<K>, s': State<K>, t': Table<K>) {
    s'.tickets == s.tickets && (forall u | u in s.tickets :: Current(s', u) <==> Current(s, u) && u.key in t'.records)
  }

  /** The same, carried unopened like Sealed. */
  ghost predicate Tracked<K>(depth: nat, s: State<K>, s': State<K>, t': Table<K>) {
    if depth == 0 then Followed(s, s', t') else Tracked(depth - 1, s, s', t')
  }

  lemma TrackedFollows<K>(s: State<K>, s': State<K>, t': Table<K>)
    ensures Tracked(3, s, s', t') <==> Followed(s, s', t')
  {
    assert Tracked(1, s, s', t') <==> Followed(s, s', t');
    assert Tracked(3, s, s', t') <==> Tracked(1, s, s', t');
  }

  /** Tickets do not notice a change of records. */
  lemma TrackedOn<K>(s: State<K>, s1: State<K>, t1: Table<K>, s': State<K>, t': Table<K>)
    requires Tracked(3, s, s1, t1) && s'.tenancy == s1.tenancy && s'.tickets == s1.tickets
    requires t'.records.Keys == t1.records.Keys
    ensures Tracked(3, s, s', t')
  {
    TrackedFollows(s, s1, t1);
    TrackedFollows(s, s', t');
  }

  /** A current ticket's key is tabled, and its slot is the one the key is filed under. */
  lemma CurrentIsTabled<K>(cap: nat, s: State<K>, t: Table<K>, u: Ticket<K>)
    requires Sealed(3, cap, s, t) && s.free == [] && u in s.tickets
    ensures u.slot < |s.tenancy| && u.tenancy <= s.tenancy[u.slot]
    ensures Current(s, u) ==> u.key in s.contents && s.contents[u.key] == u.slot && u.key in t.records
  {
    BreakSeal(cap, s, t);
    assert Issued(s, u);
    if Current(s, u) {
      assert u.slot in s.order;
    }
  }

  lemma ShedKeepsTickets<K>(cap: nat, s: State<K>, t: Table<K>, t': Table<K>)
    requires Sealed(3, cap, s, t) && s.free == [] && t'.records == t.records
    ensures Followed(s, s, t')
  {
    KnownFollows(cap, s, t, s, t');
  }

  lemma KnownFollows<K>(cap: nat, s: State<K>, t: Table<K>, s': State<K>, t': Table<K>)
    requires Sealed(3, cap, s, t) && s.free == []
    requires s'.tickets == s.tickets && |s.tenancy| <= |s'.tenancy| && s'.tenancy[..|s.tenancy|] == s.tenancy
    requires t.records.Keys <= t'.records.Keys
    ensures Followed(s, s', t')
  {
    forall u | u in s.tickets
      ensures Current(s', u) <==> Current(s, u) && u.key in t'.records
    {
      CurrentIsTabled(cap, s, t, u);
      assert s'.tenancy[u.slot] == s'.tenancy[..|s.tenancy|][u.slot];
    }
  }

  lemma FullFollows<K>(cap: nat, s: State<K>, t: Table<K>, s1: State<K>, key: K, record: ClientRecord, s': State<K>,
                       t': Table<K>)
    requires Sealed(3, cap, s, t) && s.free == [] && |s.order| > 0 && key !in s.contents
    requires Evicted(s, s1) && Entered(s1, key, record, s') && t'.records.Keys == s1.contents.Keys + {key}
    ensures Followed(s, s', t')
  {
    var victim := s.order[|s.order| - 1];
    assert s.slots[victim].key in s.contents && s.contents[s.slots[victim].key] == victim by {
      BreakSeal(cap, s, t);
      assert victim in s.order;
    }
    assert s1.free == [victim] && s'.tenancy == s.tenancy[victim := s.tenancy[victim] + 1];
    forall u | u in s.tickets
      ensures Current(s', u) <==> Current(s, u) && u.key in t'.records
    {
      CurrentIsTabled(cap, s, t, u);
      if Current(s, u) && u.slot == victim {
        assert u.key == s.slots[victim].key by {
          BreakSeal(cap, s, t);
          assert Issued(s, u);
        }
        assert u.key != key;
      } else if Current(s, u) {
        assert u.key != s.slots[victim].key;
      }
    }
  }

  lemma TouchEnters<K>(policy: Policy, s: State<K>, t: Table<K>, p: nat, key: K, now: real, s': State<K>, t': Table<K>)
    requires Sealed(3, policy.capacity, s, t) && Touched(s, p, s')
    requires s.order[p] < |s.slots| && s.slots[s.order[p]].key == key
    requires t' == Enter(policy, t, key, now)
    ensures Sealed(3, policy.capacity, s', t') && t'.stats == t.stats
    ensures s.free == [] ==> Tracked(3, s, s', t')
  {
    RepOpens(policy.capacity, s, t);
    assert s.order[p] in s.order && t.recency[p] == key;
    EnterCases(policy, t, key, now);
    TouchRep(policy.capacity, s, t, p, s', t');
    if s.free == [] {
      KnownFollows(policy.capacity, s, t, s', t');
      TrackedFollows(s, s', t');
    }
  }

  lemma NewcomerEnters<K>(policy: Policy, s: State<K>, t: Table<K>, key: K, now: real, s': State<K>, t': Table<K>)
    requires Sealed(3, policy.capacity, s, t) && policy.capacity < NIL && |s.order| < policy.capacity && s.free == []
    requires key !in s.contents && Entered(s, key, FreshRecord(now, policy.config.burst), s')
    requires t' == Enter(policy, t, key, now)
    ensures Sealed(3, policy.capacity, s', t') && s'.free == [] && t'.stats == t.stats
    ensures Tracked(3, s, s', t')
  {
    RepOpens(policy.capacity, s, t);
    EnterCases(policy, t, key, now);
    EnterRep(policy.capacity, s, t, key, FreshRecord(now, policy.config.burst), s', t');
    KnownFollows(policy.capacity, s, t, s', t');
    TrackedFollows(s, s', t');
  }

  lemma EvictLeaves<K>(s: State<K>, s': State<K>, key: K)
    requires Evicted(s, s') && key !in s.contents
    ensures |s'.order| == |s.order| - 1 && |s'.free| == |s.free| + 1 && key !in s'.contents
  {
  }

  lemma EvictedTenants<K>(s: State<K>, s1: State<K>, key: K, record: ClientRecord, s': State<K>)
    requires Evicted(s, s1) && s.free == [] && |s.tenancy| == |s.slots| && Entered(s1, key, record, s')
    ensures |s'.order| > 0 && Tenants(s.tenancy, s'.tenancy, s'.order[0], false, true)
  {
  }

  lemma EvictedEnters<K>(
      policy: Policy, s: State<K>, t: Table<K>, key: K, record: ClientRecord, s1: State<K>, t1: Table<K>,
      s': State<K>, t': Table<K>)
    requires Sealed(3, policy.capacity, s, t) && policy.capacity < NIL && |s.order| == policy.capacity && s.free == []
    requires Sealed(3, policy.capacity, s1, t1) && t' == Newcomer(t1, key, record)
    requires key !in s.contents && Evicted(s, s1) && Entered(s1, key, record, s')
    ensures Sealed(3, policy.capacity, s', t') && s'.free == [] && Tracked(3, s, s', t')
    ensures |s'.order| > 0 && Tenants(s.tenancy, s'.tenancy, s'.order[0], false, true)
  {
    RepOpens(policy.capacity, s, t);
    EvictedTenants(s, s1, key, record, s');
    EvictLeaves(s, s1, key);
    EnterRep(policy.capacity, s1, t1, key, record, s', t');
    RepOpens(policy.capacity, s1, t1);
    FullFollows(policy.capacity, s, t, s1, key, record, s', t');
    TrackedFollows(s, s', t');
  }

  /** Once the tail is out, the key enters as into a table with room. */
  lemma EvictMakesRoom<K>(policy: Policy, s: State<K>, t: Table<K>, key: K, now: real, s1: State<K>, t': Table<K>)
    returns (t1: Table<K>)
    requires Sealed(3, policy.capacity, s, t) && |s.order| == policy.capacity && s.free == []
    requires key !in s.contents && Evicted(s, s1) && t' == Enter(policy, t, key, now)
    ensures Sealed(3, policy.capacity, s1, t1) && t' == Newcomer(t1, key, FreshRecord(now, policy.config.burst))
  {
    RepOpens(policy.capacity, s, t);
    EnterCases(policy, t, key, now);
    t1 := Evict(t);
    EvictRep(policy.capacity, s, t, s1, t1);
  }

  // ----- writing a record, issuing a handle -----

  /** From `s` to `s'` the record in slot `i` was overwritten. */
  ghost predicate Written<K>(s: State<K>, i: nat, record: ClientRecord, s': State<K>) {
    i < |s.slots| && s' == s.(slots := s.slots[i := s.slots[i].(record := record)])
  }

  lemma WriteLinks<K>(s: State<K>, i: nat, record: ClientRecord, s': State<K>)
    requires Chained(s) && Numbered(s) && Written(s, i, record, s')
    ensures Chained(s') && Numbered(s')
  {
    forall p | 0 <= p < |s.order|
      ensures LinkedAt(s'.slots, s.order, p)
    {
      assert LinkedAt(s.slots, s.order, p);
    }
    forall u | u in s.tickets
      ensures Issued(s', u)
    {
      assert Issued(s, u);
    }
  }

  lemma WriteFiles<K>(s: State<K>, t: Table<K>, i: nat, record: ClientRecord, s': State<K>, t': Table<K>)
    requires Matched(s) && Listed(s, t) && Recorded(s, t) && i in s.order && Written(s, i, record, s')
    requires t'.recency == t.recency && t'.records == t.records[s.slots[i].key := record]
             && t'.noted.Keys == t.noted.Keys
    ensures Matched(s') && Listed(s', t') && Recorded(s', t')
  {
    forall k | k in s.contents && k != s.slots[i].key
      ensures s.contents[k] != i
    {
    }
  }

  /** Writing one client's record is writing that key's record and nothing else. */
  lemma WriteRep<K>(cap: nat, s: State<K>, t: Table<K>, i: nat, record: ClientRecord, s': State<K>, t': Table<K>)
    requires Sealed(3, cap, s, t) && i in s.order && Written(s, i, record, s')
    requires t'.recency == t.recency && t'.records == t.records[s.slots[i].key := record]
             && t'.noted.Keys == t.noted.Keys
    ensures Sealed(3, cap, s', t')
  {
    BreakSeal(cap, s, t);
    WriteLinks(s, i, record, s');
    WriteFiles(s, t, i, record, s', t');
    UnderSeal(cap, s', t');
  }

  /** Nothing but the recency order and the records is kept in the slots. */
  lemma BooksAreApart<K>(cap: nat, s: State<K>, t: Table<K>, t': Table<K>)
    requires Sealed(3, cap, s, t)
    requires t'.recency == t.recency && t'.records == t.records && t'.noted.Keys == t.noted.Keys
    ensures Sealed(3, cap, s, t')
  {
    BreakSeal(cap, s, t);
    UnderSeal(cap, s, t');
  }

  // ----- handles -----

  /** A handle resolves while its slot carries its generation. */
  predicate Resolves<K>(s: State<K>, h: ClientHandle) {
    h.slot < |s.slots| && s.slots[h.slot].generation == h.generation
  }

  /** The key whose record a handle leads to. */
  function Owner<K>(s: State<K>, h: ClientHandle): Option<K> {
    if Resolves(s, h) then Some(s.slots[h.slot].key) else None
  }

  /** What a handle leads to is always the record of a tabled key. */
  lemma OwnerIsTabled<K>(cap: nat, s: State<K>, t: Table<K>, h: ClientHandle)
    requires Sealed(3, cap, s, t) && s.free == [] && Resolves(s, h)
    ensures h.slot in s.order && s.slots[h.slot].key in t.records
    ensures t.records[s.slots[h.slot].key] == s.slots[h.slot].record
  {
    BreakSeal(cap, s, t);
    assert h.slot in s.order;
  }

  /**
   An issued handle resolves if and only if its slot has changed tenants a multiple of
   2^32 times since; short of 2^32 changes, if and only if its tenant is still there,
   and then it leads to the key it was issued for.
   */
  lemma ResolvesWhileCurrent<K>(cap: nat, s: State<K>, t: Table<K>, u: Ticket<K>)
    requires Sealed(3, cap, s, t) && s.free == [] && u in s.tickets
    ensures u.slot < |s.tenancy| && u.tenancy <= s.tenancy[u.slot]
    ensures Resolves(s, u.handle) <==> (s.tenancy[u.slot] - u.tenancy) % WORD == 0
    ensures s.tenancy[u.slot] - u.tenancy < WORD ==> (Resolves(s, u.handle) <==> Current(s, u))
    ensures Current(s, u) ==> Owner(s, u.handle) == Some(u.key) && u.key in t.records
  {
    CurrentIsTabled(cap, s, t, u);
    BreakSeal(cap, s, t);
    assert Issued(s, u);
    SameRemainder(s.tenancy[u.slot], u.tenancy);
  }

  lemma SameRemainder(a: nat, b: nat)
    requires b <= a
    ensures a % WORD == b % WORD <==> (a - b) % WORD == 0
    ensures (a - b) % WORD == 0 && a - b < WORD ==> a == b
  {
  }

  /** The handle of a shed request never resolves. */
  lemma InvalidNeverResolves<K>(cap: nat, s: State<K>, t: Table<K>)
    requires Sealed(3, cap, s, t) && cap <= NIL
    ensures !Resolves(s, INVALID)
  {
    BreakSeal(cap, s, t);
  }

  /** Issuing a handle for a listed slot adds a current ticket. */
  lemma IssueRep<K>(cap: nat, s: State<K>, t: Table<K>, i: nat)
    requires Sealed(3, cap, s, t) && i in s.order
    ensures i < |s.slots| == |s.tenancy|
    ensures var u := Ticket(ClientHandle(i, s.slots[i].generation), i, s.tenancy[i], s.slots[i].key);
            Sealed(3, cap, s.(tickets := s.tickets + {u}), t) && Current(s, u)
  {
    BreakSeal(cap, s, t);
    var u := Ticket(ClientHandle(i, s.slots[i].generation), i, s.tenancy[i], s.slots[i].key);
    forall v | v in s.tickets + {u}
      ensures Issued(s.(tickets := s.tickets + {u}), v)
    {
      if v != u {
        assert Issued(s, v);
      }
    }
    UnderSeal(cap, s.(tickets := s.tickets + {u}), t);
  }
}
