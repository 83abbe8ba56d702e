/** The recency list threaded through the slots: what its links mean and how relinking changes them. */
module RecencyList {
  import opened ClientTypes
  import opened ClientPolicy
  import opened ClientRuns

  /** The slot at position `p` of the list, or `NIL` off either end. */
  function At(order: seq<nat>, p: int): nat {
    if 0 <= p < |order| then order[p] else NIL
  }

  /** The slot at position `p` of the list points to its neighbours. */
  ghost predicate LinkedAt<K>(slots: seq<Slot<K>>, order: seq<nat>, p: nat)
    requires p < |order| && order[p] < |slots|
  {
    slots[order[p]].prev == At(order, p - 1) && slots[order[p]].next == At(order, p + 1)
  }

  /** The links in `slots` spell out `order`, most recent first. */
  ghost predicate Linked<K>(slots: seq<Slot<K>>, order: seq<nat>, mru: nat, lru: nat) {
    && |slots| <= NIL
    && (forall p | 0 <= p < |order| :: order[p] < |slots|)
    && Distinct(order)
    && mru == At(order, 0) && lru == At(order, |order| - 1)
    && (forall p {:trigger LinkedAt(slots, order, p)} | 0 <= p < |order| :: LinkedAt(slots, order, p))
  }

  /** The same clients in the same slots; only links may differ. */
  ghost predicate SameClients<K>(a: seq<Slot<K>>, b: seq<Slot<K>>) {
    && |a| == |b|
    && (forall i | 0 <= i < |a| ::
        a[i].key == b[i].key && a[i].record == b[i].record && a[i].generation == b[i].generation)
  }

  function SetNext<K>(slots: seq<Slot<K>>, i: nat, next: nat): seq<Slot<K>>
    requires i == NIL || i < |slots|
  {
    if i == NIL then slots else slots[i := slots[i].(next := next)]
  }

  function SetPrev<K>(slots: seq<Slot<K>>, i: nat, prev: nat): seq<Slot<K>>
    requires i == NIL || i < |slots|
  {
    if i == NIL then slots else slots[i := slots[i].(prev := prev)]
  }

  lemma NeighboursInRange<K>(slots: seq<Slot<K>>, order: seq<nat>, mru: nat, lru: nat, p: nat)
    requires Linked(slots, order, mru, lru) && p < |order|
    ensures var prev, next := slots[order[p]].prev, slots[order[p]].next;
            && (prev == NIL <==> p == 0) && (next == NIL <==> p == |order| - 1)
            && (prev != NIL ==> prev < |slots| && prev == order[p - 1])
            && (next != NIL ==> next < |slots| && next == order[p + 1])
  {
    assert LinkedAt(slots, order, p);
  }

  /** After bridging over position `p`, the member at position `r` still points to its neighbours. */
  lemma BridgeAt<K>(slots: seq<Slot<K>>, order: seq<nat>, mru: nat, lru: nat, p: nat, slots': seq<Slot<K>>, r: nat)
    requires Linked(slots, order, mru, lru) && p < |order| && r < |order| && r != p
    requires |slots'| == |slots|
    requires slots'[order[r]].next == if r + 1 == p then slots[order[p]].next else slots[order[r]].next
    requires slots'[order[r]].prev == if r == p + 1 then slots[order[p]].prev else slots[order[r]].prev
    ensures var order', q := Omit(order, p), if r < p then r else r - 1;
            q < |order'| && order'[q] == order[r] && LinkedAt(slots', order', q)
  {
    assert LinkedAt(slots, order, p) && LinkedAt(slots, order, r);
  }

  /** Bridging the neighbours of a list member takes it out of the list. */
  lemma UnlinkOmits<K>(slots: seq<Slot<K>>, order: seq<nat>, mru: nat, lru: nat, p: nat)
    returns (slots': seq<Slot<K>>)
    requires Linked(slots, order, mru, lru) && p < |order|
    ensures var prev, next := slots[order[p]].prev, slots[order[p]].next;
            && (prev == NIL || prev < |slots|) && (next == NIL || next < |slots|)
            && slots' == SetPrev(SetNext(slots, prev, next), next, prev)
            && Linked(slots', Omit(order, p), if prev == NIL then next else mru, if next == NIL then prev else lru)
            && SameClients(slots, slots')
  {
    NeighboursInRange(slots, order, mru, lru, p);
    var prev, next := slots[order[p]].prev, slots[order[p]].next;
    slots' := SetPrev(SetNext(slots, prev, next), next, prev);
    var order' := Omit(order, p);
    forall q | 0 <= q < |order'|
      ensures LinkedAt(slots', order', q)
    {
      var r := if q < p then q else q + 1;
      DistinctAt(order, r, p - 1);
      DistinctAt(order, r, p + 1);
      BridgeAt(slots, order, mru, lru, p, slots', r);
    }
    OmitDistinct(order, p);
  }

  /** In front of the new head the old members keep their neighbours. */
  lemma PrependAt<K>(slots: seq<Slot<K>>, order: seq<nat>, mru: nat, lru: nat, order': seq<nat>, slots': seq<Slot<K>>,
                     q: nat)
    requires Linked(slots, order, mru, lru) && |slots'| == |slots|
    requires |order'| == |order| + 1 && order'[1..] == order && 1 <= q < |order'|
    requires slots'[order[q - 1]].next == slots[order[q - 1]].next
    requires slots'[order[q - 1]].prev == if q == 1 then order'[0] else slots[order[q - 1]].prev
    ensures order'[q] < |slots| && LinkedAt(slots', order', q)
  {
    assert LinkedAt(slots, order, q - 1);
    assert order'[q] == order'[1..][q - 1];
    assert q + 1 < |order'| ==> order'[q + 1] == order'[1..][q];
    assert q > 1 ==> order'[q - 1] == order'[1..][q - 2];
  }

  lemma PrependLinks<K>(slots: seq<Slot<K>>, order: seq<nat>, mru: nat, lru: nat, i: nat, slots': seq<Slot<K>>,
                        order': seq<nat>)
    requires Linked(slots, order, mru, lru) && i < |slots| && i !in order && |slots'| == |slots|
    requires order' == [i] + order && Distinct(order')
    requires slots'[i].prev == NIL && slots'[i].next == mru
    requires forall j | 0 <= j < |slots| && j != i :: slots'[j].next == slots[j].next
    requires forall j | 0 <= j < |slots| && j != i :: slots'[j].prev == if j == mru then i else slots[j].prev
    ensures Linked(slots', order', i, if mru == NIL then i else lru)
  {
    forall q | 0 <= q < |order'|
      ensures order'[q] < |slots'| && LinkedAt(slots', order', q)
    {
      if q == 0 {
        assert order'[0] == i;
      } else {
        assert order'[q] == order[q - 1];
        DistinctAt(order', q, 0);
        DistinctAt(order', q, 1);
        PrependAt(slots, order, mru, lru, order', slots', q);
      }
    }
  }

  /** Hanging a detached slot in front of the list puts it first. */
  lemma LinkPrepends<K>(slots: seq<Slot<K>>, order: seq<nat>, mru: nat, lru: nat, i: nat)
    returns (slots': seq<Slot<K>>)
    requires Linked(slots, order, mru, lru) && i < |slots| && i !in order
    ensures mru == NIL || (mru < |slots| && mru != i)
    ensures slots' == SetPrev(slots[i := slots[i].(prev := NIL, next := mru)], mru, i)
    ensures Linked(slots', [i] + order, i, if mru == NIL then i else lru) && SameClients(slots, slots')
  {
    if order != [] {
      assert mru == order[0] && mru in order;
    }
    slots' := SetPrev(slots[i := slots[i].(prev := NIL, next := mru)], mru, i);
    PrependDistinct(order, i);
    PrependLinks(slots, order, mru, lru, i, slots', [i] + order);
  }
}
