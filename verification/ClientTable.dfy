/**
 The server's client table: stable slots, an intrusive recency list threaded through
 them, an index from key to slot, and two layers of token bucket. Every public method
 is proved to compute the corresponding function of module ClientPolicy.
 */
module ClientTable {
  import opened Wrappers
  import opened Reals
  import opened ClientTypes
  import opened ClientIndex
  import opened ClientPolicy
  import opened ClientRuns
  import opened RecencyList
  import opened TableState

  class ClientTable<K(==)> {
    const policy: Policy
    const index: Index<K>
    const refillPerS: real
    var slots: seq<Slot<K>>
    var free: seq<nat>
    var mru: nat
    var lru: nat
    var globalTokens: real
    var globalLast: Option<real>
    var globalDrops: nat
    var stats: ServerStats

    /** The table that the representation stands for. */
    ghost var table: Table<K>
    ghost var order: seq<nat>
    ghost var tenancy: seq<nat>
    ghost var tickets: set<Ticket<K>>

    /** The whole representation as one value. */
    ghost function Now(): State<K>
      reads this, index
    {
      State(slots, free, mru, lru, order, index.contents, tenancy, tickets)
    }

    /** The slots, the list and the index hold the table `t`. */
    ghost predicate Holds(t: Table<K>)
      reads this, index, index.buckets
    {
      && 0 < policy.capacity && 4 * policy.capacity <= WORD && 4 * policy.capacity <= index.buckets.Length
      && index.Valid() && index.len == |order|
      && Sealed(3, policy.capacity, Now(), t)
    }

    /** The global bucket and the counters are those of `t`. */
    ghost predicate Books(t: Table<K>)
      reads this
    {
      && refillPerS == RefillPerS(policy.config)
      && globalTokens == t.globalTokens && globalLast == t.globalLast
      && globalDrops == t.globalDrops && stats == t.stats
    }

    ghost predicate Valid()
      reads this, index, index.buckets
    {
      Holds(table) && Books(table) && free == []
    }

    constructor (capacity: nat, config: RateLimitConfig, hasher: K -> nat)
      requires 4 * capacity <= WORD
      ensures Valid() && fresh(index) && fresh(index.buckets)
      ensures policy == Policy(if capacity < 1 then 1 else capacity, config)
      ensures table == Empty(policy) && tickets == {}
    {
      var cap := if capacity < 1 then 1 else capacity;
      policy := Policy(cap, config);
      refillPerS := Pow2(-config.intervalLog2);
      index := new Index(cap, hasher);
      slots, free, mru, lru := [], [], NIL, NIL;
      globalTokens, globalLast, globalDrops := config.globalBurst, None, 0;
      stats := ServerStats(0, 0, 0, 0, 0, 0, 0);
      table, order, tenancy, tickets := Empty(Policy(cap, config)), [], [], {};
      new;
      UnderSeal(policy.capacity, Now(), table);
    }

    // ----- the recency list -----

    /** Detach a slot from the recency list. */
    method Unlink(i: nat, ghost p: nat)
      requires Linked(slots, order, mru, lru) && p < |order| && order[p] == i
      modifies this`slots, this`mru, this`lru, this`order
      ensures unchanged(`stats)
      ensures Linked(slots, order, mru, lru) && SameClients(old(slots), slots)
      ensures order == Omit(old(order), p)
    {
      ghost var bridged := UnlinkOmits(slots, order, mru, lru, p);
      var prev, next := slots[i].prev, slots[i].next;
      if prev == NIL {
        mru := next;
      } else {
        slots := slots[prev := slots[prev].(next := next)];
      }
      if next == NIL {
        lru := prev;
      } else {
        slots := slots[next := slots[next].(prev := prev)];
      }
      order := Omit(order, p);
      assert slots == bridged;
    }

    /** Put a detached slot at the most recent end. */
    method LinkFront(i: nat)
      requires Linked(slots, order, mru, lru) && i < |slots| && i !in order
      modifies this`slots, this`mru, this`lru, this`order
      ensures unchanged(`stats)
      ensures Linked(slots, order, mru, lru) && SameClients(old(slots), slots)
      ensures order == [i] + old(order)
    {
      ghost var hung := LinkPrepends(slots, order, mru, lru, i);
      var oldMru := mru;
      slots := slots[i := slots[i].(prev := NIL, next := oldMru)];
      if oldMru == NIL {
        lru := i;
      } else {
        slots := slots[oldMru := slots[oldMru].(prev := i)];
      }
      mru := i;
      order := [i] + order;
      assert slots == hung;
    }

    /** Move a listed slot to the most recent end. */
    method Touch(i: nat, ghost p: nat)
      requires Linked(slots, order, mru, lru) && p < |order| && order[p] == i
      modifies this`slots, this`mru, this`lru, this`order
      ensures unchanged(`stats)
      ensures Linked(slots, order, mru, lru) && SameClients(old(slots), slots)
      ensures order == [i] + Omit(old(order), p)
    {
      if mru == i {
        DistinctAt(order, 0, p);
        assert order == [i] + Omit(order, 0);
        return;
      }
      OmitDistinct(order, p);
      Unlink(i, p);
      LinkFront(i);
    }

    /** Drop the least recently admitted client: the tail of the list. */
    method EvictOne()
      requires Linked(slots, order, mru, lru) && index.Valid() && Named(index.contents, slots)
      requires |order| > 0 ==> slots[lru].key in index.contents
      modifies this`slots, this`mru, this`lru, this`order, this`free, this`stats, index, index.buckets
      ensures Linked(slots, order, mru, lru) && SameClients(old(slots), slots) && index.Valid()
      ensures |old(order)| == 0 ==>
                order == [] && slots == old(slots) && free == old(free) && stats == old(stats)
                && index.contents == old(index.contents) && index.len == old(index.len)
      ensures |old(order)| > 0 ==>
                && order == old(order)[..|old(order)| - 1] && free == old(free) + [old(order)[|old(order)| - 1]]
                && index.contents == old(index.contents) - {slots[old(order)[|old(order)| - 1]].key}
                && index.len == old(index.len) - 1
                && stats == old(stats).(evicted := old(stats).evicted + 1)
    {
      var victim := lru;
      if victim == NIL {
        return;
      }
      OmitLast(order);
      Unlink(victim, |order| - 1);
      index.Remove(slots[victim].key, slots);
      free := free + [victim];
      stats := stats.(evicted := stats.evicted + 1);
    }

    /** Take a slot for a new client, reusing an evicted one where possible. */
    method AllocSlot(key: K, record: ClientRecord, ghost s: State<K>) returns (i: nat)
      requires s == Now() && Settleable(s)
      requires var room := Settled(s, key, record); room.2 !in order && Linked(room.0, order, mru, lru)
      modifies this`slots, this`mru, this`lru, this`order, this`free, this`tenancy
      ensures var room := Settled(s, key, record);
              SameClients(room.0, slots) && tenancy == room.1 && i == room.2 && free == room.3
      ensures unchanged(`stats)
      ensures order == [i] + s.order && Linked(slots, order, mru, lru)
    {
      if |free| > 0 {
        i := free[|free| - 1];
        assert i in free;
        free := free[..|free| - 1];
        slots := slots[i := Slot(key, record, NIL, NIL, (slots[i].generation + 1) % WORD)];
        tenancy := tenancy[i := tenancy[i] + 1];
      } else {
        i := |slots|;
        slots := slots + [Slot(key, record, NIL, NIL, 0)];
        tenancy := tenancy + [0];
      }
      LinkFront(i);
    }

    // ----- entering -----

    /** Touch the slot of a known key. */
    method Revisit(i: nat, ghost p: nat, ghost t: Table<K>)
      requires Holds(t) && p < |order| && order[p] == i
      modifies this`slots, this`mru, this`lru, this`order
      ensures unchanged(`stats)
      ensures Touched(old(Now()), p, Now())
    {
      RepOpens(policy.capacity, Now(), t);
      Touch(i, p);
    }

    /** Evict the tail and strike its key from the index. */
    method MakeRoom(ghost t: Table<K>, ghost s: State<K>)
      requires Holds(t) && s == Now() && |s.order| > 0
      modifies this`slots, this`mru, this`lru, this`order, this`free, this`stats, index, index.buckets
      ensures Evicted(s, Now()) && index.Valid() && index.len == |order|
      ensures stats == old(stats).(evicted := old(stats).evicted + 1)
    {
      RepOpens(policy.capacity, s, t);
      EvictOne();
    }

    /** Settle a new client in a slot, put it in front and file it. */
    method Enroll(key: K, record: ClientRecord, ghost t: Table<K>) returns (i: nat)
      requires Holds(t) && |order| < policy.capacity && |free| <= 1 && key !in index.contents
      modifies this`slots, this`mru, this`lru, this`order, this`free, this`tenancy, index, index.buckets
      ensures unchanged(`stats)
      ensures Entered(old(Now()), key, record, Now()) && index.Valid() && index.len == |order|
      ensures |order| > 0 && order[0] == i
    {
      ghost var s := Now();
      RepOpens(policy.capacity, s, t);
      SettledIsDetached(policy.capacity, s, t, key, record);
      i := AllocSlot(key, record, s);
      EnterNames(policy.capacity, s, t, key, record, slots);
      index.Insert(key, i, slots);
    }

    /** A known key goes back to the front. */
    method EnterKnown(i: nat, key: K, now: real, ghost t: Table<K>, ghost s: State<K>, ghost t': Table<K>)
      requires Holds(t) && s == Now() && s.free == [] && i in order && i < |slots| && slots[i].key == key
      requires t' == Enter(policy, t, key, now)
      modifies this`slots, this`mru, this`lru, this`order
      ensures unchanged(`stats)
      ensures Holds(t') && Tracked(3, s, Now(), t')
      ensures i in order && i < |slots| && slots[i].key == key
    {
      ghost var p :| 0 <= p < |order| && order[p] == i;
      Revisit(i, p, t);
      TouchEnters(policy, s, t, p, key, now, Now(), t');
      assert order[0] == i;
    }

    /** A new key in a full table takes the tail's place. */
    method EnterFull(key: K, now: real, ghost t: Table<K>, ghost s: State<K>, ghost t': Table<K>) returns (i: nat)
      requires Holds(t) && s == Now() && s.free == [] && |s.order| == policy.capacity && key !in s.contents
      requires t' == Enter(policy, t, key, now)
      modifies this`slots, this`mru, this`lru, this`order, this`free, this`tenancy, this`stats
      modifies index, index.buckets
      ensures Holds(t') && free == [] && Tracked(3, s, Now(), t')
      ensures i in order && i < |slots| && slots[i].key == key
      ensures stats == old(stats).(evicted := old(stats).evicted + 1)
      ensures Tenants(s.tenancy, tenancy, i, false, true)
    {
      MakeRoom(t, s);
      ghost var s1 := Now();
      ghost var t1 := EvictMakesRoom(policy, s, t, key, now, s1, t');
      EvictLeaves(s, s1, key);
      i := Enroll(key, FreshRecord(now, policy.config.burst), t1);
      EvictedEnters(policy, s, t, key, FreshRecord(now, policy.config.burst), s1, t1, Now(), t');
    }

    /** A new key in a table with room. */
    method EnterRoom(key: K, now: real, ghost t: Table<K>, ghost s: State<K>, ghost t': Table<K>) returns (i: nat)
      requires Holds(t) && s == Now() && s.free == [] && |s.order| < policy.capacity && key !in s.contents
      requires t' == Enter(policy, t, key, now)
      modifies this`slots, this`mru, this`lru, this`order, this`free, this`tenancy
      modifies index, index.buckets
      ensures unchanged(`stats)
      ensures Holds(t') && free == [] && Tracked(3, s, Now(), t')
      ensures i in order && i < |slots| && slots[i].key == key
      ensures Tenants(s.tenancy, tenancy, i, false, false)
    {
      RepOpens(policy.capacity, s, t);
      i := Enroll(key, FreshRecord(now, policy.config.burst), t);
      NewcomerEnters(policy, s, t, key, now, Now(), t');
    }

    /** Find the slot of `key`, or make one: the part of an admission that moves keys. */
    method EnterSlot(key: K, now: real, ghost t: Table<K>, ghost s: State<K>, ghost t': Table<K>) returns (i: nat)
      requires Holds(t) && s == Now() && s.free == [] && t' == Enter(policy, t, key, now)
      modifies this`slots, this`mru, this`lru, this`order, this`free, this`tenancy, this`stats
      modifies index, index.buckets
      ensures Holds(t') && free == [] && Tracked(3, s, Now(), t')
      ensures key in s.contents || |s.order| < policy.capacity ==> unchanged(`stats)
      ensures key !in s.contents && |s.order| >= policy.capacity ==>
              stats == old(stats).(evicted := old(stats).evicted + 1)
      ensures i in order && i < |slots| && slots[i].key == key
      ensures Tenants(s.tenancy, tenancy, i, key in s.contents, |s.order| >= policy.capacity)
    {
      FiledIsListed(policy.capacity, s, t, key);
      var found := index.Get(key, slots);
      if found.Some? {
        i := found.value;
        EnterKnown(i, key, now, t, s, t');
      } else if index.len >= policy.capacity {
        i := EnterFull(key, now, t, s, t');
      } else {
        i := EnterRoom(key, now, t, s, t');
      }
    }

    // ----- admitting -----

    /** Refill the global bucket and, where it is empty, turn the request away. */
    method PassGlobal(now: real, ghost t: Table<K>) returns (refusal: Option<Disposition>)
      requires Books(Counted(t))
      modifies this`globalTokens, this`globalLast, this`globalDrops, this`stats
      ensures refusal.Some? <==> Shed(policy.config, t, now)
      ensures refusal.None? ==> Books(GlobalRefill(policy.config, Counted(t), now))
      ensures refusal.Some? ==>
                var (t', d) := GlobalDrop(policy.config, GlobalRefill(policy.config, Counted(t), now));
                Books(t') && refusal == Some(d)
    {
      if policy.config.globalRateHz > 0.0 {
        var last := if globalLast.Some? then globalLast.value else now;
        var elapsed := Max(now - last, 0.0);
        globalTokens := Min(globalTokens + elapsed * policy.config.globalRateHz, policy.config.globalBurst);
        globalLast := Some(now);
        if globalTokens < 1.0 {
          stats := stats.(droppedRateLimit := stats.droppedRateLimit + 1);
          globalDrops := globalDrops + 1;
          if globalDrops >= Period(policy.config.leakShift) {
            globalDrops := 0;
            stats := stats.(kissOfDeath := stats.kissOfDeath + 1);
            return Some(KissOfDeath);
          }
          return Some(Drop);
        }
      }
      return None;
    }

    /** Overwrite the record in a listed slot. */
    method WriteRecord(i: nat, record: ClientRecord, ghost t: Table<K>, ghost t': Table<K>)
      requires Holds(t) && i in order && i < |slots|
      requires t'.recency == t.recency && t'.noted.Keys == t.noted.Keys
      requires t'.records == t.records[slots[i].key := record]
      modifies this`slots
      ensures Holds(t') && slots == old(slots)[i := old(slots)[i].(record := record)]
    {
      ghost var s := Now();
      slots := slots[i := slots[i].(record := record)];
      WriteRep(policy.capacity, s, t, i, record, Now(), t');
    }

    /** Refill and charge one client's record: what it becomes, and what the request draws. */
    method ChargeRecord(before: ClientRecord, now: real) returns (record: ClientRecord, d: Disposition)
      requires refillPerS == RefillPerS(policy.config)
      ensures (record, d) == Charge(policy.config, before, now)
    {
      record := before;
      var elapsed := Max(now - record.lastSeen, 0.0);
      record := record.(tokens := Min(record.tokens + elapsed * refillPerS, policy.config.burst as real));
      record := record.(lastSeen := now);
      record := record.(requests := record.requests + 1);
      if record.tokens >= 1.0 {
        record := record.(tokens := record.tokens - 1.0, responses := record.responses + 1);
        return record, Respond;
      }
      record := record.(dropped := record.dropped + 1, dropsSinceKod := record.dropsSinceKod + 1);
      if record.dropsSinceKod >= Period(policy.config.leakShift) {
        record := record.(dropsSinceKod := 0);
        return record, KissOfDeath;
      }
      return record, Drop;
    }

    /** Book the disposition of a charged request. */
    method BookDisposition(d: Disposition, ghost t: Table<K>, ghost t': Table<K>)
      requires Books(t)
      requires t'.globalLast == t.globalLast && t'.globalDrops == t.globalDrops
      requires t'.globalTokens == (if d.Respond? then t.globalTokens - 1.0 else t.globalTokens)
      requires t'.stats ==
               match d
               case Respond => t.stats.(responses := t.stats.responses + 1)
               case Drop => t.stats.(droppedRateLimit := t.stats.droppedRateLimit + 1)
               case KissOfDeath =>
                 t.stats.(droppedRateLimit := t.stats.droppedRateLimit + 1, kissOfDeath := t.stats.kissOfDeath + 1)
      modifies this`globalTokens, this`stats
      ensures Books(t')
    {
      if d.Respond? {
        stats := stats.(responses := stats.responses + 1);
        globalTokens := globalTokens - 1.0;
        return;
      }
      stats := stats.(droppedRateLimit := stats.droppedRateLimit + 1);
      if d.KissOfDeath? {
        stats := stats.(kissOfDeath := stats.kissOfDeath + 1);
      }
    }

    /** Enter the client and remember where. */
    method Place(key: K, now: real, ghost t: Table<K>, ghost s: State<K>, ghost t': Table<K>) returns (i: nat)
      requires Holds(t) && Books(t) && s == Now() && s.free == [] && t' == Enter(policy, t, key, now)
      modifies this`slots, this`mru, this`lru, this`order, this`free, this`tenancy, this`stats
      modifies index, index.buckets
      ensures Holds(t') && Books(t') && free == [] && Tracked(3, s, Now(), t')
      ensures i in order && i < |slots| && slots[i].key == key && key in t'.records
              && slots[i].record == t'.records[key]
      ensures Tenants(s.tenancy, tenancy, i, key in t.records, |t.recency| >= policy.capacity)
    {
      EnterBooks(policy, t, key, now);
      FiledIsListed(policy.capacity, s, t, key);
      i := EnterSlot(key, now, t, s, t');
      ListedIsFiled(policy.capacity, Now(), t', i);
    }

    /** Charge the client in slot `i`. */
    method ChargeSlot(i: nat, key: K, now: real, ghost t: Table<K>, ghost s: State<K>, ghost t': Table<K>)
      returns (d: Disposition)
      requires Holds(t) && Books(t) && s == Now()
      requires i in order && i < |slots| && slots[i].key == key && key in t.records && slots[i].record == t.records[key]
      requires t' == Settle(t, key, Charge(policy.config, t.records[key], now))
      modifies this`slots, this`globalTokens, this`stats
      ensures Holds(t') && Books(t') && d == Charge(policy.config, t.records[key], now).1
      ensures t'.records.Keys == t.records.Keys
      ensures |slots| == |s.slots| && slots[i].key == key && slots[i].generation == s.slots[i].generation
    {
      var record;
      record, d := ChargeRecord(slots[i].record, now);
      SettleBooks(t, key, (record, d), t');
      WriteRecord(i, record, t, t');
      BookDisposition(d, t, t');
    }

    /** Serve a request that passed the global ceiling. */
    method PassClient(key: K, now: real, ghost t: Table<K>, ghost s: State<K>)
      returns (i: nat, d: Disposition, ghost t': Table<K>)
      requires Holds(t) && Books(t) && s == Now() && s.free == []
      modifies this`slots, this`mru, this`lru, this`order, this`free, this`tenancy, this`globalTokens, this`stats
      modifies index, index.buckets
      ensures (t', d) == Pass(policy, t, key, now)
      ensures Holds(t') && Books(t') && free == [] && Tracked(3, s, Now(), t')
      ensures i in order && i < |slots| && slots[i].key == key
      ensures Tenants(s.tenancy, tenancy, i, key in t.records, |t.recency| >= policy.capacity)
    {
      ghost var t1 := Enter(policy, t, key, now);
      i := Place(key, now, t, s, t1);
      ghost var s1 := Now();
      t' := Settle(t1, key, Charge(policy.config, t1.records[key], now));
      d := ChargeSlot(i, key, now, t1, s1, t');
      TrackedOn(s, s1, t1, Now(), t');
    }

    /** The handle that addresses the tenant of a slot. */
    function HandleFor(i: nat): ClientHandle
      requires i < |slots|
      reads this
    {
      ClientHandle(i, slots[i].generation)
    }

    /** Take a handle for the tenant of a listed slot. */
    method Issue(i: nat, key: K) returns (handle: ClientHandle)
      requires Valid() && i in order && i < |slots| && slots[i].key == key
      modifies this`tickets
      ensures Valid() && handle.slot == i < |tenancy|
      ensures var u := Ticket(handle, i, tenancy[i], key); tickets == old(tickets) + {u} && Current(Now(), u)
      ensures Owner(Now(), handle) == Some(key)
    {
      handle := HandleFor(i);
      ghost var s := Now();
      IssueRep(policy.capacity, s, table, i);
      tickets := tickets + {Ticket(handle, i, tenancy[i], key)};
    }

    /** Serve a request that passed the global ceiling, and issue its handle. */
    method Serve(key: K, now: real, ghost t: Table<K>, ghost s: State<K>) returns (d: Disposition, handle: ClientHandle)
      requires Holds(t) && Books(t) && s == Now() && s.free == []
      modifies this, index, index.buckets
      ensures Valid() && (table, d) == Pass(policy, t, key, now)
      ensures handle.slot < |tenancy|
      ensures var u := Ticket(handle, handle.slot, tenancy[handle.slot], key);
              tickets == s.tickets + {u} && Current(Now(), u)
      ensures Owner(Now(), handle) == Some(key)
      ensures forall u | u in s.tickets :: Current(Now(), u) <==> Current(s, u) && u.key in table.records
      ensures Tenants(s.tenancy, tenancy, handle.slot, key in t.records, |t.recency| >= policy.capacity)
    {
      var i;
      i, d, table := PassClient(key, now, t, s);
      TrackedFollows(s, Now(), table);
      handle := Issue(i, key);
    }

    /** A request the global ceiling turned away leaves the clients as they are. */
    ghost method TurnAway(t: Table<K>, s: State<K>, t': Table<K>)
      requires Holds(t) && Books(t') && s == Now() && s.free == []
      requires t'.recency == t.recency && t'.records == t.records && t'.noted == t.noted
      modifies this`table
      ensures Valid() && table == t'
      ensures forall u | u in s.tickets :: Current(s, u) <==> Current(s, u) && u.key in table.records
    {
      BooksAreApart(policy.capacity, s, t, t');
      ShedKeepsTickets(policy.capacity, s, t, t');
      table := t';
    }

    /**
     Admit one request: decide its fate, record it, and return the handle that
     addresses its client from here on. Of the handles issued before, exactly those
     stay current whose key stays tabled; only a key that takes the tail's place in a
     full table gives a slot another tenant.
     */
    method AdmitHandle(key: K, now: real) returns (d: Disposition, handle: ClientHandle)
      requires Valid()
      modifies this, index, index.buckets
      ensures Valid()
      ensures (table, d) == Admit(policy, old(table), key, now)
      ensures Shed(policy.config, old(table), now) ==> handle == INVALID && tickets == old(tickets)
      ensures !Shed(policy.config, old(table), now) ==>
                && handle.slot < |tenancy|
                && var u := Ticket(handle, handle.slot, tenancy[handle.slot], key);
                tickets == old(tickets) + {u} && Current(Now(), u)
      ensures !Shed(policy.config, old(table), now) ==> Owner(Now(), handle) == Some(key)
      ensures forall u | u in old(tickets) :: Current(Now(), u) <==> Current(old(Now()), u) && u.key in table.records
      ensures if Shed(policy.config, old(table), now) then tenancy == old(tenancy)
              else Tenants(old(tenancy), tenancy, handle.slot, key in old(table).records,
                           |old(table).recency| >= policy.capacity)
    {
      ghost var s, t := Now(), table;
      ghost var t1 := GlobalRefill(policy.config, Counted(t), now);
      stats := stats.(requests := stats.requests + 1);
      var refusal := PassGlobal(now, t);
      if refusal.Some? {
        TurnAway(t, s, GlobalDrop(policy.config, t1).0);
        return refusal.value, INVALID;
      }
      BooksAreApart(policy.capacity, s, t, t1);
      d, handle := Serve(key, now, t1, s);
    }

    // ----- by handle -----

    /** Turn a handle back into a slot, or nothing if it has gone stale. */
    method Resolve(handle: ClientHandle) returns (i: Option<nat>)
      ensures i == if Resolves(Now(), handle) then Some(handle.slot) else None
    {
      if handle.slot < |slots| && slots[handle.slot].generation == handle.generation {
        return Some(handle.slot);
      }
      return None;
    }

    /** Decide basic or interleaved for the client a handle leads to. */
    method ResponseModeAt(handle: ClientHandle, origin: NtpTimestamp) returns (mode: ResponseMode)
      requires Valid()
      modifies this`slots, this`stats, this`table
      ensures Valid()
      ensures (table, mode) == ChooseMode(old(table), Owner(old(Now()), handle), origin)
      ensures Owner(Now(), handle) == Owner(old(Now()), handle)
    {
      var i := Resolve(handle);
      if i.None? {
        return Basic;
      }
      OwnerIsTabled(policy.capacity, Now(), table, handle);
      var record := slots[i.value].record;
      if record.lastReceiveSent == 0 || record.lastTransmit == 0 {
        return Basic;
      }
      ghost var t := table;
      var interleaved := origin == record.lastReceiveSent && origin != 0;
      table := ChooseMode(t, Some(slots[i.value].key), origin).0;
      WriteRecord(i.value, record.(interleavedNow := interleaved), t, table);
      if interleaved {
        stats := stats.(interleavedResponses := stats.interleavedResponses + 1);
        return Interleaved(record.lastTransmit);
      }
      return Basic;
    }

    /** Record what was received from, and reported to, the client a handle leads to. */
    method NoteResponseAt(handle: ClientHandle, receive: NtpTimestamp, sent: NtpTimestamp)
      requires Valid()
      modifies this`slots, this`table
      ensures Valid() && table == NoteResponse(old(table), Owner(old(Now()), handle), receive, sent)
      ensures Owner(Now(), handle) == Owner(old(Now()), handle)
    {
      var i := Resolve(handle);
      if i.Some? {
        OwnerIsTabled(policy.capacity, Now(), table, handle);
        ghost var t := table;
        table := NoteResponse(t, Some(slots[i.value].key), receive, sent);
        WriteRecord(i.value, slots[i.value].record.(lastReceive := receive, lastReceiveSent := sent), t, table);
      }
    }

    /** Record the true transmit time of the response just sent. */
    method NoteTransmitAt(handle: ClientHandle, transmit: NtpTimestamp)
      requires Valid()
      modifies this`slots, this`table
      ensures Valid() && table == NoteTransmit(old(table), Owner(old(Now()), handle), transmit)
    {
      var i := Resolve(handle);
      if i.Some? {
        OwnerIsTabled(policy.capacity, Now(), table, handle);
        NotedKeys(policy.capacity, Now(), table);
        ghost var t := table;
        table := NoteTransmit(t, Some(slots[i.value].key), transmit);
        WriteRecord(i.value, slots[i.value].record.(lastTransmit := transmit), t, table);
      }
    }

    method NoteRefused()
      requires Valid()
      modifies this`stats, this`table
      ensures Valid() && table == Step(policy, old(table), Refused)
    {
      ghost var t := table;
      stats := stats.(refused := stats.refused + 1);
      table := Step(policy, t, Refused);
      BooksAreApart(policy.capacity, Now(), t, table);
    }

    // ----- reading -----

    method Get(key: K) returns (r: Option<ClientRecord>)
      requires Valid()
      ensures r == if key in table.records then Some(table.records[key]) else None
    {
      FiledIsListed(policy.capacity, Now(), table, key);
      var i := index.Get(key, slots);
      if i.None? {
        return None;
      }
      return Some(slots[i.value].record);
    }

    /** How many clients are tabled: never more than the capacity. */
    method Len() returns (n: nat)
      requires Valid()
      ensures n == |table.recency| <= policy.capacity
    {
      RepOpens(policy.capacity, Now(), table);
      n := index.len;
    }

    /** The first `limit` clients, most recently admitted first. */
    method MostRecent(limit: nat) returns (out: seq<(K, ClientRecord)>)
      requires Valid()
      ensures |out| == if limit < |table.recency| then limit else |table.recency|
      ensures forall p | 0 <= p < |out| ::
                table.recency[p] in table.records && out[p] == (table.recency[p], table.records[table.recency[p]])
    {
      out := [];
      var at := mru;
      ghost var s := Now();
      WalkStarts(policy.capacity, s, table);
      while at != NIL && |out| < limit
        invariant |out| <= limit && |out| <= |order| == |table.recency|
        invariant at == (if |out| == |order| then NIL else order[|out|])
        invariant |out| < |order| ==> at != NIL
        invariant forall p | 0 <= p < |out| ::
                    table.recency[p] in table.records && out[p] == (table.recency[p], table.records[table.recency[p]])
        decreases limit - |out|
      {
        WalkOn(policy.capacity, s, table, |out|);
        out := out + [(slots[at].key, slots[at].record)];
        at := slots[at].next;
      }
    }
  }
}
