/** What a handle does once its slot has changed tenants as often as its generation can count. */
module StaleHandles {
  import opened Wrappers
  import opened ClientTypes
  import opened ClientPolicy
  import opened ClientRuns
  import opened TableState
  import opened ClientTable

  /** A table of one client holds the one just admitted. */
  lemma OnlyTenant<K>(clients: ClientTable<K>, key: K)
    requires clients.Valid() && clients.policy.capacity == 1 && key in clients.table.records
    ensures clients.table.records.Keys == {key} && |clients.table.recency| == 1
  {
    BreakSeal(1, clients.Now(), clients.table);
    assert key in clients.table.recency;
    assert clients.table.recency == [key];
  }

  /** The table of one client, and how many tenants its slot has had. */
  ghost predicate Housing<K>(clients: ClientTable<K>, tenant: K, n: nat)
    reads clients, clients.index, clients.index.buckets
  {
    && clients.Valid() && clients.policy.capacity == 1 && clients.policy.config.globalRateHz <= 0.0
    && clients.tenancy == [n] && tenant in clients.table.records && clients.table.stats.evicted == n
  }

  /** Admitting another client puts the tenant out and itself in. */
  method Replace<K(==)>(clients: ClientTable<K>, ghost tenant: K, ghost n: nat, key: K)
    requires Housing(clients, tenant, n) && key != tenant
    modifies clients, clients.index, clients.index.buckets
    ensures Housing(clients, key, n + 1) && old(clients.tickets) <= clients.tickets
  {
    OnlyTenant(clients, tenant);
    AdmitEvicts(clients.policy, clients.table, key, 0.0);
    var d, handle := clients.AdmitHandle(key, 0.0);
  }

  /** The first client moves in. */
  method MoveIn<K(==)>(clients: ClientTable<K>, key: K) returns (handle: ClientHandle)
    requires clients.Valid() && clients.policy.capacity == 1 && clients.policy.config.globalRateHz <= 0.0
    requires clients.table == Empty(clients.policy)
    modifies clients, clients.index, clients.index.buckets
    ensures Housing(clients, key, 0) && Ticket(handle, 0, 0, key) in clients.tickets
  {
    RepOpens(1, clients.Now(), clients.table);
    BreakSeal(1, clients.Now(), clients.table);
    AdmitEnters(clients.policy, clients.table, key, 0.0);
    var d;
    d, handle := clients.AdmitHandle(key, 0.0);
  }

  lemma AdmitEnters<K>(p: Policy, t: Table<K>, key: K, now: real)
    requires t == Empty(p) && !Shed(p.config, t, now) && p.capacity > 0
    ensures key in Admit(p, t, key, now).0.records && Admit(p, t, key, now).0.stats.evicted == 0
  {
    var t1 := GlobalRefill(p.config, Counted(t), now);
    var t2 := Enter(p, t1, key, now);
    EnterBooks(p, t1, key, now);
    assert key in t2.records;
    var charged := Charge(p.config, t2.records[key], now);
    SettleBooks(t2, key, charged, Settle(t2, key, charged));
  }

  lemma ComesBack<K>(clients: ClientTable<K>, tenant: K, handle: ClientHandle, first: K)
    requires Housing(clients, tenant, WORD) && Ticket(handle, 0, 0, first) in clients.tickets
    ensures Owner(clients.Now(), handle) == Some(tenant)
  {
    OnlyTenant(clients, tenant);
    ResolvesWhileCurrent(1, clients.Now(), clients.table, Ticket(handle, 0, 0, first));
    OwnerIsTabled(1, clients.Now(), clients.table, handle);
  }

  /** Two clients by turns, until the slot has had as many new tenants as a generation counts. */
  method TakeTurns(clients: ClientTable<nat>) returns (tenant: nat)
    requires Housing(clients, 7, 0)
    modifies clients, clients.index, clients.index.buckets
    ensures Housing(clients, tenant, WORD) && tenant != 7 && old(clients.tickets) <= clients.tickets
  {
    hide Housing;
    tenant := 7;
    for n := 0 to WORD
      invariant Housing(clients, tenant, n) && old(clients.tickets) <= clients.tickets
      invariant tenant == 7 <==> n == 0
    {
      ghost var before := tenant;
      tenant := if tenant == 8 then 9 else 8;
      Replace(clients, before, n, tenant);
    }
  }

  /**
   A run of admissions to a table of one client: after as many changes of tenant as a
   generation counts, the first client's handle resolves again, to another client's record.
   */
  method StaleHandleComesBack(config: RateLimitConfig, hasher: nat -> nat)
    returns (clients: ClientTable<nat>, handle: ClientHandle, tenant: nat)
    requires config.globalRateHz <= 0.0
    ensures clients.Valid() && clients.table.stats.evicted == WORD
    ensures Ticket(handle, 0, 0, 7) in clients.tickets && tenant != 7
    ensures Owner(clients.Now(), handle) == Some(tenant)
  {
    clients := new ClientTable<nat>(1, config, hasher);
    handle := MoveIn(clients, 7);
    tenant := TakeTurns(clients);
    ComesBack(clients, tenant, handle, 7);
  }
}
