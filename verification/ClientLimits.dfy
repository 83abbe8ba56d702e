/** The rate limits, the counters and interleaved mode over whole runs of the client table. */
module ClientLimits {
  import opened Wrappers
  import opened Reals
  import opened ClientTypes
  import opened ClientPolicy
  import opened ClientRuns

  // ----- time -----

  /** The requests of a run come at non-decreasing times, none before `since`. */
  ghost predicate Timed<K>(events: seq<Event<K>>, since: real)
    decreases |events|
  {
    events != [] ==> since <= After(events[0], since) && Timed(events[1..], After(events[0], since))
  }

  /** What a bucket refilled at `rate` earns from `s` to `n`. */
  function Earned(s: real, n: real, rate: real): real {
    (n - s) * rate
  }

  /** The time after an event that happened at or after `since`. */
  function After<K>(e: Event<K>, since: real): real {
    if e.Request? then e.now else since
  }

  /** The time of the last request of a run, or `since`. */
  function EndTime<K>(events: seq<Event<K>>, since: real): real
    decreases |events|
  {
    if events == [] then since else EndTime(events[1..], After(events[0], since))
  }

  // ----- the ledger: what one request does to the counters -----

  /** Every request is either answered or counted as dropped. */
  ghost predicate Balanced<K>(t: Table<K>) {
    t.stats.requests == t.stats.responses + t.stats.droppedRateLimit
  }

  /** Drops since the last Kiss-o'-Death, summed over a list of keys. */
  function PendingDrops<K>(s: seq<K>, records: map<K, ClientRecord>): (n: nat)
    requires forall k | k in s :: k in records
  {
    if s == [] then 0 else records[s[0]].dropsSinceKod + PendingDrops(s[1..], records)
  }

  lemma {:induction false} PendingSplits<K>(a: seq<K>, b: seq<K>, records: map<K, ClientRecord>)
    requires forall k | k in a + b :: k in records
    ensures forall k | k in a :: k in a + b
    ensures forall k | k in b :: k in a + b
    ensures PendingDrops(a + b, records) == PendingDrops(a, records) + PendingDrops(b, records)
  {
    if a == [] {
      assert a + b == b;
    } else {
      assert (a + b)[1..] == a[1..] + b;
      PendingSplits(a[1..], b, records);
      assert forall k | k in a :: k in a + b;
    }
  }

  /** The sum reads only the records of the listed keys. */
  lemma {:induction false} PendingReads<K>(s: seq<K>, r1: map<K, ClientRecord>, r2: map<K, ClientRecord>)
    requires forall k | k in s :: k in r1 && k in r2 && r1[k] == r2[k]
    ensures PendingDrops(s, r1) == PendingDrops(s, r2)
  {
    if s != [] {
      PendingReads(s[1..], r1, r2);
    }
  }

  lemma PendingWithout<K>(s: seq<K>, k: K, records: map<K, ClientRecord>)
    requires Distinct(s) && k in s && forall x | x in s :: x in records
    ensures forall x | x in Without(s, k) :: x in records
    ensures PendingDrops(s, records) == records[k].dropsSinceKod + PendingDrops(Without(s, k), records)
  {
    var i := IndexOf(s, k);
    IndexOfMeaning(s, k);
    WithoutShape(s, k);
    assert s == s[..i] + ([k] + s[i + 1..]);
    PendingSplits(s[..i], [k] + s[i + 1..], records);
    PendingSplits(s[..i], s[i + 1..], records);
    assert ([k] + s[i + 1..])[1..] == s[i + 1..];
  }

  /** The drops that `kods` Kiss-o'-Deaths stand for. */
  function Owed(kods: nat, period: nat): nat {
    if kods == 0 then 0 else period + Owed(kods - 1, period)
  }

  lemma {:induction false} OwedIsProduct(kods: nat, period: nat)
    ensures Owed(kods, period) == kods * period
  {
    if kods > 0 {
      OwedIsProduct(kods - 1, period);
      assert kods * period == (kods - 1) * period + period;
    }
  }

  /** Each Kiss-o'-Death sent is paid for by a whole period of drops. */
  ghost predicate Leaky<K>(p: Policy, t: Table<K>) {
    && (forall k | k in t.recency :: k in t.records)
    && Owed(t.stats.kissOfDeath, Period(p.config.leakShift)) + t.globalDrops + PendingDrops(t.recency, t.records)
         <= t.stats.droppedRateLimit
  }

  lemma GlobalDropLeaks<K>(p: Policy, t: Table<K>)
    requires Leaky(p, t)
    ensures Leaky(p, GlobalDrop(p.config, t).0)
  {
  }

  lemma EvictLeaks<K>(p: Policy, t: Table<K>)
    requires Shaped(p, t) && |t.recency| > 0 && Leaky(p, t)
    ensures Leaky(p, Evict(t))
  {
    var s, n := t.recency, |t.recency|;
    EvictKeepsShape(p, t);
    assert s == s[..n - 1] + [s[n - 1]];
    PendingSplits(s[..n - 1], [s[n - 1]], t.records);
    PendingReads(s[..n - 1], t.records, Evict(t).records);
  }

  lemma PendingCons<K>(k: K, s: seq<K>, records: map<K, ClientRecord>, r: ClientRecord)
    requires k !in records && forall x | x in s :: x in records
    ensures PendingDrops([k] + s, records[k := r]) == r.dropsSinceKod + PendingDrops(s, records)
  {
    assert ([k] + s)[1..] == s;
    PendingReads(s, records, records[k := r]);
  }

  /** Entering adds a record with no pending drops, and evicting forgets some. */
  lemma EnterLeaks<K>(p: Policy, t: Table<K>, key: K, now: real)
    requires Shaped(p, t) && p.capacity > 0 && Leaky(p, t)
    ensures Leaky(p, Enter(p, t, key, now))
  {
    if key in t.records {
      PendingWithout(t.recency, key, t.records);
      assert ([key] + Without(t.recency, key))[1..] == Without(t.recency, key);
    } else if |t.recency| >= p.capacity {
      EvictKeepsShape(p, t);
      EvictLeaks(p, t);
      PendingCons(key, Evict(t).recency, Evict(t).records, FreshRecord(now, p.config.burst));
    } else {
      PendingCons(key, t.recency, t.records, FreshRecord(now, p.config.burst));
    }
  }

  /** What charging a record does to its pending drops. */
  ghost predicate DropsBooked(c: RateLimitConfig, r: ClientRecord, charged: (ClientRecord, Disposition)) {
    match charged.1
    case Respond => charged.0.dropsSinceKod == r.dropsSinceKod
    case KissOfDeath => charged.0.dropsSinceKod == 0 && r.dropsSinceKod + 1 >= Period(c.leakShift)
    case Drop => charged.0.dropsSinceKod == r.dropsSinceKod + 1
  }

  lemma ChargeBooksDrops(c: RateLimitConfig, r: ClientRecord, now: real)
    ensures DropsBooked(c, r, Charge(c, r, now))
  {
  }

  /** Replacing one key's record changes the sum by that record's difference. */
  lemma PendingUpdate<K>(s: seq<K>, k: K, records: map<K, ClientRecord>, r: ClientRecord)
    requires Distinct(s) && k in s && forall x | x in s :: x in records
    ensures PendingDrops(s, records[k := r]) == PendingDrops(s, records) - records[k].dropsSinceKod + r.dropsSinceKod
  {
    PendingWithout(s, k, records);
    PendingWithout(s, k, records[k := r]);
    WithoutShape(s, k);
    PendingReads(Without(s, k), records, records[k := r]);
  }

  lemma SettleLeaks<K>(p: Policy, t: Table<K>, key: K, charged: (ClientRecord, Disposition))
    requires Shaped(p, t) && Leaky(p, t) && key in t.records && DropsBooked(p.config, t.records[key], charged)
    ensures Leaky(p, Settle(t, key, charged))
  {
    PendingUpdate(t.recency, key, t.records, charged.0);
  }

  // ----- whole runs of the counters -----

  /** Shape, balance and leak hold together. */
  ghost predicate Accounted<K>(p: Policy, t: Table<K>) {
    Shaped(p, t) && Balanced(t) && Leaky(p, t)
  }

  lemma PassLeaks<K>(p: Policy, t: Table<K>, key: K, now: real)
    requires Shaped(p, t) && Leaky(p, t) && p.capacity > 0
    ensures Leaky(p, Pass(p, t, key, now).0)
  {
    EnterKeepsShape(p, t, key, now);
    EnterLeaks(p, t, key, now);
    var t1 := Enter(p, t, key, now);
    ChargeBooksDrops(p.config, t1.records[key], now);
    SettleLeaks(p, t1, key, Charge(p.config, t1.records[key], now));
  }

  /** Entering may count an eviction and nothing else. */
  lemma EnterCounts<K>(p: Policy, t: Table<K>, key: K, now: real)
    ensures Enter(p, t, key, now).stats == t.stats.(evicted := Enter(p, t, key, now).stats.evicted)
  {
  }

  /** A charged request is booked as answered or as dropped. */
  lemma SettleCounts<K>(t: Table<K>, key: K, charged: (ClientRecord, Disposition))
    ensures var a, b := Settle(t, key, charged).stats, t.stats;
            && a.requests == b.requests
            && a.responses + a.droppedRateLimit == b.responses + b.droppedRateLimit + 1
  {
  }

  lemma AdmitBalances<K>(p: Policy, t: Table<K>, key: K, now: real)
    requires Balanced(t)
    ensures Balanced(Admit(p, t, key, now).0)
  {
    var t1 := GlobalRefill(p.config, Counted(t), now);
    if !Shed(p.config, t, now) {
      var t2 := Enter(p, t1, key, now);
      EnterCounts(p, t1, key, now);
      SettleCounts(t2, key, Charge(p.config, t2.records[key], now));
    }
  }

  lemma AdmitLeaks<K>(p: Policy, t: Table<K>, key: K, now: real)
    requires Accounted(p, t) && p.capacity > 0
    ensures Leaky(p, Admit(p, t, key, now).0)
  {
    var t1 := GlobalRefill(p.config, Counted(t), now);
    RefillMovesNoKeys(p.config, t, now);
    if Shed(p.config, t, now) {
      GlobalDropLeaks(p, t1);
    } else {
      PassLeaks(p, t1, key, now);
    }
  }

  lemma StepKeepsAccounts<K>(p: Policy, t: Table<K>, e: Event<K>)
    requires Accounted(p, t) && p.capacity > 0
    ensures Accounted(p, Step(p, t, e))
  {
    hide Admit, Leaky, Shaped;
    StepKeepsShape(p, t, e);
    match e {
      case Request(key, now) =>
        AdmitBalances(p, t, key, now);
        AdmitLeaks(p, t, key, now);
      case Mode(who, origin) =>
        RecordNotesLeak(p, t, who, ChooseMode(t, who, origin).0);
      case Answered(who, receive, sent) =>
        RecordNotesLeak(p, t, who, NoteResponse(t, who, receive, sent));
      case Sent(who, transmit) =>
        RecordNotesLeak(p, t, who, NoteTransmit(t, who, transmit));
      case Refused =>
        RecordNotesLeak(p, t, None, Step(p, t, e));
    }
  }

  /** Notes on one record that leave its pending drops alone leave the sum alone. */
  lemma RecordNotesLeak<K>(p: Policy, t: Table<K>, who: Option<K>, t': Table<K>)
    requires Accounted(p, t)
    requires t'.recency == t.recency && t'.globalDrops == t.globalDrops
    requires t'.stats.kissOfDeath == t.stats.kissOfDeath && t'.stats.droppedRateLimit == t.stats.droppedRateLimit
    requires t'.records == t.records ||
             (who.Some? && who.value in t.records && exists r ::
              t'.records == t.records[who.value := r] && r.dropsSinceKod == t.records[who.value].dropsSinceKod)
    ensures Leaky(p, t')
  {
    if t'.records != t.records {
      var r :| t'.records == t.records[who.value := r] && r.dropsSinceKod == t.records[who.value].dropsSinceKod;
      PendingUpdate(t.recency, who.value, t.records, r);
    }
  }

  lemma {:induction false} RunKeepsAccounts<K>(p: Policy, t: Table<K>, events: seq<Event<K>>)
    requires Accounted(p, t) && p.capacity > 0
    ensures Accounted(p, Run(p, t, events))
    decreases |events|
  {
    if events != [] {
      StepKeepsAccounts(p, t, events[0]);
      RunKeepsAccounts(p, Step(p, t, events[0]), events[1..]);
    }
  }

  /**
   In every run from the empty table each request is either answered or counted as
   dropped, and at most one Kiss-o'-Death is sent per period of drops.
   */
  lemma RunCounters<K>(p: Policy, events: seq<Event<K>>)
    requires p.capacity > 0
    ensures var st := Run(p, Empty(p), events).stats;
            && st.requests == st.responses + st.droppedRateLimit
            && st.kissOfDeath * Period(p.config.leakShift) <= st.droppedRateLimit
  {
    var t: Table<K> := Empty(p);
    RunKeepsAccounts(p, t, events);
    OwedIsProduct(Run(p, t, events).stats.kissOfDeath, Period(p.config.leakShift));
  }

  // ----- the global ceiling -----

  /** A capped refill grows by at most the rate times the time that passes. */
  lemma RefillGrows(level: real, rate: real, last: real, s: real, n: real, burst: real)
    requires last <= s <= n && rate >= 0.0
    ensures Refilled(level, rate, last, n, burst) <= Refilled(level, rate, last, s, burst) + (n - s) * rate
  {
    assert (n - last) * rate == (s - last) * rate + (n - s) * rate;
    assert (n - s) * rate >= 0.0;
  }

  lemma RefillStays(level: real, rate: real, last: real, n: real, burst: real)
    requires last <= n && rate >= 0.0 && 0.0 <= level <= burst
    ensures 0.0 <= Refilled(level, rate, last, n, burst) <= burst
    ensures last == n ==> Refilled(level, rate, last, n, burst) == level
  {
    assert (n - last) * rate >= 0.0;
  }

  /** What the global bucket would hold at time `s`. */
  function GlobalCredit<K>(c: RateLimitConfig, t: Table<K>, s: real): real {
    if t.globalLast.None? then t.globalTokens
    else Refilled(t.globalTokens, c.globalRateHz, t.globalLast.value, s, c.globalBurst)
  }

  ghost predicate GlobalSane<K>(c: RateLimitConfig, t: Table<K>, s: real) {
    0.0 <= t.globalTokens <= c.globalBurst && (t.globalLast.Some? ==> t.globalLast.value <= s)
  }

  /** What passing the ceiling does to the bucket: one token for one answer. */
  lemma PassSpends<K>(p: Policy, t: Table<K>, key: K, now: real)
    ensures var t' := Pass(p, t, key, now).0;
            && t'.globalLast == t.globalLast
            && t'.stats.responses - t.stats.responses in {0, 1}
            && t'.globalTokens == t.globalTokens - (t'.stats.responses - t.stats.responses) as real
  {
    var t1 := Enter(p, t, key, now);
    EnterCounts(p, t, key, now);
    SettleSpends(t1, key, Charge(p.config, t1.records[key], now));
  }

  lemma SettleSpends<K>(t: Table<K>, key: K, charged: (ClientRecord, Disposition))
    ensures var t' := Settle(t, key, charged);
            && t'.globalLast == t.globalLast
            && t'.stats.responses - t.stats.responses in {0, 1}
            && t'.globalTokens == t.globalTokens - (t'.stats.responses - t.stats.responses) as real
  {
  }

  /** Refilling at `now` yields at most the credit at `since` plus what the time between earns. */
  lemma GlobalRefillCredits<K>(c: RateLimitConfig, t: Table<K>, now: real, since: real)
    requires c.globalRateHz > 0.0 && GlobalSane(c, t, since) && since <= now
    ensures var t1 := GlobalRefill(c, Counted(t), now);
            && t1.globalLast == Some(now) && t1.stats.responses == t.stats.responses
            && 0.0 <= t1.globalTokens <= c.globalBurst
            && t1.globalTokens <= GlobalCredit(c, t, since) + (now - since) * c.globalRateHz
  {
    var last := if t.globalLast.Some? then t.globalLast.value else now;
    RefillStays(t.globalTokens, c.globalRateHz, last, now, c.globalBurst);
    if t.globalLast.Some? {
      RefillGrows(t.globalTokens, c.globalRateHz, last, since, now, c.globalBurst);
    }
    assert (now - since) * c.globalRateHz >= 0.0;
  }

  /** Whatever is not a request leaves the ceiling and the answers alone. */
  lemma NotesSpendNothing<K>(p: Policy, t: Table<K>, e: Event<K>)
    requires !e.Request?
    ensures var t' := Step(p, t, e);
            t'.globalTokens == t.globalTokens && t'.globalLast == t.globalLast
              && t'.stats.responses == t.stats.responses
  {
  }

  /** From `t` at time `s` to `t'` at time `n` the answers stayed within what the bucket could pay. */
  ghost predicate PaidGlobally<K>(c: RateLimitConfig, t: Table<K>, s: real, t': Table<K>, n: real) {
    && s <= n && GlobalSane(c, t', n)
    && t'.stats.responses as real + GlobalCredit(c, t', n)
         <= t.stats.responses as real + GlobalCredit(c, t, s) + Earned(s, n, c.globalRateHz)
  }

  lemma PaidGloballyChains<K>(c: RateLimitConfig, t: Table<K>, s: real, t1: Table<K>, m: real, t2: Table<K>, n: real)
    requires PaidGlobally(c, t, s, t1, m) && PaidGlobally(c, t1, m, t2, n)
    ensures PaidGlobally(c, t, s, t2, n)
  {
    assert (n - s) * c.globalRateHz == (n - m) * c.globalRateHz + (m - s) * c.globalRateHz;
  }

  lemma PaidNothing<K>(c: RateLimitConfig, t: Table<K>, since: real, t': Table<K>)
    requires GlobalSane(c, t, since)
    requires t'.globalTokens == t.globalTokens && t'.globalLast == t.globalLast
             && t'.stats.responses == t.stats.responses
    ensures PaidGlobally(c, t, since, t', since)
  {
  }

  /** A refill to at most the earned credit, followed by at most one answer for one token. */
  lemma PaidByRefill<K>(c: RateLimitConfig, t: Table<K>, since: real, t1: Table<K>, t': Table<K>, now: real)
    requires c.globalRateHz > 0.0 && since <= now
    requires t1.globalLast == Some(now) && t1.stats.responses == t.stats.responses && t1.globalTokens <= c.globalBurst
    requires t1.globalTokens <= GlobalCredit(c, t, since) + (now - since) * c.globalRateHz
    requires t'.globalLast == t1.globalLast && t'.globalTokens >= 0.0
             && t'.stats.responses - t1.stats.responses in {0, 1}
    requires t'.globalTokens == t1.globalTokens - (t'.stats.responses - t1.stats.responses) as real
    ensures PaidGlobally(c, t, since, t', now)
  {
    RefillStays(t'.globalTokens, c.globalRateHz, now, now, c.globalBurst);
  }

  /** One request: answers plus credit grow by at most the rate times the time that passes. */
  lemma AdmitSpends<K>(p: Policy, t: Table<K>, key: K, now: real, since: real)
    requires p.config.globalRateHz > 0.0 && GlobalSane(p.config, t, since) && since <= now
    ensures PaidGlobally(p.config, t, since, Admit(p, t, key, now).0, now)
  {
    var t1 := GlobalRefill(p.config, Counted(t), now);
    GlobalRefillCredits(p.config, t, now, since);
    PassSpends(p, t1, key, now);
    PaidByRefill(p.config, t, since, t1, Admit(p, t, key, now).0, now);
  }

  lemma StepSpends<K>(p: Policy, t: Table<K>, e: Event<K>, since: real)
    requires p.config.globalRateHz > 0.0 && GlobalSane(p.config, t, since) && since <= After(e, since)
    ensures PaidGlobally(p.config, t, since, Step(p, t, e), After(e, since))
  {
    if e.Request? {
      AdmitSpends(p, t, e.key, e.now, since);
    } else {
      NotesSpendNothing(p, t, e);
      PaidNothing(p.config, t, since, Step(p, t, e));
    }
  }

  lemma {:induction false} RunSpends<K>(p: Policy, t: Table<K>, events: seq<Event<K>>, since: real)
    requires p.config.globalRateHz > 0.0 && GlobalSane(p.config, t, since) && Timed(events, since)
    ensures PaidGlobally(p.config, t, since, Run(p, t, events), EndTime(events, since))
    decreases |events|
  {
    if events != [] {
      var t1, m := Step(p, t, events[0]), After(events[0], since);
      StepSpends(p, t, events[0], since);
      RunSpends(p, t1, events[1..], m);
      PaidGloballyChains(p.config, t, since, t1, m, Run(p, t1, events[1..]), EndTime(events[1..], m));
    }
  }

  lemma CreditBounds<K>(c: RateLimitConfig, t: Table<K>, s: real)
    requires GlobalSane(c, t, s) && c.globalRateHz >= 0.0
    ensures 0.0 <= GlobalCredit(c, t, s) <= c.globalBurst
  {
    if t.globalLast.Some? {
      RefillStays(t.globalTokens, c.globalRateHz, t.globalLast.value, s, c.globalBurst);
    }
  }

  lemma PaidIsBounded<K>(c: RateLimitConfig, t: Table<K>, s: real, t': Table<K>, n: real)
    requires c.globalRateHz > 0.0 && GlobalSane(c, t, s) && PaidGlobally(c, t, s, t', n)
    ensures (t'.stats.responses - t.stats.responses) as real <= c.globalBurst + Earned(s, n, c.globalRateHz)
  {
    CreditBounds(c, t, s);
    CreditBounds(c, t', n);
  }

  /**
   Over any stretch of a run, however the addresses churn, the answers to all clients
   together are at most the global burst plus the global rate times the time elapsed.
   */
  lemma GlobalCeiling<K>(p: Policy, t: Table<K>, events: seq<Event<K>>, since: real)
    requires p.config.globalRateHz > 0.0 && GlobalSane(p.config, t, since) && Timed(events, since)
    ensures (Run(p, t, events).stats.responses - t.stats.responses) as real
              <= p.config.globalBurst + Earned(since, EndTime(events, since), p.config.globalRateHz)
  {
    RunSpends(p, t, events, since);
    PaidIsBounded(p.config, t, since, Run(p, t, events), EndTime(events, since));
  }

  // ----- one client's bucket -----

  ghost predicate RecordSane(c: RateLimitConfig, r: ClientRecord, s: real) {
    0.0 <= r.tokens <= c.burst as real && r.lastSeen <= s
  }

  /** What a client's bucket would hold at time `s`. */
  function Credit(c: RateLimitConfig, r: ClientRecord, s: real): real {
    Refilled(r.tokens, RefillPerS(c), r.lastSeen, s, c.burst as real)
  }

  lemma ChargeSpends(c: RateLimitConfig, r: ClientRecord, since: real, now: real)
    requires RecordSane(c, r, since) && since <= now
    ensures var r' := Charge(c, r, now).0;
            && RecordSane(c, r', now)
            && r'.responses as real + Credit(c, r', now) <= r.responses as real + Credit(c, r, since)
               + (now - since) * RefillPerS(c)
  {
    var rate, burst := RefillPerS(c), c.burst as real;
    RefillGrows(r.tokens, rate, r.lastSeen, since, now, burst);
    RefillStays(r.tokens, rate, r.lastSeen, now, burst);
    var r' := Charge(c, r, now).0;
    RefillStays(r'.tokens, rate, now, now, burst);
  }

  lemma CreditGrows(c: RateLimitConfig, r: ClientRecord, since: real, now: real)
    requires RecordSane(c, r, since) && since <= now
    ensures Credit(c, r, now) <= Credit(c, r, since) + (now - since) * RefillPerS(c)
  {
    RefillGrows(r.tokens, RefillPerS(c), r.lastSeen, since, now, c.burst as real);
  }

  /** `k` is tabled before the run and after each of its steps. */
  ghost predicate Stays<K>(p: Policy, t: Table<K>, events: seq<Event<K>>, k: K)
    decreases |events|
  {
    k in t.records && (events != [] ==> Stays(p, Step(p, t, events[0]), events[1..], k))
  }

  /** Entering leaves the records of the keys that stay as they were. */
  lemma EnterKeepsOthers<K>(p: Policy, t: Table<K>, key: K, now: real, k: K)
    requires k in t.records && k in Enter(p, t, key, now).records
    ensures Enter(p, t, key, now).records[k] == t.records[k] || k == key
    ensures key in t.records ==> Enter(p, t, key, now).records == t.records
  {
  }

  /** What one request does to the record of a key that stays tabled. */
  lemma AdmitCharges<K>(p: Policy, t: Table<K>, key: K, now: real, k: K)
    requires k in t.records && k in Admit(p, t, key, now).0.records
    ensures var r' := Admit(p, t, key, now).0.records[k];
            r' == t.records[k] || r' == Charge(p.config, t.records[k], now).0
  {
    RefillMovesNoKeys(p.config, t, now);
    var t1 := GlobalRefill(p.config, Counted(t), now);
    if !Shed(p.config, t, now) {
      AdmitMovesKeys(p, t, key, now);
      EnterKeepsOthers(p, t1, key, now, k);
      SettleWrites(Enter(p, t1, key, now), key, Charge(p.config, Enter(p, t1, key, now).records[key], now), k);
    }
  }

  lemma SettleWrites<K>(t: Table<K>, key: K, charged: (ClientRecord, Disposition), k: K)
    requires k in t.records
    ensures var t' := Settle(t, key, charged);
            k in t'.records && t'.records[k] == if k == key then charged.0 else t.records[k]
  {
  }

  /** Notes leave every record's bucket and answers alone. */
  lemma NotesChargeNothing<K>(p: Policy, t: Table<K>, e: Event<K>, k: K)
    requires !e.Request? && k in t.records
    ensures var t' := Step(p, t, e);
            && k in t'.records && t'.records[k].tokens == t.records[k].tokens
            && t'.records[k].lastSeen == t.records[k].lastSeen && t'.records[k].responses == t.records[k].responses
  {
  }

  /** From `r` at time `s` to `r'` at time `n` the answers stayed within what the client's bucket could pay. */
  ghost predicate Paid(c: RateLimitConfig, r: ClientRecord, s: real, r': ClientRecord, n: real) {
    && s <= n && RecordSane(c, r', n)
    && r'.responses as real + Credit(c, r', n) <= r.responses as real + Credit(c, r, s) + Earned(s, n, RefillPerS(c))
  }

  lemma PaidChains(c: RateLimitConfig, r: ClientRecord, s: real, r1: ClientRecord, m: real, r2: ClientRecord, n: real)
    requires Paid(c, r, s, r1, m) && Paid(c, r1, m, r2, n)
    ensures Paid(c, r, s, r2, n)
  {
    var rate := RefillPerS(c);
    assert (n - s) * rate == (n - m) * rate + (m - s) * rate;
  }

  lemma PaidByCharge(c: RateLimitConfig, r: ClientRecord, since: real, r': ClientRecord, now: real)
    requires RecordSane(c, r, since) && since <= now && (r' == r || r' == Charge(c, r, now).0)
    ensures Paid(c, r, since, r', now)
  {
    if r' == r {
      CreditGrows(c, r, since, now);
    } else {
      ChargeSpends(c, r, since, now);
    }
  }

  lemma PaidByNotes(c: RateLimitConfig, r: ClientRecord, since: real, r': ClientRecord)
    requires RecordSane(c, r, since)
    requires r'.tokens == r.tokens && r'.lastSeen == r.lastSeen && r'.responses == r.responses
    ensures Paid(c, r, since, r', since)
  {
  }

  lemma StepCharges<K>(p: Policy, t: Table<K>, e: Event<K>, since: real, k: K)
    requires k in t.records && k in Step(p, t, e).records
    requires RecordSane(p.config, t.records[k], since) && since <= After(e, since)
    ensures Paid(p.config, t.records[k], since, Step(p, t, e).records[k], After(e, since))
  {
    if e.Request? {
      AdmitCharges(p, t, e.key, e.now, k);
      PaidByCharge(p.config, t.records[k], since, Step(p, t, e).records[k], e.now);
    } else {
      NotesChargeNothing(p, t, e, k);
      PaidByNotes(p.config, t.records[k], since, Step(p, t, e).records[k]);
    }
  }

  lemma {:induction false} RunCharges<K>(p: Policy, t: Table<K>, events: seq<Event<K>>, since: real, k: K)
    requires Stays(p, t, events, k) && RecordSane(p.config, t.records[k], since) && Timed(events, since)
    ensures k in Run(p, t, events).records
    ensures Paid(p.config, t.records[k], since, Run(p, t, events).records[k], EndTime(events, since))
    decreases |events|
  {
    if events != [] {
      var t1, m := Step(p, t, events[0]), After(events[0], since);
      StepCharges(p, t, events[0], since, k);
      RunCharges(p, t1, events[1..], m, k);
      PaidChains(p.config, t.records[k], since, t1.records[k], m, Run(p, t1, events[1..]).records[k],
                 EndTime(events[1..], m));
    }
  }

  lemma PaidByClient(c: RateLimitConfig, r: ClientRecord, s: real, r': ClientRecord, n: real)
    requires RecordSane(c, r, s) && Paid(c, r, s, r', n)
    ensures (r'.responses - r.responses) as real <= c.burst as real + Earned(s, n, RefillPerS(c))
  {
    RefillStays(r.tokens, RefillPerS(c), r.lastSeen, s, c.burst as real);
    RefillStays(r'.tokens, RefillPerS(c), r'.lastSeen, n, c.burst as real);
  }

  /**
   While a client stays tabled, the answers it gets over any stretch are at most its
   burst plus one per `2^interval` seconds elapsed.
   */
  lemma ClientCeiling<K>(p: Policy, t: Table<K>, events: seq<Event<K>>, since: real, k: K)
    requires Stays(p, t, events, k) && RecordSane(p.config, t.records[k], since) && Timed(events, since)
    ensures k in Run(p, t, events).records
    ensures (Run(p, t, events).records[k].responses - t.records[k].responses) as real
              <= p.config.burst as real + Earned(since, EndTime(events, since), RefillPerS(p.config))
  {
    RunCharges(p, t, events, since, k);
    PaidByClient(p.config, t.records[k], since, Run(p, t, events).records[k], EndTime(events, since));
  }
}
