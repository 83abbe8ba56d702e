/** Who is answered, and what is remembered of a client, told from the history of requests and answers alone. */
module ClientAnswers {
  import opened Wrappers
  import opened Reals
  import opened Arithmetic
  import opened ClientTypes
  import opened ClientPolicy
  import opened ClientRuns
  import opened TokenBucket

  function Earlier<T>(s: seq<T>): seq<T>
    requires s != []
  {
    s[..|s| - 1]
  }

  function Latest<T>(s: seq<T>): T
    requires s != []
  {
    s[|s| - 1]
  }

  /** The table after a run that began with nobody in it. */
  ghost function TableAfter<K>(p: Policy, events: seq<Event<K>>): Table<K> {
    Run(p, Empty(p), events)
  }

  lemma {:induction false} RunLast<K>(p: Policy, t: Table<K>, events: seq<Event<K>>)
    requires events != []
    ensures Run(p, t, events) == Step(p, Run(p, t, Earlier(events)), Latest(events))
    decreases |events|
  {
    if |events| > 1 {
      RunLast(p, Step(p, t, events[0]), events[1..]);
      assert Earlier(events)[0] == events[0] && Earlier(events)[1..] == Earlier(events[1..]);
    } else {
      assert Earlier(events) == [] && events[1..] == [];
    }
  }

  // ----- the history -----

  /** What the last event of a run drew, where it is a request. */
  ghost function Drew<K>(p: Policy, events: seq<Event<K>>): Disposition
    requires events != [] && Latest(events).Request?
  {
    Admit(p, TableAfter(p, Earlier(events)), Latest(events).key, Latest(events).now).1
  }

  /** Every request so far, and whether it was answered. */
  ghost function Asked<K>(p: Policy, events: seq<Event<K>>): seq<Visit> {
    if events == [] then []
    else if !Latest(events).Request? then Asked(p, Earlier(events))
    else Asked(p, Earlier(events)) + [Visit(Latest(events).now, Drew(p, events).Respond?)]
  }

  /** The global ceiling, where there is one, lets a request through: one more answer is within it. */
  ghost predicate LetThrough(c: RateLimitConfig, asked: seq<Visit>, now: real) {
    c.globalRateHz > 0.0 ==> Affordable(c.globalBurst, c.globalRateHz, asked, now)
  }

  /** How many requests the global ceiling has turned away. */
  ghost function TurnedAway<K>(p: Policy, events: seq<Event<K>>): nat {
    if events == [] then 0
    else
      var e := Latest(events);
      TurnedAway(p, Earlier(events))
      + if e.Request? && !LetThrough(p.config, Asked(p, Earlier(events)), e.now) then 1 else 0
  }

  /** The requests of `k` that were let through since it last entered the table, and whether they were answered. */
  ghost function Visits<K>(p: Policy, events: seq<Event<K>>, k: K): seq<Visit> {
    if events == [] || k !in TableAfter(p, events).records then []
    else
      var e, before := Latest(events), Visits(p, Earlier(events), k);
      if e.Request? && e.key == k && LetThrough(p.config, Asked(p, Earlier(events)), e.now)
      then before + [Visit(e.now, Drew(p, events).Respond?)]
      else before
  }

  /** One token in two to the interval seconds. */
  function ClientRate(c: RateLimitConfig): real {
    1.0 / Pow2(c.intervalLog2)
  }

  /** Every request so far came no later than `now`. */
  ghost predicate UpTo<K>(events: seq<Event<K>>, now: real) {
    forall i | 0 <= i < |events| :: events[i].Request? ==> events[i].now <= now
  }

  ghost predicate InOrder<K>(events: seq<Event<K>>) {
    forall j | 0 <= j < |events| && events[j].Request? :: UpTo(events[..j], events[j].now)
  }

  lemma InOrderEarlier<K>(events: seq<Event<K>>)
    requires InOrder(events) && events != []
    ensures InOrder(Earlier(events))
    ensures Latest(events).Request? ==> UpTo(Earlier(events), Latest(events).now)
  {
    forall j | 0 <= j < |events| - 1
      ensures Earlier(events)[..j] == events[..j]
    {
    }
  }

  lemma {:induction false} VisitsFit<K>(p: Policy, events: seq<Event<K>>, k: K, now: real)
    requires UpTo(events, now)
    ensures forall v | v in Asked(p, events) :: v.time <= now
    ensures forall v | v in Visits(p, events, k) :: v.time <= now
  {
    if events != [] {
      assert UpTo(Earlier(events), now);
      VisitsFit(p, Earlier(events), k, now);
    }
  }

  // ----- one admission -----

  lemma RateIs(c: RateLimitConfig)
    ensures RefillPerS(c) == ClientRate(c) > 0.0 && ClientRate(c) * Pow2(c.intervalLog2) == 1.0
  {
    hide Pow2;
    PowInverse(c.intervalLog2);
    Inverse(Pow2(-c.intervalLog2), Pow2(c.intervalLog2));
  }

  lemma Inverse(a: real, b: real)
    requires a * b == 1.0 && b > 0.0
    ensures a == 1.0 / b
  {
    var q := 1.0 / b;
    assert q * b == 1.0;
    assert (a - q) * b == 0.0;
  }

  lemma HalfTimesTwice(a: real, b: real)
    requires a * b == 1.0
    ensures a / 2.0 * (2.0 * b) == 1.0 && 2.0 * b * (a / 2.0) == 1.0
  {
  }

  lemma PowStep(k: int)
    ensures Pow2(0) == 1.0
    ensures k > 0 ==> Pow2(k) == 2.0 * Pow2(k - 1)
    ensures k < 0 ==> Pow2(k) == Pow2(k + 1) / 2.0
  {
  }

  lemma {:induction false} PowInverse(k: int)
    ensures Pow2(-k) * Pow2(k) == 1.0
    decreases if k < 0 then -k else k
  {
    hide Pow2;
    PowStep(k);
    PowStep(-k);
    if k > 0 {
      PowInverse(k - 1);
      HalfTimesTwice(Pow2(-(k - 1)), Pow2(k - 1));
    } else if k < 0 {
      PowInverse(k + 1);
      HalfTimesTwice(Pow2(k + 1), Pow2(-(k + 1)));
    }
  }

  /** What is kept of the ceiling goes with its history. */
  ghost predicate CeilingKept<K>(c: RateLimitConfig, t: Table<K>, asked: seq<Visit>) {
    c.globalRateHz > 0.0 ==>
      && (t.globalLast.None? <==> asked == [])
      && Holds(t.globalTokens, c.globalBurst, c.globalRateHz, asked, if asked == [] then 0.0 else t.globalLast.value)
  }

  /** What is kept of a client's bucket and counters goes with its visits. */
  ghost predicate RecordKept(c: RateLimitConfig, r: ClientRecord, visits: seq<Visit>) {
    && Holds(r.tokens, c.burst as real, ClientRate(c), visits, r.lastSeen)
    && r.dropsSinceKod == Drops(visits) % Period(c.leakShift)
    && Tallied(r, visits)
  }

  /** The counters of a record count its visits. */
  predicate Tallied(r: ClientRecord, visits: seq<Visit>) {
    r.requests == |visits| && r.responses == Answers(visits) && r.dropped == Drops(visits)
  }

  lemma Counts(d: nat, n: nat)
    requires n >= 1
    ensures (d + 1) % n == (if d % n + 1 >= n then 0 else d % n + 1)
    ensures 0 % n == 0 <= d % n < n
  {
    var q, r := d / n, d % n;
    assert d == q * n + r;
    if r + 1 >= n {
      assert d + 1 == (q + 1) * n + 0;
      ModUnique(d + 1, n, q + 1, 0);
    } else {
      ModUnique(d + 1, n, q, r + 1);
    }
    ModUnique(0, n, 0, 0);
  }

  /** The ceiling's decision, and its bucket afterwards. */
  lemma CeilingDecides<K>(c: RateLimitConfig, t: Table<K>, asked: seq<Visit>, now: real)
    requires CeilingKept(c, t, asked) && forall v | v in asked :: v.time <= now
    ensures Shed(c, t, now) <==> !LetThrough(c, asked, now)
    ensures c.globalRateHz > 0.0 ==>
              var t1 := GlobalRefill(c, Counted(t), now);
              t1.globalLast == Some(now) && Refills(t1.globalTokens, c.globalBurst, c.globalRateHz, asked, now)
  {
    if c.globalRateHz > 0.0 {
      var last := if t.globalLast.Some? then t.globalLast.value else now;
      var tokens := GlobalRefill(c, Counted(t), now).globalTokens;
      if asked == [] {
        assert Holds(t.globalTokens, c.globalBurst, c.globalRateHz, asked, now);
      }
      CapRefills(t.globalTokens, c.globalBurst, c.globalRateHz, asked, last, now);
      TokenMeans(tokens, c.globalBurst, c.globalRateHz, asked, now);
    }
  }

  /** The level a charge begins with, and what it leaves. */
  lemma ChargeLevels(c: RateLimitConfig, r: ClientRecord, visits: seq<Visit>, now: real)
    requires Holds(r.tokens, c.burst as real, ClientRate(c), visits, r.lastSeen) && r.lastSeen <= now
    ensures var (r', d) := Charge(c, r, now);
            && (d.Respond? <==> Affordable(c.burst as real, ClientRate(c), visits, now))
            && Holds(r'.tokens, c.burst as real, ClientRate(c), visits + [Visit(now, d.Respond?)], now)
            && r'.lastSeen == now
  {
    hide Holds, Refills, Affordable, ClientRate, RefillPerS, Period;
    RateIs(c);
    var burst, rate := c.burst as real, ClientRate(c);
    var refilled := Refilled(r.tokens, rate, r.lastSeen, now, burst);
    CapRefills(r.tokens, burst, rate, visits, r.lastSeen, now);
    TokenMeans(refilled, burst, rate, visits, now);
    VisitPays(refilled, burst, rate, visits, Visit(now, Charge(c, r, now).1.Respond?));
  }

  lemma ChargeDrops(c: RateLimitConfig, r: ClientRecord, visits: seq<Visit>, now: real)
    requires r.dropsSinceKod == Drops(visits) % Period(c.leakShift) && Tallied(r, visits)
    ensures var (r', d) := Charge(c, r, now);
            && Tallied(r', visits + [Visit(now, d.Respond?)])
            && (d.KissOfDeath? <==> !d.Respond? && (Drops(visits) + 1) % Period(c.leakShift) == 0)
            && r'.dropsSinceKod == Drops(visits + [Visit(now, d.Respond?)]) % Period(c.leakShift)
  {
    hide Refilled, RefillPerS, Period;
    var v := Visit(now, Charge(c, r, now).1.Respond?);
    assert (visits + [v])[..|visits|] == visits;
    Counts(Drops(visits), Period(c.leakShift));
  }

  /** A client's own decision, and its record afterwards. */
  lemma ChargeDecides(c: RateLimitConfig, r: ClientRecord, visits: seq<Visit>, now: real)
    requires RecordKept(c, r, visits) && r.lastSeen <= now
    ensures var (r', d) := Charge(c, r, now);
            && (d.Respond? <==> Affordable(c.burst as real, ClientRate(c), visits, now))
            && (d.KissOfDeath? <==> !d.Respond? && (Drops(visits) + 1) % Period(c.leakShift) == 0)
            && RecordKept(c, r', visits + [Visit(now, d.Respond?)]) && r'.lastSeen == now
  {
    hide Charge, Holds, Affordable, Period, Drops, Tallied;
    ChargeLevels(c, r, visits, now);
    ChargeDrops(c, r, visits, now);
  }

  lemma FreshIsKept(c: RateLimitConfig, now: real)
    ensures RecordKept(c, FreshRecord(now, c.burst), [])
  {
    Counts(0, Period(c.leakShift));
  }

  // ----- one step of a run -----

  /** The record a request of `k` is charged against. */
  ghost function Own<K>(p: Policy, t: Table<K>, k: K, now: real): ClientRecord {
    if k in t.records then t.records[k] else FreshRecord(now, p.config.burst)
  }

  lemma PassWrites<K>(p: Policy, t: Table<K>, key: K, now: real, k: K)
    ensures var (r', d) := Charge(p.config, Own(p, t, key, now), now);
            var (t', e) := Pass(p, t, key, now);
            && e == d && key in t'.records && t'.records[key] == r'
            && (k != key && k in t'.records ==> k in t.records && t'.records[k] == t.records[k])
            && t'.globalTokens == t.globalTokens - (if d.Respond? then 1.0 else 0.0)
            && t'.globalLast == t.globalLast && t'.globalDrops == t.globalDrops
  {
    var t1 := Enter(p, t, key, now);
    EnterBooks(p, t, key, now);
    assert t1.records[key] == Own(p, t, key, now);
    assert k != key && k in t1.records ==> k in t.records && t1.records[k] == t.records[k];
    var charged := Charge(p.config, t1.records[key], now);
    SettleBooks(t1, key, charged, Settle(t1, key, charged));
  }

  /** What is not a request leaves bucket, drops and ceiling alone. */
  lemma NotesLeave<K>(p: Policy, t: Table<K>, e: Event<K>, k: K)
    requires !e.Request?
    ensures var t' := Step(p, t, e);
            && t'.records.Keys == t.records.Keys
            && t'.globalTokens == t.globalTokens && t'.globalLast == t.globalLast && t'.globalDrops == t.globalDrops
            && (k in t.records ==>
                  var r, r' := t.records[k], t'.records[k];
                  && r'.tokens == r.tokens && r'.lastSeen == r.lastSeen && r'.dropsSinceKod == r.dropsSinceKod
                  && r'.requests == r.requests && r'.responses == r.responses && r'.dropped == r.dropped)
  {
  }

  /** Ceiling and record both go with the history. */
  ghost predicate Told<K>(p: Policy, events: seq<Event<K>>, k: K) {
    var t := TableAfter(p, events);
    && CeilingKept(p.config, t, Asked(p, events))
    && t.globalDrops == TurnedAway(p, events) % Period(p.config.leakShift)
    && (k in t.records ==> Visits(p, events, k) != [] && RecordKept(p.config, t.records[k], Visits(p, events, k)))
  }

  /** What a request of `k` is charged against, and the visits that go with it. */
  lemma OwnKept<K>(p: Policy, events: seq<Event<K>>, k: K, now: real)
    requires Told(p, events, k) && UpTo(events, now)
    ensures var own := Own(p, TableAfter(p, events), k, now);
            RecordKept(p.config, own, Visits(p, events, k)) && own.lastSeen <= now
  {
    hide Affordable, Run;
    VisitsFit(p, events, k, now);
    FreshIsKept(p.config, now);
  }

  lemma CeilingDrops<K>(c: RateLimitConfig, t: Table<K>, away: nat)
    requires t.globalDrops == away % Period(c.leakShift)
    ensures var (t', d) := GlobalDrop(c, t);
            && (d.KissOfDeath? <==> (away + 1) % Period(c.leakShift) == 0) && !d.Respond?
            && t'.globalDrops == (away + 1) % Period(c.leakShift)
            && t'.records == t.records && t'.globalTokens == t.globalTokens && t'.globalLast == t.globalLast
  {
    hide Period;
    Counts(away, Period(c.leakShift));
  }

  /** The decision on a request of `k` after a run of which everything is told. */
  lemma DecisionTold<K>(p: Policy, events: seq<Event<K>>, k: K, now: real)
    requires Told(p, events, k) && UpTo(events, now)
    ensures var t, mine := TableAfter(p, events), Visits(p, events, k);
            var d := Admit(p, t, k, now).1;
            var through := LetThrough(p.config, Asked(p, events), now);
            && (Shed(p.config, t, now) <==> !through)
            && (d.Respond? <==> through && Affordable(p.config.burst as real, ClientRate(p.config), mine, now))
            && (d.KissOfDeath? <==>
                  && !d.Respond?
                  && ((if through then Drops(mine) else TurnedAway(p, events)) + 1) % Period(p.config.leakShift) == 0)
  {
    hide Charge, RecordKept, CeilingKept, Shed, Affordable, LetThrough, Pass, GlobalDrop, Period, Run, Drops, Visits,
         Asked, TurnedAway;
    var t, c := TableAfter(p, events), p.config;
    var t1 := GlobalRefill(c, Counted(t), now);
    VisitsFit(p, events, k, now);
    CeilingDecides(c, t, Asked(p, events), now);
    OwnKept(p, events, k, now);
    PassWrites(p, t1, k, now, k);
    ChargeDecides(c, Own(p, t, k, now), Visits(p, events, k), now);
    CeilingDrops(c, t1, TurnedAway(p, events));
  }

  lemma CeilingStep<K>(p: Policy, t: Table<K>, asked: seq<Visit>, key: K, now: real)
    requires CeilingKept(p.config, t, asked) && forall v | v in asked :: v.time <= now
    ensures var (t', d) := Admit(p, t, key, now);
            CeilingKept(p.config, t', asked + [Visit(now, d.Respond?)])
  {
    hide Charge, Affordable, LetThrough, Pass, Refills, Left, Period;
    var c := p.config;
    CeilingDecides(c, t, asked, now);
    var t1 := GlobalRefill(c, Counted(t), now);
    PassWrites(p, t1, key, now, key);
    if c.globalRateHz > 0.0 {
      VisitPays(t1.globalTokens, c.globalBurst, c.globalRateHz, asked, Visit(now, Admit(p, t, key, now).1.Respond?));
    }
  }

  /** What the table holds of `k` after a request of anyone. */
  lemma AdmitWrites<K>(p: Policy, t: Table<K>, key: K, now: real, k: K)
    ensures var (t', d) := Admit(p, t, key, now);
            var own := Charge(p.config, Own(p, t, key, now), now);
            && (Shed(p.config, t, now) ==> t'.records == t.records)
            && (!Shed(p.config, t, now) ==> d == own.1 && key in t'.records && t'.records[key] == own.0)
            && (k != key && k in t'.records ==> k in t.records && t'.records[k] == t.records[k])
            && (!Shed(p.config, t, now) ==> t'.globalDrops == t.globalDrops)
  {
    hide Charge, Pass, GlobalDrop, Period;
    var t1 := GlobalRefill(p.config, Counted(t), now);
    PassWrites(p, t1, key, now, k);
    CeilingDropsNothingElse(p.config, t1);
  }

  lemma CeilingDropsNothingElse<K>(c: RateLimitConfig, t: Table<K>)
    ensures GlobalDrop(c, t).0.records == t.records && !GlobalDrop(c, t).1.Respond?
  {
  }

  /** What is told of `k` stays told through a request of anyone. */
  lemma RequestTold<K>(p: Policy, events: seq<Event<K>>, k: K)
    requires events != [] && Latest(events).Request? && Told(p, Earlier(events), k)
    requires UpTo(Earlier(events), Latest(events).now)
    ensures Told(p, events, k)
  {
    hide Charge, Shed, Affordable, LetThrough, Admit, Period, Run, RecordKept, CeilingKept, Drops;
    var e, c, before := Latest(events), p.config, Earlier(events);
    var t, asked := TableAfter(p, before), Asked(p, before);
    RunLast(p, Empty(p), events);
    VisitsFit(p, before, k, e.now);
    CeilingStep(p, t, asked, e.key, e.now);
    CeilingDecides(c, t, asked, e.now);
    AdmitWrites(p, t, e.key, e.now, k);
    AwayStep(p, t, e.key, e.now, TurnedAway(p, before));
    if e.key == k && !Shed(c, t, e.now) {
      OwnKept(p, before, k, e.now);
      ChargeDecides(c, Own(p, t, k, e.now), Visits(p, before, k), e.now);
    }
  }

  lemma AwayStep<K>(p: Policy, t: Table<K>, key: K, now: real, away: nat)
    requires t.globalDrops == away % Period(p.config.leakShift)
    ensures Admit(p, t, key, now).0.globalDrops
            == (away + (if Shed(p.config, t, now) then 1 else 0)) % Period(p.config.leakShift)
  {
    hide Charge, Pass, GlobalDrop, Period;
    var t1 := GlobalRefill(p.config, Counted(t), now);
    PassWrites(p, t1, key, now, key);
    CeilingDrops(p.config, t1, away);
  }

  lemma NoteTold<K>(p: Policy, events: seq<Event<K>>, k: K)
    requires events != [] && !Latest(events).Request? && Told(p, Earlier(events), k)
    ensures Told(p, events, k)
  {
    hide Step, Run, Affordable, LetThrough, Period;
    RunLast(p, Empty(p), events);
    NotesLeave(p, TableAfter(p, Earlier(events)), Latest(events), k);
  }

  /** The history tells all that the table keeps, in every run. */
  lemma {:induction false} RunTold<K>(p: Policy, events: seq<Event<K>>, k: K)
    requires InOrder(events)
    ensures Told(p, events, k)
    decreases |events|
  {
    hide Told, Run;
    if events == [] {
      NothingTold(p, k);
    } else {
      InOrderEarlier(events);
      RunTold(p, Earlier(events), k);
      if Latest(events).Request? {
        RequestTold(p, events, k);
      } else {
        NoteTold(p, events, k);
      }
    }
  }

  lemma NothingTold<K>(p: Policy, k: K)
    ensures Told(p, [], k)
  {
    Counts(0, Period(p.config.leakShift));
  }

  // ----- who is answered -----

  /**
   In every run: a request is answered if and only if one more answer keeps every window
   of time within its burst and earnings, for all clients together where there is a
   ceiling, and for this client since it last entered the table. Of the client's requests
   that are dropped, and of those the ceiling turns away, one in each period draws a kiss.
   */
  lemma AnsweredExactly<K>(p: Policy, events: seq<Event<K>>, k: K, now: real)
    requires InOrder(events) && UpTo(events, now)
    ensures var d, mine := Admit(p, TableAfter(p, events), k, now).1, Visits(p, events, k);
            var through := LetThrough(p.config, Asked(p, events), now);
            var away := if through then Drops(mine) else TurnedAway(p, events);
            && (d.Respond? <==> through && Affordable(p.config.burst as real, ClientRate(p.config), mine, now))
            && (d.KissOfDeath? <==> !d.Respond? && (away + 1) % Period(p.config.leakShift) == 0)
  {
    hide Told, Run, Admit, Affordable, Period, Drops, Visits, Asked, TurnedAway;
    RunTold(p, events, k);
    DecisionTold(p, events, k, now);
  }

  /** Requests of `k` come at least `gap` apart, and the last of them so long before `now`. */
  ghost predicate Steady<K>(events: seq<Event<K>>, k: K, gap: real, now: real) {
    if events == [] then true
    else
      var e := Latest(events);
      if e.Request? && e.key == k then now - e.now >= gap && Steady(Earlier(events), k, gap, e.now)
      else Steady(Earlier(events), k, gap, now)
  }

  lemma {:induction false} SteadyVisits<K>(p: Policy, events: seq<Event<K>>, k: K, gap: real, now: real)
    requires gap >= 0.0 && Steady(events, k, gap, now)
    ensures Apart(Visits(p, events, k), gap, now)
    decreases |events|
  {
    hide Run, Affordable, LetThrough, Admit;
    if events != [] {
      var e := Latest(events);
      if e.Request? && e.key == k {
        SteadyVisits(p, Earlier(events), k, gap, e.now);
        ApartLater(Visits(p, Earlier(events), k), Visit(e.now, Drew(p, events).Respond?), gap, now);
      } else {
        SteadyVisits(p, Earlier(events), k, gap, now);
      }
    }
  }

  lemma ApartLater(visits: seq<Visit>, v: Visit, gap: real, now: real)
    requires gap >= 0.0 && Apart(visits, gap, v.time) && now - v.time >= gap
    ensures Apart(visits + [v], gap, now) && Apart(visits, gap, now)
  {
  }

  /**
   Without a ceiling, a client that asks no more often than tokens come is answered every
   time, in every run, whoever else asks and however often it is put out of the table.
   */
  lemma SteadyIsAnswered<K>(p: Policy, events: seq<Event<K>>, k: K, now: real)
    requires InOrder(events) && UpTo(events, now) && p.config.globalRateHz <= 0.0 && p.config.burst >= 1
    requires Steady(events, k, Pow2(p.config.intervalLog2), now)
    ensures Admit(p, TableAfter(p, events), k, now).1.Respond?
  {
    hide Run, Admit, Affordable, Period, Drops, Visits, Asked, TurnedAway, Apart;
    var gap, rate := Pow2(p.config.intervalLog2), ClientRate(p.config);
    AnsweredExactly(p, events, k, now);
    SteadyVisits(p, events, k, gap, now);
    RateIs(p.config);
    SteadyIsAffordable(p.config.burst as real, rate, gap, Visits(p, events, k), now);
  }

  lemma {:induction false} PeriodIs(leakShift: nat)
    ensures Period(leakShift) as real == Pow2(if leakShift > 16 then 16 else leakShift)
    decreases leakShift
  {
    if leakShift > 16 {
      PeriodIs(16);
    } else if leakShift > 0 {
      PeriodIs(leakShift - 1);
    }
  }

  // ----- the counters -----

  lemma AdmitTallies<K>(p: Policy, t: Table<K>, key: K, now: real)
    ensures var (t', d) := Admit(p, t, key, now);
            && t'.stats.requests == t.stats.requests + 1
            && t'.stats.responses == t.stats.responses + (if d.Respond? then 1 else 0)
            && t'.stats.droppedRateLimit == t.stats.droppedRateLimit + (if d.Respond? then 0 else 1)
            && t'.stats.kissOfDeath == t.stats.kissOfDeath + (if d.KissOfDeath? then 1 else 0)
            && t'.stats.refused == t.stats.refused && t'.stats.interleavedResponses == t.stats.interleavedResponses
  {
    hide Charge, Period;
    var t1 := GlobalRefill(p.config, Counted(t), now);
    EnterBooks(p, t1, key, now);
    if !Shed(p.config, t, now) {
      var t2 := Enter(p, t1, key, now);
      var charged := Charge(p.config, t2.records[key], now);
      SettleBooks(t2, key, charged, Settle(t2, key, charged));
    }
  }

  /** How many requests drew a kiss. */
  ghost function Kisses<K>(p: Policy, events: seq<Event<K>>): nat {
    if events == [] then 0
    else
      Kisses(p, Earlier(events)) + if Latest(events).Request? && Drew(p, events).KissOfDeath? then 1 else 0
  }

  function Refusals<K>(events: seq<Event<K>>): nat {
    if events == [] then 0 else Refusals(Earlier(events)) + if Latest(events).Refused? then 1 else 0
  }

  /** How many answers were chosen to be interleaved. */
  ghost function Interleavings<K>(p: Policy, events: seq<Event<K>>): nat {
    if events == [] then 0
    else
      var e := Latest(events);
      Interleavings(p, Earlier(events))
      + if e.Mode? && ChooseMode(TableAfter(p, Earlier(events)), e.who, e.origin).1.Interleaved? then 1 else 0
  }

  /** In every run the counters count what they are named for, and each record what was asked since it was made. */
  lemma {:induction false} CountersTold<K>(p: Policy, events: seq<Event<K>>, k: K)
    requires InOrder(events)
    ensures var t, asked := TableAfter(p, events), Asked(p, events);
            && t.stats.requests == |asked| && t.stats.responses == Answers(asked)
            && t.stats.droppedRateLimit == Drops(asked) && t.stats.kissOfDeath == Kisses(p, events)
            && t.stats.refused == Refusals(events) && t.stats.interleavedResponses == Interleavings(p, events)
            && (k in t.records ==> Tallied(t.records[k], Visits(p, events, k)))
    decreases |events|
  {
    hide Admit, Run, Tallied, Visits;
    RunTold(p, events, k);
    if events == [] {
      NothingAsked<K>(p);
    } else {
      InOrderEarlier(events);
      CountersTold(p, Earlier(events), k);
      RunLast(p, Empty(p), events);
      var e, t, asked := Latest(events), TableAfter(p, Earlier(events)), Asked(p, Earlier(events));
      if e.Request? {
        AdmitTallies(p, t, e.key, e.now);
        var v := Visit(e.now, Drew(p, events).Respond?);
        assert (asked + [v])[..|asked|] == asked;
      } else {
        NotesTallyNothing(p, t, e);
      }
    }
  }

  lemma NothingAsked<K>(p: Policy)
    ensures Run(p, Empty<K>(p), []) == Empty(p)
  {
  }

  lemma NotesTallyNothing<K>(p: Policy, t: Table<K>, e: Event<K>)
    requires !e.Request?
    ensures var a, b := Step(p, t, e).stats, t.stats;
            && a.requests == b.requests && a.responses == b.responses
            && a.droppedRateLimit == b.droppedRateLimit && a.kissOfDeath == b.kissOfDeath
            && a.refused == b.refused + (if e.Refused? then 1 else 0)
            && a.interleavedResponses
               == b.interleavedResponses
                  + (if e.Mode? && ChooseMode(t, e.who, e.origin).1.Interleaved? then 1 else 0)
  {
  }

  // ----- interleaved mode -----

  /**
   When a client was last received, what it was told of that, and when its last answer left,
   since it last entered.
   */
  datatype Memory = Memory(received: NtpTimestamp, reported: NtpTimestamp, left: NtpTimestamp)

  ghost function Recalled<K>(p: Policy, events: seq<Event<K>>, k: K): Memory {
    if events == [] || k !in TableAfter(p, events).records then Memory(0, 0, 0)
    else
      var before := Recalled(p, Earlier(events), k);
      match Latest(events)
      case Answered(who, receive, sent) =>
        if who == Some(k) then before.(received := receive, reported := sent) else before
      case Sent(who, transmit) => if who == Some(k) then before.(left := transmit) else before
      case _ => before
  }

  ghost predicate Recalls<K>(t: Table<K>, k: K, m: Memory) {
    if k !in t.records then m == Memory(0, 0, 0)
    else
      && t.records[k].lastReceive == m.received && t.records[k].lastReceiveSent == m.reported
      && t.records[k].lastTransmit == m.left
  }

  lemma AdmitRecalls<K>(p: Policy, t: Table<K>, key: K, now: real, k: K, m: Memory)
    requires Recalls(t, k, m)
    ensures var t' := Admit(p, t, key, now).0;
            Recalls(t', k, if k in t'.records then m else Memory(0, 0, 0))
  {
    hide Admit, Shed, Refilled, Period;
    AdmitWrites(p, t, key, now, k);
  }

  /** In every run the records hold the last of what was reported and noted since their clients entered. */
  lemma {:induction false} RunRecalls<K>(p: Policy, events: seq<Event<K>>, k: K)
    ensures Recalls(TableAfter(p, events), k, Recalled(p, events, k))
    decreases |events|
  {
    hide Admit, Run;
    if events == [] {
      NothingAsked<K>(p);
    } else {
      RunRecalls(p, Earlier(events), k);
      RunLast(p, Empty(p), events);
      var e, t := Latest(events), TableAfter(p, Earlier(events));
      if e.Request? {
        AdmitRecalls(p, t, e.key, e.now, k, Recalled(p, Earlier(events), k));
      }
    }
  }

  /**
   In every run an answer is interleaved if and only if the client is tabled and echoes
   the receive time last reported to it since it entered, and a transmit time was noted
   since; it carries the last one noted.
   */
  lemma InterleavedExactly<K>(p: Policy, events: seq<Event<K>>, k: K, origin: NtpTimestamp)
    ensures var m := Recalled(p, events, k);
            ChooseMode(TableAfter(p, events), Some(k), origin).1
            == if origin != 0 && origin == m.reported && m.left != 0 then Interleaved(m.left) else Basic
  {
    hide Run;
    RunRecalls(p, events, k);
  }
}
