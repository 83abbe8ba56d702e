/**
 What the client table is meant to do, stated on values: a bounded map from key to
 record together with the order in which the keys were last admitted. The class in
 module ClientTable is proved to compute exactly these functions.
 */
module ClientPolicy {
  import opened Wrappers
  import opened Reals
  import opened ClientTypes

  datatype Policy = Policy(capacity: nat, config: RateLimitConfig)

  /**
   `noted` is a history: for each tabled key, the transmit times noted since the key
   last entered the table.
   */
  datatype Table<K> = Table(
    recency: seq<K>,
    records: map<K, ClientRecord>,
    noted: map<K, set<NtpTimestamp>>,
    globalTokens: real,
    globalLast: Option<real>,
    globalDrops: nat,
    stats: ServerStats)

  function Empty<K>(p: Policy): Table<K> {
    Table([], map[], map[], p.config.globalBurst, None, 0, ServerStats(0, 0, 0, 0, 0, 0, 0))
  }

  /** One Kiss-o'-Death is sent for this many drops. */
  function Period(leakShift: nat): (n: nat)
    ensures n >= 1
    decreases leakShift
  {
    if leakShift > 16 then Period(16)
    else if leakShift == 0 then 1
    else 2 * Period(leakShift - 1)
  }

  /** Tokens a client earns per second. */
  function RefillPerS(c: RateLimitConfig): (r: real)
    ensures r > 0.0
  {
    Pow2(-c.intervalLog2)
  }

  /** A bucket holding `level`, refilled at `rate` from `last` to `now` and capped at `burst`. */
  function Refilled(level: real, rate: real, last: real, now: real, burst: real): real {
    Min(level + Max(now - last, 0.0) * rate, burst)
  }

  /** The first position of `k` in `s`, or `|s|`. */
  function IndexOf<K(==)>(s: seq<K>, k: K): (i: nat)
    ensures i <= |s|
  {
    if s == [] then 0 else if s[0] == k then 0 else 1 + IndexOf(s[1..], k)
  }

  lemma {:induction false} IndexOfMeaning<K>(s: seq<K>, k: K)
    ensures k !in s[..IndexOf(s, k)]
    ensures IndexOf(s, k) < |s| ==> s[IndexOf(s, k)] == k
    ensures IndexOf(s, k) < |s| <==> k in s
  {
    if s != [] && s[0] != k {
      IndexOfMeaning(s[1..], k);
      assert s == [s[0]] + s[1..];
      assert s[..IndexOf(s, k)] == [s[0]] + s[1..][..IndexOf(s[1..], k)];
    }
  }

  lemma {:induction false} IndexOfIs<K>(s: seq<K>, k: K, i: nat)
    requires i < |s| && s[i] == k && k !in s[..i]
    ensures IndexOf(s, k) == i
  {
    if i > 0 {
      assert s[..i][0] == s[0] && s[1..][..i - 1] == s[..i][1..];
      IndexOfIs(s[1..], k, i - 1);
    }
  }

  /** `s` without its element at `p`. */
  function Omit<T>(s: seq<T>, p: nat): (r: seq<T>)
    requires p < |s|
    ensures |r| == |s| - 1
  {
    s[..p] + s[p + 1..]
  }

  /** `s` without its first `k`. */
  function Without<K(==)>(s: seq<K>, k: K): seq<K> {
    var i := IndexOf(s, k);
    if i < |s| then Omit(s, i) else s
  }

  function GlobalRefill<K>(c: RateLimitConfig, t: Table<K>, now: real): Table<K> {
    if c.globalRateHz > 0.0 then
      var last := if t.globalLast.Some? then t.globalLast.value else now;
      t.(globalTokens := Refilled(t.globalTokens, c.globalRateHz, last, now, c.globalBurst), globalLast := Some(now))
    else t
  }

  function GlobalDrop<K>(c: RateLimitConfig, t: Table<K>): (Table<K>, Disposition) {
    var stats := t.stats.(droppedRateLimit := t.stats.droppedRateLimit + 1);
    if t.globalDrops + 1 >= Period(c.leakShift) then
      (t.(globalDrops := 0, stats := stats.(kissOfDeath := stats.kissOfDeath + 1)), KissOfDeath)
    else
      (t.(globalDrops := t.globalDrops + 1, stats := stats), Drop)
  }

  /** Drop the least recently admitted key. */
  function Evict<K>(t: Table<K>): Table<K>
    requires |t.recency| > 0
  {
    var victim := t.recency[|t.recency| - 1];
    t.(recency := t.recency[..|t.recency| - 1],
       records := t.records - {victim},
       noted := t.noted - {victim},
       stats := t.stats.(evicted := t.stats.evicted + 1))
  }

  /** A new key with its first record, most recent of all. */
  function Newcomer<K>(t: Table<K>, key: K, record: ClientRecord): Table<K> {
    t.(recency := [key] + t.recency, records := t.records[key := record], noted := t.noted[key := {}])
  }

  /** Bring `key` to the recent end, making room and a fresh record if it is new. */
  function Enter<K(==)>(p: Policy, t: Table<K>, key: K, now: real): Table<K> {
    if key in t.records then
      t.(recency := [key] + Without(t.recency, key))
    else
      var r := if |t.recency| >= p.capacity && |t.recency| > 0 then Evict(t) else t;
      Newcomer(r, key, FreshRecord(now, p.config.burst))
  }

  /** The three ways in: back to the front, in place of the tail, or into free room. */
  lemma EnterCases<K>(p: Policy, t: Table<K>, key: K, now: real)
    ensures key in t.records ==> Enter(p, t, key, now) == t.(recency := [key] + Without(t.recency, key))
    ensures key !in t.records && |t.recency| > 0 && |t.recency| >= p.capacity ==>
              Enter(p, t, key, now) == Newcomer(Evict(t), key, FreshRecord(now, p.config.burst))
    ensures key !in t.records && |t.recency| < p.capacity ==>
              Enter(p, t, key, now) == Newcomer(t, key, FreshRecord(now, p.config.burst))
  {
  }

  /** Only making room for a new key is counted. */
  lemma EnterBooks<K>(p: Policy, t: Table<K>, key: K, now: real)
    ensures key in t.records || |t.recency| < p.capacity || |t.recency| == 0 ==> Enter(p, t, key, now).stats == t.stats
    ensures key !in t.records && |t.recency| > 0 && |t.recency| >= p.capacity ==>
              Enter(p, t, key, now).stats == t.stats.(evicted := t.stats.evicted + 1)
    ensures Enter(p, t, key, now).globalTokens == t.globalTokens
    ensures Enter(p, t, key, now).globalLast == t.globalLast && Enter(p, t, key, now).globalDrops == t.globalDrops
  {
  }

  /** Refill the client's own bucket and decide the fate of its request. */
  function Charge(c: RateLimitConfig, r: ClientRecord, now: real): (ClientRecord, Disposition) {
    var r1 := r.(tokens := Refilled(r.tokens, RefillPerS(c), r.lastSeen, now, c.burst as real),
                 lastSeen := now, requests := r.requests + 1);
    if r1.tokens >= 1.0 then
      (r1.(tokens := r1.tokens - 1.0, responses := r1.responses + 1), Respond)
    else
      var r2 := r1.(dropped := r1.dropped + 1);
      if r2.dropsSinceKod + 1 >= Period(c.leakShift) then (r2.(dropsSinceKod := 0), KissOfDeath)
      else (r2.(dropsSinceKod := r2.dropsSinceKod + 1), Drop)
  }

  /** Book a charged record and the disposition it drew. */
  function Settle<K>(t: Table<K>, key: K, charged: (ClientRecord, Disposition)): Table<K> {
    var t1 := t.(records := t.records[key := charged.0]);
    match charged.1
    case Respond =>
      t1.(globalTokens := t.globalTokens - 1.0, stats := t.stats.(responses := t.stats.responses + 1))
    case KissOfDeath =>
      t1.(stats := t.stats.(droppedRateLimit := t.stats.droppedRateLimit + 1, kissOfDeath := t.stats.kissOfDeath + 1))
    case Drop =>
      t1.(stats := t.stats.(droppedRateLimit := t.stats.droppedRateLimit + 1))
  }

  /** Charging a known key changes its record and the books, and moves no key. */
  lemma SettleBooks<K>(t: Table<K>, key: K, charged: (ClientRecord, Disposition), t': Table<K>)
    requires key in t.records && t' == Settle(t, key, charged)
    ensures t'.recency == t.recency && t'.noted == t.noted && t'.records == t.records[key := charged.0]
    ensures t'.globalLast == t.globalLast && t'.globalDrops == t.globalDrops
    ensures t'.globalTokens == (if charged.1.Respond? then t.globalTokens - 1.0 else t.globalTokens)
    ensures t'.stats ==
            match charged.1
            case Respond => t.stats.(responses := t.stats.responses + 1)
            case Drop => t.stats.(droppedRateLimit := t.stats.droppedRateLimit + 1)
            case KissOfDeath =>
              t.stats.(droppedRateLimit := t.stats.droppedRateLimit + 1, kissOfDeath := t.stats.kissOfDeath + 1)
    ensures t'.records.Keys == t.records.Keys
  {
  }

  function Counted<K>(t: Table<K>): Table<K> {
    t.(stats := t.stats.(requests := t.stats.requests + 1))
  }

  /** The global ceiling turns a request away before any client record is touched. */
  predicate Shed<K>(c: RateLimitConfig, t: Table<K>, now: real) {
    c.globalRateHz > 0.0 && GlobalRefill(c, Counted(t), now).globalTokens < 1.0
  }

  /** A request that passed the global ceiling. */
  function Pass<K(==)>(p: Policy, t: Table<K>, key: K, now: real): (Table<K>, Disposition) {
    var t1 := Enter(p, t, key, now);
    assert key in t1.records;
    var charged := Charge(p.config, t1.records[key], now);
    (Settle(t1, key, charged), charged.1)
  }

  function Admit<K(==)>(p: Policy, t: Table<K>, key: K, now: real): (Table<K>, Disposition) {
    var t1 := GlobalRefill(p.config, Counted(t), now);
    if Shed(p.config, t, now) then GlobalDrop(p.config, t1) else Pass(p, t1, key, now)
  }

  /** What the global ceiling turns away is never answered. */
  lemma ShedIsNotAnswered<K>(p: Policy, t: Table<K>, key: K, now: real)
    ensures Shed(p.config, t, now) ==> Admit(p, t, key, now).1 != Respond
  {
  }

  /** A new client that is let in past a full table puts one out, and no other does. */
  lemma AdmitEvicts<K>(p: Policy, t: Table<K>, key: K, now: real)
    requires |t.recency| > 0 && !Shed(p.config, t, now)
    ensures Admit(p, t, key, now).0.stats.evicted
            == t.stats.evicted + (if key !in t.records && |t.recency| >= p.capacity then 1 else 0)
    ensures key in Admit(p, t, key, now).0.records
  {
    var t1 := GlobalRefill(p.config, Counted(t), now);
    var t2 := Enter(p, t1, key, now);
    EnterBooks(p, t1, key, now);
    assert key in t2.records;
    var charged := Charge(p.config, t2.records[key], now);
    SettleBooks(t2, key, charged, Settle(t2, key, charged));
  }

  /** Basic or interleaved, for a request whose handle resolved to the record of `who`. */
  function ChooseMode<K>(t: Table<K>, who: Option<K>, origin: NtpTimestamp): (Table<K>, ResponseMode) {
    if who.None? || who.value !in t.records then (t, Basic)
    else
      var r := t.records[who.value];
      if r.lastReceiveSent == 0 || r.lastTransmit == 0 then (t, Basic)
      else
        var interleaved := origin == r.lastReceiveSent && origin != 0;
        var t1 := t.(records := t.records[who.value := r.(interleavedNow := interleaved)]);
        if interleaved then
          (t1.(stats := t.stats.(interleavedResponses := t.stats.interleavedResponses + 1)),
           Interleaved(r.lastTransmit))
        else (t1, Basic)
  }

  function NoteResponse<K>(t: Table<K>, who: Option<K>, receive: NtpTimestamp, sent: NtpTimestamp): Table<K> {
    if who.None? || who.value !in t.records then t
    else t.(records := t.records[who.value := t.records[who.value].(lastReceive := receive, lastReceiveSent := sent)])
  }

  function NoteTransmit<K>(t: Table<K>, who: Option<K>, transmit: NtpTimestamp): Table<K> {
    if who.None? || who.value !in t.records then t
    else
      var sofar := if who.value in t.noted then t.noted[who.value] else {};
      t.(records := t.records[who.value := t.records[who.value].(lastTransmit := transmit)],
         noted := t.noted[who.value := sofar + {transmit}])
  }

  // ----- runs -----

  datatype Event<K> =
    | Request(key: K, now: real)
    | Mode(who: Option<K>, origin: NtpTimestamp)
    | Answered(who: Option<K>, receive: NtpTimestamp, sent: NtpTimestamp)
    | Sent(who: Option<K>, transmit: NtpTimestamp)
    | Refused

  function Step<K>(p: Policy, t: Table<K>, e: Event<K>): Table<K> {
    match e
    case Request(key, now) => Admit(p, t, key, now).0
    case Mode(who, origin) => ChooseMode(t, who, origin).0
    case Answered(who, receive, sent) => NoteResponse(t, who, receive, sent)
    case Sent(who, transmit) => NoteTransmit(t, who, transmit)
    case Refused => t.(stats := t.stats.(refused := t.stats.refused + 1))
  }

  function Run<K>(p: Policy, t: Table<K>, events: seq<Event<K>>): Table<K>
    decreases |events|
  {
    if events == [] then t else Run(p, Step(p, t, events[0]), events[1..])
  }
}
