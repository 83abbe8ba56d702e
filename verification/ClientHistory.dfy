/** What the records remember: when each client was last seen, and what was noted about it since. */
module ClientHistory {
  import opened Wrappers
  import opened ClientTypes
  import opened ClientPolicy
  import opened ClientRuns
  import opened ClientLimits

  // ----- last seen -----

  /** The listed keys have records in order of descending `lastSeen`. */
  ghost predicate Descending<K>(s: seq<K>, records: map<K, ClientRecord>) {
    && (forall k | k in s :: k in records)
    && (forall i, j | 0 <= i < j < |s| :: records[s[i]].lastSeen >= records[s[j]].lastSeen)
  }

  ghost predicate AllSane<K>(c: RateLimitConfig, records: map<K, ClientRecord>, s: real) {
    forall k | k in records :: RecordSane(c, records[k], s)
  }

  /** Every record is sane at `s`, and the recency order is also the order of `lastSeen`, newest first. */
  ghost predicate SeenInOrder<K>(c: RateLimitConfig, t: Table<K>, s: real) {
    Descending(t.recency, t.records) && AllSane(c, t.records, s)
  }

  lemma WithoutDescends<K>(s: seq<K>, k: K, records: map<K, ClientRecord>)
    requires Descending(s, records)
    ensures Descending(Without(s, k), records)
  {
    hide IndexOf;
    var p, r := IndexOf(s, k), Without(s, k);
    if p < |s| {
      forall i | 0 <= i < |r|
        ensures r[i] == s[if i < p then i else i + 1]
      {
      }
    }
  }

  lemma EvictDescends<K>(p: Policy, t: Table<K>)
    requires Shaped(p, t) && |t.recency| > 0 && Descending(t.recency, t.records)
    ensures Descending(Evict(t).recency, Evict(t).records)
  {
    EvictKeepsShape(p, t);
  }

  lemma DescendsWithNewcomer<K>(s: seq<K>, records: map<K, ClientRecord>, k: K, r: ClientRecord)
    requires Descending(s, records) && k !in records
    ensures Descending(([k] + s)[1..], records[k := r])
  {
    assert ([k] + s)[1..] == s;
  }

  /** The keys behind the one that entered are in order. */
  lemma EnterDescends<K>(p: Policy, t: Table<K>, key: K, now: real)
    requires Shaped(p, t) && p.capacity > 0 && Descending(t.recency, t.records)
    ensures var t' := Enter(p, t, key, now);
            |t'.recency| > 0 && t'.recency[0] == key && Descending(t'.recency[1..], t'.records)
  {
    if key in t.records {
      WithoutDescends(t.recency, key, t.records);
      assert ([key] + Without(t.recency, key))[1..] == Without(t.recency, key);
    } else if |t.recency| >= p.capacity {
      EvictDescends(p, t);
      DescendsWithNewcomer(Evict(t).recency, Evict(t).records, key, FreshRecord(now, p.config.burst));
    } else {
      DescendsWithNewcomer(t.recency, t.records, key, FreshRecord(now, p.config.burst));
    }
  }

  lemma EnterIsSane<K>(p: Policy, t: Table<K>, key: K, since: real, now: real)
    requires AllSane(p.config, t.records, since) && since <= now
    ensures AllSane(p.config, Enter(p, t, key, now).records, now)
  {
  }

  /** Charging the front key at `now` makes it the newest. */
  lemma SettleKeepsSeen<K>(p: Policy, t: Table<K>, key: K, charged: (ClientRecord, Disposition), now: real)
    requires Shaped(p, t) && |t.recency| > 0 && t.recency[0] == key
    requires Descending(t.recency[1..], t.records) && AllSane(p.config, t.records, now)
    requires charged.0.lastSeen == now && RecordSane(p.config, charged.0, now)
    ensures SeenInOrder(p.config, Settle(t, key, charged), now)
  {
    var t' := Settle(t, key, charged);
    assert t'.recency == t.recency && t'.records == t.records[key := charged.0];
    forall i, j | 0 <= i < j < |t.recency|
      ensures t'.records[t.recency[i]].lastSeen >= t'.records[t.recency[j]].lastSeen
    {
      DistinctAt(t.recency, 0, i);
      DistinctAt(t.recency, 0, j);
      assert t.recency[j] == t.recency[1..][j - 1];
      if i > 0 {
        assert t.recency[i] == t.recency[1..][i - 1];
      }
    }
  }

  lemma ChargeIsSane(c: RateLimitConfig, r: ClientRecord, now: real)
    requires RecordSane(c, r, now)
    ensures Charge(c, r, now).0.lastSeen == now && RecordSane(c, Charge(c, r, now).0, now)
  {
    ChargeSpends(c, r, now, now);
  }

  lemma AdmitKeepsSeen<K>(p: Policy, t: Table<K>, key: K, since: real, now: real)
    requires Shaped(p, t) && p.capacity > 0 && SeenInOrder(p.config, t, since) && since <= now
    ensures SeenInOrder(p.config, Admit(p, t, key, now).0, now)
  {
    var t1 := GlobalRefill(p.config, Counted(t), now);
    RefillMovesNoKeys(p.config, t, now);
    if !Shed(p.config, t, now) {
      var t2 := Enter(p, t1, key, now);
      EnterKeepsShape(p, t1, key, now);
      EnterDescends(p, t1, key, now);
      EnterIsSane(p, t1, key, since, now);
      ChargeIsSane(p.config, t2.records[key], now);
      SettleKeepsSeen(p, t2, key, Charge(p.config, t2.records[key], now), now);
    }
  }

  lemma NotesKeepSeen<K>(p: Policy, t: Table<K>, e: Event<K>, since: real)
    requires !e.Request? && SeenInOrder(p.config, t, since)
    ensures SeenInOrder(p.config, Step(p, t, e), since)
  {
    var t' := Step(p, t, e);
    assert t'.recency == t.recency && t'.records.Keys == t.records.Keys;
    forall k | k in t.records
      ensures t'.records[k].tokens == t.records[k].tokens && t'.records[k].lastSeen == t.records[k].lastSeen
    {
      NotesChargeNothing(p, t, e, k);
    }
  }

  /**
   In a run at non-decreasing times the recency order is the order of descending
   `lastSeen`, so the first `limit` keys of the list are the most recently seen.
   */
  lemma {:induction false} RunKeepsSeen<K>(p: Policy, t: Table<K>, events: seq<Event<K>>, since: real)
    requires Shaped(p, t) && p.capacity > 0 && SeenInOrder(p.config, t, since) && Timed(events, since)
    ensures SeenInOrder(p.config, Run(p, t, events), EndTime(events, since))
    decreases |events|
  {
    if events != [] {
      var e := events[0];
      StepKeepsShape(p, t, e);
      if e.Request? {
        AdmitKeepsSeen(p, t, e.key, since, e.now);
      } else {
        NotesKeepSeen(p, t, e, since);
      }
      RunKeepsSeen(p, Step(p, t, e), events[1..], After(e, since));
    }
  }

  // ----- interleaved mode -----

  /** Every transmit time on record was noted since its client last entered the table. */
  ghost predicate Remembered<K>(t: Table<K>) {
    && t.records.Keys == t.noted.Keys
    && forall k | k in t.records :: t.records[k].lastTransmit == 0 || t.records[k].lastTransmit in t.noted[k]
  }

  lemma EnterRemembers<K>(p: Policy, t: Table<K>, key: K, now: real)
    requires Remembered(t)
    ensures Remembered(Enter(p, t, key, now))
  {
  }

  lemma SettleRemembers<K>(t: Table<K>, key: K, charged: (ClientRecord, Disposition))
    requires Remembered(t) && key in t.records && charged.0.lastTransmit == t.records[key].lastTransmit
    ensures Remembered(Settle(t, key, charged))
  {
    var t' := Settle(t, key, charged);
    assert t'.noted == t.noted && t'.records == t.records[key := charged.0];
  }

  lemma StepRemembers<K>(p: Policy, t: Table<K>, e: Event<K>)
    requires Remembered(t)
    ensures Remembered(Step(p, t, e))
  {
    match e {
      case Request(key, now) =>
        var t1 := GlobalRefill(p.config, Counted(t), now);
        RefillMovesNoKeys(p.config, t, now);
        EnterRemembers(p, t1, key, now);
        var t2 := Enter(p, t1, key, now);
        SettleRemembers(t2, key, Charge(p.config, t2.records[key], now));
      case Mode(who, origin) =>
      case Answered(who, receive, sent) =>
      case Sent(who, transmit) =>
      case Refused =>
    }
  }

  lemma {:induction false} RunRemembers<K>(p: Policy, t: Table<K>, events: seq<Event<K>>)
    requires Remembered(t)
    ensures Remembered(Run(p, t, events))
    decreases |events|
  {
    if events != [] {
      StepRemembers(p, t, events[0]);
      RunRemembers(p, Step(p, t, events[0]), events[1..]);
    }
  }

  /**
   After any run from the empty table, an interleaved answer is given only to a client
   that echoes the non-zero receive time last reported to it, and it carries a transmit
   time noted for that very client since it last entered the table.
   */
  lemma InterleavedAnswersAreOwn<K>(p: Policy, events: seq<Event<K>>, who: Option<K>, origin: NtpTimestamp)
    ensures var t := Run(p, Empty(p), events);
            var mode := ChooseMode(t, who, origin).1;
            mode.Interleaved? <==>
              && who.Some? && who.value in t.records
              && origin == t.records[who.value].lastReceiveSent && origin != 0
              && t.records[who.value].lastTransmit != 0
    ensures var t := Run(p, Empty(p), events);
            var mode := ChooseMode(t, who, origin).1;
            mode.Interleaved? ==>
              && who.Some? && who.value in t.noted && mode.prevTransmit in t.noted[who.value]
              && mode.prevTransmit == t.records[who.value].lastTransmit
  {
    var t: Table<K> := Empty(p);
    RunRemembers(p, t, events);
  }
}
