/** What a stored offset has to say about the correction the commanded clock has received. */
module Ledger {
  import opened Wrappers
  import opened Reals
  import opened LineFit
  import opened RegressionSlew
  import opened SampleRegister

  /** What a sample read when it was taken, and the correction the clock had received by then. */
  datatype Entry = Entry(raw: real, received: real)

  /** The commanded clock: the correction received up to `asOf`, running on at `freqPpm`. */
  datatype Clock = Clock(received: real, freqPpm: real, asOf: real)

  function Rate(ppm: real): real {
    ppm * 0.000001
  }

  /**
   What the offset of a sample taken at `t` has to be: the raw one minus what the clock
   really received since, plus the current frequency over the age of the sample.
   */
  function Due(t: real, e: Entry, c: Clock): real {
    e.raw - (c.received - e.received) + Rate(c.freqPpm) * (c.asOf - t)
  }

  predicate Booked(s: Sample, e: Entry, c: Clock) {
    s.offset == Due(s.t, e, c)
  }

  /** A sample taken at `t` is not older than the newest of `s`. */
  predicate Follows(s: seq<Sample>, t: real) {
    s == [] || t >= s[|s| - 1].t
  }

  /** The same samples as far as their times go. */
  ghost predicate SameTimes(a: seq<Sample>, b: seq<Sample>) {
    |a| == |b| && forall k | 0 <= k < |a| :: a[k].t == b[k].t
  }

  lemma SlewKeepsTimes(h: seq<Sample>, c: Correction)
    ensures SameTimes(h, SlewedSamples(h, c))
  {
  }

  lemma FollowsLast(h: seq<Sample>, n: nat, t: real)
    requires n > 0
    ensures Follows(Last(h, n), t) <==> Follows(h, t)
  {
  }

  ghost predicate AllBooked(h: seq<Sample>, es: seq<Entry>, c: Clock) {
    |h| == |es| && forall k | 0 <= k < |h| :: Booked(h[k], es[k], c)
  }

  /** What running at `ppm` from `start` to `end` adds. */
  function Ran(ppm: real, start: real, end: real): real {
    Rate(ppm) * (end - start)
  }

  /** The clock after it ran on to `now` with a drain of `drainPpm` on top of its frequency. */
  function RunOn(c: Clock, drainPpm: real, now: real): Clock {
    c.(received := c.received + Ran(c.freqPpm, c.asOf, now) + Ran(drainPpm, c.asOf, now), asOf := now)
  }

  /** The clock after a command: a step at once, a frequency from here on. */
  function Commanded(c: Clock, freqPpm: real, step: real): Clock {
    c.(received := c.received + step, freqPpm := freqPpm)
  }

  // ----- one sample -----

  /** Booking moves a sample away from what is due by what is booked too little or too much. */
  lemma RunOnMoves(s: Sample, e: Entry, c: Clock, drainPpm: real, booked: real, now: real)
    ensures var s' := SlewedSample(s, Correction(now, 0.0, booked));
            s'.offset - Due(s'.t, e, RunOn(c, drainPpm, now))
              == s.offset - Due(s.t, e, c) + Ran(drainPpm, c.asOf, now) - booked
  {
    var s' := SlewedSample(s, Correction(now, 0.0, booked));
    assert Gained(s.t, Correction(now, 0.0, booked)) == booked by {
      GainedFlat(s.t, Correction(now, 0.0, booked));
    }
    var c' := RunOn(c, drainPpm, now);
    Distribute(Rate(c.freqPpm), now - c.asOf, c.asOf - s.t);
    assert (now - c.asOf) + (c.asOf - s.t) == now - s.t;
  }

  lemma Distribute(a: real, x: real, y: real)
    ensures a * (x + y) == a * x + a * y
  {
  }

  lemma CommandMoves(s: Sample, e: Entry, c: Clock, freqPpm: real, step: real)
    ensures Booked(s, e, c) <==>
            Booked(SlewedSample(s, Correction(c.asOf, Rate(freqPpm - c.freqPpm), step)), e, Commanded(c, freqPpm, step))
  {
    var d := freqPpm - c.freqPpm;
    assert Rate(freqPpm) == Rate(c.freqPpm) + Rate(d);
    TiltBack(Rate(c.freqPpm), Rate(d), c.asOf, s.t);
  }

  lemma TiltBack(f: real, d: real, now: real, t: real)
    ensures (f + d) * (now - t) == f * (now - t) - d * (t - now)
  {
  }

  // ----- a whole history -----

  /** Booking exactly the drain that ran keeps the books; booking anything else breaks every entry. */
  lemma RunOnKeepsBooks(h: seq<Sample>, es: seq<Entry>, c: Clock, drainPpm: real, booked: real, now: real)
    requires AllBooked(h, es, c)
    ensures booked == Ran(drainPpm, c.asOf, now) || h == []
            <==> AllBooked(SlewedSamples(h, Correction(now, 0.0, booked)), es, RunOn(c, drainPpm, now))
  {
    var h' := SlewedSamples(h, Correction(now, 0.0, booked));
    forall k | 0 <= k < |h|
      ensures Booked(h'[k], es[k], RunOn(c, drainPpm, now)) <==> booked == Ran(drainPpm, c.asOf, now)
    {
      RunOnMoves(h[k], es[k], c, drainPpm, booked, now);
    }
    if h != [] && AllBooked(h', es, RunOn(c, drainPpm, now)) {
      assert Booked(h'[0], es[0], RunOn(c, drainPpm, now));
    }
  }

  lemma NothingDrained(h: seq<Sample>, at: real)
    ensures SlewedSamples(h, Correction(at, 0.0, 0.0)) == h
  {
    var none := Correction(at, 0.0, 0.0);
    forall k | 0 <= k < |h|
      ensures SlewedSamples(h, none)[k] == h[k]
    {
      GainedFlat(h[k].t, none);
    }
  }

  /** Booking exactly the drain that ran neither breaks books nor mends them. */
  lemma SettledBooks(h: seq<Sample>, es: seq<Entry>, c: Clock, drainPpm: real, now: real)
    ensures AllBooked(h, es, c)
            <==> AllBooked(SlewedSamples(h, Correction(now, 0.0, Ran(drainPpm, c.asOf, now))), es,
                           RunOn(c, drainPpm, now))
  {
    var booked := Ran(drainPpm, c.asOf, now);
    var h' := SlewedSamples(h, Correction(now, 0.0, booked));
    if |h| == |es| {
      forall k | 0 <= k < |h|
        ensures Booked(h[k], es[k], c) <==> Booked(h'[k], es[k], RunOn(c, drainPpm, now))
      {
        RunOnMoves(h[k], es[k], c, drainPpm, booked, now);
      }
    }
  }

  /** With nothing to book, nothing is touched. */
  lemma IdleKeepsBooks(h: seq<Sample>, es: seq<Entry>, c: Clock, drainPpm: real, now: real)
    requires AllBooked(h, es, c)
    ensures Ran(drainPpm, c.asOf, now) == 0.0 || h == [] <==> AllBooked(h, es, RunOn(c, drainPpm, now))
  {
    RunOnKeepsBooks(h, es, c, drainPpm, 0.0, now);
    NothingDrained(h, now);
  }

  lemma CommandKeepsBooks(h: seq<Sample>, es: seq<Entry>, c: Clock, freqPpm: real, step: real)
    ensures AllBooked(h, es, c) <==>
            AllBooked(SlewedSamples(h, Correction(c.asOf, Rate(freqPpm - c.freqPpm), step)), es,
                      Commanded(c, freqPpm, step))
  {
    var h' := SlewedSamples(h, Correction(c.asOf, Rate(freqPpm - c.freqPpm), step));
    if |h| == |es| {
      forall k | 0 <= k < |h|
        ensures Booked(h[k], es[k], c) <==> Booked(h'[k], es[k], Commanded(c, freqPpm, step))
      {
        CommandMoves(h[k], es[k], c, freqPpm, step);
      }
    }
  }

  /** What a sample is filed against: the correction received by the time on its stamp. */
  function Filed(s: Sample, c: Clock, drainPpm: real): Entry {
    Entry(s.offset, RunOn(c, drainPpm, s.t).received)
  }

  /**
   A sample stored as it was taken is right at a later time if and only if no drain ran in
   between: the frequency is accounted for by its age, a drain is not.
   */
  lemma StoredUnbooked(s: Sample, c: Clock, drainPpm: real, now: real)
    ensures Booked(s, Filed(s, c, drainPpm), RunOn(c, drainPpm, now)) <==> drainPpm == 0.0 || s.t == now
  {
    RunOnTwice(c, drainPpm, s.t, now);
    RanNothing(drainPpm, s.t, now);
  }

  lemma PushBooks(h: seq<Sample>, es: seq<Entry>, s: Sample, e: Entry, c: Clock)
    ensures AllBooked(h + [s], es + [e], c) <==> AllBooked(h, es, c) && Booked(s, e, c)
  {
    var h', es' := h + [s], es + [e];
    if AllBooked(h', es', c) {
      assert Booked(h'[|h|], es'[|h|], c);
      forall k | 0 <= k < |h|
        ensures Booked(h[k], es[k], c)
      {
        assert Booked(h'[k], es'[k], c);
      }
    }
  }

  /** The books of several histories against one clock. */
  ghost predicate BooksOf(hs: seq<seq<Sample>>, es: seq<seq<Entry>>, c: Clock) {
    |hs| == |es| && forall i | 0 <= i < |hs| :: AllBooked(hs[i], es[i], c)
  }

  ghost predicate Blank(hs: seq<seq<Sample>>) {
    forall i | 0 <= i < |hs| :: hs[i] == []
  }

  ghost predicate AllSlewed(hs: seq<seq<Sample>>, after: seq<seq<Sample>>, c: Correction) {
    |after| == |hs| && forall i | 0 <= i < |hs| :: after[i] == SlewedSamples(hs[i], c)
  }

  /** A command at the time of the books neither breaks nor mends them. */
  lemma CommandKeepsAll(before: seq<seq<Sample>>, after: seq<seq<Sample>>, es: seq<seq<Entry>>, c: Clock, freqPpm: real,
                        step: real)
    requires |before| == |es| && AllSlewed(before, after, Correction(c.asOf, Rate(freqPpm - c.freqPpm), step))
    ensures BooksOf(after, es, Commanded(c, freqPpm, step)) <==> BooksOf(before, es, c)
  {
    forall i | 0 <= i < |before|
      ensures AllBooked(after[i], es[i], Commanded(c, freqPpm, step)) <==> AllBooked(before[i], es[i], c)
    {
      CommandKeepsBooks(before[i], es[i], c, freqPpm, step);
    }
  }

  /** A command keeps the books exactly where no unbooked drain ran into it. */
  lemma BooksAfterCommand(before: seq<seq<Sample>>, after: seq<seq<Sample>>, es: seq<seq<Entry>>,
                          c: Clock, drainPpm: real, now: real, freqPpm: real, step: real)
    requires BooksOf(before, es, c) && AllSlewed(before, after, Correction(now, Rate(freqPpm - c.freqPpm), step))
    ensures BooksOf(after, es, Commanded(RunOn(c, drainPpm, now), freqPpm, step))
            <==> Ran(drainPpm, c.asOf, now) == 0.0 || Blank(before)
  {
    var c1 := RunOn(c, drainPpm, now);
    forall i | 0 <= i < |before|
      ensures AllBooked(after[i], es[i], Commanded(c1, freqPpm, step))
              <==> Ran(drainPpm, c.asOf, now) == 0.0 || before[i] == []
    {
      CommandKeepsBooks(before[i], es[i], c1, freqPpm, step);
      IdleKeepsBooks(before[i], es[i], c, drainPpm, now);
    }
    if !(Ran(drainPpm, c.asOf, now) == 0.0 || Blank(before)) {
      var i :| 0 <= i < |before| && before[i] != [];
      assert !AllBooked(after[i], es[i], Commanded(c1, freqPpm, step));
    }
  }

  /** Undoing a command puts every history back, and with them the books. */
  lemma BooksAfterUndo(before: seq<seq<Sample>>, after: seq<seq<Sample>>, undone: seq<seq<Sample>>, at: real,
                       dfreqPpm: real, step: real)
    requires AllSlewed(before, after, Correction(at, Rate(dfreqPpm), step))
    requires AllSlewed(after, undone, Correction(at, Rate(-dfreqPpm), -step))
    ensures undone == before
  {
    forall i | 0 <= i < |before|
      ensures undone[i] == before[i]
    {
      UndoCommand(before[i], at, dfreqPpm, step);
    }
  }

  /** Undoing a command at its own time puts every stored sample back. */
  lemma UndoCommand(h: seq<Sample>, at: real, dfreqPpm: real, step: real)
    ensures SlewedSamples(SlewedSamples(h, Correction(at, Rate(dfreqPpm), step)),
                          Correction(at, Rate(-dfreqPpm), -step)) == h
  {
    var h1 := SlewedSamples(h, Correction(at, Rate(dfreqPpm), step));
    forall k | 0 <= k < |h|
      ensures SlewedSample(h1[k], Correction(at, Rate(-dfreqPpm), -step)) == h[k]
    {
      UndoSample(h[k], at, dfreqPpm, step);
    }
  }

  lemma UndoSample(s: Sample, at: real, dfreqPpm: real, step: real)
    ensures SlewedSample(SlewedSample(s, Correction(at, Rate(dfreqPpm), step)), Correction(at, Rate(-dfreqPpm), -step))
            == s
  {
  }

  // ----- the drain budget -----

  lemma RanAdds(ppm: real, a: real, b: real, c: real)
    ensures Ran(ppm, a, b) + Ran(ppm, b, c) == Ran(ppm, a, c)
  {
  }

  lemma RanNothing(ppm: real, a: real, b: real)
    ensures Ran(ppm, a, b) == 0.0 <==> ppm == 0.0 || a == b
  {
  }

  lemma RanGrows(ppm: real, a: real, b: real)
    requires ppm > 0.0 && a <= b
    ensures Ran(ppm, a, b) >= 0.0 && (Ran(ppm, a, b) == 0.0 <==> a == b)
  {
  }

  lemma RanSpends(ppm: real, start: real, left: real)
    requires ppm > 0.0
    ensures Ran(ppm, start, start + left / (ppm * 0.000001)) == left
  {
  }

  lemma RanSize(ppm: real, a: real, b: real)
    requires a <= b
    ensures Abs(Ran(ppm, a, b)) == Ran(Abs(ppm), a, b)
  {
  }

  /** Running on in two stretches is running on in one. */
  lemma RunOnTwice(c: Clock, drainPpm: real, a: real, b: real)
    ensures RunOn(RunOn(c, drainPpm, a), drainPpm, b) == RunOn(c, drainPpm, b)
  {
    RanAdds(c.freqPpm, c.asOf, a, b);
    RanAdds(drainPpm, c.asOf, a, b);
  }

  /**
   A drain planned at `planned`, last booked at `booked` with something left, and retired as
   soon after as what is left would have taken from the start: it has delivered its budget
   if and only if it was not booked in between, and less otherwise.
   */
  lemma DrainDelivers(budget: real, ppm: real, planned: real, booked: real, left: real, at: real)
    requires ppm > 0.0 && planned <= booked && left == budget - Ran(ppm, planned, booked) && left > 0.0
    requires at == Max(planned + left / (ppm * 0.000001), booked)
    ensures Ran(ppm, planned, at) <= budget
    ensures Ran(ppm, planned, at) == budget <==> booked == planned
  {
    RanSpends(ppm, planned, left);
    RanGrows(ppm, planned, booked);
  }
}
