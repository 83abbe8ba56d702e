/** Several sources, one clock: the controller keeps every register's books when the clock is moved. */
module Controller {
  import opened Wrappers
  import opened Reals
  import opened Regression
  import opened RegressionSlew
  import opened SampleRegister
  import opened Ledger
  import DisciplinePolicy
  import Discipline

  const REGISTER_CAPACITY: nat := 64

  /** One source's view of the clock; `variance` is the square of its dispersion. */
  datatype SourceView = SourceView(offset: real, freqPpm: Option<real>, variance: real, samples: nat)

  /** The bookkeeping of a plan, kept until the clock accepts or refuses it. */
  datatype Unapplied = Unapplied(
    at: real, dfreqPpm: real, step: real,
    freqBefore: real, drainBefore: real, remainingBefore: real)

  /** What a plan found, for as long as nothing else has happened since. */
  datatype Snapshot = Snapshot(histories: seq<seq<Sample>>, clock: Clock)

  // What a command does at once, and the drain it leaves running.

  function StepOf(c: DisciplinePolicy.ClockCommand): real {
    if c.Step? then c.add else 0.0
  }

  function DrainRate(c: DisciplinePolicy.ClockCommand): real {
    if c.Step? then 0.0 else if c.drainOffset < 0.0 then -Abs(c.drainRatePpm) else Abs(c.drainRatePpm)
  }

  function DrainBudget(c: DisciplinePolicy.ClockCommand): (b: real)
    ensures b >= 0.0
  {
    if c.Step? then 0.0 else Abs(c.drainOffset)
  }

  /** What is left of a budget once `ran` of it was delivered. */
  function LeftOf(remaining: real, ran: real): real {
    if ran == 0.0 then remaining else Max(remaining - Abs(ran), 0.0)
  }

  /** When a drain planned at `planned` has spent what is left of its budget. */
  function DrainEnd(planned: Option<real>, drainPpm: real, remaining: real): Option<real> {
    if planned.None? || drainPpm == 0.0 || remaining <= 0.0 then None
    else Some(planned.value + remaining / (Abs(drainPpm) * 0.000001))
  }

  /** The offset and frequency of an estimate, with a dispersion of a tenth of a microsecond at least. */
  predicate Reports(v: SourceView, e: Estimate) {
    v.offset == e.offset && v.freqPpm == e.freqPpm && v.variance == Max(e.variance, 0.00000000000001)
  }

  /** The offset of a sample, half its delay for the dispersion, and no frequency. */
  predicate Repeats(v: SourceView, s: Sample) {
    var sd := Max(s.delay / 2.0, 0.0000001);
    v.offset == s.offset && v.freqPpm == None && v.variance == sd * sd
  }

  /** The view a window gives: the regression, or its best sample while that warms up. */
  ghost predicate Views(v: SourceView, window: seq<Sample>, now: real, tuning: Tuning) {
    var e := WindowEstimate(window, now, tuning);
    && (e.Some? <==> |window| >= 3)
    && v.samples == |window|
    && (|window| >= 3 ==> Reports(v, e.value))
    && (0 < |window| < 3 ==> exists s :: IsBest(window, s) && Repeats(v, s))
    && (window == [] ==> v.offset == 0.0 && v.freqPpm == None && v.variance == 0.000001)
  }

  method PushSample(reg: SampleRegister, sample: Sample)
    requires reg.Ready() && Follows(reg.history, sample.t)
    modifies reg
    ensures reg.Valid() && reg.Fresh() && reg.history == old(reg.history) + [sample]
  {
    reg.ValidMeans();
    FollowsLast(reg.history, reg.capacity, sample.t);
    reg.Push(sample);
  }

  ghost function Opposite(u: Unapplied): Unapplied {
    u.(dfreqPpm := -u.dfreqPpm, step := -u.step)
  }

  ghost function Undoing(u: Unapplied): Correction {
    Correction(u.at, Rate(u.dfreqPpm), u.step)
  }

  /** How the registers of a controller regress. */
  function TuningOf(cfg: DisciplinePolicy.Config): Tuning {
    Tuning(cfg.adaptiveWindow, Max(cfg.weightFloorRatio, 0.0001), Max(cfg.offsetWeightFloorRatio, 0.0001), 4)
  }

  method NewRegister(cfg: DisciplinePolicy.Config) returns (r: SampleRegister)
    ensures fresh(r) && r.Ready() && r.history == [] && r.capacity == REGISTER_CAPACITY && r.Settings() == TuningOf(cfg)
  {
    r := new SampleRegister(REGISTER_CAPACITY);
    r.SetWeightFloorRatio(cfg.weightFloorRatio);
    r.SetOffsetWeightFloorRatio(cfg.offsetWeightFloorRatio);
    r.SetAdaptiveWindow(cfg.adaptiveWindow);
  }

  class MultiController {
    const registers: seq<SampleRegister>
    const discipline: Discipline.Discipline
    var freqCmdPpm: real
    var drainPpm: real
    var drainRemaining: real
    var lastPlan: Option<real>
    var bookedUntil: Option<real>
    var unapplied: Option<Unapplied>

    /** The commanded clock, and what each stored sample read when it was taken. */
    ghost var clock: Clock
    ghost var entries: seq<seq<Entry>>
    ghost var beforePlan: Option<Snapshot>

    /** Registers of their own, each in order. */
    ghost predicate AllReady()
      reads registers
    {
      && registers != []
      && (forall i, j | 0 <= i < j < |registers| :: registers[i] != registers[j])
      && (forall i | 0 <= i < |registers| :: registers[i].Ready())
    }

    ghost predicate Valid()
      reads this, registers
    {
      && AllReady() && |entries| == |registers|
      && DisciplinePolicy.Sane(discipline.cfg)
      && clock.freqPpm == freqCmdPpm
      && (bookedUntil.Some? ==> clock.asOf == bookedUntil.value)
      && (bookedUntil.None? ==> drainPpm == 0.0)
      && (lastPlan.Some? || unapplied.Some? ==> bookedUntil.Some?)
      && (beforePlan.Some? ==> unapplied.Some? && Undoable(beforePlan.value, unapplied.value))
    }

    /** Every stored offset of every register agrees with what the clock really received. */
    ghost predicate Books()
      requires |entries| == |registers|
      reads this`clock, this`entries, registers
    {
      forall i | 0 <= i < |registers| :: AllBooked(registers[i].history, entries[i], clock)
    }

    ghost predicate Undoable(s: Snapshot, u: Unapplied)
      reads this`clock, registers
    {
      && |s.histories| == |registers|
      && (forall i | 0 <= i < |registers| :: registers[i].history == SlewedSamples(s.histories[i], Undoing(u)))
      && clock == Commanded(s.clock, u.freqBefore + u.dfreqPpm, u.step)
      && s.clock.freqPpm == u.freqBefore && s.clock.asOf == u.at
    }

    constructor (cfg: DisciplinePolicy.Config, sources: nat)
      requires DisciplinePolicy.Sane(cfg)
      ensures Valid() && Books() && fresh(registers) && fresh(discipline)
      ensures |registers| == (if sources < 1 then 1 else sources) && discipline.cfg == cfg
      ensures forall i | 0 <= i < |registers| ::
              registers[i].history == [] && registers[i].capacity == REGISTER_CAPACITY
      ensures forall i | 0 <= i < |registers| ::
                var tuning := registers[i].Settings();
                && tuning.adaptive == cfg.adaptiveWindow && tuning.trims == 4
                && tuning.floorRatio == Max(cfg.weightFloorRatio, 0.0001)
                && tuning.offsetFloorRatio == Max(cfg.offsetWeightFloorRatio, 0.0001)
    {
      var n := if sources < 1 then 1 else sources;
      var made: seq<SampleRegister> := [];
      ghost var blank: seq<seq<Entry>> := [];
      while |made| < n
        invariant |made| <= n && |blank| == |made|
        invariant forall i | 0 <= i < |made| ::
                    fresh(made[i]) && made[i].Ready() && made[i].history == [] && made[i].capacity == REGISTER_CAPACITY
                    && blank[i] == [] && made[i].Settings() == TuningOf(cfg)
        invariant forall i, j | 0 <= i < j < |made| :: made[i] != made[j]
      {
        var r := NewRegister(cfg);
        made := made + [r];
        blank := blank + [[]];
      }
      registers := made;
      discipline := new Discipline.Discipline(cfg);
      freqCmdPpm, drainPpm, drainRemaining := 0.0, 0.0, 0.0;
      lastPlan, bookedUntil, unapplied := None, None, None;
      clock, entries, beforePlan := Clock(0.0, 0.0, 0.0), blank, None;
    }

    /** Re-express every register: the correction reaches the one clock all of them measure. */
    method SlewAll(at: real, dfreqPpm: real, doffset: real)
      requires forall i, j | 0 <= i < j < |registers| :: registers[i] != registers[j]
      requires forall i | 0 <= i < |registers| :: registers[i].Ready()
      modifies registers
      ensures forall i | 0 <= i < |registers| :: registers[i].Ready()
      ensures forall i | 0 <= i < |registers| ::
                registers[i].history
                  == SlewedSamples(old(registers[i].history), Correction(at, Rate(dfreqPpm), doffset))
    {
      ghost var c := Correction(at, Rate(dfreqPpm), doffset);
      for k := 0 to |registers|
        invariant forall i | 0 <= i < |registers| :: registers[i].Ready()
        invariant forall i | 0 <= i < k :: registers[i].history == SlewedSamples(old(registers[i].history), c)
        invariant forall i | k <= i < |registers| :: registers[i].history == old(registers[i].history)
      {
        registers[k].SlewSamples(at, dfreqPpm, doffset);
      }
    }

    /** The drain that has run since it was last booked. */
    method DrainRan(now: real) returns (drained: real)
      requires Valid() && clock.asOf <= now
      ensures drained == Ran(drainPpm, clock.asOf, now)
    {
      if bookedUntil.Some? && drainPpm != 0.0 {
        return drainPpm * 0.000001 * Max(now - bookedUntil.value, 0.0);
      }
      return 0.0;
    }

    /** Book `drained` on every register, as far as `now`. */
    method BookDrain(now: real, drained: real, ghost ran: Clock)
      requires Valid() && clock.asOf <= now && ran == RunOn(clock, drainPpm, now)
               && drained == Ran(drainPpm, clock.asOf, now)
      modifies this`bookedUntil, this`clock, this`beforePlan, registers
      ensures Valid() && beforePlan == None && clock == ran
      ensures bookedUntil == if old(bookedUntil).Some? then Some(now) else None
      ensures old(Books()) <==> Books()
      ensures forall i | 0 <= i < |registers| ::
                registers[i].history == SlewedSamples(old(registers[i].history), Correction(now, 0.0, drained))
    {
      ghost var c := clock;
      if drained != 0.0 {
        SlewAll(now, 0.0, drained);
      } else {
        forall i | 0 <= i < |registers|
          ensures registers[i].history == SlewedSamples(registers[i].history, Correction(now, 0.0, drained))
        {
          NothingDrained(registers[i].history, now);
        }
      }
      if bookedUntil.Some? {
        bookedUntil := Some(now);
      }
      clock := ran;
      beforePlan := None;
      forall i | 0 <= i < |registers|
        ensures AllBooked(old(registers[i].history), entries[i], c)
                <==> AllBooked(registers[i].history, entries[i], clock)
      {
        SettledBooks(old(registers[i].history), entries[i], c, drainPpm, now);
      }
    }

    /**
     Book the drain that has run since it was last booked, on every register. Nothing
     caps it: what the clock received is booked, not what was budgeted.
     */
    method SettleDrain(now: real)
      requires Valid() && clock.asOf <= now
      modifies this`drainRemaining, this`bookedUntil, this`clock, this`beforePlan, registers
      ensures Valid() && clock == RunOn(old(clock), drainPpm, now) && beforePlan == None
      ensures old(Books()) <==> Books()
      ensures drainRemaining == LeftOf(old(drainRemaining), Ran(drainPpm, old(clock).asOf, now))
      ensures bookedUntil == if old(bookedUntil).Some? then Some(now) else None
      ensures forall i | 0 <= i < |registers| ::
                registers[i].history
                == SlewedSamples(old(registers[i].history), Correction(now, 0.0, Ran(drainPpm, old(clock).asOf, now)))
    {
      hide AllBooked, SlewedSamples, Ran, Rate;
      ghost var ran := RunOn(clock, drainPpm, now);
      var drained := DrainRan(now);
      BookDrain(now, drained, ran);
      if drained != 0.0 {
        drainRemaining := Max(drainRemaining - Abs(drained), 0.0);
      }
    }

    // ----- measuring -----

    /** This source's current view: the regression, or the best single sample while that warms up. */
    method View(index: nat, now: real) returns (v: SourceView)
      requires index < |registers| && registers[index].Valid() && registers[index].Fresh()
      modifies registers[index]
      ensures registers[index].Ready() && registers[index].history == old(registers[index].history)
      ensures registers[index].Window() == old(registers[index].Window())
      ensures Views(v, registers[index].Window(), now, registers[index].Settings())
    {
      var reg := registers[index];
      var samples := reg.Len();
      EstimateCommutes(reg.Window(), now, reg.Settings(), Correction(0.0, 0.0, 0.0));
      var e := reg.Regress(now);
      if e.Some? {
        return SourceView(e.value.offset, e.value.freqPpm, Max(e.value.variance, 0.00000000000001), samples);
      }
      var best := reg.Best();
      if best.Some? {
        var sd := Max(best.value.delay / 2.0, 0.0000001);
        return SourceView(best.value.offset, None, sd * sd, samples);
      }
      return SourceView(0.0, None, 0.000001, samples);
    }

    /**
     Record one exchange: measurement only, the clock is not touched. The drain is settled
     first, then the sample is stored as it was taken, and the view is that of the window
     as it is now. The sample is filed against what the clock had received by the time on
     its stamp, so its books are right if and only if no drain ran since then.
     */
    method Observe(index: nat, now: real, sample: Sample) returns (v: SourceView)
      requires Valid() && clock.asOf <= now && index < |registers|
      requires Follows(registers[index].history, sample.t)
      modifies this`drainRemaining, this`bookedUntil, this`clock, this`beforePlan, this`entries, registers
      ensures Valid() && clock == RunOn(old(clock), drainPpm, now)
      ensures Books() <==> old(Books()) && (drainPpm == 0.0 || sample.t == now)
      ensures drainRemaining == LeftOf(old(drainRemaining), Ran(drainPpm, old(clock).asOf, now))
      ensures bookedUntil == if old(bookedUntil).Some? then Some(now) else None
      ensures forall i | 0 <= i < |registers| ::
                registers[i].history
                == SlewedSamples(old(registers[i].history), Correction(now, 0.0, Ran(drainPpm, old(clock).asOf, now)))
                   + (if i == index then [sample] else [])
      ensures entries == old(entries)[index := old(entries)[index] + [Filed(sample, old(clock), drainPpm)]]
      ensures Views(v, registers[index].Window(), now, registers[index].Settings())
    {
      ghost var before := clock;
      ghost var c := Correction(now, 0.0, Ran(drainPpm, clock.asOf, now));
      SlewKeepsTimes(registers[index].history, c);
      SettleDrain(now);
      StoredUnbooked(sample, before, drainPpm, now);
      v := Record(index, now, sample, Filed(sample, before, drainPpm));
    }

    /** Push a sample, note what it was taken against, and look. */
    method Record(index: nat, now: real, sample: Sample, ghost entry: Entry) returns (v: SourceView)
      requires Valid() && index < |registers| && beforePlan == None
      requires Follows(registers[index].history, sample.t)
      modifies this`entries, registers[index]
      ensures Valid()
      ensures Books() <==> old(Books()) && Booked(sample, entry, clock)
      ensures registers[index].history == old(registers[index].history) + [sample]
      ensures entries == old(entries)[index := old(entries)[index] + [entry]]
      ensures Views(v, registers[index].Window(), now, registers[index].Settings())
    {
      PushSample(registers[index], sample);
      entries := entries[index := entries[index] + [entry]];
      v := View(index, now);
      PushBooks(old(registers[index].history), old(entries)[index], sample, entry, clock);
    }

    // ----- steering -----

    /** Take over what a plan commands. */
    method TakeCommand(command: DisciplinePolicy.ClockCommand) returns (step: real)
      modifies this`drainPpm, this`drainRemaining
      ensures step == StepOf(command) && drainPpm == DrainRate(command) && drainRemaining == DrainBudget(command)
    {
      match command
      case Step(add) =>
        drainPpm, drainRemaining := 0.0, 0.0;
        step := add;
      case Slew(_, drainOffset, drainRatePpm) =>
        drainPpm := if drainOffset < 0.0 then -Abs(drainRatePpm) else Abs(drainRatePpm);
        drainRemaining := Abs(drainOffset);
        step := 0.0;
    }

    lemma CollectHistories() returns (hs: seq<seq<Sample>>)
      ensures |hs| == |registers| && forall i | 0 <= i < |registers| :: hs[i] == registers[i].history
    {
      hs := [];
      while |hs| < |registers|
        invariant |hs| <= |registers| && forall i | 0 <= i < |hs| :: hs[i] == registers[i].history
      {
        hs := hs + [registers[|hs|].history];
      }
    }

    /** Tilt and shift every register by a command given at `now`, and remember how to undo it. */
    method BookCommand(now: real, freqPpm: real, step: real, drainBefore: real, remainingBefore: real,
                       ghost c: Clock, ghost before: seq<seq<Sample>>)
      requires Valid() && c == clock && c.asOf == now
      requires |before| == |registers| && forall i | 0 <= i < |registers| :: before[i] == registers[i].history
      modifies this`freqCmdPpm, this`unapplied, this`beforePlan, this`clock, registers
      ensures clock == Commanded(c, freqPpm, step) && freqCmdPpm == freqPpm
      ensures beforePlan == Some(Snapshot(before, c))
      ensures unapplied
              == Some(Unapplied(now, freqPpm - old(freqCmdPpm), step, old(freqCmdPpm), drainBefore, remainingBefore))
      ensures AllReady()
      ensures forall i | 0 <= i < |registers| ::
                registers[i].history == SlewedSamples(before[i], Correction(now, Rate(freqPpm - c.freqPpm), step))
    {
      var dfreqPpm := freqPpm - freqCmdPpm;
      SlewAll(now, dfreqPpm, step);
      unapplied := Some(Unapplied(now, dfreqPpm, step, freqCmdPpm, drainBefore, remainingBefore));
      freqCmdPpm := freqPpm;
      clock := Commanded(c, freqPpm, step);
      beforePlan := Some(Snapshot(before, c));
    }

    /** Take over a plan: its command, its frequency and its time. */
    method CommitPlan(command: DisciplinePolicy.ClockCommand, freqNew: real, now: real, ghost before: seq<seq<Sample>>,
                      ghost c: Clock)
      returns (step: real)
      requires Valid() && clock.asOf <= now && c == RunOn(clock, drainPpm, now)
      requires |before| == |registers| && forall i | 0 <= i < |registers| :: before[i] == registers[i].history
      modifies this`drainPpm, this`drainRemaining, this`lastPlan, this`bookedUntil
      modifies this`freqCmdPpm, this`unapplied, this`beforePlan, this`clock, registers
      ensures Valid() && clock == Commanded(c, freqNew, step) && freqCmdPpm == freqNew
      ensures step == StepOf(command) && drainPpm == DrainRate(command) && drainRemaining == DrainBudget(command)
      ensures beforePlan == Some(Snapshot(before, c))
      ensures lastPlan == bookedUntil == Some(now)
      ensures unapplied == Some(Unapplied(now, freqNew - old(freqCmdPpm), step, old(freqCmdPpm), old(drainPpm),
                                          old(drainRemaining)))
      ensures forall i | 0 <= i < |registers| ::
                registers[i].history == SlewedSamples(before[i], Correction(now, Rate(freqNew - c.freqPpm), step))
    {
      hide AllReady, SlewedSamples, Rate;
      var drainBefore, remainingBefore := drainPpm, drainRemaining;
      step := TakeCommand(command);
      clock := c;
      lastPlan := Some(now);
      bookedUntil := Some(now);
      beforePlan := None;
      BookCommand(now, freqNew, step, drainBefore, remainingBefore, c, before);
    }

    lemma BooksThen(before: seq<seq<Sample>>, c: Clock, drainBefore: real, now: real, freqNew: real, step: real)
      requires |entries| == |registers| == |before|
      requires clock == Commanded(RunOn(c, drainBefore, now), freqNew, step)
      requires forall i | 0 <= i < |registers| ::
                 registers[i].history == SlewedSamples(before[i], Correction(now, Rate(freqNew - c.freqPpm), step))
      ensures BooksOf(before, entries, c) ==> (Books() <==> Ran(drainBefore, c.asOf, now) == 0.0 || Blank(before))
      ensures c.asOf == now ==> (Books() <==> BooksOf(before, entries, c))
    {
      var after := CollectHistories();
      if BooksOf(before, entries, c) {
        BooksAfterCommand(before, after, entries, c, drainBefore, now, freqNew, step);
      }
      if c.asOf == now {
        NoneRan(drainBefore, now);
        NoneRan(c.freqPpm, now);
        CommandKeepsAll(before, after, entries, c, freqNew, step);
      }
    }

    /**
     Steer the clock from one source's estimate. The books stay right if and only if
     no drain was running or the one running was booked up to now, as it is when the
     estimate comes from an observation at the same time.
     */
    method Steer(e: DisciplinePolicy.Input, now: real) returns (plan: DisciplinePolicy.Plan)
      requires Valid() && clock.asOf <= now
      modifies this`drainPpm, this`drainRemaining, this`lastPlan, this`bookedUntil
      modifies this`freqCmdPpm, this`unapplied, this`beforePlan, this`clock, discipline, registers
      ensures Valid() && beforePlan.Some? && clock.asOf == now
      ensures (discipline.Now(), plan) == DisciplinePolicy.Decide(discipline.cfg, old(discipline.Now()), e)
      ensures freqCmdPpm == discipline.freqPpm && lastPlan == bookedUntil == Some(now)
      ensures drainPpm == DrainRate(plan.command) && drainRemaining == DrainBudget(plan.command)
      ensures unapplied
              == Some(Unapplied(now, freqCmdPpm - old(freqCmdPpm), StepOf(plan.command), old(freqCmdPpm), old(drainPpm),
                                old(drainRemaining)))
      ensures beforePlan.value.clock == RunOn(old(clock), old(drainPpm), now)
      ensures clock == Commanded(beforePlan.value.clock, freqCmdPpm, StepOf(plan.command))
      ensures |beforePlan.value.histories| == |registers|
      ensures forall i | 0 <= i < |registers| :: beforePlan.value.histories[i] == old(registers[i].history)
      ensures forall i | 0 <= i < |registers| ::
                registers[i].history
                == SlewedSamples(old(registers[i].history),
                                 Correction(now, Rate(freqCmdPpm - old(freqCmdPpm)), StepOf(plan.command)))
      ensures old(Books()) ==>
                (Books() <==> Ran(old(drainPpm), old(clock).asOf, now) == 0.0 || Blank(beforePlan.value.histories))
      ensures old(clock).asOf == now ==> (Books() <==> old(Books()))
    {
      hide AllBooked, SlewedSamples, Ran, Rate;
      ghost var c, drainBefore := clock, drainPpm;
      ghost var c1 := RunOn(c, drainBefore, now);
      plan := discipline.OnEstimateWithLeap(e);
      var freqNew := discipline.freqPpm;
      ghost var before := CollectHistories();
      var step := CommitPlan(plan.command, freqNew, now, before, c1);
      BooksThen(before, c, drainBefore, now, freqNew, step);
    }

    // ----- the drain's end, and taking a plan back -----

    /** When the running drain will have spent its budget. */
    method DrainCompletesAt() returns (at: Option<real>)
      ensures at == DrainEnd(lastPlan, drainPpm, drainRemaining)
    {
      if lastPlan.None? || drainPpm == 0.0 || drainRemaining <= 0.0 {
        return None;
      }
      return Some(lastPlan.value + drainRemaining / (Abs(drainPpm) * 0.000001));
    }

    /** Book what ran of the drain and stop it. */
    method RetireDrain(now: real)
      requires Valid() && clock.asOf <= now
      modifies this`drainPpm, this`drainRemaining, this`lastPlan, this`bookedUntil
      modifies this`clock, this`beforePlan, registers
      ensures Valid() && (old(Books()) <==> Books())
      ensures clock == RunOn(old(clock), old(drainPpm), now) && drainPpm == 0.0 == drainRemaining
      ensures lastPlan == bookedUntil == Some(now)
      ensures forall i | 0 <= i < |registers| ::
                registers[i].history
                == SlewedSamples(old(registers[i].history),
                                 Correction(now, 0.0, Ran(old(drainPpm), old(clock).asOf, now)))
    {
      hide AllReady, AllBooked, SlewedSamples, Ran, Rate;
      ghost var ran := RunOn(clock, drainPpm, now);
      var consumed := DrainRan(now);
      BookDrain(now, consumed, ran);
      drainPpm := 0.0;
      drainRemaining := 0.0;
      lastPlan := Some(now);
      bookedUntil := Some(now);
    }

    /**
     Retire a drain whose budget is spent, booking what the clock actually received. That
     happens exactly when the time for it has come; otherwise nothing happens.
     */
    method PollDrain(now: real) returns (command: Option<DisciplinePolicy.ClockCommand>)
      requires Valid() && clock.asOf <= now
      modifies this`drainPpm, this`drainRemaining, this`lastPlan, this`bookedUntil
      modifies this`clock, this`beforePlan, registers
      ensures Valid() && (old(Books()) <==> Books())
      ensures command.Some? <==>
              var end := DrainEnd(old(lastPlan), old(drainPpm), old(drainRemaining));
              end.Some? && end.value <= now && old(bookedUntil).Some?
      ensures command.None? ==>
                && clock == old(clock) && drainPpm == old(drainPpm) && drainRemaining == old(drainRemaining)
                && lastPlan == old(lastPlan) && bookedUntil == old(bookedUntil)
      ensures command.Some? ==>
                && command.value == DisciplinePolicy.Slew(freqCmdPpm, 0.0, 0.0)
                && clock == RunOn(old(clock), old(drainPpm), now) && drainPpm == 0.0 == drainRemaining
                && lastPlan == bookedUntil == Some(now)
      ensures forall i | 0 <= i < |registers| ::
                registers[i].history
                == if command.None? then old(registers[i].history)
                   else SlewedSamples(old(registers[i].history),
                                      Correction(now, 0.0, Ran(old(drainPpm), old(clock).asOf, now)))
    {
      var completes := DrainCompletesAt();
      if completes.None? || now < completes.value || bookedUntil.None? {
        return None;
      }
      RetireDrain(now);
      return Some(DisciplinePolicy.Slew(freqCmdPpm, 0.0, 0.0));
    }

    /** Slew every register by the opposite of what the plan did: directly after it, every history is put back. */
    method PutBack(u: Unapplied, ghost planned: Option<Snapshot>)
      requires forall i, j | 0 <= i < j < |registers| :: registers[i] != registers[j]
      requires forall i | 0 <= i < |registers| :: registers[i].Ready()
      requires planned.Some? ==> Undoable(planned.value, u)
      modifies registers
      ensures forall i | 0 <= i < |registers| :: registers[i].Ready()
      ensures forall i | 0 <= i < |registers| ::
                registers[i].history == SlewedSamples(old(registers[i].history), Undoing(Opposite(u)))
      ensures planned.Some? ==> forall i | 0 <= i < |registers| :: registers[i].history == planned.value.histories[i]
    {
      ghost var after := CollectHistories();
      SlewAll(u.at, -u.dfreqPpm, -u.step);
      if planned.Some? {
        ghost var undone := CollectHistories();
        BooksAfterUndo(planned.value.histories, after, undone, u.at, u.dfreqPpm, u.step);
      }
    }

    /**
     Take back the last plan, because the driver refused it. Directly after its plan
     this puts back every register, the command fields and the books exactly.
     */
    method RevertLastPlan() returns (reverted: bool)
      requires Valid()
      modifies this`freqCmdPpm, this`drainPpm, this`drainRemaining, this`unapplied, this`beforePlan, this`clock,
               registers
      ensures Valid() && unapplied == None && (reverted <==> old(unapplied).Some?)
      ensures reverted ==>
                && freqCmdPpm == old(unapplied).value.freqBefore && drainPpm == old(unapplied).value.drainBefore
                && drainRemaining == old(unapplied).value.remainingBefore
      ensures forall i | 0 <= i < |registers| ::
                registers[i].history
                == if !reverted then old(registers[i].history)
                   else SlewedSamples(old(registers[i].history), Undoing(Opposite(old(unapplied).value)))
      ensures old(beforePlan).Some? ==>
                && reverted && clock == old(beforePlan).value.clock
                && |old(beforePlan).value.histories| == |registers|
                && (forall i | 0 <= i < |registers| :: registers[i].history == old(beforePlan).value.histories[i])
                && (BooksOf(old(beforePlan).value.histories, entries, clock) <==> Books())
    {
      if unapplied.None? {
        return false;
      }
      var u := unapplied.value;
      unapplied := None;
      PutBack(u, beforePlan);
      freqCmdPpm := u.freqBefore;
      drainPpm := u.drainBefore;
      drainRemaining := u.remainingBefore;
      ghost var planned := beforePlan;
      beforePlan := None;
      if planned.Some? {
        clock := planned.value.clock;
      } else {
        clock := clock.(freqPpm := u.freqBefore);
      }
      return true;
    }

    /** The last plan reached the clock and can no longer be taken back. */
    method ConfirmLastPlan()
      requires Valid()
      modifies this`unapplied, this`beforePlan
      ensures Valid() && unapplied == None && (old(Books()) <==> Books())
    {
      unapplied := None;
      beforePlan := None;
    }

    /** Seed the commanded frequency: the books of stored samples only survive if there are none. */
    method PreloadFrequency(freqPpm: real)
      requires Valid()
      modifies this`freqCmdPpm, this`clock, this`beforePlan
      ensures Valid() && freqCmdPpm == freqPpm
      ensures (forall i | 0 <= i < |registers| :: registers[i].history == []) && old(Books()) ==> Books()
    {
      freqCmdPpm := freqPpm;
      clock := clock.(freqPpm := freqPpm);
      beforePlan := None;
    }

    /** One completed exchange of a single source: observe, then steer at the same time. */
    method OnSample(now: real, sample: Sample, leapPending: bool, sqrt: real -> real)
      returns (v: SourceView, plan: DisciplinePolicy.Plan)
      requires Valid() && clock.asOf <= now && Follows(registers[0].history, sample.t)
      modifies this, discipline, registers
      ensures Valid() && (Books() <==> old(Books()) && (old(drainPpm) == 0.0 || sample.t == now))
      ensures (discipline.Now(), plan)
              == DisciplinePolicy.Decide(
                discipline.cfg, old(discipline.Now()),
                DisciplinePolicy.Input(v.offset, v.freqPpm, sqrt(v.variance), leapPending))
    {
      v := Observe(0, now, sample);
      NoneRan(drainPpm, now);
      plan := Steer(DisciplinePolicy.Input(v.offset, v.freqPpm, sqrt(v.variance), leapPending), now);
    }
  }

  lemma NoneRan(ppm: real, at: real)
    ensures Ran(ppm, at, at) == 0.0
  {
  }

  /**
   A plan the clock refuses: steered, then taken back at once. Every register, every command
   field and the books are as they were; only the discipline has moved on.
   */
  method SteerRefused(ctl: MultiController, e: DisciplinePolicy.Input, now: real)
    requires ctl.Valid() && ctl.clock.asOf == now
    modifies ctl, ctl.discipline, ctl.registers
    ensures ctl.Valid() && ctl.clock == old(ctl.clock) && (old(ctl.Books()) <==> ctl.Books())
    ensures ctl.freqCmdPpm == old(ctl.freqCmdPpm)
    ensures ctl.drainPpm == old(ctl.drainPpm) && ctl.drainRemaining == old(ctl.drainRemaining)
    ensures forall i | 0 <= i < |ctl.registers| :: ctl.registers[i].history == old(ctl.registers[i].history)
  {
    var plan := ctl.Steer(e, now);
    NoneRan(old(ctl.drainPpm), now);
    var reverted := ctl.RevertLastPlan();
  }

  /** The last of some times, or where they started from. */
  function EndOf(from: real, times: seq<real>): real {
    if times == [] then from else times[|times| - 1]
  }

  /** What is left of a budget after a drain of that rate ran for so long. */
  lemma LeftAfter(budget: real, ppm: real, planned: real, a: real, b: real)
    requires planned <= a <= b
    ensures LeftOf(Max(budget - Ran(Abs(ppm), planned, a), 0.0), Ran(ppm, a, b))
            == Max(budget - Ran(Abs(ppm), planned, b), 0.0)
  {
    RanSize(ppm, a, b);
    RanAdds(Abs(ppm), planned, a, b);
    if ppm != 0.0 {
      RanGrows(Abs(ppm), a, b);
    }
  }

  /** Book a running drain at one time after another, as polls of other sources do. */
  method BookAt(ctl: MultiController, ghost budget: real, planned: real, times: seq<real>)
    requires ctl.Valid() && ctl.lastPlan == ctl.bookedUntil == Some(planned)
    requires budget >= 0.0 && ctl.drainRemaining == budget
    requires forall i | 0 <= i < |times| :: (if i == 0 then planned else times[i - 1]) <= times[i]
    modifies ctl`drainRemaining, ctl`bookedUntil, ctl`clock, ctl`beforePlan, ctl.registers
    ensures ctl.Valid() && ctl.bookedUntil == Some(EndOf(planned, times)) && planned <= EndOf(planned, times)
    ensures ctl.clock == RunOn(old(ctl.clock), ctl.drainPpm, EndOf(planned, times))
    ensures ctl.drainRemaining == Max(budget - Ran(Abs(ctl.drainPpm), planned, EndOf(planned, times)), 0.0)
  {
    ghost var c := ctl.clock;
    for i := 0 to |times|
      invariant ctl.Valid() && ctl.bookedUntil == Some(EndOf(planned, times[..i]))
                && planned <= EndOf(planned, times[..i])
      invariant ctl.clock == RunOn(c, ctl.drainPpm, EndOf(planned, times[..i]))
      invariant ctl.drainRemaining == Max(budget - Ran(Abs(ctl.drainPpm), planned, EndOf(planned, times[..i])), 0.0)
    {
      assert EndOf(planned, times[..i]) == (if i == 0 then planned else times[i - 1]) <= times[i];
      LeftAfter(budget, ctl.drainPpm, planned, EndOf(planned, times[..i]), times[i]);
      RunOnTwice(c, ctl.drainPpm, EndOf(planned, times[..i]), times[i]);
      ctl.SettleDrain(times[i]);
    }
    assert times[..|times|] == times;
  }

  /** What the clock received since `c`, beyond what its frequency gave it. */
  function Beyond(c: Clock, later: Clock): real {
    later.received - c.received - Rate(later.freqPpm) * (later.asOf - c.asOf)
  }

  /** A drain at its rate has something left of its offset after so long. */
  predicate Unspent(c: DisciplinePolicy.ClockCommand, elapsed: real) {
    c.Slew? && c.drainRatePpm != 0.0 && Abs(c.drainRatePpm) * 0.000001 * elapsed < Abs(c.drainOffset)
  }

  /** Between nothing and all of `offset`, on its side. */
  predicate PartOf(delivered: real, offset: real) {
    0.0 <= delivered <= offset || offset <= delivered <= 0.0
  }

  lemma BeyondRan(c: Clock, freqPpm: real, step: real, drainPpm: real, at: real)
    ensures Beyond(c, RunOn(Commanded(c, freqPpm, step), drainPpm, at)) == step + Ran(drainPpm, c.asOf, at)
  {
  }

  /** A drain has the sign of its offset. */
  lemma SignedRan(c: DisciplinePolicy.ClockCommand, a: real, b: real)
    requires c.Slew? && a <= b
    ensures var size := Ran(Abs(c.drainRatePpm), a, b);
            size >= 0.0 && Ran(DrainRate(c), a, b) == if c.drainOffset < 0.0 then -size else size
  {
    RanNegates(Abs(c.drainRatePpm), a, b);
    if c.drainRatePpm != 0.0 {
      RanGrows(Abs(c.drainRatePpm), a, b);
    }
  }

  lemma RanNegates(ppm: real, a: real, b: real)
    ensures Ran(-ppm, a, b) == -Ran(ppm, a, b)
  {
  }

  /** A drain booked up to `booked` and retired when due, from the fields of its command. */
  lemma DrainMeans(command: DisciplinePolicy.ClockCommand, c: Clock, freqPpm: real, planned: real, booked: real,
                   left: real)
    requires c.asOf == planned <= booked
    requires left == Max(DrainBudget(command) - Ran(Abs(DrainRate(command)), planned, booked), 0.0)
    ensures var end := DrainEnd(Some(planned), DrainRate(command), left);
            && (end.Some? <==> Unspent(command, booked - planned))
            && (end.Some? ==>
                  var now := Max(end.value, booked);
                  var delivered := Beyond(c, RunOn(Commanded(c, freqPpm, StepOf(command)), DrainRate(command), now));
                  PartOf(delivered, command.drainOffset) && (delivered == command.drainOffset <==> booked == planned))
  {
    var end := DrainEnd(Some(planned), DrainRate(command), left);
    if end.Some? {
      var now, ppm := Max(end.value, booked), Abs(command.drainRatePpm);
      assert Abs(DrainRate(command)) == ppm;
      DrainDelivers(Abs(command.drainOffset), ppm, planned, booked, left, now);
      SignedRan(command, planned, now);
      BeyondRan(c, freqPpm, 0.0, DrainRate(command), now);
    }
  }

  /**
   A whole drain: planned at `planned`, booked at any number of later times, and retired by
   the first poll that finds it due. What it delivers goes the way of the offset planned; it
   is the whole of it if and only if none of the bookings came later than the plan, and
   less otherwise; one that was spent before its last booking is never retired at all.
   */
  method RunDrain(ctl: MultiController, e: DisciplinePolicy.Input, planned: real, times: seq<real>)
    returns (plan: DisciplinePolicy.Plan, at: Option<real>)
    requires ctl.Valid() && ctl.clock.asOf <= planned
    requires forall i | 0 <= i < |times| :: (if i == 0 then planned else times[i - 1]) <= times[i]
    modifies ctl, ctl.discipline, ctl.registers
    ensures ctl.Valid()
    ensures var c, booked := plan.command, EndOf(planned, times);
            && (at.Some? <==> Unspent(c, booked - planned))
            && (at.Some? ==>
                  && ctl.drainPpm == 0.0 && ctl.lastPlan == at && ctl.clock.asOf == at.value
                  && planned <= booked <= at.value && ctl.clock.freqPpm == ctl.freqCmdPpm
                  && var delivered := Beyond(RunOn(old(ctl.clock), old(ctl.drainPpm), planned), ctl.clock);
                     PartOf(delivered, c.drainOffset) && (delivered == c.drainOffset <==> booked == planned))
  {
    hide AllBooked, SlewedSamples, DrainRate, DrainBudget, StepOf, DisciplinePolicy.Decide, Ran, RunOn, Commanded,
         Beyond, PartOf, Unspent, DrainEnd, LeftOf;
    plan := ctl.Steer(e, planned);
    ghost var c, ppm, budget := ctl.clock, ctl.drainPpm, ctl.drainRemaining;
    ghost var before := RunOn(old(ctl.clock), old(ctl.drainPpm), planned);
    BookAt(ctl, budget, planned, times);
    ghost var booked := EndOf(planned, times);
    DrainMeans(plan.command, before, ctl.freqCmdPpm, planned, booked, ctl.drainRemaining);
    var due := ctl.DrainCompletesAt();
    if due.None? {
      return plan, None;
    }
    var now := Max(due.value, ctl.bookedUntil.value);
    RunOnTwice(c, ppm, booked, now);
    var command := ctl.PollDrain(now);
    at := Some(now);
  }
}
