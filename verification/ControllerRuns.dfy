/** Any number of measurements, plans and polls on one clock. */
module ControllerRuns {
  import opened Wrappers
  import opened Reals
  import opened RegressionSlew
  import opened SampleRegister
  import opened LineFit
  import opened Ledger
  import opened Controller
  import DisciplineMeaning
  import DisciplinePolicy

  // ----- what a plan does to the clock -----

  /** The clock gains what a command says, on the side it says, by its fields alone. */
  ghost predicate Obeys(c: DisciplinePolicy.ClockCommand, delivered: real, elapsed: real) {
    match c
    case Step(add) => delivered == add
    case Slew(_, offset, ratePpm) =>
      && delivered == (if offset < 0.0 then -ratePpm else ratePpm) * 0.000001 * elapsed
      && (ratePpm > 0.0 && elapsed == DisciplineMeaning.Lasts(offset, ratePpm) ==> delivered == offset)
  }

  lemma CommandObeyed(c: DisciplinePolicy.ClockCommand, start: Clock, freqPpm: real, later: real)
    requires start.asOf <= later && (c.Slew? ==> c.drainRatePpm >= 0.0)
    ensures Obeys(c, Beyond(start, RunOn(Commanded(start, freqPpm, StepOf(c)), DrainRate(c), later)),
                  later - start.asOf)
    ensures Beyond(start, RunOn(Commanded(start, freqPpm, StepOf(c)), DrainRate(c), later))
            == StepOf(c) + Ran(DrainRate(c), start.asOf, later)
    ensures StepOf(c) == (if c.Step? then c.add else 0.0) && (c.Step? ==> DrainRate(c) == 0.0)
  {
    BeyondRan(start, freqPpm, StepOf(c), DrainRate(c), later);
    if c.Slew? {
      SignedRan(c, start.asOf, later);
      if c.drainRatePpm > 0.0 {
        RanSpends(c.drainRatePpm, start.asOf, Abs(c.drainOffset));
      }
    } else {
      RanNothing(0.0, start.asOf, later);
    }
  }

  lemma OffsetGone(c: DisciplinePolicy.ClockCommand, offset: real, delivered: real, elapsed: real)
    requires Obeys(c, delivered, elapsed) && DisciplineMeaning.OffsetLeft(offset, c) == 0.0
    requires c.Slew? ==> c.drainRatePpm > 0.0 && elapsed == DisciplineMeaning.Lasts(c.drainOffset, c.drainRatePpm)
    ensures delivered == offset
  {
  }

  /**
   Steer, and look again later: the clock gained exactly what the fields of the command
   say, a step at once, a drain by its share of the time and with the sign of its offset,
   and it runs at the frequency commanded; every stored sample moved by as much. Of an
   estimate that was accepted nothing is left after the step, or when the drain has run
   for as long as its offset takes.
   */
  method SteerAndSettle(ctl: MultiController, e: DisciplinePolicy.Input, now: real, later: real)
    returns (plan: DisciplinePolicy.Plan)
    requires ctl.Valid() && ctl.clock.asOf <= now <= later
    modifies ctl, ctl.discipline, ctl.registers
    ensures ctl.Valid()
    ensures ctl.clock.asOf == later && ctl.clock.freqPpm == ctl.freqCmdPpm
    ensures plan.command.Slew? ==> ctl.freqCmdPpm == plan.command.freqPpm
    ensures plan.command.Step? ==> ctl.drainPpm == 0.0
    ensures var delivered := Beyond(RunOn(old(ctl.clock), old(ctl.drainPpm), now), ctl.clock);
            var step := if plan.command.Step? then plan.command.add else 0.0;
            && Obeys(plan.command, delivered, later - now)
            && (plan.verdict.Accepted? && (plan.command.Slew? ==>
                    && plan.command.drainRatePpm > 0.0
                    && later - now == DisciplineMeaning.Lasts(plan.command.drainOffset, plan.command.drainRatePpm)) ==>
                  delivered == e.offset)
            && forall i | 0 <= i < |ctl.registers| ::
                 ctl.registers[i].history
                 == SlewedSamples(
                   SlewedSamples(old(ctl.registers[i].history),
                                 Correction(now, Rate(ctl.freqCmdPpm - old(ctl.freqCmdPpm)), step)),
                   Correction(later, 0.0, delivered - step))
  {
    hide SlewedSamples, Ran, Rate, RunOn, Commanded, AllBooked, Beyond, Obeys, DrainRate, StepOf, DrainBudget,
         DisciplinePolicy.Decide, LeftOf, DisciplineMeaning.Lasts, DisciplineMeaning.OffsetLeft;
    ghost var s := ctl.discipline.Now();
    ghost var start := RunOn(ctl.clock, ctl.drainPpm, now);
    DisciplineMeaning.DecideCorrects(ctl.discipline.cfg, s, e);
    plan := ctl.Steer(e, now);
    ghost var freqPpm := ctl.freqCmdPpm;
    CommandObeyed(plan.command, start, freqPpm, later);
    ctl.SettleDrain(later);
    ghost var delivered := Beyond(start, ctl.clock);
    if plan.verdict.Accepted? && (plan.command.Slew? ==>
         plan.command.drainRatePpm > 0.0
         && later - now == DisciplineMeaning.Lasts(plan.command.drainOffset, plan.command.drainRatePpm)) {
      OffsetGone(plan.command, e.offset, delivered, later - now);
    }
  }

  // ----- runs -----

  /**
   What the daemon asks of the controller: to retire a drain, to record an exchange, or to
   record one and steer by it, with a clock that takes the plan or refuses it.
   */
  datatype Event =
    | Poll(now: real)
    | Measured(now: real, index: nat, sample: Sample)
    | Steered(now: real, index: nat, sample: Sample, leapPending: bool, accepted: bool)

  /** The exchange took place between the event before and this one. */
  predicate Timely(e: Event, since: real) {
    since <= e.now && (e.Poll? || since <= e.sample.t <= e.now)
  }

  /** The time of the event before the `k`th. */
  function Before(events: seq<Event>, since: real, k: nat): real
    requires k <= |events|
  {
    if k == 0 then since else events[k - 1].now
  }

  /** Nothing ran between the stamp on the sample and now. */
  predicate Undrained(e: Event, drainPpm: real) {
    e.Poll? || drainPpm == 0.0 || e.sample.t == e.now
  }

  /** The drain that runs after some commands reached the clock. */
  function DrainAfter(drainPpm: real, commands: seq<Option<DisciplinePolicy.ClockCommand>>): real {
    if commands == [] then drainPpm
    else
      var last := commands[|commands| - 1];
      if last.Some? then DrainRate(last.value) else DrainAfter(drainPpm, commands[..|commands| - 1])
  }

  /** No sample was stored while a drain ran that had gone on since the time on its stamp. */
  ghost predicate AllUndrained(events: seq<Event>, drainPpm: real, commands: seq<Option<DisciplinePolicy.ClockCommand>>)
    requires |commands| <= |events|
  {
    forall i | 0 <= i < |commands| :: Undrained(events[i], DrainAfter(drainPpm, commands[..i]))
  }

  lemma NoneYet(events: seq<Event>, drainPpm: real)
    ensures AllUndrained(events, drainPpm, []) && DrainAfter(drainPpm, []) == drainPpm
  {
  }

  lemma OneMore(events: seq<Event>, drainPpm: real, commands: seq<Option<DisciplinePolicy.ClockCommand>>,
                command: Option<DisciplinePolicy.ClockCommand>)
    requires |commands| < |events|
    ensures AllUndrained(events, drainPpm, commands + [command])
            <==> AllUndrained(events, drainPpm, commands)
                 && Undrained(events[|commands|], DrainAfter(drainPpm, commands))
    ensures DrainAfter(drainPpm, commands + [command])
            == if command.Some? then DrainRate(command.value) else DrainAfter(drainPpm, commands)
  {
    hide DrainRate, Undrained;
    var k, more := |commands|, commands + [command];
    assert more[..k] == commands;
    assert forall i | 0 <= i < k :: more[..i] == commands[..i];
  }

  /** No stored sample is younger than `t`. */
  ghost predicate AllFollow(ctl: MultiController, t: real)
    reads ctl.registers
  {
    forall i | 0 <= i < |ctl.registers| :: Follows(ctl.registers[i].history, t)
  }

  lemma FollowsSlewed(h: seq<Sample>, c: Correction, t: real)
    ensures Follows(SlewedSamples(h, c), t) <==> Follows(h, t)
  {
    SlewKeepsTimes(h, c);
  }

  /** Record one exchange. */
  method Measure(ctl: MultiController, index: nat, now: real, sample: Sample) returns (v: SourceView)
    requires ctl.Valid() && ctl.clock.asOf <= now && index < |ctl.registers|
    requires AllFollow(ctl, sample.t) && sample.t <= now
    modifies ctl`drainRemaining, ctl`bookedUntil, ctl`clock, ctl`beforePlan, ctl`entries, ctl.registers
    ensures ctl.Valid() && ctl.clock.asOf == now && AllFollow(ctl, now)
    ensures ctl.Books() <==> old(ctl.Books()) && (ctl.drainPpm == 0.0 || sample.t == now)
  {
    hide SlewedSamples, Ran, Views, AllBooked;
    ghost var c := Correction(now, 0.0, Ran(ctl.drainPpm, ctl.clock.asOf, now));
    v := ctl.Observe(index, now, sample);
    forall i | 0 <= i < |ctl.registers|
      ensures Follows(ctl.registers[i].history, now)
    {
      FollowsSlewed(old(ctl.registers[i].history), c, now);
    }
  }

  /** Steer at the time of the last booking, with a clock that takes the plan or refuses it. */
  method Offer(ctl: MultiController, input: DisciplinePolicy.Input, now: real, accepted: bool)
    returns (command: Option<DisciplinePolicy.ClockCommand>)
    requires ctl.Valid() && ctl.clock.asOf == now && AllFollow(ctl, now)
    modifies ctl, ctl.discipline, ctl.registers
    ensures ctl.Valid() && ctl.clock.asOf == now && AllFollow(ctl, now)
    ensures ctl.drainPpm == if command.Some? then DrainRate(command.value) else old(ctl.drainPpm)
    ensures ctl.Books() <==> old(ctl.Books())
  {
    hide SlewedSamples, Ran, Rate, AllBooked, Follows, DrainRate, StepOf;
    if !accepted {
      SteerRefused(ctl, input, now);
      return None;
    }
    ghost var freqPpm := ctl.freqCmdPpm;
    var plan := ctl.Steer(input, now);
    forall i | 0 <= i < |ctl.registers|
      ensures Follows(ctl.registers[i].history, now)
    {
      FollowsSlewed(old(ctl.registers[i].history),
                    Correction(now, Rate(ctl.freqCmdPpm - freqPpm), StepOf(plan.command)), now);
    }
    ctl.ConfirmLastPlan();
    return Some(plan.command);
  }

  /** Retire the drain if it is due. */
  method Retire(ctl: MultiController, now: real) returns (command: Option<DisciplinePolicy.ClockCommand>)
    requires ctl.Valid() && ctl.clock.asOf <= now && AllFollow(ctl, now)
    modifies ctl, ctl.registers
    ensures ctl.Valid() && ctl.clock.asOf <= now && AllFollow(ctl, now)
    ensures ctl.drainPpm == if command.Some? then DrainRate(command.value) else old(ctl.drainPpm)
    ensures ctl.Books() <==> old(ctl.Books())
  {
    hide SlewedSamples, Ran, AllBooked;
    ghost var c := Correction(now, 0.0, Ran(ctl.drainPpm, ctl.clock.asOf, now));
    command := ctl.PollDrain(now);
    forall i | 0 <= i < |ctl.registers|
      ensures Follows(ctl.registers[i].history, now)
    {
      FollowsSlewed(old(ctl.registers[i].history), c, now);
    }
  }

  /** One event, and the command that reached the clock. */
  method Handle(ctl: MultiController, e: Event, since: real, sqrt: real -> real)
    returns (command: Option<DisciplinePolicy.ClockCommand>)
    requires ctl.Valid() && ctl.clock.asOf <= since && AllFollow(ctl, since)
    requires Timely(e, since) && (!e.Poll? ==> e.index < |ctl.registers|)
    modifies ctl, ctl.discipline, ctl.registers
    ensures ctl.Valid() && ctl.clock.asOf <= e.now && AllFollow(ctl, e.now)
    ensures ctl.drainPpm == if command.Some? then DrainRate(command.value) else old(ctl.drainPpm)
    ensures ctl.Books() <==> old(ctl.Books()) && Undrained(e, old(ctl.drainPpm))
  {
    assert AllFollow(ctl, if e.Poll? then e.now else e.sample.t);
    hide AllBooked, AllFollow;
    match e
    case Poll(now) =>
      command := Retire(ctl, now);
    case Measured(now, index, sample) =>
      var v := Measure(ctl, index, now, sample);
      command := None;
    case Steered(now, index, sample, leapPending, accepted) =>
      var v := Measure(ctl, index, now, sample);
      command := Offer(ctl, DisciplinePolicy.Input(v.offset, v.freqPpm, sqrt(v.variance), leapPending), now, accepted);
  }

  /**
   Over any run, the books of every register are right at the end if and only if they were
   at the start and no sample was stored while a drain ran that had gone on since the
   time on its stamp: no plan, no refused plan, no late poll and no other source ever
   breaks them, and nothing mends them.
   */
  method RunClock(ctl: MultiController, events: seq<Event>, since: real, sqrt: real -> real)
    returns (commands: seq<Option<DisciplinePolicy.ClockCommand>>)
    requires ctl.Valid() && ctl.clock.asOf <= since && AllFollow(ctl, since)
    requires forall i | 0 <= i < |events| :: Timely(events[i], Before(events, since, i))
    requires forall e | e in events :: !e.Poll? ==> e.index < |ctl.registers|
    modifies ctl, ctl.discipline, ctl.registers
    ensures ctl.Valid() && |commands| == |events| && ctl.drainPpm == DrainAfter(old(ctl.drainPpm), commands)
    ensures ctl.Books() <==> old(ctl.Books()) && AllUndrained(events, old(ctl.drainPpm), commands)
  {
    hide AllFollow, AllBooked, AllUndrained, Undrained, Timely, DrainAfter;
    NoneYet(events, ctl.drainPpm);
    commands := [];
    var last := since;
    ghost var drainPpm, booked := ctl.drainPpm, ctl.Books();
    for k := 0 to |events|
      invariant ctl.Valid() && |commands| == k && ctl.drainPpm == DrainAfter(drainPpm, commands)
      invariant last == Before(events, since, k) && ctl.clock.asOf <= last && AllFollow(ctl, last)
      invariant ctl.Books() <==> booked && AllUndrained(events, drainPpm, commands)
    {
      assert Timely(events[k], last);
      var command := Handle(ctl, events[k], last, sqrt);
      last := events[k].now;
      OneMore(events, drainPpm, commands, command);
      commands := commands + [command];
    }
  }
}
