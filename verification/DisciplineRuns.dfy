/** What holds over every run of the discipline. */
module DisciplineRuns {
  import opened Wrappers
  import opened Reals
  import opened DisciplinePolicy

  // ----- the burst budget, and the bounds -----

  ghost predicate Bounded(cfg: Config, s: State) {
    && s.burstUsed + s.iburstLeft <= MAX_ACQUIRE_BURST
    && cfg.minPoll <= s.poll && (s.poll <= cfg.maxPoll || s.poll == cfg.minPoll)
    && -cfg.maxFreqPpm <= s.freqPpm <= cfg.maxFreqPpm
    && 0.0 <= s.lastDrainShare <= 1.0
  }

  /** How far a command moves the clock, now or by the end of its drain. */
  function Move(c: ClockCommand): real {
    match c
    case Step(add) => Abs(add)
    case Slew(_, drain, _) => Abs(drain)
  }

  lemma QuotientBounds(a: real, b: real, c: real)
    requires a >= 0.0 && b > 0.0 && c >= 0.0
    ensures a / b * c >= 0.0
  {
    assert a / b >= 0.0;
  }

  lemma ProductBounds(a: real, b: real)
    requires a >= 0.0 && b >= 0.0
    ensures a * b >= 0.0
  {
  }

  lemma ShareBounds(rate: real, ceiling: real)
    requires 0.0 <= rate <= ceiling && ceiling > 0.0
    ensures 0.0 <= rate / ceiling <= 1.0
  {
    var q := rate / ceiling;
    assert q * ceiling == rate;
    if q > 1.0 {
      Stretch(q, ceiling);
    }
  }

  lemma Stretch(q: real, c: real)
    requires q > 1.0 && c > 0.0
    ensures q * c > c
  {
    assert (q - 1.0) * c > 0.0;
  }

  lemma DrainRateBounds(cfg: Config, s: State, e: Input)
    requires Sane(cfg)
    ensures 0.0 <= DrainRate(cfg, s, e) <= cfg.maxSlewPpm
  {
    QuotientBounds(Abs(e.offset), PeekPoll(s), 1000000.0);
    ProductBounds(cfg.maxSlewPpm, AcquireShare(e.offset, Noise(e)));
    QuotientBounds(Abs(e.offset), CorrectionTime(cfg, PeekPoll(s)), 1000000.0);
  }

  lemma DecideKeepsBounds(cfg: Config, s: State, e: Input)
    requires Sane(cfg) && Bounded(cfg, s)
    ensures Bounded(cfg, Decide(cfg, s, e).0)
    ensures var c := Decide(cfg, s, e).1.command;
            c.Slew? ==> -cfg.maxFreqPpm <= c.freqPpm <= cfg.maxFreqPpm && 0.0 <= c.drainRatePpm <= cfg.maxSlewPpm
  {
    hide DrainRate, PeekPoll;
    var s1 := s.(updates := s.updates + 1);
    var s2 := Extended(cfg, Adapted(cfg, Tuned(cfg, s1.(changeRefusals := 0), e), e), e);
    DrainRateBounds(cfg, s2, e);
    if cfg.maxSlewPpm > 0.0 {
      ShareBounds(DrainRate(cfg, s2, e), cfg.maxSlewPpm);
    }
  }

  /** In every run poll, frequency, drain rate and burst budget stay within bounds. */
  lemma {:induction false} RunKeepsBounds(cfg: Config, inputs: seq<Input>)
    requires Sane(cfg)
    ensures Bounded(cfg, After(cfg, Initial(cfg), inputs))
    ensures forall k | 0 <= k < |inputs| ::
              var c := Plans(cfg, Initial(cfg), inputs)[k].command;
              c.Slew? ==> -cfg.maxFreqPpm <= c.freqPpm <= cfg.maxFreqPpm && 0.0 <= c.drainRatePpm <= cfg.maxSlewPpm
  {
    hide Decide;
    if inputs != [] {
      var earlier := inputs[..|inputs| - 1];
      RunKeepsBounds(cfg, earlier);
      DecideKeepsBounds(cfg, After(cfg, Initial(cfg), earlier), inputs[|inputs| - 1]);
    }
  }

  /** The plans that asked for the burst spacing. */
  function BurstPlans(plans: seq<Plan>): (n: nat) {
    if plans == [] then 0
    else BurstPlans(plans[..|plans| - 1]) + (if plans[|plans| - 1].nextPoll == IBURST_SPACING then 1 else 0)
  }

  lemma {:induction false} LongPolls(k: int)
    requires k >= 2
    ensures Pow2(k) >= 4.0
  {
    if k == 2 {
      assert Pow2(2) == 2.0 * Pow2(1) && Pow2(1) == 2.0 * Pow2(0);
    } else {
      LongPolls(k - 1);
    }
  }

  /** The plans that are not spaced by the poll interval they leave behind. */
  function OffBeat(cfg: Config, inputs: seq<Input>): (n: nat)
    requires Sane(cfg)
  {
    if inputs == [] then 0
    else
      var earlier := inputs[..|inputs| - 1];
      var (s, plan) := Decide(cfg, After(cfg, Initial(cfg), earlier), inputs[|inputs| - 1]);
      OffBeat(cfg, earlier) + (if plan.nextPoll != Pow2(s.poll) then 1 else 0)
  }

  lemma DecideLeavesBeat(cfg: Config, s: State, e: Input)
    requires Sane(cfg)
    ensures var (s', plan) := Decide(cfg, s, e);
            plan.nextPoll == Pow2(s'.poll) || (plan.nextPoll == IBURST_SPACING && s'.burstUsed == s.burstUsed + 1)
    ensures Decide(cfg, s, e).0.burstUsed >= s.burstUsed
  {
  }

  /** Whatever the configuration, at most sixteen plans of a run, however long, leave the poll interval for a burst. */
  lemma {:induction false} OffBeatIsBounded(cfg: Config, inputs: seq<Input>)
    requires Sane(cfg)
    ensures OffBeat(cfg, inputs) <= After(cfg, Initial(cfg), inputs).burstUsed <= MAX_ACQUIRE_BURST
  {
    hide Decide;
    RunKeepsBounds(cfg, inputs);
    if inputs != [] {
      var earlier := inputs[..|inputs| - 1];
      OffBeatIsBounded(cfg, earlier);
      DecideLeavesBeat(cfg, After(cfg, Initial(cfg), earlier), inputs[|inputs| - 1]);
    }
  }

  /** The plans that take no burst slot and yet are spaced like one, because the poll is as short. */
  function ShortBeats(cfg: Config, inputs: seq<Input>): (n: nat)
    requires Sane(cfg)
  {
    if inputs == [] then 0
    else
      var before := After(cfg, Initial(cfg), inputs[..|inputs| - 1]);
      var after := Decide(cfg, before, inputs[|inputs| - 1]).0;
      ShortBeats(cfg, inputs[..|inputs| - 1])
      + (if after.burstUsed == before.burstUsed && Pow2(after.poll) == IBURST_SPACING then 1 else 0)
  }

  lemma DecideCountsBurst(cfg: Config, s: State, e: Input)
    requires Sane(cfg)
    ensures var (s', plan) := Decide(cfg, s, e);
            plan.nextPoll == IBURST_SPACING <==> s'.burstUsed == s.burstUsed + 1 || Pow2(s'.poll) == IBURST_SPACING
    ensures s.burstUsed <= Decide(cfg, s, e).0.burstUsed <= s.burstUsed + 1
  {
  }

  /**
   Exactly the burst slots used, and the plans whose poll is as short as a burst's, are
   spaced as a burst; where the shortest poll is longer, there are none of these.
   */
  lemma {:induction false} BurstIsBounded(cfg: Config, inputs: seq<Input>)
    requires Sane(cfg)
    ensures BurstPlans(Plans(cfg, Initial(cfg), inputs))
            == After(cfg, Initial(cfg), inputs).burstUsed + ShortBeats(cfg, inputs)
    ensures After(cfg, Initial(cfg), inputs).burstUsed <= MAX_ACQUIRE_BURST
    ensures cfg.minPoll >= 2 ==> ShortBeats(cfg, inputs) == 0
  {
    hide Decide;
    RunKeepsBounds(cfg, inputs);
    if inputs != [] {
      var earlier, last := inputs[..|inputs| - 1], inputs[|inputs| - 1];
      BurstIsBounded(cfg, earlier);
      DecideCountsBurst(cfg, After(cfg, Initial(cfg), earlier), last);
      var plans := Plans(cfg, Initial(cfg), inputs);
      assert plans[..|plans| - 1] == Plans(cfg, Initial(cfg), earlier);
      if cfg.minPoll >= 2 {
        LongPolls(After(cfg, Initial(cfg), inputs).poll);
      }
    }
  }

  // ----- the change guard -----

  lemma DecideCountsUpdate(cfg: Config, s: State, e: Input)
    requires Sane(cfg)
    ensures Decide(cfg, s, e).0.updates == s.updates + 1
  {
  }

  lemma {:induction false} UpdatesCount(cfg: Config, inputs: seq<Input>)
    requires Sane(cfg)
    ensures After(cfg, Initial(cfg), inputs).updates == |inputs|
  {
    hide Decide;
    if inputs != [] {
      var earlier := inputs[..|inputs| - 1];
      UpdatesCount(cfg, earlier);
      DecideCountsUpdate(cfg, After(cfg, Initial(cfg), earlier), inputs[|inputs| - 1]);
    }
  }

  lemma {:induction false} PlanAt(cfg: Config, inputs: seq<Input>, k: nat)
    requires Sane(cfg) && k < |inputs|
    ensures Plans(cfg, Initial(cfg), inputs)[k] == Decide(cfg, After(cfg, Initial(cfg), inputs[..k]), inputs[k]).1
  {
    var n := |inputs| - 1;
    if k < n {
      PlanAt(cfg, inputs[..n], k);
      assert inputs[..n][..k] == inputs[..k];
    }
  }

  /**
   With a limit configured, every command after the first `maxChangeStart` moves the
   clock by no more than the limit, or by no more than two seconds for a leap that was
   announced; a refused one moves nothing.
   */
  lemma GuardHolds(cfg: Config, inputs: seq<Input>, k: nat)
    requires Sane(cfg) && cfg.maxChange.Some? && cfg.maxChange.value >= 0.0
    requires cfg.maxChangeStart <= k < |inputs|
    ensures var plan := Plans(cfg, Initial(cfg), inputs)[k];
            && (Move(plan.command) <= cfg.maxChange.value
                || (inputs[k].leapPending && !cfg.leapMode.LeapIgnore? && Move(plan.command) <= LEAP_EXEMPTION))
            && (!plan.verdict.Accepted? ==>
                  plan.command == Slew(After(cfg, Initial(cfg), inputs[..k]).freqPpm, 0.0, 0.0))
  {
    PlanAt(cfg, inputs, k);
    UpdatesCount(cfg, inputs[..k]);
  }

  /** How many plans at the end were refused in a row. */
  function RefusedInARow(plans: seq<Plan>): nat {
    if plans == [] || plans[|plans| - 1].verdict.Accepted? then 0
    else 1 + RefusedInARow(plans[..|plans| - 1])
  }

  lemma DecideCountsRefusals(cfg: Config, s: State, e: Input)
    requires Sane(cfg)
    ensures var (s', plan) := Decide(cfg, s, e);
            s'.changeRefusals == if plan.verdict.Accepted? then 0 else SaturatingSucc(s.changeRefusals)
  {
  }

  lemma {:induction false} RefusalsCount(cfg: Config, inputs: seq<Input>)
    requires Sane(cfg)
    ensures var n := RefusedInARow(Plans(cfg, Initial(cfg), inputs));
            After(cfg, Initial(cfg), inputs).changeRefusals == if n < SATURATED then n else SATURATED
  {
    hide Decide;
    if inputs != [] {
      var earlier := inputs[..|inputs| - 1];
      RefusalsCount(cfg, earlier);
      DecideCountsRefusals(cfg, After(cfg, Initial(cfg), earlier), inputs[|inputs| - 1]);
      var plans := Plans(cfg, Initial(cfg), inputs);
      assert plans[..|plans| - 1] == Plans(cfg, Initial(cfg), earlier);
    }
  }

  lemma DecideGivesUp(cfg: Config, s: State, e: Input)
    requires Sane(cfg)
    ensures var (s', plan) := Decide(cfg, s, e);
            plan.verdict.GiveUp? <==> !plan.verdict.Accepted? && Spent(cfg, s'.changeRefusals)
  {
  }

  /** The daemon gives up exactly when the refusals in a row exceed an allowance that is not negative. */
  lemma GivesUpExactly(cfg: Config, inputs: seq<Input>)
    requires Sane(cfg) && inputs != []
    ensures var plans := Plans(cfg, Initial(cfg), inputs);
            plans[|plans| - 1].verdict.GiveUp?
            <==> cfg.maxChangeIgnore >= 0 && RefusedInARow(plans) > cfg.maxChangeIgnore
  {
    hide Decide;
    var earlier := inputs[..|inputs| - 1];
    RefusalsCount(cfg, inputs);
    DecideGivesUp(cfg, After(cfg, Initial(cfg), earlier), inputs[|inputs| - 1]);
    var plans := Plans(cfg, Initial(cfg), inputs);
    assert plans[|plans| - 1] == Decide(cfg, After(cfg, Initial(cfg), earlier), inputs[|inputs| - 1]).1;
  }
}
