/** What the last plan of any run does to the clock, told from the estimates and the plans themselves. */
module DisciplineMeaning {
  import opened Wrappers
  import opened Reals
  import opened DisciplinePolicy
  import opened DisciplineRuns

  /** The last plan of a run that is not empty. */
  function LastPlan(cfg: Config, inputs: seq<Input>): Plan
    requires Sane(cfg) && inputs != []
  {
    Plans(cfg, Initial(cfg), inputs)[|inputs| - 1]
  }

  function StateAfter(cfg: Config, inputs: seq<Input>): State
    requires Sane(cfg)
  {
    After(cfg, Initial(cfg), inputs)
  }

  function Earlier<T>(s: seq<T>): seq<T>
    requires s != []
  {
    s[..|s| - 1]
  }

  function Latest<T>(s: seq<T>): T
    requires s != []
  {
    s[|s| - 1]
  }

  lemma LastStep(cfg: Config, inputs: seq<Input>)
    requires Sane(cfg) && inputs != []
    ensures (StateAfter(cfg, inputs), LastPlan(cfg, inputs))
            == Decide(cfg, StateAfter(cfg, Earlier(inputs)), Latest(inputs))
    ensures StateAfter(cfg, Earlier(inputs)).updates == |inputs| - 1
    ensures Plans(cfg, Initial(cfg), Earlier(inputs)) == Earlier(Plans(cfg, Initial(cfg), inputs))
  {
    hide Decide;
    UpdatesCount(cfg, Earlier(inputs));
  }

  // ----- direction, steps and refusals -----

  /** What is left of an offset once a command has done what it says: a step at once, a drain by its end. */
  function OffsetLeft(offset: real, c: ClockCommand): real {
    match c
    case Step(add) => offset - add
    case Slew(_, drainOffset, _) => offset - drainOffset
  }

  /** An offset taken for the leap second that was announced. */
  predicate TakenForLeap(cfg: Config, e: Input) {
    e.leapPending && cfg.leapMode != LeapIgnore && -2.0 <= e.offset <= 2.0
  }

  predicate BeyondLimit(limit: Option<real>, offset: real) {
    limit.Some? && (offset > limit.value || -offset > limit.value)
  }

  /** The `n`th estimate is not to be followed. */
  predicate Forbidden(cfg: Config, n: nat, e: Input) {
    BeyondLimit(cfg.maxChange, e.offset) && n > cfg.maxChangeStart && !TakenForLeap(cfg, e)
  }

  /** The `n`th estimate is one to step by. */
  predicate Steps(cfg: Config, n: nat, e: Input) {
    || (TakenForLeap(cfg, e) && cfg.leapMode == LeapStep)
    || (!Forbidden(cfg, n, e) && BeyondLimit(cfg.makestepThreshold, e.offset) && n <= cfg.makestepLimit)
  }

  /** One decision, from any state. */
  lemma DecideCorrects(cfg: Config, s: State, e: Input)
    requires Sane(cfg)
    ensures var (s', plan) := Decide(cfg, s, e);
            && (plan.verdict.Accepted? ==> OffsetLeft(e.offset, plan.command) == 0.0)
            && (!plan.verdict.Accepted? ==> OffsetLeft(0.0, plan.command) == 0.0)
            && (if plan.command.Slew? then plan.command.freqPpm == s'.freqPpm else s'.freqPpm == s.freqPpm)
            && (plan.command.Slew? ==> plan.command.drainRatePpm >= 0.0)
  {
    hide Adapted, Extended, Tuned, DrainRate;
    var tuned := Tuned(cfg, s.(updates := s.updates + 1, changeRefusals := 0), e);
    DrainRateBounds(cfg, Extended(cfg, Adapted(cfg, tuned, e), e), e);
  }

  /**
   A plan is refused if and only if its offset is beyond the limit, late, and no announced
   leap; it steps if and only if the offset is an announced leap to step, or beyond the
   threshold while steps are allowed. An accepted plan leaves nothing of the offset it was
   given; a refused one moves nothing and names the offset.
   */
  lemma PlanCorrects(cfg: Config, inputs: seq<Input>)
    requires Sane(cfg) && inputs != []
    ensures var e, plan := Latest(inputs), LastPlan(cfg, inputs);
            && (plan.verdict.Accepted? <==> !Forbidden(cfg, |inputs|, e))
            && (plan.command.Step? <==> Steps(cfg, |inputs|, e)) && (plan.resetRegister <==> plan.command.Step?)
            && (plan.verdict.Accepted? ==> OffsetLeft(e.offset, plan.command) == 0.0)
            && (!plan.verdict.Accepted? ==>
                  && plan.verdict.offset == e.offset
                  && OffsetLeft(0.0, plan.command) == 0.0 == plan.command.drainRatePpm)
  {
    LastStep(cfg, inputs);
  }

  // ----- the frequency -----

  /** The drain rate of the last accepted plan that slewed. */
  function LastRate(plans: seq<Plan>): real {
    if plans == [] then 0.0
    else
      var plan := Latest(plans);
      if plan.verdict.Accepted? && plan.command.Slew? then plan.command.drainRatePpm else LastRate(Earlier(plans))
  }

  lemma {:induction false} ShareIsRate(cfg: Config, inputs: seq<Input>)
    requires Sane(cfg)
    ensures StateAfter(cfg, inputs).lastDrainShare
            == if cfg.maxSlewPpm > 0.0 then LastRate(Plans(cfg, Initial(cfg), inputs)) / cfg.maxSlewPpm else 0.0
    ensures 0.0 <= LastRate(Plans(cfg, Initial(cfg), inputs)) <= cfg.maxSlewPpm
  {
    if inputs != [] {
      ShareIsRate(cfg, Earlier(inputs));
      LastStep(cfg, inputs);
      RunKeepsBounds(cfg, inputs);
      DecideKeepsShare(cfg, StateAfter(cfg, Earlier(inputs)), Latest(inputs));
    }
  }

  lemma DecideKeepsShare(cfg: Config, s: State, e: Input)
    requires Sane(cfg)
    ensures var (s', plan) := Decide(cfg, s, e);
            s'.lastDrainShare
            == if !(plan.verdict.Accepted? && plan.command.Slew?) then s.lastDrainShare
               else if cfg.maxSlewPpm > 0.0 then plan.command.drainRatePpm / cfg.maxSlewPpm else 0.0
  {
    hide DrainRate, Tuned, Adapted, Extended;
  }

  lemma ShareAbove(rate: real, ceiling: real, share: real)
    requires ceiling > 0.0
    ensures rate / ceiling > share <==> rate > share * ceiling
  {
    var q := rate / ceiling;
    assert q * ceiling == rate;
    if q > share {
      Wider(q, share, ceiling);
    } else {
      NotWider(q, share, ceiling);
    }
  }

  lemma Wider(a: real, b: real, c: real)
    requires a > b && c > 0.0
    ensures a * c > b * c
  {
    assert (a - b) * c > 0.0;
  }

  lemma NotWider(a: real, b: real, c: real)
    requires a <= b && c > 0.0
    ensures a * c <= b * c
  {
    assert (b - a) * c >= 0.0;
  }

  /** No error is left of `x`, or what is left lies beyond the bound that `f` stands at. */
  predicate TakesIn(f: real, x: real, bound: real) {
    -bound <= f <= bound && (x - f == 0.0 || (x - f > 0.0 && f == bound) || (x - f < 0.0 && f == -bound))
  }

  /** The frequency error the estimate reports was measured while the clock was not being hauled. */
  predicate Trusted(cfg: Config, plans: seq<Plan>, e: Input) {
    e.freqPpm.Some? && LastRate(plans) <= 0.25 * cfg.maxSlewPpm
  }

  /**
   The plan runs the clock at the frequency of the new state. An accepted slew takes in the
   whole of a trusted error, as far as the bound lets it; nothing else changes the frequency.
   */
  lemma FrequencyFollows(cfg: Config, inputs: seq<Input>)
    requires Sane(cfg) && inputs != []
    ensures var e, plan := Latest(inputs), LastPlan(cfg, inputs);
            var before, after := StateAfter(cfg, Earlier(inputs)).freqPpm, StateAfter(cfg, inputs).freqPpm;
            && (plan.command.Slew? ==> plan.command.freqPpm == after)
            && if plan.verdict.Accepted? && plan.command.Slew?
                  && Trusted(cfg, Plans(cfg, Initial(cfg), Earlier(inputs)), e)
               then TakesIn(after, before + e.freqPpm.value, cfg.maxFreqPpm)
               else after == before
  {
    hide DrainRate;
    LastStep(cfg, inputs);
    ShareIsRate(cfg, Earlier(inputs));
    if cfg.maxSlewPpm > 0.0 {
      ShareAbove(LastRate(Plans(cfg, Initial(cfg), Earlier(inputs))), cfg.maxSlewPpm, 0.25);
    }
  }

  // ----- the poll interval -----

  /** An offset below twice its noise, which is never less than a tenth of a microsecond. */
  predicate Quiet(e: Input) {
    || (-0.0000002 < e.offset < 0.0000002)
    || (-2.0 * e.offsetSd < e.offset < 2.0 * e.offsetSd)
  }

  /** An offset beyond so many times its noise. */
  predicate Loud(cfg: Config, e: Input) {
    var magnitude := Abs(e.offset);
    && !Quiet(e)
    && magnitude > cfg.pollDownNoiseRatio * (if e.offsetSd > 0.0000001 then e.offsetSd else 0.0000001)
  }

  predicate Followed(plan: Plan) {
    plan.verdict.Accepted? && plan.command.Slew?
  }

  function PollAfter(cfg: Config, inputs: seq<Input>): int
    requires Sane(cfg)
  {
    StateAfter(cfg, inputs).poll
  }

  predicate Rose(cfg: Config, inputs: seq<Input>)
    requires Sane(cfg) && inputs != []
  {
    PollAfter(cfg, inputs) > PollAfter(cfg, Earlier(inputs))
  }

  /** How many of the latest estimates in a row were followed and quiet, since the poll last rose. */
  function QuietRun(cfg: Config, inputs: seq<Input>): (n: nat)
    requires Sane(cfg)
  {
    if inputs == [] || !Followed(LastPlan(cfg, inputs)) || !Quiet(Latest(inputs)) || Rose(cfg, inputs) then 0
    else 1 + QuietRun(cfg, Earlier(inputs))
  }

  /** What one decision does to the poll interval and to the count of quiet estimates. */
  lemma DecideAdapts(cfg: Config, s: State, e: Input)
    requires Sane(cfg)
    ensures var (s', plan) := Decide(cfg, s, e);
            var rises := Followed(plan) && Quiet(e) && s.stableStreak + 1 >= cfg.pollUpStreak && s.poll < cfg.maxPoll;
            var falls := Followed(plan) && Loud(cfg, e) && s.poll > cfg.minPoll;
            && s'.poll == (if rises then s.poll + 1 else if falls then s.poll - 1 else s.poll)
            && s'.stableStreak == if Followed(plan) && Quiet(e) && !rises then s.stableStreak + 1 else 0
  {
    hide DrainRate;
  }

  lemma {:induction false} StreakIsQuietRun(cfg: Config, inputs: seq<Input>)
    requires Sane(cfg)
    ensures StateAfter(cfg, inputs).stableStreak == QuietRun(cfg, inputs)
  {
    hide Decide;
    if inputs != [] {
      StreakIsQuietRun(cfg, Earlier(inputs));
      LastStep(cfg, inputs);
      DecideAdapts(cfg, StateAfter(cfg, Earlier(inputs)), Latest(inputs));
    }
  }

  /**
   The poll interval doubles if and only if the estimate is followed and, with those before
   it, makes as many quiet ones as asked for since it last rose, and there is room; it
   halves if and only if the estimate is followed and loud and there is room.
   */
  lemma PollFollows(cfg: Config, inputs: seq<Input>)
    requires Sane(cfg) && inputs != []
    ensures var e, before := Latest(inputs), PollAfter(cfg, Earlier(inputs));
            var followed := Followed(LastPlan(cfg, inputs));
            var rises := followed && Quiet(e) && QuietRun(cfg, Earlier(inputs)) + 1 >= cfg.pollUpStreak
                         && before < cfg.maxPoll;
            var falls := followed && Loud(cfg, e) && before > cfg.minPoll;
            PollAfter(cfg, inputs) == if rises then before + 1 else if falls then before - 1 else before
  {
    hide Decide;
    LastStep(cfg, inputs);
    StreakIsQuietRun(cfg, Earlier(inputs));
    DecideAdapts(cfg, StateAfter(cfg, Earlier(inputs)), Latest(inputs));
  }

  // ----- the burst -----

  /** The plans spaced by a burst slot so far. */
  function SlotsUsed(cfg: Config, inputs: seq<Input>): (n: nat)
    requires Sane(cfg)
  {
    StateAfter(cfg, inputs).burstUsed
  }

  /** A correction worth another measurement soon: above a millisecond, and not quiet. */
  predicate Outstanding(e: Input) {
    Abs(e.offset) > 0.001 && Abs(e.offset) > 2.0 * e.offsetSd
  }

  lemma DecideSpaces(cfg: Config, s: State, e: Input)
    requires Sane(cfg)
    ensures var (s', plan) := Decide(cfg, s, e);
            var slot := s.iburstLeft > 0 || (cfg.iburst && s.burstUsed < 16 && Followed(plan) && Outstanding(e));
            && s'.burstUsed == s.burstUsed + (if slot then 1 else 0)
            && s'.iburstLeft == (if s.iburstLeft > 0 then s.iburstLeft - 1 else 0)
            && plan.nextPoll == if slot then 2.0 else Pow2(s'.poll)
  {
    hide DrainRate;
  }

  lemma {:induction false} BurstStarts(cfg: Config, inputs: seq<Input>)
    requires Sane(cfg)
    ensures StateAfter(cfg, inputs).iburstLeft == if cfg.iburst && |inputs| < 4 then 4 - |inputs| else 0
  {
    hide Decide;
    if inputs != [] {
      BurstStarts(cfg, Earlier(inputs));
      LastStep(cfg, inputs);
      DecideSpaces(cfg, StateAfter(cfg, Earlier(inputs)), Latest(inputs));
    }
  }

  /**
   With the burst on, the first four plans are two seconds apart, and after them up to
   twelve more whose correction is outstanding; every other plan waits the poll interval.
   */
  lemma BurstExactly(cfg: Config, inputs: seq<Input>)
    requires Sane(cfg) && inputs != []
    ensures var plan, used := LastPlan(cfg, inputs), SlotsUsed(cfg, Earlier(inputs));
            var slot := cfg.iburst && (|inputs| <= 4 || (used < 16 && Followed(plan) && Outstanding(Latest(inputs))));
            && plan.nextPoll == (if slot then 2.0 else Pow2(PollAfter(cfg, inputs)))
            && SlotsUsed(cfg, inputs) == used + (if slot then 1 else 0)
  {
    hide Decide;
    LastStep(cfg, inputs);
    BurstStarts(cfg, Earlier(inputs));
    DecideSpaces(cfg, StateAfter(cfg, Earlier(inputs)), Latest(inputs));
  }

  // ----- the rate of a drain -----

  /** How long a drain at `ratePpm` takes over an offset. */
  function Lasts(offset: real, ratePpm: real): real
    requires ratePpm > 0.0
  {
    Abs(offset) / (ratePpm * 0.000001)
  }

  /** How long a correction is to take, other than early on: so many poll intervals, up to a limit, or a fixed time. */
  function CorrectIn(cfg: Config, interval: real): real {
    if cfg.corrTime > 0.0 then cfg.corrTime
    else Min((if cfg.corrTimeRatio > 0.0 then cfg.corrTimeRatio else 1.0) * interval, cfg.corrTimeMax)
  }

  /** An early offset that is far outside its noise: to be corrected by the next measurement. */
  predicate Acquiring(n: nat, e: Input) {
    n <= 8 && Abs(e.offset) > 10.0 * e.offsetSd && Abs(e.offset) > 0.000001
  }

  /** The most an early correction may use of the slew budget: all of it where the offset is beyond doubt. */
  function Ceiling(cfg: Config, n: nat, e: Input): real {
    if !Acquiring(n, e) || (Abs(e.offset) >= 10000.0 * e.offsetSd && Abs(e.offset) >= 0.001) then cfg.maxSlewPpm
    else 0.25 * cfg.maxSlewPpm
  }

  function Deadline(cfg: Config, n: nat, e: Input, interval: real): real {
    if Acquiring(n, e) then interval else CorrectIn(cfg, interval)
  }

  lemma QuotientOf(a: real, b: real, q: real)
    requires b > 0.0
    ensures a / b == q <==> a == q * b
  {
    var x := a / b;
    assert x * b == a;
    if x > q {
      Wider(x, q, b);
    } else if x < q {
      Wider(q, x, b);
    }
  }

  /** A drain at the rate for `time` lasts that long. */
  lemma RateLasts(offset: real, time: real)
    requires offset != 0.0 && time > 0.0
    ensures var rate := Abs(offset) / time * 1000000.0; rate > 0.0 && Lasts(offset, rate) == time
  {
    var a := Abs(offset);
    var q := a / time;
    assert q * time == a;
    if q <= 0.0 {
      NotWider(q, 0.0, time);
    }
    assert q * 1000000.0 * 0.000001 == q;
    QuotientOf(a, q, time);
  }

  /** A slower drain lasts longer. */
  lemma SlowerLasts(offset: real, rate: real, faster: real)
    requires offset != 0.0 && 0.0 < rate < faster
    ensures Lasts(offset, rate) > Lasts(offset, faster)
  {
    var a, x, y := Abs(offset), Lasts(offset, rate), Lasts(offset, faster);
    var r, s := rate * 0.000001, faster * 0.000001;
    assert x * r == a && y * s == a && r < s;
    if y <= 0.0 {
      NotWider(y, 0.0, s);
    }
    if x <= y {
      NotWider(x, y, r);
      Wider(s, r, y);
    }
  }

  lemma DecideDrains(cfg: Config, s: State, e: Input)
    requires Sane(cfg) && Followed(Decide(cfg, s, e).1)
    ensures var (s', plan) := Decide(cfg, s, e);
            var deadline := Deadline(cfg, s.updates + 1, e, plan.nextPoll);
            && deadline > 0.0
            && plan.command.drainRatePpm
               == Min(Abs(e.offset) / deadline * 1000000.0, Ceiling(cfg, s.updates + 1, e))
  {
    hide Tuned, Adapted;
    var s1 := s.(updates := s.updates + 1);
    var s2 := Extended(cfg, Adapted(cfg, Tuned(cfg, s1.(changeRefusals := 0), e), e), e);
    TunedKeeps(cfg, s1.(changeRefusals := 0), e);
    assert s2.updates == s.updates + 1;
    var poll := PeekPoll(s2);
    assert Decide(cfg, s, e).1 == Drained(cfg, s1, e).1 && Drained(cfg, s1, e).1.nextPoll == poll;
    RateMeans(cfg, s2, e);
  }

  lemma RateMeans(cfg: Config, s: State, e: Input)
    requires Sane(cfg)
    ensures var deadline := Deadline(cfg, s.updates, e, PeekPoll(s));
            deadline > 0.0
              && DrainRate(cfg, s, e) == Min(Abs(e.offset) / deadline * 1000000.0, Ceiling(cfg, s.updates, e))
  {
    hide PeekPoll, AcquireShare;
    ConfidenceMeans(e);
    assert CorrectionTime(cfg, PeekPoll(s)) == CorrectIn(cfg, PeekPoll(s));
    var poll := PeekPoll(s);
    assert Acquiring(s.updates, e)
           <==> s.updates <= ACQUIRE_UPDATES && Abs(e.offset) > ACQUIRE_NOISE_MULTIPLE * Noise(e);
  }

  lemma TunedKeeps(cfg: Config, s: State, e: Input)
    ensures Adapted(cfg, Tuned(cfg, s, e), e).updates == s.updates
  {
  }

  lemma ConfidenceMeans(e: Input)
    ensures AcquireShare(e.offset, Noise(e))
            == if Abs(e.offset) >= 10000.0 * e.offsetSd && Abs(e.offset) >= 0.001 then 1.0 else 0.25
  {
    var noise := Noise(e);
    assert Max(noise, 0.000000001) == noise;
    QuotientAtLeast(Abs(e.offset), noise, 10000.0);
    assert Abs(e.offset) >= 10000.0 * noise <==> Abs(e.offset) >= 10000.0 * e.offsetSd && Abs(e.offset) >= 0.001;
  }

  lemma QuotientAtLeast(a: real, b: real, q: real)
    requires b > 0.0
    ensures a / b >= q <==> a >= q * b
  {
    var x := a / b;
    assert x * b == a;
    if x >= q {
      NotWider(q, x, b);
    } else {
      Wider(q, x, b);
    }
  }

  /**
   A drain lasts exactly as long as it is to, unless its rate stands at the ceiling and it
   takes longer: early on it is to be over by the next measurement, later within the
   correction time.
   */
  lemma DrainLasts(cfg: Config, inputs: seq<Input>)
    requires Sane(cfg) && inputs != [] && Followed(LastPlan(cfg, inputs))
    ensures var e, plan := Latest(inputs), LastPlan(cfg, inputs);
            var rate, deadline := plan.command.drainRatePpm, Deadline(cfg, |inputs|, e, plan.nextPoll);
            && 0.0 <= rate <= Ceiling(cfg, |inputs|, e)
            && (rate == 0.0 <==> e.offset == 0.0 || cfg.maxSlewPpm == 0.0)
            && (rate > 0.0 ==>
                  && deadline <= Lasts(e.offset, rate)
                  && (Lasts(e.offset, rate) == deadline || rate == Ceiling(cfg, |inputs|, e)))
  {
    hide Decide;
    LastStep(cfg, inputs);
    var e, plan := Latest(inputs), LastPlan(cfg, inputs);
    DecideDrains(cfg, StateAfter(cfg, Earlier(inputs)), e);
    var deadline, ceiling := Deadline(cfg, |inputs|, e, plan.nextPoll), Ceiling(cfg, |inputs|, e);
    if e.offset == 0.0 {
      QuotientOf(0.0, deadline, 0.0);
    } else {
      RateLasts(e.offset, deadline);
      var wanted := Abs(e.offset) / deadline * 1000000.0;
      if 0.0 < ceiling < wanted {
        SlowerLasts(e.offset, ceiling, wanted);
      }
    }
  }
}
