/** The discipline loop: estimates in, clock commands out. */
module Discipline {
  import opened Wrappers
  import opened Reals
  import opened DisciplinePolicy

  class Discipline {
    const cfg: Config
    var freqPpm: real
    var updates: nat
    var poll: int
    var stableStreak: nat
    var iburstLeft: nat
    var lastDrainShare: real
    var burstUsed: nat
    var changeRefusals: nat

    /** The fields as one value. */
    function Now(): State
      reads this
    {
      State(freqPpm, updates, poll, stableStreak, iburstLeft, lastDrainShare, burstUsed, changeRefusals)
    }

    constructor (cfg: Config)
      ensures this.cfg == cfg && Now() == Initial(cfg)
    {
      this.cfg := cfg;
      freqPpm, updates, poll, stableStreak := 0.0, 0, cfg.minPoll, 0;
      iburstLeft := if cfg.iburst then IBURST_COUNT else 0;
      lastDrainShare, burstUsed, changeRefusals := 0.0, 0, 0;
    }

    /** Consume one poll slot. */
    method TakePollInterval() returns (interval: real)
      modifies this`iburstLeft, this`burstUsed
      ensures interval == PeekPoll(old(Now())) && Now() == Polled(old(Now()))
    {
      if iburstLeft > 0 {
        iburstLeft := iburstLeft - 1;
        burstUsed := burstUsed + 1;
        return IBURST_SPACING;
      }
      return Pow2(poll);
    }

    /** Hold the frequency and drain nothing: the offset is not one to follow. */
    method Refuse(e: Input) returns (plan: Plan)
      modifies this`changeRefusals, this`stableStreak, this`iburstLeft, this`burstUsed
      ensures (Now(), plan) == Refusal(cfg, old(Now()), e)
    {
      changeRefusals := SaturatingSucc(changeRefusals);
      var spent := cfg.maxChangeIgnore >= 0 && changeRefusals > cfg.maxChangeIgnore;
      stableStreak := 0;
      var seen := changeRefusals;
      var interval := TakePollInterval();
      var verdict := if spent then GiveUp(e.offset) else Refused(e.offset, seen);
      return Plan(Slew(freqPpm, 0.0, 0.0), interval, false, verdict);
    }

    method StepAway(e: Input) returns (plan: Plan)
      modifies this`changeRefusals, this`stableStreak, this`iburstLeft, this`burstUsed
      ensures (Now(), plan) == Stepped(old(Now()), e)
    {
      stableStreak := 0;
      changeRefusals := 0;
      var interval := TakePollInterval();
      return Plan(Step(e.offset), interval, true, Accepted);
    }

    /** Take in the measured frequency and adapt the poll interval. */
    method Adapt(e: Input)
      modifies this`freqPpm, this`poll, this`stableStreak, this`iburstLeft
      ensures Now() == Extended(cfg, Adapted(cfg, Tuned(cfg, old(Now()), e), e), e)
    {
      var hauling := lastDrainShare > FREQ_TRUST_SLEW_SHARE;
      if e.freqPpm.Some? && !hauling {
        freqPpm := Clamp(freqPpm + e.freqPpm.value, -cfg.maxFreqPpm, cfg.maxFreqPpm);
      }
      var noise := Max(e.offsetSd, 0.0000001);
      if Abs(e.offset) < 2.0 * noise {
        stableStreak := stableStreak + 1;
        if stableStreak >= cfg.pollUpStreak && poll < cfg.maxPoll {
          poll := poll + 1;
          stableStreak := 0;
        }
      } else {
        stableStreak := 0;
        if Abs(e.offset) > cfg.pollDownNoiseRatio * noise && poll > cfg.minPoll {
          poll := poll - 1;
        }
      }
      if iburstLeft == 0 && cfg.iburst && burstUsed < MAX_ACQUIRE_BURST
         && Abs(e.offset) > Max(ACQUIRE_DONE, 2.0 * noise) {
        iburstLeft := 1;
      }
    }

    method Drain(e: Input) returns (plan: Plan)
      requires Sane(cfg)
      modifies this
      ensures (Now(), plan) == Drained(cfg, old(Now()), e)
    {
      changeRefusals := 0;
      Adapt(e);
      var rate := DrainRate(cfg, Now(), e);
      lastDrainShare := if cfg.maxSlewPpm > 0.0 then rate / cfg.maxSlewPpm else 0.0;
      var freq := freqPpm;
      var interval := TakePollInterval();
      return Plan(Slew(freq, e.offset, rate), interval, false, Accepted);
    }

    /** Feed the latest estimate, told whether a leap second was announced for the day. */
    method OnEstimateWithLeap(e: Input) returns (plan: Plan)
      requires Sane(cfg)
      modifies this
      ensures (Now(), plan) == Decide(cfg, old(Now()), e)
    {
      updates := updates + 1;
      var leapExempt := e.leapPending && cfg.leapMode != LeapIgnore && Abs(e.offset) <= LEAP_EXEMPTION;
      if leapExempt && cfg.leapMode == LeapStep {
        plan := StepAway(e);
        return;
      }
      if cfg.maxChange.Some? && !leapExempt && updates > cfg.maxChangeStart && !(Abs(e.offset) <= cfg.maxChange.value) {
        plan := Refuse(e);
        return;
      }
      if cfg.makestepThreshold.Some? && Abs(e.offset) > cfg.makestepThreshold.value && updates <= cfg.makestepLimit {
        plan := StepAway(e);
        return;
      }
      plan := Drain(e);
    }
  }
}
