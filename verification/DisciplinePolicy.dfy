/** What the discipline decides, as functions on its state. */
module DisciplinePolicy {
  import opened Wrappers
  import opened Reals

  datatype LeapMode = LeapSlew | LeapStep | LeapIgnore

  datatype Config = Config(
    makestepThreshold: Option<real>, makestepLimit: nat,
    maxSlewPpm: real, maxFreqPpm: real,
    minPoll: int, maxPoll: int, iburst: bool,
    pollDownNoiseRatio: real, pollUpStreak: nat,
    corrTime: real, corrTimeMax: real, corrTimeRatio: real,
    leapMode: LeapMode,
    maxChange: Option<real>, maxChangeStart: nat, maxChangeIgnore: int,
    weightFloorRatio: real, offsetWeightFloorRatio: real, adaptiveWindow: bool)

  datatype ClockCommand =
    | Step(add: real)
    | Slew(freqPpm: real, drainOffset: real, drainRatePpm: real)

  datatype Verdict =
    | Accepted
    | Refused(offset: real, seen: nat)
    | GiveUp(offset: real)

  datatype Plan = Plan(command: ClockCommand, nextPoll: real, resetRegister: bool, verdict: Verdict)

  /** `offset` is the seconds to add, `freqPpm` the residual frequency error where it is trusted. */
  datatype Input = Input(offset: real, freqPpm: Option<real>, offsetSd: real, leapPending: bool)

  datatype State = State(
    freqPpm: real, updates: nat, poll: int, stableStreak: nat,
    iburstLeft: nat, lastDrainShare: real, burstUsed: nat, changeRefusals: nat)

  const IBURST_COUNT: nat := 4
  const IBURST_SPACING: real := 2.0
  const MAX_ACQUIRE_BURST: nat := 16
  const ACQUIRE_UPDATES: nat := 8
  const ACQUIRE_NOISE_MULTIPLE: real := 10.0
  const ACQUIRE_SLEW_SHARE: real := 0.25
  const ACQUIRE_FULL_SPEED_CONFIDENCE: real := 10000.0
  const ACQUIRE_DONE: real := 0.001
  const FREQ_TRUST_SLEW_SHARE: real := 0.25
  const LEAP_EXEMPTION: real := 2.0
  const SATURATED: nat := 0xFFFF_FFFF

  /** What the arithmetic demands of a configuration: bounds that are bounds, and a finite correction time. */
  predicate Sane(cfg: Config) {
    cfg.maxFreqPpm >= 0.0 && cfg.maxSlewPpm >= 0.0 && cfg.corrTimeMax > 0.0 && cfg.maxChangeIgnore < SATURATED
  }

  function Initial(cfg: Config): State {
    State(0.0, 0, cfg.minPoll, 0, if cfg.iburst then IBURST_COUNT else 0, 0.0, 0, 0)
  }

  // ----- polling -----

  function PeekPoll(s: State): (interval: real)
    ensures interval > 0.0
  {
    if s.iburstLeft > 0 then IBURST_SPACING else Pow2(s.poll)
  }

  /** Consume one poll slot. */
  function Polled(s: State): State {
    if s.iburstLeft > 0 then s.(iburstLeft := s.iburstLeft - 1, burstUsed := s.burstUsed + 1) else s
  }

  // ----- the guard -----

  /** An announced leap of about a second is expected and exempt. */
  predicate LeapExempt(cfg: Config, e: Input) {
    e.leapPending && !cfg.leapMode.LeapIgnore? && Abs(e.offset) <= LEAP_EXEMPTION
  }

  predicate StepsLeap(cfg: Config, e: Input) {
    LeapExempt(cfg, e) && cfg.leapMode.LeapStep?
  }

  /** The change guard refuses what is not within the limit, once the early updates are over. */
  predicate Refuses(cfg: Config, updates: nat, e: Input) {
    cfg.maxChange.Some? && !LeapExempt(cfg, e) && updates > cfg.maxChangeStart
      && !(Abs(e.offset) <= cfg.maxChange.value)
  }

  predicate StepsEarly(cfg: Config, updates: nat, e: Input) {
    cfg.makestepThreshold.Some? && Abs(e.offset) > cfg.makestepThreshold.value && updates <= cfg.makestepLimit
  }

  function SaturatingSucc(n: nat): nat {
    if n < SATURATED then n + 1 else SATURATED
  }

  /** The allowance for consecutive refusals is spent. */
  predicate Spent(cfg: Config, refusals: nat) {
    cfg.maxChangeIgnore >= 0 && refusals > cfg.maxChangeIgnore
  }

  function Refusal(cfg: Config, s: State, e: Input): (State, Plan) {
    var s1 := s.(changeRefusals := SaturatingSucc(s.changeRefusals), stableStreak := 0);
    (Polled(s1),
     Plan(Slew(s.freqPpm, 0.0, 0.0), PeekPoll(s1), false,
          if Spent(cfg, s1.changeRefusals) then GiveUp(e.offset) else Refused(e.offset, s1.changeRefusals)))
  }

  function Stepped(s: State, e: Input): (State, Plan) {
    var s1 := s.(stableStreak := 0, changeRefusals := 0);
    (Polled(s1), Plan(Step(e.offset), PeekPoll(s1), true, Accepted))
  }

  // ----- the loop -----

  function Noise(e: Input): (n: real)
    ensures n > 0.0
  {
    Max(e.offsetSd, 0.0000001)
  }

  /** Accumulate the measured frequency error, unless the clock was being hauled. */
  function Tuned(cfg: Config, s: State, e: Input): State {
    if e.freqPpm.Some? && !(s.lastDrainShare > FREQ_TRUST_SLEW_SHARE) then
      s.(freqPpm := Clamp(s.freqPpm + e.freqPpm.value, -cfg.maxFreqPpm, cfg.maxFreqPpm))
    else s
  }

  /** Lengthen the poll when quiet, shorten it when the offset is loud. */
  function Adapted(cfg: Config, s: State, e: Input): State {
    if Abs(e.offset) < 2.0 * Noise(e) then
      if s.stableStreak + 1 >= cfg.pollUpStreak && s.poll < cfg.maxPoll then s.(poll := s.poll + 1, stableStreak := 0)
      else s.(stableStreak := s.stableStreak + 1)
    else if Abs(e.offset) > cfg.pollDownNoiseRatio * Noise(e) && s.poll > cfg.minPoll then
      s.(poll := s.poll - 1, stableStreak := 0)
    else s.(stableStreak := 0)
  }

  /** Keep the acquisition burst going while a correction is outstanding. */
  function Extended(cfg: Config, s: State, e: Input): State {
    if s.iburstLeft == 0 && cfg.iburst && s.burstUsed < MAX_ACQUIRE_BURST
       && Abs(e.offset) > Max(ACQUIRE_DONE, 2.0 * Noise(e))
    then s.(iburstLeft := 1)
    else s
  }

  /** How much of the slew budget an acquisition may use, by how well the offset is known. */
  function AcquireShare(offset: real, noise: real): (share: real)
    ensures 0.0 < share <= 1.0
  {
    if Abs(offset) / Max(noise, 0.000000001) >= ACQUIRE_FULL_SPEED_CONFIDENCE then 1.0 else ACQUIRE_SLEW_SHARE
  }

  function CorrectionTime(cfg: Config, poll: real): (t: real)
    requires cfg.corrTimeMax > 0.0 && poll > 0.0
    ensures t > 0.0
  {
    if cfg.corrTime > 0.0 then cfg.corrTime
    else
      var ratio := if cfg.corrTimeRatio > 0.0 then cfg.corrTimeRatio else 1.0;
      PositiveProduct(ratio, poll);
      Min(ratio * poll, cfg.corrTimeMax)
  }

  lemma PositiveProduct(a: real, b: real)
    requires a > 0.0 && b > 0.0
    ensures a * b > 0.0
  {
  }

  function WantedRate(cfg: Config, s: State, e: Input): real
    requires Sane(cfg)
  {
    if s.updates <= ACQUIRE_UPDATES && Abs(e.offset) > ACQUIRE_NOISE_MULTIPLE * Noise(e) then
      Min(Abs(e.offset) / PeekPoll(s) * 1000000.0, cfg.maxSlewPpm * AcquireShare(e.offset, Noise(e)))
    else Abs(e.offset) / CorrectionTime(cfg, PeekPoll(s)) * 1000000.0
  }

  function DrainRate(cfg: Config, s: State, e: Input): real
    requires Sane(cfg)
  {
    Min(WantedRate(cfg, s, e), cfg.maxSlewPpm)
  }

  function Drained(cfg: Config, s: State, e: Input): (State, Plan)
    requires Sane(cfg)
  {
    var s1 := Extended(cfg, Adapted(cfg, Tuned(cfg, s.(changeRefusals := 0), e), e), e);
    var rate := DrainRate(cfg, s1, e);
    var s2 := s1.(lastDrainShare := if cfg.maxSlewPpm > 0.0 then rate / cfg.maxSlewPpm else 0.0);
    (Polled(s2), Plan(Slew(s2.freqPpm, e.offset, rate), PeekPoll(s2), false, Accepted))
  }

  /** One estimate, one plan. */
  function Decide(cfg: Config, s: State, e: Input): (State, Plan)
    requires Sane(cfg)
  {
    var s1 := s.(updates := s.updates + 1);
    if StepsLeap(cfg, e) then Stepped(s1, e)
    else if Refuses(cfg, s1.updates, e) then Refusal(cfg, s1, e)
    else if StepsEarly(cfg, s1.updates, e) then Stepped(s1, e)
    else Drained(cfg, s1, e)
  }

  // ----- runs -----

  function After(cfg: Config, s: State, inputs: seq<Input>): State
    requires Sane(cfg)
  {
    if inputs == [] then s
    else Decide(cfg, After(cfg, s, inputs[..|inputs| - 1]), inputs[|inputs| - 1]).0
  }

  /** The plans a run emits, in order. */
  function Plans(cfg: Config, s: State, inputs: seq<Input>): (plans: seq<Plan>)
    requires Sane(cfg)
    ensures |plans| == |inputs|
  {
    if inputs == [] then []
    else
      var earlier := inputs[..|inputs| - 1];
      Plans(cfg, s, earlier) + [Decide(cfg, After(cfg, s, earlier), inputs[|inputs| - 1]).1]
  }
}
