/**
 A capped bucket told from its visits alone: who may be answered is decided by counting
 answers in windows of time, without the level that the bucket keeps.
 */
module TokenBucket {
  import opened Reals

  /** A request that looked into the bucket, and whether it was answered. */
  datatype Visit = Visit(time: real, answered: bool)

  function Answers(visits: seq<Visit>): (n: nat) {
    if visits == [] then 0 else Answers(visits[..|visits| - 1]) + (if visits[|visits| - 1].answered then 1 else 0)
  }

  function Drops(visits: seq<Visit>): (n: nat) {
    if visits == [] then 0 else Drops(visits[..|visits| - 1]) + (if visits[|visits| - 1].answered then 0 else 1)
  }

  /**
   What the window from the `j`th visit to `now` leaves: the burst and the earnings of the
   window, less its answers.
   */
  function Left(burst: real, rate: real, visits: seq<Visit>, j: nat, now: real): real
    requires j < |visits|
  {
    burst - Answers(visits[j..]) as real + rate * (now - visits[j].time)
  }

  /** One more answer at `now` keeps every window that begins with a visit within its burst and earnings. */
  ghost predicate Affordable(burst: real, rate: real, visits: seq<Visit>, now: real) {
    burst >= 1.0 && forall j: nat | j < |visits| :: Left(burst, rate, visits, j, now) >= 1.0
  }

  /** The level right after the last visit: what the tightest window leaves, or the whole burst. */
  ghost predicate Holds(level: real, burst: real, rate: real, visits: seq<Visit>, last: real) {
    if visits == [] then level == burst
    else
      && last == visits[|visits| - 1].time
      && (forall j: nat | j < |visits| :: level <= Left(burst, rate, visits, j, last))
      && (exists j: nat :: j < |visits| && level == Left(burst, rate, visits, j, last))
  }

  /** The level after a refill at `now`. */
  ghost predicate Refills(level: real, burst: real, rate: real, visits: seq<Visit>, now: real) {
    && level <= burst
    && (forall j: nat | j < |visits| :: level <= Left(burst, rate, visits, j, now))
    && (level == burst || exists j: nat :: j < |visits| && level == Left(burst, rate, visits, j, now))
  }

  lemma LeftLater(burst: real, rate: real, visits: seq<Visit>, j: nat, last: real, now: real)
    requires j < |visits|
    ensures Left(burst, rate, visits, j, now) == Left(burst, rate, visits, j, last) + rate * (now - last)
  {
    var t := visits[j].time;
    assert rate * (now - t) == rate * (last - t) + rate * (now - last);
  }

  lemma Earns(rate: real, time: real)
    requires rate >= 0.0 && time >= 0.0
    ensures time * rate == rate * time >= 0.0
  {
  }

  lemma CapAt(level: real, earned: real, burst: real, rate: real, visits: seq<Visit>, last: real, now: real)
    requires Holds(level, burst, rate, visits, last) && earned >= 0.0
    requires forall j: nat | j < |visits| ::
               Left(burst, rate, visits, j, now) == Left(burst, rate, visits, j, last) + earned
    ensures Refills(Min(level + earned, burst), burst, rate, visits, now)
  {
    hide Left;
    if visits != [] && level + earned <= burst {
      var j: nat :| j < |visits| && level == Left(burst, rate, visits, j, last);
      assert level + earned == Left(burst, rate, visits, j, now);
    }
  }

  /** Refilling with a cap leaves what the tightest window allows. */
  lemma CapRefills(level: real, burst: real, rate: real, visits: seq<Visit>, last: real, now: real)
    requires Holds(level, burst, rate, visits, last) && rate >= 0.0 && last <= now
    ensures Refills(Min(level + (now - last) * rate, burst), burst, rate, visits, now)
  {
    hide Left, Holds, Refills;
    Earns(rate, now - last);
    forall j: nat | j < |visits|
      ensures Left(burst, rate, visits, j, now) == Left(burst, rate, visits, j, last) + (now - last) * rate
    {
      LeftLater(burst, rate, visits, j, last, now);
    }
    CapAt(level, (now - last) * rate, burst, rate, visits, last, now);
  }

  /** There is a token for one more answer if and only if it is affordable. */
  lemma TokenMeans(level: real, burst: real, rate: real, visits: seq<Visit>, now: real)
    requires Refills(level, burst, rate, visits, now)
    ensures level >= 1.0 <==> Affordable(burst, rate, visits, now)
  {
    hide Left;
    if level < 1.0 && level != burst {
      var j: nat :| j < |visits| && level == Left(burst, rate, visits, j, now);
    }
  }

  lemma LeftGrown(burst: real, rate: real, visits: seq<Visit>, v: Visit, j: nat)
    requires j <= |visits|
    ensures Left(burst, rate, visits + [v], j, v.time)
            == (if j < |visits| then Left(burst, rate, visits, j, v.time) else burst)
               - (if v.answered then 1.0 else 0.0)
  {
    var grown := visits + [v];
    assert grown[j..] == visits[j..] + [v];
    assert (visits[j..] + [v])[..|visits| - j] == visits[j..];
    if j == |visits| {
      assert Answers([v][..0]) == 0;
      assert rate * (v.time - v.time) == 0.0;
    }
  }

  /** Paying for the answer, if there was one, leaves the level of the visits with this one. */
  lemma VisitPays(level: real, burst: real, rate: real, visits: seq<Visit>, v: Visit)
    requires Refills(level, burst, rate, visits, v.time)
    ensures Holds(level - (if v.answered then 1.0 else 0.0), burst, rate, visits + [v], v.time)
  {
    hide Left;
    var grown, after := visits + [v], level - (if v.answered then 1.0 else 0.0);
    forall j: nat | j < |grown|
      ensures after <= Left(burst, rate, grown, j, v.time)
    {
      LeftGrown(burst, rate, visits, v, j);
    }
    if level == burst {
      LeftGrown(burst, rate, visits, v, |visits|);
      assert after == Left(burst, rate, grown, |visits|, v.time);
    } else {
      var j: nat :| j < |visits| && level == Left(burst, rate, visits, j, v.time);
      LeftGrown(burst, rate, visits, v, j);
      assert after == Left(burst, rate, grown, j, v.time);
    }
  }

  // ----- a steady visitor -----

  /** Each visit is at least `gap` after the one before it, and `now` after the last. */
  ghost predicate Apart(visits: seq<Visit>, gap: real, now: real) {
    && (forall i: nat | i + 1 < |visits| :: visits[i + 1].time - visits[i].time >= gap)
    && (visits != [] ==> now - visits[|visits| - 1].time >= gap)
  }

  lemma {:induction false} AnswersAtMost(visits: seq<Visit>)
    ensures Answers(visits) <= |visits|
  {
    if visits != [] {
      AnswersAtMost(visits[..|visits| - 1]);
    }
  }

  /** So many gaps have passed since a visit. */
  lemma {:induction false} GapsPass(visits: seq<Visit>, gap: real, now: real, j: nat)
    requires Apart(visits, gap, now) && j < |visits|
    ensures now - visits[j].time >= (|visits| - j) as real * gap
    decreases |visits| - j
  {
    if j + 1 < |visits| {
      GapsPass(visits, gap, now, j + 1);
      var n := (|visits| - (j + 1)) as real;
      assert (|visits| - j) as real * gap == n * gap + gap;
    }
  }

  lemma GapsEarn(rate: real, gap: real, n: real, time: real)
    requires rate > 0.0 && rate * gap == 1.0 && n * gap <= time
    ensures rate * time >= n
  {
    Earns(rate, time - n * gap);
    assert rate * (n * gap) == n * (rate * gap) == n;
    assert rate * time == rate * (n * gap) + rate * (time - n * gap);
  }

  lemma SteadyLeaves(burst: real, rate: real, gap: real, visits: seq<Visit>, j: nat, now: real)
    requires rate > 0.0 && rate * gap == 1.0 && Apart(visits, gap, now) && j < |visits|
    ensures Left(burst, rate, visits, j, now) >= burst
  {
    hide Apart, Answers;
    GapsPass(visits, gap, now, j);
    AnswersAtMost(visits[j..]);
    var n, time := (|visits| - j) as real, now - visits[j].time;
    GapsEarn(rate, gap, n, time);
    assert Answers(visits[j..]) as real <= n;
  }

  /** Whoever comes no faster than tokens do can always be answered. */
  lemma SteadyIsAffordable(burst: real, rate: real, gap: real, visits: seq<Visit>, now: real)
    requires burst >= 1.0 && rate > 0.0 && rate * gap == 1.0 && Apart(visits, gap, now)
    ensures Affordable(burst, rate, visits, now)
  {
    hide Left;
    forall j: nat | j < |visits|
      ensures Left(burst, rate, visits, j, now) >= 1.0
    {
      SteadyLeaves(burst, rate, gap, visits, j, now);
    }
  }
}
