/** Splitting a wanted frequency between the kernel's tick and its frequency knob. */
module TickSplit {
  import opened Reals

  const MAX_ADJ_FREQ: real := 500.0

  /** Round half away from zero. */
  function Round(x: real): int {
    if x >= 0.0 then (x + 0.5).Floor else -((-x + 0.5).Floor)
  }

  function PpmPerUs(nominal: int): (p: real)
    requires nominal > 0
    ensures p > 0.0
  {
    1000000.0 / nominal as real
  }

  /** The frequency so many microseconds of tick are worth. */
  function Worth(us: real, p: real): real {
    us * p
  }

  /** The tick may move by a tenth. */
  function MaxOffset(nominal: int): int {
    (nominal as real * 0.1).Floor
  }

  /** The widest frequency the kernel can be driven at. */
  function MaxSlew(nominal: int): real {
    if nominal <= 0 then MAX_ADJ_FREQ else Worth(MaxOffset(nominal) as real, PpmPerUs(nominal)) + MAX_ADJ_FREQ
  }

  function ClampInt(x: int, lo: int, hi: int): int {
    if x < lo then lo else if hi < x then hi else x
  }

  /** Whole microseconds of tick, moved only for what the frequency knob cannot cover. */
  function OffsetFor(wanted: real, p: real, most: int): int
    requires p > 0.0
  {
    if Abs(wanted) > MAX_ADJ_FREQ then ClampInt(Round(wanted / p), -most, most) else 0
  }

  /** What the offset leaves for the frequency knob. */
  function ResidualOf(wanted: real, offset: int, p: real): real {
    Clamp(wanted - Worth(offset as real, p), -MAX_ADJ_FREQ, MAX_ADJ_FREQ)
  }

  /** The tick to set and the residual frequency. */
  function LinuxTickAndFreq(total: real, nominal: int): (int, real) {
    if nominal <= 0 then (nominal, Clamp(total, -MAX_ADJ_FREQ, MAX_ADJ_FREQ))
    else
      var p, most := PpmPerUs(nominal), MaxOffset(nominal);
      var reachable := Worth(most as real, p) + MAX_ADJ_FREQ;
      var wanted := Clamp(total, -reachable, reachable);
      var offset := OffsetFor(wanted, p, most);
      (nominal + offset, ResidualOf(wanted, offset, p))
  }

  /** What a tick and a residual deliver together. */
  function Delivered(tick: int, residual: real, nominal: int): real {
    if nominal <= 0 then residual else Worth((tick - nominal) as real, PpmPerUs(nominal)) + residual
  }

  lemma RoundNear(x: real)
    ensures x - 0.5 <= Round(x) as real <= x + 0.5
    ensures x >= 0.0 ==> Round(x) >= 0
    ensures x <= 0.0 ==> Round(x) <= 0
  {
    if x < 0.0 {
      var f := (-x + 0.5).Floor;
      assert Round(x) == -f && (-f) as real == -(f as real);
      assert f >= 0;
    }
  }

  lemma WorthOfQuotient(w: real, p: real)
    requires p > 0.0
    ensures Worth(w / p, p) == w
  {
  }

  lemma WorthGrows(a: real, b: real, p: real)
    requires a <= b && p > 0.0
    ensures Worth(a, p) <= Worth(b, p)
  {
  }

  lemma WorthApart(q: real, r: real, p: real)
    ensures Worth(q - r, p) == Worth(q, p) - Worth(r, p)
  {
  }

  /** Half a microsecond apart is half its worth apart. */
  lemma Nearby(q: real, r: real, p: real)
    requires p > 0.0 && q - 0.5 <= r <= q + 0.5
    ensures -0.5 * p <= Worth(q, p) - Worth(r, p) <= 0.5 * p
  {
    WorthApart(q, r, p);
    WorthGrows(q - r, 0.5, p);
    WorthGrows(-0.5, q - r, p);
  }

  lemma MaxOffsetBounds(nominal: int)
    requires nominal > 0
    ensures 0 <= MaxOffset(nominal) && MaxOffset(nominal) as real <= nominal as real * 0.1
    ensures nominal >= 10 ==> MaxOffset(nominal) >= 1
    ensures nominal < 10 ==> MaxOffset(nominal) == 0
  {
  }

  lemma PerUsBounds(nominal: int)
    requires nominal > 0
    ensures nominal >= 1000 <==> PpmPerUs(nominal) <= 1000.0
  {
    var p, n := PpmPerUs(nominal), nominal as real;
    WorthOfQuotient(1000000.0, n);
    if nominal >= 1000 && p > 1000.0 {
      WorthGrows(1000.0, p, n);
    } else if nominal < 1000 && p <= 1000.0 {
      WorthGrows(p, 1000.0, n);
    }
  }

  /** A tick held at its edge still leaves no more than the frequency knob covers. */
  lemma HeldTick(wanted: real, p: real, most: real, r: real)
    requires 0.0 < p <= 1000.0 && wanted <= Worth(most, p) + MAX_ADJ_FREQ
    requires r >= most + 1.0 && Worth(r, p) <= wanted + 0.5 * p
    ensures -MAX_ADJ_FREQ <= wanted - Worth(most, p) <= MAX_ADJ_FREQ
  {
    WorthGrows(1.0, r - most, p);
    WorthApart(r, most, p);
    assert Worth(1.0, p) == p;
  }

  lemma OtherSide(i: real, p: real)
    ensures Worth(-i, p) == -Worth(i, p)
  {
  }

  /** Within reach, what the tick does not cover the frequency knob does. */
  lemma ResidualFits(wanted: real, p: real, most: real, r: real, held: real)
    requires 0.0 < p <= 1000.0 && most >= 0.0 && Abs(wanted) <= Worth(most, p) + MAX_ADJ_FREQ
    requires -0.5 * p <= wanted - Worth(r, p) <= 0.5 * p
    requires if r >= most + 1.0 then held == most else if r <= -most - 1.0 then held == -most else held == r
    ensures Abs(wanted - Worth(held, p)) <= MAX_ADJ_FREQ
  {
    if r >= most + 1.0 {
      HeldTick(wanted, p, most, r);
    } else if r <= -most - 1.0 {
      OtherSide(most, p);
      OtherSide(r, p);
      HeldTick(-wanted, p, most, -r);
    }
  }

  /** The offset taken leaves no more than the frequency knob covers. */
  lemma OffsetLeaves(wanted: real, p: real, most: int, offset: int)
    requires p > 0.0 && most >= 0 && (p <= 1000.0 || most == 0)
    requires Abs(wanted) <= Worth(most as real, p) + MAX_ADJ_FREQ && offset == OffsetFor(wanted, p, most)
    ensures Abs(wanted - Worth(offset as real, p)) <= MAX_ADJ_FREQ
    ensures -most <= offset <= most
  {
    if Abs(wanted) > MAX_ADJ_FREQ {
      var q := wanted / p;
      RoundNear(q);
      WorthOfQuotient(wanted, p);
      Nearby(q, Round(q) as real, p);
      if most > 0 {
        ResidualFits(wanted, p, most as real, Round(q) as real, offset as real);
      }
    }
  }

  lemma Within(x: real, most: real)
    requires most >= 0.0
    ensures Abs(Clamp(x, -most, most)) <= most
    ensures Abs(x) <= most ==> Clamp(x, -most, most) == x
  {
  }

  /** For a tick that fine, or one that cannot move, every request is delivered exactly up to the ceiling. */
  lemma DeliversClamped(total: real, nominal: int)
    requires nominal >= 1000 || nominal < 10
    ensures var (tick, residual) := LinuxTickAndFreq(total, nominal);
            && Delivered(tick, residual, nominal) == Clamp(total, -MaxSlew(nominal), MaxSlew(nominal))
            && Abs(residual) <= MAX_ADJ_FREQ
            && (nominal > 0 ==> -MaxOffset(nominal) <= tick - nominal <= MaxOffset(nominal))
  {
    if nominal > 0 {
      var p, most := PpmPerUs(nominal), MaxOffset(nominal);
      MaxOffsetBounds(nominal);
      PerUsBounds(nominal);
      WorthGrows(0.0, most as real, p);
      Within(total, MaxSlew(nominal));
      var wanted := Clamp(total, -MaxSlew(nominal), MaxSlew(nominal));
      var offset := OffsetFor(wanted, p, most);
      OffsetLeaves(wanted, p, most, offset);
      Within(wanted - Worth(offset as real, p), MAX_ADJ_FREQ);
    } else {
      Within(total, MAX_ADJ_FREQ);
    }
  }

  /** Between, some request within the ceiling is not delivered. */
  lemma CoarseTickFallsShort(nominal: int) returns (total: real)
    requires 10 <= nominal < 1000
    ensures Abs(total) <= MaxSlew(nominal)
    ensures Delivered(LinuxTickAndFreq(total, nominal).0, LinuxTickAndFreq(total, nominal).1, nominal) != total
  {
    var p := PpmPerUs(nominal);
    PerUsBounds(nominal);
    MaxOffsetBounds(nominal);
    WorthGrows(1.0, MaxOffset(nominal) as real, p);
    assert Worth(1.0, p) == p;
    total := (500.0 + 0.5 * p) / 2.0;
    assert 500.0 < total < 0.5 * p;
    var q := total / p;
    WorthOfQuotient(total, p);
    if q >= 0.5 {
      WorthGrows(0.5, q, p);
    }
    if q <= 0.0 {
      WorthGrows(q, 0.0, p);
    }
    assert 0.0 < q < 0.5;
    assert Round(q) == 0;
  }

  /** Every request is delivered exactly, up to the ceiling, if and only if the tick is that fine or cannot move. */
  lemma DeliversExactly(nominal: int)
    ensures nominal >= 1000 || nominal < 10 <==>
            forall total: real ::
              Delivered(LinuxTickAndFreq(total, nominal).0, LinuxTickAndFreq(total, nominal).1, nominal)
              == Clamp(total, -MaxSlew(nominal), MaxSlew(nominal))
  {
    if nominal >= 1000 || nominal < 10 {
      forall total: real
        ensures Delivered(LinuxTickAndFreq(total, nominal).0, LinuxTickAndFreq(total, nominal).1, nominal)
                == Clamp(total, -MaxSlew(nominal), MaxSlew(nominal))
      {
        DeliversClamped(total, nominal);
      }
    } else {
      var total := CoarseTickFallsShort(nominal);
    }
  }
}
