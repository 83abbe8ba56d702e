/**
 The sliding register of recent samples: a head cursor over contiguous storage, a cached
 minimum delay and cached weights.
 */
module SampleRegister {
  import opened Wrappers
  import opened Reals
  import opened LineFit
  import opened Regression
  import opened RegressionSlew
  import opened RegressionMeaning
  import opened RegressionPasses

  datatype Sample = Sample(t: real, offset: real, delay: real, dispersion: real)

  /** The least delay, or none where there is no sample. */
  function MinDelay(s: seq<Sample>): Option<real> {
    if s == [] then None
    else
      var rest := MinDelay(s[..|s| - 1]);
      Some(if rest.Some? then Min(rest.value, s[|s| - 1].delay) else s[|s| - 1].delay)
  }

  lemma {:induction false} MinDelayMeaning(s: seq<Sample>)
    ensures MinDelay(s).Some? <==> s != []
    ensures forall x | x in s :: MinDelay(s).value <= x.delay
    ensures s != [] ==> exists x | x in s :: MinDelay(s).value == x.delay
  {
    if s != [] {
      var n := |s| - 1;
      MinDelayMeaning(s[..n]);
      assert s == s[..n] + [s[n]];
      assert s[n] in s;
    }
  }

  /** The minimum is decided by its meaning. */
  lemma MinDelayIs(s: seq<Sample>, m: real, x: Sample)
    requires x in s && x.delay == m && forall y | y in s :: m <= y.delay
    ensures MinDelay(s) == Some(m)
  {
    MinDelayMeaning(s);
  }

  function Last<T>(s: seq<T>, n: nat): (r: seq<T>)
    ensures |r| == if |s| <= n then |s| else n
  {
    if |s| <= n then s else s[|s| - n..]
  }

  function SlewedSample(s: Sample, c: Correction): Sample {
    s.(offset := s.offset - Gained(s.t, c))
  }

  function SlewedSamples(s: seq<Sample>, c: Correction): (r: seq<Sample>)
    ensures |r| == |s| && forall i | 0 <= i < |s| :: r[i] == SlewedSample(s[i], c)
  {
    seq(|s|, i requires 0 <= i < |s| => SlewedSample(s[i], c))
  }

  /** What the weight of a sample depends on beside its own delay. */
  datatype WeightKey = WeightKey(minDelay: real, ratio: real)

  function WeightBy(s: Sample, k: WeightKey): (w: real)
    ensures w >= 0.000001
  {
    WeightFor(s.delay, k.minDelay, FloorFor(k.minDelay, k.ratio))
  }

  function RowWith(s: Sample, w: real): Row {
    Row(s.t, s.offset, s.delay, w)
  }

  function RowsWith(s: seq<Sample>, w: seq<real>): (r: seq<Row>)
    requires |s| == |w|
    ensures |r| == |s| && forall i | 0 <= i < |s| :: r[i] == RowWith(s[i], w[i])
  {
    seq(|s|, i requires 0 <= i < |s| => RowWith(s[i], w[i]))
  }

  /** The rows of a window with every weight computed from scratch. */
  function RowsFor(s: seq<Sample>, k: WeightKey): (r: seq<Row>)
    ensures |r| == |s| && forall i | 0 <= i < |s| :: r[i] == RowWith(s[i], WeightBy(s[i], k))
  {
    seq(|s|, i requires 0 <= i < |s| => RowWith(s[i], WeightBy(s[i], k)))
  }

  /** Corrections leave delays, and so weights, alone. */
  lemma RowsForSlewed(s: seq<Sample>, k: WeightKey, c: Correction)
    ensures RowsFor(SlewedSamples(s, c), k) == Moved(RowsFor(s, k), c) && Weighty(RowsFor(s, k))
  {
  }

  /** The estimate a window gives when every weight is computed from scratch. */
  function WindowEstimate(s: seq<Sample>, now: real, tuning: Tuning): Option<Estimate> {
    if |s| < 3 || MinDelay(s).None? then None
    else Regressed(RowsFor(s, WeightKey(MinDelay(s).value, tuning.floorRatio)), now, MinDelay(s).value, tuning)
  }

  /** The rows of a window carry its samples, weighed by their delay against its least delay. */
  lemma RowsWeigh(s: seq<Sample>, tuning: Tuning)
    requires MinDelay(s).Some?
    ensures var least := MinDelay(s).value;
            var floor := if least * tuning.floorRatio > 0.000000001 then least * tuning.floorRatio else 0.000000001;
            var rows := RowsFor(s, WeightKey(least, tuning.floorRatio));
            Weighty(rows) && forall i | 0 <= i < |s| ::
              && rows[i].t == s[i].t && rows[i].offset == s[i].offset && rows[i].delay == s[i].delay
              && Weighs(rows[i].w, s[i].delay, least, floor)
  {
    var least := MinDelay(s).value;
    forall i | 0 <= i < |s|
      ensures Weighs(WeightBy(s[i], WeightKey(least, tuning.floorRatio)), s[i].delay, least,
                     FloorFor(least, tuning.floorRatio))
    {
      WeightIs(s[i].delay, least, FloorFor(least, tuning.floorRatio));
    }
  }

  ghost predicate SpacedSamples(s: seq<Sample>) {
    forall i, j | 0 <= i < j < |s| :: s[j].t - s[i].t >= LEVER
  }

  lemma {:induction false} MinDelaySlewed(s: seq<Sample>, c: Correction)
    ensures MinDelay(SlewedSamples(s, c)) == MinDelay(s)
  {
    if s != [] {
      MinDelaySlewed(s[..|s| - 1], c);
      assert SlewedSamples(s, c)[..|s| - 1] == SlewedSamples(s[..|s| - 1], c);
    }
  }

  /**
   Correcting the register and then estimating is estimating and then correcting: the
   offset at `now` falls by what the clock gained by then and the frequency by the
   change of rate, with the same rows used and the same dispersion.
   */
  lemma EstimateCommutes(s: seq<Sample>, now: real, tuning: Tuning, c: Correction)
    requires c.rate == 0.0 || SpacedSamples(s)
    ensures WindowEstimate(s, now, tuning).Some? <==> |s| >= 3
    ensures WindowEstimate(SlewedSamples(s, c), now, tuning)
            == match WindowEstimate(s, now, tuning)
               case None => None
               case Some(e) => Some(MovedEstimate(e, now, c))
  {
    MinDelaySlewed(s, c);
    MinDelayMeaning(s);
    if |s| >= 3 {
      var k := WeightKey(MinDelay(s).value, tuning.floorRatio);
      RowsForSlewed(s, k, c);
      RegressionCommutes(RowsFor(s, k), now, MinDelay(s).value, tuning, c);
    }
  }

  /** The first of the least delayed among the newest eight. */
  ghost predicate IsBest(window: seq<Sample>, s: Sample) {
    var tail := Last(window, 8);
    exists i | 0 <= i < |tail| ::
      && s == tail[i]
      && (forall j | 0 <= j < |tail| :: tail[i].delay <= tail[j].delay)
      && (forall j | 0 <= j < i :: tail[i].delay < tail[j].delay)
  }

  class SampleRegister {
    const capacity: nat
    var samples: seq<Sample>
    var weights: seq<real>
    var weightsFor: Option<WeightKey>
    var head: nat
    var minDelay: Option<real>
    var floorRatio: real
    var offsetFloorRatio: real
    var adaptiveWindow: bool

    /** Every sample pushed since the register was last cleared, as corrected since. */
    ghost var history: seq<Sample>
    /** Which cached weights have been computed for the current key. */
    ghost var cached: seq<bool>

    /** The live window. */
    function Window(): seq<Sample>
      requires head <= |samples|
      reads this`samples, this`head
    {
      samples[head..]
    }

    ghost predicate Whole()
      reads this
    {
      && 3 <= capacity && head < capacity && head <= |samples| <= head + capacity
      && Window() == Last(history, capacity)
      && minDelay == MinDelay(Window())
      && CacheRight()
    }

    /** The same, `depth` removes away; ValidMeans opens it. */
    ghost predicate WholeThrough(depth: nat)
      reads this
    {
      if depth == 0 then Whole() else WholeThrough(depth - 1)
    }

    ghost predicate Valid()
      reads this
    {
      capacity >= 3 && head <= |samples| == |cached| == |weights| && WholeThrough(3)
    }

    lemma ValidMeans()
      ensures Valid() <==> Whole()
    {
      assert WholeThrough(1) <==> Whole();
      assert WholeThrough(3) <==> WholeThrough(1);
    }

    /** A cached weight is right for the current key, and no other weight is filled in yet. */
    ghost predicate CacheRight()
      reads this`samples, this`weights, this`weightsFor, this`cached, this`head
    {
      && |weights| == |samples| == |cached|
      && (forall i | head <= i < |samples| ::
            if cached[i] then weightsFor.Some? && weights[i] == WeightBy(samples[i], weightsFor.value)
            else weights[i] == 0.0)
    }

    /** Every cached weight of the window equals the formula. */
    ghost predicate WeightsExact(k: WeightKey)
      requires head <= |samples| == |weights|
      reads this`samples, this`weights, this`head
    {
      forall i | head <= i < |samples| :: weights[i] == WeightBy(samples[i], k)
    }

    ghost predicate AllCached()
      requires |cached| == |samples|
      reads this`samples, this`cached, this`head
    {
      forall i | head <= i < |samples| :: cached[i]
    }

    /** Every weight but the newest is in the cache. */
    ghost predicate CachedButNewest()
      requires |cached| == |samples|
      reads this`samples, this`cached, this`head
    {
      forall i | head <= i < |samples| - 1 :: cached[i]
    }

    /** The cache is up to date: nothing is weighed yet, or everything is. */
    ghost predicate UpToDate()
      requires head <= |samples| == |cached|
      reads this`samples, this`cached, this`head, this`weightsFor
    {
      weightsFor.None? || (AllCached() && |samples| - head >= 3)
    }

    /** The same but for the newest sample, as a push leaves it. */
    ghost predicate Fresh()
      requires head <= |samples| == |cached|
      reads this`samples, this`cached, this`head, this`weightsFor
    {
      weightsFor.None? || (CachedButNewest() && |samples| - head >= 3)
    }

    ghost predicate Ready()
      reads this
    {
      Valid() && UpToDate()
    }

    function Settings(): Tuning
      reads this`floorRatio, this`offsetFloorRatio, this`adaptiveWindow
    {
      Tuning(adaptiveWindow, floorRatio, offsetFloorRatio, 4)
    }

    constructor (capacity: nat)
      ensures Valid() && Ready() && history == [] && Window() == []
      ensures this.capacity == if capacity < 3 then 3 else capacity
      ensures Settings() == Tuning(true, 0.125, 0.03125, 4)
    {
      this.capacity := if capacity < 3 then 3 else capacity;
      samples, weights, weightsFor, head, minDelay := [], [], None, 0, None;
      floorRatio, offsetFloorRatio, adaptiveWindow := 0.125, 0.03125, true;
      history, cached := [], [];
      new;
      MinDelayMeaning(Window());
      ValidMeans();
    }

    method SetWeightFloorRatio(ratio: real)
      requires Ready()
      modifies this`floorRatio
      ensures Ready() && floorRatio == Max(ratio, 0.0001)
    {
      ValidMeans();
      floorRatio := Max(ratio, 0.0001);
      ValidMeans();
    }

    method SetOffsetWeightFloorRatio(ratio: real)
      requires Ready()
      modifies this`offsetFloorRatio
      ensures Ready() && offsetFloorRatio == Max(ratio, 0.0001)
    {
      ValidMeans();
      offsetFloorRatio := Max(ratio, 0.0001);
      ValidMeans();
    }

    method SetAdaptiveWindow(on: bool)
      requires Ready()
      modifies this`adaptiveWindow
      ensures Ready() && adaptiveWindow == on
    {
      ValidMeans();
      adaptiveWindow := on;
      ValidMeans();
    }

    /** Scan for the least delay. */
    method ScanMinDelay(kept: seq<Sample>) returns (lowest: Option<real>)
      ensures lowest == MinDelay(kept)
    {
      lowest := None;
      MinDelayMeaning(kept);
      for i := 0 to |kept|
        invariant lowest == MinDelay(kept[..i])
      {
        assert kept[..i + 1][..i] == kept[..i];
        lowest := Some(if lowest.Some? then Min(lowest.value, kept[i].delay) else kept[i].delay);
      }
      assert kept[..|kept|] == kept;
    }

    /** Reclaim the dead prefix in one move. */
    method Compact()
      requires head <= |samples| && CacheRight()
      modifies this`samples, this`weights, this`cached, this`head
      ensures unchanged(`minDelay)
      ensures head == 0 && CacheRight() && Window() == old(Window())
      ensures cached == old(cached)[old(head)..]
    {
      samples := samples[head..];
      weights := weights[head..];
      cached := cached[head..];
      head := 0;
    }

    /** Move the cursor past the oldest sample of an overfull window; what minimum is left? */
    method EvictOldest(ghost window: seq<Sample>, ghost s: Sample) returns (lowest: Option<real>)
      requires head < |samples| && CacheRight() && |window| >= 3
      requires samples[head..] == window + [s] && minDelay == MinDelay(window)
      modifies this`head
      ensures head == old(head) + 1 && CacheRight() && Window() == window[1..] + [s]
      ensures Leads(lowest, window[1..], s)
    {
      var evicted := samples[head];
      assert evicted == (window + [s])[0] == window[0];
      head := head + 1;
      assert samples[head..] == (window + [s])[1..] == window[1..] + [s];
      lowest := minDelay;
      MinDelayMeaning(window);
      if evicted.delay <= minDelay.value {
        lowest := ScanMinDelay(samples[head..]);
      } else {
        EvictAboveMin(window, minDelay.value);
      }
    }

    /** Append a sample to the storage and let the oldest go from a full window. */
    method Append(s: Sample, ghost window: seq<Sample>) returns (lowest: Option<real>, ghost kept: seq<Sample>)
      requires Valid() && window == Window()
      modifies this`samples, this`weights, this`cached, this`head
      ensures CacheRight() && head < capacity && head <= |samples| <= head + capacity && |samples| <= 2 * capacity
      ensures kept == (if |window| == capacity then window[1..] else window) && Window() == kept + [s]
      ensures Leads(lowest, kept, s)
      ensures old(AllCached()) ==> CachedButNewest()
    {
      hide MinDelay;
      ValidMeans();
      samples := samples + [s];
      weights := weights + [0.0];
      cached := cached + [false];
      lowest, kept := minDelay, window;
      assert samples[head..] == window + [s];
      if |samples| - head > capacity {
        lowest := EvictOldest(window, s);
        kept := window[1..];
      }
      if head >= capacity {
        Compact();
      }
    }

    /** Let the newest sample lower the minimum. */
    method LowerMinDelay(s: Sample, lowest: Option<real>, ghost kept: seq<Sample>, ghost window: seq<Sample>)
      requires CacheRight() && capacity >= 3 && head < capacity && head <= |samples| <= head + capacity
      requires Window() == kept + [s] == Last(window + [s], capacity)
      requires Leads(lowest, kept, s) && window == Last(history, capacity)
      modifies this`minDelay, this`history
      ensures Valid() && history == old(history) + [s]
    {
      hide MinDelay;
      MinDelayOfMore(kept, s, lowest);
      minDelay := Some(if lowest.Some? then Min(lowest.value, s.delay) else s.delay);
      LastOfMore(history, s, capacity);
      history := history + [s];
      ValidMeans();
    }

    /**
     Push a sample: the window is then the newest `capacity` samples. The storage is
     compacted once its dead prefix is as long as the window, so that it never exceeds
     twice the capacity.
     */
    method Push(s: Sample)
      requires Valid()
      requires Window() == [] || s.t >= Window()[|Window()| - 1].t
      modifies this`samples, this`weights, this`cached, this`head, this`minDelay, this`history
      ensures Valid() && history == old(history) + [s]
      ensures Window() == Last(old(Window()) + [s], capacity)
      ensures |samples| <= 2 * capacity
      ensures old(AllCached()) ==> CachedButNewest()
      ensures old(UpToDate()) ==> Fresh()
    {
      ValidMeans();
      ghost var window := Window();
      var lowest, kept := Append(s, window);
      assert kept + [s] == Last(window + [s], capacity);
      LowerMinDelay(s, lowest, kept, window);
    }
    /**
     Bring the cached weights up to date: all of them where the key has moved, the
     newest otherwise. Afterwards every weight is exact if and only if the key had
     moved or all but the newest were exact already.
     */
    method SyncWeights(least: real, floor: real)
      requires Valid() && Window() != [] && floor == FloorFor(least, floorRatio)
      modifies this`weights, this`weightsFor, this`cached
      ensures Valid() && weightsFor == Some(WeightKey(least, floorRatio))
      ensures WeightsExact(WeightKey(least, floorRatio))
              <==> old(weightsFor) != Some(WeightKey(least, floorRatio)) || old(CachedButNewest())
      ensures AllCached() <==> WeightsExact(WeightKey(least, floorRatio))
    {
      hide MinDelay;
      ValidMeans();
      var key := WeightKey(least, floorRatio);
      var stale := Some(key) != weightsFor;
      var start := if stale then head else |samples| - 1;
      for i := start to |samples|
        invariant |weights| == |samples| == |cached|
        invariant forall j | start <= j < i :: cached[j] && weights[j] == WeightBy(samples[j], key)
        invariant forall j | head <= j < start :: cached[j] == old(cached)[j] && weights[j] == old(weights)[j]
      {
        weights := weights[i := WeightFor(samples[i].delay, least, floor)];
        cached := cached[i := true];
      }
      weightsFor := Some(key);
      if !stale && !old(CachedButNewest()) {
        var i :| head <= i < |samples| - 1 && !old(cached)[i];
        assert !cached[i] && weights[i] == 0.0;
      }
      ValidMeans();
    }

    /** Drop the history: after a step every stored offset is stale. */
    method Clear()
      requires Valid()
      modifies this`samples, this`weights, this`weightsFor, this`cached, this`head, this`minDelay, this`history
      ensures Ready() && Window() == [] && history == []
    {
      ValidMeans();
      samples, weights, weightsFor, head, minDelay := [], [], None, 0, None;
      history, cached := [], [];
      MinDelayMeaning(Window());
      ValidMeans();
    }

    /** Re-express the stored samples after the clock was corrected. */
    method SlewSamples(tChange: real, dfreqPpm: real, doffset: real)
      requires Valid()
      modifies this`samples, this`history
      ensures Valid()
      ensures Window() == SlewedSamples(old(Window()), Correction(tChange, dfreqPpm * 0.000001, doffset))
      ensures history == SlewedSamples(old(history), Correction(tChange, dfreqPpm * 0.000001, doffset))
      ensures old(Ready()) ==> Ready()
    {
      hide MinDelay;
      ValidMeans();
      ghost var before, pushed := samples, history;
      ghost var c := Correction(tChange, dfreqPpm * 0.000001, doffset);
      samples := SlewFrom(samples, head, tChange, dfreqPpm, doffset);
      history := SlewedSamples(pushed, c);
      SlewKeepsWindow(before, samples, head, c, pushed, capacity);
      MinDelaySlewed(before[head..], c);
      ValidMeans();
    }

    method Len() returns (n: nat)
      requires Valid()
      ensures n == |Window()| <= capacity
    {
      ValidMeans();
      n := |samples| - head;
    }

    /** The first of the samples with the least delay among the newest eight. */
    method Best() returns (best: Option<Sample>)
      requires Valid()
      ensures best.None? <==> Window() == []
      ensures best.Some? ==> IsBest(Window(), best.value)
    {
      ValidMeans();
      var win := samples[head..];
      var tail := Last(win, 8);
      if tail == [] {
        return None;
      }
      var at := 0;
      for i := 1 to |tail|
        invariant 0 <= at < i
        invariant forall j | 0 <= j < i :: tail[at].delay <= tail[j].delay
        invariant forall j | 0 <= j < at :: tail[at].delay < tail[j].delay
      {
        if tail[i].delay < tail[at].delay {
          at := i;
        }
      }
      return Some(tail[at]);
    }

    /**
     The weighted regression, extrapolated to `now`. It works on the cached weights;
     where the key had moved since the last estimate or at most one sample was pushed,
     they are those computed from scratch, and all are cached again.
     */
    method Regress(now: real) returns (e: Option<Estimate>)
      requires Valid()
      modifies this`weights, this`weightsFor, this`cached
      ensures Valid()
      ensures |Window()| < 3 ==> e == None
      ensures |Window()| >= 3 ==>
                && minDelay.Some?
                && e == Regressed(RowsWith(Window(), weights[head..]), now, minDelay.value, Settings())
      ensures |Window()| >= 3
              && (old(CachedButNewest()) || old(weightsFor) != Some(WeightKey(minDelay.value, floorRatio))) ==>
                e == WindowEstimate(Window(), now, Settings()) && AllCached()
      ensures old(Fresh()) ==> Ready()
    {
      hide Regressed;
      ValidMeans();
      MinDelayMeaning(Window());
      if |samples| - head < 3 {
        return None;
      }
      var least := minDelay.value;
      SyncWeights(least, FloorFor(least, floorRatio));
      var rows := RowsWith(samples[head..], weights[head..]);
      e := RegressRows(rows, now, least, Settings());
      if WeightsExact(WeightKey(least, floorRatio)) {
        assert rows == RowsFor(Window(), WeightKey(least, floorRatio));
      }
    }
  }

  /** From `s` to `r` the samples from `head` up to `i` were corrected. */
  ghost predicate SlewedUpTo(s: seq<Sample>, r: seq<Sample>, head: nat, i: nat, c: Correction) {
    && |r| == |s| && head <= i <= |s|
    && (forall j | head <= j < i :: r[j] == SlewedSample(s[j], c))
    && (forall j | 0 <= j < |s| && !(head <= j < i) :: r[j] == s[j])
  }

  lemma GainedFlat(t: real, c: Correction)
    requires c.rate == 0.0
    ensures Gained(t, c) == c.d
  {
  }

  lemma SlewKeepsWindow(s: seq<Sample>, r: seq<Sample>, head: nat, c: Correction, h: seq<Sample>, n: nat)
    requires SlewedUpTo(s, r, head, |s|, c) && s[head..] == Last(h, n)
    ensures r[head..] == SlewedSamples(s[head..], c) == Last(SlewedSamples(h, c), n)
    ensures forall j | head <= j < |s| :: r[j].delay == s[j].delay
  {
  }

  /** A correction of nothing corrects nothing. */
  lemma NothingGained(s: seq<Sample>, head: nat, c: Correction)
    requires head <= |s|
    ensures c.rate == 0.0 && c.d == 0.0 ==> SlewedUpTo(s, s, head, |s|, c)
  {
    if c.rate == 0.0 && c.d == 0.0 {
      forall j | head <= j < |s|
        ensures s[j] == SlewedSample(s[j], c)
      {
        assert Gained(s[j].t, c) == 0.0;
      }
    }
  }

  /** Walk the window once, specialised on which term is live. */
  method SlewFrom(s: seq<Sample>, head: nat, tChange: real, dfreqPpm: real, doffset: real) returns (r: seq<Sample>)
    requires head <= |s|
    ensures SlewedUpTo(s, r, head, |s|, Correction(tChange, dfreqPpm * 0.000001, doffset))
  {
    var rate := dfreqPpm * 0.000001;
    ghost var c := Correction(tChange, rate, doffset);
    r := s;
    if dfreqPpm == 0.0 {
      NothingGained(s, head, c);
      if doffset != 0.0 {
        for i := head to |s|
          invariant SlewedUpTo(s, r, head, i, c)
        {
          GainedFlat(r[i].t, c);
          SlewStep(s, r, head, i, c, r[i].offset - doffset);
          r := r[i := r[i].(offset := r[i].offset - doffset)];
        }
      }
    } else if doffset == 0.0 {
      for i := head to |s|
        invariant SlewedUpTo(s, r, head, i, c)
      {
        SlewStep(s, r, head, i, c, r[i].offset - rate * (r[i].t - tChange));
        r := r[i := r[i].(offset := r[i].offset - rate * (r[i].t - tChange))];
      }
    } else {
      for i := head to |s|
        invariant SlewedUpTo(s, r, head, i, c)
      {
        SlewStep(s, r, head, i, c, r[i].offset - (doffset + rate * (r[i].t - tChange)));
        r := r[i := r[i].(offset := r[i].offset - (doffset + rate * (r[i].t - tChange)))];
      }
    }
  }

  lemma SlewStep(s: seq<Sample>, r: seq<Sample>, head: nat, i: nat, c: Correction, offset: real)
    requires SlewedUpTo(s, r, head, i, c) && i < |s| && offset == s[i].offset - Gained(s[i].t, c)
    ensures r[i] == s[i] && SlewedUpTo(s, r[i := r[i].(offset := offset)], head, i + 1, c)
  {
  }

  /** `m` is the minimum of the kept samples, with or without the newest. */
  ghost predicate Leads(m: Option<real>, kept: seq<Sample>, s: Sample) {
    m == MinDelay(kept) || m == MinDelay(kept + [s])
  }

  lemma LastOfMore<T>(h: seq<T>, x: T, n: nat)
    requires n > 0
    ensures Last(h + [x], n) == Last(Last(h, n) + [x], n)
  {
  }

  /** Taking the newest delay into account once more changes nothing. */
  lemma MinDelayOfMore(kept: seq<Sample>, s: Sample, m: Option<real>)
    requires Leads(m, kept, s)
    ensures MinDelay(kept + [s]) == Some(if m.Some? then Min(m.value, s.delay) else s.delay)
  {
    assert (kept + [s])[..|kept|] == kept;
    MinDelayMeaning(kept);
    MinDelayMeaning(kept + [s]);
    assert s in kept + [s];
  }

  lemma EvictAboveMin(window: seq<Sample>, m: real)
    requires window != [] && MinDelay(window) == Some(m) && window[0].delay > m
    ensures MinDelay(window[1..]) == Some(m)
  {
    MinDelayMeaning(window);
    assert window == [window[0]] + window[1..];
    var x :| x in window && m == x.delay;
    MinDelayIs(window[1..], m, x);
  }
}
