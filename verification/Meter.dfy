/** Request rate and requests in flight of one flow control, kept in rings of time buckets. */
module Meter {
  import opened Wrappers
  import opened Ring

  function SumInt(s: seq<int>): int {
    if s == [] then 0 else SumInt(s[..|s| - 1]) + s[|s| - 1]
  }

  function SumReal(s: seq<real>): real {
    if s == [] then 0.0 else SumReal(s[..|s| - 1]) + s[|s| - 1]
  }

  lemma {:induction false} SumIntUpdate(s: seq<int>, i: nat, v: int)
    requires i < |s|
    ensures SumInt(s[i := v]) == SumInt(s) - s[i] + v
  {
    var k := |s| - 1;
    if i < k {
      assert s[i := v][..k] == s[..k][i := v];
      SumIntUpdate(s[..k], i, v);
    } else {
      assert s[i := v][..k] == s[..k];
    }
  }

  lemma {:induction false} SumRealUpdate(s: seq<real>, i: nat, v: real)
    requires i < |s|
    ensures SumReal(s[i := v]) == SumReal(s) - s[i] + v
  {
    var k := |s| - 1;
    if i < k {
      assert s[i := v][..k] == s[..k][i := v];
      SumRealUpdate(s[..k], i, v);
    } else {
      assert s[i := v][..k] == s[..k];
    }
  }

  lemma {:induction false} SumOfZeros(s: seq<int>)
    requires forall i :: 0 <= i < |s| ==> s[i] == 0
    ensures SumInt(s) == 0
  {
    if s != [] {
      SumOfZeros(s[..|s| - 1]);
    }
  }

  lemma {:induction false} SumOfRealZeros(s: seq<real>)
    requires forall i :: 0 <= i < |s| ==> s[i] == 0.0
    ensures SumReal(s) == 0.0
  {
    if s != [] {
      SumOfRealZeros(s[..|s| - 1]);
    }
  }

  lemma MeanStep(avg: real, delta: real, len: real)
    requires len > 0.0
    ensures (avg + delta / len) * len == avg * len + delta
  {
    var q := delta / len;
    assert q * len == delta;
  }

  /** The rates of a ring, with zero for one that is not a number. */
  function Values(s: seq<Option<real>>): seq<real> {
    seq(|s|, i requires 0 <= i < |s| => s[i].GetOr(0.0))
  }

  /** An average, while it is a number, is the mean of the n rates. */
  ghost predicate IsMean(avg: Option<real>, s: seq<Option<real>>, n: real) {
    avg.Some? ==> (forall i :: 0 <= i < |s| ==> s[i].Some?) && avg.value * n == SumReal(Values(s))
  }

  /** The average after a rate replaces the oldest one: not a number as soon as either is not. */
  function NextMean(avg: Option<real>, oldest: Option<real>, rate: Option<real>, n: real): Option<real>
    requires n > 0.0
  {
    if avg.Some? && oldest.Some? && rate.Some? then Some(avg.value + (rate.value - oldest.value) / n) else None
  }

  /** Replacing one rate moves the mean to the new mean. */
  lemma MeanMoves(avg: Option<real>, s: seq<Option<real>>, i: nat, rate: Option<real>, n: real)
    requires i < |s| && n > 0.0
    requires IsMean(avg, s, n)
    ensures IsMean(NextMean(avg, s[i], rate, n), s[i := rate], n)
    ensures NextMean(avg, s[i], rate, n).Some? <==> avg.Some? && rate.Some?
  {
    if avg.Some? && rate.Some? {
      SumRealUpdate(Values(s), i, rate.value);
      assert Values(s[i := rate]) == Values(s)[i := rate.value];
      MeanStep(avg.value, rate.value - s[i].value, n);
    }
  }

  /** Some bucket lengths, in seconds. */
  function Scaled(seconds: real, buckets: int): real { seconds * buckets as real }

  class Meter {
    const rateLen: nat
    const inflightLen: nat
    const bucketMillis: nat

    var uncounted: int
    var counter: int
    var currentIndex: nat
    var rateAvg: Option<real> // None once it is not a finite number
    var last: int
    var counterBuckets: array<Option<real>>

    var inflightIndex: nat
    var inflightAvg: real
    var inflightMax: int
    var inflightBuckets: array<int>

    predicate Shaped()
      reads this
    {
      && counterBuckets.Length == rateLen > 0 && currentIndex < rateLen
      && inflightBuckets.Length == inflightLen > 0 && inflightIndex < inflightLen
      && bucketMillis > 0
    }

    function BucketSeconds(): real { bucketMillis as real / 1000.0 }

    /** The average rate kept along the way, while it is a number, is the mean of the rates in the ring. */
    ghost predicate RateIsMean()
      reads this`rateAvg, this`counterBuckets, counterBuckets
    {
      IsMean(rateAvg, counterBuckets[..], rateLen as real)
    }

    /** The sum of all buckets but the current one. */
    ghost function Settled(): int
      requires Shaped()
      reads this, inflightBuckets
    {
      SumInt(inflightBuckets[..]) - inflightBuckets[inflightIndex]
    }

    /** The average kept along the way is that of all buckets but the current one. */
    ghost predicate InflightIsMean()
      requires Shaped()
      reads this, inflightBuckets
    {
      inflightAvg == Scaled(BucketSeconds(), Settled())
    }

    ghost predicate Valid()
      reads this, counterBuckets, inflightBuckets
    {
      Shaped() && RateIsMean() && InflightIsMean()
    }

    constructor (rateLen: nat, inflightLen: nat, bucketMillis: nat, now: int)
      requires rateLen > 0 && inflightLen > 0 && bucketMillis > 0
      ensures Valid() && fresh(counterBuckets) && fresh(inflightBuckets)
      ensures this.rateLen == rateLen && this.inflightLen == inflightLen && this.bucketMillis == bucketMillis
      ensures last == now && uncounted == counter == 0
      ensures inflightIndex == 0 && forall i :: 0 <= i < inflightLen ==> inflightBuckets[i] == 0
      ensures rateAvg == Some(0.0) && inflightAvg == 0.0
    {
      this.rateLen, this.inflightLen, this.bucketMillis := rateLen, inflightLen, bucketMillis;
      uncounted, counter, currentIndex, rateAvg, last := 0, 0, 0, Some(0.0), now;
      inflightIndex, inflightAvg, inflightMax := 0, 0.0, 0;
      counterBuckets := new Option<real>[rateLen](_ => Some(0.0));
      inflightBuckets := new int[inflightLen](_ => 0);
      new;
      SumOfRealZeros(Values(counterBuckets[..]));
      SumOfZeros(inflightBuckets[..]);
    }

    method Add(n: int)
      modifies this`uncounted, this`counter
      ensures uncounted == old(uncounted) + n && counter == old(counter) + n
    {
      uncounted := uncounted + n;
      counter := counter + n;
    }

    /** Requests per second since the last call, not a number at the instant of that call; now is in nanoseconds. */
    method LatestRate(now: int) returns (rate: Option<real>)
      modifies this`uncounted, this`last
      ensures uncounted == 0 && last == now
      ensures rate.None? <==> now == old(last)
      ensures rate.Some? ==> rate.value * (now - old(last)) as real == old(uncounted) as real * 1_000_000_000.0
    {
      var count := uncounted;
      uncounted := uncounted - count;
      var window := (now - last) as real / 1_000_000_000.0;
      if now == last {
        rate := None;
      } else {
        rate := Some(count as real / window);
        assert rate.value * window == count as real;
        assert window * 1_000_000_000.0 == (now - old(last)) as real;
      }
      last := now;
    }

    /**
     * Replaces the oldest rate by the latest one. The average stays the mean of the ring, and is lost for good
     * exactly when two ticks fall on the same instant.
     */
    method CalculateAvgRate(now: int) returns (ghost latest: Option<real>)
      requires Valid()
      modifies this`uncounted, this`last, this`rateAvg, this`currentIndex, counterBuckets
      ensures Valid()
      ensures latest.None? <==> now == old(last)
      ensures latest.Some? ==> latest.value * (now - old(last)) as real == old(uncounted) as real * 1_000_000_000.0
      ensures counterBuckets[..] == old(counterBuckets[..])[old(currentIndex) := latest]
      ensures currentIndex == (old(currentIndex) + 1) % rateLen
      ensures uncounted == 0 && last == now
      ensures rateAvg.Some? <==> old(rateAvg).Some? && now != old(last)
    {
      var rate := LatestRate(now);
      latest := rate;
      var oldest := counterBuckets[currentIndex];
      ghost var before := counterBuckets[..];
      MeanMoves(rateAvg, before, currentIndex, rate, rateLen as real);
      rateAvg := NextMean(rateAvg, oldest, rate, rateLen as real);
      counterBuckets[currentIndex] := rate;
      assert counterBuckets[..] == before[currentIndex := rate];
      currentIndex := (currentIndex + 1) % rateLen;
    }

    /** The index of the bucket for a point in time. */
    function IndexAt(milli: nat): (i: nat)
      requires bucketMillis > 0 && inflightLen > 0
      ensures i < inflightLen
    {
      milli / bucketMillis % inflightLen
    }

    /**
     * Clears the buckets strictly between the last one and the current one; delta starts with the last bucket
     * and loses what is cleared.
     */
    method ClearPassed(cur: nat) returns (delta: int)
      requires Shaped() && cur < inflightLen && cur != inflightIndex
      modifies inflightBuckets
      ensures forall i :: 0 <= i < inflightLen ==>
                inflightBuckets[i] == if 0 < Dist(inflightIndex, i, inflightLen) < Dist(inflightIndex, cur, inflightLen)
                                      then 0 else old(inflightBuckets[i])
      ensures delta == old(inflightBuckets[inflightIndex])
                       + SumInt(inflightBuckets[..]) - SumInt(old(inflightBuckets[..]))
    {
      var fake := cur;
      if cur < inflightIndex {
        fake := cur + inflightLen;
      }
      delta := inflightBuckets[inflightIndex];
      for i := inflightIndex + 1 to fake
        invariant forall j :: 0 <= j < inflightLen ==>
                    inflightBuckets[j] == if 0 < Dist(inflightIndex, j, inflightLen) < i - inflightIndex
                                          then 0 else old(inflightBuckets[j])
        invariant delta == old(inflightBuckets[inflightIndex])
                           + SumInt(inflightBuckets[..]) - SumInt(old(inflightBuckets[..]))
      {
        var index := i % inflightLen;
        WrapsOnce(i, inflightLen);
        ghost var before := inflightBuckets[..];
        SumIntUpdate(before, index, 0);
        delta := delta - inflightBuckets[index];
        inflightBuckets[index] := 0;
        assert inflightBuckets[..] == before[index := 0];
      }
    }

    method MaxBucket() returns (max: int)
      requires Shaped()
      ensures max >= 0 && forall i :: 0 <= i < inflightLen ==> inflightBuckets[i] <= max
      ensures max == 0 || exists i :: 0 <= i < inflightLen && inflightBuckets[i] == max
    {
      max := 0;
      for i := 0 to inflightBuckets.Length
        invariant max >= 0 && forall j :: 0 <= j < i ==> inflightBuckets[j] <= max
        invariant max == 0 || exists j :: 0 <= j < i && inflightBuckets[j] == max
      {
        if inflightBuckets[i] > max {
          max := inflightBuckets[i];
        }
      }
    }

    /** Starts a new bucket; delta is how much the sum of all buckets but the current one changes. */
    method MoveTo(cur: nat, inflight: int) returns (delta: int)
      requires Shaped() && cur < inflightLen && cur != inflightIndex
      modifies this`inflightIndex, inflightBuckets
      ensures inflightBuckets[..] == Advance(old(inflightBuckets[..]), old(inflightIndex), cur, inflight)
      ensures inflightIndex == cur
      ensures delta == (SumInt(inflightBuckets[..]) - inflight)
                       - (SumInt(old(inflightBuckets[..])) - old(inflightBuckets[inflightIndex]))
    {
      ghost var before, last := inflightBuckets[..], inflightIndex;
      delta := ClearPassed(cur);
      ghost var passed := inflightBuckets[..];
      SumIntUpdate(passed, cur, inflight);
      delta := delta - inflightBuckets[cur];
      inflightBuckets[cur] := inflight;
      inflightIndex := cur;
      ghost var after := inflightBuckets[..];
      assert after == passed[cur := inflight];
      forall i | 0 <= i < |after| ensures after[i] == Advance(before, last, cur, inflight)[i] {
        assert passed[i] == if 0 < Dist(last, i, inflightLen) < Dist(last, cur, inflightLen) then 0 else before[i];
      }
    }

    /** Keeps the larger value in the current bucket. */
    method Raise(inflight: int)
      requires Shaped()
      modifies inflightBuckets
      ensures inflightBuckets[..] == Advance(old(inflightBuckets[..]), inflightIndex, inflightIndex, inflight)
      ensures SumInt(inflightBuckets[..]) - inflightBuckets[inflightIndex]
              == old(SumInt(inflightBuckets[..]) - inflightBuckets[inflightIndex])
    {
      ghost var before := inflightBuckets[..];
      if inflight > inflightBuckets[inflightIndex] {
        SumIntUpdate(before, inflightIndex, inflight);
        inflightBuckets[inflightIndex] := inflight;
        assert inflightBuckets[..] == before[inflightIndex := inflight];
      }
      assert inflightBuckets[..] == Advance(before, inflightIndex, inflightIndex, inflight);
    }

    method AddToAverage(delta: int, ghost settled: int)
      requires inflightAvg == Scaled(BucketSeconds(), settled)
      modifies this`inflightAvg
      ensures inflightAvg == Scaled(BucketSeconds(), settled + delta)
    {
      AverageStep(BucketSeconds(), settled, delta);
      inflightAvg := inflightAvg + delta as real * BucketSeconds();
    }

    /** Puts a sample into the ring; the average stays that of all buckets but the current one. */
    method CalInflight(inflight: int, milli: nat)
      requires Valid()
      modifies this`inflightIndex, this`inflightAvg, this`inflightMax, inflightBuckets
      ensures Valid()
      ensures inflightBuckets[..] == Advance(old(inflightBuckets[..]), old(inflightIndex), IndexAt(milli), inflight)
      ensures inflightIndex == IndexAt(milli)
      ensures inflightIndex != old(inflightIndex) ==>
                && (forall i :: 0 <= i < inflightLen ==> inflightBuckets[i] <= inflightMax)
                && (inflightMax == 0 || exists i :: 0 <= i < inflightLen && inflightBuckets[i] == inflightMax)
    {
      var cur := IndexAt(milli);
      ghost var settled := Settled();
      if cur == inflightIndex {
        Raise(inflight);
        assert Settled() == settled;
      } else {
        var delta := MoveTo(cur, inflight);
        assert Settled() == settled + delta;
        AddToAverage(delta, settled);
        assert InflightIsMean();
        inflightMax := MaxBucket();
      }
    }

    function LogOf(events: seq<(nat, int)>): seq<Sample>
      requires bucketMillis > 0
    {
      seq(|events|, i requires 0 <= i < |events| => Sample(events[i].0 / bucketMillis, events[i].1))
    }

    /** A new meter fed with samples: the ring is the replay of their log, and so refines it when they are steady. */
    method InflightWorker(events: seq<(nat, int)>)
      requires Valid() && inflightIndex == 0
      requires forall i :: 0 <= i < inflightLen ==> inflightBuckets[i] == 0
      modifies this`inflightIndex, this`inflightAvg, this`inflightMax, inflightBuckets
      ensures Valid()
      ensures (inflightBuckets[..], inflightIndex) == Replay(LogOf(events), inflightLen)
      ensures events != [] && Steady(LogOf(events), inflightLen) ==>
                Refines(inflightBuckets[..], LogOf(events), events[|events| - 1].0 / bucketMillis)
    {
      assert inflightBuckets[..] == seq(inflightLen, _ => 0);
      for k := 0 to |events|
        invariant Valid()
        invariant (inflightBuckets[..], inflightIndex) == Replay(LogOf(events)[..k], inflightLen)
      {
        assert LogOf(events)[..k + 1][..k] == LogOf(events)[..k];
        CalInflight(events[k].1, events[k].0);
      }
      assert LogOf(events)[..|events|] == LogOf(events);
      if events != [] && Steady(LogOf(events), inflightLen) {
        RingRefinesLog(LogOf(events), inflightLen);
      }
    }
  }

  lemma WrapsOnce(i: nat, len: nat)
    requires len > 0 && i < 2 * len
    ensures i % len == if i < len then i else i - len
  {
    ModUnique(i, len, if i < len then 0 else 1, if i < len then i else i - len);
  }

  lemma AverageStep(sec: real, sum: int, delta: int)
    ensures sec * sum as real + delta as real * sec == sec * (sum + delta) as real
  {
  }
}
