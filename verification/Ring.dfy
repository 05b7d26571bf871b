/** A ring of time buckets against the log of samples it summarises. */
module Ring {

  /** How far b lies after a on a ring. */
  function Dist(a: nat, b: nat, len: nat): int
    requires a < len && b < len
  {
    if b >= a then b - a else b - a + len
  }

  /** The buckets after a sample: those passed over are cleared, the current one starts over or keeps its maximum. */
  function Advance(buckets: seq<int>, last: nat, cur: nat, v: int): (r: seq<int>)
    requires last < |buckets| && cur < |buckets|
    ensures |r| == |buckets|
  {
    seq(|buckets|, i requires 0 <= i < |buckets| =>
      if i == cur then if cur != last || v > buckets[i] then v else buckets[i]
      else if 0 < Dist(last, i, |buckets|) < Dist(last, cur, |buckets|) then 0
      else buckets[i])
  }

  // ---------- the log ----------

  /** A number of requests in flight, seen in a time slot. */
  datatype Sample = Sample(slot: int, value: int)

  /** The maximum of the samples of a slot, 0 if there is none. */
  function SlotMax(log: seq<Sample>, slot: int): int {
    if log == [] then 0 else
      var m, s := SlotMax(log[..|log| - 1], slot), log[|log| - 1];
      if s.slot == slot && s.value > m then s.value else m
  }

  /** Every bucket holds the maximum of its own slot of the window that ends with slot c. */
  ghost predicate Refines(buckets: seq<int>, log: seq<Sample>, c: int) {
    && |buckets| > 0
    && forall s :: c - |buckets| < s <= c ==> buckets[s % |buckets|] == SlotMax(log, s)
  }

  lemma {:induction false} NoSampleNoMax(log: seq<Sample>, slot: int)
    requires forall i :: 0 <= i < |log| ==> log[i].slot != slot
    ensures SlotMax(log, slot) == 0
  {
    if log != [] {
      NoSampleNoMax(log[..|log| - 1], slot);
    }
  }

  lemma SlotMaxSnoc(log: seq<Sample>, x: Sample, slot: int)
    ensures var m := SlotMax(log, slot);
            SlotMax(log + [x], slot) == if x.slot == slot && x.value > m then x.value else m
  {
    assert (log + [x])[..|log|] == log;
  }

  // ---------- slots and indices ----------

  lemma MulAtLeast(d: int, len: nat)
    requires d >= 1
    ensures d * len >= len
  {
    assert (d - 1) * len >= 0;
    assert d * len == (d - 1) * len + len;
  }

  lemma SmallMultiple(d: int, len: nat, x: int)
    requires d * len == x && 0 < len && x < len && 0 < x + len
    ensures d == 0
  {
    if d >= 1 {
      MulAtLeast(d, len);
    } else if d <= -1 {
      MulAtLeast(-d, len);
    }
  }

  lemma ModUnique(a: int, len: nat, q: int, r: int)
    requires len > 0 && a == q * len + r && 0 <= r < len
    ensures a % len == r
  {
    var q', r' := a / len, a % len;
    assert a == q' * len + r';
    assert (q - q') * len == q * len - q' * len;
    SmallMultiple(q - q', len, r' - r);
  }

  /** Two slots less than a ring apart have indices that lie as far apart on the ring. */
  lemma SlotDistance(c: int, s: int, len: nat)
    requires len > 0 && c - len < s < c + len
    ensures Dist(c % len, s % len, len) == if s >= c then s - c else s - c + len
  {
    var q, r, k := c / len, c % len, s - c;
    if 0 <= r + k < len {
      ModUnique(s, len, q, r + k);
    } else if r + k >= len {
      ModUnique(s, len, q + 1, r + k - len);
    } else {
      ModUnique(s, len, q - 1, r + k + len);
    }
  }

  // ---------- refinement ----------

  /** One sample less than a ring later: the slots passed over are empty and nothing older survives. */
  lemma SampleRefines(buckets: seq<int>, log: seq<Sample>, c: int, x: Sample)
    requires Refines(buckets, log, c)
    requires forall i :: 0 <= i < |log| ==> log[i].slot <= c
    requires c <= x.slot < c + |buckets| && x.value >= 0
    ensures Refines(Advance(buckets, c % |buckets|, x.slot % |buckets|, x.value), log + [x], x.slot)
  {
    var len := |buckets|;
    var next := Advance(buckets, c % len, x.slot % len, x.value);
    SlotDistance(c, x.slot, len);
    forall s | x.slot - len < s <= x.slot ensures next[s % len] == SlotMax(log + [x], s) {
      SlotMaxSnoc(log, x, s);
      SlotDistance(c, s, len);
      if s == x.slot {
        if c < s { NoSampleNoMax(log, s); }
      } else {
        SlotDistance(s, x.slot, len);
        if s > c { NoSampleNoMax(log, s); }
      }
    }
  }

  lemma FirstSampleRefines(buckets: seq<int>, last: nat, x: Sample)
    requires last < |buckets| && x.value >= 0
    requires forall i :: 0 <= i < |buckets| ==> buckets[i] == 0
    ensures Refines(Advance(buckets, last, x.slot % |buckets|, x.value), [x], x.slot)
  {
    var len := |buckets|;
    forall s | x.slot - len < s <= x.slot
      ensures Advance(buckets, last, x.slot % len, x.value)[s % len] == SlotMax([x], s) {
      SlotMaxSnoc([], x, s);
      assert [] + [x] == [x];
      if s != x.slot { SlotDistance(s, x.slot, len); }
    }
  }

  /** The ring after a log of samples, starting from empty buckets. */
  function Replay(log: seq<Sample>, len: nat): (r: (seq<int>, nat))
    requires len > 0
    ensures |r.0| == len && r.1 < len
  {
    if log == [] then (seq(len, _ => 0), 0) else
      var (buckets, last) := Replay(log[..|log| - 1], len);
      var x := log[|log| - 1];
      (Advance(buckets, last, x.slot % len, x.value), x.slot % len)
  }

  predicate Steady(log: seq<Sample>, len: nat) {
    && (forall i :: 0 <= i < |log| ==> log[i].value >= 0)
    && forall i :: 0 < i < |log| ==> log[i - 1].slot <= log[i].slot < log[i - 1].slot + len
  }

  lemma {:induction false} SteadyIsOrdered(log: seq<Sample>, len: nat, i: nat)
    requires Steady(log, len) && i < |log|
    ensures log[i].slot <= log[|log| - 1].slot
  {
    if i < |log| - 1 {
      SteadyIsOrdered(log[..|log| - 1], len, i);
    }
  }

  /** If samples are never a full ring apart, every bucket holds exactly the maximum of its own slot. */
  lemma {:induction false} RingRefinesLog(log: seq<Sample>, len: nat)
    requires len > 0 && log != [] && Steady(log, len)
    ensures Refines(Replay(log, len).0, log, log[|log| - 1].slot)
    ensures Replay(log, len).1 == log[|log| - 1].slot % len
  {
    var k := |log| - 1;
    var init, x := log[..k], log[k];
    assert init + [x] == log;
    if k == 0 {
      FirstSampleRefines(seq(len, _ => 0), 0, x);
      assert init == [] && log == [x];
    } else {
      RingRefinesLog(init, len);
      forall i | 0 <= i < |init| ensures init[i].slot <= init[k - 1].slot {
        SteadyIsOrdered(init, len, i);
      }
      assert log[k - 1] == init[k - 1];
      SampleRefines(Replay(init, len).0, init, init[k - 1].slot, x);
    }
  }

  // ---------- longer silences ----------

  /** The slot of the window ending with b that shares its bucket with slot a. */
  function Mate(a: int, b: int, len: nat): (m: int)
    requires len > 0
    ensures b - len < m <= b
  {
    b - (b - a) % len
  }

  lemma MateSharesIndex(a: int, b: int, len: nat)
    requires len > 0
    ensures Mate(a, b, len) % len == a % len
  {
    var q, p := (b - a) / len, a / len;
    assert Mate(a, b, len) == (p + q) * len + a % len;
    ModUnique(Mate(a, b, len), len, p + q, a % len);
  }

  lemma SameBucketSameSlot(a: int, b: int, len: nat)
    requires len > 0 && a - len < b < a + len && a % len == b % len
    ensures a == b
  {
    SlotDistance(a, b, len);
  }

  /** The last slot of the old window that a sample clears or overwrites; c - len if it clears none. */
  function LastTouched(c: int, len: nat, slot: int): (s: int)
    requires len > 0
    ensures c - len <= s < c
  {
    c - len + (slot - c) % len
  }

  lemma LastTouchedSharesIndex(c: int, len: nat, slot: int)
    requires len > 0
    ensures LastTouched(c, len, slot) % len == slot % len
    ensures LastTouched(c, len, slot) == c - len ==> c % len == slot % len
  {
    var q, p := (slot - c) / len, slot / len;
    assert LastTouched(c, len, slot) == (p - q - 1) * len + slot % len;
    ModUnique(LastTouched(c, len, slot), len, p - q - 1, slot % len);
    if LastTouched(c, len, slot) == c - len {
      assert c == (p - q) * len + slot % len;
      ModUnique(c, len, p - q, slot % len);
    }
  }

  /** The buckets of the old slots after a sample: cleared, kept, or kept as a maximum under the new slot. */
  lemma BucketAfterSilence(buckets: seq<int>, log: seq<Sample>, c: int, x: Sample, s: int)
    requires Refines(buckets, log, c) && c - |buckets| < s <= c
    ensures var len := |buckets|;
            var touched := LastTouched(c, len, x.slot);
            var next := Advance(buckets, c % len, x.slot % len, x.value);
            && (s < touched ==> next[s % len] == 0)
            && (s == touched ==> s % len == x.slot % len)
            && (s > touched && !(s == c && touched == c - len) ==>
                  s % len != x.slot % len && next[s % len] == SlotMax(log, s))
            && (s == c && touched == c - len ==>
                  && s % len == x.slot % len
                  && next[s % len] == if x.value > SlotMax(log, c) then x.value else SlotMax(log, c))
  {
    var len := |buckets|;
    var touched := LastTouched(c, len, x.slot);
    LastTouchedSharesIndex(c, len, x.slot);
    SlotDistance(c, s, len);
    if touched > c - len {
      SlotDistance(c, touched, len);
      if s != touched && s % len == touched % len { SameBucketSameSlot(s, touched, len); }
    } else {
      if s != c && s % len == c % len { SameBucketSameSlot(s, c, len); }
    }
  }

  /** The slots that a sample does not touch hold nothing. */
  predicate NothingLeft(log: seq<Sample>, c: int, len: nat, x: Sample)
    requires len > 0
  {
    var touched := LastTouched(c, len, x.slot);
    && (forall s :: touched < s < c ==> SlotMax(log, s) == 0)
    && SlotMax(log, c) <= if touched == c - len then x.value else 0
  }

  lemma {:induction false} SlotMaxNonNegative(log: seq<Sample>, slot: int)
    ensures SlotMax(log, slot) >= 0
  {
    if log != [] {
      SlotMaxNonNegative(log[..|log| - 1], slot);
    }
  }

  lemma EmptyRingAfterSilence(buckets: seq<int>, log: seq<Sample>, c: int, x: Sample, t: int)
    requires Refines(buckets, log, c) && NothingLeft(log, c, |buckets|, x)
    requires forall i :: 0 <= i < |log| ==> log[i].slot <= c
    requires x.slot >= c + |buckets| && x.value >= 0
    requires x.slot - |buckets| < t <= x.slot
    ensures Advance(buckets, c % |buckets|, x.slot % |buckets|, x.value)[t % |buckets|] == SlotMax(log + [x], t)
  {
    var len := |buckets|;
    SlotMaxSnoc(log, x, t);
    NoSampleNoMax(log, t);
    var s := Mate(t, c, len);
    MateSharesIndex(t, c, len);
    BucketAfterSilence(buckets, log, c, x, s);
    SlotMaxNonNegative(log, c);
    if t != x.slot && t % len == x.slot % len {
      SameBucketSameSlot(t, x.slot, len);
    }
  }

  lemma StaleBucketAfterSilence(buckets: seq<int>, log: seq<Sample>, c: int, x: Sample, s: int)
    requires Refines(buckets, log, c)
    requires forall i :: 0 <= i < |log| ==> log[i].slot <= c
    requires x.slot >= c + |buckets| && x.value >= 0
    requires var touched := LastTouched(c, |buckets|, x.slot);
             && touched < s <= c
             && SlotMax(log, s) > if s == c && touched == c - |buckets| then x.value else 0
    ensures !Refines(Advance(buckets, c % |buckets|, x.slot % |buckets|, x.value), log + [x], x.slot)
  {
    var len := |buckets|;
    var t := Mate(s, x.slot, len);
    MateSharesIndex(s, x.slot, len);
    BucketAfterSilence(buckets, log, c, x, s);
    SlotMaxSnoc(log, x, t);
    NoSampleNoMax(log, t);
    assert Advance(buckets, c % len, x.slot % len, x.value)[t % len] != SlotMax(log + [x], t) by {
      if s == c && LastTouched(c, len, x.slot) == c - len { SameBucketSameSlot(t, x.slot, len); }
    }
  }

  /**
   * After a silence of a full ring or more, the ring still refines the log exactly when the slots that the
   * new sample does not touch hold nothing.
   */
  lemma SilenceIsHarmlessIff(buckets: seq<int>, log: seq<Sample>, c: int, x: Sample)
    requires Refines(buckets, log, c)
    requires forall i :: 0 <= i < |log| ==> log[i].slot <= c
    requires x.slot >= c + |buckets| && x.value >= 0
    ensures Refines(Advance(buckets, c % |buckets|, x.slot % |buckets|, x.value), log + [x], x.slot)
            <==> NothingLeft(log, c, |buckets|, x)
  {
    var len := |buckets|;
    var touched := LastTouched(c, len, x.slot);
    if NothingLeft(log, c, len, x) {
      forall t | x.slot - len < t <= x.slot
        ensures Advance(buckets, c % len, x.slot % len, x.value)[t % len] == SlotMax(log + [x], t) {
        EmptyRingAfterSilence(buckets, log, c, x, t);
      }
    } else if SlotMax(log, c) > if touched == c - len then x.value else 0 {
      StaleBucketAfterSilence(buckets, log, c, x, c);
    } else {
      var s :| touched < s < c && SlotMax(log, s) != 0;
      SlotMaxNonNegative(log, s);
      StaleBucketAfterSilence(buckets, log, c, x, s);
    }
  }

  /** A sample of 1 exactly one ring after a sample of 9 is shown as 9. */
  lemma StaleMaximumSurvives(len: nat, c: int, a: Sample, b: Sample)
    requires len > 0 && a == Sample(c, 9) && b == Sample(c + len, 1)
    ensures !Refines(Replay([a, b], len).0, [a, b], b.slot)
  {
    RingRefinesLog([a], len);
    assert [a, b][..1] == [a] && [a] + [b] == [a, b];
    SlotMaxSnoc([], a, c);
    assert [] + [a] == [a];
    assert (b.slot - c) % len == 0 by { ModUnique(len, len, 1, 0); }
    StaleBucketAfterSilence(Replay([a], len).0, [a], c, b, c);
  }
}
