/** A gateway's side of a global limit on requests in flight. */
module MaxInflight {
  import opened Wrappers
  import opened Numbers

  /** The server's answer for one flow control. */
  datatype AcquireResult = AcquireResult(accept: bool, limit: int, error: string)

  const TOO_OLD := "RequestIDTooOld"

  /** The wrapper's fields; limiterMax is the size of the local limiter it drives. */
  datatype State = State(lastAcquireTime: int, unavailable: bool, max: int, reserve: int,
                         acquired: int, overLimited: bool, waiting: int, limiterMax: int)

  /** An answer and the time at which it was asked for. */
  datatype Reply = Reply(result: AcquireResult, requestTime: int)

  predicate TooLate(s: State, r: Reply) { 0 < r.requestTime <= s.lastAcquireTime }

  /** An accepted limit is at least the reserve and at most the maximum. */
  function Clamp(s: State, limit: int): (r: int)
    ensures r <= s.max
    ensures s.reserve <= s.max ==> r >= s.reserve
    ensures s.reserve <= limit <= s.max ==> r == limit
  {
    var l := if limit < s.reserve then s.reserve else limit;
    if l > s.max then s.max else l
  }

  /** What an answer does under the lock; fallback is the limiter size while the server cannot be reached. */
  function Take(s: State, r: Reply, fallback: int): State {
    if r.result.error != "" then
      if r.result.error == TOO_OLD || s.unavailable then s
      else s.(unavailable := true, limiterMax := fallback)
    else if r.result.accept then
      var limit := Clamp(s, r.result.limit);
      s.(unavailable := false, overLimited := false, acquired := limit, limiterMax := limit,
         lastAcquireTime := r.requestTime)
    else
      s.(overLimited := true, acquired := r.result.limit, limiterMax := r.result.limit,
         lastAcquireTime := r.requestTime)
  }

  /** The effect of one answer. */
  function SetLimit(s: State, r: Reply, fallback: int): State {
    if TooLate(s, r) then s else Take(s, r, fallback)
  }

  function Resize(s: State, max: int): State {
    var r := TruncDiv(max * 2, 100);
    var reserve := if r < 1 then 1 else r;
    s.(reserve := reserve, max := max, limiterMax := if s.unavailable then s.limiterMax else reserve)
  }

  /** A gateway asks for a fifth of the maximum at a time. */
  function Growth(max: int): (g: int)
    ensures g >= 1
  {
    if TruncDiv(max * 20, 100) < 1 then 1 else TruncDiv(max * 20, 100)
  }

  function Min(a: int, b: int): int { if a < b then a else b }

  /** How many requests in flight a gateway wants to be allowed. */
  function Wanted(s: State, inflight: int): int {
    if s.waiting > 0 && !s.overLimited then Min(s.max, inflight + Min(s.waiting, Growth(s.max)))
    else Min(s.max, inflight)
  }

  /** The wish stays within the maximum, and grows if requests wait, the limit is not reached and there is room. */
  lemma WantedIsBounded(s: State, inflight: int)
    ensures Wanted(s, inflight) <= s.max
    ensures inflight <= s.max ==>
              (Wanted(s, inflight) > inflight <==> s.waiting > 0 && !s.overLimited && inflight < s.max)
    ensures Wanted(s, inflight) <= inflight + Growth(s.max)
  {
  }

  /** A part of the maximum in whole requests, one if it would be none. */
  predicate IsPart(part: int, max: int, percent: int) {
    if max * percent < 100 then part == 1 else 100 * part <= max * percent < 100 * (part + 1)
  }

  lemma GrowthIs(max: int)
    ensures IsPart(Growth(max), max, 20)
  {
  }

  /** The wish is the largest number within every bound: the maximum and what may be asked for on top. */
  lemma WantedIff(s: State, inflight: int, n: int)
    ensures n <= Wanted(s, inflight) <==>
            && n <= s.max
            && (if s.waiting > 0 && !s.overLimited then n - inflight <= s.waiting && n - inflight <= Growth(s.max)
                else n <= inflight)
  {
  }

  /** A new maximum puts the limiter back to the reserve, unless there is an outage; what was acquired stays. */
  lemma ResizeIs(s: State, max: int)
    ensures var t := Resize(s, max);
            && IsPart(t.reserve, max, 2) && t.max == max
            && t.limiterMax == (if s.unavailable then s.limiterMax else t.reserve)
            && SameAnswer(s, t) && t.unavailable == s.unavailable && t.waiting == s.waiting
  {
  }

  function Distance(a: int, b: int): nat { if a < b then b - a else a - b }

  /** An accepted limit becomes the nearest number between the reserve and the maximum. */
  lemma ClampIsNearest(s: State, limit: int, n: int)
    requires s.reserve <= n <= s.max
    ensures s.reserve <= Clamp(s, limit) <= s.max
    ensures Distance(Clamp(s, limit), limit) <= Distance(n, limit)
  {
  }

  /** What an answer does to the limiter: an error-free one sizes it as acquired, the error that begins an
      outage sizes it by the fallback, and no other answer touches it. */
  lemma AnswerSizesLimiter(s: State, r: Reply, fallback: int)
    ensures var t, taken := SetLimit(s, r, fallback), !TooLate(s, r) && r.result.error == "";
            && (taken ==> t.limiterMax == t.acquired)
            && (!taken && !s.unavailable && t.unavailable ==> t.limiterMax == fallback)
            && (!taken && s.unavailable == t.unavailable ==> t.limiterMax == s.limiterMax)
            && t.max == s.max && t.reserve == s.reserve && t.waiting == s.waiting
  {
  }

  /** An outage begins with an error that does not say that the request is too old, and ends with an acceptance. */
  lemma OutageIff(s: State, r: Reply, fallback: int)
    ensures var t, error := SetLimit(s, r, fallback), r.result.error != "";
            t.unavailable <==>
              if s.unavailable then TooLate(s, r) || error || !r.result.accept
              else !TooLate(s, r) && error && r.result.error != TOO_OLD
  {
  }

  class MaxInflightWrapper {
    var lastAcquireTime: int
    var unavailable: bool
    var max: int
    var reserve: int
    var acquired: int
    var overLimited: bool
    var waiting: int
    var limiterMax: int

    function View(): State
      reads this
    {
      State(lastAcquireTime, unavailable, max, reserve, acquired, overLimited, waiting, limiterMax)
    }

    constructor (max: int)
      ensures View() == Resize(State(0, false, max, 0, 0, false, 0, max), max)
    {
      this.max, lastAcquireTime, unavailable, acquired, overLimited, waiting := max, 0, false, 0, false, 0;
      var r := TruncDiv(max * 2, 100);
      var res := if r < 1 then 1 else r;
      reserve, limiterMax := res, res;
    }

    /** inflight is what the meter counts. */
    method ExpectToken(inflight: int) returns (wanted: int)
      ensures wanted == Wanted(View(), inflight)
    {
      var acquire := 0;
      if !overLimited && acquire < waiting {
        acquire := TruncDiv(max * 20, 100);
        if acquire < 1 {
          acquire := 1;
        }
        if acquire > waiting {
          acquire := waiting;
        }
      }
      wanted := acquire + inflight;
      if wanted > max {
        wanted := max;
      }
    }

    method ApplyReply(r: Reply, maxInflight: int, localMax: int)
      modifies this
      ensures View() == SetLimit(old(View()), r, if maxInflight < localMax then localMax else maxInflight)
    {
      if 0 < r.requestTime && r.requestTime <= lastAcquireTime {
        return;
      }
      var result := r.result;
      if result.error != "" {
        if result.error == TOO_OLD {
          return;
        }
        if !unavailable {
          var inflight := maxInflight;
          if inflight < localMax {
            inflight := localMax;
          }
          limiterMax := inflight;
          unavailable := true;
        }
        return;
      }
      if result.accept {
        unavailable := false;
        var limit := result.limit;
        if limit < reserve {
          limit := reserve;
        }
        if limit > max {
          limit := max;
        }
        overLimited, acquired, limiterMax := false, limit, limit;
      } else {
        overLimited, acquired, limiterMax := true, result.limit, result.limit;
      }
      lastAcquireTime := r.requestTime;
    }

    method ResizeTo(newMax: int)
      modifies this
      ensures View() == Resize(old(View()), newMax)
    {
      reserve := TruncDiv(newMax * 2, 100);
      if reserve < 1 {
        reserve := 1;
      }
      max := newMax;
      if !unavailable {
        limiterMax := reserve;
      }
    }
  }

  // ---------- the newest answer wins ----------

  function SetLimits(s: State, replies: seq<Reply>, fallbacks: seq<int>): State
    requires |replies| == |fallbacks|
  {
    if replies == [] then s else
      var k := |replies| - 1;
      SetLimit(SetLimits(s, replies[..k], fallbacks[..k]), replies[k], fallbacks[k])
  }

  predicate ErrorFree(r: Reply) { r.result.error == "" }

  /** What the wrapper remembers of the answers it took. */
  predicate Remembers(s: State, start: State, r: Reply) {
    && s.lastAcquireTime == r.requestTime
    && s.overLimited == !r.result.accept
    && s.acquired == if r.result.accept then Clamp(start, r.result.limit) else r.result.limit
  }

  predicate SameAnswer(s: State, t: State) {
    s.lastAcquireTime == t.lastAcquireTime && s.overLimited == t.overLimited && s.acquired == t.acquired
  }

  /** An error-free answer at least as new as all others and newer than what was known at the start. */
  predicate Newest(start: State, replies: seq<Reply>, i: nat) {
    && i < |replies| && ErrorFree(replies[i]) && replies[i].requestTime > start.lastAcquireTime
    && forall j :: 0 <= j < |replies| && ErrorFree(replies[j]) ==> replies[j].requestTime <= replies[i].requestTime
  }

  predicate AllOld(start: State, replies: seq<Reply>) {
    forall j :: 0 <= j < |replies| && ErrorFree(replies[j]) ==> replies[j].requestTime <= start.lastAcquireTime
  }

  predicate DistinctTimes(replies: seq<Reply>) {
    && (forall i :: 0 <= i < |replies| ==> replies[i].requestTime > 0)
    && forall i, j :: 0 <= i < j < |replies| ==> replies[i].requestTime != replies[j].requestTime
  }

  lemma {:induction false} SizesStay(s: State, replies: seq<Reply>, fallbacks: seq<int>)
    requires |replies| == |fallbacks|
    ensures var t := SetLimits(s, replies, fallbacks); t.max == s.max && t.reserve == s.reserve
  {
    if replies != [] {
      var k := |replies| - 1;
      SizesStay(s, replies[..k], fallbacks[..k]);
    }
  }

  /** One answer is taken exactly when it is error-free and newer than the last one taken. */
  lemma OneReply(s: State, start: State, r: Reply, fallback: int)
    requires r.requestTime > 0 && s.max == start.max && s.reserve == start.reserve
    ensures var t := SetLimit(s, r, fallback);
            if ErrorFree(r) && r.requestTime > s.lastAcquireTime then Remembers(t, start, r) else SameAnswer(t, s)
  {
  }

  /** The newest reply, -1 if all are old, with one more reply. */
  lemma NewestOfMore(s: State, replies: seq<Reply>, w: int)
    requires replies != [] && -1 <= w < |replies| - 1 && DistinctTimes(replies)
    requires var init := replies[..|replies| - 1]; if w == -1 then AllOld(s, init) else Newest(s, init, w)
    ensures var r := replies[|replies| - 1];
            if ErrorFree(r) && r.requestTime > (if w == -1 then s.lastAcquireTime else replies[w].requestTime)
            then Newest(s, replies, |replies| - 1)
            else if w == -1 then AllOld(s, replies) else Newest(s, replies, w)
  {
    var k := |replies| - 1;
    assert forall j :: 0 <= j < k ==> replies[j] == replies[..k][j];
  }

  lemma {:induction false} FindNewest(s: State, replies: seq<Reply>, fallbacks: seq<int>) returns (w: int)
    requires |replies| == |fallbacks| && DistinctTimes(replies)
    ensures -1 <= w < |replies|
    ensures var t := SetLimits(s, replies, fallbacks);
            if w == -1 then AllOld(s, replies) && SameAnswer(t, s)
            else Newest(s, replies, w) && Remembers(t, s, replies[w])
  {
    if replies == [] {
      w := -1;
    } else {
      var k := |replies| - 1;
      var init, r := replies[..k], replies[k];
      w := FindNewest(s, init, fallbacks[..k]);
      SizesStay(s, init, fallbacks[..k]);
      var u := SetLimits(s, init, fallbacks[..k]);
      OneReply(u, s, r, fallbacks[k]);
      NewestOfMore(s, replies, w);
      if ErrorFree(r) && r.requestTime > u.lastAcquireTime {
        w := k;
      }
    }
  }

  /** Whatever the order of delivery, the wrapper ends with the error-free answer to its latest question. */
  lemma NewestReplyWins(s: State, replies: seq<Reply>, fallbacks: seq<int>, i: nat)
    requires |replies| == |fallbacks| && DistinctTimes(replies)
    ensures var t := SetLimits(s, replies, fallbacks);
            && (Newest(s, replies, i) ==> Remembers(t, s, replies[i]))
            && (AllOld(s, replies) ==> SameAnswer(t, s))
  {
    var w := FindNewest(s, replies, fallbacks);
    if w >= 0 && Newest(s, replies, i) {
      assert replies[w].requestTime == replies[i].requestTime;
      assert w == i;
    }
  }

  lemma {:induction false} TakenSizesLimiter(s: State, replies: seq<Reply>, fallbacks: seq<int>)
    requires |replies| == |fallbacks| && forall i :: 0 <= i < |replies| ==> replies[i].requestTime > 0
    ensures var t := SetLimits(s, replies, fallbacks);
            && t.lastAcquireTime >= s.lastAcquireTime
            && (t.lastAcquireTime > s.lastAcquireTime && !t.unavailable ==> t.limiterMax == t.acquired)
  {
    if replies != [] {
      var k := |replies| - 1;
      TakenSizesLimiter(s, replies[..k], fallbacks[..k]);
    }
  }

  /** And outside an outage the limiter has the size of that answer. */
  lemma NewestReplySizesLimiter(s: State, replies: seq<Reply>, fallbacks: seq<int>, i: nat)
    requires |replies| == |fallbacks| && DistinctTimes(replies) && Newest(s, replies, i)
    requires !SetLimits(s, replies, fallbacks).unavailable
    ensures var t, answer := SetLimits(s, replies, fallbacks), replies[i].result;
            t.limiterMax == if answer.accept then Clamp(s, answer.limit) else answer.limit
  {
    NewestReplyWins(s, replies, fallbacks, i);
    TakenSizesLimiter(s, replies, fallbacks);
  }

  lemma NewestInPermutation(s: State, a: seq<Reply>, b: seq<Reply>, i: nat)
    requires multiset(a) == multiset(b) && Newest(s, a, i)
    ensures exists j: nat :: Newest(s, b, j) && b[j] == a[i]
  {
    assert a[i] in multiset(b);
    var j: nat :| j < |b| && b[j] == a[i];
    forall k | 0 <= k < |b| && ErrorFree(b[k]) ensures b[k].requestTime <= b[j].requestTime {
      assert b[k] in multiset(a);
    }
    assert Newest(s, b, j);
  }

  /** Two delivery orders of the same answers end with the same answer. */
  lemma DeliveryOrderIsIrrelevant(s: State, a: seq<Reply>, b: seq<Reply>, fa: seq<int>, fb: seq<int>)
    requires multiset(a) == multiset(b) && |a| == |fa| && |b| == |fb|
    requires DistinctTimes(a) && DistinctTimes(b)
    ensures SameAnswer(SetLimits(s, a, fa), SetLimits(s, b, fb))
  {
    var w := FindNewest(s, a, fa);
    if w >= 0 {
      NewestInPermutation(s, a, b, w);
      var j: nat :| Newest(s, b, j) && b[j] == a[w];
      NewestReplyWins(s, b, fb, j);
    } else {
      assert forall j :: 0 <= j < |b| ==> b[j] in multiset(a);
      NewestReplyWins(s, b, fb, 0);
    }
  }
}
