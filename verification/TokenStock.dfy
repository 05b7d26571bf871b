/** A gateway's stock of tokens from a global token bucket, with every method as one atomic step. */
module TokenStock {
  import opened Wrappers
  import opened Numbers
  import opened MapSums
  import MaxInflight

  type AcquireResult = MaxInflight.AcquireResult

  const BATCH_MAX_DURATION := 100_000_000

  /** The wrapper's fields; the limiter is the local token bucket that every request passes first. */
  datatype State = State(tokens: int, inflight: int, reserve: int, batch: int, qps: int, burst: int,
                         unavailable: bool, lastAcquireTime: int, limiterQPS: int, limiterBurst: int)

  /** The tokens the stock may still ask for. */
  function Room(s: State): (room: nat) {
    var room := s.reserve - s.tokens - s.inflight;
    if room < 0 then 0 else room
  }

  function MaxBatch(s: State, rate: real): int {
    if rate > s.reserve as real then
      var b := TruncDiv(Trunc(rate) * 10, 100);
      if b < 1 then 1 else b
    else s.batch
  }

  /** What is asked for when there seems to be so much room. */
  function Portion(room: nat, s: State, rate: real, now: int): int {
    if room < s.batch then
      if now - s.lastAcquireTime < BATCH_MAX_DURATION then 0 else room
    else if room > MaxBatch(s, rate) then MaxBatch(s, rate)
    else room
  }

  lemma PortionFits(room: nat, s: State, rate: real, now: int)
    requires s.batch >= 1
    ensures 0 <= Portion(room, s, rate, now) <= room
  {
  }

  function ExpectToken(s: State, rate: real, now: int): int { Portion(Room(s), s, rate, now) }

  /** The stock never asks for more than it has room for, and asks for something at the latest after 100 ms. */
  lemma ExpectTokenFitsRoom(s: State, rate: real, now: int)
    requires s.batch >= 1
    ensures 0 <= ExpectToken(s, rate, now) <= Room(s)
    ensures Room(s) > 0 && (Room(s) >= s.batch || now - s.lastAcquireTime >= BATCH_MAX_DURATION)
            ==> ExpectToken(s, rate, now) > 0
  {
  }

  /** A twentieth of the rate, rounded down, but at least 1. */
  predicate IsReserve(r: int, qps: nat) { if r == 1 then qps < 40 else r > 1 && 20 * r <= qps < 20 * (r + 1) }

  /** A tenth, rounded down, but at least 1. */
  predicate IsTenth(b: int, whole: int) { if b == 1 then whole < 20 else b > 1 && 10 * b <= whole < 10 * (b + 1) }

  /**
   * A request is for all the room or for a batch, whichever is less, and for nothing while there is less room than
   * a batch and the last answer is recent. A batch is the usual one, or a tenth of a rate above the reserve.
   */
  lemma ExpectTokenIs(s: State, rate: real, now: int)
    requires s.batch >= 1 && s.reserve >= 0
    ensures var n, recent := ExpectToken(s, rate, now), now - s.lastAcquireTime < BATCH_MAX_DURATION;
            && (n == 0 <==> Room(s) == 0 || (Room(s) < s.batch && recent))
            && (0 < n < Room(s) && rate <= s.reserve as real ==> n == s.batch)
            && (0 < n < Room(s) && rate > s.reserve as real ==> IsTenth(n, Trunc(rate)))
            && (Room(s) < s.batch && !recent ==> n == Room(s))
            && (Room(s) >= s.batch && rate <= s.reserve as real ==> n == s.batch)
  {
  }

  /** An answer; request is None for the answer a timeout makes up. */
  datatype Reply = Reply(request: Option<int>, result: AcquireResult, requestTime: int)

  function SetLimit(s: State, r: Reply, fallbackQPS: int): State {
    var s1 := s.(inflight := s.inflight - r.request.GetOr(0));
    if r.result.error != "" then
      if r.result.error == MaxInflight.TOO_OLD || s1.unavailable then s1
      else s1.(unavailable := true, limiterQPS := fallbackQPS, limiterBurst := fallbackQPS)
    else
      var s2 := if r.result.accept && s1.unavailable
                then s1.(unavailable := false, limiterQPS := s1.qps, limiterBurst := s1.burst) else s1;
      s2.(tokens := if r.result.accept then s2.tokens + r.result.limit else s2.tokens,
          lastAcquireTime := r.requestTime)
  }

  function ReserveFor(qps: nat): (r: int)
    ensures r >= 1
  {
    if qps * 5 / 100 < 1 then 1 else qps * 5 / 100
  }

  function BatchFor(reserve: nat): (b: int)
    ensures b >= 1
  {
    if reserve * 10 / 100 < 1 then 1 else reserve * 10 / 100
  }

  function Resize(s: State, qps: nat, burst: nat): State {
    var reserve := ReserveFor(qps);
    var s1 := s.(reserve := reserve, tokens := if s.tokens > reserve then reserve else s.tokens,
                 batch := BatchFor(reserve), qps := qps, burst := qps);
    if s.unavailable then s1 else s1.(limiterQPS := qps, limiterBurst := burst)
  }

  lemma SizesAre(qps: nat)
    ensures IsReserve(ReserveFor(qps), qps) && IsTenth(BatchFor(ReserveFor(qps)), ReserveFor(qps))
  {
  }

  /** What an answer does to the stock: only an accepted one without error adds its tokens. */
  lemma AnswerFillsStock(s: State, r: Reply, fallback: int)
    ensures var s', error := SetLimit(s, r, fallback), r.result.error != "";
            && s'.tokens == s.tokens + (if r.result.accept && !error then r.result.limit else 0)
            && s'.inflight == s.inflight - (if r.request.Some? then r.request.value else 0)
            && s'.lastAcquireTime == (if error then s.lastAcquireTime else r.requestTime)
            && s'.reserve == s.reserve && s'.batch == s.batch && s'.qps == s.qps && s'.burst == s.burst
  {
  }

  /** An outage begins with an error that does not say that the request is too old, and ends with an acceptance. */
  lemma OutageIff(s: State, r: Reply, fallback: int)
    ensures var s', error := SetLimit(s, r, fallback), r.result.error != "";
            && (s'.unavailable <==> (s.unavailable && (error || !r.result.accept))
                                    || (error && r.result.error != MaxInflight.TOO_OLD))
            && (!s.unavailable && s'.unavailable ==> s'.limiterQPS == s'.limiterBurst == fallback)
            && (s.unavailable && !s'.unavailable ==> s'.limiterQPS == s.qps && s'.limiterBurst == s.burst)
            && (s'.unavailable == s.unavailable ==>
                  s'.limiterQPS == s.limiterQPS && s'.limiterBurst == s.limiterBurst)
  {
  }

  class TokenBucketWrapper {
    var tokens: int
    var inflight: int
    var reserve: int
    var batch: int
    var qps: int
    var burst: int
    var unavailable: bool
    var lastAcquireTime: int
    var limiterQPS: int
    var limiterBurst: int

    function View(): State
      reads this
    {
      State(tokens, inflight, reserve, batch, qps, burst, unavailable, lastAcquireTime, limiterQPS, limiterBurst)
    }

    constructor (qps: nat, burst: nat)
      ensures View() == Resize(State(0, 0, 0, 0, 0, 0, false, 0, qps, burst), qps, burst)
    {
      tokens, inflight, unavailable, lastAcquireTime := 0, 0, false, 0;
      var r := ReserveFor(qps);
      reserve, batch := r, BatchFor(r);
      this.qps, this.burst, limiterQPS, limiterBurst := qps, qps, qps, burst;
    }

    method Expected(rate: real, now: int) returns (n: int)
      ensures n == ExpectToken(View(), rate, now)
    {
      n := reserve - tokens;
      var maxBatch := batch;
      if rate > reserve as real {
        maxBatch := TruncDiv(Trunc(rate) * 10, 100);
        if maxBatch < 1 {
          maxBatch := 1;
        }
      }
      n := n - inflight;
      if n < 0 {
        n := 0;
      }
      if n < batch {
        if now - lastAcquireTime < BATCH_MAX_DURATION {
          n := 0;
        }
      } else if n > maxBatch {
        n := maxBatch;
      }
    }

    method AddAcquiring(n: int)
      modifies this
      ensures View() == old(View()).(inflight := old(inflight) + n)
    {
      inflight := inflight + n;
    }

    /** Returns whether the stock still has room. */
    method ApplyReply(r: Reply, rate: real, localQPS: int) returns (more: bool)
      modifies this
      ensures View() == SetLimit(old(View()), r, Trunc(if rate < localQPS as real then localQPS as real else rate))
      ensures more <==> Room(View()) > 0
    {
      if r.request.Some? {
        inflight := inflight - r.request.value;
      }
      if r.result.error != "" {
        if r.result.error != MaxInflight.TOO_OLD && !unavailable {
          var lastQPS := rate;
          if lastQPS < localQPS as real {
            lastQPS := localQPS as real;
          }
          limiterQPS, limiterBurst := Trunc(lastQPS), Trunc(lastQPS);
          unavailable := true;
        }
      } else {
        if r.result.accept {
          if unavailable {
            limiterQPS, limiterBurst := qps, burst;
            unavailable := false;
          }
          tokens := tokens + r.result.limit;
        }
        lastAcquireTime := r.requestTime;
      }
      more := reserve - tokens - inflight > 0;
    }

    method ResizeTo(newQPS: nat, newBurst: nat)
      modifies this
      ensures View() == Resize(old(View()), newQPS, newBurst)
    {
      reserve := newQPS * 5 / 100;
      if reserve < 1 {
        reserve := 1;
      }
      var overflow := tokens - reserve;
      if overflow > 0 {
        tokens := tokens - overflow;
      }
      batch := reserve * 10 / 100;
      if batch < 1 {
        batch := 1;
      }
      qps, burst := newQPS, newQPS;
      if !unavailable {
        limiterQPS, limiterBurst := newQPS, newBurst;
      }
    }

    /** Takes one token if there is one: decrement, and increment again if that went below zero. */
    method TakeToken() returns (ok: bool)
      modifies this
      ensures ok <==> old(tokens) > 0
      ensures View() == old(View()).(tokens := if ok then old(tokens) - 1 else old(tokens))
    {
      tokens := tokens - 1;
      ok := tokens >= 0;
      if !ok {
        tokens := tokens + 1;
      }
    }
  }

  // ---------- the stock and its open requests ----------

  /** The wrapper with the requests nobody has answered yet, and the largest reserve so far. */
  datatype Account = Account(s: State, open: map<nat, int>, maxReserve: int)

  datatype Step =
    | Acquire(id: nat, rate: real, now: int)
    | Answer(id: nat, result: AcquireResult, requestTime: int, fallbackQPS: int)
    | Timeout(fallbackQPS: int)
    | ChangeRate(qps: nat, burst: nat)
    | Use

  /** Ids are fresh, and the server never grants more than it was asked for. */
  predicate Enabled(a: Account, step: Step) {
    match step
    case Acquire(id, _, _) => id !in a.open
    case Answer(id, result, _, _) => id in a.open && (result.accept ==> 0 <= result.limit <= a.open[id])
    case Timeout(_) => true
    case ChangeRate(_, _) => true
    case Use => true
  }

  function Apply(a: Account, step: Step): Account
    requires Enabled(a, step)
  {
    match step
    case Acquire(id, rate, now) =>
      var n := ExpectToken(a.s, rate, now);
      a.(s := a.s.(inflight := a.s.inflight + n), open := a.open[id := n])
    case Answer(id, result, time, fallback) =>
      a.(s := SetLimit(a.s, Reply(Some(a.open[id]), result, time), fallback), open := a.open - {id})
    case Timeout(fallback) =>
      a.(s := SetLimit(a.s, Reply(None, MaxInflight.AcquireResult(false, 0, "timeout"), 0), fallback))
    case ChangeRate(qps, burst) =>
      var s := Resize(a.s, qps, burst);
      a.(s := s, maxReserve := if s.reserve > a.maxReserve then s.reserve else a.maxReserve)
    case Use => a.(s := a.s.(tokens := if a.s.tokens > 0 then a.s.tokens - 1 else a.s.tokens))
  }

  ghost predicate Inv(a: Account) {
    && a.s.inflight == Sum(a.open)
    && (forall id :: id in a.open ==> a.open[id] >= 0)
    && a.s.tokens >= 0 && a.s.batch >= 1
    && a.s.reserve <= a.maxReserve
    && a.s.tokens + a.s.inflight <= a.maxReserve
  }

  lemma StepKeepsInv(a: Account, step: Step)
    requires Inv(a) && Enabled(a, step)
    ensures Inv(Apply(a, step))
  {
    match step
    case Acquire(id, rate, now) =>
      ExpectTokenFitsRoom(a.s, rate, now);
      SumUpdate(a.open, id, ExpectToken(a.s, rate, now));
    case Answer(id, _, _, _) =>
      SumRemove(a.open, id);
    case Timeout(_) =>
    case ChangeRate(_, _) =>
    case Use =>
  }

  /**
   * In every run, the tokens in flight are exactly those of the open requests, and stock plus tokens in
   * flight never exceed the largest reserve so far.
   */
  lemma StockIsBounded(states: seq<Account>, steps: seq<Step>, k: nat)
    requires |states| == |steps| + 1 && k <= |steps|
    requires Inv(states[0])
    requires forall i :: 0 <= i < |steps| ==>
               Enabled(states[i], steps[i]) && states[i + 1] == Apply(states[i], steps[i])
    ensures states[k].s.inflight == Sum(states[k].open)
    ensures 0 <= states[k].s.tokens
    ensures states[k].s.tokens + states[k].s.inflight <= states[k].maxReserve
  {
    for j := 0 to k
      invariant Inv(states[j])
    {
      StepKeepsInv(states[j], steps[j]);
    }
  }

  // ---------- the ledger ----------

  function GrantedBy(step: Step): int {
    if step.Answer? && step.result.error == "" && step.result.accept then step.result.limit else 0
  }

  function UsedBy(a: Account, step: Step): int { if step.Use? && a.s.tokens > 0 then 1 else 0 }

  /** A resize discards what is above the new reserve. */
  function DiscardedBy(a: Account, step: Step, reserve: int): int {
    if step.ChangeRate? && a.s.tokens > reserve then a.s.tokens - reserve else 0
  }

  function Granted(steps: seq<Step>, k: nat): int
    requires k <= |steps|
  {
    if k == 0 then 0 else Granted(steps, k - 1) + GrantedBy(steps[k - 1])
  }

  function Spent(states: seq<Account>, steps: seq<Step>, k: nat): int
    requires k <= |steps| && |states| == |steps| + 1
  {
    if k == 0 then 0 else Spent(states, steps, k - 1) + UsedBy(states[k - 1], steps[k - 1])
  }

  function Discarded(states: seq<Account>, steps: seq<Step>, k: nat): int
    requires k <= |steps| && |states| == |steps| + 1
  {
    if k == 0 then 0
    else Discarded(states, steps, k - 1) + DiscardedBy(states[k - 1], steps[k - 1], states[k].s.reserve)
  }

  lemma StepIsBooked(a: Account, step: Step)
    requires Enabled(a, step)
    ensures var a' := Apply(a, step);
            a'.s.tokens == a.s.tokens + GrantedBy(step) - UsedBy(a, step) - DiscardedBy(a, step, a'.s.reserve)
    ensures step.ChangeRate? ==> IsReserve(Apply(a, step).s.reserve, step.qps)
  {
    if step.ChangeRate? { SizesAre(step.qps); }
  }

  /** In every run, the tokens in stock are those granted, less those used and those discarded. */
  lemma StockIsLedger(states: seq<Account>, steps: seq<Step>, k: nat)
    requires |states| == |steps| + 1 && k <= |steps|
    requires forall i :: 0 <= i < |steps| ==>
               Enabled(states[i], steps[i]) && states[i + 1] == Apply(states[i], steps[i])
    ensures states[k].s.tokens
            == states[0].s.tokens + Granted(steps, k) - Spent(states, steps, k) - Discarded(states, steps, k)
  {
    for j := 0 to k
      invariant states[j].s.tokens
                == states[0].s.tokens + Granted(steps, j) - Spent(states, steps, j) - Discarded(states, steps, j)
    {
      StepIsBooked(states[j], steps[j]);
    }
  }

  lemma NewWrapperIsAccounted(qps: nat, burst: nat)
    ensures var s := Resize(State(0, 0, 0, 0, 0, 0, false, 0, qps, burst), qps, burst);
            Inv(Account(s, map[], s.reserve))
  {
  }

  // ---------- what does not hold ----------

  /** An outage and its end bring back the configured limiter exactly when the burst equals the rate. */
  lemma RecoveryRestoresLimiterIff(s: State, qps: nat, burst: nat, down: Reply, up: Reply, fallback: int)
    requires !s.unavailable
    requires down.result.error != "" && down.result.error != MaxInflight.TOO_OLD
    requires up.result.error == "" && up.result.accept
    ensures var before := Resize(s, qps, burst);
            var after := SetLimit(SetLimit(before, down, fallback), up, fallback);
            && !after.unavailable && after.limiterQPS == before.limiterQPS
            && (after.limiterBurst == before.limiterBurst <==> burst == qps)
  {
  }
}
