/**
 * The stock of tokens of a gateway, one atomic memory operation at a time. A request loads the stock, later the
 * tokens in flight, and later books what it asks for; a manager sends one request at a time. An answer first
 * takes its tokens out of the account of tokens in flight and later adds the granted ones to the stock. A failed
 * take is a decrement followed by an increment, and a resize a load followed by a subtraction.
 */
module StockRace {
  import opened MapSums
  import TokenStock
  import Wrappers

  /** Where a request stands: what seems to be missing from the reserve, or what is asked for, and what was seen. */
  datatype Asking = Idle | Loaded(missing: int, tokens: int) | Chosen(n: int, seen: int)

  /** open are the tokens of unanswered requests, credits the grants that are not in stock yet. */
  datatype Account = Account(s: TokenStock.State, asking: Asking, open: map<nat, int>, credits: map<nat, int>,
                             undos: nat, discards: map<nat, int>, maxReserve: int)

  datatype Step =
    | LoadTokens
    | LoadInflight(rate: real, now: int)
    | Book(id: nat)
    | Skip                                 // nothing is asked for
    | Settle(id: nat, limit: int)          // the first half of an answer that grants limit, 0 for a refusal or an error
    | Credit(id: nat)                      // the second half
    | Take
    | Undo
    | LoadForResize(t: nat, qps: nat, burst: nat)
    | Discard(t: nat)

  predicate Enabled(a: Account, step: Step) {
    match step
    case LoadTokens => a.asking.Idle?
    case LoadInflight(_, _) => a.asking.Loaded?
    case Book(id) => a.asking.Chosen? && id !in a.open && id !in a.credits
    case Skip => a.asking.Chosen? && a.asking.n <= 0
    case Settle(id, limit) => id in a.open && id !in a.credits && 0 <= limit <= a.open[id]
    case Credit(id) => id in a.credits
    case Take => true
    case Undo => a.undos > 0
    case LoadForResize(t, _, _) => t !in a.discards
    case Discard(t) => t in a.discards
  }

  function Max(x: int, y: int): int { if x < y then y else x }

  function Apply(a: Account, step: Step): Account
    requires Enabled(a, step)
  {
    match step
    case LoadTokens => a.(asking := Loaded(a.s.reserve - a.s.tokens, a.s.tokens))
    case LoadInflight(rate, now) =>
      var room := Max(0, a.asking.missing - a.s.inflight);
      a.(asking := Chosen(TokenStock.Portion(room, a.s, rate, now), a.asking.tokens + a.s.inflight))
    case Book(id) =>
      a.(s := a.s.(inflight := a.s.inflight + a.asking.n), open := a.open[id := a.asking.n], asking := Idle)
    case Skip => a.(asking := Idle)
    case Settle(id, limit) =>
      a.(s := a.s.(inflight := a.s.inflight - a.open[id]), open := a.open - {id}, credits := a.credits[id := limit])
    case Credit(id) => a.(s := a.s.(tokens := a.s.tokens + a.credits[id]), credits := a.credits - {id})
    case Take =>
      a.(s := a.s.(tokens := a.s.tokens - 1), undos := if a.s.tokens - 1 < 0 then a.undos + 1 else a.undos)
    case Undo => a.(s := a.s.(tokens := a.s.tokens + 1), undos := a.undos - 1)
    case LoadForResize(t, qps, burst) =>
      var s := TokenStock.Resize(a.s, qps, burst).(tokens := a.s.tokens);
      var overflow := a.s.tokens - s.reserve;
      a.(s := s, maxReserve := Max(a.maxReserve, s.reserve),
         discards := if overflow > 0 then a.discards[t := overflow] else a.discards)
    case Discard(t) => a.(s := a.s.(tokens := a.s.tokens - a.discards[t]), discards := a.discards - {t})
  }

  // ---------- the account ----------

  /** What a request found fits what it asks for. */
  predicate AskingFits(a: Account) {
    match a.asking
    case Idle => true
    case Loaded(missing, tokens) => missing + tokens <= a.maxReserve
    case Chosen(n, seen) => 0 <= n <= Max(0, a.maxReserve - seen)
  }

  /** The account of tokens in flight is right. */
  ghost predicate Inv(a: Account) {
    && a.s.inflight == Sum(a.open) && AskingFits(a)
    && (forall t :: t in a.discards ==> a.discards[t] > 0)
    && a.s.batch >= 1 && a.s.reserve <= a.maxReserve
  }

  lemma StepKeepsInv(a: Account, step: Step)
    requires Inv(a) && Enabled(a, step)
    ensures Inv(Apply(a, step))
  {
    match step
    case LoadInflight(rate, now) =>
      TokenStock.PortionFits(Max(0, a.asking.missing - a.s.inflight), a.s, rate, now);
    case Book(id) => SumUpdate(a.open, id, a.asking.n);
    case Settle(id, _) => SumRemove(a.open, id);
    case _ =>
  }

  /** The stock, what failed takes will put back, and all that is on its way to it. */
  ghost function Holdings(a: Account): int { a.s.tokens + a.undos + a.s.inflight + Sum(a.credits) }

  ghost predicate Bounded(a: Account) { Holdings(a) <= a.maxReserve }

  /** What a step does to the holdings: only booking adds to them. */
  lemma StepHoldings(a: Account, step: Step)
    requires Inv(a) && Enabled(a, step)
    ensures step.Book? ==> Holdings(Apply(a, step)) == Holdings(a) + a.asking.n
    ensures !step.Book? ==> Holdings(Apply(a, step)) <= Holdings(a)
    ensures step.Settle? ==> Holdings(Apply(a, step)) == Holdings(a) - a.open[step.id] + step.limit
  {
    match step
    case Settle(id, limit) => SumUpdate(a.credits, id, limit);
    case Credit(id) => SumRemove(a.credits, id);
    case _ =>
  }

  // ---------- when the bound holds ----------

  /** The step books more than is missing from the largest reserve, counting all that is on its way. */
  ghost predicate Overasks(a: Account, step: Step)
    requires Enabled(a, step)
  {
    step.Book? && a.asking.n > a.maxReserve - Holdings(a)
  }

  lemma StepIsBoundedIff(a: Account, step: Step)
    requires Inv(a) && Enabled(a, step) && Bounded(a)
    ensures Bounded(Apply(a, step)) <==> !Overasks(a, step)
  {
    StepHoldings(a, step);
  }

  ghost predicate Run(states: seq<Account>, steps: seq<Step>) {
    && |states| == |steps| + 1 && Inv(states[0])
    && forall i :: 0 <= i < |steps| ==> Enabled(states[i], steps[i]) && states[i + 1] == Apply(states[i], steps[i])
  }

  lemma {:induction false} RunKeepsInv(states: seq<Account>, steps: seq<Step>, k: nat)
    requires Run(states, steps) && k <= |steps|
    ensures Inv(states[k])
  {
    if k > 0 {
      RunKeepsInv(states, steps, k - 1);
      StepKeepsInv(states[k - 1], steps[k - 1]);
    }
  }

  /** In every interleaving, the bound on the stock holds throughout exactly when no request books too much. */
  lemma StockIsBoundedIff(states: seq<Account>, steps: seq<Step>, k: nat)
    requires Run(states, steps) && k <= |steps| && Bounded(states[0])
    ensures (forall j :: 0 <= j <= k ==> Bounded(states[j])) <==>
            (forall j :: 0 <= j < k ==> !Overasks(states[j], steps[j]))
  {
    forall j | 0 <= j < k && Bounded(states[j]) ensures Bounded(states[j + 1]) <==> !Overasks(states[j], steps[j]) {
      RunKeepsInv(states, steps, j);
      StepIsBoundedIff(states[j], steps[j]);
    }
    if forall j :: 0 <= j < k ==> !Overasks(states[j], steps[j]) {
      for j := 0 to k
        invariant forall i :: 0 <= i <= j ==> Bounded(states[i])
      {
        assert !Overasks(states[j], steps[j]);
      }
    }
    if forall j :: 0 <= j <= k ==> Bounded(states[j]) {
      forall j | 0 <= j < k ensures !Overasks(states[j], steps[j]) {
        assert Bounded(states[j]) && Bounded(states[j + 1]);
      }
    }
  }

  // ---------- requests that nothing overtakes ----------

  /** What the request saw, or would see now, covers the holdings. */
  ghost predicate Covered(a: Account) {
    match a.asking
    case Idle => true
    case Loaded(_, tokens) => tokens + a.s.inflight >= Holdings(a)
    case Chosen(_, seen) => seen >= Holdings(a)
  }

  /**
   * The stock is loaded while no failed take is under way and no answer half-way, and no answer that grants
   * something settles before the tokens in flight are loaded.
   */
  predicate Undisturbed(a: Account, step: Step)
    requires Enabled(a, step)
  {
    match step
    case LoadTokens => a.undos == 0 && a.credits == map[]
    case Settle(_, limit) => a.asking.Loaded? ==> limit == 0
    case _ => true
  }

  lemma StepStaysCovered(a: Account, step: Step)
    requires Inv(a) && Enabled(a, step) && Covered(a) && Undisturbed(a, step)
    ensures Covered(Apply(a, step))
  {
    StepHoldings(a, step);
    if step.LoadTokens? {
      assert a.credits.Keys == {};
    }
  }

  /** A grant that settles between the two loads is missing from what the request saw, and so are failed takes. */
  lemma Disturbances(a: Account, step: Step)
    requires Inv(a) && Enabled(a, step)
    ensures step.LoadTokens? ==> (Covered(Apply(a, step)) <==> a.undos + Sum(a.credits) <= 0)
    ensures step.Settle? && a.asking.Loaded? ==>
              (Covered(Apply(a, step)) <==> a.asking.tokens + a.s.inflight >= Holdings(a) + step.limit)
  {
    StepHoldings(a, step);
  }

  /** A request that saw at least what there is never books too much. */
  lemma CoveredNeverOverasks(a: Account, step: Step)
    requires Inv(a) && Enabled(a, step) && Bounded(a) && Covered(a)
    ensures !Overasks(a, step)
  {
  }

  /** In every interleaving whose loads are undisturbed, the stock with all that is on its way fits the reserve. */
  lemma UndisturbedStockIsBounded(states: seq<Account>, steps: seq<Step>, k: nat)
    requires Run(states, steps) && k <= |steps| && Bounded(states[0]) && Covered(states[0])
    requires forall i :: 0 <= i < k ==> Undisturbed(states[i], steps[i])
    ensures Bounded(states[k]) && Covered(states[k])
  {
    for j := 0 to k
      invariant Bounded(states[j]) && Covered(states[j])
    {
      RunKeepsInv(states, steps, j);
      StepStaysCovered(states[j], steps[j]);
      CoveredNeverOverasks(states[j], steps[j]);
      StepIsBoundedIff(states[j], steps[j]);
    }
  }

  // ---------- requests that are overtaken ----------

  /** A request that nothing interrupts. */
  function Ask(a: Account, id: nat, rate: real, now: int): Account
    requires a.asking.Idle? && id !in a.open && id !in a.credits
  {
    Apply(Apply(Apply(a, LoadTokens), LoadInflight(rate, now)), Book(id))
  }

  /** An answer that nothing interrupts. */
  function Answer(a: Account, id: nat, limit: int): Account
    requires Enabled(a, Settle(id, limit))
  {
    Apply(Apply(a, Settle(id, limit)), Credit(id))
  }

  /** Then it asks for what the stock without concurrency asks for. */
  lemma AskIsExpectToken(a: Account, id: nat, rate: real, now: int)
    requires a.asking.Idle? && id !in a.open && id !in a.credits
    ensures var n := TokenStock.ExpectToken(a.s, rate, now);
            Ask(a, id, rate, now) == a.(s := a.s.(inflight := a.s.inflight + n), open := a.open[id := n])
  {
  }

  /** An answer that nothing interrupts has the effect it has without concurrency. */
  lemma AnswerIsSetLimit(a: Account, id: nat, result: TokenStock.AcquireResult, time: int, fallback: int)
    requires var granted := if result.error == "" && result.accept then result.limit else 0;
             Enabled(a, Settle(id, granted))
    ensures var granted := if result.error == "" && result.accept then result.limit else 0;
            var a', s' := Answer(a, id, granted),
                          TokenStock.SetLimit(a.s, TokenStock.Reply(Wrappers.Some(a.open[id]), result, time), fallback);
            && a'.s.tokens == s'.tokens && a'.s.inflight == s'.inflight
            && a'.open == a.open - {id} && a'.credits == a.credits
  {
    var granted := if result.error == "" && result.accept then result.limit else 0;
    assert a.credits[id := granted] - {id} == a.credits;
  }

  /** So has a take, with its undoing if there was nothing to take. */
  lemma TakeIsUse(a: Account)
    requires a.s.tokens >= 0
    ensures var a' := Apply(a, Take);
            if a.s.tokens > 0 then a' == a.(s := a.s.(tokens := a.s.tokens - 1))
            else Enabled(a', Undo) && Apply(a', Undo) == a
  {
  }

  /** And a resize, with the subtraction of what is too much. */
  lemma ResizeIsResize(a: Account, t: nat, qps: nat, burst: nat)
    requires Enabled(a, LoadForResize(t, qps, burst))
    ensures var a' := Apply(a, LoadForResize(t, qps, burst));
            if t in a'.discards
            then
              && Apply(a', Discard(t)).s == TokenStock.Resize(a.s, qps, burst)
              && Apply(a', Discard(t)).discards == a.discards
            else a'.s == TokenStock.Resize(a.s, qps, burst)
  {
    var overflow := a.s.tokens - TokenStock.ReserveFor(qps);
    assert a.discards[t := overflow] - {t} == a.discards;
  }

  /** A reserve of 1 and nothing but request 1 on its way to the stock. */
  predicate OneAsked(a: Account) {
    && a.s.reserve == a.s.batch == a.maxReserve == 1 && a.s.tokens == 0 && a.s.inflight == 1
    && a.asking.Idle? && a.open == map[1 := 1] && a.credits == map[] && a.undos == 0 && a.discards == map[]
  }

  /** Its answer is half-way when the next request is sent: the stock ends up with 2. */
  lemma HalfWayAskOverfills(a0: Account, rate: real, now: int) returns (a1: Account, a2: Account, a3: Account)
    requires OneAsked(a0) && rate <= 1.0
    ensures Enabled(a0, Settle(1, 1)) && a1 == Apply(a0, Settle(1, 1))
    ensures a1.asking.Idle? && 2 !in a1.open && 2 !in a1.credits && Enabled(Ask(a1, 2, rate, now), Credit(1))
    ensures a2 == Apply(Ask(a1, 2, rate, now), Credit(1))
    ensures Enabled(a2, Settle(2, 1)) && a3 == Answer(a2, 2, 1)
    ensures a3.s.tokens == 2 && a3.s.reserve == 1 && a3.s.inflight == 0
  {
    a1 := Apply(a0, Settle(1, 1));
    AskIsExpectToken(a1, 2, rate, now);
    a2 := Apply(Ask(a1, 2, rate, now), Credit(1));
    a3 := Answer(a2, 2, 1);
  }

  /** Its whole answer falls between the two loads of the next request: the same. */
  lemma AnswerBetweenLoadsOverfills(a0: Account, rate: real, now: int) returns (a1: Account, a2: Account, a3: Account)
    requires OneAsked(a0) && rate <= 1.0
    ensures Enabled(a0, LoadTokens) && Enabled(Apply(a0, LoadTokens), Settle(1, 1))
    ensures a1 == Answer(Apply(a0, LoadTokens), 1, 1)
    ensures Enabled(a1, LoadInflight(rate, now)) && Enabled(Apply(a1, LoadInflight(rate, now)), Book(2))
    ensures a2 == Apply(Apply(a1, LoadInflight(rate, now)), Book(2))
    ensures a0.credits == a1.credits == a2.credits == map[] && a2.s.tokens + a2.s.inflight == 2
    ensures Enabled(a2, Settle(2, 1)) && a3 == Answer(a2, 2, 1)
    ensures a3.s.tokens == 2 && a3.s.reserve == 1 && a3.s.inflight == 0
  {
    a1 := Answer(Apply(a0, LoadTokens), 1, 1);
    assert a1.credits == map[] && a1.open == map[];
    a2 := Apply(Apply(a1, LoadInflight(rate, now)), Book(2));
    a3 := Answer(a2, 2, 1);
  }

  /** The stock is loaded while a failed take has to be undone: one more is asked for than there is room. */
  lemma FailedTakeOverasks(a0: Account, rate: real, now: int) returns (a1: Account, a2: Account)
    requires OneAsked(a0) && rate <= 1.0
    ensures a1 == Apply(a0, Take) && a1.asking.Idle? && 2 !in a1.open && 2 !in a1.credits
    ensures Enabled(Ask(a1, 2, rate, now), Undo) && a2 == Apply(Ask(a1, 2, rate, now), Undo)
    ensures a2.s.tokens == 0 && a2.s.inflight == 2 && a2.s.reserve == 1 && a2.undos == 0
  {
    a1 := Apply(a0, Take);
    AskIsExpectToken(a1, 2, rate, now);
    a2 := Apply(Ask(a1, 2, rate, now), Undo);
  }
}
