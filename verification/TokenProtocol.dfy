/**
 * Token accounting between the limit server and many gateways, one atomic memory operation at a time.
 * A gateway's goroutines interleave freely: a failed take is a decrement followed later by an increment,
 * a resize is a load followed later by a subtraction, and replies arrive late, out of order or never.
 */
module TokenProtocol {
  import opened MapSums

  /** One gateway: its stock, its history, and the second halves its goroutines still owe. */
  datatype Gateway = Gateway(tokens: int, granted: int, admitted: int, discarded: int,
                             undos: nat, discards: map<nat, int>)

  const NEW_GATEWAY := Gateway(0, 0, 0, 0, 0, map[])

  datatype Reply = Reply(gateway: string, limit: int)

  /** The server's bucket, all gateways, and the replies on the way; lost counts tokens of lost replies. */
  datatype System = System(available: int, taken: int, refilled: int, lost: int,
                           gateways: map<string, Gateway>, replies: map<nat, Reply>)

  datatype Step =
    | Join(g: string)
    | Take(g: string)                        // decrement; admits the request if the result is not negative
    | Undo(g: string)                        // the increment after a decrement below zero
    | LoadForResize(g: string, t: nat, reserve: int) // goroutine t reads the stock and finds how much is too much
    | Discard(g: string, t: nat)             // it subtracts what its load found to be too much
    | Grant(id: nat, g: string, limit: int)  // the server takes tokens and replies
    | Deliver(id: nat)
    | Lose(id: nat)
    | Refill(n: nat)

  predicate Enabled(s: System, step: Step) {
    match step
    case Join(g) => g !in s.gateways
    case Take(g) => g in s.gateways
    case Undo(g) => g in s.gateways && s.gateways[g].undos > 0
    case LoadForResize(g, t, _) => g in s.gateways && t !in s.gateways[g].discards
    case Discard(g, t) => g in s.gateways && t in s.gateways[g].discards
    case Grant(id, g, limit) => id !in s.replies && g in s.gateways && 0 <= limit <= s.available
    case Deliver(id) => id in s.replies && s.replies[id].gateway in s.gateways
    case Lose(id) => id in s.replies
    case Refill(_) => true
  }

  function TakeOne(g: Gateway): Gateway {
    if g.tokens - 1 < 0 then g.(tokens := g.tokens - 1, undos := g.undos + 1)
    else g.(tokens := g.tokens - 1, admitted := g.admitted + 1)
  }

  function Load(g: Gateway, t: nat, reserve: int): Gateway {
    var overflow := g.tokens - reserve;
    if overflow > 0 then g.(discards := g.discards[t := overflow]) else g
  }

  /** The gateway after one of its own steps. */
  function LocalEffect(g: Gateway, step: Step): Gateway
    requires step.Take? || (step.Undo? && g.undos > 0) || step.LoadForResize? || (step.Discard? && step.t in g.discards)
  {
    match step
    case Take(_) => TakeOne(g)
    case Undo(_) => g.(tokens := g.tokens + 1, undos := g.undos - 1)
    case LoadForResize(_, t, reserve) => Load(g, t, reserve)
    case Discard(_, t) =>
      g.(tokens := g.tokens - g.discards[t], discarded := g.discarded + g.discards[t], discards := g.discards - {t})
  }

  function Apply(s: System, step: Step): System
    requires Enabled(s, step)
  {
    match step
    case Join(g) => s.(gateways := s.gateways[g := NEW_GATEWAY])
    case Grant(id, g, limit) =>
      s.(available := s.available - limit, taken := s.taken + limit, replies := s.replies[id := Reply(g, limit)])
    case Deliver(id) =>
      var reply := s.replies[id];
      var gw := s.gateways[reply.gateway];
      s.(gateways := s.gateways[reply.gateway :=
                                  gw.(tokens := gw.tokens + reply.limit, granted := gw.granted + reply.limit)],
         replies := s.replies - {id})
    case Lose(id) => s.(lost := s.lost + s.replies[id].limit, replies := s.replies - {id})
    case Refill(n) => s.(available := s.available + n, refilled := s.refilled + n)
    case _ => s.(gateways := s.gateways[step.g := LocalEffect(s.gateways[step.g], step)])
  }

  // ---------- the accounts ----------

  /** Every token a gateway was granted is in stock, was used, was discarded, or is owed by a failed take. */
  predicate GatewayInv(g: Gateway) {
    && g.granted == g.tokens + g.admitted + g.discarded + g.undos
    && g.tokens + g.discarded + g.undos >= 0
    && g.discarded >= 0
    && forall t :: t in g.discards ==> g.discards[t] > 0
  }

  function GrantedOf(gs: map<string, Gateway>): map<string, int> { map g | g in gs :: gs[g].granted }

  function AdmittedOf(gs: map<string, Gateway>): map<string, int> { map g | g in gs :: gs[g].admitted }

  function LimitsOf(rs: map<nat, Reply>): map<nat, int> { map id | id in rs :: rs[id].limit }

  ghost function Granted(s: System): int { Sum(GrantedOf(s.gateways)) }

  ghost function Admitted(s: System): int { Sum(AdmittedOf(s.gateways)) }

  ghost function OnTheWay(s: System): int { Sum(LimitsOf(s.replies)) }

  /** Every token the server handed out reached a gateway, is on the way, or was lost. */
  ghost predicate Inv(s: System) {
    && (forall g :: g in s.gateways ==> GatewayInv(s.gateways[g]))
    && (forall id :: id in s.replies ==> s.replies[id].limit >= 0)
    && s.lost >= 0
    && s.taken == Granted(s) + OnTheWay(s) + s.lost
  }

  lemma GrantedUpdate(gs: map<string, Gateway>, g: string, gw: Gateway)
    ensures Sum(GrantedOf(gs[g := gw])) == Sum(GrantedOf(gs)) - (if g in gs then gs[g].granted else 0) + gw.granted
  {
    SumUpdate(GrantedOf(gs), g, gw.granted);
    assert GrantedOf(gs[g := gw]) == GrantedOf(gs)[g := gw.granted];
  }

  lemma ReplyAdded(rs: map<nat, Reply>, id: nat, r: Reply)
    requires id !in rs
    ensures Sum(LimitsOf(rs[id := r])) == Sum(LimitsOf(rs)) + r.limit
  {
    SumUpdate(LimitsOf(rs), id, r.limit);
    assert LimitsOf(rs[id := r]) == LimitsOf(rs)[id := r.limit];
  }

  lemma ReplyRemoved(rs: map<nat, Reply>, id: nat)
    requires id in rs
    ensures Sum(LimitsOf(rs - {id})) == Sum(LimitsOf(rs)) - rs[id].limit
  {
    SumRemove(LimitsOf(rs), id);
    assert LimitsOf(rs - {id}) == LimitsOf(rs) - {id};
  }

  /** A step inside one gateway keeps the accounts if it keeps that gateway's and grants nothing. */
  lemma LocalStep(s: System, g: string, gw: Gateway, s': System)
    requires Inv(s) && GatewayInv(gw) && gw.granted == if g in s.gateways then s.gateways[g].granted else 0
    requires s' == s.(gateways := s.gateways[g := gw])
    ensures Inv(s')
  {
    GrantedUpdate(s.gateways, g, gw);
  }

  lemma DeliverKeepsInv(s: System, id: nat)
    requires Inv(s) && Enabled(s, Deliver(id))
    ensures Inv(Apply(s, Deliver(id)))
  {
    var g := s.replies[id].gateway;
    GrantedUpdate(s.gateways, g, Apply(s, Deliver(id)).gateways[g]);
    ReplyRemoved(s.replies, id);
  }

  lemma LocalEffectKeepsInv(g: Gateway, step: Step)
    requires GatewayInv(g)
    requires step.Take? || (step.Undo? && g.undos > 0) || step.LoadForResize? || (step.Discard? && step.t in g.discards)
    ensures GatewayInv(LocalEffect(g, step)) && LocalEffect(g, step).granted == g.granted
  {
  }

  lemma GrantKeepsInv(s: System, id: nat, g: string, limit: int)
    requires Inv(s) && Enabled(s, Grant(id, g, limit))
    ensures Inv(Apply(s, Grant(id, g, limit)))
  {
    ReplyAdded(s.replies, id, Reply(g, limit));
  }

  lemma LoseKeepsInv(s: System, id: nat)
    requires Inv(s) && Enabled(s, Lose(id))
    ensures Inv(Apply(s, Lose(id)))
  {
    ReplyRemoved(s.replies, id);
  }

  predicate IsLocal(step: Step) { step.Take? || step.Undo? || step.LoadForResize? || step.Discard? }

  lemma LocalKeepsInv(s: System, step: Step)
    requires Inv(s) && Enabled(s, step) && IsLocal(step)
    ensures Inv(Apply(s, step))
  {
    var gw := s.gateways[step.g];
    LocalEffectKeepsInv(gw, step);
    LocalStep(s, step.g, LocalEffect(gw, step), Apply(s, step));
  }

  lemma NewGatewayInv(s: System, step: Step) returns (gw: Gateway)
    requires step.Join? && Enabled(s, step)
    ensures GatewayInv(gw) && gw.granted == 0 && Apply(s, step) == s.(gateways := s.gateways[step.g := gw])
  {
    gw := NEW_GATEWAY;
  }

  lemma JoinKeepsInv(s: System, step: Step)
    requires Inv(s) && step.Join? && Enabled(s, step)
    ensures Inv(Apply(s, step))
  {
    var gw := NewGatewayInv(s, step);
    LocalStep(s, step.g, gw, Apply(s, step));
  }

  lemma RefillKeepsInv(s: System, n: nat)
    requires Inv(s)
    ensures Inv(Apply(s, Refill(n)))
  {
  }

  lemma StepKeepsInv(s: System, step: Step)
    requires Inv(s) && Enabled(s, step)
    ensures Inv(Apply(s, step))
  {
    if IsLocal(step) {
      LocalKeepsInv(s, step);
    } else {
      match step
      case Join(g) => JoinKeepsInv(s, step);
      case Grant(id, g, limit) => GrantKeepsInv(s, id, g, limit);
      case Deliver(id) => DeliverKeepsInv(s, id);
      case Lose(id) => LoseKeepsInv(s, id);
      case Refill(n) => RefillKeepsInv(s, n);
    }
  }

  /** What is taken from the bucket and what is left of it add up to what was ever put into it. */
  predicate BucketInv(s: System, initial: int) {
    s.available + s.taken == initial + s.refilled && s.available >= 0
  }

  lemma AdmittedAtMostGranted(s: System)
    requires Inv(s)
    ensures forall g :: g in s.gateways ==> s.gateways[g].admitted <= s.gateways[g].granted
    ensures Admitted(s) <= s.taken
  {
    SumMonotone(AdmittedOf(s.gateways), GrantedOf(s.gateways));
    SumNonNegative(LimitsOf(s.replies));
  }

  /**
   * In every interleaving, the requests admitted by taking a token never outnumber the tokens granted to
   * their gateway, and system-wide never outnumber the tokens that were ever in the server's bucket.
   */
  lemma TokenSafety(states: seq<System>, steps: seq<Step>, k: nat)
    requires |states| == |steps| + 1 && k <= |steps|
    requires Inv(states[0]) && states[0].available >= 0
    requires forall i :: 0 <= i < |steps| ==>
               Enabled(states[i], steps[i]) && states[i + 1] == Apply(states[i], steps[i])
    ensures Inv(states[k])
    ensures forall g :: g in states[k].gateways ==> states[k].gateways[g].admitted <= states[k].gateways[g].granted
    ensures Admitted(states[k]) <= states[k].taken
    ensures var initial := states[0].available + states[0].taken - states[0].refilled;
            Admitted(states[k]) <= initial + states[k].refilled
  {
    var initial := states[0].available + states[0].taken - states[0].refilled;
    for j := 0 to k
      invariant Inv(states[j]) && BucketInv(states[j], initial)
    {
      StepKeepsInv(states[j], steps[j]);
    }
    AdmittedAtMostGranted(states[k]);
  }

  lemma StartsAccounted(s: System)
    requires s.gateways == map[] && s.replies == map[] && s.taken == s.lost == 0
    ensures Inv(s)
  {
    assert GrantedOf(s.gateways).Keys == {} && LimitsOf(s.replies).Keys == {};
  }

  // ---------- takes and resizes that nothing interrupts ----------

  /** A take admits a request exactly when there is a token, and otherwise leaves the stock as it was. */
  lemma TakeAdmitsIff(g: Gateway)
    ensures var g1 := TakeOne(g);
            if g.tokens > 0 then g1 == g.(tokens := g.tokens - 1, admitted := g.admitted + 1)
            else g1.undos > 0 && LocalEffect(g1, Undo("")) == g
  {
  }

  /** A resize brings the stock down to the reserve and books what it takes away. */
  lemma ResizeDiscards(g: Gateway, t: nat, reserve: int)
    requires t !in g.discards
    ensures var g1 := Load(g, t, reserve);
            var g2 := if t in g1.discards then LocalEffect(g1, Discard("", t)) else g1;
            && g2.tokens == (if g.tokens > reserve then reserve else g.tokens)
            && g2.tokens + g2.discarded == g.tokens + g.discarded && g2.discards == g.discards
            && g2.admitted == g.admitted && g2.granted == g.granted && g2.undos == g.undos
  {
    assert g.discards[t := g.tokens - reserve] - {t} == g.discards;
  }

  // ---------- a late subtraction ----------

  /** A stock at rest can be negative: a resize discards tokens that were used after it looked. */
  lemma LateDiscardLeavesDebt(s: System, g: string, t: nat)
    requires g in s.gateways && s.gateways[g] == Gateway(2, 2, 0, 0, 0, map[])
    ensures var s1 := Apply(s, LoadForResize(g, t, 1));
            var s2 := Apply(s1, Take(g));
            var s3 := Apply(s2, Take(g));
            && Enabled(s3, Discard(g, t))
            && Apply(s3, Discard(g, t)).gateways[g] == Gateway(-1, 2, 2, 1, 0, map[])
  {
    var s1 := Apply(s, LoadForResize(g, t, 1));
    assert s1.gateways[g].discards == map[t := 1];
    assert map[t := 1] - {t} == map[];
  }

  /** Once the failed takes are undone, the stock is not negative. */
  predicate Solvent(g: Gateway) { g.tokens + g.undos >= 0 }

  ghost predicate AllSolvent(s: System) { forall g :: g in s.gateways ==> Solvent(s.gateways[g]) }

  /** The step subtracts more than the stock will hold once the failed takes are undone. */
  predicate Overdraws(s: System, step: Step)
    requires Enabled(s, step)
  {
    step.Discard? && s.gateways[step.g].tokens + s.gateways[step.g].undos < s.gateways[step.g].discards[step.t]
  }

  /** A step keeps all stocks solvent exactly when it does not overdraw one. */
  lemma StepIsSolventIff(s: System, step: Step)
    requires Inv(s) && Enabled(s, step) && AllSolvent(s)
    ensures AllSolvent(Apply(s, step)) <==> !Overdraws(s, step)
  {
    var s' := Apply(s, step);
    if Overdraws(s, step) {
      assert !Solvent(s'.gateways[step.g]);
    } else {
      forall g | g in s'.gateways ensures Solvent(s'.gateways[g]) {
        if g in s.gateways { assert Solvent(s.gateways[g]); }
      }
    }
  }

  /** An interleaving keeps all stocks solvent throughout exactly when no late subtraction overdraws one. */
  lemma SolventIff(states: seq<System>, steps: seq<Step>, k: nat)
    requires |states| == |steps| + 1 && k <= |steps| && Inv(states[0]) && AllSolvent(states[0])
    requires forall i :: 0 <= i < |steps| ==>
               Enabled(states[i], steps[i]) && states[i + 1] == Apply(states[i], steps[i])
    ensures (forall j :: 0 <= j <= k ==> AllSolvent(states[j])) <==>
            (forall j :: 0 <= j < k ==> !Overdraws(states[j], steps[j]))
  {
    for j := 0 to k
      invariant forall i :: 0 <= i <= j ==> Inv(states[i])
    {
      StepKeepsInv(states[j], steps[j]);
    }
    forall j | 0 <= j < k && AllSolvent(states[j])
      ensures AllSolvent(states[j + 1]) <==> !Overdraws(states[j], steps[j])
    {
      StepIsSolventIff(states[j], steps[j]);
    }
    if forall j :: 0 <= j < k ==> !Overdraws(states[j], steps[j]) {
      for j := 0 to k
        invariant forall i :: 0 <= i <= j ==> AllSolvent(states[i])
      {
        assert !Overdraws(states[j], steps[j]);
      }
    }
    if forall j :: 0 <= j <= k ==> AllSolvent(states[j]) {
      forall j | 0 <= j < k ensures !Overdraws(states[j], steps[j]) {
        assert AllSolvent(states[j]) && AllSolvent(states[j + 1]);
      }
    }
  }

  /** So without overdrawing, a stock with no failed take under way is not negative. */
  lemma RestingStockIsNotNegative(states: seq<System>, steps: seq<Step>, k: nat, g: string)
    requires |states| == |steps| + 1 && k <= |steps| && Inv(states[0]) && AllSolvent(states[0])
    requires forall i :: 0 <= i < |steps| ==>
               Enabled(states[i], steps[i]) && states[i + 1] == Apply(states[i], steps[i])
    requires forall j :: 0 <= j < k ==> !Overdraws(states[j], steps[j])
    requires g in states[k].gateways && states[k].gateways[g].undos == 0
    ensures states[k].gateways[g].tokens >= 0
  {
    SolventIff(states, steps, k);
    assert AllSolvent(states[k]);
  }
}
