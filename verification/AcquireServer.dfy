/** The limit server's answer to acquire requests. */
module AcquireServer {
  import opened Wrappers
  import opened MapSums
  import opened MaxInflight

  // ---------- global limit on requests in flight ----------

  /** What one gateway reported last, and with which request id. */
  datatype Instance = Instance(count: int, requestId: int)

  datatype Inflight = Inflight(max: int, count: int, instances: map<string, Instance>)

  /** The answer to a report: accepted or not, the count the gateway may use, or an error. */
  datatype Verdict = Verdict(accept: bool, latest: int, error: string)

  function InstanceOf(f: Inflight, name: string): Instance {
    if name in f.instances then f.instances[name] else Instance(0, 0)
  }

  function Forget(f: Inflight, name: string): Inflight {
    f.(count := f.count - InstanceOf(f, name).count, instances := f.instances - {name})
  }

  /** A gateway reports how many requests it has in flight; a negative count makes the server forget it. */
  function SetState(f: Inflight, name: string, requestId: int, current: int): (Verdict, Inflight) {
    if current < 0 then
      (Verdict(false, -1, ""), Forget(f, name))
    else
      var known := InstanceOf(f, name);
      if 0 < requestId <= known.requestId then
        (Verdict(false, current, TOO_OLD), f.(instances := f.instances[name := known]))
      else
        var id := if requestId > 0 then requestId else known.requestId;
        var overflow := f.count + current - known.count - f.max;
        if overflow > 0 then
          (Verdict(false, known.count, ""), f.(instances := f.instances[name := Instance(known.count, id)]))
        else
          (Verdict(overflow < 0 || current == 0, current, ""),
           f.(count := f.count + current - known.count, instances := f.instances[name := Instance(current, id)]))
  }

  function CountsOf(instances: map<string, Instance>): map<string, int> {
    map n | n in instances :: instances[n].count
  }

  /** The server's count is the sum of what the gateways reported. */
  ghost predicate InflightInv(f: Inflight) {
    && f.count == Sum(CountsOf(f.instances))
    && forall n :: n in f.instances ==> f.instances[n].count >= 0
  }

  lemma CountsUpdate(instances: map<string, Instance>, n: string, i: Instance)
    ensures Sum(CountsOf(instances[n := i]))
            == Sum(CountsOf(instances)) - (if n in instances then instances[n].count else 0) + i.count
  {
    SumUpdate(CountsOf(instances), n, i.count);
    assert CountsOf(instances[n := i]) == CountsOf(instances)[n := i.count];
  }

  lemma SetStateKeepsSum(f: Inflight, name: string, requestId: int, current: int)
    requires InflightInv(f)
    ensures InflightInv(SetState(f, name, requestId, current).1)
  {
    var f' := SetState(f, name, requestId, current).1;
    if current < 0 {
      if name in f.instances {
        SumRemove(CountsOf(f.instances), name);
        assert CountsOf(f.instances) - {name} == CountsOf(f'.instances);
      } else {
        assert f.instances - {name} == f.instances;
      }
    } else {
      CountsUpdate(f.instances, name, f'.instances[name]);
    }
  }

  datatype InflightStep = Report(name: string, requestId: int, current: int) | Resize(max: int)

  function InflightApply(f: Inflight, step: InflightStep): Inflight {
    match step
    case Report(name, requestId, current) => SetState(f, name, requestId, current).1
    case Resize(max) => f.(max := max)
  }

  /** In every run of reports and resizes, the recorded sum never exceeds the largest maximum so far. */
  lemma InflightSafety(states: seq<Inflight>, steps: seq<InflightStep>, bound: int, k: nat)
    requires |states| == |steps| + 1 && k <= |steps|
    requires InflightInv(states[0]) && states[0].count <= bound
    requires forall i :: 0 <= i < |states| ==> states[i].max <= bound
    requires forall i :: 0 <= i < |steps| ==> states[i + 1] == InflightApply(states[i], steps[i])
    ensures InflightInv(states[k]) && Sum(CountsOf(states[k].instances)) <= bound
  {
    for j := 0 to k
      invariant InflightInv(states[j]) && states[j].count <= bound
    {
      match steps[j]
      case Report(name, requestId, current) =>
        SetStateKeepsSum(states[j], name, requestId, current);
      case Resize(max) =>
    }
  }

  /** A report that is not outdated changes the record exactly when the new sum fits under the maximum. */
  lemma ReportIsRecordedIff(f: Inflight, name: string, requestId: int, current: int)
    requires current >= 0 && current != InstanceOf(f, name).count
    requires requestId <= 0 || requestId > InstanceOf(f, name).requestId
    ensures var f' := SetState(f, name, requestId, current).1;
            InstanceOf(f', name).count == current <==> f.count + current - InstanceOf(f, name).count <= f.max
  {
  }

  /** After the maximum was cut to 5, a gateway that goes down from 10 to 8 is held at 10. */
  lemma DecreaseIsRefusedAboveMax(f: Inflight, name: string)
    requires f.max == 5 && f.count == 10 && name in f.instances && f.instances[name] == Instance(10, 1)
    ensures var (verdict, f') := SetState(f, name, 2, 8);
            !verdict.accept && verdict.latest == 10 && f'.count == 10 && f'.instances[name].count == 10
  {
  }

  // ---------- tokens ----------

  /** Offers n, n/2, n/4, n/8 to a bucket that holds the given number of tokens. */
  function Halvings(tokens: int, n: int, tries: nat): Option<int>
    requires n >= 0
  {
    if tries == 0 then None
    else if n <= tokens then Some(n)
    else if n / 2 <= 0 then None
    else Halvings(tokens, n / 2, tries - 1)
  }

  /** What is granted after n was offered first is n, or one of three halvings of it. */
  lemma HalvingsOfRequest(tokens: int, n: nat)
    ensures var r := Halvings(tokens, n, 4);
            r.Some? ==> r.value == n || r.value == n / 2 || r.value == n / 4 || r.value == n / 8
  {
    var n2 := n / 2;
    var n4 := n2 / 2;
    var n8 := n4 / 2;
    assert n4 == n / 4 && n8 == n / 8;
    assert Halvings(tokens, n8, 1) == if n8 <= tokens then Some(n8) else None;
    assert Halvings(tokens, n4, 2) ==
           if n4 <= tokens then Some(n4) else if n8 <= 0 then None else Halvings(tokens, n8, 1);
    assert Halvings(tokens, n2, 3) ==
           if n2 <= tokens then Some(n2) else if n4 <= 0 then None else Halvings(tokens, n4, 2);
  }

  /** What is granted is a halving of the request that fits, and no earlier offer did. */
  lemma {:induction false} HalvingsGrantTheFirstFit(tokens: nat, n: nat, tries: nat)
    ensures var r := Halvings(tokens, n, tries);
            && (r.Some? ==> 0 <= r.value <= n && r.value <= tokens)
            && (r.Some? && r.value < n ==> tokens < n && 2 * r.value >= tokens && r.value > 0)
            && (tries > 0 && n <= tokens ==> r == Some(n))
  {
    if tries > 0 && n > tokens && n / 2 > 0 {
      HalvingsGrantTheFirstFit(tokens, n / 2, tries - 1);
    }
  }

  /** Four offers fail exactly when even an eighth of the request does not fit, or the offers reach zero. */
  lemma RefusedIff(tokens: nat, n: nat)
    ensures Halvings(tokens, n, 4).None? <==> n > tokens && (n / 8 > tokens || tokens == 0)
  {
    var n2 := n / 2;
    var n4 := n2 / 2;
    var n8 := n4 / 2;
    assert n8 == n / 8;
    assert Halvings(tokens, n8, 1) == if n8 <= tokens then Some(n8) else None;
    assert Halvings(tokens, n4, 2) ==
           if n4 <= tokens then Some(n4) else if n8 <= 0 then None else Halvings(tokens, n8, 1);
    assert Halvings(tokens, n2, 3) ==
           if n2 <= tokens then Some(n2) else if n4 <= 0 then None else Halvings(tokens, n4, 2);
  }

  datatype FlowControl = Bucket(tokens: nat) | Limit(inflight: Inflight)

  datatype Request = Request(flowControl: string, tokens: int)

  datatype Answer = Answer(flowControl: string, accept: bool, limit: int, error: string)

  /** The answer to one request and the flow control after it. */
  function Acquire(fc: FlowControl, instance: string, requestId: int, r: Request): (Answer, FlowControl) {
    if r.tokens < 0 then (Answer(r.flowControl, false, 0, "tokens cannot be negative"), fc)
    else match fc
      case Bucket(tokens) =>
        (match Halvings(tokens, r.tokens, 4)
         case Some(n) => (Answer(r.flowControl, true, n, ""), Bucket(if n <= tokens then tokens - n else 0))
         case None => (Answer(r.flowControl, false, 0, ""), fc))
      case Limit(f) =>
        var (v, f') := SetState(f, instance, requestId, r.tokens);
        (Answer(r.flowControl, v.accept, if v.error != "" then 0 else v.latest, v.error), Limit(f'))
  }

  type FlowControls = map<string, FlowControl>

  /** The answer to one request and all flow controls after it. */
  function AcquireIn(fcs: FlowControls, instance: string, requestId: int, r: Request): (Answer, FlowControls) {
    if r.flowControl !in fcs then (Answer(r.flowControl, false, 0, "not found"), fcs)
    else
      var (a, fc) := Acquire(fcs[r.flowControl], instance, requestId, r);
      (a, fcs[r.flowControl := fc])
  }

  /** One answer per request, each computed from what the requests before it left. */
  function AcquireAll(fcs: FlowControls, instance: string, requestId: int, requests: seq<Request>)
    : (seq<Answer>, FlowControls)
  {
    if requests == [] then ([], fcs) else
      var (answers, fcs') := AcquireAll(fcs, instance, requestId, requests[..|requests| - 1]);
      var (a, fcs'') := AcquireIn(fcs', instance, requestId, requests[|requests| - 1]);
      (answers + [a], fcs'')
  }

  class LimitStore {
    var flowControls: FlowControls

    /** The loop over the halved offers; at most one of them takes tokens. */
    method TryHalvings(name: string, n: int) returns (granted: Option<int>)
      requires name in flowControls && flowControls[name].Bucket? && n >= 0
      modifies this
      ensures granted == Halvings(old(flowControls)[name].tokens, n, 4)
      ensures granted.Some? ==> granted.value <= old(flowControls)[name].tokens
      ensures flowControls == old(flowControls)[name := Bucket(old(flowControls)[name].tokens - granted.GetOr(0))]
    {
      var token, i := n, 0;
      granted := None;
      HalvingsGrantTheFirstFit(flowControls[name].tokens, n, 4);
      while i < 4
        invariant 0 <= i <= 4 && token >= 0
        invariant flowControls == old(flowControls)
        invariant Halvings(flowControls[name].tokens, token, 4 - i) == Halvings(flowControls[name].tokens, n, 4)
        decreases 4 - i
      {
        var tokens := flowControls[name].tokens;
        if token <= tokens {
          flowControls := flowControls[name := Bucket(tokens - token)];
          return Some(token);
        }
        token := token / 2;
        i := i + 1;
        if token <= 0 {
          break;
        }
      }
      assert flowControls[name := flowControls[name]] == flowControls;
    }

    method AcquireOne(instance: string, requestId: int, r: Request) returns (a: Answer)
      modifies this
      ensures (a, flowControls) == AcquireIn(old(flowControls), instance, requestId, r)
    {
      if r.flowControl !in flowControls {
        return Answer(r.flowControl, false, 0, "not found");
      }
      assert flowControls[r.flowControl := flowControls[r.flowControl]] == flowControls;
      if r.tokens < 0 {
        return Answer(r.flowControl, false, 0, "tokens cannot be negative");
      }
      match flowControls[r.flowControl]
      case Bucket(_) =>
        var granted := TryHalvings(r.flowControl, r.tokens);
        a := Answer(r.flowControl, granted.Some?, granted.GetOr(0), "");
      case Limit(f) =>
        var (v, f') := SetState(f, instance, requestId, r.tokens);
        flowControls := flowControls[r.flowControl := Limit(f')];
        if v.error != "" {
          a := Answer(r.flowControl, false, 0, v.error);
        } else if v.accept {
          a := Answer(r.flowControl, true, r.tokens, "");
        } else {
          a := Answer(r.flowControl, false, v.latest, "");
        }
    }

    method DoAcquire(instance: string, requestId: int, requests: seq<Request>) returns (answers: seq<Answer>)
      modifies this
      ensures (answers, flowControls) == AcquireAll(old(flowControls), instance, requestId, requests)
    {
      answers := [];
      for i := 0 to |requests|
        invariant (answers, flowControls) == AcquireAll(old(flowControls), instance, requestId, requests[..i])
      {
        assert requests[..i + 1][..i] == requests[..i];
        var a := AcquireOne(instance, requestId, requests[i]);
        answers := answers + [a];
      }
      assert requests[..|requests|] == requests;
    }
  }

  function Paid(n: string, a: Answer): int { if a.flowControl == n && a.accept then a.limit else 0 }

  function GrantedTo(n: string, answers: seq<Answer>): int {
    if answers == [] then 0
    else GrantedTo(n, answers[..|answers| - 1]) + Paid(n, answers[|answers| - 1])
  }

  /** An accepted request takes exactly the granted tokens, at most the requested ones; a refusal takes none. */
  lemma AcquirePaysTheAnswer(fc: FlowControl, instance: string, requestId: int, r: Request)
    requires fc.Bucket?
    ensures var (a, fc') := Acquire(fc, instance, requestId, r);
            && a.flowControl == r.flowControl && fc'.Bucket?
            && fc'.tokens == fc.tokens - (if a.accept then a.limit else 0)
            && (a.accept ==> 0 <= a.limit <= r.tokens)
            && (a.accept && a.limit < r.tokens ==> 2 * a.limit >= fc.tokens)
  {
    if r.tokens >= 0 {
      HalvingsGrantTheFirstFit(fc.tokens, r.tokens, 4);
    }
  }

  /** Over a batch, every request is answered in order and every bucket pays exactly what the answers grant. */
  lemma {:induction false} BatchPaysTheAnswers(fcs: FlowControls, instance: string, requestId: int,
                                               requests: seq<Request>, n: string)
    ensures var (answers, fcs') := AcquireAll(fcs, instance, requestId, requests);
            && |answers| == |requests| && fcs'.Keys == fcs.Keys
            && (forall i :: 0 <= i < |requests| ==> answers[i].flowControl == requests[i].flowControl)
            && (n in fcs && fcs[n].Bucket? ==>
                  fcs'[n].Bucket? && fcs'[n].tokens == fcs[n].tokens - GrantedTo(n, answers))
  {
    if requests != [] {
      var init, r := requests[..|requests| - 1], requests[|requests| - 1];
      BatchPaysTheAnswers(fcs, instance, requestId, init, n);
      var (answers, mid) := AcquireAll(fcs, instance, requestId, init);
      var (a, _) := AcquireIn(mid, instance, requestId, r);
      assert (answers + [a])[..|answers|] == answers;
      if r.flowControl in mid && mid[r.flowControl].Bucket? {
        AcquirePaysTheAnswer(mid[r.flowControl], instance, requestId, r);
      }
    }
  }

  /** The in-flight limits of a store: counts add up and stay under their maximum. */
  ghost predicate LimitsHold(fcs: FlowControls) {
    forall n :: n in fcs && fcs[n].Limit? ==>
      InflightInv(fcs[n].inflight) && fcs[n].inflight.count <= fcs[n].inflight.max
  }

  /** A batch keeps every in-flight limit of the store. */
  lemma {:induction false} BatchKeepsLimits(fcs: FlowControls, instance: string, requestId: int, requests: seq<Request>)
    requires LimitsHold(fcs)
    ensures LimitsHold(AcquireAll(fcs, instance, requestId, requests).1)
  {
    if requests != [] {
      var init, r := requests[..|requests| - 1], requests[|requests| - 1];
      BatchKeepsLimits(fcs, instance, requestId, init);
      OneKeepsLimits(AcquireAll(fcs, instance, requestId, init).1, instance, requestId, r);
    }
  }

  lemma OneKeepsLimits(fcs: FlowControls, instance: string, requestId: int, r: Request)
    requires LimitsHold(fcs)
    ensures LimitsHold(AcquireIn(fcs, instance, requestId, r).1)
  {
    if r.flowControl in fcs && fcs[r.flowControl].Limit? && r.tokens >= 0 {
      SetStateKeepsSum(fcs[r.flowControl].inflight, instance, requestId, r.tokens);
    }
  }

  /** An accepted request is granted at most what it asked for, by either kind of flow control. */
  lemma GrantFitsRequest(fcs: FlowControls, instance: string, requestId: int, r: Request)
    ensures var a := AcquireIn(fcs, instance, requestId, r).0;
            a.flowControl == r.flowControl && (a.accept ==> 0 <= a.limit <= r.tokens)
  {
    if r.flowControl in fcs && fcs[r.flowControl].Bucket? {
      AcquirePaysTheAnswer(fcs[r.flowControl], instance, requestId, r);
    }
  }

  /** Over a batch, request by request. */
  lemma {:induction false} BatchFitsRequests(fcs: FlowControls, instance: string, requestId: int,
                                             requests: seq<Request>, i: nat)
    requires i < |requests|
    ensures var answers := AcquireAll(fcs, instance, requestId, requests).0;
            && |answers| == |requests| && answers[i].flowControl == requests[i].flowControl
            && (answers[i].accept ==> 0 <= answers[i].limit <= requests[i].tokens)
  {
    var last := |requests| - 1;
    BatchPaysTheAnswers(fcs, instance, requestId, requests[..last], "");
    if i == last {
      GrantFitsRequest(AcquireAll(fcs, instance, requestId, requests[..last]).1, instance, requestId, requests[last]);
    } else {
      BatchFitsRequests(fcs, instance, requestId, requests[..last], i);
    }
  }

  // ---------- what is answered ----------

  /** A token request that t tokens answer: what is accepted, and how much of it is granted. */
  predicate TokenAnswer(t: nat, r: Request, a: Answer) {
    && a.flowControl == r.flowControl && (a.error != "" <==> r.tokens < 0)
    && (a.accept <==> r.tokens >= 0 && (r.tokens <= t || (t > 0 && r.tokens / 8 <= t)))
    && (a.accept ==>
          a.limit == r.tokens || a.limit == r.tokens / 2 || a.limit == r.tokens / 4 || a.limit == r.tokens / 8)
    && (a.accept && r.tokens <= t ==> a.limit == r.tokens)
    && (a.accept && r.tokens > t ==> t <= 2 * a.limit && a.limit <= t)
    && (a.accept && r.tokens > 0 ==> a.limit > 0)
    && (!a.accept ==> a.limit == 0)
  }

  lemma TokenRequestIsAnswered(fc: FlowControl, instance: string, requestId: int, r: Request)
    requires fc.Bucket?
    ensures TokenAnswer(fc.tokens, r, Acquire(fc, instance, requestId, r).0)
  {
    if r.tokens >= 0 {
      HalvingsGrantTheFirstFit(fc.tokens, r.tokens, 4);
      HalvingsOfRequest(fc.tokens, r.tokens);
      RefusedIff(fc.tokens, r.tokens);
    }
  }

  /** The report is new to the server. */
  predicate Fresh(f: Inflight, instance: string, requestId: int) {
    requestId <= 0 || requestId > InstanceOf(f, instance).requestId
  }

  /**
   * A report of requests in flight is accepted exactly when it is new and leaves the sum below the maximum, or
   * reports nothing and does not exceed it; and a refusal without error tells the gateway what is recorded.
   */
  lemma InflightReportIsAnswered(f: Inflight, instance: string, requestId: int, r: Request)
    requires r.tokens >= 0
    ensures var (a, fc) := Acquire(Limit(f), instance, requestId, r);
            var sum := f.count + r.tokens - InstanceOf(f, instance).count;
            && a.flowControl == r.flowControl && fc.Limit? && fc.inflight.max == f.max
            && (a.accept <==> Fresh(f, instance, requestId) && (sum < f.max || (r.tokens == 0 && sum <= f.max)))
            && (a.error != "" <==> !Fresh(f, instance, requestId))
            && (a.accept ==> a.limit == r.tokens)
            && (a.error == "" ==> a.limit == InstanceOf(fc.inflight, instance).count)
            && (a.error != "" ==> a.limit == 0 && InstanceOf(fc.inflight, instance) == InstanceOf(f, instance))
  {
  }

  /** A gateway's last id is the largest of the positive ones it sent, and nobody else's record changes. */
  lemma ReportLeavesId(f: Inflight, instance: string, requestId: int, current: int)
    requires current >= 0
    ensures var f', last := SetState(f, instance, requestId, current).1, InstanceOf(f, instance).requestId;
            && InstanceOf(f', instance).requestId == (if 0 < requestId && last < requestId then requestId else last)
            && forall n :: n != instance ==> InstanceOf(f', n) == InstanceOf(f, n)
  {
  }

  /** A gateway that reports a negative count is forgotten, and its requests leave the count. */
  lemma NegativeReportForgets(f: Inflight, instance: string, requestId: int, current: int)
    requires current < 0
    ensures var (v, f') := SetState(f, instance, requestId, current);
            !v.accept && instance !in f'.instances && f'.count == f.count - InstanceOf(f, instance).count
  {
  }

  /** An answer of a batch depends on the requests up to it only. */
  lemma {:induction false} BatchPrefix(fcs: FlowControls, instance: string, requestId: int, requests: seq<Request>,
                                       i: nat)
    requires i <= |requests|
    ensures |AcquireAll(fcs, instance, requestId, requests).0| == |requests|
    ensures AcquireAll(fcs, instance, requestId, requests).0[..i]
            == AcquireAll(fcs, instance, requestId, requests[..i]).0
  {
    BatchPaysTheAnswers(fcs, instance, requestId, requests, "");
    if i == |requests| {
      assert requests[..i] == requests;
    } else {
      var init := requests[..|requests| - 1];
      BatchPrefix(fcs, instance, requestId, init, i);
      assert init[..i] == requests[..i];
    }
  }

  lemma BatchAnswer(fcs: FlowControls, instance: string, requestId: int, requests: seq<Request>, i: nat)
    requires i < |requests|
    ensures |AcquireAll(fcs, instance, requestId, requests).0| == |requests|
    ensures var (before, mid) := AcquireAll(fcs, instance, requestId, requests[..i]);
            AcquireAll(fcs, instance, requestId, requests).0[i] == AcquireIn(mid, instance, requestId, requests[i]).0
  {
    BatchPrefix(fcs, instance, requestId, requests, i + 1);
    BatchPrefix(fcs, instance, requestId, requests[..i + 1], i);
    assert requests[..i + 1][..i] == requests[..i];
    var answers := AcquireAll(fcs, instance, requestId, requests).0;
    assert answers[i] == answers[..i + 1][i];
  }

  /** Over a batch, every token request is answered by what the bucket has after it paid the answers before. */
  lemma BatchAnswersTokens(fcs: FlowControls, instance: string, requestId: int, requests: seq<Request>, i: nat)
    requires i < |requests| && requests[i].flowControl in fcs && fcs[requests[i].flowControl].Bucket?
    ensures var answers, n := AcquireAll(fcs, instance, requestId, requests).0, requests[i].flowControl;
            && |answers| == |requests| && GrantedTo(n, answers[..i]) <= fcs[n].tokens
            && TokenAnswer(fcs[n].tokens - GrantedTo(n, answers[..i]), requests[i], answers[i])
  {
    var n := requests[i].flowControl;
    BatchPrefix(fcs, instance, requestId, requests, i);
    BatchAnswer(fcs, instance, requestId, requests, i);
    BatchPaysTheAnswers(fcs, instance, requestId, requests[..i], n);
    var mid := AcquireAll(fcs, instance, requestId, requests[..i]).1;
    TokenRequestIsAnswered(mid[n], instance, requestId, requests[i]);
  }

  /** A flow control that the store does not have is answered with an error. */
  lemma BatchMissesUnknown(fcs: FlowControls, instance: string, requestId: int, requests: seq<Request>, i: nat)
    requires i < |requests| && requests[i].flowControl !in fcs
    ensures var answers := AcquireAll(fcs, instance, requestId, requests).0;
            |answers| == |requests| && !answers[i].accept && answers[i].error != ""
  {
    BatchAnswer(fcs, instance, requestId, requests, i);
    BatchPaysTheAnswers(fcs, instance, requestId, requests[..i], "");
  }
}
