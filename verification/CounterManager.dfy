/** The gateway's worker that asks the limit server for all flow controls at once and spreads the answers. */
module CounterManager {
  import opened Wrappers
  import opened Numbers
  import opened TokenStock
  import MapSums
  import MaxInflight
  import AcquireServer

  type Request = AcquireServer.Request

  type Answer = AcquireServer.Answer

  /** A flow control counts tokens, with the requests that are still open, or requests in flight. */
  datatype Counter = Tokens(account: Account) | Inflight(state: MaxInflight.State)

  type Counters = map<string, Counter>

  /** What the meter of a flow control shows, and its local limits. */
  datatype Gauge = Gauge(rate: real, localQPS: int, inflight: int, maxInflight: int, localMax: int)

  function FallbackQPS(g: Gauge): int {
    Trunc(if g.rate < g.localQPS as real then g.localQPS as real else g.rate)
  }

  function FallbackMax(g: Gauge): int { if g.maxInflight < g.localMax then g.localMax else g.maxInflight }

  // ---------- asking ----------

  /** What a batch asks for. */
  function Asked(c: Counter, g: Gauge, now: int): int {
    match c
    case Tokens(a) => ExpectToken(a.s, g.rate, now)
    case Inflight(s) => MaxInflight.Wanted(s, g.inflight)
  }

  /** Tokens are asked for if some are wanted, and always after too long a silence; requests in flight always. */
  predicate Asks(c: Counter, silent: bool, g: Gauge, now: int) { c.Inflight? || Asked(c, g, now) > 0 || silent }

  predicate Unused(c: Counter, id: nat) { c.Tokens? ==> id !in c.account.open }

  /** What a batch does to one flow control: tokens that are asked for are booked. */
  function AfterAsking(c: Counter, id: nat, silent: bool, g: Gauge, now: int): Counter
    requires Unused(c, id)
  {
    if c.Tokens? && Asks(c, silent, g, now) then Tokens(Apply(c.account, Acquire(id, g.rate, now))) else c
  }

  method AskOne(c: Counter, id: nat, silent: bool, g: Gauge, now: int) returns (c': Counter, asked: Option<int>)
    requires Unused(c, id)
    ensures c' == AfterAsking(c, id, silent, g, now)
    ensures asked == if Asks(c, silent, g, now) then Some(Asked(c, g, now)) else None
  {
    match c
    case Tokens(a) =>
      var hits := ExpectToken(a.s, g.rate, now);
      if hits <= 0 && !silent {
        return c, None;
      }
      return Tokens(a.(s := a.s.(inflight := a.s.inflight + hits), open := a.open[id := hits])), Some(hits);
    case Inflight(s) =>
      return c, Some(MaxInflight.Wanted(s, g.inflight));
  }

  /** A batch asks a token counter exactly when it was silent too long or there is room for a batch, or for less
      and the last answer is not recent; it asks an in-flight counter for its wish over what is in flight now. */
  lemma AsksIff(c: Counter, silent: bool, g: Gauge, now: int)
    requires c.Tokens? ==> c.account.s.batch >= 1 && c.account.s.reserve >= 0
    ensures c.Tokens? ==>
              var s := c.account.s;
              && (Asks(c, silent, g, now) <==>
                  silent || (Room(s) > 0 && (Room(s) >= s.batch || now - s.lastAcquireTime >= BATCH_MAX_DURATION)))
              && Asked(c, g, now) <= Room(s)
    ensures c.Inflight? ==>
              Asks(c, silent, g, now) && Asked(c, g, now) == MaxInflight.Wanted(c.state, g.inflight)
  {
    if c.Tokens? {
      ExpectTokenIs(c.account.s, g.rate, now);
      ExpectTokenFitsRoom(c.account.s, g.rate, now);
    }
  }

  /** The token accounts are in order. */
  ghost predicate InOrder(counters: Counters) {
    forall n :: n in counters && counters[n].Tokens? ==> Inv(counters[n].account)
  }

  lemma AskingKeepsOrder(c: Counter, id: nat, silent: bool, g: Gauge, now: int)
    requires Unused(c, id) && (c.Tokens? ==> Inv(c.account))
    ensures var c' := AfterAsking(c, id, silent, g, now); c'.Tokens? ==> Inv(c'.account)
  {
    if c.Tokens? && Asks(c, silent, g, now) {
      StepKeepsInv(c.account, Acquire(id, g.rate, now));
    }
  }

  // ---------- answers ----------

  function ResultOf(a: Answer): AcquireResult { MaxInflight.AcquireResult(a.accept, a.limit, a.error) }

  /** What an answer does to one flow control; request is what the batch asked for, if it did. */
  function Receive(c: Counter, id: nat, request: Option<int>, a: Answer, time: int, g: Gauge): Counter {
    match c
    case Tokens(acc) =>
      Tokens(acc.(s := SetLimit(acc.s, Reply(request, ResultOf(a), time), FallbackQPS(g)),
                  open := if request.Some? then acc.open - {id} else acc.open))
    case Inflight(s) => Inflight(MaxInflight.SetLimit(s, MaxInflight.Reply(ResultOf(a), time), FallbackMax(g)))
  }

  /** An error that begins an outage leaves a limiter as large as the measured load and the local limit. */
  lemma ErrorBeginsOutage(c: Counter, id: nat, request: Option<int>, a: Answer, time: int, g: Gauge)
    requires a.error != "" && a.error != MaxInflight.TOO_OLD
    ensures var c' := Receive(c, id, request, a, time, g);
            && (c.Tokens? && !c.account.s.unavailable ==>
                  && c'.Tokens? && c'.account.s.unavailable && c'.account.s.tokens == c.account.s.tokens
                  && c'.account.s.limiterQPS == c'.account.s.limiterBurst >= g.localQPS
                  && (g.rate >= g.localQPS as real ==> c'.account.s.limiterQPS == Trunc(g.rate))
                  && (g.rate < g.localQPS as real ==> c'.account.s.limiterQPS == g.localQPS))
            && (c.Inflight? && !c.state.unavailable && time <= 0 ==>
                  && c'.Inflight? && c'.state.unavailable
                  && c'.state.limiterMax >= g.maxInflight && c'.state.limiterMax >= g.localMax
                  && c'.state.limiterMax in {g.maxInflight, g.localMax})
  {
  }

  /** An acceptance without error ends it and counts. */
  lemma AcceptanceCounts(c: Counter, id: nat, request: Option<int>, a: Answer, time: int, g: Gauge)
    requires a.error == "" && a.accept
    ensures var c' := Receive(c, id, request, a, time, g);
            && (c.Tokens? ==>
                  && c'.Tokens? && !c'.account.s.unavailable && c'.account.s.tokens == c.account.s.tokens + a.limit
                  && (request.Some? ==> id !in c'.account.open))
            && (c.Inflight? && time > c.state.lastAcquireTime ==>
                  && c'.Inflight? && !c'.state.unavailable
                  && c'.state.acquired == c'.state.limiterMax == MaxInflight.Clamp(c.state, a.limit))
  {
  }

  function RequestFor(batch: map<string, int>, n: string): Option<int> { if n in batch then Some(batch[n]) else None }

  /** The answers reach the flow controls they name, one after the other. */
  function Spread(counters: Counters, id: nat, batch: map<string, int>, answers: seq<Answer>, time: int,
                  gauges: map<string, Gauge>): (r: Counters)
    requires counters.Keys <= gauges.Keys
    ensures r.Keys == counters.Keys
  {
    if answers == [] then counters else
      var init := Spread(counters, id, batch, answers[..|answers| - 1], time, gauges);
      var a := answers[|answers| - 1];
      var n := a.flowControl;
      if n !in init then init
      else init[n := Receive(init[n], id, RequestFor(batch, n), a, time, gauges[n])]
  }

  /** A call that fails is answered, for every request, with the error. */
  function MadeUp(requests: seq<Request>, error: string): seq<Answer> {
    seq(|requests|, i requires 0 <= i < |requests| => AcquireServer.Answer(requests[i].flowControl, false, 0, error))
  }

  method MakeUpAnswers(requests: seq<Request>, error: string) returns (answers: seq<Answer>)
    ensures answers == MadeUp(requests, error)
  {
    answers := [];
    for i := 0 to |requests|
      invariant |answers| == i
      invariant forall j :: 0 <= j < i ==> answers[j] == MadeUp(requests, error)[j]
    {
      answers := answers + [AcquireServer.Answer(requests[i].flowControl, false, 0, error)];
    }
  }

  /** All counters of one cluster. */
  class GlobalCounterManager {
    var counters: Counters

    /**
     * Builds one request per flow control that is to be asked for. due lists, in any order, the flow controls
     * with an event and those that were silent too long.
     */
    method AcquireRequest(id: nat, due: seq<string>, silent: set<string>, gauges: map<string, Gauge>, now: int)
      returns (requests: seq<Request>, batch: map<string, int>)
      requires counters.Keys <= gauges.Keys
      requires forall n :: n in counters ==> Unused(counters[n], id)
      requires forall i :: 0 <= i < |due| ==> due[i] in counters
      requires forall i, j :: 0 <= i < j < |due| ==> due[i] != due[j]
      modifies this
      ensures counters.Keys == old(counters).Keys && Matches(requests, batch)
      ensures forall n :: n in batch <==> n in due && Asks(old(counters)[n], n in silent, gauges[n], now)
      ensures forall n :: n in batch ==> batch[n] == Asked(old(counters)[n], gauges[n], now)
      ensures forall n :: n in counters ==>
                counters[n] == if n in due then AfterAsking(old(counters)[n], id, n in silent, gauges[n], now)
                               else old(counters)[n]
      ensures old(InOrder(counters)) ==> InOrder(counters)
    {
      requests, batch := [], map[];
      for i := 0 to |due|
        invariant counters.Keys == old(counters).Keys && Matches(requests, batch)
        invariant forall n :: n in batch <==> n in due[..i] && Asks(old(counters)[n], n in silent, gauges[n], now)
        invariant forall n :: n in batch ==> batch[n] == Asked(old(counters)[n], gauges[n], now)
        invariant forall n :: n in counters ==>
                    counters[n] == if n in due[..i] then AfterAsking(old(counters)[n], id, n in silent, gauges[n], now)
                                   else old(counters)[n]
      {
        var n := due[i];
        assert n !in due[..i] && due[..i + 1] == due[..i] + [n];
        var c, asked := AskOne(counters[n], id, n in silent, gauges[n], now);
        counters := counters[n := c];
        if asked.Some? {
          MatchesSnoc(requests, batch, n, asked.value);
          requests := requests + [AcquireServer.Request(n, asked.value)];
          batch := batch[n := asked.value];
        }
      }
      assert due[..|due|] == due;
      if old(InOrder(counters)) {
        forall n | n in counters && counters[n].Tokens? ensures Inv(counters[n].account) {
          if n in due { AskingKeepsOrder(old(counters)[n], id, n in silent, gauges[n], now); }
        }
      }
    }

    /** The answers, from the server or made up, reach the counters. */
    method HandleReply(id: nat, requests: seq<Request>, batch: map<string, int>, reply: Result<seq<Answer>, string>,
                       time: int, gauges: map<string, Gauge>)
      requires counters.Keys <= gauges.Keys
      modifies this
      ensures counters == Spread(old(counters), id, batch,
                                 if reply.Success? then reply.value else MadeUp(requests, reply.error), time, gauges)
    {
      var answers;
      if reply.Success? {
        answers := reply.value;
      } else {
        answers := MakeUpAnswers(requests, reply.error);
      }
      for i := 0 to |answers|
        invariant counters == Spread(old(counters), id, batch, answers[..i], time, gauges)
      {
        assert answers[..i + 1][..i] == answers[..i];
        var n := answers[i].flowControl;
        if n in counters {
          var request := if n in batch then Some(batch[n]) else None;
          counters := counters[n := Receive(counters[n], id, request, answers[i], time, gauges[n])];
        }
      }
      assert answers[..|answers|] == answers;
    }
  }

  /** The requests name every flow control of the batch once, with what is asked for. */
  predicate Matches(requests: seq<Request>, batch: map<string, int>) {
    && (forall i, j :: 0 <= i < j < |requests| ==> requests[i].flowControl != requests[j].flowControl)
    && (forall i :: 0 <= i < |requests| ==>
          requests[i].flowControl in batch && batch[requests[i].flowControl] == requests[i].tokens)
    && forall n :: n in batch ==> Named(requests, n)
  }

  predicate Named(requests: seq<Request>, n: string) {
    exists i :: 0 <= i < |requests| && requests[i].flowControl == n
  }

  lemma MatchesSnoc(requests: seq<Request>, batch: map<string, int>, n: string, tokens: int)
    requires Matches(requests, batch) && n !in batch
    ensures Matches(requests + [AcquireServer.Request(n, tokens)], batch[n := tokens])
  {
    var requests' := requests + [AcquireServer.Request(n, tokens)];
    forall m | m in batch[n := tokens] ensures Named(requests', m) {
      if m == n {
        assert requests'[|requests|].flowControl == n;
      } else {
        var i :| 0 <= i < |requests| && requests[i].flowControl == m;
        assert requests'[i].flowControl == m;
      }
    }
  }

  // ---------- what answers do to the accounts ----------

  /** The batch's tokens are booked under its id. */
  predicate Booked(counters: Counters, id: nat, batch: map<string, int>) {
    forall n :: n in batch && n in counters && counters[n].Tokens? ==>
      id in counters[n].account.open && counters[n].account.open[id] == batch[n]
  }

  /** Every answer is to a request of the batch, no two to the same one, and grants no more than was asked for. */
  predicate Fitting(answers: seq<Answer>, batch: map<string, int>) {
    && (forall i, j :: 0 <= i < j < |answers| ==> answers[i].flowControl != answers[j].flowControl)
    && forall i :: 0 <= i < |answers| ==>
         && answers[i].flowControl in batch
         && (answers[i].accept ==> 0 <= answers[i].limit <= batch[answers[i].flowControl])
  }

  predicate Answered(answers: seq<Answer>, n: string) { exists i :: 0 <= i < |answers| && answers[i].flowControl == n }

  /** A flow control that is not named by any answer stays as it is, with its request open. */
  lemma {:induction false} UnansweredStays(counters: Counters, id: nat, batch: map<string, int>, answers: seq<Answer>,
                                           time: int, gauges: map<string, Gauge>, n: string)
    requires counters.Keys <= gauges.Keys && n in counters && !Answered(answers, n)
    ensures Spread(counters, id, batch, answers, time, gauges)[n] == counters[n]
  {
    if answers != [] {
      var init := answers[..|answers| - 1];
      assert answers[|answers| - 1].flowControl != n;
      assert forall i :: 0 <= i < |init| ==> init[i] == answers[i];
      UnansweredStays(counters, id, batch, init, time, gauges, n);
    }
  }

  /** A flow control that is named once receives that answer, wherever it stands in the reply. */
  lemma {:induction false} AnsweredOnce(counters: Counters, id: nat, batch: map<string, int>, answers: seq<Answer>,
                                        time: int, gauges: map<string, Gauge>, i: nat)
    requires counters.Keys <= gauges.Keys && Fitting(answers, batch)
    requires i < |answers| && answers[i].flowControl in counters
    ensures var n := answers[i].flowControl;
            Spread(counters, id, batch, answers, time, gauges)[n]
            == Receive(counters[n], id, Some(batch[n]), answers[i], time, gauges[n])
  {
    var last, n := |answers| - 1, answers[i].flowControl;
    var init := answers[..last];
    if i == last {
      assert forall j :: 0 <= j < |init| ==> init[j] == answers[j];
      UnansweredStays(counters, id, batch, init, time, gauges, n);
    } else {
      AnsweredOnce(counters, id, batch, init, time, gauges, i);
    }
  }

  lemma ReceivedInOrder(c: Counter, id: nat, request: int, a: Answer, time: int, g: Gauge)
    requires c.Tokens? && Inv(c.account) && id in c.account.open && c.account.open[id] == request
    requires a.accept ==> 0 <= a.limit <= request
    ensures Inv(Receive(c, id, Some(request), a, time, g).account)
  {
    StepKeepsInv(c.account, Step.Answer(id, ResultOf(a), time, FallbackQPS(g)));
  }

  /**
   * A reply whose answers fit, in any order and with any left out, keeps all accounts in order: answered
   * requests are closed, the others stay open.
   */
  lemma FittingReplyKeepsOrder(counters: Counters, id: nat, batch: map<string, int>, answers: seq<Answer>, time: int,
                               gauges: map<string, Gauge>)
    requires counters.Keys <= gauges.Keys && InOrder(counters) && Booked(counters, id, batch) && Fitting(answers, batch)
    ensures InOrder(Spread(counters, id, batch, answers, time, gauges))
    ensures forall n :: n in batch && n in counters && counters[n].Tokens? ==>
              var c := Spread(counters, id, batch, answers, time, gauges)[n];
              c.Tokens? && (id in c.account.open <==> !Answered(answers, n))
  {
    var after := Spread(counters, id, batch, answers, time, gauges);
    forall n | n in counters
      ensures after[n].Tokens? <==> counters[n].Tokens?
      ensures after[n].Tokens? ==> Inv(after[n].account)
      ensures n in batch && after[n].Tokens? ==> (id in after[n].account.open <==> !Answered(answers, n))
    {
      if i :| 0 <= i < |answers| && answers[i].flowControl == n {
        AnsweredOnce(counters, id, batch, answers, time, gauges, i);
        if counters[n].Tokens? { ReceivedInOrder(counters[n], id, batch[n], answers[i], time, gauges[n]); }
      } else {
        UnansweredStays(counters, id, batch, answers, time, gauges, n);
      }
    }
  }

  /** The answers that are made up for a failed call fit. */
  lemma MadeUpFits(requests: seq<Request>, batch: map<string, int>, error: string)
    requires Matches(requests, batch)
    ensures Fitting(MadeUp(requests, error), batch)
  {
  }

  /** So do the answers of the limit server. */
  lemma ServerAnswersFit(requests: seq<Request>, batch: map<string, int>, fcs: AcquireServer.FlowControls,
                         instance: string, requestId: int)
    requires Matches(requests, batch)
    ensures Fitting(AcquireServer.AcquireAll(fcs, instance, requestId, requests).0, batch)
  {
    var answers := AcquireServer.AcquireAll(fcs, instance, requestId, requests).0;
    AcquireServer.BatchPaysTheAnswers(fcs, instance, requestId, requests, "");
    forall i | 0 <= i < |requests|
      ensures answers[i].flowControl == requests[i].flowControl
      ensures answers[i].accept ==> 0 <= answers[i].limit <= requests[i].tokens
    {
      AcquireServer.BatchFitsRequests(fcs, instance, requestId, requests, i);
    }
  }

  /** An answer that is repeated subtracts its request again: harmless exactly for a request of nothing. */
  lemma RepeatedAnswerIsHarmlessIff(c: Counter, id: nat, request: int, a: Answer, time: int, g: Gauge)
    requires c.Tokens? && c.account.s.inflight == MapSums.Sum(c.account.open)
    requires id in c.account.open && c.account.open[id] == request
    ensures var twice := Receive(Receive(c, id, Some(request), a, time, g), id, Some(request), a, time, g).account;
            twice.s.inflight == MapSums.Sum(twice.open) <==> request == 0
  {
    MapSums.SumRemove(c.account.open, id);
    var once := Receive(c, id, Some(request), a, time, g);
    assert once.account.open - {id} == once.account.open;
  }
}
