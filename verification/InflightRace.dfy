/**
 * Concurrent in-flight reports at the limit server, one atomic memory operation at a time. A report looks its
 * gateway's record up, and registers one for a new gateway under an exclusive lock; then, under a shared lock,
 * it swaps the record's count, adds the difference to the global count, loads the maximum, and takes both back
 * if the global count exceeded it. Forgetting a gateway looks the record up too and then, under an exclusive
 * lock, unregisters the gateway and subtracts the record's count. A resize stores the maximum at any time.
 */
module InflightRace {
  import opened Wrappers
  import opened MapSums
  import AcquireServer

  /**
   * Where a report under the lock stands: its difference is in the record only, is in the global count, which
   * was seen to be so much, or has to be taken back.
   */
  datatype Thread =
    | Swapped(rec: nat, delta: int)
    | Added(rec: nat, delta: int, seen: int)
    | UndoState(rec: nat, delta: int)
    | UndoCount(rec: nat, delta: int)

  datatype Forgetting = Forgetting(name: string, rec: nat)

  /** lookups and forgets hold the records that were found and are not used yet. */
  datatype State = State(max: int, count: int, records: map<nat, int>, instances: map<string, nat>,
                         lookups: map<nat, nat>, forgets: map<nat, Forgetting>, threads: map<nat, Thread>)

  datatype Step =
    | Lookup(t: nat, name: string, newRec: nat)
    | Drop(t: nat)                              // the request id is too old
    | Swap(t: nat, current: int)
    | Add(t: nat)
    | Compare(t: nat)                           // with the maximum of that moment
    | TakeBackState(t: nat)
    | TakeBackCount(t: nat)
    | FindForget(t: nat, name: string)
    | Forget(t: nat)
    | Resize(max: int)

  /** Records are registered under one name each; what was found exists. */
  predicate Valid(s: State) {
    && (forall n :: n in s.instances ==> s.instances[n] in s.records)
    && (forall n, m :: n in s.instances && m in s.instances && s.instances[n] == s.instances[m] ==> n == m)
    && (forall t :: t in s.lookups ==> s.lookups[t] in s.records)
    && (forall t :: t in s.forgets ==> s.forgets[t].rec in s.records)
    && (forall t :: t in s.threads ==> s.threads[t].rec in s.records)
  }

  function CountAt(records: map<nat, int>, rec: nat): int { if rec in records then records[rec] else 0 }

  predicate Enabled(s: State, step: Step) {
    match step
    case Lookup(t, name, newRec) =>
      t !in s.lookups && t !in s.threads && newRec !in s.records && (name in s.instances || s.threads == map[])
    case Drop(t) => t in s.lookups
    case Swap(t, current) => t in s.lookups && t !in s.threads && current >= 0
    case Add(t) => t in s.threads && s.threads[t].Swapped?
    case Compare(t) => t in s.threads && s.threads[t].Added?
    case TakeBackState(t) => t in s.threads && s.threads[t].UndoState?
    case TakeBackCount(t) => t in s.threads && s.threads[t].UndoCount?
    case FindForget(t, name) => t !in s.forgets && name in s.instances
    case Forget(t) => t in s.forgets && s.threads == map[]
    case Resize(_) => true
  }

  function Apply(s: State, step: Step): State
    requires Enabled(s, step)
  {
    match step
    case Lookup(t, name, newRec) =>
      if name in s.instances then s.(lookups := s.lookups[t := s.instances[name]])
      else s.(records := s.records[newRec := 0], instances := s.instances[name := newRec],
              lookups := s.lookups[t := newRec])
    case Drop(t) => s.(lookups := s.lookups - {t})
    case Swap(t, current) =>
      var rec := s.lookups[t];
      s.(records := s.records[rec := current], lookups := s.lookups - {t},
         threads := s.threads[t := Swapped(rec, current - CountAt(s.records, rec))])
    case Add(t) =>
      var th := s.threads[t];
      var count := s.count + th.delta;
      s.(count := count, threads := s.threads[t := Added(th.rec, th.delta, count)])
    case Compare(t) =>
      var th := s.threads[t];
      s.(threads := if th.seen > s.max then s.threads[t := UndoState(th.rec, th.delta)] else s.threads - {t})
    case TakeBackState(t) =>
      var th := s.threads[t];
      s.(records := s.records[th.rec := CountAt(s.records, th.rec) - th.delta],
         threads := s.threads[t := UndoCount(th.rec, th.delta)])
    case TakeBackCount(t) => s.(count := s.count - s.threads[t].delta, threads := s.threads - {t})
    case FindForget(t, name) => s.(forgets := s.forgets[t := Forgetting(name, s.instances[name])])
    case Forget(t) =>
      var f := s.forgets[t];
      s.(instances := s.instances - {f.name}, count := s.count - CountAt(s.records, f.rec), forgets := s.forgets - {t})
    case Resize(max) => s.(max := max)
  }

  lemma StepKeepsValid(s: State, step: Step)
    requires Valid(s) && Enabled(s, step)
    ensures Valid(Apply(s, step))
  {
  }

  // ---------- conservation ----------

  /** What a report has yet to move from its record to the global count. */
  function Owed(th: Thread): int {
    match th
    case Swapped(_, delta) => delta
    case Added(_, _, _) => 0
    case UndoState(_, _) => 0
    case UndoCount(_, delta) => -delta
  }

  /** What a report that is refused, or will be under the given maximum, will take back from the global count. */
  function Refused(th: Thread, max: int): int {
    match th
    case Swapped(_, _) => 0
    case Added(_, delta, seen) => if seen > max then delta else 0
    case UndoState(_, delta) => delta
    case UndoCount(_, delta) => delta
  }

  function OwedBy(threads: map<nat, Thread>): map<nat, int> { map t | t in threads :: Owed(threads[t]) }

  function RefusedBy(threads: map<nat, Thread>, max: int): map<nat, int> {
    map t | t in threads :: Refused(threads[t], max)
  }

  /** The counts of the registered gateways. */
  function CountsOf(records: map<nat, int>, instances: map<string, nat>): map<string, int> {
    map n | n in instances :: CountAt(records, instances[n])
  }

  function Counts(s: State): map<string, int> { CountsOf(s.records, s.instances) }

  /** How far the global count is from the sum over the gateways, less what reports under way still owe. */
  ghost function Drift(s: State): int { s.count + Sum(OwedBy(s.threads)) - Sum(Counts(s)) }

  predicate Registered(s: State, rec: nat) { exists n :: n in s.instances && s.instances[n] == rec }

  lemma OwedSet(threads: map<nat, Thread>, t: nat, th: Thread)
    ensures Sum(OwedBy(threads[t := th])) ==
            Sum(OwedBy(threads)) - (if t in threads then Owed(threads[t]) else 0) + Owed(th)
  {
    SumUpdate(OwedBy(threads), t, Owed(th));
    assert OwedBy(threads[t := th]) == OwedBy(threads)[t := Owed(th)];
  }

  lemma OwedEnds(threads: map<nat, Thread>, t: nat)
    requires t in threads
    ensures Sum(OwedBy(threads - {t})) == Sum(OwedBy(threads)) - Owed(threads[t])
  {
    SumRemove(OwedBy(threads), t);
    assert OwedBy(threads - {t}) == OwedBy(threads) - {t};
  }

  lemma RefusedSet(threads: map<nat, Thread>, t: nat, th: Thread, max: int)
    ensures Sum(RefusedBy(threads[t := th], max)) ==
            Sum(RefusedBy(threads, max)) - (if t in threads then Refused(threads[t], max) else 0) + Refused(th, max)
  {
    SumUpdate(RefusedBy(threads, max), t, Refused(th, max));
    assert RefusedBy(threads[t := th], max) == RefusedBy(threads, max)[t := Refused(th, max)];
  }

  lemma RefusedEnds(threads: map<nat, Thread>, t: nat, max: int)
    requires t in threads
    ensures Sum(RefusedBy(threads - {t}, max)) == Sum(RefusedBy(threads, max)) - Refused(threads[t], max)
  {
    SumRemove(RefusedBy(threads, max), t);
    assert RefusedBy(threads - {t}, max) == RefusedBy(threads, max) - {t};
  }

  lemma CountsSet(records: map<nat, int>, instances: map<string, nat>, n: string, v: int)
    requires n in instances && forall m :: m in instances && instances[m] == instances[n] ==> m == n
    ensures CountsOf(records[instances[n] := v], instances) == CountsOf(records, instances)[n := v]
  {
  }

  lemma CountsKept(records: map<nat, int>, instances: map<string, nat>, rec: nat, v: int)
    requires forall n :: n in instances ==> instances[n] != rec
    ensures CountsOf(records[rec := v], instances) == CountsOf(records, instances)
  {
  }

  /** Writing a record changes the sum over the gateways by the difference, if the record is registered. */
  lemma RecordSet(s: State, rec: nat, v: int)
    requires Valid(s)
    ensures Sum(CountsOf(s.records[rec := v], s.instances))
            == Sum(Counts(s)) + if Registered(s, rec) then v - CountAt(s.records, rec) else 0
  {
    if n :| n in s.instances && s.instances[n] == rec {
      CountsSet(s.records, s.instances, n, v);
      SumUpdate(Counts(s), n, v);
    } else {
      CountsKept(s.records, s.instances, rec, v);
    }
  }

  /**
   * What a step adds to the drift: nothing, unless a report works on a record that was forgotten after its
   * lookup, or a gateway is forgotten with a record that is not the registered one any more.
   */
  function DriftOf(s: State, step: Step): int
    requires Enabled(s, step)
  {
    match step
    case Swap(t, current) => if Registered(s, s.lookups[t]) then 0 else current - CountAt(s.records, s.lookups[t])
    case TakeBackState(t) => if Registered(s, s.threads[t].rec) then 0 else -s.threads[t].delta
    case Forget(t) =>
      var f := s.forgets[t];
      (if f.name in s.instances then CountAt(s.records, s.instances[f.name]) else 0) - CountAt(s.records, f.rec)
    case _ => 0
  }

  lemma RegisterCounts(records: map<nat, int>, instances: map<string, nat>, name: string, rec: nat, v: int)
    requires name !in instances && forall n :: n in instances ==> instances[n] != rec
    ensures Sum(CountsOf(records[rec := v], instances[name := rec])) == Sum(CountsOf(records, instances)) + v
  {
    SumUpdate(CountsOf(records, instances), name, v);
    assert CountsOf(records[rec := v], instances[name := rec]) == CountsOf(records, instances)[name := v];
  }

  lemma UnregisterCounts(records: map<nat, int>, instances: map<string, nat>, name: string)
    ensures Sum(CountsOf(records, instances - {name}))
            == Sum(CountsOf(records, instances)) - if name in instances then CountAt(records, instances[name]) else 0
  {
    if name in instances {
      SumRemove(CountsOf(records, instances), name);
      assert CountsOf(records, instances - {name}) == CountsOf(records, instances) - {name};
    } else {
      assert instances - {name} == instances;
    }
  }

  /** What a step adds to the global count and what is owed to it. */
  function MovedBy(s: State, step: Step): int
    requires Enabled(s, step)
  {
    match step
    case Swap(t, current) => current - CountAt(s.records, s.lookups[t])
    case TakeBackState(t) => -s.threads[t].delta
    case Forget(t) => -CountAt(s.records, s.forgets[t].rec)
    case _ => 0
  }

  lemma StepMoves(s: State, step: Step)
    requires Enabled(s, step)
    ensures var s' := Apply(s, step);
            s'.count + Sum(OwedBy(s'.threads)) == s.count + Sum(OwedBy(s.threads)) + MovedBy(s, step)
  {
    var s' := Apply(s, step);
    match step
    case Swap(t, current) => OwedSet(s.threads, t, s'.threads[t]);
    case Add(t) => OwedSet(s.threads, t, s'.threads[t]);
    case Compare(t) =>
      if t in s'.threads { OwedSet(s.threads, t, s'.threads[t]); } else { OwedEnds(s.threads, t); }
    case TakeBackState(t) => OwedSet(s.threads, t, s'.threads[t]);
    case TakeBackCount(t) => OwedEnds(s.threads, t);
    case _ =>
  }

  /** A gateway that is new is registered with a record of zero. */
  lemma LookupRegisters(s: State, step: Step) returns (v: int)
    requires step.Lookup? && Enabled(s, step) && step.name !in s.instances
    ensures Apply(s, step).records == s.records[step.newRec := v] && v + v == v
    ensures Apply(s, step).instances == s.instances[step.name := step.newRec]
  {
    v := 0;
  }

  lemma LookupCounts(s: State, step: Step)
    requires step.Lookup? && Valid(s) && Enabled(s, step)
    ensures Sum(Counts(Apply(s, step))) == Sum(Counts(s))
  {
    if step.name !in s.instances {
      var v := LookupRegisters(s, step);
      RegisterCounts(s.records, s.instances, step.name, step.newRec, v);
    }
  }

  lemma SwapCounts(s: State, step: Step)
    requires step.Swap? && Valid(s) && Enabled(s, step)
    ensures Sum(Counts(Apply(s, step))) == Sum(Counts(s)) + MovedBy(s, step) - DriftOf(s, step)
  {
    RecordSet(s, s.lookups[step.t], step.current);
  }

  lemma TakeBackWrites(s: State, step: Step) returns (rec: nat, v: int)
    requires step.TakeBackState? && Enabled(s, step)
    ensures Counts(Apply(s, step)) == CountsOf(s.records[rec := v], s.instances)
    ensures MovedBy(s, step) == v - CountAt(s.records, rec)
    ensures DriftOf(s, step) == if Registered(s, rec) then 0 else MovedBy(s, step)
  {
    var th := s.threads[step.t];
    rec, v := th.rec, CountAt(s.records, th.rec) - th.delta;
  }

  lemma TakeBackCounts(s: State, step: Step)
    requires step.TakeBackState? && Valid(s) && Enabled(s, step)
    ensures Sum(Counts(Apply(s, step))) == Sum(Counts(s)) + MovedBy(s, step) - DriftOf(s, step)
  {
    var rec, v := TakeBackWrites(s, step);
    RecordSet(s, rec, v);
  }

  lemma ForgetCounts(s: State, step: Step)
    requires step.Forget? && Enabled(s, step)
    ensures Sum(Counts(Apply(s, step))) == Sum(Counts(s)) + MovedBy(s, step) - DriftOf(s, step)
  {
    UnregisterCounts(s.records, s.instances, s.forgets[step.t].name);
  }

  /** Every step changes the sum over the gateways by what it moves, less what it drifts. */
  lemma StepCounts(s: State, step: Step)
    requires Valid(s) && Enabled(s, step)
    ensures Sum(Counts(Apply(s, step))) == Sum(Counts(s)) + MovedBy(s, step) - DriftOf(s, step)
  {
    match step
    case Lookup(_, _, _) => LookupCounts(s, step);
    case Swap(_, _) => SwapCounts(s, step);
    case TakeBackState(_) => TakeBackCounts(s, step);
    case Forget(_) => ForgetCounts(s, step);
    case _ => assert Counts(Apply(s, step)) == Counts(s);
  }

  /** Every step changes the drift by exactly what DriftOf says. */
  lemma StepDrifts(s: State, step: Step)
    requires Valid(s) && Enabled(s, step)
    ensures Drift(Apply(s, step)) == Drift(s) + DriftOf(s, step)
  {
    StepMoves(s, step);
    StepCounts(s, step);
  }

  ghost predicate Run(states: seq<State>, steps: seq<Step>) {
    && |states| == |steps| + 1 && Valid(states[0])
    && (forall i :: 0 <= i < |states| ==> Valid(states[i]))
    && forall i :: 0 <= i < |steps| ==> Enabled(states[i], steps[i]) && states[i + 1] == Apply(states[i], steps[i])
  }

  ghost function TotalDrift(states: seq<State>, steps: seq<Step>, k: nat): int
    requires Run(states, steps) && k <= |steps|
  {
    if k == 0 then 0 else TotalDrift(states, steps, k - 1) + DriftOf(states[k - 1], steps[k - 1])
  }

  /**
   * In every interleaving of reports and deletions, whenever no report is under way the global count is the
   * sum over the gateways exactly when the drifts of the steps cancel out.
   */
  lemma CountIsConservedIff(states: seq<State>, steps: seq<Step>, k: nat)
    requires Run(states, steps) && k <= |steps| && Drift(states[0]) == 0
    ensures Drift(states[k]) == TotalDrift(states, steps, k)
    ensures states[k].threads == map[] ==>
              (states[k].count == Sum(Counts(states[k])) <==> TotalDrift(states, steps, k) == 0)
  {
    for j := 0 to k
      invariant Drift(states[j]) == TotalDrift(states, steps, j)
    {
      StepDrifts(states[j], steps[j]);
    }
    if states[k].threads == map[] {
      assert OwedBy(states[k].threads).Keys == {};
    }
  }

  // ---------- deletions that do not overtake a lookup ----------

  /** A report swaps, and a gateway is forgotten, while the record that was looked up is still the registered one. */
  predicate Timely(s: State, step: Step)
    requires Enabled(s, step)
  {
    match step
    case Swap(t, _) => Registered(s, s.lookups[t])
    case Forget(t) => s.forgets[t].name in s.instances && s.instances[s.forgets[t].name] == s.forgets[t].rec
    case _ => true
  }

  /** The reports under the lock work on registered records. */
  predicate AllRegistered(s: State) { forall t :: t in s.threads ==> Registered(s, s.threads[t].rec) }

  lemma TimelyStep(s: State, step: Step)
    requires Valid(s) && Enabled(s, step) && AllRegistered(s) && Timely(s, step)
    ensures DriftOf(s, step) == 0 && AllRegistered(Apply(s, step))
  {
    var s' := Apply(s, step);
    forall t | t in s'.threads ensures Registered(s', s'.threads[t].rec) {
      var rec := s'.threads[t].rec;
      assert Registered(s, rec);
      var n :| n in s.instances && s.instances[n] == rec;
      assert n in s'.instances && s'.instances[n] == rec;
    }
  }

  /** The part of a report after its lookup, not interrupted before it is accepted or refused. */
  function LateReport(s: State, t: nat, current: int): State
    requires Enabled(s, Swap(t, current))
  {
    Apply(Apply(Apply(s, Swap(t, current)), Add(t)), Compare(t))
  }

  /** If no deletion falls between a lookup and its use, the count is conserved. */
  lemma TimelyCountIsConserved(states: seq<State>, steps: seq<Step>, k: nat)
    requires Run(states, steps) && k <= |steps| && Drift(states[0]) == 0 && AllRegistered(states[0])
    requires forall i :: 0 <= i < |steps| ==> Timely(states[i], steps[i])
    ensures Drift(states[k]) == 0
    ensures states[k].threads == map[] ==> states[k].count == Sum(Counts(states[k]))
  {
    for j := 0 to k
      invariant AllRegistered(states[j]) && TotalDrift(states, steps, j) == 0
    {
      TimelyStep(states[j], steps[j]);
    }
    CountIsConservedIff(states, steps, k);
  }

  /** A gateway is forgotten between the lookup and the swap of its last report: the count ends below zero for good. */
  lemma OvertakenReportLosesCount(s0: State, x: string) returns (s1: State, s2: State)
    requires s0.max >= 0 && s0.count == 3 && s0.instances == map[x := 0] && s0.records == map[0 := 3]
    requires s0.lookups == map[] && s0.forgets == map[] && s0.threads == map[]
    ensures Enabled(s0, Lookup(1, x, 1)) && Enabled(Apply(s0, Lookup(1, x, 1)), FindForget(2, x))
    ensures s1 == Apply(Apply(s0, Lookup(1, x, 1)), FindForget(2, x))
    ensures Enabled(s1, Forget(2)) && Enabled(Apply(s1, Forget(2)), Swap(1, 0))
    ensures s2 == LateReport(Apply(s1, Forget(2)), 1, 0)
    ensures s2.count == -3 && s2.instances == map[] && s2.threads == map[]
  {
    s1 := Apply(Apply(s0, Lookup(1, x, 1)), FindForget(2, x));
    assert s1.forgets == map[2 := Forgetting(x, 0)];
    var a := Apply(s1, Forget(2));
    assert a.instances == map[] && a.count == 0 && a.lookups == map[1 := 0];
    s2 := LateReport(a, 1, 0);
    assert a.threads[1 := Added(0, -3, -3)] - {1} == map[];
  }

  // ---------- the maximum ----------

  /** What will stay of the global count under the maximum. */
  ghost function Kept(s: State): int { s.count - Sum(RefusedBy(s.threads, s.max)) }

  ghost predicate Fits(s: State) { Kept(s) <= s.max }

  /**
   * The maximum is lost: by counting a report that fits although more than the maximum will stay, by forgetting
   * a gateway whose record went below zero, or by a maximum below what will stay under it.
   */
  ghost predicate Overfills(s: State, step: Step)
    requires Enabled(s, step)
  {
    match step
    case Add(t) => s.count + s.threads[t].delta <= s.max < Kept(s) + s.threads[t].delta
    case Forget(t) => Kept(s) - CountAt(s.records, s.forgets[t].rec) > s.max
    case Resize(max) => s.count - Sum(RefusedBy(s.threads, max)) > max
    case _ => false
  }

  lemma StepFitsIff(s: State, step: Step)
    requires Enabled(s, step) && Fits(s)
    ensures Fits(Apply(s, step)) <==> !Overfills(s, step)
  {
    var s' := Apply(s, step);
    match step
    case Swap(t, current) => RefusedSet(s.threads, t, s'.threads[t], s.max);
    case Add(t) => RefusedSet(s.threads, t, s'.threads[t], s.max);
    case Compare(t) =>
      if t in s'.threads { RefusedSet(s.threads, t, s'.threads[t], s.max); } else { RefusedEnds(s.threads, t, s.max); }
    case TakeBackState(t) => RefusedSet(s.threads, t, s'.threads[t], s.max);
    case TakeBackCount(t) => RefusedEnds(s.threads, t, s.max);
    case _ =>
  }

  /** An interleaving keeps the account under the maximum throughout exactly when no step overfills it. */
  lemma FitsIff(states: seq<State>, steps: seq<Step>, k: nat)
    requires Run(states, steps) && k <= |steps| && Fits(states[0])
    ensures (forall j :: 0 <= j <= k ==> Fits(states[j])) <==>
            (forall j :: 0 <= j < k ==> !Overfills(states[j], steps[j]))
  {
    forall j | 0 <= j < k && Fits(states[j]) ensures Fits(states[j + 1]) <==> !Overfills(states[j], steps[j]) {
      StepFitsIff(states[j], steps[j]);
    }
    if forall j :: 0 <= j < k ==> !Overfills(states[j], steps[j]) {
      for j := 0 to k
        invariant forall i :: 0 <= i <= j ==> Fits(states[i])
      {
        assert !Overfills(states[j], steps[j]);
      }
    }
    if forall j :: 0 <= j <= k ==> Fits(states[j]) {
      forall j | 0 <= j < k ensures !Overfills(states[j], steps[j]) {
        assert Fits(states[j]) && Fits(states[j + 1]);
      }
    }
  }

  /** Then the gateways' counts add up to no more than the maximum whenever no report is under way. */
  lemma StaysUnderMax(states: seq<State>, steps: seq<Step>, k: nat)
    requires Run(states, steps) && k <= |steps| && Drift(states[0]) == 0 && AllRegistered(states[0]) && Fits(states[0])
    requires forall i :: 0 <= i < |steps| ==> Timely(states[i], steps[i]) && !Overfills(states[i], steps[i])
    ensures states[k].threads == map[] ==> Sum(Counts(states[k])) <= states[k].max
  {
    FitsIff(states, steps, k);
    assert Fits(states[k]);
    TimelyCountIsConserved(states, steps, k);
    if states[k].threads == map[] {
      assert RefusedBy(states[k].threads, states[k].max).Keys == {};
    }
  }

  /** A report that fits overfills only while some refused report still has to take a decrease back. */
  lemma OverfillNeedsRefusedDecrease(s: State, t: nat)
    requires Enabled(s, Add(t)) && Overfills(s, Add(t))
    ensures exists u :: u in s.threads && Refused(s.threads[u], s.max) < 0
  {
    if forall u :: u in s.threads ==> Refused(s.threads[u], s.max) >= 0 {
      SumNonNegative(RefusedBy(s.threads, s.max));
      assert false;
    }
  }

  /** While no report is under way, a resize overfills exactly when it cuts the maximum below the count. */
  lemma RestingResizeOverfillsIff(s: State, max: int)
    requires s.threads == map[]
    ensures Overfills(s, Resize(max)) <==> s.count > max
  {
    assert RefusedBy(s.threads, max).Keys == {};
  }

  // ---------- a refused decrease ----------

  /** A report that is not interrupted before it is accepted or refused. */
  function Report(s: State, t: nat, name: string, newRec: nat, current: int): State
    requires Enabled(s, Lookup(t, name, newRec)) && current >= 0
  {
    LateReport(Apply(s, Lookup(t, name, newRec)), t, current)
  }

  function TakeBack(s: State, t: nat): State
    requires Enabled(s, TakeBackState(t))
  {
    Apply(Apply(s, TakeBackState(t)), TakeBackCount(t))
  }

  /** What is left of a report: the record and the count have moved, and a refused report is under way. */
  function Reported(s: State, t: nat, rec: nat, before: int, current: int): State {
    var count := s.count + current - before;
    s.(records := s.records[rec := current], count := count,
       threads := if count > s.max then s.threads[t := UndoState(rec, current - before)] else s.threads)
  }

  /** The report after its difference was added to the count. */
  lemma Counted(s: State, t: nat, rec: nat, current: int, c: State)
    requires current >= 0 && t !in s.lookups && t !in s.threads
    requires c == Apply(Apply(s.(lookups := s.lookups[t := rec]), Swap(t, current)), Add(t))
    ensures var delta := current - CountAt(s.records, rec);
            c == s.(records := s.records[rec := current], count := s.count + delta,
                    threads := s.threads[t := Added(rec, delta, s.count + delta)])
  {
    var b := Apply(s.(lookups := s.lookups[t := rec]), Swap(t, current));
    assert b.lookups == s.lookups;
    var added := Added(rec, current - CountAt(s.records, rec), s.count + current - CountAt(s.records, rec));
    assert b.threads[t := added] == s.threads[t := added];
  }

  lemma ThreadReplaced(threads: map<nat, Thread>, t: nat, th: Thread, th': Thread)
    requires t !in threads
    ensures threads[t := th][t := th'] == threads[t := th'] && threads[t := th] - {t} == threads
  {
  }

  /** After the lookup: the record is written and, unless the report is refused, nothing is under way. */
  lemma LookedUpReport(s: State, t: nat, rec: nat, current: int)
    requires current >= 0 && t !in s.lookups && t !in s.threads
    ensures LateReport(s.(lookups := s.lookups[t := rec]), t, current)
            == Reported(s, t, rec, CountAt(s.records, rec), current)
  {
    var c := Apply(Apply(s.(lookups := s.lookups[t := rec]), Swap(t, current)), Add(t));
    Counted(s, t, rec, current, c);
    ThreadReplaced(s.threads, t, c.threads[t], UndoState(rec, current - CountAt(s.records, rec)));
  }

  /** Also while other reports hold the shared lock, since the gateway is registered. */
  lemma KnownReport(s: State, t: nat, name: string, newRec: nat, current: int)
    requires name in s.instances && newRec !in s.records && current >= 0
    requires t !in s.lookups && t !in s.threads
    ensures var rec := s.instances[name];
            Report(s, t, name, newRec, current) == Reported(s, t, rec, CountAt(s.records, rec), current)
  {
    LookedUpReport(s, t, s.instances[name], current);
  }

  lemma TakenBack(s: State, t: nat)
    requires t in s.threads && s.threads[t].UndoState?
    ensures var th := s.threads[t];
            TakeBack(s, t) == s.(records := s.records[th.rec := CountAt(s.records, th.rec) - th.delta],
                                 count := s.count - th.delta, threads := s.threads - {t})
  {
    var a := Apply(s, TakeBackState(t));
    assert a.threads - {t} == s.threads - {t};
  }

  // ---------- a report that nothing interrupts ----------

  /** The records of the two models agree. */
  predicate Agrees(s: State, f: AcquireServer.Inflight) {
    s.max == f.max && s.count == f.count && Counts(s) == AcquireServer.CountsOf(f.instances)
  }

  /** A whole report, with its taking back if it is refused. */
  function Whole(s: State, t: nat, name: string, newRec: nat, current: int): State
    requires Enabled(s, Lookup(t, name, newRec)) && current >= 0
  {
    var r := Report(s, t, name, newRec, current);
    if t in r.threads && r.threads[t].UndoState? then TakeBack(r, t) else r
  }

  lemma WholeIs(s: State, t: nat, rec: nat, current: int)
    requires s.threads == map[]
    ensures var before := CountAt(s.records, rec);
            var r := Reported(s, t, rec, before, current);
            if s.count + current - before > s.max
            then t in r.threads && r.threads[t].UndoState? &&
                 TakeBack(r, t) == s.(records := s.records[rec := before])
            else r == s.(records := s.records[rec := current], count := s.count + current - before)
  {
    var before := CountAt(s.records, rec);
    var r := Reported(s, t, rec, before, current);
    if s.count + current - before > s.max {
      TakenBack(r, t);
      assert r.threads - {t} == map[];
      assert r.records[rec := before] == s.records[rec := before];
    }
  }

  /** The record is the gateway's and nobody else's. */
  predicate Owns(instances: map<string, nat>, name: string, rec: nat) {
    name in instances && instances[name] == rec && forall m :: m in instances && instances[m] == rec ==> m == name
  }

  lemma NewRecord(records: map<nat, int>, instances: map<string, nat>, name: string, rec: nat)
    requires name !in instances && forall n :: n in instances ==> instances[n] != rec
    ensures CountsOf(records[rec := 0], instances[name := rec]) == CountsOf(records, instances)[name := 0]
    ensures Owns(instances[name := rec], name, rec)
  {
  }

  lemma OldRecord(records: map<nat, int>, instances: map<string, nat>, name: string)
    requires name in instances
    ensures CountsOf(records, instances)[name := CountAt(records, instances[name])] == CountsOf(records, instances)
  {
  }

  /** What a lookup leaves: a record that is the gateway's, and the counts with a count for it. */
  lemma LookupIs(s: State, t: nat, name: string, newRec: nat, before: int) returns (s': State, rec: nat)
    requires Valid(s) && s.threads == map[] && Enabled(s, Lookup(t, name, newRec))
    requires before == if name in s.instances then CountAt(s.records, s.instances[name]) else 0
    ensures Apply(s, Lookup(t, name, newRec)) == s'.(lookups := s'.lookups[t := rec])
    ensures s' == s.(records := s'.records, instances := s'.instances)
    ensures Owns(s'.instances, name, rec) && CountAt(s'.records, rec) == before
    ensures CountsOf(s'.records, s'.instances) == CountsOf(s.records, s.instances)[name := before]
  {
    if name in s.instances {
      s', rec := s, s.instances[name];
      OldRecord(s.records, s.instances, name);
    } else {
      s', rec := s.(records := s.records[newRec := 0], instances := s.instances[name := newRec]), newRec;
      NewRecord(s.records, s.instances, name, newRec);
    }
  }

  /** What a report that nothing interrupts leaves of the count and the records. */
  lemma WholeIsRecord(s: State, t: nat, name: string, newRec: nat, current: int, before: int)
    returns (s': State, rec: nat)
    requires Valid(s) && s.threads == map[] && Enabled(s, Lookup(t, name, newRec)) && current >= 0
    requires before == if name in s.instances then CountAt(s.records, s.instances[name]) else 0
    ensures var fits := s.count + current - before <= s.max;
            Whole(s, t, name, newRec, current)
            == s'.(records := s'.records[rec := if fits then current else before],
                   count := if fits then s.count + current - before else s.count)
    ensures s' == s.(records := s'.records, instances := s'.instances)
    ensures Owns(s'.instances, name, rec)
    ensures CountsOf(s'.records, s'.instances) == CountsOf(s.records, s.instances)[name := before]
  {
    s', rec := LookupIs(s, t, name, newRec, before);
    LookedUpReport(s', t, rec, current);
    WholeIs(s', t, rec, current);
  }

  lemma CountsAfter(records: map<nat, int>, instances: map<string, nat>, name: string, rec: nat, v: int, before: int,
                    counts: map<string, int>)
    requires Owns(instances, name, rec) && CountsOf(records, instances) == counts[name := before]
    ensures CountsOf(records[rec := v], instances) == counts[name := v]
  {
    CountsSet(records, instances, name, v);
    assert counts[name := before][name := v] == counts[name := v];
  }

  /** And of the gateways' counts. */
  lemma WholeCounts(s: State, t: nat, name: string, newRec: nat, current: int, before: int, v: int)
    requires Valid(s) && s.threads == map[] && Enabled(s, Lookup(t, name, newRec)) && current >= 0
    requires before == if name in s.instances then CountAt(s.records, s.instances[name]) else 0
    requires v == if s.count + current - before <= s.max then current else before
    ensures var w := Whole(s, t, name, newRec, current);
            w.max == s.max && w.count == s.count + v - before && Counts(w) == Counts(s)[name := v]
  {
    var s', rec := WholeIsRecord(s, t, name, newRec, current, before);
    CountsAfter(s'.records, s'.instances, name, rec, v, before, CountsOf(s.records, s.instances));
    var w := Whole(s, t, name, newRec, current);
    assert w.records == s'.records[rec := v] && w.instances == s'.instances;
  }

  lemma SetStateCounts(f: AcquireServer.Inflight, name: string, requestId: int, current: int, before: int, v: int)
    requires current >= 0 && AcquireServer.Fresh(f, name, requestId)
    requires before == AcquireServer.InstanceOf(f, name).count
    requires v == if f.count + current - before <= f.max then current else before
    ensures var f' := AcquireServer.SetState(f, name, requestId, current).1;
            && f'.max == f.max && f'.count == f.count + v - before
            && AcquireServer.CountsOf(f'.instances) == AcquireServer.CountsOf(f.instances)[name := v]
  {
  }

  /** A report that nothing interrupts has the effect it has without concurrency. */
  lemma WholeIsSetState(s: State, f: AcquireServer.Inflight, t: nat, name: string, newRec: nat, requestId: int,
                        current: int)
    requires Valid(s) && s.threads == map[] && Enabled(s, Lookup(t, name, newRec)) && current >= 0
    requires Agrees(s, f) && AcquireServer.Fresh(f, name, requestId)
    ensures Agrees(Whole(s, t, name, newRec, current), AcquireServer.SetState(f, name, requestId, current).1)
  {
    var before := AcquireServer.InstanceOf(f, name).count;
    var v := if f.count + current - before <= f.max then current else before;
    assert name in s.instances <==> name in Counts(s);
    assert name in f.instances <==> name in AcquireServer.CountsOf(f.instances);
    WholeCounts(s, t, name, newRec, current, before, v);
    SetStateCounts(f, name, requestId, current, before, v);
  }

  /** x has 10 requests in flight, which is the maximum, and y and z have none. */
  predicate Full(s: State, x: string, y: string, z: string) {
    && x != y && x != z && y != z && s.max == s.count == 10 && s.lookups == map[] && s.threads == map[]
    && s.instances == map[x := 0, y := 1, z := 2] && s.records == map[0 := 10, 1 := 0, 2 := 0]
  }

  /** Two reports are refused together: y's increase to 10, and x's decrease to 7. */
  lemma RefusedTogether(s0: State, x: string, y: string, z: string) returns (s1: State)
    requires Full(s0, x, y, z)
    ensures Enabled(s0, Lookup(1, y, 3)) && Enabled(Report(s0, 1, y, 3, 10), Lookup(2, x, 3))
    ensures s1 == Report(Report(s0, 1, y, 3, 10), 2, x, 3, 7)
    ensures s1.max == 10 && s1.count == 17 && s1.lookups == map[] && s1.instances == s0.instances
    ensures s1.threads == map[1 := UndoState(1, 10), 2 := UndoState(0, -3)]
    ensures s1.records == map[0 := 7, 1 := 10, 2 := 0]
  {
    KnownReport(s0, 1, y, 3, 10);
    var a := Report(s0, 1, y, 3, 10);
    KnownReport(a, 2, x, 3, 7);
    s1 := Report(a, 2, x, 3, 7);
  }

  lemma RoomIsUsed(s1: State, z: string) returns (s2: State)
    requires s1.max == 10 && s1.count == 17 && s1.lookups == map[] && z in s1.instances && s1.instances[z] == 2
    requires s1.threads == map[1 := UndoState(1, 10), 2 := UndoState(0, -3)]
    requires s1.records == map[0 := 7, 1 := 10, 2 := 0]
    ensures Enabled(s1, TakeBackState(1)) && Enabled(TakeBack(s1, 1), Lookup(3, z, 3))
    ensures s2 == Report(TakeBack(s1, 1), 3, z, 3, 3)
    ensures s2.max == 10 && s2.count == 10 && s2.lookups == map[] && s2.threads == map[2 := UndoState(0, -3)]
  {
    TakenBack(s1, 1);
    var b := TakeBack(s1, 1);
    assert b.threads == map[2 := UndoState(0, -3)];
    KnownReport(b, 3, z, 3, 3);
    s2 := Report(b, 3, z, 3, 3);
  }

  /**
   * A decrease is refused because of somebody else's refused increase, and taken back after a third gateway
   * used the room: 13 are in flight at rest under a maximum of 10.
   */
  lemma RefusedDecreaseExceedsMax(s0: State, x: string, y: string, z: string) returns (s1: State, s2: State, s3: State)
    requires Full(s0, x, y, z)
    ensures Enabled(s0, Lookup(1, y, 3)) && Enabled(Report(s0, 1, y, 3, 10), Lookup(2, x, 3))
    ensures s1 == Report(Report(s0, 1, y, 3, 10), 2, x, 3, 7)
    ensures Enabled(s1, TakeBackState(1)) && Enabled(TakeBack(s1, 1), Lookup(3, z, 3))
    ensures Enabled(Report(TakeBack(s1, 1), 3, z, 3, 3), TakeBackState(2))
    ensures s2 == Report(TakeBack(s1, 1), 3, z, 3, 3) && s3 == TakeBack(s2, 2)
    ensures s3.count == 13 && s3.max == 10 && s3.threads == map[] && s3.lookups == map[]
  {
    s1 := RefusedTogether(s0, x, y, z);
    s2 := RoomIsUsed(s1, z);
    TakenBack(s2, 2);
    s3 := TakeBack(s2, 2);
  }
}
