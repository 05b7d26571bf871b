/**
 * Concurrent reports at the limit server. A report gets a reference to the upstream's entry before it takes
 * the upstream's lock, and reads and writes the entry through it under the lock. Clients are deleted without
 * the lock. A store saves the entry itself, or a copy of it.
 */
module QuotaRaces {
  import opened Wrappers
  import opened Allocation
  import opened Aggregation
  import opened QuotaServer
  import opened QuotaSafety

  /**
   * The store, the references that reports hold (tasks), and the reference under which the lock is held once
   * the client's items are stored. writes counts the times the entry was written; stamps says for every
   * object how many writes there had been when it was last written.
   */
  datatype Server = Server(clients: Store, objects: map<nat, Condition>, state: nat, tasks: map<nat, nat>,
                           lock: Option<nat>, stamps: map<nat, nat>, writes: nat)
  {
    predicate Valid(stateName: string) {
      && stateName !in clients && state in objects
      && (forall t :: t in tasks ==> tasks[t] in objects)
      && (lock.Some? ==> lock.value in objects)
      && stamps.Keys == objects.Keys
      && (forall ref :: ref in stamps ==> stamps[ref] <= writes)
    }

    function View(stateName: string): Store
      requires state in objects
    {
      clients[stateName := objects[state]]
    }

    /** The entry is written through ref and saved; newRef is where a copying store keeps its copy. */
    function Written(ref: nat, entry: Condition, newRef: nat, copying: bool): Server {
      var s := this.(objects := objects[ref := entry], stamps := stamps[ref := writes + 1], writes := writes + 1,
                     lock := None, state := ref);
      if copying
      then s.(objects := s.objects[newRef := entry], stamps := s.stamps[newRef := writes + 1], state := newRef)
      else s
    }
  }

  datatype Step =
    | Get(t: nat)                                     // a report gets the reference
    | Begin(t: nat, c: Condition, clients: nat)       // it takes the lock, reads the entry and stores its items
    | Finish(newRef: nat)                             // it records the totals and releases the lock
    | Crash                                           // or fails to record them
    | CleanUp(name: string)
    | Sync(schemas: seq<Schema>, newRef: nat)

  ghost predicate Next(s: Server, stateName: string, copying: bool, step: Step, s': Server)
    requires s.Valid(stateName)
  {
    match step
    case Get(t) => t !in s.tasks && s' == s.(tasks := s.tasks[t := s.state])
    case Begin(t, c, clients) =>
      && t in s.tasks && s.lock.None? && c.name != stateName
      && var state := s.objects[s.tasks[t]];
      && AllComputable(c.items, InputsOf(state, c, clients))
      && if UpdateItems(c.items, InputsOf(state, c, clients)).Failure? then s' == s.(tasks := s.tasks - {t})
         else
           && SavedFrom(state, s.clients, stateName, c, clients, s'.clients)
           && s' == s.(clients := s'.clients, lock := Some(s.tasks[t]), tasks := s.tasks - {t})
    case Finish(newRef) =>
      && s.lock.Some? && newRef !in s.objects
      && var entry := s.objects[s.lock.value];
      && AllKindsKnown(s.clients, ConfigMap(entry.items))
      && exists statuses ::
           && Aggregates(statuses, s.clients, ConfigMap(entry.items))
           && s' == s.Written(s.lock.value, entry.(statuses := statuses), newRef, copying)
    case Crash =>
      && s.lock.Some? && s' == s.(lock := None)
      && !AllKindsKnown(s.clients, ConfigMap(s.objects[s.lock.value].items))
    case CleanUp(name) =>
      s' == s.(clients := if name in s.clients && s.clients[name].instance != "" then s.clients - {name} else s.clients)
    case Sync(schemas, newRef) =>
      && s.lock.None? && newRef !in s.objects
      && exists entry ::
           && Synced(s.View(stateName), stateName, schemas, s.View(stateName)[stateName := entry])
           && s' == s.Written(s.state, entry, newRef, copying)
  }

  predicate Writes(step: Step) { step.Finish? || step.Sync? }

  /** Steps that write the entry do it through one reference. */
  lemma WriteStep(s: Server, stateName: string, copying: bool, step: Step, s': Server)
    returns (ref: nat, entry: Condition)
    requires s.Valid(stateName) && Next(s, stateName, copying, step, s') && Writes(step)
    ensures ref in s.objects && step.newRef !in s.objects && s' == s.Written(ref, entry, step.newRef, copying)
    ensures if step.Finish? then s.lock == Some(ref) else s.state == ref
  {
    match step
    case Finish(newRef) =>
      ref := s.lock.value;
      var before := s.objects[ref];
      var statuses :| s' == s.Written(ref, before.(statuses := statuses), newRef, copying);
      entry := before.(statuses := statuses);
    case Sync(schemas, newRef) =>
      ref := s.state;
      entry :| s' == s.Written(ref, entry, newRef, copying);
  }

  /** The other steps leave the objects alone. */
  lemma OtherStep(s: Server, stateName: string, copying: bool, step: Step, s': Server)
    requires s.Valid(stateName) && Next(s, stateName, copying, step, s') && !Writes(step)
    ensures s'.objects == s.objects && s'.state == s.state && s'.stamps == s.stamps && s'.writes == s.writes
    ensures s'.Valid(stateName)
  {
  }

  lemma WrittenIsValid(s: Server, stateName: string, ref: nat, entry: Condition, newRef: nat, copying: bool)
    requires s.Valid(stateName) && ref in s.objects
    ensures s.Written(ref, entry, newRef, copying).Valid(stateName)
  {
  }

  lemma NextIsValid(s: Server, stateName: string, copying: bool, step: Step, s': Server)
    requires s.Valid(stateName) && Next(s, stateName, copying, step, s')
    ensures s'.Valid(stateName)
  {
    if Writes(step) {
      var ref, entry := WriteStep(s, stateName, copying, step, s');
      WrittenIsValid(s, stateName, ref, entry, step.newRef, copying);
    } else {
      OtherStep(s, stateName, copying, step, s');
    }
  }

  ghost predicate Run(states: seq<Server>, steps: seq<Step>, stateName: string, copying: bool) {
    && |states| == |steps| + 1
    && (forall i :: 0 <= i < |states| ==> states[i].Valid(stateName))
    && forall i :: 0 <= i < |steps| ==> Next(states[i], stateName, copying, steps[i], states[i + 1])
  }

  /** After a write the store hands out the object that was written exactly if it does not copy. */
  lemma HandsOutWrittenIff(s: Server, stateName: string, copying: bool, step: Step, s': Server)
    requires s.Valid(stateName) && Next(s, stateName, copying, step, s') && Writes(step)
    ensures step.Finish? ==> s.lock.Some?
    ensures s'.state == (if step.Finish? then s.lock.value else s.state) <==> !copying
    ensures s'.state in s'.objects && (copying ==> s'.state !in s.objects)
  {
    var ref, entry := WriteStep(s, stateName, copying, step, s');
  }

  lemma SavedInView(state: Condition, clients: Store, stateName: string, c: Condition, count: nat, clients': Store,
                    entry: Condition)
    requires SavedFrom(state, clients, stateName, c, count, clients')
    ensures SavedFrom(state, clients[stateName := entry], stateName, c, count, clients'[stateName := entry])
  {
    var items := UpdateItems(c.items, InputsOf(state, c, count)).value;
    assert clients[c.name := c.(items := items)][stateName := entry]
           == clients[stateName := entry][c.name := c.(items := items)];
  }

  lemma RecordedInView(clients: Store, stateName: string, entry: Condition, statuses: seq<ItemStatus>, view: Store)
    requires stateName !in clients && Aggregates(statuses, clients, ConfigMap(entry.items))
    requires view == clients[stateName := entry.(statuses := statuses)]
    ensures RecordedFrom(entry, clients[stateName := entry], stateName, view)
  {
    assert clients[stateName := entry] - {stateName} == clients;
    assert view == clients[stateName := entry][stateName := entry.(statuses := statuses)];
  }

  lemma FinishIsRecorded(m: Server, stateName: string, copying: bool, newRef: nat, s': Server)
    requires m.Valid(stateName) && Next(m, stateName, copying, Finish(newRef), s')
    ensures m.lock.Some? && s'.state in s'.objects
    ensures RecordedFrom(m.objects[m.lock.value], m.clients[stateName := m.objects[m.lock.value]], stateName,
                         s'.View(stateName))
  {
    var entry := m.objects[m.lock.value];
    var statuses :| Aggregates(statuses, m.clients, ConfigMap(entry.items))
                    && s' == m.Written(m.lock.value, entry.(statuses := statuses), newRef, copying);
    RecordedInView(m.clients, stateName, entry, statuses, s'.View(stateName));
  }

  /** A report that nothing interrupts, through an object that holds what the store holds, is one step of the server. */
  lemma UninterruptedIsUpdate(s: Server, stateName: string, copying: bool, t: nat, c: Condition, clients: nat,
                              m: Server, newRef: nat, s': Server)
    requires s.Valid(stateName) && t in s.tasks && s.objects[s.tasks[t]] == s.objects[s.state]
    requires Next(s, stateName, copying, Begin(t, c, clients), m) && m.lock.Some? && m.Valid(stateName)
    requires Next(m, stateName, copying, Finish(newRef), s')
    ensures s'.state in s'.objects && Updated(s.View(stateName), stateName, c, clients, s'.View(stateName))
  {
    var entry := s.objects[s.state];
    SavedInView(entry, s.clients, stateName, c, clients, m.clients, entry);
    FinishIsRecorded(m, stateName, copying, newRef, s');
  }

  // ---------- references that are up to date ----------

  /** The object was written by the last write. */
  predicate UpToDate(s: Server, ref: nat) { ref in s.stamps && s.stamps[ref] == s.writes }

  /** Objects that are up to date hold what the store holds. */
  ghost predicate StampInv(s: Server)
    requires s.state in s.objects
  {
    UpToDate(s, s.state) && forall ref :: ref in s.objects && UpToDate(s, ref) ==> s.objects[ref] == s.objects[s.state]
  }

  lemma StepKeepsStamps(s: Server, stateName: string, copying: bool, step: Step, s': Server)
    requires s.Valid(stateName) && StampInv(s) && Next(s, stateName, copying, step, s')
    ensures s'.Valid(stateName) && StampInv(s')
  {
    NextIsValid(s, stateName, copying, step, s');
    if Writes(step) {
      var ref, entry := WriteStep(s, stateName, copying, step, s');
      WrittenStamps(s, stateName, ref, entry, step.newRef, copying);
    } else {
      OtherStep(s, stateName, copying, step, s');
    }
  }

  lemma WrittenStamps(s: Server, stateName: string, ref: nat, entry: Condition, newRef: nat, copying: bool)
    requires s.Valid(stateName) && ref in s.objects
    ensures var s' := s.Written(ref, entry, newRef, copying);
            s'.state in s'.objects && StampInv(s')
  {
  }

  /** The reference of the last write between two points of a run. */
  function LastWrite(states: seq<Server>, steps: seq<Step>, a: nat, b: nat): Option<nat>
    requires b <= |steps| == |states| - 1
    decreases b
  {
    if b <= a then None
    else match steps[b - 1]
      case Finish(_) => states[b - 1].lock
      case Sync(_, _) => Some(states[b - 1].state)
      case _ => LastWrite(states, steps, a, b - 1)
  }

  /** A write leaves the reference it goes through up to date, and no other one that was handed out. */
  predicate TracksWrites(s: Server, step: Step, s': Server, ref: nat) {
    && (step.Finish? ==> s.lock.Some?)
    && (UpToDate(s', ref) <==>
        match step
        case Finish(_) => s.lock == Some(ref)
        case Sync(_, _) => s.state == ref
        case _ => UpToDate(s, ref))
  }

  lemma StepTracksWrites(s: Server, stateName: string, copying: bool, step: Step, s': Server, ref: nat)
    requires s.Valid(stateName) && Next(s, stateName, copying, step, s') && ref in s.objects
    ensures ref in s'.objects && TracksWrites(s, step, s', ref)
  {
    if Writes(step) {
      var r, entry := WriteStep(s, stateName, copying, step, s');
    } else {
      OtherStep(s, stateName, copying, step, s');
    }
  }

  lemma {:induction false} LastWriteDecides(states: seq<Server>, steps: seq<Step>, a: nat, b: nat, ref: nat)
    requires a <= b <= |steps| == |states| - 1 && UpToDate(states[a], ref)
    requires forall j :: a <= j < b ==> TracksWrites(states[j], steps[j], states[j + 1], ref)
    ensures UpToDate(states[b], ref) <==>
            var last := LastWrite(states, steps, a, b); last.None? || last == Some(ref)
    decreases b
  {
    if b > a {
      LastWriteDecides(states, steps, a, b - 1, ref);
      assert TracksWrites(states[b - 1], steps[b - 1], states[b - 1 + 1], ref);
    }
  }

  /**
   * A reference that was up to date at a is so at b exactly when nothing was written in between or the last
   * write in between went through it.
   */
  lemma UpToDateIff(states: seq<Server>, steps: seq<Step>, stateName: string, copying: bool, a: nat, b: nat, ref: nat)
    requires Run(states, steps, stateName, copying) && a <= b <= |steps|
    requires ref in states[a].objects && UpToDate(states[a], ref)
    ensures UpToDate(states[b], ref) <==>
            var last := LastWrite(states, steps, a, b); last.None? || last == Some(ref)
  {
    for j := a to b
      invariant ref in states[j].objects
      invariant forall i :: a <= i < j ==> TracksWrites(states[i], steps[i], states[i + 1], ref)
    {
      StepTracksWrites(states[j], stateName, copying, steps[j], states[j + 1], ref);
    }
    LastWriteDecides(states, steps, a, b, ref);
  }

  /** In a store that saves the entry itself, everybody holds the reference that the store holds. */
  predicate Shared(s: Server) {
    && (forall t :: t in s.tasks ==> s.tasks[t] == s.state)
    && (s.lock.Some? ==> s.lock.value == s.state)
  }

  lemma StepKeepsShared(s: Server, stateName: string, step: Step, s': Server)
    requires s.Valid(stateName) && Shared(s) && Next(s, stateName, false, step, s')
    ensures Shared(s')
  {
  }

  // ---------- safety ----------

  /** The object limits n like the entry in the store. */
  predicate SameLimit(s: Server, ref: nat, n: string) {
    && s.state in s.objects && ref in s.objects
    && TypeIn(s.objects[ref], n) == TypeIn(s.objects[s.state], n)
    && TotalIn(s.objects[ref], n) == TotalIn(s.objects[s.state], n)
  }

  /** A report may be computed from the object: it records at least what is stored now, and at most its total. */
  ghost predicate Suits(s: Server, stateName: string, ref: nat, n: string) {
    && SameLimit(s, ref, n)
    && var entry := s.objects[ref];
    && StoredSum(s.clients, stateName, n, TypeIn(entry, n)) <= RecordedIn(entry, n, TypeIn(entry, n))
    && RecordedIn(entry, n, TypeIn(entry, n)) <= TotalIn(entry, n)
  }

  /** While the lock is held only the sum is known to fit; otherwise the invariant of the sequential server holds. */
  ghost predicate Safe(s: Server, stateName: string, n: string)
    requires s.Valid(stateName)
  {
    var view := s.View(stateName);
    if s.lock.None? then Inv(view, stateName, n)
    else
      && SameLimit(s, s.lock.value, n)
      && TypeFor(view, stateName, n) != Unknown
      && StoredSum(view, stateName, n, TypeFor(view, stateName, n)) <= Total(view, stateName, n)
      && forall k :: k in s.clients ==> Held(s.clients[k], n, TypeFor(view, stateName, n)) >= 0
  }

  /** Honest reports, no crash, and no schema update below what is recorded. */
  ghost predicate Fair(s: Server, stateName: string, n: string, step: Step, s': Server)
    requires s.Valid(stateName) && s'.Valid(stateName)
  {
    var view, view' := s.View(stateName), s'.View(stateName);
    match step
    case Begin(_, c, _) => Honest(view, stateName, c, n)
    case Crash => false
    case Sync(_, _) =>
      && TypeFor(view', stateName, n) == TypeFor(view, stateName, n)
      && Recorded(view, stateName, n, TypeFor(view, stateName, n)) <= Total(view', stateName, n)
    case _ => true
  }

  lemma ViewSum(clients: Store, stateName: string, entry: Condition, n: string, typ: FlowControlType)
    requires stateName !in clients
    ensures StoredSum(clients[stateName := entry], stateName, n, typ) == StoredSum(clients, stateName, n, typ)
  {
    assert clients[stateName := entry] - {stateName} == clients - {stateName};
  }

  lemma BeginIsSafe(s: Server, stateName: string, ref: nat, c: Condition, count: nat, s': Server, n: string)
    requires s.Valid(stateName) && s'.Valid(stateName) && Safe(s, stateName, n) && s.lock.None?
    requires Suits(s, stateName, ref, n)
    requires SavedFrom(s.objects[ref], s.clients, stateName, c, count, s'.clients)
    requires s'.lock == Some(ref) && s'.state == s.state && s'.objects == s.objects
    requires Honest(s.View(stateName), stateName, c, n)
    ensures Safe(s', stateName, n)
  {
    var state := s.objects[ref];
    var typ := TypeIn(state, n);
    ViewSum(s'.clients, stateName, s.objects[s.state], n, typ);
    SavedChangesSum(state, s.clients, stateName, c, count, s'.clients, n, typ);
    SavedFits(s.View(stateName), s.objects[s.state], state, s.clients, stateName, c, count, s'.clients, n);
    forall k | k in s'.clients ensures Held(s'.clients[k], n, typ) >= 0 {
      if k != c.name { assert s.View(stateName)[k] == s.clients[k]; }
    }
  }

  /** An honest client is given at most what remains, and nothing negative. */
  lemma SavedFits(view: Store, entry: Condition, state: Condition, clients: Store, stateName: string, c: Condition,
                  count: nat, clients': Store, n: string)
    requires stateName !in clients && view == clients[stateName := entry] && TypeIn(state, n) == TypeIn(entry, n)
    requires SavedFrom(state, clients, stateName, c, count, clients')
    requires Inv(view, stateName, n) && Honest(view, stateName, c, n)
    requires RecordedIn(state, n, TypeIn(state, n)) <= TotalIn(state, n)
    ensures var typ := TypeIn(state, n);
            var held, held' := HeldBy(clients, c.name, n, typ), HeldBy(clients', c.name, n, typ);
            0 <= held' && held' - held <= TotalIn(state, n) - RecordedIn(state, n, typ)
  {
    var typ := TypeIn(state, n);
    assert HeldBy(view, c.name, n, typ) == HeldBy(clients, c.name, n, typ);
    assert HeldBy(view, c.name, n, typ) >= 0;
    if NoItem(c, n) {
      NoItemHoldsNothing(c.items, InputsOf(state, c, count), n);
    } else {
      var i: nat :| OnlyItem(c, n, i) && c.items[i].strategy != GlobalCountLimit
                    && LimitQuota(c.items[i].limit, typ) == HeldBy(view, c.name, n, typ);
      SavedStoresNext(state, clients, stateName, c, count, clients', n, i);
      NextIsBounded(ReadingFor(state, c, count, i));
    }
  }

  lemma FinishIsSafe(s: Server, stateName: string, copying: bool, newRef: nat, s': Server, n: string)
    requires s.Valid(stateName) && Safe(s, stateName, n)
    requires Next(s, stateName, copying, Finish(newRef), s') && s'.Valid(stateName)
    ensures Safe(s', stateName, n)
  {
    var entry := s.objects[s.lock.value];
    var statuses :| && Aggregates(statuses, s.clients, ConfigMap(entry.items))
                    && s' == s.Written(s.lock.value, entry.(statuses := statuses), newRef, copying);
    WrittenView(s, stateName, s.lock.value, entry.(statuses := statuses), newRef, copying);
    ViewSum(s.clients, stateName, entry, n, TypeIn(entry, n));
    ViewSum(s.clients, stateName, s.objects[s.state], n, TypeIn(entry, n));
    RecordingKeepsFit(s.clients, stateName, entry, statuses, n);
  }

  /** Recording the totals of clients that fit restores the invariant. */
  lemma RecordingKeepsFit(clients: Store, stateName: string, entry: Condition, statuses: seq<ItemStatus>, n: string)
    requires stateName !in clients && TypeIn(entry, n) != Unknown
    requires Aggregates(statuses, clients, ConfigMap(entry.items))
    requires StoredSum(clients[stateName := entry], stateName, n, TypeIn(entry, n)) <= TotalIn(entry, n)
    requires forall k :: k in clients ==> Held(clients[k], n, TypeIn(entry, n)) >= 0
    ensures Inv(clients[stateName := entry.(statuses := statuses)], stateName, n)
  {
    var typ, view' := TypeIn(entry, n), clients[stateName := entry.(statuses := statuses)];
    RecordingSettles(clients, stateName, entry, statuses, n, view');
    forall k | k in view' && k != stateName ensures Held(view'[k], n, typ) >= 0 {
      assert view'[k] == clients[k];
    }
  }

  lemma RecordingSettles(clients: Store, stateName: string, entry: Condition, statuses: seq<ItemStatus>, n: string,
                         view': Store)
    requires stateName !in clients && TypeIn(entry, n) != Unknown
    requires Aggregates(statuses, clients, ConfigMap(entry.items))
    requires StoredSum(clients[stateName := entry], stateName, n, TypeIn(entry, n)) <= TotalIn(entry, n)
    requires view' == clients[stateName := entry.(statuses := statuses)]
    ensures Settled(view', stateName, n)
  {
    var typ := TypeIn(entry, n);
    assert clients - {stateName} == clients;
    assert RecordedFrom(entry, clients, stateName, view');
    RecordingIsExact(entry, clients, stateName, view', n, typ);
    ViewSum(clients, stateName, entry, n, typ);
  }

  lemma CleanUpIsSafe(s: Server, stateName: string, name: string, s': Server, n: string)
    requires s.Valid(stateName) && Safe(s, stateName, n)
    requires name in s.clients && s.clients[name].instance != "" && s' == s.(clients := s.clients - {name})
    ensures s'.Valid(stateName) && Safe(s', stateName, n)
  {
    if s.lock.None? {
      var view, view' := s.View(stateName), s'.View(stateName);
      ViewWithout(s.clients, stateName, s.objects[s.state], name);
      CleanUpKeepsInv(view, stateName, name, view', n);
    } else {
      LockedCleanUpIsSafe(s, stateName, name, s', n);
    }
  }

  lemma LockedCleanUpIsSafe(s: Server, stateName: string, name: string, s': Server, n: string)
    requires s.Valid(stateName) && Safe(s, stateName, n) && s.lock.Some?
    requires name in s.clients && s' == s.(clients := s.clients - {name})
    ensures s'.Valid(stateName) && Safe(s', stateName, n)
  {
    var view := s.View(stateName);
    ViewWithout(s.clients, stateName, s.objects[s.state], name);
    SumShrinks(view, stateName, name, n, TypeFor(view, stateName, n));
  }

  lemma ViewWithout(clients: Store, stateName: string, entry: Condition, name: string)
    requires name in clients && name != stateName
    ensures (clients - {name})[stateName := entry] == clients[stateName := entry] - {name}
    ensures clients[stateName := entry][name] == clients[name]
  {
  }

  lemma SumShrinks(view: Store, stateName: string, name: string, n: string, typ: FlowControlType)
    requires name != stateName && typ != Unknown && HeldBy(view, name, n, typ) >= 0
    ensures StoredSum(view - {name}, stateName, n, typ) <= StoredSum(view, stateName, n, typ)
  {
    SumWithout(view, stateName, name, n, typ);
  }

  /** What a write leaves of the view. */
  lemma WrittenView(s: Server, stateName: string, ref: nat, entry: Condition, newRef: nat, copying: bool)
    requires s.Valid(stateName) && ref in s.objects
    ensures var s' := s.Written(ref, entry, newRef, copying);
            && s'.state in s'.objects && s'.View(stateName) == s.View(stateName)[stateName := entry]
            && s'.lock.None? && s'.clients == s.clients
  {
  }

  lemma SyncIsSafe(s: Server, stateName: string, copying: bool, schemas: seq<Schema>, newRef: nat, s': Server,
                   n: string)
    requires s.Valid(stateName) && Safe(s, stateName, n)
    requires Next(s, stateName, copying, Step.Sync(schemas, newRef), s') && s'.Valid(stateName)
    requires Fair(s, stateName, n, Step.Sync(schemas, newRef), s')
    ensures Safe(s', stateName, n)
  {
    var view := s.View(stateName);
    var entry :| && Synced(view, stateName, schemas, view[stateName := entry])
                 && s' == s.Written(s.state, entry, newRef, copying);
    WrittenView(s, stateName, s.state, entry, newRef, copying);
    SyncKeepsInv(view, stateName, schemas, s'.View(stateName), n);
  }

  lemma StepIsSafe(s: Server, stateName: string, copying: bool, step: Step, s': Server, n: string)
    requires s.Valid(stateName) && Safe(s, stateName, n)
    requires Next(s, stateName, copying, step, s') && s'.Valid(stateName) && Fair(s, stateName, n, step, s')
    requires step.Begin? ==> Suits(s, stateName, s.tasks[step.t], n)
    ensures Safe(s', stateName, n)
  {
    match step
    case Get(_) =>
    case Begin(t, c, count) =>
      if s'.lock.Some? { BeginIsSafe(s, stateName, s.tasks[t], c, count, s', n); }
    case Finish(newRef) => FinishIsSafe(s, stateName, copying, newRef, s', n);
    case CleanUp(name) =>
      if name in s.clients && s.clients[name].instance != "" { CleanUpIsSafe(s, stateName, name, s', n); }
    case Sync(schemas, newRef) => SyncIsSafe(s, stateName, copying, schemas, newRef, s', n);
  }

  /**
   * In every interleaving in which reports are computed from objects that record what is stored, the quotas
   * fit the total at every point, also while a report is under way.
   */
  lemma RacesAreSafe(states: seq<Server>, steps: seq<Step>, stateName: string, copying: bool, n: string, k: nat)
    requires Run(states, steps, stateName, copying) && k <= |steps| && Safe(states[0], stateName, n)
    requires forall i :: 0 <= i < k ==>
               && Fair(states[i], stateName, n, steps[i], states[i + 1])
               && (steps[i].Begin? ==> Suits(states[i], stateName, states[i].tasks[steps[i].t], n))
    ensures Safe(states[k], stateName, n)
    ensures var view := states[k].View(stateName);
            StoredSum(view, stateName, n, TypeFor(view, stateName, n)) <= Total(view, stateName, n)
  {
    for j := 0 to k
      invariant Safe(states[j], stateName, n)
    {
      assert Next(states[j], stateName, copying, steps[j], states[j + 1]);
      assert Fair(states[j], stateName, n, steps[j], states[j + 1]);
      StepIsSafe(states[j], stateName, copying, steps[j], states[j + 1], n);
    }
  }

  /** An accepted report that lists n once and says what the server stored last. */
  ghost predicate HonestBegin(s: Server, stateName: string, copying: bool, t: nat, c: Condition, count: nat,
                              s': Server, n: string)
    requires s.Valid(stateName)
  {
    && Next(s, stateName, copying, Begin(t, c, count), s') && s'.lock.Some?
    && ClaimsOnce(s.objects[s.tasks[t]], c, n, HeldBy(s.clients, c.name, n, TypeIn(s.objects[s.tasks[t]], n)))
  }

  /** And no weaker condition will do: reports are safe, whatever else they say, exactly when the object suits. */
  lemma BeginIsSafeIff(s: Server, stateName: string, copying: bool, t: nat, n: string)
    requires s.Valid(stateName) && s.lock.None? && t in s.tasks && SameLimit(s, s.tasks[t], n)
    requires var entry := s.objects[s.tasks[t]];
             Readable(entry, n) && 0 <= RecordedIn(entry, n, TypeIn(entry, n)) <= TotalIn(entry, n)
    ensures (forall c, count: nat, s' :: HonestBegin(s, stateName, copying, t, c, count, s', n) ==>
               StoredSum(s'.clients, stateName, n, TypeIn(s.objects[s.state], n)) <= TotalIn(s.objects[s.state], n))
            <==> Suits(s, stateName, s.tasks[t], n)
  {
    var ref := s.tasks[t];
    var entry := s.objects[ref];
    var typ := TypeIn(entry, n);
    OldStateIsSafeIff(entry, s.clients, stateName, n);
    if Suits(s, stateName, ref, n) {
      forall c, count: nat, s' | HonestBegin(s, stateName, copying, t, c, count, s', n)
        ensures StoredSum(s'.clients, stateName, n, typ) <= TotalIn(entry, n)
      {
        assert HonestFrom(entry, s.clients, stateName, c, count, s'.clients, n);
      }
    } else {
      var c, count: nat, saved :| HonestFrom(entry, s.clients, stateName, c, count, saved, n)
                                  && StoredSum(saved, stateName, n, typ) > TotalIn(entry, n);
      var s' := s.(clients := saved, lock := Some(ref), tasks := s.tasks - {t});
      assert HonestBegin(s, stateName, copying, t, c, count, s', n);
    }
  }

  /** A reference that is up to date suits. */
  lemma UpToDateSuits(s: Server, stateName: string, ref: nat, n: string)
    requires s.Valid(stateName) && StampInv(s) && Safe(s, stateName, n) && s.lock.None? && UpToDate(s, ref)
    ensures Suits(s, stateName, ref, n)
  {
    var entry := s.objects[ref];
    assert entry == s.objects[s.state];
    ViewSum(s.clients, stateName, entry, n, TypeIn(entry, n));
  }

  lemma FreshRacesAreSafe(states: seq<Server>, steps: seq<Step>, stateName: string, copying: bool, n: string, k: nat)
    requires Run(states, steps, stateName, copying) && k <= |steps|
    requires StampInv(states[0]) && Safe(states[0], stateName, n)
    requires forall i :: 0 <= i < |steps| ==>
               && Fair(states[i], stateName, n, steps[i], states[i + 1])
               && (steps[i].Begin? ==> UpToDate(states[i], states[i].tasks[steps[i].t]))
    ensures Safe(states[k], stateName, n)
  {
    for j := 0 to k
      invariant StampInv(states[j]) && Safe(states[j], stateName, n)
    {
      assert Next(states[j], stateName, copying, steps[j], states[j + 1]);
      assert Fair(states[j], stateName, n, steps[j], states[j + 1]);
      StepKeepsStamps(states[j], stateName, copying, steps[j], states[j + 1]);
      if steps[j].Begin? { UpToDateSuits(states[j], stateName, states[j].tasks[steps[j].t], n); }
      StepIsSafe(states[j], stateName, copying, steps[j], states[j + 1], n);
    }
  }

  /** In a store that saves the entry itself, that is every interleaving. */
  lemma InPlaceRacesAreSafe(states: seq<Server>, steps: seq<Step>, stateName: string, n: string, k: nat)
    requires Run(states, steps, stateName, false) && k <= |steps|
    requires StampInv(states[0]) && Shared(states[0]) && Safe(states[0], stateName, n)
    requires forall i :: 0 <= i < |steps| ==> Fair(states[i], stateName, n, steps[i], states[i + 1])
    ensures Safe(states[k], stateName, n)
    ensures var view := states[k].View(stateName);
            StoredSum(view, stateName, n, TypeFor(view, stateName, n)) <= Total(view, stateName, n)
  {
    for j := 0 to k
      invariant StampInv(states[j]) && Shared(states[j]) && Safe(states[j], stateName, n)
    {
      assert Next(states[j], stateName, false, steps[j], states[j + 1]);
      assert Fair(states[j], stateName, n, steps[j], states[j + 1]);
      StepKeepsStamps(states[j], stateName, false, steps[j], states[j + 1]);
      StepKeepsShared(states[j], stateName, steps[j], states[j + 1]);
      if steps[j].Begin? { UpToDateSuits(states[j], stateName, states[j].tasks[steps[j].t], n); }
      StepIsSafe(states[j], stateName, false, steps[j], states[j + 1], n);
    }
  }
}
