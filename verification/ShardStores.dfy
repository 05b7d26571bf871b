/** Which limit stores a server holds while it gains and loses the leadership of shards. */
module ShardStores {

  // ---------- any interleaving of the lock regions ----------

  /** Where a goroutine stands between two lock regions. */
  datatype Task =
    | WantInstall(shard: int)          // startLeading saw no store
    | Loading(shard: int, id: nat)     // startLeading installed a store and loads it
    | WantEvict(shard: int, id: nat)   // the load failed
    | WantStop(id: nat)                // the store is out of the map

  /** home remembers for which shard a store was created. */
  datatype State = State(stores: map<int, nat>, tasks: map<nat, Task>, stopped: set<nat>, home: map<nat, int>)

  datatype Step =
    | StartLeading(t: nat, shard: int)
    | Install(t: nat, id: nat, created: bool)
    | LoadDone(t: nat, loaded: bool)
    | Evict(t: nat)
    | Stop(t: nat)
    | StopLeading(t: nat, shard: int)

  predicate Enabled(s: State, step: Step) {
    match step
    case StartLeading(t, _) => t !in s.tasks
    case Install(t, id, _) => t in s.tasks && s.tasks[t].WantInstall? && id !in s.home
    case LoadDone(t, _) => t in s.tasks && s.tasks[t].Loading?
    case Evict(t) => t in s.tasks && s.tasks[t].WantEvict?
    case Stop(t) => t in s.tasks && s.tasks[t].WantStop?
    case StopLeading(t, _) => t !in s.tasks
  }

  function Apply(s: State, step: Step): State
    requires Enabled(s, step)
  {
    match step
    case StartLeading(t, shard) =>
      if shard in s.stores then s else s.(tasks := s.tasks[t := WantInstall(shard)])
    case Install(t, id, created) =>
      var shard := s.tasks[t].shard;
      if shard in s.stores || !created then s.(tasks := s.tasks - {t})
      else s.(stores := s.stores[shard := id], home := s.home[id := shard], tasks := s.tasks[t := Loading(shard, id)])
    case LoadDone(t, loaded) =>
      if loaded then s.(tasks := s.tasks - {t})
      else s.(tasks := s.tasks[t := WantEvict(s.tasks[t].shard, s.tasks[t].id)])
    case Evict(t) =>
      var shard, id := s.tasks[t].shard, s.tasks[t].id;
      s.(stores := if shard in s.stores && s.stores[shard] == id then s.stores - {shard} else s.stores,
         tasks := s.tasks[t := WantStop(id)])
    case Stop(t) => s.(stopped := s.stopped + {s.tasks[t].id}, tasks := s.tasks - {t})
    case StopLeading(t, shard) =>
      if shard in s.stores
      then s.(stores := s.stores - {shard}, tasks := s.tasks[t := WantStop(s.stores[shard])])
      else s
  }

  predicate Live(s: State, id: nat) {
    id in s.home && s.home[id] in s.stores && s.stores[s.home[id]] == id
  }

  /** The store is stopped or some goroutine is about to stop it. */
  predicate StopRequested(s: State, id: nat) {
    id in s.stopped || exists t :: t in s.tasks && s.tasks[t] == WantStop(id)
  }

  /** Every store a goroutine or the map knows was created for the shard it is used for. */
  predicate Homed(s: State) {
    && (forall shard :: shard in s.stores ==> s.stores[shard] in s.home && s.home[s.stores[shard]] == shard)
    && (forall t :: t in s.tasks && (s.tasks[t].Loading? || s.tasks[t].WantEvict?) ==>
          s.tasks[t].id in s.home && s.home[s.tasks[t].id] == s.tasks[t].shard)
    && (forall t :: t in s.tasks && s.tasks[t].WantStop? ==> s.tasks[t].id in s.home)
    && s.stopped <= s.home.Keys
  }

  /** Every store ever installed is either held, or stopped or about to be. */
  predicate Inv(s: State) {
    && Homed(s)
    && forall id :: id in s.home ==> (Live(s, id) <==> !StopRequested(s, id))
  }

  /** StopRequested after a step that only adds or removes tasks that do not stop anything. */
  lemma SameStops(s: State, s': State, id: nat)
    requires s'.stopped == s.stopped
    requires forall t :: t in s.tasks && s.tasks[t].WantStop? ==> t in s'.tasks && s'.tasks[t] == s.tasks[t]
    requires forall t :: t in s'.tasks && s'.tasks[t].WantStop? ==> t in s.tasks && s'.tasks[t] == s.tasks[t]
    ensures StopRequested(s', id) == StopRequested(s, id)
  {
  }

  /** StopRequested after a task turned into the stop of one store. */
  lemma OneMoreStop(s: State, s': State, t: nat, x: nat, id: nat)
    requires s'.stopped == s.stopped && s'.tasks == s.tasks[t := WantStop(x)]
    requires t in s.tasks ==> !s.tasks[t].WantStop?
    ensures StopRequested(s', id) == (StopRequested(s, id) || id == x)
  {
    assert s'.tasks[t] == WantStop(x);
    forall u | u in s.tasks && s.tasks[u] == WantStop(id) ensures s'.tasks[u] == WantStop(id) {}
  }

  lemma StopDone(s: State, s': State, t: nat, id: nat)
    requires t in s.tasks && s.tasks[t].WantStop?
    requires s'.stopped == s.stopped + {s.tasks[t].id} && s'.tasks == s.tasks - {t}
    ensures StopRequested(s', id) == StopRequested(s, id)
  {
    if u :| u in s.tasks && s.tasks[u] == WantStop(id) {
      if u != t { assert s'.tasks[u] == WantStop(id); }
    }
    if u :| u in s'.tasks && s'.tasks[u] == WantStop(id) {
      assert s.tasks[u] == WantStop(id);
    }
  }

  lemma StepKeepsHomes(s: State, step: Step)
    requires Homed(s) && Enabled(s, step)
    ensures Homed(Apply(s, step))
  {
  }

  lemma StepKeepsAccount(s: State, step: Step, id: nat)
    requires Inv(s) && Enabled(s, step) && id in Apply(s, step).home
    ensures Live(Apply(s, step), id) <==> !StopRequested(Apply(s, step), id)
  {
    var s' := Apply(s, step);
    match step
    case StartLeading(t, shard) => SameStops(s, s', id);
    case Install(t, _, _) =>
      SameStops(s, s', id);
      if id !in s.home { NewStoreIsNotStopped(s, id); }
    case LoadDone(t, _) => SameStops(s, s', id);
    case Evict(t) => OneMoreStop(s, s', t, s.tasks[t].id, id);
    case Stop(t) => StopDone(s, s', t, id);
    case StopLeading(t, shard) =>
      if shard in s.stores { OneMoreStop(s, s', t, s.stores[shard], id); }
  }

  lemma StepKeepsInv(s: State, step: Step)
    requires Inv(s) && Enabled(s, step)
    ensures Inv(Apply(s, step))
  {
    StepKeepsHomes(s, step);
    forall id | id in Apply(s, step).home
      ensures Live(Apply(s, step), id) <==> !StopRequested(Apply(s, step), id)
    {
      StepKeepsAccount(s, step, id);
    }
  }

  lemma NewStoreIsNotStopped(s: State, id: nat)
    requires Inv(s) && id !in s.home
    ensures !StopRequested(s, id)
  {
    assert forall t :: t in s.tasks && s.tasks[t].WantStop? ==> s.tasks[t].id in s.home;
  }

  /** A store leaves the map only by losing the shard or by its own failed load, never by another store's. */
  lemma OnlyOwnLoadEvicts(s: State, step: Step, shard: int)
    requires Inv(s) && Enabled(s, step) && shard in s.stores
    requires var s' := Apply(s, step); shard !in s'.stores || s'.stores[shard] != s.stores[shard]
    ensures || (step.StopLeading? && step.shard == shard)
            || (step.Evict? && s.tasks[step.t] == WantEvict(shard, s.stores[shard]))
  {
  }

  /** In every interleaving, a store that is not held is stopped or about to be, and a held one is not. */
  lemma StoresAreNeverLeaked(states: seq<State>, steps: seq<Step>, k: nat)
    requires |states| == |steps| + 1 && k <= |steps| && Inv(states[0])
    requires forall i :: 0 <= i < |steps| ==>
               Enabled(states[i], steps[i]) && states[i + 1] == Apply(states[i], steps[i])
    ensures Inv(states[k])
    ensures states[k].tasks == map[] ==>
              forall id :: id in states[k].home ==> (id in states[k].stopped <==> !Live(states[k], id))
  {
    for j := 0 to k
      invariant Inv(states[j])
    {
      StepKeepsInv(states[j], steps[j]);
    }
  }

  // ---------- the periodic check ----------

  /** What happens when a shard's store is created and loaded. */
  datatype Outcome = Outcome(created: bool, loaded: bool)

  lemma NotEmpty(shards: set<int>)
    requires shards != {}
    ensures exists shard :: shard in shards
  {
    if forall shard :: shard !in shards { assert false; }
  }

  /** Starting to lead a shard without interruption: a store that loads is held, one that does not is stopped. */
  lemma UninterruptedStart(s: State, t: nat, shard: int, id: nat, loaded: bool) returns (s': State)
    requires t !in s.tasks && id !in s.home && shard !in s.stores && id !in s.stopped
    ensures var installed := Apply(Apply(s, StartLeading(t, shard)), Install(t, id, true));
            var done := Apply(installed, LoadDone(t, loaded));
            if t in done.tasks
            then Enabled(done, Evict(t)) && s' == Apply(Apply(done, Evict(t)), Stop(t))
            else s' == done
    ensures s'.tasks == s.tasks && s'.home == s.home[id := shard]
    ensures shard in s'.stores <==> loaded
    ensures id in s'.stopped <==> !loaded
    ensures s'.stores - {shard} == s.stores && (loaded ==> s'.stores[shard] == id)
  {
    var installed := Apply(Apply(s, StartLeading(t, shard)), Install(t, id, true));
    assert installed.tasks - {t} == s.tasks;
    assert installed.stores - {shard} == s.stores;
    s' := Apply(installed, LoadDone(t, loaded));
    if t in s'.tasks {
      s' := Apply(Apply(s', Evict(t)), Stop(t));
      assert s'.tasks == s.tasks;
    }
  }

  /** Losing the leadership without interruption stops the shard's store. */
  lemma UninterruptedStop(s: State, t: nat, shard: int)
    requires t !in s.tasks && shard in s.stores
    ensures var s' := Apply(Apply(s, StopLeading(t, shard)), Stop(t));
            s'.stores == s.stores - {shard} && s'.stopped == s.stopped + {s.stores[shard]} && s'.tasks == s.tasks
  {
  }

  class RateLimiter {
    const identity: string
    var limitStores: map<int, nat>
    var nextId: nat
    var stopped: set<nat>

    method StartLeading(shard: int, outcome: Outcome)
      modifies this
      ensures shard in old(limitStores) ==> limitStores == old(limitStores)
      ensures shard !in old(limitStores) ==>
                limitStores == if outcome.created && outcome.loaded then old(limitStores)[shard := old(nextId)]
                               else old(limitStores)
      ensures shard !in old(limitStores) && outcome.created && !outcome.loaded ==>
                stopped == old(stopped) + {old(nextId)}
      ensures shard in old(limitStores) || !outcome.created || outcome.loaded ==> stopped == old(stopped)
    {
      if shard in limitStores {
        return;
      }
      if outcome.created {
        var id := nextId;
        nextId := nextId + 1;
        limitStores := limitStores[shard := id];
        if !outcome.loaded {
          if shard in limitStores && limitStores[shard] == id {
            limitStores := limitStores - {shard};
          }
          stopped := stopped + {id};
          assert limitStores == old(limitStores);
        }
      }
    }

    method StopLeading(shard: int)
      modifies this`limitStores, this`stopped
      ensures limitStores == old(limitStores) - {shard}
      ensures stopped == if shard in old(limitStores) then old(stopped) + {old(limitStores)[shard]} else old(stopped)
    {
      if shard in limitStores {
        stopped := stopped + {limitStores[shard]};
      }
      limitStores := limitStores - {shard};
    }

    predicate Leads(leaders: map<int, string>, shard: int) { shard in leaders && leaders[shard] == identity }

    /** Afterwards held shards are led, dropped stores are stopped, and led shards that could be loaded are held. */
    method LeaderCheck(leaders: map<int, string>, outcomes: map<int, Outcome>)
      requires leaders.Keys <= outcomes.Keys
      modifies this
      ensures forall shard :: shard in limitStores ==> Leads(leaders, shard)
      ensures forall shard :: Leads(leaders, shard) ==>
                (shard in limitStores <==>
                 shard in old(limitStores) || (outcomes[shard].created && outcomes[shard].loaded))
      ensures forall shard :: shard in old(limitStores) && shard in limitStores ==>
                limitStores[shard] == old(limitStores)[shard]
      ensures forall shard :: shard in old(limitStores) && !Leads(leaders, shard) ==> old(limitStores)[shard] in stopped
    {
      StartLed(leaders, outcomes);
      StopUnled(leaders);
    }

    method StartLed(leaders: map<int, string>, outcomes: map<int, Outcome>)
      requires leaders.Keys <= outcomes.Keys
      modifies this
      ensures forall shard :: shard in old(limitStores) ==>
                shard in limitStores && limitStores[shard] == old(limitStores)[shard]
      ensures forall shard :: shard in limitStores ==> shard in old(limitStores) || Leads(leaders, shard)
      ensures forall shard :: Leads(leaders, shard) ==>
                (shard in limitStores <==>
                 shard in old(limitStores) || (outcomes[shard].created && outcomes[shard].loaded))
    {
      var todo: set<int> := leaders.Keys;
      while todo != {}
        invariant todo <= leaders.Keys
        invariant forall shard :: shard in old(limitStores) ==>
                    shard in limitStores && limitStores[shard] == old(limitStores)[shard]
        invariant forall shard :: shard in limitStores ==>
                    shard in old(limitStores) || (Leads(leaders, shard) && shard !in todo)
        invariant forall shard :: Leads(leaders, shard) && shard !in todo ==>
                    (shard in limitStores <==>
                 shard in old(limitStores) || (outcomes[shard].created && outcomes[shard].loaded))
        decreases todo
      {
        NotEmpty(todo);
        var shard :| shard in todo;
        todo := todo - {shard};
        if leaders[shard] == identity && shard !in limitStores {
          StartLeading(shard, outcomes[shard]);
        }
      }
    }

    method StopUnled(leaders: map<int, string>)
      modifies this`limitStores, this`stopped
      ensures forall shard :: shard in limitStores <==> shard in old(limitStores) && Leads(leaders, shard)
      ensures forall shard :: shard in limitStores ==> limitStores[shard] == old(limitStores)[shard]
      ensures forall shard :: shard in old(limitStores) && !Leads(leaders, shard) ==> old(limitStores)[shard] in stopped
    {
      var toStop := set shard | shard in limitStores && !Leads(leaders, shard);
      while toStop != {}
        invariant toStop == set shard | shard in limitStores && !Leads(leaders, shard)
        invariant forall shard :: shard in limitStores ==>
                    shard in old(limitStores) && limitStores[shard] == old(limitStores)[shard]
        invariant forall shard :: shard in old(limitStores) && Leads(leaders, shard) ==> shard in limitStores
        invariant forall shard :: shard in old(limitStores) && shard !in limitStores ==>
                    old(limitStores)[shard] in stopped
        decreases toStop
      {
        var shard :| shard in toStop;
        StopLeading(shard);
        toStop := toStop - {shard};
      }
      assert forall shard :: shard in limitStores && !Leads(leaders, shard) ==> shard in toStop;
    }
  }
}
