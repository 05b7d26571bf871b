/** The server that divides the quota of one upstream cluster among its clients. */
module QuotaServer {
  import opened Wrappers
  import opened Allocation
  import opened Aggregation

  // ---------- one report, item by item ----------

  /** What the items of a report are computed from. */
  datatype Inputs = Inputs(configs: map<string, Item>, recorded: map<string, ItemStatus>,
                           reported: map<string, ItemStatus>, clients: nat)

  function InputsOf(state: Condition, c: Condition, clients: nat): Inputs {
    Inputs(ConfigMap(state.items), StatusMap(state.statuses), StatusMap(c.statuses), clients)
  }

  predicate Mismatch(item: Item, total: Item) {
    TypeOf(item.limit) != Unknown && TypeOf(item.limit) != TypeOf(total.limit)
  }

  predicate ItemComputable(item: Item, inp: Inputs) {
    item.name in inp.configs && !Mismatch(item, inp.configs[item.name]) ==>
      Computable(inp.configs[item.name], StatusFor(inp.recorded, item.name), item,
                 StatusFor(inp.reported, item.name), inp.clients)
  }

  predicate AllComputable(items: seq<Item>, inp: Inputs) {
    forall i :: 0 <= i < |items| ==> ItemComputable(items[i], inp)
  }

  function UpdatedItem(item: Item, inp: Inputs): (r: Item)
    requires ItemComputable(item, inp) && item.name in inp.configs && !Mismatch(item, inp.configs[item.name])
    ensures r.name == item.name
  {
    NextItem(inp.configs[item.name], StatusFor(inp.recorded, item.name), item,
             StatusFor(inp.reported, item.name), inp.clients)
  }

  /** Unknown flow controls are dropped, a change of type is refused. */
  function UpdateItems(items: seq<Item>, inp: Inputs): Result<seq<Item>, string>
    requires AllComputable(items, inp)
  {
    if items == [] then Success([]) else
      var init, item := UpdateItems(items[..|items| - 1], inp), items[|items| - 1];
      if init.Failure? || item.name !in inp.configs then init
      else if Mismatch(item, inp.configs[item.name]) then Failure("item type changed")
      else Success(init.value + [UpdatedItem(item, inp)])
  }

  method ComputeItems(items: seq<Item>, inp: Inputs) returns (r: Result<seq<Item>, string>)
    requires AllComputable(items, inp)
    ensures r == UpdateItems(items, inp)
  {
    var next := [];
    for i := 0 to |items|
      invariant UpdateItems(items[..i], inp) == Success(next)
    {
      assert items[..i + 1][..i] == items[..i];
      if items[i].name in inp.configs {
        if Mismatch(items[i], inp.configs[items[i].name]) {
          r := Failure("item type changed");
          RefusedPrefix(items, i + 1, inp);
          return;
        }
        next := next + [UpdatedItem(items[i], inp)];
      }
    }
    assert items[..|items|] == items;
    r := Success(next);
  }

  lemma {:induction false} RefusedPrefix(items: seq<Item>, i: nat, inp: Inputs)
    requires i <= |items| && AllComputable(items, inp)
    requires UpdateItems(items[..i], inp).Failure?
    ensures UpdateItems(items, inp) == UpdateItems(items[..i], inp)
  {
    if i == |items| {
      assert items[..i] == items;
    } else {
      assert items[..|items| - 1][..i] == items[..i];
      RefusedPrefix(items[..|items| - 1], i, inp);
    }
  }

  /** A report is refused exactly when some configured item changed its type. */
  lemma {:induction false} RefusedIff(items: seq<Item>, inp: Inputs)
    requires AllComputable(items, inp)
    ensures UpdateItems(items, inp).Failure? <==>
            exists i :: 0 <= i < |items| &&
              items[i].name in inp.configs && Mismatch(items[i], inp.configs[items[i].name])
  {
    if items != [] {
      var last := |items| - 1;
      RefusedIff(items[..last], inp);
      forall i | 0 <= i < last ensures items[..last][i] == items[i] {}
    }
  }

  // ---------- the server ----------

  datatype Schema = Schema(name: string, limit: Limit)

  /** A recorded status survives a schema update; a missing one starts at zero. */
  function KeptStatus(schema: Schema, recorded: map<string, ItemStatus>): (s: ItemStatus)
    ensures forall typ :: typ != Unknown ==>
              LimitQuota(s.limit, typ) == LimitQuota(StatusFor(recorded, schema.name).limit, typ)
  {
    var s := if schema.name in recorded then recorded[schema.name] else ItemStatus(schema.name, NO_LIMIT, 0);
    var bucket := if schema.limit.bucket.Some? && s.limit.bucket.None? then Some(Bucket(0, 0)) else s.limit.bucket;
    var max := if schema.limit.maxInflight.Some? && s.limit.maxInflight.None? then Some(0) else s.limit.maxInflight;
    s.(limit := Limit(max, bucket))
  }

  /** The upstream's own entry, as far as it exists. */
  /** A kept status has the recorded parts and level, and a part of 0 where only the schema limits that kind. */
  lemma KeptStatusIs(schema: Schema, recorded: map<string, ItemStatus>)
    ensures var s, was := KeptStatus(schema, recorded), StatusFor(recorded, schema.name);
            && s.level == was.level && (schema.name !in recorded ==> s.name == schema.name)
            && (was.limit.bucket.Some? ==> s.limit.bucket == was.limit.bucket)
            && (was.limit.maxInflight.Some? ==> s.limit.maxInflight == was.limit.maxInflight)
            && (s.limit.bucket.Some? <==> schema.limit.bucket.Some? || was.limit.bucket.Some?)
            && (s.limit.maxInflight.Some? <==> schema.limit.maxInflight.Some? || was.limit.maxInflight.Some?)
  {
  }

  function StateOf(s: Store, stateName: string): Condition {
    if stateName in s then s[stateName] else Condition(stateName, "", [], [])
  }

  /** The first half of an accepted report: the client's items, computed from the given upstream state, are stored. */
  predicate SavedFrom(state: Condition, s: Store, stateName: string, c: Condition, clients: nat, saved: Store) {
    && c.name != stateName
    && AllComputable(c.items, InputsOf(state, c, clients))
    && var r := UpdateItems(c.items, InputsOf(state, c, clients));
    && r.Success?
    && saved == s[c.name := c.(items := r.value)]
  }

  /** The second half: the given upstream state, with the totals over what is stored now, is stored. */
  ghost predicate RecordedFrom(state: Condition, saved: Store, stateName: string, s': Store) {
    && stateName in s'
    && Aggregates(s'[stateName].statuses, saved - {stateName}, ConfigMap(state.items))
    && s' == saved[stateName := state.(statuses := s'[stateName].statuses)]
  }

  /** An accepted report, with the upstream state it was computed from. */
  ghost predicate UpdatedFrom(state: Condition, s: Store, stateName: string, c: Condition, clients: nat, s': Store) {
    exists saved :: SavedFrom(state, s, stateName, c, clients, saved) && RecordedFrom(state, saved, stateName, s')
  }

  /** A report on which the server crashes half-way: the client's items are stored, the totals are not recorded. */
  predicate CrashedFrom(state: Condition, s: Store, stateName: string, c: Condition, clients: nat, s': Store) {
    SavedFrom(state, s, stateName, c, clients, s') && !AllKindsKnown(s' - {stateName}, ConfigMap(state.items))
  }

  /** An accepted report whose read and write are one step. */
  ghost predicate Updated(s: Store, stateName: string, c: Condition, clients: nat, s': Store) {
    stateName in s && UpdatedFrom(s[stateName], s, stateName, c, clients, s')
  }

  /** What was stored can be recorded. */
  lemma RecordingExists(state: Condition, saved: Store, stateName: string) returns (s': Store)
    ensures RecordedFrom(state, saved, stateName, s')
  {
    var statuses := AggregatesExist(saved - {stateName}, ConfigMap(state.items));
    s' := saved[stateName := state.(statuses := statuses)];
  }

  /** Only conditions of a client are cleaned up, and the recorded totals stay as they are. */
  predicate CleanedUp(s: Store, name: string, s': Store) {
    s' == if name in s && s[name].instance != "" then s - {name} else s
  }

  predicate Synced(s: Store, stateName: string, schemas: seq<Schema>, s': Store) {
    && stateName in s'
    && var state, state' := StateOf(s, stateName), s'[stateName];
    && s' == s[stateName := state']
    && state'.name == state.name && state'.instance == state.instance
    && |state'.items| == |state'.statuses| == |schemas|
    && forall i :: 0 <= i < |schemas| ==>
         && state'.items[i] == Item(schemas[i].name, schemas[i].limit, LocalLimit)
         && state'.statuses[i] == KeptStatus(schemas[i], StatusMap(state.statuses))
  }

  /** What a report leads to; a crash is answered by the server's panic recovery. */
  datatype Reply = Accepted(condition: Condition) | Refused(reason: string) | Crashed

  /**
   * One upstream cluster at the limit server. The store holds a reference to the upstream's own entry, and
   * reports write through the reference they were given. A copying store keeps a copy of what is saved.
   */
  class LimitServer {
    const stateName: string
    const copying: bool
    var clients: Store
    var objects: map<nat, Condition>
    var state: Option<nat>
    var next: nat

    predicate Valid()
      reads this
    {
      && stateName !in clients
      && (state.Some? ==> state.value in objects)
      && forall ref :: ref in objects ==> ref < next
    }

    /** The conditions by name. */
    function View(): Store
      requires Valid()
      reads this
    {
      if state.Some? then clients[stateName := objects[state.value]] else clients
    }

    constructor (stateName: string, copying: bool)
      ensures this.stateName == stateName && this.copying == copying
      ensures Valid() && View() == map[] && objects == map[] && clients == map[]
    {
      this.stateName, this.copying := stateName, copying;
      clients, objects, state, next := map[], map[], None, 0;
    }

    /** Hands out the reference to the upstream's entry, not a copy of it. */
    method GetState() returns (ref: Option<nat>)
      requires Valid()
      ensures ref == state && (ref.Some? <==> stateName in View())
    {
      ref := state;
    }

    /** Saves the upstream's entry: the object itself, or a copy of it. */
    method SaveState(ref: nat)
      requires Valid() && ref in objects
      modifies this`objects, this`state, this`next
      ensures Valid() && ref in objects && View() == clients[stateName := objects[ref]]
      ensures state == Some(if copying then old(next) else ref)
      ensures objects == if copying then old(objects)[old(next) := old(objects)[ref]] else old(objects)
    {
      if copying {
        objects := objects[next := objects[ref]];
        state, next := Some(next), next + 1;
      } else {
        state := Some(ref);
      }
    }

    /** The part under the upstream's lock; ref was handed out before. */
    method UpdateLocked(ref: nat, condition: Condition, clientCount: nat) returns (r: Reply)
      requires Valid() && ref in objects && state.Some? && condition.name != stateName
      requires AllComputable(condition.items, InputsOf(objects[ref], condition, clientCount))
      modifies this
      ensures Valid() && state.Some?
      ensures r.Refused? <==> UpdateItems(condition.items, InputsOf(old(objects)[ref], condition, clientCount)).Failure?
      ensures r.Refused? ==> View() == old(View())
      ensures r.Crashed? ==> CrashedFrom(old(objects)[ref], old(View()), stateName, condition, clientCount, View())
      ensures r.Accepted? ==> AllKindsKnown(View() - {stateName}, ConfigMap(old(objects)[ref].items))
      ensures r.Accepted? ==> UpdatedFrom(old(objects)[ref], old(View()), stateName, condition, clientCount, View())
      ensures r.Accepted? ==>
                r.condition == View()[condition.name] && ref in objects && objects[ref] == View()[stateName]
      ensures !r.Accepted? ==> objects == old(objects) && state == old(state)
      ensures r.Accepted? ==> state == Some(if copying then old(next) else ref)
      ensures forall other :: other in old(objects) && other != ref ==>
                other in objects && objects[other] == old(objects)[other]
    {
      var items := ComputeItems(condition.items, InputsOf(objects[ref], condition, clientCount));
      if items.Failure? {
        return Refused(items.error);
      }
      ghost var before := View();
      var saved := condition.(items := items.value);
      clients := clients[condition.name := saved];
      ghost var half := View();
      assert half == before[condition.name := saved];
      assert SavedFrom(objects[ref], before, stateName, condition, clientCount, half);
      var statuses := CalculateUpstreamStatus(View(), stateName, objects[ref].items);
      if statuses.None? {
        return Crashed;
      }
      RecordStatuses(ref, statuses.value);
      assert RecordedFrom(old(objects)[ref], half, stateName, View());
      assert View() - {stateName} == half - {stateName};
      return Accepted(saved);
    }

    /** Writes the recomputed statuses through the reference and saves the entry. */
    method RecordStatuses(ref: nat, statuses: seq<ItemStatus>)
      requires Valid() && ref in objects && state.Some?
      modifies this`objects, this`state, this`next
      ensures Valid() && state == Some(if copying then old(next) else ref)
      ensures View() == old(View())[stateName := old(objects)[ref].(statuses := statuses)]
      ensures ref in objects && objects[ref] == View()[stateName]
      ensures forall other :: other in old(objects) && other != ref ==>
                other in objects && objects[other] == old(objects)[other]
    {
      objects := objects[ref := objects[ref].(statuses := statuses)];
      SaveState(ref);
      assert View() == old(View())[stateName := objects[ref]];
    }

    /** A report that is not interrupted between getting the reference and taking the lock. */
    method UpdateRateLimitConditionStatus(condition: Condition, clientCount: nat) returns (r: Reply)
      requires Valid() && condition.name != stateName
      requires state.Some? ==> AllComputable(condition.items, InputsOf(objects[state.value], condition, clientCount))
      modifies this
      ensures Valid()
      ensures r.Refused? <==>
                || stateName !in old(View())
                || UpdateItems(condition.items, InputsOf(old(View())[stateName], condition, clientCount)).Failure?
      ensures r.Refused? ==> View() == old(View())
      ensures r.Crashed? ==> CrashedFrom(old(View())[stateName], old(View()), stateName, condition, clientCount, View())
      ensures r.Accepted? ==> Updated(old(View()), stateName, condition, clientCount, View())
      ensures r.Accepted? ==> r.condition == View()[condition.name]
    {
      var ref := GetState();
      if ref.None? {
        return Refused("not found");
      }
      r := UpdateLocked(ref.value, condition, clientCount);
    }

    method DeleteCondition(name: string)
      requires Valid()
      modifies this`clients
      ensures Valid() && (name == stateName ==> View() == old(View()))
      ensures name != stateName ==> CleanedUp(old(View()), name, View())
    {
      if name in clients && clients[name].instance != "" {
        clients := clients - {name};
      }
    }

    method UpdateUpstreamStateCondition(schemas: seq<Schema>)
      requires Valid()
      modifies this
      ensures Valid() && state.Some? && clients == old(clients) && Synced(old(View()), stateName, schemas, View())
      ensures forall ref :: ref in old(objects) && old(state) != Some(ref) ==>
                ref in objects && objects[ref] == old(objects)[ref]
    {
      ghost var before := View();
      var ref := state.GetOr(next);
      var entry := if state.Some? then objects[ref] else Condition(stateName, "", [], []);
      if state.None? {
        next := next + 1;
      }
      var items, statuses := RewriteEntry(entry, schemas);
      objects := objects[ref := entry.(items := items, statuses := statuses)];
      SaveState(ref);
      assert View() == before[stateName := objects[ref]];
    }

    static method RewriteEntry(entry: Condition, schemas: seq<Schema>)
      returns (items: seq<Item>, statuses: seq<ItemStatus>)
      ensures |items| == |statuses| == |schemas|
      ensures forall i :: 0 <= i < |schemas| ==>
                && items[i] == Item(schemas[i].name, schemas[i].limit, LocalLimit)
                && statuses[i] == KeptStatus(schemas[i], StatusMap(entry.statuses))
    {
      var recorded := StatusMap(entry.statuses);
      items, statuses := [], [];
      for i := 0 to |schemas|
        invariant |items| == |statuses| == i
        invariant forall j :: 0 <= j < i ==>
                    && items[j] == Item(schemas[j].name, schemas[j].limit, LocalLimit)
                    && statuses[j] == KeptStatus(schemas[j], recorded)
      {
        var name, limit := schemas[i].name, schemas[i].limit;
        items := items + [Item(name, limit, LocalLimit)];
        var status := if name in recorded then recorded[name] else ItemStatus(name, NO_LIMIT, 0);
        if limit.bucket.Some? && status.limit.bucket.None? {
          status := status.(limit := status.limit.(bucket := Some(Bucket(0, 0))));
        }
        if limit.maxInflight.Some? && status.limit.maxInflight.None? {
          status := status.(limit := status.limit.(maxInflight := Some(0)));
        }
        statuses := statuses + [status];
      }
    }
  }
}
