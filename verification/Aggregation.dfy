/** Stored rate-limit conditions of one upstream cluster and the totals over them. */
module Aggregation {
  import opened Wrappers
  import opened Numbers
  import opened Allocation

  /** What one client reported and was given; the upstream's own state is stored the same way. */
  datatype Condition = Condition(name: string, instance: string, items: seq<Item>, statuses: seq<ItemStatus>)

  type Store = map<string, Condition>

  /** Later entries of the same name win. */
  function ConfigMap(items: seq<Item>): map<string, Item> {
    if items == [] then map[] else
      var last := items[|items| - 1];
      ConfigMap(items[..|items| - 1])[last.name := last]
  }

  function StatusMap(statuses: seq<ItemStatus>): map<string, ItemStatus> {
    if statuses == [] then map[] else
      var last := statuses[|statuses| - 1];
      StatusMap(statuses[..|statuses| - 1])[last.name := last]
  }

  /** A missing entry reads as the zero value. */
  function StatusFor(m: map<string, ItemStatus>, n: string): ItemStatus {
    if n in m then m[n] else ItemStatus("", NO_LIMIT, 0)
  }

  // ---------- tallies form a commutative monoid ----------

  function PlusInt(a: Option<int>, b: Option<int>): Option<int> {
    if a.None? then b else if b.None? then a else Some(a.value + b.value)
  }

  function PlusBucket(a: Option<Bucket>, b: Option<Bucket>): Option<Bucket> {
    if a.None? then b else if b.None? then a
    else Some(Bucket(a.value.qps + b.value.qps, a.value.burst + b.value.burst))
  }

  function PlusLimit(a: Limit, b: Limit): Limit {
    Limit(PlusInt(a.maxInflight, b.maxInflight), PlusBucket(a.bucket, b.bucket))
  }

  /** Request levels are None once a division by a total of zero took part. */
  function PlusLevel(a: Option<real>, b: Option<real>): Option<real> {
    if a.Some? && b.Some? then Some(a.value + b.value) else None
  }

  /** Whether a flow control occurs, how much of it is handed out, and how much of it is in use. */
  datatype Tally = Tally(present: bool, limit: Limit, level: Option<real>)

  const NO_LEVEL: Option<real> := Some(0.0)

  const ZERO := Tally(false, NO_LIMIT, NO_LEVEL)

  function Plus(a: Tally, b: Tally): Tally {
    Tally(a.present || b.present, PlusLimit(a.limit, b.limit), PlusLevel(a.level, b.level))
  }

  /** The kind of limit that counts: a maximum in flight hides a token bucket. */
  function Contribution(limit: Limit): Limit {
    if limit.maxInflight.Some? then Limit(limit.maxInflight, None) else limit
  }

  function ItemsTally(items: seq<Item>, n: string): Tally {
    if items == [] then ZERO else
      var last := items[|items| - 1];
      Plus(ItemsTally(items[..|items| - 1], n),
           if last.name == n then Tally(true, Contribution(last.limit), NO_LEVEL) else ZERO)
  }

  /** The part of the configured total that a status says is in use. */
  function LevelShare(status: Limit, config: Limit): Option<real> {
    if status.maxInflight.Some? then
      if config.maxInflight.GetOr(0) == 0 then None
      else Some(status.maxInflight.value as real / config.maxInflight.value as real)
    else if status.bucket.Some? then
      if config.bucket.GetOr(Bucket(0, 0)).qps == 0 then None
      else Some(status.bucket.value.qps as real / config.bucket.value.qps as real)
    else NO_LEVEL
  }

  /** The configuration has the part that the server divides by; otherwise it dereferences nil. */
  predicate KindKnown(status: Limit, config: Limit) {
    if status.maxInflight.Some? then config.maxInflight.Some? else status.bucket.Some? ==> config.bucket.Some?
  }

  predicate KindsKnown(statuses: seq<ItemStatus>, configs: map<string, Item>) {
    forall i :: 0 <= i < |statuses| && statuses[i].name in configs ==>
      KindKnown(statuses[i].limit, configs[statuses[i].name].limit)
  }

  /** No condition has a status of another kind than the configured one. */
  predicate AllKindsKnown(clients: Store, configs: map<string, Item>) {
    forall k :: k in clients ==> KindsKnown(clients[k].statuses, configs)
  }

  function LevelTally(statuses: seq<ItemStatus>, n: string, configs: map<string, Item>): Option<real> {
    if statuses == [] then NO_LEVEL else
      var last := statuses[|statuses| - 1];
      PlusLevel(LevelTally(statuses[..|statuses| - 1], n, configs),
                if last.name == n && n in configs then LevelShare(last.limit, configs[n].limit) else NO_LEVEL)
  }

  function ConditionTally(c: Condition, n: string, configs: map<string, Item>): Tally {
    Plus(ItemsTally(c.items, n), Tally(false, NO_LIMIT, LevelTally(c.statuses, n, configs)))
  }

  lemma PlusSwap(a: Tally, b: Tally, c: Tally)
    ensures Plus(a, Plus(b, c)) == Plus(b, Plus(a, c))
  {
  }

  /** The sum of a finite collection, in whatever order it is listed. */
  ghost function Sum(m: map<string, Tally>): Tally {
    if m == map[] then ZERO else
      var k :| k in m;
      Plus(m[k], Sum(m - {k}))
  }

  /** Any entry may be taken out first. */
  lemma {:induction false} SumRemove(m: map<string, Tally>, k: string)
    requires k in m
    ensures Sum(m) == Plus(m[k], Sum(m - {k}))
    decreases |m|
  {
    var j :| j in m && Sum(m) == Plus(m[j], Sum(m - {j}));
    if j != k {
      assert (m - {j}).Keys == m.Keys - {j} && (m - {k}).Keys == m.Keys - {k};
      SumRemove(m - {j}, k);
      SumRemove(m - {k}, j);
      assert m - {j} - {k} == m - {k} - {j};
      PlusSwap(m[j], m[k], Sum(m - {j} - {k}));
    }
  }

  ghost function Tallies(m: Store, n: string, configs: map<string, Item>): map<string, Tally> {
    map k | k in m :: ConditionTally(m[k], n, configs)
  }

  /** The total of a flow control over a set of conditions. */
  ghost function StoreTally(m: Store, n: string, configs: map<string, Item>): Tally {
    Sum(Tallies(m, n, configs))
  }

  lemma TalliesWithout(m: Store, k: string, n: string, configs: map<string, Item>)
    ensures Tallies(m, n, configs) - {k} == Tallies(m - {k}, n, configs)
  {
    var a, b := Tallies(m, n, configs) - {k}, Tallies(m - {k}, n, configs);
    assert a.Keys == b.Keys;
  }

  /** Any condition may be taken out of the total first. */
  lemma TakeOut(m: Store, k: string, n: string, configs: map<string, Item>)
    requires k in m
    ensures StoreTally(m, n, configs) == Plus(ConditionTally(m[k], n, configs), StoreTally(m - {k}, n, configs))
  {
    SumRemove(Tallies(m, n, configs), k);
    TalliesWithout(m, k, n, configs);
  }

  /** Storing a condition replaces its own share of the total and nothing else. */
  lemma StoreTallyUpdate(m: Store, k: string, c: Condition, n: string, configs: map<string, Item>)
    ensures StoreTally(m[k := c], n, configs) == Plus(ConditionTally(c, n, configs), StoreTally(m - {k}, n, configs))
  {
    TakeOut(m[k := c], k, n, configs);
    assert m[k := c] - {k} == m - {k};
  }

  // ---------- the aggregate the server records ----------

  /** The status says what the tally says; a level that is not a number is recorded as any integer. */
  predicate Records(status: ItemStatus, n: string, t: Tally) {
    && status.name == n && status.limit == t.limit
    && (t.level.Some? ==> status.level == Trunc(t.level.value * 100.0))
  }

  predicate Listed(statuses: seq<ItemStatus>, n: string) {
    exists i :: 0 <= i < |statuses| && statuses[i].name == n
  }

  /** The recorded statuses list, per flow control, the exact total over the client conditions. */
  ghost predicate Aggregates(statuses: seq<ItemStatus>, clients: Store, configs: map<string, Item>) {
    && (forall i, j :: 0 <= i < j < |statuses| ==> statuses[i].name != statuses[j].name)
    && (forall i :: 0 <= i < |statuses| ==>
          var t := StoreTally(clients, statuses[i].name, configs);
          t.present && Records(statuses[i], statuses[i].name, t))
    && (forall n :: StoreTally(clients, n, configs).present ==> Listed(statuses, n))
  }

  /** Where a list names a flow control more than once, the last entry counts. */
  lemma {:induction false} LastItemCounts(items: seq<Item>, i: nat)
    requires i < |items| && forall j :: i < j < |items| ==> items[j].name != items[i].name
    ensures items[i].name in ConfigMap(items) && ConfigMap(items)[items[i].name] == items[i]
  {
    if i < |items| - 1 {
      LastItemCounts(items[..|items| - 1], i);
    }
  }

  /** The same of statuses. */
  lemma {:induction false} LastStatusCounts(statuses: seq<ItemStatus>, i: nat)
    requires i < |statuses| && forall j :: i < j < |statuses| ==> statuses[j].name != statuses[i].name
    ensures StatusFor(StatusMap(statuses), statuses[i].name) == statuses[i]
  {
    if i < |statuses| - 1 {
      LastStatusCounts(statuses[..|statuses| - 1], i);
    }
  }

  lemma {:induction false} UnnamedIsUnknown(items: seq<Item>, n: string)
    ensures n in ConfigMap(items) <==> exists i :: 0 <= i < |items| && items[i].name == n
  {
    if items != [] {
      var k := |items| - 1;
      UnnamedIsUnknown(items[..k], n);
      assert forall i :: 0 <= i < k ==> items[..k][i] == items[i];
    }
  }

  lemma {:induction false} StatusMapFinds(statuses: seq<ItemStatus>, i: nat)
    requires i < |statuses|
    requires forall i, j :: 0 <= i < j < |statuses| ==> statuses[i].name != statuses[j].name
    ensures statuses[i].name in StatusMap(statuses) && StatusMap(statuses)[statuses[i].name] == statuses[i]
  {
    if i < |statuses| - 1 {
      StatusMapFinds(statuses[..|statuses| - 1], i);
    }
  }

  lemma {:induction false} StatusMapKeys(statuses: seq<ItemStatus>, n: string)
    requires n in StatusMap(statuses)
    ensures Listed(statuses, n)
  {
    var last := |statuses| - 1;
    if statuses[last].name != n {
      StatusMapKeys(statuses[..last], n);
      var i :| 0 <= i < last && statuses[..last][i].name == n;
      assert statuses[i].name == n;
    }
  }

  /** Every listing order records the same status under every name. */
  lemma AggregateIsUnique(statuses: seq<ItemStatus>, clients: Store, configs: map<string, Item>, n: string)
    requires Aggregates(statuses, clients, configs)
    ensures var t := StoreTally(clients, n, configs);
            if t.present then Records(StatusFor(StatusMap(statuses), n), n, t)
            else StatusFor(StatusMap(statuses), n) == ItemStatus("", NO_LIMIT, 0)
  {
    if n in StatusMap(statuses) {
      StatusMapKeys(statuses, n);
    }
    if Listed(statuses, n) {
      var i :| 0 <= i < |statuses| && statuses[i].name == n;
      StatusMapFinds(statuses, i);
    }
  }

  lemma {:induction false} PresentIsNamed(items: seq<Item>, n: string)
    requires ItemsTally(items, n).present
    ensures exists i :: 0 <= i < |items| && items[i].name == n
  {
    var k := |items| - 1;
    if items[k].name != n {
      PresentIsNamed(items[..k], n);
    }
  }

  lemma {:induction false} PresentIsHeld(m: Store, n: string, configs: map<string, Item>)
    ensures StoreTally(m, n, configs).present ==> exists k :: k in m && ItemsTally(m[k].items, n).present
    decreases |m|
  {
    if m == map[] {
      assert Tallies(m, n, configs) == map[];
    } else {
      var k :| k in m;
      TakeOut(m, k, n, configs);
      assert (m - {k}).Keys == m.Keys - {k};
      PresentIsHeld(m - {k}, n, configs);
    }
  }

  ghost function Names(m: Store): set<string> {
    set k, i | k in m && 0 <= i < |m[k].items| :: m[k].items[i].name
  }

  lemma {:induction false} ListNames(todo: set<string>, clients: Store, configs: map<string, Item>)
    returns (statuses: seq<ItemStatus>)
    ensures forall i, j :: 0 <= i < j < |statuses| ==> statuses[i].name != statuses[j].name
    ensures forall i :: 0 <= i < |statuses| ==>
              var t := StoreTally(clients, statuses[i].name, configs);
              statuses[i].name in todo && t.present && Records(statuses[i], statuses[i].name, t)
    ensures forall n :: n in todo && StoreTally(clients, n, configs).present ==> Listed(statuses, n)
    decreases |todo|
  {
    statuses := [];
    if todo != {} {
      var n :| n in todo;
      statuses := ListNames(todo - {n}, clients, configs);
      var t := StoreTally(clients, n, configs);
      if t.present {
        var status := ItemStatus(n, t.limit, if t.level.Some? then Trunc(t.level.value * 100.0) else 0);
        ListedMore(statuses, status, todo - {n});
        statuses := statuses + [status];
      }
    }
  }

  lemma ListedMore(statuses: seq<ItemStatus>, status: ItemStatus, names: set<string>)
    ensures Listed(statuses + [status], status.name)
    ensures forall n :: n in names && Listed(statuses, n) ==> Listed(statuses + [status], n)
  {
    var all := statuses + [status];
    assert all[|statuses|] == status;
    forall n | n in names && Listed(statuses, n) ensures Listed(all, n) {
      var i :| 0 <= i < |statuses| && statuses[i].name == n;
      assert all[i].name == n;
    }
  }

  /** Totals over any conditions can be recorded. */
  lemma AggregatesExist(clients: Store, configs: map<string, Item>) returns (statuses: seq<ItemStatus>)
    ensures Aggregates(statuses, clients, configs)
  {
    statuses := ListNames(Names(clients), clients, configs);
    forall n | StoreTally(clients, n, configs).present ensures Listed(statuses, n) {
      PresentIsHeld(clients, n, configs);
      var k :| k in clients && ItemsTally(clients[k].items, n).present;
      PresentIsNamed(clients[k].items, n);
      var i :| 0 <= i < |clients[k].items| && clients[k].items[i].name == n;
      assert n in Names(clients);
    }
  }

  // ---------- the aggregation loops ----------

  function LimitIn(limits: map<string, Limit>, n: string): Limit {
    if n in limits then limits[n] else NO_LIMIT
  }

  function LevelIn(levels: map<string, Option<real>>, n: string): Option<real> {
    if n in levels then levels[n] else NO_LEVEL
  }

  /** What the two running maps say about a flow control. */
  function Running(limits: map<string, Limit>, levels: map<string, Option<real>>, n: string): Tally {
    Tally(n in limits, LimitIn(limits, n), LevelIn(levels, n))
  }

  /** Adds one item to the running total of its flow control. */
  method AddItem(item: Item, total: Limit) returns (total': Limit)
    ensures total' == PlusLimit(total, Contribution(item.limit))
  {
    total' := total;
    if item.limit.maxInflight.Some? {
      total' := total.(maxInflight := Some(total.maxInflight.GetOr(0) + item.limit.maxInflight.value));
    } else if item.limit.bucket.Some? {
      var sum := total.bucket.GetOr(Bucket(0, 0));
      total' := total.(bucket := Some(Bucket(sum.qps + item.limit.bucket.value.qps,
                                             sum.burst + item.limit.bucket.value.burst)));
    }
  }

  /** The running limit of n has grown by what the items say about n. */
  predicate Grown(limits: map<string, Limit>, limits': map<string, Limit>, items: seq<Item>, n: string) {
    && (n in limits' <==> n in limits || ItemsTally(items, n).present)
    && LimitIn(limits', n) == PlusLimit(LimitIn(limits, n), ItemsTally(items, n).limit)
  }

  lemma GrownBy(limits: map<string, Limit>, limits': map<string, Limit>, init: seq<Item>, item: Item, total: Limit,
                n: string)
    requires Grown(limits, limits', init, n)
    requires total == PlusLimit(LimitIn(limits', item.name), Contribution(item.limit))
    ensures Grown(limits, limits'[item.name := total], init + [item], n)
  {
    assert (init + [item])[..|init|] == init;
  }

  method AddItems(items: seq<Item>, limits: map<string, Limit>) returns (limits': map<string, Limit>)
    ensures forall n :: Grown(limits, limits', items, n)
  {
    limits' := limits;
    for i := 0 to |items|
      invariant forall n :: Grown(limits, limits', items[..i], n)
    {
      var total := AddItem(items[i], LimitIn(limits', items[i].name));
      ghost var before, added := limits', items[..i + 1];
      limits' := limits'[items[i].name := total];
      assert added == items[..i] + [items[i]];
      forall n ensures Grown(limits, limits', added, n) {
        GrownBy(limits, before, items[..i], items[i], total, n);
      }
    }
    assert items[..|items|] == items;
  }

  /** Adds one status; None when the server crashes on it. */
  method AddLevel(used: Limit, config: Limit, level: Option<real>) returns (r: Option<Option<real>>)
    ensures r.Some? <==> KindKnown(used, config)
    ensures r.Some? ==> r.value == PlusLevel(level, LevelShare(used, config))
  {
    if used.maxInflight.Some? {
      if config.maxInflight.None? {
        return None;
      }
      if config.maxInflight.value == 0 || level.None? {
        return Some(None);
      }
      return Some(Some(level.value + used.maxInflight.value as real / config.maxInflight.value as real));
    } else if used.bucket.Some? {
      if config.bucket.None? {
        return None;
      }
      if config.bucket.value.qps == 0 || level.None? {
        return Some(None);
      }
      return Some(Some(level.value + used.bucket.value.qps as real / config.bucket.value.qps as real));
    }
    return Some(level);
  }

  method AddLevels(statuses: seq<ItemStatus>, configs: map<string, Item>, levels: map<string, Option<real>>)
    returns (r: Option<map<string, Option<real>>>)
    ensures r.Some? <==> KindsKnown(statuses, configs)
    ensures r.Some? ==>
              forall n :: LevelIn(r.value, n) == PlusLevel(LevelIn(levels, n), LevelTally(statuses, n, configs))
  {
    var levels' := levels;
    for i := 0 to |statuses|
      invariant KindsKnown(statuses[..i], configs)
      invariant forall n :: LevelIn(levels', n) == PlusLevel(LevelIn(levels, n), LevelTally(statuses[..i], n, configs))
    {
      assert statuses[..i + 1][..i] == statuses[..i];
      var name := statuses[i].name;
      if name in configs {
        var level := AddLevel(statuses[i].limit, configs[name].limit, LevelIn(levels', name));
        if level.None? {
          return None;
        }
        levels' := levels'[name := level.value];
      }
    }
    assert statuses[..|statuses|] == statuses;
    return Some(levels');
  }

  lemma ListedAfterAppend(statuses: seq<ItemStatus>, s: ItemStatus, n: string)
    requires n == s.name || Listed(statuses, n)
    ensures Listed(statuses + [s], n)
  {
    if n == s.name {
      assert (statuses + [s])[|statuses|].name == n;
    } else {
      var i :| 0 <= i < |statuses| && statuses[i].name == n;
      assert (statuses + [s])[i].name == n;
    }
  }

  /** Writes the running totals out as a list, in any order. */
  method ListStatuses(limits: map<string, Limit>, levels: map<string, Option<real>>) returns (statuses: seq<ItemStatus>)
    ensures forall i, j :: 0 <= i < j < |statuses| ==> statuses[i].name != statuses[j].name
    ensures forall i :: 0 <= i < |statuses| ==>
              var n := statuses[i].name; n in limits && Records(statuses[i], n, Running(limits, levels, n))
    ensures forall n :: n in limits ==> Listed(statuses, n)
  {
    statuses := [];
    var todo := limits.Keys;
    ghost var done := {};
    while todo != {}
      invariant todo + done == limits.Keys && todo !! done
      invariant forall i, j :: 0 <= i < j < |statuses| ==> statuses[i].name != statuses[j].name
      invariant forall i :: 0 <= i < |statuses| ==>
                  var n := statuses[i].name; n in done && Records(statuses[i], n, Running(limits, levels, n))
      invariant forall n :: n in done ==> Listed(statuses, n)
      decreases todo
    {
      var n :| n in todo;
      var level: int := *;
      if LevelIn(levels, n).Some? {
        level := Trunc(LevelIn(levels, n).value * 100.0);
      }
      var status := ItemStatus(n, limits[n], level);
      forall m | m in done + {n} ensures Listed(statuses + [status], m) {
        ListedAfterAppend(statuses, status, m);
      }
      statuses := statuses + [status];
      todo, done := todo - {n}, done + {n};
    }
  }

  lemma RunningStep(limits: map<string, Limit>, levels: map<string, Option<real>>,
                    limits': map<string, Limit>, levels': map<string, Option<real>>,
                    c: Condition, n: string, configs: map<string, Item>)
    requires Grown(limits, limits', c.items, n)
    requires LevelIn(levels', n) == PlusLevel(LevelIn(levels, n), LevelTally(c.statuses, n, configs))
    ensures Running(limits', levels', n) == Plus(ConditionTally(c, n, configs), Running(limits, levels, n))
  {
    ItemsHaveNoLevel(c.items, n);
  }

  /** One more condition moves the running totals from the tally without it to the tally with it. */
  lemma RunningStepAt(limits: map<string, Limit>, levels: map<string, Option<real>>,
                      limits': map<string, Limit>, levels': map<string, Option<real>>,
                      done: Store, k: string, c: Condition, n: string, configs: map<string, Item>)
    requires k !in done
    requires Running(limits, levels, n) == StoreTally(done, n, configs)
    requires Grown(limits, limits', c.items, n)
    requires LevelIn(levels', n) == PlusLevel(LevelIn(levels, n), LevelTally(c.statuses, n, configs))
    ensures Running(limits', levels', n) == StoreTally(done[k := c], n, configs)
  {
    StoreTallyUpdate(done, k, c, n, configs);
    assert done - {k} == done;
    RunningStep(limits, levels, limits', levels', c, n, configs);
  }

  lemma {:induction false} ItemsHaveNoLevel(items: seq<Item>, n: string)
    ensures ItemsTally(items, n).level == NO_LEVEL
  {
    if items != [] {
      ItemsHaveNoLevel(items[..|items| - 1], n);
    }
  }

  /**
   * Recomputes the upstream status from every condition but the upstream's own; None when the server
   * crashes, which it does exactly when some condition has a status of another kind than the configured one.
   */
  method CalculateUpstreamStatus(store: Store, stateName: string, totals: seq<Item>)
    returns (r: Option<seq<ItemStatus>>)
    ensures r.Some? <==> AllKindsKnown(store - {stateName}, ConfigMap(totals))
    ensures r.Some? ==> Aggregates(r.value, store - {stateName}, ConfigMap(totals))
  {
    var configs := ConfigMap(totals);
    var limits: map<string, Limit>, levels: map<string, Option<real>> := map[], map[];
    var todo := store.Keys;
    ghost var done: Store := map[];
    while todo != {}
      invariant todo <= store.Keys
      invariant done.Keys == store.Keys - todo - {stateName}
      invariant forall k :: k in done ==> done[k] == store[k] && KindsKnown(done[k].statuses, configs)
      invariant forall n :: Running(limits, levels, n) == StoreTally(done, n, configs)
      decreases todo
    {
      var k :| k in todo;
      todo := todo - {k};
      if k == stateName {
        continue;
      }
      var limits' := AddItems(store[k].items, limits);
      var levels' := AddLevels(store[k].statuses, configs, levels);
      if levels'.None? {
        assert !KindsKnown((store - {stateName})[k].statuses, configs);
        return None;
      }
      forall n ensures Running(limits', levels'.value, n) == StoreTally(done[k := store[k]], n, configs) {
        assert Grown(limits, limits', store[k].items, n);
        RunningStepAt(limits, levels, limits', levels'.value, done, k, store[k], n, configs);
      }
      limits, levels, done := limits', levels'.value, done[k := store[k]];
    }
    assert done == store - {stateName};
    var statuses := ListStatuses(limits, levels);
    assert forall n :: Running(limits, levels, n) == StoreTally(done, n, configs);
    return Some(statuses);
  }
}
