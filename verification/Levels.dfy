/** What the recorded request levels are: the clients' use of a flow control as a percentage of its total. */
module Levels {
  import opened Wrappers
  import opened Numbers
  import opened Allocation
  import opened Aggregation
  import MapSums
  import Targets

  // ---------- the use that the clients report ----------

  /** The use of one kind of limit that a status reports; a number in flight hides a number of tokens. */
  function Use(status: Limit, typ: FlowControlType): int {
    match typ
    case MaxRequestsInflight => status.maxInflight.GetOr(0)
    case TokenBucket => if status.maxInflight.Some? then 0 else status.bucket.GetOr(Bucket(0, 0)).qps
    case Unknown => 0
  }

  function UsedIn(statuses: seq<ItemStatus>, n: string, typ: FlowControlType): int {
    if statuses == [] then 0 else
      var last := statuses[|statuses| - 1];
      UsedIn(statuses[..|statuses| - 1], n, typ) + if last.name == n then Use(last.limit, typ) else 0
  }

  function UsedBy(m: Store, n: string, typ: FlowControlType): map<string, int> {
    map k | k in m :: UsedIn(m[k].statuses, n, typ)
  }

  /** The use of flow control n by all clients. */
  ghost function Used(m: Store, n: string, typ: FlowControlType): int { MapSums.Sum(UsedBy(m, n, typ)) }

  // ---------- levels add up like uses ----------

  predicate Adds(f: int -> real, a: int, b: int) { f(a + b) == f(a) + f(b) }

  ghost predicate Additive(f: int -> real) { f(0) == 0.0 && forall a, b :: Adds(f, a, b) }

  /** What a status adds to the level is a share of the number in flight and a share of the tokens. */
  ghost predicate Shares(config: Limit, f: int -> real, g: int -> real) {
    && Additive(f) && Additive(g)
    && forall status: Limit :: KindKnown(status, config) ==>
         HasLevel(LevelShare(status, config), Use(status, MaxRequestsInflight), Use(status, TokenBucket), f, g)
  }

  /** The level is that of so much use. */
  ghost predicate HasLevel(level: Option<real>, inflight: int, tokens: int, f: int -> real, g: int -> real) {
    level == Some(f(inflight) + g(tokens))
  }

  lemma LevelsJoin(a: Option<real>, b: Option<real>, i: int, t: int, i': int, t': int, f: int -> real, g: int -> real)
    requires Additive(f) && Additive(g) && HasLevel(a, i, t, f, g) && HasLevel(b, i', t', f, g)
    ensures HasLevel(PlusLevel(a, b), i + i', t + t', f, g)
  {
    assert Adds(f, i, i') && Adds(g, t, t');
  }

  /** The levels of a condition add up to its use. */
  lemma {:induction false} ConditionLevel(statuses: seq<ItemStatus>, n: string, configs: map<string, Item>,
                                          f: int -> real, g: int -> real)
    requires KindsKnown(statuses, configs) && n in configs && Shares(configs[n].limit, f, g)
    ensures HasLevel(LevelTally(statuses, n, configs), UsedIn(statuses, n, MaxRequestsInflight),
                     UsedIn(statuses, n, TokenBucket), f, g)
  {
    if statuses != [] {
      var init, last := statuses[..|statuses| - 1], statuses[|statuses| - 1];
      ConditionLevel(init, n, configs, f, g);
      var i, t := UsedIn(init, n, MaxRequestsInflight), UsedIn(init, n, TokenBucket);
      if last.name == n {
        LevelsJoin(LevelTally(init, n, configs), LevelShare(last.limit, configs[n].limit), i, t,
                   Use(last.limit, MaxRequestsInflight), Use(last.limit, TokenBucket), f, g);
      } else {
        LevelsJoin(LevelTally(init, n, configs), NO_LEVEL, i, t, 0, 0, f, g);
      }
    }
  }

  lemma UsedTakenOut(m: Store, k: string, n: string, typ: FlowControlType)
    requires k in m
    ensures Used(m, n, typ) == UsedIn(m[k].statuses, n, typ) + Used(m - {k}, n, typ)
  {
    MapSums.SumRemove(UsedBy(m, n, typ), k);
    assert UsedBy(m, n, typ) - {k} == UsedBy(m - {k}, n, typ);
  }

  lemma UsedByNobody(n: string, typ: FlowControlType)
    ensures Used(map[], n, typ) == 0
  {
    assert UsedBy(map[], n, typ) == map[];
  }

  lemma LevelTakenOut(m: Store, k: string, n: string, configs: map<string, Item>)
    requires k in m
    ensures StoreTally(m, n, configs).level
            == PlusLevel(LevelTally(m[k].statuses, n, configs), StoreTally(m - {k}, n, configs).level)
  {
    TakeOut(m, k, n, configs);
    ItemsHaveNoLevel(m[k].items, n);
  }

  lemma NobodyHasNoLevel(n: string, configs: map<string, Item>)
    ensures StoreTally(map[], n, configs).level == NO_LEVEL
  {
    assert Tallies(map[], n, configs) == map[];
  }

  lemma UsedStep(m: Store, k: string, n: string, i: int, t: int)
    requires k in m && i == Used(m - {k}, n, MaxRequestsInflight) && t == Used(m - {k}, n, TokenBucket)
    ensures Used(m, n, MaxRequestsInflight) == UsedIn(m[k].statuses, n, MaxRequestsInflight) + i
    ensures Used(m, n, TokenBucket) == UsedIn(m[k].statuses, n, TokenBucket) + t
  {
    UsedTakenOut(m, k, n, MaxRequestsInflight);
    UsedTakenOut(m, k, n, TokenBucket);
  }

  /** And the levels of all conditions to the use of all clients. */
  lemma {:induction false} StoreLevel(m: Store, n: string, configs: map<string, Item>, f: int -> real, g: int -> real)
    returns (level: Option<real>, i: int, t: int)
    requires AllKindsKnown(m, configs) && n in configs && Shares(configs[n].limit, f, g)
    ensures level == StoreTally(m, n, configs).level
    ensures i == Used(m, n, MaxRequestsInflight) && t == Used(m, n, TokenBucket)
    ensures HasLevel(level, i, t, f, g)
    decreases |m|
  {
    if m == map[] {
      UsedByNobody(n, MaxRequestsInflight);
      UsedByNobody(n, TokenBucket);
      NobodyHasNoLevel(n, configs);
      level, i, t := NO_LEVEL, 0, 0;
    } else {
      var k :| k in m;
      var rest := m - {k};
      assert rest.Keys == m.Keys - {k};
      level, i, t := StoreLevel(rest, n, configs, f, g);
      LevelTakenOut(m, k, n, configs);
      UsedStep(m, k, n, i, t);
      level, i, t := OneMoreLevel(m[k].statuses, n, configs, f, g, level, i, t);
    }
  }

  lemma OneMoreLevel(statuses: seq<ItemStatus>, n: string, configs: map<string, Item>, f: int -> real, g: int -> real,
                     level: Option<real>, i: int, t: int) returns (level': Option<real>, i': int, t': int)
    requires KindsKnown(statuses, configs) && n in configs && Shares(configs[n].limit, f, g)
    requires HasLevel(level, i, t, f, g)
    ensures level' == PlusLevel(LevelTally(statuses, n, configs), level)
    ensures i' == UsedIn(statuses, n, MaxRequestsInflight) + i && t' == UsedIn(statuses, n, TokenBucket) + t
    ensures HasLevel(level', i', t', f, g)
  {
    ConditionLevel(statuses, n, configs, f, g);
    level' := PlusLevel(LevelTally(statuses, n, configs), level);
    i', t' := UsedIn(statuses, n, MaxRequestsInflight) + i, UsedIn(statuses, n, TokenBucket) + t;
    LevelsJoin(LevelTally(statuses, n, configs), level, UsedIn(statuses, n, MaxRequestsInflight),
               UsedIn(statuses, n, TokenBucket), i, t, f, g);
  }

  // ---------- the recorded level ----------

  /** Such a part of the total. */
  function Part(total: Option<int>): int -> real {
    used => if total.None? || total.value == 0 then 0.0 else used as real / total.value as real
  }

  lemma PartIsAdditive(total: Option<int>)
    ensures Additive(Part(total))
  {
    forall a, b ensures Adds(Part(total), a, b) {
      if total.Some? && total.value != 0 { QuotientAdds(a, b, total.value as real); }
    }
  }

  lemma QuotientAdds(a: int, b: int, t: real)
    requires t != 0.0
    ensures (a + b) as real / t == a as real / t + b as real / t
  {
  }

  function Rate(config: Limit): Option<int> { if config.bucket.Some? then Some(config.bucket.value.qps) else None }

  /** The configured totals are not zero. */
  predicate Divisible(config: Limit) { config.maxInflight != Some(0) && Rate(config) != Some(0) }

  lemma PartsAreShares(config: Limit)
    requires Divisible(config)
    ensures Shares(config, Part(config.maxInflight), Part(Rate(config)))
  {
    PartIsAdditive(config.maxInflight);
    PartIsAdditive(Rate(config));
  }

  /** The whole percent that the use is of the total. */
  predicate IsPercentOf(level: int, used: int, total: int) { level * total <= 100 * used < (level + 1) * total }

  lemma TruncatedPercent(used: int, total: int, level: int)
    requires total > 0 && used >= 0 && level == Trunc(used as real / total as real * 100.0)
    ensures IsPercentOf(level, used, total)
  {
    var y := used as real / total as real * 100.0;
    assert used as real / total as real * total as real == used as real;
    assert y * total as real == (100 * used) as real;
    Targets.BelowQuotient(100 * used, total, y, level);
    Targets.AboveQuotient(100 * used, total, y, level + 1);
  }

  /** The limit of a flow control is of one kind. */
  predicate OneKind(config: Limit, typ: FlowControlType) {
    match typ
    case MaxRequestsInflight => config.maxInflight.Some? && config.bucket.None?
    case TokenBucket => config.maxInflight.None? && config.bucket.Some?
    case Unknown => false
  }

  lemma PercentOfKind(level: Option<real>, inflight: int, tokens: int, config: Limit, typ: FlowControlType,
                      recorded: int)
    requires HasLevel(level, inflight, tokens, Part(config.maxInflight), Part(Rate(config)))
    requires OneKind(config, typ) && LimitQuota(config, typ) > 0 && recorded == Trunc(level.value * 100.0)
    ensures var used, total := if typ == TokenBucket then tokens else inflight, LimitQuota(config, typ);
            used >= 0 ==> IsPercentOf(recorded, used, total)
  {
    var used, total := if typ == TokenBucket then tokens else inflight, LimitQuota(config, typ);
    assert level.value == used as real / total as real;
    if used >= 0 { TruncatedPercent(used, total, recorded); }
  }

  lemma RecordedLevel(statuses: seq<ItemStatus>, clients: Store, configs: map<string, Item>, n: string)
    returns (level: Option<real>, recorded: int)
    requires Aggregates(statuses, clients, configs) && StoreTally(clients, n, configs).present
    ensures level == StoreTally(clients, n, configs).level && recorded == StatusFor(StatusMap(statuses), n).level
    ensures level.Some? ==> recorded == Trunc(level.value * 100.0)
  {
    AggregateIsUnique(statuses, clients, configs, n);
    level, recorded := StoreTally(clients, n, configs).level, StatusFor(StatusMap(statuses), n).level;
  }

  /** A flow control that some client holds is recorded with the clients' use as a percentage of its total. */
  lemma RecordedLevelIs(statuses: seq<ItemStatus>, clients: Store, configs: map<string, Item>, n: string,
                        typ: FlowControlType, used: int)
    requires Aggregates(statuses, clients, configs) && AllKindsKnown(clients, configs) && n in configs
    requires OneKind(configs[n].limit, typ) && LimitQuota(configs[n].limit, typ) > 0
    requires StoreTally(clients, n, configs).present && used == Used(clients, n, typ) >= 0
    ensures IsPercentOf(StatusFor(StatusMap(statuses), n).level, used, LimitQuota(configs[n].limit, typ))
  {
    var config := configs[n].limit;
    PartsAreShares(config);
    var level, i, t := StoreLevel(clients, n, configs, Part(config.maxInflight), Part(Rate(config)));
    var _, recorded := RecordedLevel(statuses, clients, configs, n);
    PercentOfKind(level, i, t, config, typ, recorded);
  }
}
