/** Safety and progress of the quota division over whole runs of the limit server. */
module QuotaSafety {
  import opened Wrappers
  import opened Allocation
  import opened Aggregation
  import opened QuotaServer
  import Levels
  import MapSums

  // ---------- what is stored and what is recorded ----------

  function QuotaIn(t: Tally, typ: FlowControlType): int { LimitQuota(t.limit, typ) }

  /** The quota of flow control n that a condition holds. */
  function Held(c: Condition, n: string, typ: FlowControlType): int { QuotaIn(ItemsTally(c.items, n), typ) }

  function HeldBy(s: Store, k: string, n: string, typ: FlowControlType): int {
    if k in s then Held(s[k], n, typ) else 0
  }

  /** The sum of the quotas of flow control n that the clients hold. */
  ghost function StoredSum(s: Store, stateName: string, n: string, typ: FlowControlType): int {
    QuotaIn(StoreTally(s - {stateName}, n, map[]), typ)
  }

  function TypeIn(state: Condition, n: string): FlowControlType {
    if n in ConfigMap(state.items) then TypeOf(ConfigMap(state.items)[n].limit) else Unknown
  }

  function TotalIn(state: Condition, n: string): int {
    if TypeIn(state, n) == Unknown then 0 else LimitQuota(ConfigMap(state.items)[n].limit, TypeIn(state, n))
  }

  function RecordedIn(state: Condition, n: string, typ: FlowControlType): int {
    LimitQuota(StatusFor(StatusMap(state.statuses), n).limit, typ)
  }

  function Recorded(s: Store, stateName: string, n: string, typ: FlowControlType): int {
    RecordedIn(StateOf(s, stateName), n, typ)
  }

  function TypeFor(s: Store, stateName: string, n: string): FlowControlType { TypeIn(StateOf(s, stateName), n) }

  function Total(s: Store, stateName: string, n: string): int { TotalIn(StateOf(s, stateName), n) }

  // ---------- sums of quotas ----------

  lemma QuotaPlus(a: Tally, b: Tally, typ: FlowControlType)
    requires typ != Unknown
    ensures QuotaIn(Plus(a, b), typ) == QuotaIn(a, typ) + QuotaIn(b, typ)
  {
  }

  lemma ConditionQuota(c: Condition, n: string, configs: map<string, Item>, typ: FlowControlType)
    ensures QuotaIn(ConditionTally(c, n, configs), typ) == Held(c, n, typ)
  {
  }

  /** Request levels do not matter for the handed-out limits. */
  lemma {:induction false} LimitsIgnoreConfigs(m: Store, n: string, configs: map<string, Item>)
    ensures StoreTally(m, n, configs).limit == StoreTally(m, n, map[]).limit
    ensures StoreTally(m, n, configs).present == StoreTally(m, n, map[]).present
    decreases |m|
  {
    if m == map[] {
      assert Tallies(m, n, configs) == Tallies(m, n, map[]);
    } else {
      var k :| k in m;
      assert (m - {k}).Keys == m.Keys - {k};
      LimitsIgnoreConfigs(m - {k}, n, configs);
      TakeOut(m, k, n, configs);
      TakeOut(m, k, n, map[]);
    }
  }

  lemma QuotaTakenOut(m: Store, k: string, n: string, typ: FlowControlType)
    requires k in m && typ != Unknown
    ensures QuotaIn(StoreTally(m, n, map[]), typ) == Held(m[k], n, typ) + QuotaIn(StoreTally(m - {k}, n, map[]), typ)
  {
    TakeOut(m, k, n, map[]);
    QuotaPlus(ConditionTally(m[k], n, map[]), StoreTally(m - {k}, n, map[]), typ);
    ConditionQuota(m[k], n, map[], typ);
  }

  /** What a client holds counts once in the sum. */
  lemma SumWithout(s: Store, stateName: string, k: string, n: string, typ: FlowControlType)
    requires k != stateName && typ != Unknown
    ensures StoredSum(s - {k}, stateName, n, typ) == StoredSum(s, stateName, n, typ) - HeldBy(s, k, n, typ)
  {
    var m := s - {stateName};
    assert s - {k} - {stateName} == m - {k};
    if k in s {
      QuotaTakenOut(m, k, n, typ);
    } else {
      assert m - {k} == m;
    }
  }

  lemma SumWith(s: Store, stateName: string, k: string, c: Condition, n: string, typ: FlowControlType)
    requires k != stateName && typ != Unknown
    ensures StoredSum(s[k := c], stateName, n, typ)
            == StoredSum(s, stateName, n, typ) - HeldBy(s, k, n, typ) + Held(c, n, typ)
  {
    SumWithout(s, stateName, k, n, typ);
    SumWithout(s[k := c], stateName, k, n, typ);
    assert s[k := c] - {k} == s - {k};
  }

  /** The quota that the items of a condition name for n, added up. */
  function NamedIn(items: seq<Item>, n: string, typ: FlowControlType): int {
    if items == [] then 0 else
      var last := items[|items| - 1];
      NamedIn(items[..|items| - 1], n, typ) + if last.name == n then Levels.Use(last.limit, typ) else 0
  }

  lemma {:induction false} HeldIsNamed(items: seq<Item>, n: string, typ: FlowControlType)
    requires typ != Unknown
    ensures QuotaIn(ItemsTally(items, n), typ) == NamedIn(items, n, typ)
  {
    if items != [] {
      var init, last := items[..|items| - 1], items[|items| - 1];
      HeldIsNamed(init, n, typ);
      QuotaPlus(ItemsTally(init, n),
                if last.name == n then Tally(true, Contribution(last.limit), NO_LEVEL) else ZERO, typ);
    }
  }

  function NamedBy(s: Store, stateName: string, n: string, typ: FlowControlType): map<string, int> {
    map k | k in s && k != stateName :: NamedIn(s[k].items, n, typ)
  }

  lemma NamedTakenOut(s: Store, stateName: string, k: string, n: string, typ: FlowControlType)
    requires k in s && k != stateName
    ensures MapSums.Sum(NamedBy(s, stateName, n, typ))
            == NamedIn(s[k].items, n, typ) + MapSums.Sum(NamedBy(s - {k}, stateName, n, typ))
  {
    MapSums.SumRemove(NamedBy(s, stateName, n, typ), k);
    assert NamedBy(s, stateName, n, typ) - {k} == NamedBy(s - {k}, stateName, n, typ);
  }

  lemma NobodyHolds(s: Store, stateName: string, n: string, typ: FlowControlType)
    requires typ != Unknown && s.Keys <= {stateName}
    ensures StoredSum(s, stateName, n, typ) == 0 && MapSums.Sum(NamedBy(s, stateName, n, typ)) == 0
  {
    assert s - {stateName} == map[];
    assert Tallies(map[], n, map[]) == map[];
    assert NamedBy(s, stateName, n, typ) == map[];
  }

  lemma HeldTakenOut(s: Store, stateName: string, k: string, n: string, typ: FlowControlType)
    requires k in s && k != stateName && typ != Unknown
    ensures StoredSum(s, stateName, n, typ) == NamedIn(s[k].items, n, typ) + StoredSum(s - {k}, stateName, n, typ)
  {
    SumWithout(s, stateName, k, n, typ);
    HeldIsNamed(s[k].items, n, typ);
  }

  /** The stored sum, in plain integers: over all clients and all their items for n. */
  lemma {:induction false} StoredSumIs(s: Store, stateName: string, n: string, typ: FlowControlType)
    requires typ != Unknown
    ensures StoredSum(s, stateName, n, typ) == MapSums.Sum(NamedBy(s, stateName, n, typ))
    decreases |s|
  {
    if s.Keys <= {stateName} {
      NobodyHolds(s, stateName, n, typ);
    } else {
      var k :| k in s && k != stateName;
      assert (s - {k}).Keys == s.Keys - {k};
      StoredSumIs(s - {k}, stateName, n, typ);
      HeldTakenOut(s, stateName, k, n, typ);
      NamedTakenOut(s, stateName, k, n, typ);
    }
  }

  // ---------- what one report does to one flow control ----------

  /** At most one item of the report names n; i is its position. */
  predicate OnlyItem(c: Condition, n: string, i: nat) {
    i < |c.items| && forall j :: 0 <= j < |c.items| ==> (c.items[j].name == n <==> j == i)
  }

  predicate NoItem(c: Condition, n: string) {
    forall j :: 0 <= j < |c.items| ==> c.items[j].name != n
  }

  lemma {:induction false} NoItemHoldsNothing(items: seq<Item>, inp: Inputs, n: string)
    requires AllComputable(items, inp) && UpdateItems(items, inp).Success?
    requires forall j :: 0 <= j < |items| ==> items[j].name != n
    ensures ItemsTally(UpdateItems(items, inp).value, n) == ZERO
  {
    if items != [] {
      NoItemHoldsNothing(items[..|items| - 1], inp, n);
      SnocTally(items, inp, n);
    }
  }

  /** The tally of the updated items, one item at a time. */
  lemma SnocTally(items: seq<Item>, inp: Inputs, n: string)
    requires items != [] && AllComputable(items, inp) && UpdateItems(items, inp).Success?
    ensures var init, item := UpdateItems(items[..|items| - 1], inp), items[|items| - 1];
            && init.Success?
            && ItemsTally(UpdateItems(items, inp).value, n)
               == if item.name in inp.configs && item.name == n
                  then Plus(ItemsTally(init.value, n),
                            Tally(true, Contribution(UpdatedItem(item, inp).limit), NO_LEVEL))
                  else ItemsTally(init.value, n)
  {
    var init, item := UpdateItems(items[..|items| - 1], inp), items[|items| - 1];
    if item.name in inp.configs {
      var all := init.value + [UpdatedItem(item, inp)];
      assert all[..|all| - 1] == init.value;
      PlusZero(ItemsTally(init.value, n));
    }
  }

  lemma PlusZero(t: Tally)
    ensures Plus(t, ZERO) == t && Plus(ZERO, t) == t
  {
  }

  lemma {:induction false} OnlyItemIsHeld(items: seq<Item>, inp: Inputs, n: string, i: nat)
    requires AllComputable(items, inp) && UpdateItems(items, inp).Success?
    requires i < |items| && forall j :: 0 <= j < |items| ==> (items[j].name == n <==> j == i)
    requires n in inp.configs
    ensures !Mismatch(items[i], inp.configs[n])
    ensures ItemsTally(UpdateItems(items, inp).value, n)
            == Tally(true, Contribution(UpdatedItem(items[i], inp).limit), NO_LEVEL)
  {
    SnocTally(items, inp, n);
    if i == |items| - 1 {
      NoItemHoldsNothing(items[..i], inp, n);
      PlusZero(Tally(true, Contribution(UpdatedItem(items[i], inp).limit), NO_LEVEL));
    } else {
      OnlyItemIsHeld(items[..|items| - 1], inp, n, i);
    }
  }

  /** What the controller reads when the client reports item i. */
  function ReadingFor(state: Condition, c: Condition, clients: nat, i: nat): Reading
    requires i < |c.items| && c.items[i].name in ConfigMap(state.items)
  {
    var n := c.items[i].name;
    ReadingOf(ConfigMap(state.items)[n], StatusFor(StatusMap(state.statuses), n), c.items[i],
              StatusFor(StatusMap(c.statuses), n), clients)
  }

  /** What an item of a report holds after the update. */
  lemma ItemHolds(item: Item, inp: Inputs, typ: FlowControlType)
    requires item.name in inp.configs && ItemComputable(item, inp) && !Mismatch(item, inp.configs[item.name])
    requires item.strategy != GlobalCountLimit && typ == TypeOf(inp.configs[item.name].limit) != Unknown
    ensures var n := item.name;
            var r := ReadingOf(inp.configs[n], StatusFor(inp.recorded, n), item, StatusFor(inp.reported, n),
                               inp.clients);
            r.Valid() && LimitQuota(Contribution(UpdatedItem(item, inp).limit), typ) == r.Next()
  {
  }

  /** A report with one item for n stores exactly the controller's next quota for it. */
  lemma SavedStoresNext(state: Condition, s: Store, stateName: string, c: Condition, clients: nat, saved: Store,
                        n: string, i: nat)
    requires SavedFrom(state, s, stateName, c, clients, saved)
    requires OnlyItem(c, n, i) && c.items[i].strategy != GlobalCountLimit
    requires TypeIn(state, n) != Unknown
    ensures var r := ReadingFor(state, c, clients, i);
            r.Valid() && HeldBy(saved, c.name, n, TypeIn(state, n)) == r.Next()
  {
    var inp := InputsOf(state, c, clients);
    OnlyItemIsHeld(c.items, inp, n, i);
    assert ItemComputable(c.items[i], inp);
    ItemHolds(c.items[i], inp, TypeIn(state, n));
  }

  /** Storing a client's items changes the sum by what this client gained. */
  lemma SavedChangesSum(state: Condition, s: Store, stateName: string, c: Condition, clients: nat, saved: Store,
                        n: string, typ: FlowControlType)
    requires SavedFrom(state, s, stateName, c, clients, saved) && typ != Unknown
    ensures StoredSum(saved, stateName, n, typ)
            == StoredSum(s, stateName, n, typ) - HeldBy(s, c.name, n, typ) + HeldBy(saved, c.name, n, typ)
  {
    SumWith(s, stateName, c.name, saved[c.name], n, typ);
  }

  /** After the totals were recorded, they are the true sum, and what the clients hold did not change. */
  lemma RecordingIsExact(state: Condition, saved: Store, stateName: string, s': Store, n: string, typ: FlowControlType)
    requires RecordedFrom(state, saved, stateName, s') && typ != Unknown
    ensures Recorded(s', stateName, n, typ) == StoredSum(s', stateName, n, typ) == StoredSum(saved, stateName, n, typ)
    ensures forall k :: k != stateName ==> HeldBy(s', k, n, typ) == HeldBy(saved, k, n, typ)
  {
    assert saved - {stateName} == s' - {stateName};
    RecordedIsSum(s', stateName, ConfigMap(state.items), n, typ);
  }

  lemma RecordedIsSum(s': Store, stateName: string, configs: map<string, Item>, n: string, typ: FlowControlType)
    requires stateName in s' && typ != Unknown
    requires Aggregates(s'[stateName].statuses, s' - {stateName}, configs)
    ensures Recorded(s', stateName, n, typ) == StoredSum(s', stateName, n, typ)
  {
    var m := s' - {stateName};
    AggregateIsUnique(s'[stateName].statuses, m, configs, n);
    LimitsIgnoreConfigs(m, n, configs);
    AbsentHoldsNothing(m, n);
  }

  lemma {:induction false} AbsentItemsHoldNothing(items: seq<Item>, n: string)
    ensures !ItemsTally(items, n).present ==> ItemsTally(items, n) == ZERO
  {
    if items != [] {
      AbsentItemsHoldNothing(items[..|items| - 1], n);
    }
  }

  lemma {:induction false} AbsentHoldsNothing(m: Store, n: string)
    ensures !StoreTally(m, n, map[]).present ==> StoreTally(m, n, map[]).limit == NO_LIMIT
    decreases |m|
  {
    if m != map[] {
      var k :| k in m;
      assert (m - {k}).Keys == m.Keys - {k};
      AbsentHoldsNothing(m - {k}, n);
      TakeOut(m, k, n, map[]);
      AbsentItemsHoldNothing(m[k].items, n);
    }
  }

  /** An accepted report in one step: what it stores, and what it records. */
  lemma ReportStoresNext(state: Condition, s: Store, stateName: string, c: Condition, clients: nat, s': Store,
                         n: string, i: nat)
    requires UpdatedFrom(state, s, stateName, c, clients, s')
    requires OnlyItem(c, n, i) && c.items[i].strategy != GlobalCountLimit
    requires TypeIn(state, n) != Unknown
    ensures var r := ReadingFor(state, c, clients, i);
            r.Valid() && HeldBy(s', c.name, n, TypeIn(state, n)) == r.Next()
  {
    var saved :| SavedFrom(state, s, stateName, c, clients, saved) && RecordedFrom(state, saved, stateName, s');
    SavedStoresNext(state, s, stateName, c, clients, saved, n, i);
    RecordingIsExact(state, saved, stateName, s', n, TypeIn(state, n));
  }

  /** After an accepted report the recorded total is the true sum, and only this client's share of it changed. */
  lemma ReportRecordsSum(state: Condition, s: Store, stateName: string, c: Condition, clients: nat, s': Store,
                         n: string, typ: FlowControlType)
    requires UpdatedFrom(state, s, stateName, c, clients, s') && typ != Unknown
    ensures Recorded(s', stateName, n, typ) == StoredSum(s', stateName, n, typ)
    ensures StoredSum(s', stateName, n, typ)
            == StoredSum(s, stateName, n, typ) - HeldBy(s, c.name, n, typ) + HeldBy(s', c.name, n, typ)
  {
    var saved :| SavedFrom(state, s, stateName, c, clients, saved) && RecordedFrom(state, saved, stateName, s');
    SavedChangesSum(state, s, stateName, c, clients, saved, n, typ);
    RecordingIsExact(state, saved, stateName, s', n, typ);
  }

  // ---------- reports that claim anything, any number of times ----------

  function Claims(items: seq<Item>, n: string, typ: FlowControlType): int {
    if items == [] then 0 else
      var last := items[|items| - 1];
      Claims(items[..|items| - 1], n, typ) + if last.name == n then LimitQuota(last.limit, typ) else 0
  }

  function Count(items: seq<Item>, n: string): nat {
    if items == [] then 0 else
      Count(items[..|items| - 1], n) + if items[|items| - 1].name == n then 1 else 0
  }

  predicate NoneCounted(items: seq<Item>, n: string) {
    forall j :: 0 <= j < |items| && items[j].name == n ==> items[j].strategy != GlobalCountLimit
  }

  function RemainingFor(inp: Inputs, n: string): int
    requires n in inp.configs
  {
    var typ := TypeOf(inp.configs[n].limit);
    LimitQuota(inp.configs[n].limit, typ) - LimitQuota(StatusFor(inp.recorded, n).limit, typ)
  }

  /** What the controller reads for an item that claims so much of n. */
  function ReadingAt(inp: Inputs, n: string, claim: int): Reading
    requires n in inp.configs
  {
    var typ, recorded, reported := TypeOf(inp.configs[n].limit), StatusFor(inp.recorded, n), StatusFor(inp.reported, n);
    Reading(LimitQuota(inp.configs[n].limit, typ), LimitQuota(recorded.limit, typ), recorded.level,
            claim, LimitQuota(reported.limit, typ), reported.level, inp.clients)
  }

  /** What one more item adds to what the report holds: the controller's next quota for its claim. */
  lemma HeldSnoc(items: seq<Item>, inp: Inputs, n: string, typ: FlowControlType)
    requires items != [] && AllComputable(items, inp) && UpdateItems(items, inp).Success? && NoneCounted(items, n)
    requires n in inp.configs && typ == TypeOf(inp.configs[n].limit) != Unknown
    ensures var init, item := items[..|items| - 1], items[|items| - 1];
            var r := ReadingAt(inp, n, LimitQuota(item.limit, typ));
            && UpdateItems(init, inp).Success? && (item.name == n ==> r.Valid())
            && QuotaIn(ItemsTally(UpdateItems(items, inp).value, n), typ)
               == QuotaIn(ItemsTally(UpdateItems(init, inp).value, n), typ) + if item.name == n then r.Next() else 0
  {
    var init, item := items[..|items| - 1], items[|items| - 1];
    SnocTally(items, inp, n);
    if item.name == n {
      assert ItemComputable(item, inp);
      ItemHolds(item, inp, typ);
      QuotaPlus(ItemsTally(UpdateItems(init, inp).value, n),
                Tally(true, Contribution(UpdatedItem(item, inp).limit), NO_LEVEL), typ);
    }
  }

  /** The most that the items for n can be given when each may take all that remains. */
  function Allowance(items: seq<Item>, n: string, typ: FlowControlType, rest: int): int {
    if items == [] then 0 else
      var last := items[|items| - 1];
      Allowance(items[..|items| - 1], n, typ, rest) + if last.name == n then LimitQuota(last.limit, typ) + rest else 0
  }

  lemma {:induction false} AllowanceIs(items: seq<Item>, n: string, typ: FlowControlType, rest: int)
    ensures Allowance(items, n, typ, rest) == Claims(items, n, typ) + Count(items, n) * rest
  {
    if items != [] {
      AllowanceIs(items[..|items| - 1], n, typ, rest);
      assert (Count(items[..|items| - 1], n) + 1) * rest == Count(items[..|items| - 1], n) * rest + rest;
    }
  }

  /** Every item for n gets at most its claim plus all that remains. */
  lemma {:induction false} HeldIsBounded(items: seq<Item>, inp: Inputs, n: string, typ: FlowControlType)
    requires AllComputable(items, inp) && UpdateItems(items, inp).Success? && NoneCounted(items, n)
    requires n in inp.configs && typ == TypeOf(inp.configs[n].limit) != Unknown
    ensures QuotaIn(ItemsTally(UpdateItems(items, inp).value, n), typ) <= Allowance(items, n, typ, RemainingFor(inp, n))
  {
    if items != [] {
      HeldSnoc(items, inp, n, typ);
      HeldIsBounded(items[..|items| - 1], inp, n, typ);
      var r := ReadingAt(inp, n, LimitQuota(items[|items| - 1].limit, typ));
      if items[|items| - 1].name == n { NextIsBounded(r); }
    }
  }

  lemma SavedIsBounded(state: Condition, s: Store, stateName: string, c: Condition, clients: nat, saved: Store,
                       n: string)
    requires SavedFrom(state, s, stateName, c, clients, saved)
    requires NoneCounted(c.items, n) && TypeIn(state, n) != Unknown
    ensures var typ := TypeIn(state, n);
            HeldBy(saved, c.name, n, typ)
            <= Claims(c.items, n, typ) + Count(c.items, n) * (TotalIn(state, n) - RecordedIn(state, n, typ))
  {
    var inp := InputsOf(state, c, clients);
    HeldIsBounded(c.items, inp, n, TypeIn(state, n));
    AllowanceIs(c.items, n, TypeIn(state, n), RemainingFor(inp, n));
    assert RemainingFor(inp, n) == TotalIn(state, n) - RecordedIn(state, n, TypeIn(state, n));
  }

  /**
   * Whatever a client claims to hold, however often it lists the flow control and however old the state it
   * was computed from, the sum grows by at most the false part of the claims and what remained in that state,
   * once per listing.
   */
  lemma ReportOvershoot(state: Condition, s: Store, stateName: string, c: Condition, clients: nat, s': Store,
                        n: string)
    requires UpdatedFrom(state, s, stateName, c, clients, s')
    requires NoneCounted(c.items, n) && TypeIn(state, n) != Unknown
    ensures var typ := TypeIn(state, n);
            StoredSum(s', stateName, n, typ)
            <= StoredSum(s, stateName, n, typ)
               + (Claims(c.items, n, typ) - HeldBy(s, c.name, n, typ))
               + Count(c.items, n) * (TotalIn(state, n) - RecordedIn(state, n, typ))
  {
    var typ := TypeIn(state, n);
    var saved :| SavedFrom(state, s, stateName, c, clients, saved) && RecordedFrom(state, saved, stateName, s');
    SavedChangesSum(state, s, stateName, c, clients, saved, n, typ);
    RecordingIsExact(state, saved, stateName, s', n, typ);
    SavedIsBounded(state, s, stateName, c, clients, saved, n);
  }

  /** Every item for n claims the same. */
  predicate EqualClaims(items: seq<Item>, n: string, typ: FlowControlType, claim: int) {
    forall j :: 0 <= j < |items| && items[j].name == n ==> LimitQuota(items[j].limit, typ) == claim
  }

  /** So many entries that read the same hold so much. */
  ghost predicate HeldAlike(held: int, count: nat, r: Reading) {
    if count == 0 then held == 0 else r.Valid() && held == count * r.Next()
  }

  lemma OneMoreAlike(held: int, count: nat, r: Reading, q: int)
    requires HeldAlike(held, count, r) && r.Valid() && q == r.Next()
    ensures HeldAlike(held + q, count + 1, r)
  {
    assert (count + 1) * q == count * q + q;
  }

  /** Then every one of them is given the same. */
  lemma {:induction false} EqualClaimsHold(items: seq<Item>, inp: Inputs, n: string, typ: FlowControlType, claim: int)
    requires AllComputable(items, inp) && UpdateItems(items, inp).Success? && NoneCounted(items, n)
    requires n in inp.configs && typ == TypeOf(inp.configs[n].limit) != Unknown
    requires EqualClaims(items, n, typ, claim)
    ensures HeldAlike(QuotaIn(ItemsTally(UpdateItems(items, inp).value, n), typ), Count(items, n),
                      ReadingAt(inp, n, claim))
  {
    if items != [] {
      var init, r := items[..|items| - 1], ReadingAt(inp, n, claim);
      HeldSnoc(items, inp, n, typ);
      EqualClaimsHold(init, inp, n, typ, claim);
      if items[|items| - 1].name == n {
        OneMoreAlike(QuotaIn(ItemsTally(UpdateItems(init, inp).value, n), typ), Count(init, n), r, r.Next());
      }
    }
  }

  /**
   * A report that lists a flow control several times is given the controller's next quota for every entry, and
   * keeps the total exactly when all of them together fit what the other clients leave.
   */
  lemma RepeatedItemsFitIff(state: Condition, s: Store, stateName: string, c: Condition, clients: nat, saved: Store,
                            n: string, claim: int)
    requires SavedFrom(state, s, stateName, c, clients, saved)
    requires NoneCounted(c.items, n) && TypeIn(state, n) != Unknown
    requires Count(c.items, n) > 0 && EqualClaims(c.items, n, TypeIn(state, n), claim)
    ensures var typ, r := TypeIn(state, n), ReadingAt(InputsOf(state, c, clients), n, claim);
            && r.Valid() && HeldBy(saved, c.name, n, typ) == Count(c.items, n) * r.Next()
            && (StoredSum(saved, stateName, n, typ) <= TotalIn(state, n) <==>
                Count(c.items, n) * r.Next()
                <= TotalIn(state, n) - (StoredSum(s, stateName, n, typ) - HeldBy(s, c.name, n, typ)))
  {
    var typ := TypeIn(state, n);
    SavedChangesSum(state, s, stateName, c, clients, saved, n, typ);
    EqualClaimsHold(c.items, InputsOf(state, c, clients), n, typ, claim);
  }

  lemma MoreListings(count: nat, few: nat, q: int, rest: int)
    requires count > few && q >= 1 && rest <= few * q
    ensures count * q > rest
  {
    var more := count - few;
    AtLeastOnce(more, q);
    assert (few + more) * q == few * q + more * q;
  }

  /** A newcomer among few clients exceeds the total with 21 entries, and among many with more than there are. */
  lemma ManyListingsExceed(state: Condition, s: Store, stateName: string, c: Condition, clients: nat, saved: Store,
                           n: string)
    requires SavedFrom(state, s, stateName, c, clients, saved)
    requires NoneCounted(c.items, n) && TypeIn(state, n) != Unknown && TotalIn(state, n) > 0
    requires EqualClaims(c.items, n, TypeIn(state, n), 0) && HeldBy(s, c.name, n, TypeIn(state, n)) == 0
    requires RecordedIn(state, n, TypeIn(state, n)) < TotalIn(state, n)
    requires StoredSum(s, stateName, n, TypeIn(state, n)) >= RecordedIn(state, n, TypeIn(state, n))
    requires Count(c.items, n) > if clients <= 10 then 20 else clients
    ensures StoredSum(saved, stateName, n, TypeIn(state, n)) > TotalIn(state, n)
  {
    RepeatedItemsFitIff(state, s, stateName, c, clients, saved, n, 0);
    var r := ReadingAt(InputsOf(state, c, clients), n, 0);
    JoinsTakeAShare(r);
    NextIsBounded(r);
    MoreListings(Count(c.items, n), if clients <= 10 then 20 else clients, r.Next(), r.Remaining());
  }

  // ---------- runs ----------

  datatype Step =
    | Report(c: Condition, clients: nat)
    | CleanUp(name: string)
    | Sync(schemas: seq<Schema>)

  /** A report is recorded, is refused, or crashes half-way. */
  ghost predicate Next(s: Store, stateName: string, step: Step, s': Store) {
    match step
    case Report(c, clients) =>
      || Updated(s, stateName, c, clients, s') || s' == s
      || (stateName in s && CrashedFrom(s[stateName], s, stateName, c, clients, s'))
    case CleanUp(name) => name != stateName && CleanedUp(s, name, s')
    case Sync(schemas) => Synced(s, stateName, schemas, s')
  }

  /** The clients hold no more than is recorded. */
  ghost predicate Bounded(s: Store, stateName: string, n: string) {
    var typ := TypeFor(s, stateName, n);
    && stateName in s && typ != Unknown
    && StoredSum(s, stateName, n, typ) <= Recorded(s, stateName, n, typ)
  }

  /** And no more than the total is recorded. */
  ghost predicate Settled(s: Store, stateName: string, n: string) {
    Bounded(s, stateName, n) && Recorded(s, stateName, n, TypeFor(s, stateName, n)) <= Total(s, stateName, n)
  }

  /** And no client holds a negative quota. */
  ghost predicate Inv(s: Store, stateName: string, n: string) {
    && Settled(s, stateName, n)
    && forall k :: k in s && k != stateName ==> Held(s[k], n, TypeFor(s, stateName, n)) >= 0
  }

  /** The report lists n once and says what the server stored last, asking for a division of the quota. */
  ghost predicate ReportsStored(s: Store, stateName: string, c: Condition, n: string) {
    exists i: nat :: OnlyItem(c, n, i) && c.items[i].strategy != GlobalCountLimit
                     && LimitQuota(c.items[i].limit, TypeFor(s, stateName, n))
                        == HeldBy(s, c.name, n, TypeFor(s, stateName, n))
  }

  ghost predicate Honest(s: Store, stateName: string, c: Condition, n: string) {
    NoItem(c, n) || ReportsStored(s, stateName, c, n)
  }

  /** The report does not make the server crash. */
  predicate Clean(s: Store, stateName: string, c: Condition, clients: nat, s': Store) {
    stateName in s ==> !CrashedFrom(s[stateName], s, stateName, c, clients, s')
  }

  /** The assumptions on a step: honest and clean reports, and no schema update below what is already recorded. */
  ghost predicate Fair(s: Store, stateName: string, n: string, step: Step, s': Store) {
    match step
    case Report(c, clients) => Honest(s, stateName, c, n) && Clean(s, stateName, c, clients, s')
    case CleanUp(_) => true
    case Sync(_) =>
      && TypeFor(s', stateName, n) == TypeFor(s, stateName, n)
      && Recorded(s, stateName, n, TypeFor(s, stateName, n)) <= Total(s', stateName, n)
  }

  /** A report of the stored quota brings the sum within the total, also when the total was cut before. */
  lemma ReportSettles(s: Store, stateName: string, c: Condition, clients: nat, s': Store, n: string)
    requires Bounded(s, stateName, n) && ReportsStored(s, stateName, c, n)
    requires Updated(s, stateName, c, clients, s')
    ensures Settled(s', stateName, n) && TypeFor(s', stateName, n) == TypeFor(s, stateName, n)
  {
    var typ := TypeFor(s, stateName, n);
    var i: nat :| OnlyItem(c, n, i) && c.items[i].strategy != GlobalCountLimit
                  && LimitQuota(c.items[i].limit, typ) == HeldBy(s, c.name, n, typ);
    ReportStoresNext(s[stateName], s, stateName, c, clients, s', n, i);
    ReportRecordsSum(s[stateName], s, stateName, c, clients, s', n, typ);
    NextIsBounded(ReadingFor(s[stateName], c, clients, i));
  }

  /** A report without the flow control gives up what the client holds of it. */
  lemma EmptyReportGivesUp(s: Store, stateName: string, c: Condition, clients: nat, s': Store, n: string)
    requires Bounded(s, stateName, n) && NoItem(c, n) && Updated(s, stateName, c, clients, s')
    ensures Bounded(s', stateName, n) && TypeFor(s', stateName, n) == TypeFor(s, stateName, n)
    ensures HeldBy(s', c.name, n, TypeFor(s, stateName, n)) == 0
    ensures Settled(s, stateName, n) && HeldBy(s, c.name, n, TypeFor(s, stateName, n)) >= 0 ==>
              Settled(s', stateName, n)
  {
    var typ := TypeFor(s, stateName, n);
    ReportRecordsSum(s[stateName], s, stateName, c, clients, s', n, typ);
    NoItemHoldsNothing(c.items, InputsOf(s[stateName], c, clients), n);
    assert HeldBy(s', c.name, n, typ) == 0;
  }

  /** Deleting a client keeps the bound exactly when its quota is not more negative than what is recorded in excess. */
  lemma CleanUpKeepsBoundIff(s: Store, stateName: string, name: string, s': Store, n: string)
    requires Bounded(s, stateName, n) && name != stateName && CleanedUp(s, name, s')
    requires name in s && s[name].instance != ""
    ensures var typ := TypeFor(s, stateName, n);
            Bounded(s', stateName, n)
            <==> HeldBy(s, name, n, typ) >= StoredSum(s, stateName, n, typ) - Recorded(s, stateName, n, typ)
    ensures Bounded(s', stateName, n) && Settled(s, stateName, n) ==> Settled(s', stateName, n)
  {
    SumWithout(s, stateName, name, n, TypeFor(s, stateName, n));
  }

  lemma ReportKeepsInv(s: Store, stateName: string, c: Condition, clients: nat, s': Store, n: string)
    requires Inv(s, stateName, n) && Honest(s, stateName, c, n)
    requires Updated(s, stateName, c, clients, s')
    ensures Inv(s', stateName, n)
  {
    var typ := TypeFor(s, stateName, n);
    assert HeldBy(s, c.name, n, typ) >= 0;
    if ReportsStored(s, stateName, c, n) {
      ReportSettles(s, stateName, c, clients, s', n);
      ReportedIsNonNegative(s, stateName, c, clients, s', n);
    } else {
      EmptyReportGivesUp(s, stateName, c, clients, s', n);
    }
    OthersStay(s, stateName, c, clients, s');
    forall k | k in s' && k != stateName ensures Held(s'[k], n, typ) >= 0 {
      assert HeldBy(s', k, n, typ) == Held(s'[k], n, typ);
      if k != c.name { assert Held(s[k], n, typ) >= 0; }
    }
  }

  lemma OthersStay(s: Store, stateName: string, c: Condition, clients: nat, s': Store)
    requires Updated(s, stateName, c, clients, s')
    ensures forall k :: k != stateName && k != c.name ==> (k in s' <==> k in s) && (k in s ==> s'[k] == s[k])
  {
  }

  lemma ReportedIsNonNegative(s: Store, stateName: string, c: Condition, clients: nat, s': Store, n: string)
    requires Settled(s, stateName, n) && ReportsStored(s, stateName, c, n)
    requires HeldBy(s, c.name, n, TypeFor(s, stateName, n)) >= 0 && Updated(s, stateName, c, clients, s')
    ensures HeldBy(s', c.name, n, TypeFor(s, stateName, n)) >= 0
  {
    var typ := TypeFor(s, stateName, n);
    var i: nat :| OnlyItem(c, n, i) && c.items[i].strategy != GlobalCountLimit
                  && LimitQuota(c.items[i].limit, typ) == HeldBy(s, c.name, n, typ);
    ReportStoresNext(s[stateName], s, stateName, c, clients, s', n, i);
    NextIsBounded(ReadingFor(s[stateName], c, clients, i));
  }

  lemma CleanUpKeepsInv(s: Store, stateName: string, name: string, s': Store, n: string)
    requires Inv(s, stateName, n) && name != stateName && CleanedUp(s, name, s')
    ensures Inv(s', stateName, n)
  {
    if name in s && s[name].instance != "" {
      assert Held(s[name], n, TypeFor(s, stateName, n)) >= 0;
      CleanUpKeepsBoundIff(s, stateName, name, s', n);
    }
  }

  lemma {:induction false} StatusMapNames(statuses: seq<ItemStatus>, n: string)
    requires n in StatusMap(statuses)
    ensures StatusMap(statuses)[n].name == n
  {
    var last := |statuses| - 1;
    if statuses[last].name != n {
      StatusMapNames(statuses[..last], n);
    }
  }

  lemma {:induction false} SyncKeepsRecorded(s: Store, stateName: string, schemas: seq<Schema>, s': Store,
                                             n: string, typ: FlowControlType, k: nat)
    requires Synced(s, stateName, schemas, s') && k <= |schemas|
    requires typ != Unknown && n in ConfigMap(s'[stateName].items[..k])
    ensures LimitQuota(StatusFor(StatusMap(s'[stateName].statuses[..k]), n).limit, typ) ==
            Recorded(s, stateName, n, typ)
  {
    var items, statuses := s'[stateName].items, s'[stateName].statuses;
    var recorded := StatusMap(StateOf(s, stateName).statuses);
    assert items[..k][..k - 1] == items[..k - 1] && statuses[..k][..k - 1] == statuses[..k - 1];
    var name := schemas[k - 1].name;
    assert items[k - 1].name == name;
    assert statuses[k - 1].name == name by {
      if name in recorded { StatusMapNames(StateOf(s, stateName).statuses, name); }
    }
    if name != n {
      SyncKeepsRecorded(s, stateName, schemas, s', n, typ, k - 1);
    }
  }

  lemma SyncKeepsSums(s: Store, stateName: string, schemas: seq<Schema>, s': Store, n: string, typ: FlowControlType)
    requires Synced(s, stateName, schemas, s') && TypeFor(s', stateName, n) == typ != Unknown
    ensures StoredSum(s', stateName, n, typ) == StoredSum(s, stateName, n, typ)
    ensures Recorded(s', stateName, n, typ) == Recorded(s, stateName, n, typ)
  {
    assert s'[stateName].items[..|schemas|] == s'[stateName].items;
    SyncKeepsRecorded(s, stateName, schemas, s', n, typ, |schemas|);
    assert s'[stateName].statuses[..|schemas|] == s'[stateName].statuses;
    assert s' - {stateName} == s - {stateName};
  }

  /** A schema update keeps what is stored and recorded, and so stays within the total iff the new total allows it. */
  lemma SyncKeepsBound(s: Store, stateName: string, schemas: seq<Schema>, s': Store, n: string)
    requires Bounded(s, stateName, n) && Synced(s, stateName, schemas, s')
    requires TypeFor(s', stateName, n) == TypeFor(s, stateName, n)
    ensures Bounded(s', stateName, n)
    ensures Settled(s', stateName, n) <==>
            Recorded(s, stateName, n, TypeFor(s, stateName, n)) <= Total(s', stateName, n)
  {
    SyncKeepsSums(s, stateName, schemas, s', n, TypeFor(s, stateName, n));
  }

  lemma SyncKeepsInv(s: Store, stateName: string, schemas: seq<Schema>, s': Store, n: string)
    requires Inv(s, stateName, n) && Synced(s, stateName, schemas, s')
    requires Fair(s, stateName, n, Sync(schemas), s')
    ensures Inv(s', stateName, n)
  {
    SyncKeepsBound(s, stateName, schemas, s', n);
    forall k | k in s' && k != stateName ensures Held(s'[k], n, TypeFor(s', stateName, n)) >= 0 {
      assert k in s && s'[k] == s[k];
    }
  }

  /** In every state of every run, the quotas the clients hold add up to no more than the configured total. */
  lemma QuotaSafety(stores: seq<Store>, steps: seq<Step>, stateName: string, n: string, k: nat)
    requires |stores| == |steps| + 1 && k <= |steps|
    requires Inv(stores[0], stateName, n)
    requires forall i :: 0 <= i < |steps| ==>
               && Next(stores[i], stateName, steps[i], stores[i + 1])
               && Fair(stores[i], stateName, n, steps[i], stores[i + 1])
    ensures Inv(stores[k], stateName, n)
    ensures StoredSum(stores[k], stateName, n, TypeFor(stores[k], stateName, n)) <= Total(stores[k], stateName, n)
  {
    for j := 0 to k
      invariant Inv(stores[j], stateName, n)
    {
      var s, s' := stores[j], stores[j + 1];
      assert Next(s, stateName, steps[j], s') && Fair(s, stateName, n, steps[j], s');
      match steps[j]
      case Report(c, clients) =>
        if s' != s { ReportKeepsInv(s, stateName, c, clients, s', n); }
      case CleanUp(name) => CleanUpKeepsInv(s, stateName, name, s', n);
      case Sync(schemas) => SyncKeepsInv(s, stateName, schemas, s', n);
    }
  }

  /** A run may start with the first schema of a new upstream. */
  lemma FirstSyncEstablishesInv(stateName: string, schemas: seq<Schema>, s: Store, n: string)
    requires Synced(map[], stateName, schemas, s)
    requires TypeFor(s, stateName, n) != Unknown && Total(s, stateName, n) >= 0
    ensures Inv(s, stateName, n)
  {
    assert s[stateName].items[..|schemas|] == s[stateName].items;
    SyncKeepsRecorded(map[], stateName, schemas, s, n, TypeFor(s, stateName, n), |schemas|);
    assert s[stateName].statuses[..|schemas|] == s[stateName].statuses;
    assert s - {stateName} == map[];
    assert Tallies(map[], n, map[]) == map[];
  }

  // ---------- progress ----------

  /** The client uses all of its quota and reports what the server stored for it. */
  ghost predicate Saturated(s: Store, stateName: string, c: Condition, clients: nat, n: string) {
    exists i: nat ::
      && OnlyItem(c, n, i) && c.items[i].strategy != GlobalCountLimit
      && n in ConfigMap(StateOf(s, stateName).items)
      && var r := ReadingFor(StateOf(s, stateName), c, clients, i);
      && r.current == HeldBy(s, c.name, n, TypeFor(s, stateName, n)) >= 1
      && r.used >= r.current && r.level >= 100
  }

  lemma SaturatedReport(s: Store, stateName: string, c: Condition, clients: nat, s': Store, n: string)
    requires Inv(s, stateName, n)
    requires var typ := TypeFor(s, stateName, n);
             Recorded(s, stateName, n, typ) == StoredSum(s, stateName, n, typ)
    requires Saturated(s, stateName, c, clients, n) && Updated(s, stateName, c, clients, s')
    ensures Inv(s', stateName, n) && TypeFor(s', stateName, n) == TypeFor(s, stateName, n)
    ensures var typ := TypeFor(s, stateName, n);
            var remaining, remaining' := Total(s, stateName, n) - Recorded(s, stateName, n, typ),
                                         Total(s', stateName, n) - Recorded(s', stateName, n, typ);
            && Recorded(s', stateName, n, typ) == StoredSum(s', stateName, n, typ)
            && HeldBy(s', c.name, n, typ) - HeldBy(s, c.name, n, typ) == remaining - remaining'
            && 0 <= remaining' <= if remaining >= 1 then remaining - 1 else 0
  {
    var typ := TypeFor(s, stateName, n);
    var i: nat :| && OnlyItem(c, n, i) && c.items[i].strategy != GlobalCountLimit
                  && n in ConfigMap(StateOf(s, stateName).items)
                  && var r := ReadingFor(StateOf(s, stateName), c, clients, i);
                  && r.current == HeldBy(s, c.name, n, typ) >= 1
                  && r.used >= r.current && r.level >= 100;
    assert ReportsStored(s, stateName, c, n);
    ReportKeepsInv(s, stateName, c, clients, s', n);
    ReportStoresNext(s[stateName], s, stateName, c, clients, s', n, i);
    ReportRecordsSum(s[stateName], s, stateName, c, clients, s', n, typ);
    SaturatedClientGains(ReadingFor(s[stateName], c, clients, i));
  }

  /** The client took over all of what remained except for at most remaining - k units. */
  ghost predicate Absorbed(first: Store, last: Store, stateName: string, name: string, n: string, k: nat) {
    var typ := TypeFor(first, stateName, n);
    && Inv(last, stateName, n)
    && TypeFor(last, stateName, n) == typ && Total(last, stateName, n) == Total(first, stateName, n)
    && Recorded(last, stateName, n, typ) == StoredSum(last, stateName, n, typ)
    && var remaining, remaining' := Total(first, stateName, n) - Recorded(first, stateName, n, typ),
                                    Total(last, stateName, n) - Recorded(last, stateName, n, typ);
    && HeldBy(last, name, n, typ) - HeldBy(first, name, n, typ) == remaining - remaining'
    && 0 <= remaining' <= if remaining >= k then remaining - k else 0
  }

  /**
   * A client that stays saturated while nobody else reports takes over all that remains in as many
   * updates as units remain, and then keeps it.
   */
  lemma SaturatedClientAbsorbs(stores: seq<Store>, reports: seq<(Condition, nat)>,
                                                  stateName: string, name: string, n: string, k: nat)
    requires |stores| == |reports| + 1 && k <= |reports|
    requires Inv(stores[0], stateName, n)
    requires var typ := TypeFor(stores[0], stateName, n);
             Recorded(stores[0], stateName, n, typ) == StoredSum(stores[0], stateName, n, typ)
    requires forall i :: 0 <= i < |reports| ==>
               && reports[i].0.name == name
               && Saturated(stores[i], stateName, reports[i].0, reports[i].1, n)
               && Updated(stores[i], stateName, reports[i].0, reports[i].1, stores[i + 1])
    ensures Absorbed(stores[0], stores[k], stateName, name, n, k)
  {
    for j := 0 to k
      invariant Absorbed(stores[0], stores[j], stateName, name, n, j)
    {
      SaturatedReport(stores[j], stateName, reports[j].0, reports[j].1, stores[j + 1], n);
    }
  }

  // ---------- cuts of the total ----------

  /**
   * The assumptions on a step when totals may be cut, so that quotas may be negative: honest and clean
   * reports, and a client with a negative quota neither is deleted nor drops the flow control.
   */
  ghost predicate FairWithCuts(s: Store, stateName: string, n: string, step: Step, s': Store) {
    var typ := TypeFor(s, stateName, n);
    match step
    case Report(c, clients) =>
      && Clean(s, stateName, c, clients, s')
      && (ReportsStored(s, stateName, c, n) || (NoItem(c, n) && HeldBy(s, c.name, n, typ) >= 0))
    case CleanUp(name) => HeldBy(s, name, n, typ) >= 0
    case Sync(_) => TypeFor(s', stateName, n) == typ
  }

  /** The step is a schema update that puts the total below what is recorded. */
  ghost predicate Cuts(s: Store, stateName: string, n: string, step: Step, s': Store) {
    step.Sync? && Recorded(s, stateName, n, TypeFor(s, stateName, n)) > Total(s', stateName, n)
  }

  lemma StepWithCuts(s: Store, stateName: string, n: string, step: Step, s': Store)
    requires Bounded(s, stateName, n) && Next(s, stateName, step, s') && FairWithCuts(s, stateName, n, step, s')
    ensures Bounded(s', stateName, n)
    ensures Settled(s, stateName, n) && !Cuts(s, stateName, n, step, s') ==> Settled(s', stateName, n)
    ensures step.Report? && s' != s && ReportsStored(s, stateName, step.c, n) ==> Settled(s', stateName, n)
  {
    match step
    case Report(c, clients) =>
      if s' != s {
        if ReportsStored(s, stateName, c, n) {
          ReportSettles(s, stateName, c, clients, s', n);
        } else {
          EmptyReportGivesUp(s, stateName, c, clients, s', n);
        }
      }
    case CleanUp(name) =>
      if name in s && s[name].instance != "" { CleanUpKeepsBoundIff(s, stateName, name, s', n); }
    case Sync(schemas) => SyncKeepsBound(s, stateName, schemas, s', n);
  }

  ghost predicate StepAt(stores: seq<Store>, steps: seq<Step>, stateName: string, n: string, j: nat)
    requires j < |steps| == |stores| - 1
  {
    && Next(stores[j], stateName, steps[j], stores[j + 1])
    && FairWithCuts(stores[j], stateName, n, steps[j], stores[j + 1])
  }

  ghost predicate CutAt(stores: seq<Store>, steps: seq<Step>, stateName: string, n: string, j: nat)
    requires j < |steps| == |stores| - 1
  {
    Cuts(stores[j], stateName, n, steps[j], stores[j + 1])
  }

  /** The step is an accepted report of what the server stored for the client. */
  ghost predicate ReportAt(stores: seq<Store>, steps: seq<Step>, stateName: string, n: string, j: nat)
    requires j < |steps| == |stores| - 1
  {
    steps[j].Report? && stores[j + 1] != stores[j] && ReportsStored(stores[j], stateName, steps[j].c, n)
  }

  ghost predicate RunWithCuts(stores: seq<Store>, steps: seq<Step>, stateName: string, n: string) {
    |stores| == |steps| + 1 && forall j: nat :: j < |steps| ==> StepAt(stores, steps, stateName, n, j)
  }

  lemma StepInRun(stores: seq<Store>, steps: seq<Step>, stateName: string, n: string, j: nat)
    requires j < |steps| == |stores| - 1 && StepAt(stores, steps, stateName, n, j)
    requires Bounded(stores[j], stateName, n)
    ensures Bounded(stores[j + 1], stateName, n)
    ensures Settled(stores[j], stateName, n) && !CutAt(stores, steps, stateName, n, j) ==>
              Settled(stores[j + 1], stateName, n)
    ensures ReportAt(stores, steps, stateName, n, j) ==> Settled(stores[j + 1], stateName, n)
  {
    StepWithCuts(stores[j], stateName, n, steps[j], stores[j + 1]);
  }

  /** Whatever is cut, the clients never hold more than is recorded. */
  lemma {:induction false} BoundedWithCuts(stores: seq<Store>, steps: seq<Step>, stateName: string, n: string, k: nat)
    requires RunWithCuts(stores, steps, stateName, n) && k <= |steps| && Bounded(stores[0], stateName, n)
    ensures Bounded(stores[k], stateName, n)
  {
    if k > 0 {
      BoundedWithCuts(stores, steps, stateName, n, k - 1);
      StepInRun(stores, steps, stateName, n, k - 1);
    }
  }

  lemma {:induction false} SettledUntilCut(stores: seq<Store>, steps: seq<Step>, stateName: string, n: string,
                                           i: nat, k: nat)
    requires RunWithCuts(stores, steps, stateName, n) && i <= k <= |steps| && Settled(stores[i], stateName, n)
    requires forall j: nat :: i <= j < k ==> !CutAt(stores, steps, stateName, n, j)
    ensures Settled(stores[k], stateName, n)
  {
    if k > i {
      SettledUntilCut(stores, steps, stateName, n, i, k - 1);
      StepInRun(stores, steps, stateName, n, k - 1);
    }
  }

  /**
   * Over runs with any cuts: what the clients hold never exceeds what is recorded, and from the first
   * accepted report after a cut to the next cut it stays within the total.
   */
  lemma QuotaSafetyWithCuts(stores: seq<Store>, steps: seq<Step>, stateName: string, n: string, i: nat, k: nat)
    requires RunWithCuts(stores, steps, stateName, n) && i <= k <= |steps| && Bounded(stores[0], stateName, n)
    requires if i == 0 then Settled(stores[0], stateName, n) else ReportAt(stores, steps, stateName, n, i - 1)
    requires forall j: nat :: i <= j < k ==> !CutAt(stores, steps, stateName, n, j)
    ensures Bounded(stores[k], stateName, n)
    ensures StoredSum(stores[k], stateName, n, TypeFor(stores[k], stateName, n)) <= Total(stores[k], stateName, n)
  {
    if i > 0 {
      BoundedWithCuts(stores, steps, stateName, n, i - 1);
      StepInRun(stores, steps, stateName, n, i - 1);
    }
    SettledUntilCut(stores, steps, stateName, n, i, k);
  }

  // ---------- newcomers ----------

  /** The client holds nothing of flow control n yet and says so. */
  predicate Newcomer(s: Store, state: Condition, c: Condition, n: string, i: nat) {
    && OnlyItem(c, n, i) && c.items[i].strategy != GlobalCountLimit
    && LimitQuota(c.items[i].limit, TypeIn(state, n)) == HeldBy(s, c.name, n, TypeIn(state, n)) == 0
  }

  lemma NewcomerGetsOne(state: Condition, s: Store, stateName: string, c: Condition, clients: nat, saved: Store,
                        n: string, i: nat)
    requires TypeIn(state, n) != Unknown && RecordedIn(state, n, TypeIn(state, n)) < TotalIn(state, n)
    requires SavedFrom(state, s, stateName, c, clients, saved) && Newcomer(s, state, c, n, i)
    ensures StoredSum(saved, stateName, n, TypeIn(state, n)) >= StoredSum(s, stateName, n, TypeIn(state, n)) + 1
  {
    SavedStoresNext(state, s, stateName, c, clients, saved, n, i);
    SavedChangesSum(state, s, stateName, c, clients, saved, n, TypeIn(state, n));
    NextIsBounded(ReadingFor(state, c, clients, i));
  }

  /**
   * While recording crashes, the recorded total stays behind: every newcomer is given a unit of what was
   * left at the last recording, however many they are.
   */
  lemma CrashedJoinsAddUp(stores: seq<Store>, reports: seq<(Condition, nat)>, stateName: string, n: string, k: nat)
    requires |stores| == |reports| + 1 && k <= |reports| && stateName in stores[0]
    requires TypeFor(stores[0], stateName, n) != Unknown
    requires Recorded(stores[0], stateName, n, TypeFor(stores[0], stateName, n)) < Total(stores[0], stateName, n)
    requires forall j :: 0 <= j < |reports| ==>
               && stateName in stores[j]
               && CrashedFrom(stores[j][stateName], stores[j], stateName, reports[j].0, reports[j].1, stores[j + 1])
               && exists i: nat :: Newcomer(stores[j], stores[j][stateName], reports[j].0, n, i)
    ensures stateName in stores[k] && stores[k][stateName] == stores[0][stateName]
    ensures var typ := TypeFor(stores[0], stateName, n);
            StoredSum(stores[k], stateName, n, typ) >= StoredSum(stores[0], stateName, n, typ) + k
  {
    var typ := TypeFor(stores[0], stateName, n);
    for j := 0 to k
      invariant stateName in stores[j] && stores[j][stateName] == stores[0][stateName]
      invariant StoredSum(stores[j], stateName, n, typ) >= StoredSum(stores[0], stateName, n, typ) + j
    {
      var i: nat :| Newcomer(stores[j], stores[j][stateName], reports[j].0, n, i);
      NewcomerGetsOne(stores[j][stateName], stores[j], stateName, reports[j].0, reports[j].1, stores[j + 1], n, i);
    }
  }

  // ---------- a report through a reference that is behind ----------

  /** A report that lists n once, says what the server stored last, and is computed from the given state. */
  ghost predicate HonestFrom(state: Condition, s: Store, stateName: string, c: Condition, clients: nat, saved: Store,
                             n: string) {
    && SavedFrom(state, s, stateName, c, clients, saved)
    && ClaimsOnce(state, c, n, HeldBy(s, c.name, n, TypeIn(state, n)))
  }

  ghost predicate ClaimsOnce(state: Condition, c: Condition, n: string, claim: int) {
    exists i: nat :: OnlyItem(c, n, i) && c.items[i].strategy != GlobalCountLimit
                     && LimitQuota(c.items[i].limit, TypeIn(state, n)) == claim
  }

  /** A report that claims so much raises the sum by at most the false part of the claim and what remains. */
  lemma ClaimIsBounded(state: Condition, s: Store, stateName: string, c: Condition, clients: nat, saved: Store,
                       n: string, claim: int)
    requires SavedFrom(state, s, stateName, c, clients, saved) && TypeIn(state, n) != Unknown
    requires ClaimsOnce(state, c, n, claim)
    ensures var typ := TypeIn(state, n);
            StoredSum(saved, stateName, n, typ) <= StoredSum(s, stateName, n, typ) - HeldBy(s, c.name, n, typ) + claim
                                                   + TotalIn(state, n) - RecordedIn(state, n, typ)
  {
    var typ := TypeIn(state, n);
    var i: nat :| OnlyItem(c, n, i) && c.items[i].strategy != GlobalCountLimit
                  && LimitQuota(c.items[i].limit, typ) == claim;
    SavedStoresNext(state, s, stateName, c, clients, saved, n, i);
    SavedChangesSum(state, s, stateName, c, clients, saved, n, typ);
    NextIsBounded(ReadingFor(state, c, clients, i));
  }

  /** The divisions for n are defined in the given state. */
  predicate Readable(state: Condition, n: string) {
    && TypeIn(state, n) != Unknown && n in ConfigMap(state.items) && TotalIn(state, n) != 0
    && ExpectedAllocatePercent(StatusFor(StatusMap(state.statuses), n).level, TotalIn(state, n)) != 0
  }

  function LimitFor(typ: FlowControlType, quota: int): Limit {
    if typ == MaxRequestsInflight then Limit(Some(quota), None) else Limit(None, Some(Bucket(quota, 0)))
  }

  /** The report of a client with a claim that earns it all that remains. */
  function GreedyReport(state: Condition, name: string, n: string, limit: Limit, clients: nat): Condition
    requires Readable(state, n)
  {
    var typ := TypeIn(state, n);
    var r := Greedy(TotalIn(state, n), RecordedIn(state, n, typ), StatusFor(StatusMap(state.statuses), n).level,
                    LimitQuota(limit, typ), clients);
    Condition(name, name, [Item(n, limit, GlobalAllocateLimit)], [ItemStatus(n, LimitFor(typ, r.used), r.level)])
  }

  /** Some report of any client with a positive claim is given its claim and all that remains. */
  lemma GreedyReportTakesAll(state: Condition, s: Store, stateName: string, name: string, n: string, limit: Limit,
                             clients: nat) returns (c: Condition, saved: Store)
    requires Readable(state, n) && name != stateName && LimitQuota(limit, TypeIn(state, n)) > 0
    requires TypeOf(limit) == TypeIn(state, n)
    ensures c == GreedyReport(state, name, n, limit, clients) && SavedFrom(state, s, stateName, c, clients, saved)
    ensures OnlyItem(c, n, 0) && ClaimsOnce(state, c, n, LimitQuota(limit, TypeIn(state, n)))
    ensures var typ := TypeIn(state, n);
            StoredSum(saved, stateName, n, typ) == StoredSum(s, stateName, n, typ) - HeldBy(s, name, n, typ)
                                                   + LimitQuota(limit, typ)
                                                   + TotalIn(state, n) - RecordedIn(state, n, typ)
  {
    var typ := TypeIn(state, n);
    c := GreedyReport(state, name, n, limit, clients);
    GreedyTakesAll(TotalIn(state, n), RecordedIn(state, n, typ), StatusFor(StatusMap(state.statuses), n).level,
                   LimitQuota(limit, typ), clients);
    GreedyReading(state, name, n, limit, clients);
    var inp := InputsOf(state, c, clients);
    assert ItemComputable(c.items[0], inp);
    RefusedIff(c.items, inp);
    saved := s[name := c.(items := UpdateItems(c.items, inp).value)];
    SavedStoresNext(state, s, stateName, c, clients, saved, n, 0);
    SavedChangesSum(state, s, stateName, c, clients, saved, n, typ);
  }

  lemma GreedyReading(state: Condition, name: string, n: string, limit: Limit, clients: nat)
    requires Readable(state, n)
    ensures var typ := TypeIn(state, n);
            ReadingFor(state, GreedyReport(state, name, n, limit, clients), clients, 0)
            == Greedy(TotalIn(state, n), RecordedIn(state, n, typ), StatusFor(StatusMap(state.statuses), n).level,
                      LimitQuota(limit, typ), clients)
  {
    var c := GreedyReport(state, name, n, limit, clients);
    assert c.statuses[..0] == [];
    assert StatusMap(c.statuses) == map[n := c.statuses[0]];
  }

  /**
   * Every honest report that is computed from some state, old or new, keeps the sum within a bound exactly when
   * the bound covers what is stored now and what seems to remain in that state. client is one that holds quota.
   */
  lemma HonestReportsFitIff(state: Condition, s: Store, stateName: string, n: string, client: string, bound: int)
    requires Readable(state, n) && client != stateName && HeldBy(s, client, n, TypeIn(state, n)) > 0
    ensures var typ := TypeIn(state, n);
            (forall c, clients: nat, saved :: HonestFrom(state, s, stateName, c, clients, saved, n) ==>
               StoredSum(saved, stateName, n, typ) <= bound)
            <==> StoredSum(s, stateName, n, typ) + TotalIn(state, n) - RecordedIn(state, n, typ) <= bound
  {
    var typ := TypeIn(state, n);
    var c, saved :=
      GreedyReportTakesAll(state, s, stateName, client, n, LimitFor(typ, HeldBy(s, client, n, typ)), 1);
    assert HonestFrom(state, s, stateName, c, 1, saved, n);
    forall c, clients: nat, saved | HonestFrom(state, s, stateName, c, clients, saved, n)
      ensures StoredSum(saved, stateName, n, typ)
              <= StoredSum(s, stateName, n, typ) + TotalIn(state, n) - RecordedIn(state, n, typ)
    {
      ClaimIsBounded(state, s, stateName, c, clients, saved, n, HeldBy(s, c.name, n, typ));
    }
  }

  /** A sum above zero has a client with quota. */
  lemma {:induction false} SomeoneHolds(m: Store, n: string, typ: FlowControlType) returns (client: string)
    requires typ != Unknown && QuotaIn(StoreTally(m, n, map[]), typ) > 0
    ensures client in m && Held(m[client], n, typ) > 0
    decreases |m|
  {
    assert m != map[] by { EmptyHoldsNothing(n, typ); }
    client :| client in m;
    QuotaTakenOut(m, client, n, typ);
    if Held(m[client], n, typ) <= 0 {
      assert (m - {client}).Keys == m.Keys - {client};
      client := SomeoneHolds(m - {client}, n, typ);
    }
  }

  lemma EmptyHoldsNothing(n: string, typ: FlowControlType)
    requires typ != Unknown
    ensures QuotaIn(StoreTally(map[], n, map[]), typ) == 0
  {
    assert Tallies(map[], n, map[]) == map[];
  }

  /**
   * So reports that are computed from a state keep its total exactly when no more is stored now than was
   * recorded in that state.
   */
  lemma OldStateIsSafeIff(state: Condition, s: Store, stateName: string, n: string)
    requires Readable(state, n) && RecordedIn(state, n, TypeIn(state, n)) >= 0
    ensures var typ := TypeIn(state, n);
            (forall c, clients: nat, saved :: HonestFrom(state, s, stateName, c, clients, saved, n) ==>
               StoredSum(saved, stateName, n, typ) <= TotalIn(state, n))
            <==> StoredSum(s, stateName, n, typ) <= RecordedIn(state, n, typ)
  {
    var typ := TypeIn(state, n);
    if StoredSum(s, stateName, n, typ) <= RecordedIn(state, n, typ) {
      forall c, clients: nat, saved | HonestFrom(state, s, stateName, c, clients, saved, n)
        ensures StoredSum(saved, stateName, n, typ) <= TotalIn(state, n)
      {
        ClaimIsBounded(state, s, stateName, c, clients, saved, n, HeldBy(s, c.name, n, typ));
      }
    } else {
      var client := SomeoneHolds(s - {stateName}, n, typ);
      HonestReportsFitIff(state, s, stateName, n, client, TotalIn(state, n));
    }
  }
}
