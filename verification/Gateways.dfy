/** The gateways' side of the quota division: each reports the quota of the last reply it received. */
module Gateways {
  import opened Wrappers
  import opened Allocation
  import opened Aggregation
  import opened QuotaServer
  import opened QuotaSafety

  /**
   * The server's store, and for every gateway the limit of flow control n that it applies. untold adds up the
   * decreases of its stored quota that the gateway does not know of, unrecorded the increases that were stored
   * since the totals were last recorded.
   */
  datatype System = System(store: Store, limits: map<string, Limit>, untold: map<string, int>, unrecorded: int)

  /** A gateway without a remote flow control reports an empty limit. */
  function Applied(s: System, g: string): Limit { if g in s.limits then s.limits[g] else NO_LIMIT }

  function Untold(s: System, g: string): int { if g in s.untold then s.untold[g] else 0 }

  datatype Step =
    | Reconcile(c: Condition, clients: nat, delivered: bool) // the server records the report; its reply may be lost
    | Crash(c: Condition, clients: nat)                      // the server stores the report and fails to record it
    | Fail                                                   // the request is lost or refused
    | CleanUp(name: string)                                  // the server forgets a gateway that may be alive
    | Sync(schemas: seq<Schema>)

  /** The limit of n in a reply; the last one counts. */
  function LimitOf(c: Condition, n: string): Limit {
    if n in ConfigMap(c.items) then ConfigMap(c.items)[n].limit else NO_LIMIT
  }

  function Decrease(before: int, after: int): int { if after < before then before - after else 0 }

  /** The report a gateway builds: one item per flow control, with the limit it applies. */
  ghost predicate Builds(s: System, c: Condition, n: string) {
    exists i: nat ::
      OnlyItem(c, n, i) && c.items[i].limit == Applied(s, c.name) && c.items[i].strategy != GlobalCountLimit
  }

  /** After a report was recorded; a reply that is delivered tells the gateway what it holds. */
  function Replied(s: System, n: string, typ: FlowControlType, g: string, delivered: bool, store': Store): System {
    if delivered
    then System(store', s.limits[g := LimitOf(StateOf(store', g), n)], s.untold[g := 0], 0)
    else
      var lost := Decrease(HeldBy(s.store, g, n, typ), HeldBy(store', g, n, typ));
      System(store', s.limits, s.untold[g := Untold(s, g) + lost], 0)
  }

  ghost predicate Next(s: System, stateName: string, n: string, step: Step, s': System) {
    var typ := TypeFor(s.store, stateName, n);
    match step
    case Reconcile(c, clients, delivered) =>
      && Builds(s, c, n) && Updated(s.store, stateName, c, clients, s'.store)
      && s' == Replied(s, n, typ, c.name, delivered, s'.store)
    case Crash(c, clients) =>
      && Builds(s, c, n) && stateName in s.store
      && CrashedFrom(s.store[stateName], s.store, stateName, c, clients, s'.store)
      && var held, held' := HeldBy(s.store, c.name, n, typ), HeldBy(s'.store, c.name, n, typ);
      && s' == System(s'.store, s.limits, s.untold[c.name := Untold(s, c.name) + Decrease(held, held')],
                      s.unrecorded + Decrease(held', held))
    case Fail => s' == s
    case CleanUp(name) =>
      && name != stateName && CleanedUp(s.store, name, s'.store) && HeldBy(s.store, name, n, typ) >= 0
      && s' == s.(store := s'.store, untold := s.untold[name := Untold(s, name) + HeldBy(s.store, name, n, typ)])
    case Sync(schemas) =>
      && Synced(s.store, stateName, schemas, s'.store) && s' == s.(store := s'.store)
      && TypeFor(s'.store, stateName, n) == typ
      && (Total(s.store, stateName, n) <= Total(s'.store, stateName, n)
          || Recorded(s.store, stateName, n, typ) + s.unrecorded <= Total(s'.store, stateName, n))
  }

  /** No more is stored than is recorded and unrecorded, and no more than slack beyond the total. */
  ghost predicate Within(s: System, stateName: string, n: string, slack: nat) {
    var typ := TypeFor(s.store, stateName, n);
    && stateName in s.store && typ != Unknown && s.unrecorded >= 0
    && StoredSum(s.store, stateName, n, typ) <= Recorded(s.store, stateName, n, typ) + s.unrecorded
    && StoredSum(s.store, stateName, n, typ) <= Total(s.store, stateName, n) + slack
  }

  /** No gateway claims more than it holds and was not told of. */
  ghost predicate AllCovered(s: System, stateName: string, n: string, typ: FlowControlType) {
    forall g :: g != stateName ==> Covered(s, n, typ, g)
  }

  ghost predicate Inv(s: System, stateName: string, n: string, slack: nat) {
    Within(s, stateName, n, slack) && AllCovered(s, stateName, n, TypeFor(s.store, stateName, n))
  }

  predicate Covered(s: System, n: string, typ: FlowControlType, g: string) {
    Untold(s, g) >= 0 && LimitQuota(Applied(s, g), typ) <= HeldBy(s.store, g, n, typ) + Untold(s, g)
  }

  // ---------- what a reply says ----------

  /** What the server stores for a flow control that the report lists once is what its reply says. */
  lemma {:induction false} ReplySaysHeld(items: seq<Item>, inp: Inputs, n: string, typ: FlowControlType)
    requires AllComputable(items, inp) && UpdateItems(items, inp).Success?
    requires NoneCounted(items, n) && Count(items, n) <= 1
    requires n in inp.configs && typ == TypeOf(inp.configs[n].limit) != Unknown
    ensures var u := UpdateItems(items, inp).value;
            && (n in ConfigMap(u) ==> Count(items, n) == 1)
            && QuotaIn(ItemsTally(u, n), typ) ==
               LimitQuota(if n in ConfigMap(u) then ConfigMap(u)[n].limit else NO_LIMIT, typ)
  {
    if items != [] {
      var init, item := items[..|items| - 1], items[|items| - 1];
      ReplySaysHeld(init, inp, n, typ);
      SnocTally(items, inp, n);
      if item.name in inp.configs {
        assert ItemComputable(item, inp);
        var u := UpdateItems(init, inp).value + [UpdatedItem(item, inp)];
        assert u[..|u| - 1] == UpdateItems(init, inp).value;
        if item.name == n {
          NoItemLeft(init, inp, n);
          ItemHolds(item, inp, typ);
          PlusZero(Tally(true, Contribution(UpdatedItem(item, inp).limit), NO_LEVEL));
          ContributionIsWhole(item, inp, typ);
        }
      }
    }
  }

  lemma {:induction false} NoItemLeft(items: seq<Item>, inp: Inputs, n: string)
    requires AllComputable(items, inp) && UpdateItems(items, inp).Success? && Count(items, n) == 0
    ensures ItemsTally(UpdateItems(items, inp).value, n) == ZERO
  {
    if items != [] {
      NoItemLeft(items[..|items| - 1], inp, n);
      SnocTally(items, inp, n);
    }
  }

  /** The stored item has no part that hides its quota. */
  lemma ContributionIsWhole(item: Item, inp: Inputs, typ: FlowControlType)
    requires item.name in inp.configs && ItemComputable(item, inp) && !Mismatch(item, inp.configs[item.name])
    requires item.strategy != GlobalCountLimit && typ == TypeOf(inp.configs[item.name].limit) != Unknown
    ensures LimitQuota(Contribution(UpdatedItem(item, inp).limit), typ) == LimitQuota(UpdatedItem(item, inp).limit, typ)
  {
  }

  lemma {:induction false} OnlyItemCounts(items: seq<Item>, n: string, i: nat)
    requires i < |items| && forall j :: 0 <= j < |items| ==> (items[j].name == n <==> j == i)
    ensures Count(items, n) == 1
  {
    if i == |items| - 1 {
      NoItemCounts(items[..i], n);
    } else {
      OnlyItemCounts(items[..|items| - 1], n, i);
    }
  }

  lemma {:induction false} NoItemCounts(items: seq<Item>, n: string)
    requires forall j :: 0 <= j < |items| ==> items[j].name != n
    ensures Count(items, n) == 0
  {
    if items != [] {
      NoItemCounts(items[..|items| - 1], n);
    }
  }

  lemma ReplyIsHeld(s: Store, stateName: string, c: Condition, clients: nat, s': Store, n: string, i: nat)
    requires Updated(s, stateName, c, clients, s') && OnlyItem(c, n, i) && c.items[i].strategy != GlobalCountLimit
    requires TypeFor(s, stateName, n) != Unknown
    ensures LimitQuota(LimitOf(s'[c.name], n), TypeFor(s, stateName, n)) ==
            HeldBy(s', c.name, n, TypeFor(s, stateName, n))
  {
    OnlyItemCounts(c.items, n, i);
    ReplySaysHeld(c.items, InputsOf(s[stateName], c, clients), n, TypeFor(s, stateName, n));
  }

  lemma RepliedTells(s: System, n: string, typ: FlowControlType, g: string, delivered: bool, store': Store)
    requires LimitQuota(LimitOf(StateOf(store', g), n), typ) == HeldBy(store', g, n, typ)
    ensures var s' := Replied(s, n, typ, g, delivered, store');
            if delivered then Untold(s', g) == 0 && LimitQuota(Applied(s', g), typ) == HeldBy(store', g, n, typ)
            else s'.limits == s.limits && Untold(s', g) >= Untold(s, g)
  {
  }

  /** A reply that arrives tells the gateway what it holds, and nothing is left untold; a lost one changes no limit. */
  lemma ReplyTells(s: System, stateName: string, n: string, c: Condition, clients: nat, delivered: bool, s': System)
    requires Next(s, stateName, n, Reconcile(c, clients, delivered), s') && TypeFor(s.store, stateName, n) != Unknown
    ensures var typ := TypeFor(s.store, stateName, n);
            if delivered
            then Untold(s', c.name) == 0 && LimitQuota(Applied(s', c.name), typ) == HeldBy(s'.store, c.name, n, typ)
            else s'.limits == s.limits && Untold(s', c.name) >= Untold(s, c.name)
  {
    var i: nat :|
      OnlyItem(c, n, i) && c.items[i].limit == Applied(s, c.name) && c.items[i].strategy != GlobalCountLimit;
    ReplyIsHeld(s.store, stateName, c, clients, s'.store, n, i);
    assert c.name in s'.store by { ReportIsStored(s.store, stateName, c, clients, s'.store); }
    RepliedTells(s, n, TypeFor(s.store, stateName, n), c.name, delivered, s'.store);
  }

  lemma ReportIsStored(s: Store, stateName: string, c: Condition, clients: nat, s': Store)
    requires Updated(s, stateName, c, clients, s')
    ensures c.name in s'
  {
  }

  // ---------- lost replies ----------

  /** Gateway g reports, and the server stores what it gets. */
  predicate ReportOf(step: Step, g: string) { (step.Reconcile? || step.Crash?) && step.c.name == g }

  lemma BuiltOnce(s: System, stateName: string, n: string, c: Condition)
    requires Builds(s, c, n) && stateName in s.store
    ensures ClaimsOnce(s.store[stateName], c, n, LimitQuota(Applied(s, c.name), TypeFor(s.store, stateName, n)))
  {
    var i: nat :|
      OnlyItem(c, n, i) && c.items[i].limit == Applied(s, c.name) && c.items[i].strategy != GlobalCountLimit;
  }

  /** A stored report raises the sum by at most the false part of its claim and what remains on record. */
  lemma StoredReportFits(s: System, stateName: string, n: string, step: Step, s': System)
    requires stateName in s.store && TypeFor(s.store, stateName, n) != Unknown
    requires (step.Reconcile? || step.Crash?) && Next(s, stateName, n, step, s')
    ensures var typ, g := TypeFor(s.store, stateName, n), step.c.name;
            && stateName in s'.store && TypeFor(s'.store, stateName, n) == typ && g != stateName
            && Total(s'.store, stateName, n) == Total(s.store, stateName, n)
            && StoredSum(s'.store, stateName, n, typ)
               == StoredSum(s.store, stateName, n, typ) - HeldBy(s.store, g, n, typ) + HeldBy(s'.store, g, n, typ)
            && StoredSum(s'.store, stateName, n, typ)
               <= StoredSum(s.store, stateName, n, typ) + LimitQuota(Applied(s, g), typ) - HeldBy(s.store, g, n, typ)
                  + Total(s.store, stateName, n) - Recorded(s.store, stateName, n, typ)
            && Recorded(s'.store, stateName, n, typ) == (if step.Reconcile? then StoredSum(s'.store, stateName, n, typ)
                                                         else Recorded(s.store, stateName, n, typ))
  {
    var state, typ, c := s.store[stateName], TypeFor(s.store, stateName, n), step.c;
    BuiltOnce(s, stateName, n, c);
    if step.Crash? {
      SavedChangesSum(state, s.store, stateName, c, step.clients, s'.store, n, typ);
      ClaimIsBounded(state, s.store, stateName, c, step.clients, s'.store, n, LimitQuota(Applied(s, c.name), typ));
    } else {
      var saved :|
        SavedFrom(state, s.store, stateName, c, step.clients, saved) && RecordedFrom(state, saved, stateName, s'.store);
      SavedChangesSum(state, s.store, stateName, c, step.clients, saved, n, typ);
      ClaimIsBounded(state, s.store, stateName, c, step.clients, saved, n, LimitQuota(Applied(s, c.name), typ));
      RecordingIsExact(state, saved, stateName, s'.store, n, typ);
    }
  }

  lemma OthersKeep(s: System, stateName: string, n: string, step: Step, s': System, g: string)
    requires (step.Reconcile? || step.Crash?) && Next(s, stateName, n, step, s') && g != step.c.name && g != stateName
    ensures HeldBy(s'.store, g, n, TypeFor(s.store, stateName, n)) ==
            HeldBy(s.store, g, n, TypeFor(s.store, stateName, n))
  {
    if step.Reconcile? { OthersStay(s.store, stateName, step.c, step.clients, s'.store); }
  }

  lemma ReporterIsCovered(s: System, stateName: string, n: string, step: Step, s': System)
    requires (step.Reconcile? || step.Crash?) && Next(s, stateName, n, step, s') && stateName in s.store
    requires TypeFor(s.store, stateName, n) != Unknown && Covered(s, n, TypeFor(s.store, stateName, n), step.c.name)
    ensures Covered(s', n, TypeFor(s.store, stateName, n), step.c.name)
  {
    var c := step.c;
    if step.Reconcile? {
      var i: nat :|
        OnlyItem(c, n, i) && c.items[i].limit == Applied(s, c.name) && c.items[i].strategy != GlobalCountLimit;
      ReplyIsHeld(s.store, stateName, c, step.clients, s'.store, n, i);
    }
  }

  lemma ReportKeepsCovered(s: System, stateName: string, n: string, step: Step, s': System, typ: FlowControlType)
    requires (step.Reconcile? || step.Crash?) && Next(s, stateName, n, step, s') && stateName in s.store
    requires typ == TypeFor(s.store, stateName, n) != Unknown && AllCovered(s, stateName, n, typ)
    requires step.c.name != stateName
    ensures AllCovered(s', stateName, n, typ)
  {
    forall g | g != stateName ensures Covered(s', n, typ, g) {
      assert Covered(s, n, typ, g);
      if g == step.c.name {
        ReporterIsCovered(s, stateName, n, step, s');
      } else {
        OthersKeep(s, stateName, n, step, s', g);
        OtherIsCovered(s, stateName, n, step, s', g, typ);
      }
    }
  }

  lemma OtherIsCovered(s: System, stateName: string, n: string, step: Step, s': System, g: string,
                       typ: FlowControlType)
    requires (step.Reconcile? || step.Crash?) && Next(s, stateName, n, step, s') && g != step.c.name
    requires HeldBy(s'.store, g, n, typ) == HeldBy(s.store, g, n, typ) && Covered(s, n, typ, g)
    ensures Covered(s', n, typ, g)
  {
  }

  lemma ReportStaysWithin(s: System, stateName: string, n: string, step: Step, s': System, slack: nat)
    requires Within(s, stateName, n, slack) && (step.Reconcile? || step.Crash?) && Next(s, stateName, n, step, s')
    requires Covered(s, n, TypeFor(s.store, stateName, n), step.c.name)
    requires Untold(s, step.c.name) + s.unrecorded <= slack
    ensures Within(s', stateName, n, slack) && TypeFor(s'.store, stateName, n) == TypeFor(s.store, stateName, n)
    ensures step.c.name != stateName
  {
    StoredReportFits(s, stateName, n, step, s');
  }

  lemma ReportKeepsClaims(s: System, stateName: string, n: string, step: Step, s': System, slack: nat)
    requires Inv(s, stateName, n, slack) && (step.Reconcile? || step.Crash?) && Next(s, stateName, n, step, s')
    requires Untold(s, step.c.name) + s.unrecorded <= slack
    ensures Inv(s', stateName, n, slack)
  {
    assert Covered(s, n, TypeFor(s.store, stateName, n), step.c.name) by {
      StoredReportFits(s, stateName, n, step, s');
    }
    ReportStaysWithin(s, stateName, n, step, s', slack);
    ReportKeepsCovered(s, stateName, n, step, s', TypeFor(s.store, stateName, n));
  }

  lemma CleanUpKeepsClaims(s: System, stateName: string, n: string, name: string, s': System, slack: nat)
    requires Inv(s, stateName, n, slack) && Next(s, stateName, n, Step.CleanUp(name), s')
    ensures Inv(s', stateName, n, slack)
  {
    var typ := TypeFor(s.store, stateName, n);
    SumWithout(s.store, stateName, name, n, typ);
    forall g | g != stateName ensures Covered(s', n, typ, g) {
      assert Covered(s, n, typ, g);
      assert g != name ==> HeldBy(s'.store, g, n, typ) == HeldBy(s.store, g, n, typ);
    }
  }

  lemma SyncKeepsClaims(s: System, stateName: string, n: string, schemas: seq<Schema>, s': System, slack: nat)
    requires Inv(s, stateName, n, slack) && Next(s, stateName, n, Step.Sync(schemas), s')
    ensures Inv(s', stateName, n, slack)
  {
    var typ := TypeFor(s.store, stateName, n);
    SyncKeepsSums(s.store, stateName, schemas, s'.store, n, typ);
    forall g | g != stateName ensures Covered(s', n, typ, g) {
      assert Covered(s, n, typ, g) && HeldBy(s'.store, g, n, typ) == HeldBy(s.store, g, n, typ);
    }
  }

  /**
   * However many replies are lost, reports crash and gateways are forgotten, the quotas exceed the total by no
   * more than the decreases that a single gateway was not told of, and the increases that were not recorded,
   * when it reported.
   */
  lemma OvershootIsUntold(states: seq<System>, steps: seq<Step>, stateName: string, n: string, slack: nat, k: nat)
    requires |states| == |steps| + 1 && k <= |steps| && Inv(states[0], stateName, n, slack)
    requires forall i :: 0 <= i < |steps| ==> StepWithin(states[i], stateName, n, steps[i], states[i + 1], slack)
    ensures Inv(states[k], stateName, n, slack)
    ensures var store, typ := states[k].store, TypeFor(states[k].store, stateName, n);
            StoredSum(store, stateName, n, typ) <= Total(store, stateName, n) + slack
  {
    for j := 0 to k
      invariant Inv(states[j], stateName, n, slack)
    {
      assert StepWithin(states[j], stateName, n, steps[j], states[j + 1], slack);
      match steps[j]
      case Reconcile(_, _, _) => ReportKeepsClaims(states[j], stateName, n, steps[j], states[j + 1], slack);
      case Crash(_, _) => ReportKeepsClaims(states[j], stateName, n, steps[j], states[j + 1], slack);
      case Fail =>
      case CleanUp(name) => CleanUpKeepsClaims(states[j], stateName, n, name, states[j + 1], slack);
      case Sync(schemas) => SyncKeepsClaims(states[j], stateName, n, schemas, states[j + 1], slack);
    }
  }

  /** A step, with what the reporting gateway was not told of and what was not recorded within the slack. */
  ghost predicate StepWithin(s: System, stateName: string, n: string, step: Step, s': System, slack: nat) {
    && Next(s, stateName, n, step, s')
    && match step
       case Reconcile(c, _, _) => Untold(s, c.name) + s.unrecorded <= slack
       case Crash(c, _) => Untold(s, c.name) + s.unrecorded <= slack
       case _ => true
  }

  // ---------- the bound is attained ----------

  /** A report that is stored is a step, recorded if all kinds are known and crashed otherwise. */
  lemma StoredReportIsStep(s: System, stateName: string, n: string, c: Condition, clients: nat, saved: Store)
    returns (step: Step, s': System)
    requires stateName in s.store && TypeFor(s.store, stateName, n) != Unknown && Builds(s, c, n)
    requires SavedFrom(s.store[stateName], s.store, stateName, c, clients, saved)
    ensures ReportOf(step, c.name) && Next(s, stateName, n, step, s')
    ensures StoredSum(s'.store, stateName, n, TypeFor(s.store, stateName, n))
            == StoredSum(saved, stateName, n, TypeFor(s.store, stateName, n))
  {
    if AllKindsKnown(saved - {stateName}, ConfigMap(s.store[stateName].items)) {
      step, s' := RecordedStep(s, stateName, n, c, clients, saved);
    } else {
      step, s' := CrashedStep(s, stateName, n, c, clients, saved);
    }
  }

  lemma RecordedStep(s: System, stateName: string, n: string, c: Condition, clients: nat, saved: Store)
    returns (step: Step, s': System)
    requires stateName in s.store && TypeFor(s.store, stateName, n) != Unknown && Builds(s, c, n)
    requires SavedFrom(s.store[stateName], s.store, stateName, c, clients, saved)
    ensures step == Reconcile(c, clients, true) && Next(s, stateName, n, step, s')
    ensures StoredSum(s'.store, stateName, n, TypeFor(s.store, stateName, n))
            == StoredSum(saved, stateName, n, TypeFor(s.store, stateName, n))
  {
    var store' := RecordingExists(s.store[stateName], saved, stateName);
    RecordingIsExact(s.store[stateName], saved, stateName, store', n, TypeFor(s.store, stateName, n));
    assert Updated(s.store, stateName, c, clients, store');
    step := Reconcile(c, clients, true);
    s' := Replied(s, n, TypeFor(s.store, stateName, n), c.name, true, store');
  }

  lemma CrashedStep(s: System, stateName: string, n: string, c: Condition, clients: nat, saved: Store)
    returns (step: Step, s': System)
    requires stateName in s.store && Builds(s, c, n)
    requires CrashedFrom(s.store[stateName], s.store, stateName, c, clients, saved)
    ensures step == Crash(c, clients) && Next(s, stateName, n, step, s') && s'.store == saved
  {
    var typ := TypeFor(s.store, stateName, n);
    var held, held' := HeldBy(s.store, c.name, n, typ), HeldBy(saved, c.name, n, typ);
    step := Crash(c, clients);
    s' := System(saved, s.limits, s.untold[c.name := Untold(s, c.name) + Decrease(held, held')],
                 s.unrecorded + Decrease(held', held));
  }

  /**
   * A gateway may report so that the sum reaches the total and the false part of its claim, less what is
   * recorded and not stored any more.
   */
  lemma OvershootIsAttained(s: System, stateName: string, n: string, g: string) returns (step: Step, s': System)
    requires stateName in s.store && g != stateName && Readable(s.store[stateName], n)
    requires TypeOf(Applied(s, g)) == TypeFor(s.store, stateName, n)
    requires LimitQuota(Applied(s, g), TypeFor(s.store, stateName, n)) > 0
    ensures ReportOf(step, g) && Next(s, stateName, n, step, s')
    ensures Total(s'.store, stateName, n) == Total(s.store, stateName, n)
    ensures var typ := TypeFor(s.store, stateName, n);
            StoredSum(s'.store, stateName, n, typ)
            == Total(s.store, stateName, n) + (LimitQuota(Applied(s, g), typ) - HeldBy(s.store, g, n, typ))
               - (Recorded(s.store, stateName, n, typ) - StoredSum(s.store, stateName, n, typ))
  {
    var c, saved := GreedyReportTakesAll(s.store[stateName], s.store, stateName, g, n, Applied(s, g), 1);
    assert Builds(s, c, n) by { assert OnlyItem(c, n, 0) && c.items[0].limit == Applied(s, g); }
    step, s' := StoredReportIsStep(s, stateName, n, c, 1, saved);
    StoredReportFits(s, stateName, n, step, s');
  }

  /**
   * Whatever a gateway with some quota reports, the total is kept exactly when its claim exceeds what it holds
   * by no more than what is recorded and not stored any more.
   */
  lemma ReportsFitIff(s: System, stateName: string, n: string, g: string)
    requires stateName in s.store && g != stateName && Readable(s.store[stateName], n)
    requires TypeOf(Applied(s, g)) == TypeFor(s.store, stateName, n)
    requires LimitQuota(Applied(s, g), TypeFor(s.store, stateName, n)) > 0
    ensures var typ := TypeFor(s.store, stateName, n);
            (forall step, s' :: ReportOf(step, g) && Next(s, stateName, n, step, s') ==>
               StoredSum(s'.store, stateName, n, typ) <= Total(s'.store, stateName, n))
            <==> LimitQuota(Applied(s, g), typ) - HeldBy(s.store, g, n, typ)
                 <= Recorded(s.store, stateName, n, typ) - StoredSum(s.store, stateName, n, typ)
  {
    var typ := TypeFor(s.store, stateName, n);
    var step, s' := OvershootIsAttained(s, stateName, n, g);
    forall step, s' | ReportOf(step, g) && Next(s, stateName, n, step, s')
      ensures Total(s'.store, stateName, n) == Total(s.store, stateName, n)
      ensures StoredSum(s'.store, stateName, n, typ)
              <= StoredSum(s.store, stateName, n, typ) + LimitQuota(Applied(s, g), typ) - HeldBy(s.store, g, n, typ)
                 + Total(s.store, stateName, n) - Recorded(s.store, stateName, n, typ)
    {
      StoredReportFits(s, stateName, n, step, s');
    }
  }

  // ---------- no lost replies ----------

  /** Every gateway applies exactly what the server stored for it. */
  ghost predicate Exact(s: System, stateName: string, n: string) {
    var typ := TypeFor(s.store, stateName, n);
    && stateName in s.store && typ != Unknown
    && forall g :: g != stateName ==> LimitQuota(Applied(s, g), typ) == HeldBy(s.store, g, n, typ)
  }

  predicate Told(step: Step) { !step.CleanUp? && !step.Crash? && (step.Reconcile? ==> step.delivered) }

  lemma ToldStepIsExact(s: System, stateName: string, n: string, step: Step, s': System)
    requires Exact(s, stateName, n) && Next(s, stateName, n, step, s') && Told(step)
    ensures Exact(s', stateName, n)
    ensures step.Reconcile? ==> Honest(s.store, stateName, step.c, n)
  {
    var typ := TypeFor(s.store, stateName, n);
    match step
    case Reconcile(c, clients, _) =>
      var i: nat :|
        OnlyItem(c, n, i) && c.items[i].limit == Applied(s, c.name) && c.items[i].strategy != GlobalCountLimit;
      assert LimitQuota(Applied(s, c.name), typ) == HeldBy(s.store, c.name, n, typ) by { assert c.name != stateName; }
      ReplyIsHeld(s.store, stateName, c, clients, s'.store, n, i);
      OthersStay(s.store, stateName, c, clients, s'.store);
      forall g | g != stateName ensures LimitQuota(Applied(s', g), typ) == HeldBy(s'.store, g, n, typ) {
        if g != c.name { assert HeldBy(s'.store, g, n, typ) == HeldBy(s.store, g, n, typ); }
      }
    case Fail =>
    case Sync(schemas) =>
      forall g | g != stateName ensures HeldBy(s'.store, g, n, typ) == HeldBy(s.store, g, n, typ) {
        assert g in s'.store <==> g in s.store;
      }
  }

  /** If every reply arrives and no live gateway is forgotten, every report is honest. */
  lemma GatewaysAreHonest(states: seq<System>, steps: seq<Step>, stateName: string, n: string, k: nat)
    requires |states| == |steps| + 1 && k < |steps| && Exact(states[0], stateName, n)
    requires forall i :: 0 <= i < |steps| ==> Next(states[i], stateName, n, steps[i], states[i + 1]) && Told(steps[i])
    ensures steps[k].Reconcile? ==> Honest(states[k].store, stateName, steps[k].c, n)
  {
    for j := 0 to k
      invariant Exact(states[j], stateName, n)
    {
      assert Next(states[j], stateName, n, steps[j], states[j + 1]);
      ToldStepIsExact(states[j], stateName, n, steps[j], states[j + 1]);
    }
    assert Next(states[k], stateName, n, steps[k], states[k + 1]);
    ToldStepIsExact(states[k], stateName, n, steps[k], states[k + 1]);
  }
}
