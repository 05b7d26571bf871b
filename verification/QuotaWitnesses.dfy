/** Concrete runs of the limit server and its gateways in which more is handed out than the total. */
module QuotaWitnesses {
  import opened Wrappers
  import opened Allocation
  import opened Aggregation
  import opened QuotaServer
  import opened QuotaSafety
  import Gateways

  function Joining(name: string, n: string): Condition {
    Condition(name, name, [Item(n, NO_LIMIT, GlobalAllocateLimit)], [])
  }

  /** The upstream's entry limits n to a number of requests in flight, and nobody reported any use. */
  predicate Quiet(state: Condition, n: string, total: int) {
    && TypeIn(state, n) == MaxRequestsInflight && TotalIn(state, n) == total
    && n in ConfigMap(state.items) && ConfigMap(state.items)[n].limit.bucket.None?
    && StatusFor(StatusMap(state.statuses), n).level == 0
  }

  /** A report about n only, with a limit of the right kind, if any, is accepted. */
  lemma QuietIsAccepted(state: Condition, c: Condition, clients: nat, n: string, total: int)
    requires total > 0 && Quiet(state, n, total)
    requires forall i :: 0 <= i < |c.items| ==> c.items[i].name == n && c.items[i].limit.bucket.None?
    ensures var inp := InputsOf(state, c, clients);
            AllComputable(c.items, inp) && UpdateItems(c.items, inp).Success?
  {
    var inp := InputsOf(state, c, clients);
    AllocatePercentAtLeast60(0, total);
    assert forall i :: 0 <= i < |c.items| ==> ItemComputable(c.items[i], inp);
    RefusedIff(c.items, inp);
  }

  lemma JoiningIsAccepted(state: Condition, name: string, n: string, total: int)
    requires total > 0 && Quiet(state, n, total)
    ensures var inp := InputsOf(state, Joining(name, n), 1);
            AllComputable(Joining(name, n).items, inp) && UpdateItems(Joining(name, n).items, inp).Success?
  {
    QuietIsAccepted(state, Joining(name, n), 1, n, total);
  }

  lemma JoiningIsNewcomer(s: Store, state: Condition, name: string, n: string)
    requires name !in s && TypeIn(state, n) != Unknown
    ensures Newcomer(s, state, Joining(name, n), n, 0)
  {
  }

  /** A newcomer that joins while something remains on record is given a unit. */
  lemma SavedJoin(state: Condition, s: Store, stateName: string, name: string, n: string, total: int, saved: Store)
    requires total > 0 && Quiet(state, n, total) && RecordedIn(state, n, MaxRequestsInflight) < total
    requires name !in s && SavedFrom(state, s, stateName, Joining(name, n), 1, saved)
    ensures StoredSum(saved, stateName, n, MaxRequestsInflight) >= StoredSum(s, stateName, n, MaxRequestsInflight) + 1
  {
    JoiningIsNewcomer(s, state, name, n);
    NewcomerGetsOne(state, s, stateName, Joining(name, n), 1, saved, n, 0);
  }

  lemma RecordedJoin(state: Condition, s: Store, stateName: string, name: string, n: string, total: int, s': Store)
    requires total > 0 && Quiet(state, n, total) && RecordedIn(state, n, MaxRequestsInflight) < total
    requires name !in s && UpdatedFrom(state, s, stateName, Joining(name, n), 1, s')
    ensures StoredSum(s', stateName, n, MaxRequestsInflight) >= StoredSum(s, stateName, n, MaxRequestsInflight) + 1
  {
    var saved :|
      SavedFrom(state, s, stateName, Joining(name, n), 1, saved) && RecordedFrom(state, saved, stateName, s');
    SavedJoin(state, s, stateName, name, n, total, saved);
    RecordingIsExact(state, saved, stateName, s', n, MaxRequestsInflight);
  }

  /** Who is stored after an accepted join. */
  lemma JoinedClients(state: Condition, s: Store, stateName: string, name: string, n: string, s': Store)
    requires UpdatedFrom(state, s, stateName, Joining(name, n), 1, s') && NoStatuses(s - {stateName})
    ensures s'.Keys == s.Keys + {stateName, name} && NoStatuses(s' - {stateName})
  {
    var saved :|
      SavedFrom(state, s, stateName, Joining(name, n), 1, saved) && RecordedFrom(state, saved, stateName, s');
    forall k | k in s' - {stateName} ensures (s' - {stateName})[k].statuses == [] {
      if k != name { assert (s - {stateName})[k] == s'[k]; }
    }
  }

  /** The first of 2 units goes to the first newcomer, and one remains on record. */
  lemma FirstOfTwo(state: Condition, s: Store, stateName: string, name: string, n: string, s': Store)
    requires Quiet(state, n, 2) && RecordedIn(state, n, MaxRequestsInflight) == 0
    requires name != stateName && name !in s && StoredSum(s, stateName, n, MaxRequestsInflight) == 0
    requires UpdatedFrom(state, s, stateName, Joining(name, n), 1, s')
    ensures Recorded(s', stateName, n, MaxRequestsInflight) == 1
  {
    JoiningIsNewcomer(s, state, name, n);
    ReportStoresNext(state, s, stateName, Joining(name, n), 1, s', n, 0);
    ReportRecordsSum(state, s, stateName, Joining(name, n), 1, s', n, MaxRequestsInflight);
    OneOfTwo(ReadingFor(state, Joining(name, n), 1, 0));
  }

  lemma OneOfTwo(r: Reading)
    requires r.Valid() && r.total == 2 && r.handedOut == 0 && r.current == 0 && r.clients == 1
    ensures r.Next() == 1
  {
    JoinsWithATwentieth(r);
  }

  // ---------- levels stay at zero while nobody reports a use ----------

  predicate NoStatuses(m: Store) { forall k :: k in m ==> m[k].statuses == [] }

  lemma {:induction false} NoStatusesNoLevel(m: Store, n: string, configs: map<string, Item>)
    requires NoStatuses(m)
    ensures StoreTally(m, n, configs).level == NO_LEVEL
    decreases |m|
  {
    if m == map[] {
      assert Tallies(m, n, configs) == map[];
    } else {
      var k :| k in m;
      assert (m - {k}).Keys == m.Keys - {k};
      NoStatusesNoLevel(m - {k}, n, configs);
      TakeOut(m, k, n, configs);
      ItemsHaveNoLevel(m[k].items, n);
    }
  }

  lemma StaysQuiet(state: Condition, s: Store, stateName: string, c: Condition, n: string, total: int, s': Store)
    requires Quiet(state, n, total) && UpdatedFrom(state, s, stateName, c, 1, s') && NoStatuses(s' - {stateName})
    ensures stateName in s' && Quiet(s'[stateName], n, total)
  {
    StaysQuietFor(state, s, stateName, c, 1, n, total, s');
  }

  lemma StaysQuietFor(state: Condition, s: Store, stateName: string, c: Condition, clients: nat, n: string, total: int,
                      s': Store)
    requires Quiet(state, n, total) && UpdatedFrom(state, s, stateName, c, clients, s') && NoStatuses(s' - {stateName})
    ensures stateName in s' && Quiet(s'[stateName], n, total)
  {
    var saved :| SavedFrom(state, s, stateName, c, clients, saved) && RecordedFrom(state, saved, stateName, s');
    assert saved - {stateName} == s' - {stateName};
    var m, configs := s' - {stateName}, ConfigMap(state.items);
    NoStatusesNoLevel(m, n, configs);
    AggregateIsUnique(s'[stateName].statuses, m, configs, n);
  }

  // ---------- the runs ----------

  lemma FirstEntry(s: Store, stateName: string, n: string, total: int)
    requires Synced(map[], stateName, [Schema(n, Limit(Some(total), None))], s)
    ensures s.Keys == {stateName} && Quiet(s[stateName], n, total)
    ensures RecordedIn(s[stateName], n, MaxRequestsInflight) == 0
    ensures StoredSum(s, stateName, n, MaxRequestsInflight) == 0
  {
    var state := s[stateName];
    assert state.items[..0] == [] && state.statuses[..0] == [];
    assert ConfigMap(state.items) == map[n := state.items[0]];
    assert StatusMap(state.statuses) == map[n := state.statuses[0]];
    assert s - {stateName} == map[];
    assert Tallies(map[], n, map[]) == map[];
  }

  /** One client joins through a reference that was handed out earlier, at a server that never crashes. */
  method Join(server: LimitServer, ref: nat, name: string, n: string, total: int)
    requires server.Valid() && server.state.Some? && ref in server.objects && server.copying
    requires name != server.stateName && name !in server.View() && NoStatuses(server.clients)
    requires total > 0 && Quiet(server.objects[ref], n, total)
    modifies server
    ensures server.Valid() && server.state.Some? && server.state.value != ref && NoStatuses(server.clients)
    ensures UpdatedFrom(old(server.objects)[ref], old(server.View()), server.stateName, Joining(name, n), 1,
                        server.View())
    ensures server.View().Keys == old(server.View()).Keys + {server.stateName, name}
    ensures ref in server.objects
    ensures server.objects[ref] == server.View()[server.stateName] == server.objects[server.state.value]
    ensures Quiet(server.objects[ref], n, total)
    ensures forall other :: other in old(server.objects) && other != ref ==>
              other in server.objects && server.objects[other] == old(server.objects)[other]
  {
    ghost var state, view := server.objects[ref], server.View();
    JoiningIsAccepted(state, name, n, total);
    assert view - {server.stateName} == server.clients;
    var r := server.UpdateLocked(ref, Joining(name, n), 1);
    JoinedClients(state, view, server.stateName, name, n, server.View());
    StaysQuiet(state, view, server.stateName, Joining(name, n), n, total, server.View());
    assert server.View() - {server.stateName} == server.clients;
  }

  /** The same while something remains on record there: one more unit is stored. */
  method JoinOne(server: LimitServer, ref: nat, name: string, n: string, total: int)
    requires server.Valid() && server.state.Some? && ref in server.objects && server.copying
    requires name != server.stateName && name !in server.View() && NoStatuses(server.clients)
    requires total > 0 && Quiet(server.objects[ref], n, total)
    requires RecordedIn(server.objects[ref], n, MaxRequestsInflight) < total
    modifies server
    ensures server.Valid() && server.state.Some? && NoStatuses(server.clients)
    ensures forall k :: k in server.View() ==> k in old(server.View()) || k == name || k == server.stateName
    ensures server.stateName in server.View() && Quiet(server.View()[server.stateName], n, total)
    ensures forall other :: other in old(server.objects) && other != ref ==>
              other in server.objects && server.objects[other] == old(server.objects)[other]
    ensures StoredSum(server.View(), server.stateName, n, MaxRequestsInflight)
            >= old(StoredSum(server.View(), server.stateName, n, MaxRequestsInflight)) + 1
  {
    ghost var state, view := server.objects[ref], server.View();
    Join(server, ref, name, n, total);
    RecordedJoin(state, view, server.stateName, name, n, total, server.View());
  }

  /** A copying server with a total of 2, of which b has joined through the first reference. */
  method FirstJoin(stateName: string, b: string, n: string) returns (server: LimitServer, first: nat)
    requires b != stateName
    ensures fresh(server) && server.Valid() && server.state.Some? && server.copying && server.stateName == stateName
    ensures first in server.objects && server.state.value != first && NoStatuses(server.clients)
    ensures forall k :: k in server.View() ==> k == stateName || k == b
    ensures server.objects[first] == server.objects[server.state.value] && Quiet(server.objects[first], n, 2)
    ensures RecordedIn(server.objects[first], n, MaxRequestsInflight) == 1
    ensures StoredSum(server.View(), stateName, n, MaxRequestsInflight) >= 1
  {
    server := new LimitServer(stateName, true);
    server.UpdateUpstreamStateCondition([Schema(n, Limit(Some(2), None))]);
    ghost var s0 := server.View();
    FirstEntry(s0, stateName, n, 2);
    var ref := server.GetState();
    first := ref.value;
    Join(server, first, b, n, 2);
    FirstOfTwo(s0[stateName], s0, stateName, b, n, server.View());
    RecordedJoin(s0[stateName], s0, stateName, b, n, 2, server.View());
  }

  /**
   * In a copying store, a gets its reference first. Then b joins through the same reference, c through the
   * copy that b's report left in the store, and a last: its reference shows b's unit but not c's.
   */
  method OldReferenceOverAllocates(stateName: string, a: string, b: string, c: string, n: string) returns (store: Store)
    requires a != b && a != c && b != c && stateName !in {a, b, c}
    ensures stateName in store && TotalIn(store[stateName], n) == 2
    ensures StoredSum(store, stateName, n, MaxRequestsInflight) >= 3
  {
    var server, first := FirstJoin(stateName, b, n);
    var second := server.GetState();
    JoinOne(server, second.value, c, n, 2);
    JoinOne(server, first, a, n, 2);
    store := server.View();
  }

  /** The report of a newcomer that lists n twice. */
  function JoiningTwice(name: string, n: string): Condition {
    var item := Item(n, NO_LIMIT, GlobalAllocateLimit);
    Condition(name, name, [item, item], [])
  }

  /** A report that lists n so many times and claims nothing. */
  ghost predicate Lists(c: Condition, n: string, count: nat) {
    NoneCounted(c.items, n) && EqualClaims(c.items, n, MaxRequestsInflight, 0) && Count(c.items, n) == count
  }

  lemma ListedTwice(name: string, n: string)
    ensures Lists(JoiningTwice(name, n), n, 2)
  {
    var items := JoiningTwice(name, n).items;
    assert items[..1] == [items[0]] && items[..1][..0] == [];
    assert Count(items[..1], n) == 1;
  }

  /** A newcomer is given the last unit for each entry. */
  lemma EntriesSaved(state: Condition, s: Store, stateName: string, c: Condition, clients: nat, n: string, total: int,
                     count: nat, saved: Store)
    requires Quiet(state, n, total) && RecordedIn(state, n, MaxRequestsInflight) == total - 1
    requires SavedFrom(state, s, stateName, c, clients, saved) && Lists(c, n, count) && count > 0
    ensures HeldBy(saved, c.name, n, MaxRequestsInflight) == count
  {
    var inp := InputsOf(state, c, clients);
    EqualClaimsHold(c.items, inp, n, MaxRequestsInflight, 0);
    UnitEach(HeldBy(saved, c.name, n, MaxRequestsInflight), Count(c.items, n), ReadingAt(inp, n, 0));
  }

  lemma UnitEach(held: int, count: nat, r: Reading)
    requires HeldAlike(held, count, r) && count > 0 && r.Remaining() == 1 && r.current == 0
    ensures held == count
  {
    NextIsBounded(r);
  }

  lemma EntriesRecorded(state: Condition, s: Store, stateName: string, c: Condition, clients: nat, n: string,
                        total: int, count: nat, s': Store)
    requires Quiet(state, n, total) && RecordedIn(state, n, MaxRequestsInflight) == total - 1
    requires UpdatedFrom(state, s, stateName, c, clients, s') && Lists(c, n, count) && count > 0 && c.name !in s
    ensures StoredSum(s', stateName, n, MaxRequestsInflight) == StoredSum(s, stateName, n, MaxRequestsInflight) + count
    ensures stateName in s' && TotalIn(s'[stateName], n) == total
  {
    var saved :| SavedFrom(state, s, stateName, c, clients, saved) && RecordedFrom(state, saved, stateName, s');
    EntriesSaved(state, s, stateName, c, clients, n, total, count, saved);
    SavedChangesSum(state, s, stateName, c, clients, saved, n, MaxRequestsInflight);
    RecordingIsExact(state, saved, stateName, s', n, MaxRequestsInflight);
  }

  /** A client that lists n twice in its first report holds 2 of a total of 1. */
  method TwoEntriesOverAllocate(stateName: string, a: string, n: string) returns (store: Store)
    requires a != stateName
    ensures stateName in store && TotalIn(store[stateName], n) == 1
    ensures StoredSum(store, stateName, n, MaxRequestsInflight) == 2
  {
    var server := new LimitServer(stateName, false);
    server.UpdateUpstreamStateCondition([Schema(n, Limit(Some(1), None))]);
    ghost var s0 := server.View();
    FirstEntry(s0, stateName, n, 1);
    QuietIsAccepted(s0[stateName], JoiningTwice(a, n), 1, n, 1);
    var r := server.UpdateRateLimitConditionStatus(JoiningTwice(a, n), 1);
    store := server.View();
    ListedTwice(a, n);
    EntriesRecorded(s0[stateName], s0, stateName, JoiningTwice(a, n), 1, n, 1, 2, store);
  }

  /** The report of a client that still counts n in tokens. */
  function Foreign(name: string, n: string): Condition {
    Condition(name, name, [], [ItemStatus(n, Limit(None, Some(Bucket(1, 1))), 0)])
  }

  lemma ForeignIsUnknown(s: Store, stateName: string, state: Condition, x: string, n: string, total: int)
    requires Quiet(state, n, total) && x != stateName && x in s && s[x].statuses == Foreign(x, n).statuses
    ensures !AllKindsKnown(s - {stateName}, ConfigMap(state.items))
  {
    var status := (s - {stateName})[x].statuses[0];
    assert status.name == n && n in ConfigMap(state.items);
    assert !KindKnown(status.limit, ConfigMap(state.items)[n].limit);
  }

  /** One client joins at a server whose recording crashes: its unit is stored and not recorded. */
  lemma CrashingJoin(s: Store, stateName: string, x: string, name: string, n: string, total: int) returns (s': Store)
    requires stateName in s && name != stateName && name !in s
    requires x != stateName && x in s && s[x].statuses == Foreign(x, n).statuses
    requires total > 0 && Quiet(s[stateName], n, total) && Recorded(s, stateName, n, MaxRequestsInflight) < total
    ensures CrashedFrom(s[stateName], s, stateName, Joining(name, n), 1, s')
    ensures s'.Keys == s.Keys + {name} && s'[stateName] == s[stateName] && s'[x] == s[x]
    ensures StoredSum(s', stateName, n, MaxRequestsInflight) >= StoredSum(s, stateName, n, MaxRequestsInflight) + 1
  {
    var state, c := s[stateName], Joining(name, n);
    JoiningIsAccepted(state, name, n, total);
    s' := s[name := c.(items := UpdateItems(c.items, InputsOf(state, c, 1)).value)];
    ForeignIsUnknown(s', stateName, state, x, n, total);
    SavedJoin(state, s, stateName, name, n, total, s');
  }

  /** A report without items and with a status of another kind is stored, and nothing is recorded. */
  lemma ForeignReport(s0: Store, stateName: string, x: string, n: string, total: int) returns (s1: Store)
    requires stateName in s0 && x != stateName && x !in s0 && Quiet(s0[stateName], n, total)
    ensures CrashedFrom(s0[stateName], s0, stateName, Foreign(x, n), 1, s1)
    ensures s1 == s0[x := Foreign(x, n)]
    ensures StoredSum(s1, stateName, n, MaxRequestsInflight) == StoredSum(s0, stateName, n, MaxRequestsInflight)
  {
    s1 := s0[x := Foreign(x, n)];
    assert UpdateItems([], InputsOf(s0[stateName], Foreign(x, n), 1)) == Success([]);
    ForeignIsUnknown(s1, stateName, s0[stateName], x, n, total);
    SumWith(s0, stateName, x, Foreign(x, n), n, MaxRequestsInflight);
  }

  /** Once a report of another kind is stored, two newcomers get at least 2 of a total of 1, or of any other total. */
  lemma CrashesOverAllocate(s: Store, stateName: string, x: string, a: string, b: string, n: string, total: int)
    returns (s1: Store, s2: Store)
    requires a != b && stateName !in {a, b, x} && stateName in s && a !in s && b !in s
    requires x in s && s[x].statuses == Foreign(x, n).statuses
    requires total > 0 && Quiet(s[stateName], n, total) && Recorded(s, stateName, n, MaxRequestsInflight) < total
    ensures CrashedFrom(s[stateName], s, stateName, Joining(a, n), 1, s1)
    ensures CrashedFrom(s[stateName], s1, stateName, Joining(b, n), 1, s2)
    ensures StoredSum(s2, stateName, n, MaxRequestsInflight) >= StoredSum(s, stateName, n, MaxRequestsInflight) + 2
  {
    s1 := CrashingJoin(s, stateName, x, a, n, total);
    s2 := CrashingJoin(s1, stateName, x, b, n, total);
  }

  // ---------- a lost reply ----------

  const TWO := Limit(Some(2), None)

  /** The report of a gateway that applies a limit of 2. */
  function Applying2(name: string, n: string, statuses: seq<ItemStatus>): Condition {
    Condition(name, name, [Item(n, TWO, GlobalAllocateLimit)], statuses)
  }

  /** Gateway a holds all of a total of 2 and knows it. */
  function AllHeld(stateName: string, a: string, n: string): Gateways.System {
    var entry := Condition(stateName, "", [Item(n, TWO, LocalLimit)], [ItemStatus(n, TWO, 0)]);
    Gateways.System(map[stateName := entry, a := Applying2(a, n, [])], map[a := TWO], map[], 0)
  }

  /** The total is 2, so much of it is recorded and stored, and a holds so much and believes to hold 2. */
  ghost predicate Believes(s: Gateways.System, stateName: string, a: string, n: string, sum: int, held: int) {
    && stateName in s.store && a != stateName && Quiet(s.store[stateName], n, 2) && NoStatuses(s.store - {stateName})
    && Recorded(s.store, stateName, n, MaxRequestsInflight) == sum
    && StoredSum(s.store, stateName, n, MaxRequestsInflight) == sum
    && HeldBy(s.store, a, n, MaxRequestsInflight) == held && Gateways.Applied(s, a) == TWO
  }

  lemma AllHeldBelieves(stateName: string, a: string, n: string)
    requires a != stateName
    ensures Believes(AllHeld(stateName, a, n), stateName, a, n, 2, 2)
  {
    var s := AllHeld(stateName, a, n);
    var entry := s.store[stateName];
    assert entry.items[..0] == [] && entry.statuses[..0] == [] && s.store[a].items[..0] == [];
    assert ConfigMap(entry.items) == map[n := entry.items[0]];
    assert StatusMap(entry.statuses) == map[n := entry.statuses[0]];
    PlusZero(Tally(true, Contribution(TWO), NO_LEVEL));
    assert ItemsTally(s.store[a].items, n) == Tally(true, Contribution(TWO), NO_LEVEL);
    SumWithout(s.store, stateName, a, n, MaxRequestsInflight);
    assert s.store - {a} - {stateName} == map[];
    EmptyHoldsNothing(n, MaxRequestsInflight);
  }

  /** The server recorded a report about n, of which the total is so much, and gave the client next. */
  ghost predicate Gave(store: Store, stateName: string, n: string, total: int, c: Condition, clients: nat,
                       store': Store, next: int) {
    && c.name != stateName && Updated(store, stateName, c, clients, store') && stateName in store'
    && HeldBy(store', c.name, n, MaxRequestsInflight) == next
    && Recorded(store', stateName, n, MaxRequestsInflight) == StoredSum(store', stateName, n, MaxRequestsInflight)
    && StoredSum(store', stateName, n, MaxRequestsInflight)
       == StoredSum(store, stateName, n, MaxRequestsInflight) - HeldBy(store, c.name, n, MaxRequestsInflight) + next
    && TypeFor(store', stateName, n) == MaxRequestsInflight && Total(store', stateName, n) == total
    && OthersSame(store, stateName, c.name, store')
  }

  predicate OthersSame(store: Store, stateName: string, name: string, store': Store) {
    && store'.Keys == store.Keys + {stateName, name}
    && forall k :: k in store && k != stateName && k != name ==> store'[k] == store[k]
  }

  /** A report with one item, about n. */
  predicate OneItem(c: Condition, n: string, stateName: string) {
    && c.name != stateName && |c.items| == 1 && c.items[0].name == n && c.items[0].limit.bucket.None?
    && c.items[0].strategy == GlobalAllocateLimit
  }

  /** It can be recorded. */
  lemma CanBeRecorded(store: Store, stateName: string, n: string, total: int, c: Condition, clients: nat)
    returns (store': Store)
    requires stateName in store && Quiet(store[stateName], n, total) && total > 0 && OneItem(c, n, stateName)
    ensures Updated(store, stateName, c, clients, store')
  {
    var state := store[stateName];
    QuietIsAccepted(state, c, clients, n, total);
    var saved := store[c.name := c.(items := UpdateItems(c.items, InputsOf(state, c, clients)).value)];
    store' := RecordingExists(state, saved, stateName);
  }

  lemma UpdatedKeys(store: Store, stateName: string, c: Condition, clients: nat, store': Store)
    requires Updated(store, stateName, c, clients, store')
    ensures OthersSame(store, stateName, c.name, store') && c.name != stateName
    ensures store'[stateName].items == store[stateName].items
  {
  }

  /** What the controller says about the one item of a report is what the server gives. */
  lemma Gives(store: Store, stateName: string, n: string, total: int, c: Condition, clients: nat, r: Reading)
    returns (store': Store)
    requires stateName in store && Quiet(store[stateName], n, total) && total > 0 && OneItem(c, n, stateName)
    requires r == ReadingFor(store[stateName], c, clients, 0)
    ensures r.Valid() && Gave(store, stateName, n, total, c, clients, store', r.Next())
  {
    store' := CanBeRecorded(store, stateName, n, total, c, clients);
    assert OnlyItem(c, n, 0);
    ReportStoresNext(store[stateName], store, stateName, c, clients, store', n, 0);
    ReportRecordsSum(store[stateName], store, stateName, c, clients, store', n, MaxRequestsInflight);
    UpdatedKeys(store, stateName, c, clients, store');
  }

  /** A report without statuses leaves the upstream without a level. */
  lemma StaysQuietAfter(store: Store, stateName: string, n: string, total: int, c: Condition, clients: nat,
                        store': Store, next: int)
    requires stateName in store && Quiet(store[stateName], n, total) && NoStatuses(store - {stateName})
    requires Gave(store, stateName, n, total, c, clients, store', next) && c.statuses == []
    ensures Quiet(store'[stateName], n, total) && NoStatuses(store' - {stateName})
  {
    ReportedStatuses(store, stateName, c, clients, store');
    forall k | k in store' - {stateName} ensures (store' - {stateName})[k].statuses == [] {
      if k != c.name { assert (store - {stateName})[k] == store'[k]; }
    }
    StaysQuietFor(store[stateName], store, stateName, c, clients, n, total, store');
  }

  lemma ReportedStatuses(store: Store, stateName: string, c: Condition, clients: nat, store': Store)
    requires Updated(store, stateName, c, clients, store')
    ensures c.name in store' && store'[c.name].statuses == c.statuses
  {
  }

  /** It is a step of the system, with the reply delivered or lost. */
  lemma GivingIsStep(s: Gateways.System, stateName: string, n: string, total: int, c: Condition, clients: nat,
                     delivered: bool, store': Store, next: int) returns (s': Gateways.System)
    requires Gave(s.store, stateName, n, total, c, clients, store', next) && OneItem(c, n, stateName)
    requires c.items[0].limit == Gateways.Applied(s, c.name)
    ensures s' == Gateways.Replied(s, n, TypeFor(s.store, stateName, n), c.name, delivered, store')
    ensures Gateways.Next(s, stateName, n, Gateways.Reconcile(c, clients, delivered), s')
  {
    assert OnlyItem(c, n, 0);
    assert Gateways.Builds(s, c, n);
    s' := Gateways.Replied(s, n, TypeFor(s.store, stateName, n), c.name, delivered, store');
  }

  /** An idle client that holds all of 2 is cut to 1. */
  lemma IdleOfTwo(r: Reading)
    requires r.Valid() && r.total == r.handedOut == r.current == 2 && r.used == r.level == r.upstreamLevel == 0
    ensures r.Next() == 1
  {
    NextIsBounded(r);
    IdleGivesBack(r);
  }

  /** A saturated client that claims 2 keeps 2 when nothing remains. */
  lemma SaturatedOfTwo(r: Reading)
    requires r.Valid() && r.total == r.handedOut == r.current == r.used == 2 && r.level == 100
    ensures r.Next() == 2
  {
    SaturatedClientGains(r);
    NextIsBounded(r);
  }

  /** The reply that cuts a to 1 is lost. */
  lemma LoseReply(s0: Gateways.System, stateName: string, a: string, b: string, n: string)
    returns (s1: Gateways.System)
    requires Believes(s0, stateName, a, n, 2, 2) && b !in s0.store && b !in s0.limits && b != a && b != stateName
    ensures Gateways.Next(s0, stateName, n, Gateways.Reconcile(Applying2(a, n, []), 1, false), s1)
    ensures Believes(s1, stateName, a, n, 1, 1) && Gateways.Untold(s1, a) == Gateways.Untold(s0, a) + 1
    ensures b !in s1.store && b !in s1.limits
  {
    var c := Applying2(a, n, []);
    var store' := IdleGives(s0.store, stateName, a, n);
    s1 := GivingIsStep(s0, stateName, n, 2, c, 1, false, store', 1);
    BelievesMore(s0, stateName, a, n, 2, 2, c, 1, store', 1, s1);
  }

  lemma IdleGives(store: Store, stateName: string, a: string, n: string) returns (store': Store)
    requires stateName in store && Quiet(store[stateName], n, 2) && a != stateName
    requires Recorded(store, stateName, n, MaxRequestsInflight) == 2
    ensures Gave(store, stateName, n, 2, Applying2(a, n, []), 1, store', 1)
  {
    var r := ReadingFor(store[stateName], Applying2(a, n, []), 1, 0);
    store' := Gives(store, stateName, n, 2, Applying2(a, n, []), 1, r);
    IdleOfTwo(r);
  }

  /** After a lost reply a gateway believes what it did before. */
  lemma BelievesMore(s: Gateways.System, stateName: string, a: string, n: string, sum: int, held: int, c: Condition,
                     clients: nat, store': Store, next: int, s': Gateways.System)
    requires Believes(s, stateName, a, n, sum, held) && c.statuses == [] && c.name == a && next <= held
    requires Gave(s.store, stateName, n, 2, c, clients, store', next)
    requires s' == Gateways.Replied(s, n, TypeFor(s.store, stateName, n), c.name, false, store')
    ensures Believes(s', stateName, a, n, sum - held + next, next)
    ensures Gateways.Untold(s', a) == Gateways.Untold(s, a) + held - next
  {
    StaysQuietAfter(s.store, stateName, n, 2, c, clients, store', next);
  }

  /** Another gateway takes the room. */
  lemma TakeRoom(s1: Gateways.System, stateName: string, a: string, b: string, n: string) returns (s2: Gateways.System)
    requires Believes(s1, stateName, a, n, 1, 1) && b !in s1.store && b !in s1.limits && b != a && b != stateName
    ensures Gateways.Next(s1, stateName, n, Gateways.Reconcile(Joining(b, n), 2, true), s2)
    ensures Believes(s2, stateName, a, n, 2, 1) && Gateways.Untold(s2, a) == Gateways.Untold(s1, a)
  {
    var c := Joining(b, n);
    var store' := JoinGives(s1.store, stateName, b, n);
    s2 := GivingIsStep(s1, stateName, n, 2, c, 2, true, store', 1);
    StillBelieves(s1, stateName, a, n, 1, 1, c, 2, store', 1, s2);
  }

  lemma StillBelieves(s: Gateways.System, stateName: string, a: string, n: string, sum: int, held: int, c: Condition,
                      clients: nat, store': Store, next: int, s': Gateways.System)
    requires Believes(s, stateName, a, n, sum, held) && c.statuses == [] && c.name != a && c.name !in s.store
    requires Gave(s.store, stateName, n, 2, c, clients, store', next)
    requires s' == Gateways.Replied(s, n, TypeFor(s.store, stateName, n), c.name, true, store')
    ensures Believes(s', stateName, a, n, sum + next, held) && Gateways.Untold(s', a) == Gateways.Untold(s, a)
  {
    StaysQuietAfter(s.store, stateName, n, 2, c, clients, store', next);
  }

  lemma JoinGives(store: Store, stateName: string, b: string, n: string) returns (store': Store)
    requires stateName in store && Quiet(store[stateName], n, 2) && b != stateName
    requires Recorded(store, stateName, n, MaxRequestsInflight) == 1
    ensures Gave(store, stateName, n, 2, Joining(b, n), 2, store', 1)
  {
    var r := ReadingFor(store[stateName], Joining(b, n), 2, 0);
    store' := Gives(store, stateName, n, 2, Joining(b, n), 2, r);
    NextIsBounded(r);
  }

  /** The first one claims what it was given before, and is given it again. */
  lemma ClaimAgain(s2: Gateways.System, stateName: string, a: string, n: string) returns (s3: Gateways.System)
    requires Believes(s2, stateName, a, n, 2, 1)
    ensures Gateways.Next(s2, stateName, n, Gateways.Reconcile(Applying2(a, n, [ItemStatus(n, TWO, 100)]), 2, true), s3)
    ensures Total(s3.store, stateName, n) == 2 && StoredSum(s3.store, stateName, n, MaxRequestsInflight) == 3
  {
    var c := Applying2(a, n, [ItemStatus(n, TWO, 100)]);
    assert c.statuses[..0] == [];
    assert StatusMap(c.statuses) == map[n := c.statuses[0]];
    var r := ReadingFor(s2.store[stateName], c, 2, 0);
    var store' := Gives(s2.store, stateName, n, 2, c, 2, r);
    SaturatedOfTwo(r);
    s3 := GivingIsStep(s2, stateName, n, 2, c, 2, true, store', 2);
  }

  lemma LoseThenTake(stateName: string, a: string, b: string, n: string, s0: Gateways.System)
    returns (s1: Gateways.System, s2: Gateways.System)
    requires a != b && stateName != b && Believes(s0, stateName, a, n, 2, 2) && b !in s0.store && b !in s0.limits
    ensures Gateways.Next(s0, stateName, n, Gateways.Reconcile(Applying2(a, n, []), 1, false), s1)
    ensures Gateways.Next(s1, stateName, n, Gateways.Reconcile(Joining(b, n), 2, true), s2)
    ensures Believes(s2, stateName, a, n, 2, 1) && Gateways.Untold(s2, a) == Gateways.Untold(s0, a) + 1
  {
    s1 := LoseReply(s0, stateName, a, b, n);
    s2 := TakeRoom(s1, stateName, a, b, n);
  }

  /**
   * A run of the gateways: a is cut from 2 to 1 and the reply is lost, b takes the unit, and a claims 2 again. 3 are
   * handed out of a total of 2, which is the most that one unit a was not told of allows.
   */
  lemma LostReplyOverAllocates(stateName: string, a: string, b: string, n: string)
    returns (s0: Gateways.System, s1: Gateways.System, s2: Gateways.System, s3: Gateways.System)
    requires a != b && stateName !in {a, b}
    ensures s0 == AllHeld(stateName, a, n)
    ensures Gateways.Next(s0, stateName, n, Gateways.Reconcile(Applying2(a, n, []), 1, false), s1)
    ensures Gateways.Next(s1, stateName, n, Gateways.Reconcile(Joining(b, n), 2, true), s2)
    ensures Gateways.Next(s2, stateName, n, Gateways.Reconcile(Applying2(a, n, [ItemStatus(n, TWO, 100)]), 2, true), s3)
    ensures Gateways.Untold(s2, a) == 1 && Total(s3.store, stateName, n) == 2
    ensures StoredSum(s3.store, stateName, n, MaxRequestsInflight) == 3
  {
    AllHeldBelieves(stateName, a, n);
    s0 := AllHeld(stateName, a, n);
    s1, s2 := LoseThenTake(stateName, a, b, n, s0);
    s3 := ClaimAgain(s2, stateName, a, n);
  }
}
