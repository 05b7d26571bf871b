/** The gateway's registry of server names and the controller that keeps it in step with the upstream clusters. */
module Registry {

  // ---------- names ----------

  function LowerChar(c: char): char {
    if 'A' <= c <= 'Z' then (c as int + 32) as char else c
  }

  /** Lower-casing, on ASCII letters only. */
  function Lower(s: string): string {
    seq(|s|, i requires 0 <= i < |s| => LowerChar(s[i]))
  }

  lemma LowerTwice(s: string)
    ensures Lower(Lower(s)) == Lower(s)
  {
  }

  datatype UpstreamCluster = UpstreamCluster(name: string, serverNames: seq<string>)

  /** A cluster the gateway serves; serverNames is what its secure serving configuration lists. */
  datatype ClusterInfo = ClusterInfo(cluster: string, serverNames: seq<string>)

  /** The names a cluster is reached by: its own, then the configured ones in lower case. */
  function Names(info: ClusterInfo): seq<string> {
    [info.cluster] + seq(|info.serverNames|, i requires 0 <= i < |info.serverNames| => Lower(info.serverNames[i]))
  }

  predicate AllLower(names: seq<string>) { forall n :: n in names ==> Lower(n) == n }

  lemma NamesAreLower(info: ClusterInfo)
    requires Lower(info.cluster) == info.cluster
    ensures AllLower(Names(info))
  {
    forall n | n in Names(info) ensures Lower(n) == n {
      var i :| 0 <= i < |Names(info)| && Names(info)[i] == n;
      if i > 0 { LowerTwice(info.serverNames[i - 1]); }
    }
  }

  predicate IsCapital(c: char) { 'A' <= c <= 'Z' }

  /** n is s with every capital turned into the small letter of the same place in the alphabet. */
  predicate IsLowerCase(n: string, s: string) {
    && |n| == |s|
    && forall i :: 0 <= i < |s| ==>
         if IsCapital(s[i]) then n[i] as int - 'a' as int == s[i] as int - 'A' as int else n[i] == s[i]
  }

  lemma LowerIff(n: string, s: string)
    ensures n == Lower(s) <==> IsLowerCase(n, s)
  {
    if IsLowerCase(n, s) {
      forall i | 0 <= i < |s| ensures n[i] == Lower(s)[i] {
      }
    }
  }

  /** A name of a cluster is its own or a configured one in lower case, and nothing else is. */
  lemma NamesIff(info: ClusterInfo, n: string)
    ensures n in Names(info) <==> n == info.cluster || exists s :: s in info.serverNames && IsLowerCase(n, s)
  {
    var names := info.serverNames;
    if n in Names(info) {
      var i :| 0 <= i < |Names(info)| && Names(info)[i] == n;
      if i > 0 {
        LowerIff(n, names[i - 1]);
        assert names[i - 1] in names;
      }
    }
    if n == info.cluster {
      assert Names(info)[0] == n;
    }
    if s :| s in names && IsLowerCase(n, s) {
      var i :| 0 <= i < |names| && names[i] == s;
      LowerIff(n, s);
      assert Names(info)[i + 1] == n;
    }
  }

  method LoadServerNames(info: ClusterInfo) returns (names: seq<string>)
    ensures names == Names(info)
  {
    names := [info.cluster];
    for i := 0 to |info.serverNames|
      invariant |names| == i + 1
      invariant forall j :: 0 <= j <= i ==> names[j] == Names(info)[j]
    {
      names := names + [Lower(info.serverNames[i])];
    }
  }

  // ---------- the registry as a value ----------

  /** clusters holds references to the cluster objects in infos. */
  datatype State = State(clusters: map<string, nat>, infos: map<nat, ClusterInfo>) {
    predicate Closed() {
      && (forall n :: n in clusters ==> clusters[n] in infos && Lower(n) == n)
      && (forall id :: id in infos ==> Lower(infos[id].cluster) == infos[id].cluster)
    }

    /** The name leads to the cluster. */
    predicate Leads(n: string, cluster: string)
      requires Closed()
    {
      n in clusters && infos[clusters[n]].cluster == cluster
    }

    predicate Taken(n: string, cluster: string)
      requires Closed()
    {
      n in clusters && infos[clusters[n]].cluster != cluster
    }

    /** A name leads to a cluster object exactly when that registered object lists the name. */
    ghost predicate Coherent() {
      && Closed()
      && (forall n :: Listed(n))
      && (forall n, m :: Reachable(n, m))
    }

    predicate Listed(n: string)
      requires Closed()
    {
      n in clusters ==> n in Names(infos[clusters[n]])
    }

    predicate Reachable(n: string, m: string)
      requires Closed()
    {
      n in clusters && m in Names(infos[clusters[n]]) ==> m in clusters && clusters[m] == clusters[n]
    }

    predicate Conflict(cluster: string, before: seq<string>, after: seq<string>)
      requires Closed()
    {
      && before != after
      && ((exists n :: n in after && Taken(n, cluster)) ||
          (exists n :: n in before && n !in after && Taken(n, cluster)))
    }

    predicate Dropped(n: string, cluster: string, before: seq<string>, after: seq<string>)
      requires Closed()
    {
      n in before && n !in after && Leads(n, cluster)
    }

    /** The names after object id, which listed before, came to list what it lists now. */
    function Renamed(before: seq<string>, id: nat): map<string, nat>
      requires Closed() && id in infos
    {
      var after := Names(infos[id]);
      map n | n in clusters.Keys + (set m | m in after)
              && (if n in clusters then !Dropped(n, infos[id].cluster, before, after) else n !in before)
        :: if n in after && n !in before then id else clusters[n]
    }

    function Deleted(cluster: string): State
      requires Closed()
    {
      if cluster !in clusters then this
      else
        var listed := Names(infos[clusters[cluster]]);
        this.(clusters := map n | n in clusters && !(n in listed && Leads(n, cluster)) :: clusters[n])
    }

    function NamesOf(cluster: string): seq<string>
      requires Closed()
    {
      if cluster in clusters then Names(infos[clusters[cluster]]) else []
    }
  }

  /** How building or syncing a cluster's configuration ends: with all of it, before the
      server names are stored, or after they are stored and the endpoints could not be set. */
  datatype Outcome = Succeeds | FailsEarly | FailsLate

  datatype Event = Event(cluster: UpstreamCluster, listed: bool, outcome: Outcome, newId: nat) {
    function Name(): string { Lower(cluster.name) }
    function Info(): ClusterInfo { ClusterInfo(Name(), cluster.serverNames) }
  }

  predicate Blocked(s: State, e: Event)
    requires s.Closed()
  {
    s.Conflict(e.Name(), s.NamesOf(e.Name()), Names(e.Info()))
  }

  lemma UnblockedIsOwn(s: State, e: Event)
    requires s.Closed() && !Blocked(s, e) && e.Name() in s.clusters
    ensures s.infos[s.clusters[e.Name()]].cluster == e.Name()
  {
    assert Names(e.Info())[0] == e.Name();
    assert e.Name() in Names(e.Info());
    assert s.NamesOf(e.Name())[0] == s.infos[s.clusters[e.Name()]].cluster;
  }

  /** The state after one event of the controller's queue. */
  function Synced(s: State, e: Event): State
    requires s.Closed() && e.newId !in s.infos
  {
    if !e.listed then s.Deleted(e.Name())
    else if Blocked(s, e) then s
    else if e.Name() !in s.clusters then
      if !e.outcome.Succeeds? then s else Stored(s, [], e.newId, e.Info())
    else
      UnblockedIsOwn(s, e);
      var id := s.clusters[e.Name()];
      match e.outcome
      case FailsEarly => s
      case FailsLate => s.(infos := s.infos[id := e.Info()])
      case Succeeds => Stored(s, Names(s.infos[id]), id, e.Info())
  }

  function Stored(s: State, before: seq<string>, id: nat, info: ClusterInfo): State
    requires s.Closed() && Lower(info.cluster) == info.cluster
    requires id in s.infos ==> s.infos[id].cluster == info.cluster
  {
    var s' := s.(infos := s.infos[id := info]);
    s'.(clusters := s'.Renamed(before, id))
  }

  // ---------- what every event keeps ----------

  lemma OwnName(info: ClusterInfo)
    ensures info.cluster in Names(info)
  {
    assert Names(info)[0] == info.cluster;
  }

  /** Registered cluster objects have different clusters. */
  lemma OneObjectPerCluster(s: State, n: string, m: string)
    requires s.Coherent() && n in s.clusters && m in s.clusters
    requires s.infos[s.clusters[n]].cluster == s.infos[s.clusters[m]].cluster
    ensures s.clusters[n] == s.clusters[m]
  {
    var cluster := s.infos[s.clusters[n]].cluster;
    OwnName(s.infos[s.clusters[n]]);
    OwnName(s.infos[s.clusters[m]]);
    assert s.Reachable(n, cluster) && s.Reachable(m, cluster);
  }

  /** A new object for an unregistered cluster, or a registered object, may take the names. */
  ghost predicate Storable(s: State, before: seq<string>, id: nat, info: ClusterInfo)
    requires s.Coherent()
  {
    && Lower(info.cluster) == info.cluster
    && (if id in s.infos then
          s.Leads(info.cluster, info.cluster) && s.clusters[info.cluster] == id && before == Names(s.infos[id])
        else before == [] && info.cluster !in s.clusters)
    && (before != Names(info) ==> forall n :: n in Names(info) ==> !s.Taken(n, info.cluster))
  }

  lemma FreeName(s: State, before: seq<string>, id: nat, info: ClusterInfo, n: string)
    requires s.Coherent() && Storable(s, before, id, info)
    requires n in Names(info) && n in s.clusters
    ensures s.clusters[n] == id
  {
    if n in before {
      assert s.Reachable(info.cluster, n);
    } else {
      OwnName(s.infos[s.clusters[n]]);
      assert s.Reachable(n, info.cluster);
    }
  }

  /** What each name leads to afterwards. */
  lemma StoredAt(s: State, before: seq<string>, id: nat, info: ClusterInfo, n: string)
    requires s.Coherent() && Storable(s, before, id, info)
    ensures var s' := Stored(s, before, id, info);
            if n in Names(info) then n in s'.clusters && s'.clusters[n] == id
            else if n in s.clusters && s.clusters[n] != id then n in s'.clusters && s'.clusters[n] == s.clusters[n]
            else n !in s'.clusters
  {
    if n in Names(info) && n in s.clusters { FreeName(s, before, id, info, n); }
    assert s.Listed(n) && s.Reachable(info.cluster, n);
  }

  lemma StoredIsCoherent(s: State, before: seq<string>, id: nat, info: ClusterInfo)
    requires s.Coherent() && Storable(s, before, id, info)
    ensures Stored(s, before, id, info).Coherent()
  {
    var s' := Stored(s, before, id, info);
    NamesAreLower(info);
    forall n | n in s'.clusters ensures s'.clusters[n] in s'.infos && Lower(n) == n {
      StoredAt(s, before, id, info, n);
    }
    forall n ensures s'.Listed(n) {
      StoredAt(s, before, id, info, n);
      assert s.Listed(n);
    }
    forall n, m ensures s'.Reachable(n, m) {
      StoredReaches(s, before, id, info, n, m);
    }
  }

  lemma StoredReaches(s: State, before: seq<string>, id: nat, info: ClusterInfo, n: string, m: string)
    requires s.Coherent() && Storable(s, before, id, info)
    requires Stored(s, before, id, info).Closed()
    ensures Stored(s, before, id, info).Reachable(n, m)
  {
    var s' := Stored(s, before, id, info);
    StoredAt(s, before, id, info, n);
    StoredAt(s, before, id, info, m);
    assert s.Reachable(n, m);
    if m in s.clusters && m in Names(info) { FreeName(s, before, id, info, m); }
  }

  lemma UnblockedIsStorable(s: State, e: Event)
    requires s.Coherent() && e.newId !in s.infos && !Blocked(s, e)
    ensures var registered := e.Name() in s.clusters;
            Storable(s, s.NamesOf(e.Name()), if registered then s.clusters[e.Name()] else e.newId, e.Info())
  {
    LowerTwice(e.cluster.name);
    if e.Name() in s.clusters { UnblockedIsOwn(s, e); }
  }

  lemma SyncKeepsCoherence(s: State, e: Event)
    requires s.Coherent() && e.newId !in s.infos
    requires !e.outcome.FailsLate?
    ensures Synced(s, e).Coherent()
  {
    if !e.listed {
      DeletedIsCoherent(s, e.Name());
    } else if !Blocked(s, e) {
      UnblockedIsStorable(s, e);
      if e.Name() in s.clusters {
        StoredIsCoherent(s, s.NamesOf(e.Name()), s.clusters[e.Name()], e.Info());
      } else {
        StoredIsCoherent(s, [], e.newId, e.Info());
      }
    }
  }

  /** Deletion takes away exactly the names that lead to the cluster. */
  lemma DeletedExactly(s: State, cluster: string, n: string)
    requires s.Coherent()
    ensures n in s.Deleted(cluster).clusters <==> n in s.clusters && !s.Leads(n, cluster)
    ensures n in s.Deleted(cluster).clusters ==> s.Deleted(cluster).clusters[n] == s.clusters[n]
  {
    if s.Leads(n, cluster) {
      OwnName(s.infos[s.clusters[n]]);
      assert s.Reachable(n, cluster) && s.Listed(n);
    }
  }

  lemma DeletedIsCoherent(s: State, cluster: string)
    requires s.Coherent()
    ensures s.Deleted(cluster).Coherent()
    ensures forall n :: !s.Deleted(cluster).Leads(n, cluster)
  {
    var s' := s.Deleted(cluster);
    forall n ensures s'.Listed(n) && !s'.Leads(n, cluster) {
      DeletedExactly(s, cluster, n);
      assert s.Listed(n);
    }
    forall n, m ensures s'.Reachable(n, m) {
      DeletedExactly(s, cluster, n);
      DeletedExactly(s, cluster, m);
      assert s.Reachable(n, m);
    }
  }

  /** The registry stays coherent over every run in which storing a configuration does not fail half-way. */
  lemma RegistryStaysCoherent(states: seq<State>, events: seq<Event>, k: nat)
    requires |states| == |events| + 1 && k <= |events| && states[0].Coherent()
    requires forall i :: 0 <= i < |events| ==>
               && states[i].Closed() && events[i].newId !in states[i].infos
               && states[i + 1] == Synced(states[i], events[i])
    requires forall i :: 0 <= i < |events| ==> !events[i].outcome.FailsLate?
    ensures states[k].Coherent()
  {
    for j := 0 to k
      invariant states[j].Coherent()
    {
      SyncKeepsCoherence(states[j], events[j]);
    }
  }

  // ---------- what an event achieves ----------

  /** In a coherent registry an update is refused exactly when a name it wants leads to another cluster. */
  lemma BlockedIff(s: State, e: Event)
    requires s.Coherent()
    ensures Blocked(s, e) <==> exists n :: n in Names(e.Info()) && s.Taken(n, e.Name())
  {
    var name := e.Name();
    OwnName(e.Info());
    if name in s.clusters {
      var own := s.infos[s.clusters[name]];
      assert s.NamesOf(name)[0] == own.cluster && Names(e.Info())[0] == name;
      if own.cluster != name {
        assert s.Taken(name, name);
      } else {
        forall n | n in s.NamesOf(name) ensures !s.Taken(n, name) { assert s.Reachable(name, n); }
      }
    }
  }

  /** A cluster that cannot be created, or whose configuration cannot be stored, changes no name. */
  lemma FailedSyncKeepsNames(s: State, e: Event)
    requires s.Closed() && e.newId !in s.infos && e.listed && !e.outcome.Succeeds?
    ensures Synced(s, e).clusters == s.clusters
  {
  }

  /** In any registry, registering names takes no name away that leads to another cluster. */
  lemma OthersNamesStay(s: State, before: seq<string>, id: nat, n: string)
    requires s.Closed() && id in s.infos && s.Taken(n, s.infos[id].cluster) && n !in Names(s.infos[id])
    ensures n in s.Renamed(before, id) && s.Renamed(before, id)[n] == s.clusters[n]
  {
  }

  /** In any registry, a name that an update gives up and that leads to another cluster blocks it as well. */
  lemma GivenUpNameBlocks(s: State, e: Event, n: string)
    requires s.Closed() && n in s.NamesOf(e.Name()) && n !in Names(e.Info()) && s.Taken(n, e.Name())
    ensures Blocked(s, e)
  {
    assert s.NamesOf(e.Name()) != Names(e.Info());
  }

  /** After a successful sync exactly the listed names lead to the cluster, and nobody else's name moved. */
  lemma SyncTakesEffect(s: State, e: Event, n: string)
    requires s.Coherent() && e.newId !in s.infos
    requires e.listed && !Blocked(s, e) && e.outcome.Succeeds?
    ensures Synced(s, e).Closed()
    ensures Synced(s, e).Leads(n, e.Name()) <==> n in Names(e.Info())
    ensures s.Taken(n, e.Name()) ==> n in Synced(s, e).clusters && Synced(s, e).clusters[n] == s.clusters[n]
  {
    SyncKeepsCoherence(s, e);
    UnblockedIsStorable(s, e);
    var id := if e.Name() in s.clusters then s.clusters[e.Name()] else e.newId;
    StoredAt(s, s.NamesOf(e.Name()), id, e.Info(), n);
    OnlyOneObject(s, n, e.Name(), id);
  }

  lemma OnlyOneObject(s: State, n: string, cluster: string, id: nat)
    requires s.Coherent()
    requires if cluster in s.clusters then s.clusters[cluster] == id else id !in s.infos
    ensures s.Leads(n, cluster) ==> s.clusters[n] == id
  {
    if s.Leads(n, cluster) {
      OwnName(s.infos[s.clusters[n]]);
      assert s.Reachable(n, cluster);
    }
  }

  // ---------- a configuration that is stored half-way ----------

  predicate FailsHalfWay(s: State, e: Event)
    requires s.Closed()
  {
    e.listed && !Blocked(s, e) && e.Name() in s.clusters && e.outcome.FailsLate?
  }

  /** The registry survives such a failure exactly when the new names are the old ones. */
  lemma HalfWayFailureIsHarmlessIff(s: State, e: Event)
    requires s.Coherent() && e.newId !in s.infos && FailsHalfWay(s, e)
    ensures Synced(s, e).Coherent() <==> forall n :: n in s.NamesOf(e.Name()) <==> n in Names(e.Info())
  {
    var s', name := Synced(s, e), e.Name();
    UnblockedIsStorable(s, e);
    OwnName(e.Info());
    forall n ensures n in s.NamesOf(name) ==> s.Leads(n, name) && s.clusters[n] == s.clusters[name] {
      assert s.Reachable(name, n);
    }
    if s'.Coherent() {
      forall n ensures n in s.NamesOf(name) <==> n in Names(e.Info()) {
        assert s'.Listed(n) && s'.Reachable(name, n) && s.Listed(n);
      }
    }
    if forall n :: n in s.NamesOf(name) <==> n in Names(e.Info()) {
      forall n ensures s'.Listed(n) { assert s.Listed(n); }
      forall n, m ensures s'.Reachable(n, m) { assert s.Reachable(n, m); }
    }
  }

  /** Syncing the same cluster again does not repair the registry: the stored names look up to date. */
  lemma RetryDoesNotRepair(s: State, e: Event, retry: Event)
    requires s.Closed() && e.newId !in s.infos && FailsHalfWay(s, e)
    requires retry.cluster == e.cluster && retry.listed && retry.newId !in Synced(s, e).infos
    ensures Synced(s, e).Closed() && Synced(Synced(s, e), retry).clusters == s.clusters
  {
    LowerTwice(e.cluster.name);
    UnblockedIsOwn(s, e);
    var s' := Synced(s, e);
    assert s'.NamesOf(e.Name()) == Names(retry.Info());
    assert Synced(s', retry).clusters == s'.clusters;
  }

  /** Deleting the cluster then leaves behind exactly the names it had given up. */
  lemma DeletionStrands(s: State, e: Event, gone: Event, n: string)
    requires s.Coherent() && e.newId !in s.infos && FailsHalfWay(s, e)
    requires gone.cluster == e.cluster && !gone.listed && gone.newId !in Synced(s, e).infos
    ensures Synced(s, e).Closed()
    ensures Synced(Synced(s, e), gone).Leads(n, e.Name()) <==> n in s.NamesOf(e.Name()) && n !in Names(e.Info())
  {
    LowerTwice(e.cluster.name);
    UnblockedIsOwn(s, e);
    assert s.Reachable(e.Name(), n) && s.Listed(n);
    OnlyOneObject(s, n, e.Name(), s.clusters[e.Name()]);
  }

  // ---------- the controller ----------

  class UpstreamClusterController {
    var clusters: map<string, nat>
    var infos: map<nat, ClusterInfo>

    function Now(): State
      reads this
    {
      State(clusters, infos)
    }

    method CheckServerNameConflict(cluster: string, before: seq<string>, after: seq<string>) returns (ok: bool)
      requires Now().Closed()
      ensures ok <==> !Now().Conflict(cluster, before, after)
    {
      if before == after {
        return true;
      }
      for i := 0 to |after|
        invariant forall j :: 0 <= j < i ==> !Now().Taken(after[j], cluster)
      {
        if after[i] in clusters && infos[clusters[after[i]]].cluster != cluster {
          assert Now().Taken(after[i], cluster) && after[i] in after;
          return false;
        }
      }
      for i := 0 to |before|
        invariant forall j :: 0 <= j < i && before[j] !in after ==> !Now().Taken(before[j], cluster)
      {
        if before[i] !in after && before[i] in clusters && infos[clusters[before[i]]].cluster != cluster {
          assert Now().Taken(before[i], cluster) && before[i] in before;
          return false;
        }
      }
      return true;
    }

    method AddOrUpdateForServerNames(before: seq<string>, id: nat) returns (ok: bool)
      requires Now().Closed() && id in infos
      modifies this`clusters
      ensures ok <==> !old(Now()).Conflict(infos[id].cluster, before, Names(infos[id]))
      ensures clusters == if ok then old(Now()).Renamed(before, id) else old(clusters)
    {
      var after := LoadServerNames(infos[id]);
      ghost var was := Now();
      if before == after {
        DroppedThenAdded(was, before, id, clusters, clusters);
        return true;
      }
      ok := CheckServerNameConflict(infos[id].cluster, before, after);
      if !ok {
        return;
      }
      RemoveNames(before, after, infos[id].cluster);
      ghost var kept := clusters;
      AddNames(before, after, id);
      DroppedThenAdded(was, before, id, kept, clusters);
    }

    method RemoveNames(before: seq<string>, after: seq<string>, cluster: string)
      requires Now().Closed()
      modifies this`clusters
      ensures Now().Closed()
      ensures forall n :: n in clusters <==> n in old(clusters) && !old(Now()).Dropped(n, cluster, before, after)
      ensures forall n :: n in clusters ==> clusters[n] == old(clusters)[n]
    {
      ghost var was := Now();
      for i := 0 to |before|
        invariant Now().Closed()
        invariant forall n :: n in clusters <==> n in was.clusters && !was.Dropped(n, cluster, before[..i], after)
        invariant forall n :: n in clusters ==> clusters[n] == was.clusters[n]
      {
        var n := before[i];
        assert before[..i + 1] == before[..i] + [n];
        if n !in after && n in clusters && infos[clusters[n]].cluster == cluster {
          clusters := clusters - {n};
        }
      }
      assert before[..|before|] == before;
    }

    method AddNames(before: seq<string>, after: seq<string>, id: nat)
      modifies this`clusters
      ensures forall n :: n in clusters <==> n in old(clusters) || (n in after && n !in before)
      ensures forall n :: n in clusters ==> clusters[n] == if n in after && n !in before then id else old(clusters)[n]
    {
      ghost var was := clusters;
      for i := 0 to |after|
        invariant forall n :: n in clusters <==> n in was || (n in after[..i] && n !in before)
        invariant forall n :: n in clusters ==> clusters[n] == if n in after[..i] && n !in before then id else was[n]
      {
        assert after[..i + 1] == after[..i] + [after[i]];
        if after[i] !in before {
          clusters := clusters[after[i] := id];
        }
      }
      assert after[..|after|] == after;
    }

    method DeleteForServerNames(cluster: string)
      requires Now().Closed()
      modifies this`clusters
      ensures Now() == old(Now()).Deleted(cluster)
    {
      if cluster in clusters {
        var names := LoadServerNames(infos[clusters[cluster]]);
        RemoveNames(names, [], cluster);
      }
    }

    /** One event of the queue; after the check has passed, registering the names cannot fail. */
    method SyncUpstreamCluster(e: Event) returns (requeue: bool)
      requires Now().Closed() && e.newId !in infos
      modifies this
      ensures Now() == Synced(old(Now()), e)
      ensures requeue <==> e.listed && (Blocked(old(Now()), e) || !e.outcome.Succeeds?)
    {
      ghost var was := Now();
      var name := Lower(e.cluster.name);
      LowerTwice(e.cluster.name);
      if !e.listed {
        DeleteForServerNames(name);
        return false;
      }
      var after := LoadServerNames(ClusterInfo(name, e.cluster.serverNames));
      var before := [];
      if name in clusters {
        before := LoadServerNames(infos[clusters[name]]);
      }
      var ok := CheckServerNameConflict(name, before, after);
      if !ok {
        return true;
      }
      if name !in clusters {
        if !e.outcome.Succeeds? {
          DeleteForServerNames(name);
          return true;
        }
        infos := infos[e.newId := ClusterInfo(name, e.cluster.serverNames)];
        SameConflict(was, Now(), name, before, after);
        ok := AddOrUpdateForServerNames([], e.newId);
        return !ok;
      }
      UnblockedIsOwn(was, e);
      if e.outcome.FailsEarly? {
        return true;
      }
      var id := clusters[name];
      infos := infos[id := ClusterInfo(name, e.cluster.serverNames)];
      if e.outcome.FailsLate? {
        return true;
      }
      SameConflict(was, Now(), name, before, after);
      ok := AddOrUpdateForServerNames(before, id);
      return !ok;
    }
  }

  lemma DroppedThenAdded(s: State, before: seq<string>, id: nat, kept: map<string, nat>, result: map<string, nat>)
    requires s.Closed() && id in s.infos
    requires var after, cluster := Names(s.infos[id]), s.infos[id].cluster;
             && (forall n :: n in kept <==> n in s.clusters && !s.Dropped(n, cluster, before, after))
             && (forall n :: n in kept ==> kept[n] == s.clusters[n])
             && (forall n :: n in result <==> n in kept || (n in after && n !in before))
             && (forall n :: n in result ==> result[n] == if n in after && n !in before then id else kept[n])
    ensures result == s.Renamed(before, id)
  {
  }

  lemma SameConflict(s: State, s': State, cluster: string, before: seq<string>, after: seq<string>)
    requires s.Closed() && s'.Closed() && s.clusters == s'.clusters
    requires forall n :: n in s.clusters ==> s.infos[s.clusters[n]].cluster == s'.infos[s.clusters[n]].cluster
    ensures s.Conflict(cluster, before, after) == s'.Conflict(cluster, before, after)
  {
    assert forall n :: s.Taken(n, cluster) == s'.Taken(n, cluster);
  }
}
