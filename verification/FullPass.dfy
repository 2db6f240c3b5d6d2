// The full pass (internal/controller/main_reconciler.go).
module FullPass {
  import opened Wrappers
  import opened Sequences
  import opened SpireApi
  import opened Store
  import opened State
  import opened Convergence
  import opened Rendering
  import opened ClusterManager
  import opened Declaration
  import opened SpireClient

  // ----- the connection phase, on the registries behind the connections

  /** AddOrUpdateCluster for each listed registry, with what the clusters answer. */
  function ConnectAll(m: Registries, listed: seq<Cluster>, answers: seq<Answer>): Registries
    requires |answers| == |listed|
  {
    if listed == [] then m
    else
      var n := |listed| - 1;
      AddOrUpdated(ConnectAll(m, listed[..n], answers[..n]), listed[n], answers[n])
  }

  function EnabledNames(listed: seq<Cluster>): set<string> {
    set c | c in listed && c.spec.enabled :: c.name
  }

  /** The connection phase: connect, then drop what is not listed as enabled. */
  function ConnectionPhase(m: Registries, listed: seq<Cluster>, answers: seq<Answer>): Registries
    requires |answers| == |listed|
  {
    Only(ConnectAll(m, listed, answers), EnabledNames(listed))
  }

  function Only(m: Registries, names: set<string>): Registries {
    map n | n in m && n in names :: m[n]
  }

  lemma OnlyByRemoval(m: Registries, names: set<string>, others: set<string>)
    requires m.Keys - others == m.Keys * names
    ensures m - others == Only(m, names)
  {
  }

  ghost predicate DistinctNames(listed: seq<Cluster>) {
    forall i, j | 0 <= i < j < |listed| :: listed[i].name != listed[j].name
  }

  lemma {:induction false} NotListed(m: Registries, listed: seq<Cluster>, answers: seq<Answer>, name: string)
    requires |answers| == |listed| && forall c | c in listed :: c.name != name
    ensures
      var r := ConnectAll(m, listed, answers);
      (name in r <==> name in m) && (name in m ==> r[name] == m[name])
  {
    if listed != [] {
      var n := |listed| - 1;
      NotListed(m, listed[..n], answers[..n], name);
      assert listed[n] in listed;
    }
  }

  lemma {:induction false} ListedOnce(m: Registries, listed: seq<Cluster>, answers: seq<Answer>, i: nat)
    requires |answers| == |listed| && DistinctNames(listed) && i < |listed|
    ensures
      var r, c := ConnectAll(m, listed, answers), listed[i];
      && (c.name in r <==>
            (c.name in m && SameTarget(m[c.name].spec, c.spec)) || (c.spec.enabled && answers[i].Reachable?))
      && (c.name in r ==> r[c.name] == c)
  {
    var n := |listed| - 1;
    if i == n {
      NotListed(m, listed[..n], answers[..n], listed[i].name);
    } else {
      ListedOnce(m, listed[..n], answers[..n], i);
      assert listed[i].name != listed[n].name;
    }
  }

  /** There was a connection to the same EKS cluster, in the same region and through the same role. */
  ghost predicate HadConnection(m: Registries, c: Cluster) {
    && c.name in m
    && m[c.name].spec.clusterName == c.spec.clusterName
    && m[c.name].spec.region == c.spec.region
    && m[c.name].spec.assumeRoleARN == c.spec.assumeRoleARN
  }

  /** After the connection phase there are connections exactly for the enabled listed registries that
      had one to the same target or for which one could be made, and each holds the listed registry. */
  lemma ConnectionPhaseExact(m: Registries, listed: seq<Cluster>, answers: seq<Answer>)
    requires |answers| == |listed| && DistinctNames(listed)
    ensures
      var r := ConnectionPhase(m, listed, answers);
      && (forall i | 0 <= i < |listed| ::
            var c := listed[i];
            && (c.name in r <==>
                  c.spec.enabled && (answers[i].Reachable? || HadConnection(m, c)))
            && (c.name in r ==> r[c.name] == c))
      && (forall n | n in r :: r[n] in listed && r[n].spec.enabled && r[n].name == n)
  {
    var r := ConnectionPhase(m, listed, answers);
    forall i | 0 <= i < |listed|
      ensures
        var c := listed[i];
        && (c.name in r <==>
              c.spec.enabled && (answers[i].Reachable? || HadConnection(m, c)))
        && (c.name in r ==> r[c.name] == c)
    {
      ListedOnce(m, listed, answers, i);
      if listed[i].name in EnabledNames(listed) {
        var c :| c in listed && c.spec.enabled && c.name == listed[i].name;
        var j :| 0 <= j < |listed| && listed[j] == c;
        assert i == j;
      }
    }
    forall n | n in r
      ensures r[n] in listed && r[n].spec.enabled && r[n].name == n
    {
      var c :| c in listed && c.spec.enabled && c.name == n;
      var i :| 0 <= i < |listed| && listed[i] == c;
      assert listed[i].name in r;
    }
  }

  // ----- the pass

  /** How far a pass came, and what it worked from. */
  datatype Outcome = Aborted | Done(w: World, plan: Plan, landings: Landings)

  /** From request `r` on, each call is carried out unless the environment loses it. */
  ghost predicate LandsFrom(fates: nat -> Fate, r: nat, took: seq<bool>) {
    forall i | 0 <= i < |took| :: took[i] <==> 0 !in fates(r + i).lost
  }

  /** The calls of a pass in the order in which it makes them. */
  function InOrder(l: Landings): seq<bool> {
    l.deletes + l.creates + l.updates
  }

  lemma LandsNone(fates: nat -> Fate, r: nat)
    ensures LandsFrom(fates, r, [])
  {
  }

  lemma LandsNext(fates: nat -> Fate, r: nat, took: seq<bool>, t: bool)
    requires LandsFrom(fates, r, took) && (t <==> 0 !in fates(r + |took|).lost)
    ensures LandsFrom(fates, r, took + [t])
  {
  }

  lemma LandsAppend(fates: nat -> Fate, r: nat, took: seq<bool>, more: seq<bool>)
    requires LandsFrom(fates, r, took) && LandsFrom(fates, r + |took|, more)
    ensures LandsFrom(fates, r, took + more)
  {
    forall i | 0 <= i < |took + more|
      ensures (took + more)[i] <==> 0 !in fates(r + i).lost
    {
      if i >= |took| {
        assert more[i - |took|] <==> 0 !in fates(r + |took| + (i - |took|)).lost;
      }
    }
  }

  class MainReconciler {
    const env: Env
    const cfg: Config
    const ignored: string -> bool     // isNamespaceIgnored
    const manager: Manager
    const client: Client

    constructor (env: Env, cfg: Config, ignored: string -> bool, manager: Manager, client: Client)
      ensures this.env == env && this.cfg == cfg && this.ignored == ignored
      ensures this.manager == manager && this.client == client
    {
      this.env, this.cfg, this.ignored := env, cfg, ignored;
      this.manager, this.client := manager, client;
    }

    /** shouldProcessEntry */
    predicate ShouldProcessEntry(entry: Entry) {
      if cfg.prefix == "" then true else cfg.prefix <= entry.id
    }

    method GetPodsFromInformer(conn: ClusterConnection, identity: Identity) returns (err: bool, pods: seq<Pod>)
      ensures forall p :: p in pods <==>
                && p in conn.pods && p.namespace == identity.namespace
                && identity.podSelector.Matching? && identity.podSelector.matches(p.labels)
      ensures pods == MatchingPods(conn.pods, identity)
      ensures err <==> identity.podSelector.Invalid?
    {
      WhichPodsMatch(conn.pods, identity);
      pods := [];
      if identity.podSelector.Invalid? {
        NothingMatches(conn.pods, identity);
        return true, pods;
      }
      var objs := conn.pods;
      for i := 0 to |objs|
        invariant pods == MatchingPods(objs[..i], identity)
      {
        FlatMapNext(objs, IfMatches(identity), i);
        var pod := objs[i];
        if pod.namespace != identity.namespace {
          continue;
        }
        if !Selects(identity.podSelector, pod.labels) {
          continue;
        }
        pods := pods + [pod];
      }
      assert objs[..|objs|] == objs;
      err := false;
    }

    method ProcessWorkloadIdentity(identity: Identity, conn: ClusterConnection, state: EntriesState)
      requires state.Valid() && state.Cfg() == cfg
      modifies state`declared
      ensures state.Valid()
      ensures state.declared == Declare(cfg, old(state.declared),
                if ignored(identity.namespace) then [] else IdentityEntries(env, conn.View(), identity))
    {
      hide Declare, Rendered, MatchingPods, FlatMap, Address, IsRendering, IsDataFor, Matches, IdentityEntries, Keyed;
      DeclareNone(cfg, state.declared);
      if ignored(identity.namespace) {
        return;
      }
      var err, pods := GetPodsFromInformer(conn, identity);
      ghost var entries := PodEntries(env, identity, conn.View());
      EntriesOfPods(env, identity, conn.View());
      if err {
        NothingMatches(conn.pods, identity);
        return;
      }
      assert pods[..0] == [];
      for i := 0 to |pods|
        invariant state.Valid()
        invariant state.declared == Declare(cfg, old(state.declared), FlatMap(pods[..i], entries))
      {
        FlatMapNext(pods, entries, i);
        var pod := pods[i];
        assert FlatMap(pods[..i], entries) + [] == FlatMap(pods[..i], entries);
        if pod.phase != RUNNING || pod.deleting {
          continue;
        }
        if pod.nodeName == "" {
          continue;
        }
        var node := conn.nodes(pod.nodeName);
        if node.None? {
          continue;
        }
        var entry := RenderEntry(env, identity, conn.cluster, pod, node.value);
        if entry.None? {
          continue;
        }
        state.AddDeclared(entry.value);
        DeclareNext(cfg, old(state.declared), FlatMap(pods[..i], entries), entry.value);
      }
      assert pods[..|pods|] == pods;
    }

    method ProcessCluster(conn: ClusterConnection, identities: seq<Identity>, state: EntriesState)
      requires state.Valid() && state.Cfg() == cfg
      modifies state`declared
      ensures state.Valid()
      ensures state.declared ==
        Declare(cfg, old(state.declared), ClusterEntries(env, ignored, identities)(conn.View()))
    {
      ghost var entries := IfTargets(env, ignored, conn.View());
      for i := 0 to |identities|
        invariant state.Valid()
        invariant state.declared == Declare(cfg, old(state.declared), FlatMap(identities[..i], entries))
      {
        FlatMapNext(identities, entries, i);
        DeclareAppend(cfg, old(state.declared), FlatMap(identities[..i], entries), entries(identities[i]));
        if !Targets(identities[i], conn.cluster) {
          continue;
        }
        ProcessWorkloadIdentity(identities[i], conn, state);
      }
      assert identities[..|identities|] == identities;
    }

    /** Replays the diff on the server: deletes, creates, updates; every error is only counted. */
    method ApplyEntryChanges(state: EntriesState)
      returns (errors: nat, ghost plan: Plan, ghost l: Landings)
      requires state.Valid() && client.server.Valid()
      modifies client.server
      ensures client.server.Valid()
      ensures IsPlan(plan, state.current, state.declared) && Fits(l, plan)
      ensures client.server.entries == Pass(old(client.server.entries), plan, l)
      ensures client.server.requests == old(client.server.requests) + |InOrder(l)|
      ensures LandsFrom(client.server.fates, old(client.server.requests), InOrder(l))
      ensures errors == 0 ==> l == NoFailure(plan)
      ensures client.server.faults >= old(client.server.faults)
      ensures client.server.faults == old(client.server.faults) ==> l == NoFailure(plan)
    {
      hide LandsFrom, Run, IsPlan, Server.Valid;
      var toCreate, toUpdate, toDelete := state.GetChanges();
      plan := Plan(toCreate, toUpdate, toDelete);
      var deleteErrors; ghost var deletes;
      deleteErrors, deletes := ApplyDeletes(toDelete);
      var createErrors; ghost var creates;
      createErrors, creates := ApplyCreates(toCreate);
      var updateErrors; ghost var updates;
      updateErrors, updates := ApplyUpdates(toUpdate);
      errors := createErrors + updateErrors + deleteErrors;
      l := Landings(deletes, creates, updates);
      LandsAppend(client.server.fates, old(client.server.requests), deletes, creates);
      LandsAppend(client.server.fates, old(client.server.requests), deletes + creates, updates);
    }

    method ApplyDeletes(toDelete: seq<Entry>) returns (errors: nat, ghost took: seq<bool>)
      requires client.server.Valid()
      modifies client.server
      ensures client.server.Valid() && |took| == |toDelete|
      ensures client.server.entries == Run(old(client.server.entries), Deletes(IDs(toDelete)), took)
      ensures client.server.requests == old(client.server.requests) + |took|
      ensures LandsFrom(client.server.fates, old(client.server.requests), took)
      ensures errors == 0 ==> took == AllTrue(|toDelete|)
      ensures client.server.faults >= old(client.server.faults)
      ensures client.server.faults == old(client.server.faults) ==> took == AllTrue(|toDelete|)
    {
      errors, took := 0, [];
      ghost var calls, m := Deletes(IDs(toDelete)), client.server.entries;
      RunNothing(m, calls);
      hide Run, Statuses, Effect, StatusOf, LandsFrom, Server.Valid, Server.NextFate, Keyed;
      LandsNone(client.server.fates, client.server.requests);
      for i := 0 to |toDelete|
        invariant client.server.Valid() && |took| == i
        invariant client.server.entries == Run(m, calls[..i], took)
        invariant client.server.requests == old(client.server.requests) + |took|
        invariant LandsFrom(client.server.fates, old(client.server.requests), took)
        invariant client.server.faults >= old(client.server.faults)
        invariant errors == 0 || client.server.faults == old(client.server.faults) ==> took == AllTrue(i)
      {
        ghost var now := client.server.entries;
        var err; ghost var t;
        err, t := client.DeleteEntry(toDelete[i].id);
        RunOne(now, calls[i], t);
        RunNext(m, calls, took, t);
        LandsNext(client.server.fates, old(client.server.requests), took, t);
        took := took + [t];
        if err {
          errors := errors + 1;
        }
      }
      assert calls[..|calls|] == calls;
    }

    method ApplyCreates(toCreate: seq<Entry>) returns (errors: nat, ghost took: seq<bool>)
      requires client.server.Valid()
      modifies client.server
      ensures client.server.Valid() && |took| == |toCreate|
      ensures client.server.entries == Run(old(client.server.entries), Creates(toCreate), took)
      ensures client.server.requests == old(client.server.requests) + |took|
      ensures LandsFrom(client.server.fates, old(client.server.requests), took)
      ensures errors == 0 ==> took == AllTrue(|toCreate|)
      ensures client.server.faults >= old(client.server.faults)
      ensures client.server.faults == old(client.server.faults) ==> took == AllTrue(|toCreate|)
    {
      errors, took := 0, [];
      ghost var calls, m := Creates(toCreate), client.server.entries;
      RunNothing(m, calls);
      hide Run, Statuses, Effect, StatusOf, LandsFrom, Server.Valid, Server.NextFate, Keyed;
      LandsNone(client.server.fates, client.server.requests);
      for i := 0 to |toCreate|
        invariant client.server.Valid() && |took| == i
        invariant client.server.entries == Run(m, calls[..i], took)
        invariant client.server.requests == old(client.server.requests) + |took|
        invariant LandsFrom(client.server.fates, old(client.server.requests), took)
        invariant client.server.faults >= old(client.server.faults)
        invariant errors == 0 || client.server.faults == old(client.server.faults) ==> took == AllTrue(i)
      {
        ghost var now := client.server.entries;
        var err; ghost var t;
        err, t := client.CreateEntry(toCreate[i]);
        RunOne(now, calls[i], t);
        RunNext(m, calls, took, t);
        LandsNext(client.server.fates, old(client.server.requests), took, t);
        took := took + [t];
        if err {
          errors := errors + 1;
        }
      }
      assert calls[..|calls|] == calls;
    }

    method ApplyUpdates(toUpdate: seq<Entry>) returns (errors: nat, ghost took: seq<bool>)
      requires client.server.Valid()
      modifies client.server
      ensures client.server.Valid() && |took| == |toUpdate|
      ensures client.server.entries == Run(old(client.server.entries), Updates(toUpdate), took)
      ensures client.server.requests == old(client.server.requests) + |took|
      ensures LandsFrom(client.server.fates, old(client.server.requests), took)
      ensures errors == 0 ==> took == AllTrue(|toUpdate|)
      ensures client.server.faults >= old(client.server.faults)
      ensures client.server.faults == old(client.server.faults) ==> took == AllTrue(|toUpdate|)
    {
      errors, took := 0, [];
      ghost var calls, m := Updates(toUpdate), client.server.entries;
      RunNothing(m, calls);
      hide Run, Statuses, Effect, StatusOf, LandsFrom, Server.Valid, Server.NextFate, Keyed;
      LandsNone(client.server.fates, client.server.requests);
      for i := 0 to |toUpdate|
        invariant client.server.Valid() && |took| == i
        invariant client.server.entries == Run(m, calls[..i], took)
        invariant client.server.requests == old(client.server.requests) + |took|
        invariant LandsFrom(client.server.fates, old(client.server.requests), took)
        invariant client.server.faults >= old(client.server.faults)
        invariant errors == 0 || client.server.faults == old(client.server.faults) ==> took == AllTrue(i)
      {
        ghost var now := client.server.entries;
        var err; ghost var t;
        err, t := client.UpdateEntry(toUpdate[i]);
        RunOne(now, calls[i], t);
        RunNext(m, calls, took, t);
        LandsNext(client.server.fates, old(client.server.requests), took, t);
        took := took + [t];
        if err {
          errors := errors + 1;
        }
      }
      assert calls[..|calls|] == calls;
    }

    /** The first part of a pass: connects to the listed registries and drops the other connections. */
    method UpdateConnections(listed: seq<Cluster>, answers: seq<Answer>)
      requires manager.Valid() && |answers| == |listed|
      modifies manager.Repr
      ensures manager.Valid() && fresh(manager.Repr - old(manager.Repr))
      ensures manager.Specs() == ConnectionPhase(old(manager.Specs()), listed, answers)
    {
      hide Manager.Valid, Manager.Specs, Manager.Connections;
      for i := 0 to |listed|
        invariant manager.Valid() && fresh(manager.Repr - old(manager.Repr))
        invariant manager.Specs() == ConnectAll(old(manager.Specs()), listed[..i], answers[..i])
      {
        var err := manager.AddOrUpdateCluster(listed[i], answers[i]);
        assert listed[..i + 1][..i] == listed[..i] && answers[..i + 1][..i] == answers[..i];
      }
      assert listed[..|listed|] == listed && answers[..|listed|] == answers;
      manager.InRepr();
      DropOthers(listed);
    }

    method DropOthers(listed: seq<Cluster>)
      requires manager.Valid()
      modifies manager`clusters, manager.channels
      ensures manager.Valid()
      ensures manager.Specs() == Only(old(manager.Specs()), EnabledNames(listed))
    {
      hide *;
      var existing := ExistingClusters(listed);
      var conns := manager.GetAllConnections();
      NamesOfAll(conns, existing);
      OnlyByRemoval(manager.Specs(), existing, OtherNames(conns, existing));
      DropEach(conns, existing);
    }

    /** The loop of DropOthers. */
    method DropEach(conns: seq<ClusterConnection>, existing: set<string>)
      requires manager.Valid()
      modifies manager`clusters, manager.channels
      ensures manager.Valid()
      ensures manager.Specs() == old(manager.Specs()) - OtherNames(conns, existing)
    {
      hide Manager.Valid, Manager.Specs;
      for i := 0 to |conns|
        invariant manager.Valid()
        invariant manager.Specs() == old(manager.Specs()) - OtherNames(conns[..i], existing)
      {
        assert conns[..i + 1][..i] == conns[..i];
        if conns[i].cluster.name !in existing {
          manager.RemoveCluster(conns[i].cluster.name);
        }
      }
      assert conns[..|conns|] == conns;
    }

    lemma NamesOfAll(conns: seq<ClusterConnection>, existing: set<string>)
      requires manager.Valid()
      requires forall n | n in manager.clusters :: manager.clusters[n] in conns
      ensures manager.Specs().Keys - OtherNames(conns, existing) == manager.Specs().Keys * existing
    {
      forall n | n in manager.clusters
        ensures n in OtherNames(conns, existing) <==> n !in existing
      {
        OtherNamesMembers(conns, existing, n);
        assert manager.clusters[n] in conns && manager.clusters[n].cluster.name == n;
      }
    }

    method ExistingClusters(listed: seq<Cluster>) returns (existing: set<string>)
      ensures existing == EnabledNames(listed)
    {
      existing := {};
      for i := 0 to |listed|
        invariant existing == EnabledNames(listed[..i])
      {
        if listed[i].spec.enabled {
          existing := existing + {listed[i].name};
        }
        assert listed[..i + 1] == listed[..i] + [listed[i]];
      }
      assert listed[..|listed|] == listed;
    }

    /** reconcileAll. A listing of the Kubernetes API that fails is None; `answers` is what the listed clusters
        answer if they have to be connected. */
    method ReconcileAll(clusters: Option<seq<Cluster>>, identities: Option<seq<Identity>>, answers: seq<Answer>)
      returns (errors: nat, ghost outcome: Outcome)
      requires clusters.Some? ==> |answers| == |clusters.value|
      requires manager.Valid() && client.server.Valid() && client.server !in manager.Repr
      modifies manager.Repr, client.server
      ensures manager.Valid() && client.server.Valid()
      ensures clusters.None? ==> outcome.Aborted? && manager.Specs() == old(manager.Specs())
      ensures clusters.Some? ==>
        manager.Specs() == ConnectionPhase(old(manager.Specs()), clusters.value, answers)
      ensures outcome.Aborted? ==> client.server.entries == old(client.server.entries)
      ensures outcome.Aborted? && clusters.Some? && identities.Some? ==>
        LastFailed(client.server.fates, old(client.server.requests), client.server.requests)
      ensures outcome.Done? ==>
        && identities.Some? && IsWorldOf(outcome.w, identities.value)
        && IsPlan(outcome.plan, Managed(old(client.server.entries), cfg.prefix), Declared(cfg, outcome.w))
        && Fits(outcome.landings, outcome.plan)
        && client.server.entries == Pass(old(client.server.entries), outcome.plan, outcome.landings)
        && (errors == 0 ==> outcome.landings == NoFailure(outcome.plan))
        && client.server.requests > old(client.server.requests) + |InOrder(outcome.landings)|
        && LandsFrom(client.server.fates, client.server.requests - |InOrder(outcome.landings)|,
                     InOrder(outcome.landings))
      ensures clusters.Some? && identities.Some? && client.server.faults == old(client.server.faults) ==>
        outcome.Done? && outcome.landings == NoFailure(outcome.plan)
    {
      hide *;
      errors, outcome := 0, Aborted;
      if clusters.None? {
        return;
      }
      UpdateConnections(clusters.value, answers);
      if identities.None? {
        return;
      }
      errors, outcome := ReconcileEntries(identities.value);
    }

    /** The second part of a pass: lists the entries, computes the declared ones and applies the diff. */
    method ReconcileEntries(identities: seq<Identity>) returns (errors: nat, ghost outcome: Outcome)
      requires manager.Valid() && client.server.Valid() && client.server !in manager.Repr
      modifies client.server
      ensures client.server.Valid()
      ensures outcome.Aborted? ==>
        && client.server.entries == old(client.server.entries)
        && LastFailed(client.server.fates, old(client.server.requests), client.server.requests)
      ensures outcome.Done? ==>
        && IsWorldOf(outcome.w, identities)
        && IsPlan(outcome.plan, Managed(old(client.server.entries), cfg.prefix), Declared(cfg, outcome.w))
        && Fits(outcome.landings, outcome.plan)
        && client.server.entries == Pass(old(client.server.entries), outcome.plan, outcome.landings)
        && (errors == 0 ==> outcome.landings == NoFailure(outcome.plan))
        && client.server.requests > old(client.server.requests) + |InOrder(outcome.landings)|
        && LandsFrom(client.server.fates, client.server.requests - |InOrder(outcome.landings)|,
                     InOrder(outcome.landings))
      ensures client.server.faults == old(client.server.faults) ==>
        outcome.Done? && outcome.landings == NoFailure(outcome.plan)
    {
      hide IsPlan, Pass, Declared, Managed, IsWorldOf, Lists;
      errors, outcome := 0, Aborted;
      var state := new EntriesState(cfg.prefix, cfg.hash);
      var failed, currentEntries := client.ListEntries();
      if failed {
        return;
      }
      AddManaged(currentEntries, state, client.server.entries);
      ghost var w := ProcessClusters(identities, state);
      ghost var plan, landings;
      errors, plan, landings := ApplyEntryChanges(state);
      outcome := Done(w, plan, landings);
    }

    /** The loop over the connections. */
    method ProcessClusters(identities: seq<Identity>, state: EntriesState) returns (ghost w: World)
      requires manager.Valid() && state !in manager.Repr
      requires state.Valid() && state.Cfg() == cfg && state.declared == map[]
      modifies state`declared
      ensures state.Valid() && IsWorldOf(w, identities)
      ensures state.declared == Declared(cfg, w)
    {
      hide IsWorldOf;
      var connections := manager.GetAllConnections();
      w := World(env, Views(connections), identities, ignored);
      ProcessEach(connections, identities, state);
      IsWorldOfAll(connections, identities);
    }

    method ProcessEach(connections: seq<ClusterConnection>, identities: seq<Identity>, state: EntriesState)
      requires state.Valid() && state.Cfg() == cfg
      modifies state`declared
      ensures state.Valid()
      ensures state.declared ==
        Declare(cfg, old(state.declared), FlatMap(Views(connections), ClusterEntries(env, ignored, identities)))
    {
      ghost var views, entries := Views(connections), ClusterEntries(env, ignored, identities);
      for i := 0 to |connections|
        invariant state.Valid()
        invariant state.declared == Declare(cfg, old(state.declared), FlatMap(views[..i], entries))
      {
        FlatMapNext(views, entries, i);
        DeclareAppend(cfg, old(state.declared), FlatMap(views[..i], entries), entries(views[i]));
        ProcessCluster(connections[i], identities, state);
      }
      assert views[..|views|] == views;
    }

    lemma IsWorldOfAll(connections: seq<ClusterConnection>, identities: seq<Identity>)
      requires manager.Valid() && |connections| == |manager.clusters|
      requires forall c | c in connections ::
        c.cluster.name in manager.clusters && manager.clusters[c.cluster.name] == c
      requires forall n | n in manager.clusters :: manager.clusters[n] in connections
      ensures IsWorldOf(World(env, Views(connections), identities, ignored), identities)
    {
    }

    /** The world seen through the manager's connections, in some order. */
    ghost predicate IsWorldOf(w: World, identities: seq<Identity>)
      reads manager, manager.Repr
      requires manager.Valid()
    {
      && w.env == env && w.identities == identities && w.ignored == ignored
      && |w.views| == |manager.clusters|
      && (forall n | n in manager.clusters :: manager.clusters[n].View() in w.views)
      && (forall v | v in w.views :: v.cluster.name in manager.clusters && manager.clusters[v.cluster.name].View() == v)
    }

    /** Adds the entries of the server that this registrar manages. */
    method AddManaged(currentEntries: seq<Entry>, state: EntriesState, ghost m: Entries)
      requires state.Valid() && state.current == map[] && Lists(currentEntries, m)
      modifies state`current
      ensures state.Valid() && state.current == Managed(m, cfg.prefix)
    {
      for i := 0 to |currentEntries|
        invariant state.Valid() && state.current == KeepManaged(cfg.prefix, currentEntries[..i])
      {
        var entry := currentEntries[i];
        if ShouldProcessEntry(entry) {
          state.AddCurrent(entry);
        }
        assert currentEntries[..i + 1][..i] == currentEntries[..i];
      }
      assert currentEntries[..|currentEntries|] == currentEntries;
      KeepManagedOfListing(cfg.prefix, currentEntries, m);
    }
  }

  function KeepManaged(prefix: string, es: seq<Entry>): Entries {
    if es == [] then map[]
    else
      var before, e := KeepManaged(prefix, es[..|es| - 1]), es[|es| - 1];
      if prefix <= e.id then before[e.id := e] else before
  }

  lemma {:induction false} KeepManagedOfListing(prefix: string, es: seq<Entry>, m: Entries)
    requires Lists(es, m)
    ensures KeepManaged(prefix, es) == Managed(m, prefix)
  {
    if es != [] {
      var e := es[|es| - 1];
      KeepManagedOfListing(prefix, es[..|es| - 1], m - {e.id});
      assert Managed(m, prefix) == if prefix <= e.id then Managed(m - {e.id}, prefix)[e.id := e]
          else Managed(m - {e.id}, prefix);
    }
  }

  /** The names of the connections that are not in `existing`. */
  ghost function OtherNames(conns: seq<ClusterConnection>, existing: set<string>): set<string>
    reads conns
  {
    if conns == [] then {}
    else
      var name := conns[|conns| - 1].cluster.name;
      OtherNames(conns[..|conns| - 1], existing) + if name in existing then {} else {name}
  }

  lemma {:induction false} OtherNamesMembers(conns: seq<ClusterConnection>, existing: set<string>, name: string)
    ensures name in OtherNames(conns, existing) <==>
            name !in existing && exists c | c in conns :: c.cluster.name == name
  {
    if conns != [] {
      var n := |conns| - 1;
      OtherNamesMembers(conns[..n], existing, name);
      assert conns == conns[..n] + [conns[n]];
    }
  }

  ghost function Views(conns: seq<ClusterConnection>): (r: seq<ConnView>)
    reads conns
    ensures |r| == |conns| && forall i | 0 <= i < |r| :: r[i] == conns[i].View()
  {
    seq(|conns|, i requires 0 <= i < |conns| reads conns => conns[i].View())
  }

  lemma DeclareNone(cfg: Config, d: Entries)
    ensures Declare(cfg, d, []) == d
  {
  }

  /** The entries of an identity come from the pods that match, none from no pods. */
  lemma EntriesOfPods(env: Env, identity: Identity, v: ConnView)
    ensures IdentityEntries(env, v, identity) == FlatMap(MatchingPods(v.pods, identity), PodEntries(env, identity, v))
    ensures FlatMap([], PodEntries(env, identity, v)) == []
  {
  }

  lemma DeclareNext(cfg: Config, d: Entries, es: seq<Entry>, e: Entry)
    ensures Declare(cfg, d, es + [e]) == Declare(cfg, d, es)[Address(cfg, e).id := Address(cfg, e)]
  {
  }
}
