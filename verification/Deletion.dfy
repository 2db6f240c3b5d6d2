// The deletion controller (internal/controller/deletion_controller.go): cleans up
// the entries of a deleted resource, then lets the resource go.
module Deletion {
  import opened Wrappers
  import opened Sequences
  import opened Text
  import opened SpireApi
  import opened Store
  import opened State
  import opened Convergence
  import opened Rendering
  import opened Hints
  import opened ClusterManager
  import opened Declaration
  import opened SpireClient
  import opened FastPath
  import opened FastPathTheorems
  import opened IdentityEvents
  import opened WorldTheorems

  const CLEANUP_FINALIZER := "spire.spiffe.io/cleanup"
  const WORKLOAD_IDENTITY := "WorkloadIdentity"
  const CLUSTER_REGISTRY := "EKSClusterRegistry"

  // ----- the Kubernetes side

  datatype Resource = Resource(deleting: bool, finalizers: seq<string>)

  /** How many of the first `n` requests fail. */
  function FailuresIn(fails: nat -> bool, n: nat): nat {
    if n == 0 then 0 else FailuresIn(fails, n - 1) + if fails(n - 1) then 1 else 0
  }

  /** The resources of one kind by name. Which requests fail is up to the environment; an update that
      fails changes nothing. */
  class Resources {
    var objects: map<string, Resource>
    const fails: nat -> bool
    var requests: nat
    ghost var faults: nat

    ghost predicate Valid()
      reads this
    {
      faults == FailuresIn(fails, requests)
    }

    constructor (objects: map<string, Resource>, fails: nat -> bool)
      ensures Valid() && this.objects == objects && this.fails == fails && requests == 0
    {
      this.objects, this.fails := objects, fails;
      requests, faults := 0, 0;
    }

    /** An error, or the resource if it exists. */
    method Get(name: string) returns (err: bool, found: Option<Resource>)
      requires Valid()
      modifies this`requests, this`faults
      ensures Valid() && requests == old(requests) + 1 && err == fails(old(requests))
      ensures faults == old(faults) + if err then 1 else 0
      ensures !err ==> found == if name in objects then Some(objects[name]) else None
    {
      err := fails(requests);
      requests := requests + 1;
      faults := if err then faults + 1 else faults;
      found := if name in objects then Some(objects[name]) else None;
    }

    method Update(name: string, r: Resource) returns (err: bool)
      requires Valid()
      modifies this
      ensures Valid() && requests == old(requests) + 1 && err == fails(old(requests))
      ensures objects == if err then old(objects) else old(objects)[name := r]
      ensures faults == old(faults) + if err then 1 else 0
    {
      err := fails(requests);
      requests := requests + 1;
      faults := if err then faults + 1 else faults;
      objects := if err then objects else objects[name := r];
    }
  }

  function Unless(finalizer: string): string -> seq<string> {
    (s: string) => if s == finalizer then [] else [s]
  }

  /** finalizer.RemoveFinalizer */
  function RemoveFinalizer(finalizers: seq<string>, finalizer: string): seq<string> {
    FlatMap(finalizers, Unless(finalizer))
  }

  lemma RemovedFinalizer(finalizers: seq<string>, finalizer: string)
    ensures forall s :: s in RemoveFinalizer(finalizers, finalizer) <==> s in finalizers && s != finalizer
  {
    forall s
      ensures s in RemoveFinalizer(finalizers, finalizer) <==> s in finalizers && s != finalizer
    {
      FlatMapMembers(finalizers, Unless(finalizer), s);
    }
  }

  // ----- the entries of an owner

  /** The test of deleteEntriesForOwner. */
  function OwnedBy(ownerType: string, name: string): Entry -> bool {
    (e: Entry) =>
      if ownerType == CLUSTER_REGISTRY then ClusterOwns(e.hint, name)
      else Contains(e.hint, "owner:" + ownerType + "/" + name)
  }

  lemma OwnedByIdentity(name: string)
    ensures forall e :: OwnedBy(WORKLOAD_IDENTITY, name)(e) <==> IdentityOwns(e.hint, name)
  {
    assert "owner:" + WORKLOAD_IDENTITY + "/" + name == OWNER_PREFIX + name;
  }

  function IDIf(test: Entry -> bool): Entry -> seq<string> {
    (e: Entry) => if test(e) then [e.id] else []
  }

  /** The IDs that deleteEntriesForOwner collects from a listing. */
  function Collected(listing: seq<Entry>, test: Entry -> bool): seq<string> {
    FlatMap(listing, IDIf(test))
  }

  /** Collected from a listing of the server, they are the IDs of the owner's entries, each once. */
  lemma {:induction false} CollectedIDs(listing: seq<Entry>, m: Entries, test: Entry -> bool)
    requires Lists(listing, m)
    ensures forall id :: id in Collected(listing, test) <==> id in Victims(m, test)
    ensures DuplicateFree(Collected(listing, test))
  {
    if listing != [] {
      var n := |listing| - 1;
      CollectedIDs(listing[..n], m - {listing[n].id}, test);
      var before := Collected(listing[..n], test);
      assert Collected(listing, test) == before + IDIf(test)(listing[n]);
      assert listing[n].id !in Victims(m - {listing[n].id}, test);
    }
  }

  /** The IDs whose deletion was carried out. */
  function Taken(ids: seq<string>, took: seq<bool>): set<string>
    requires |took| <= |ids|
  {
    set i | 0 <= i < |took| && took[i] :: ids[i]
  }

  lemma TakenNext(ids: seq<string>, took: seq<bool>)
    requires 0 < |took| <= |ids|
    ensures
      var n := |took| - 1;
      Taken(ids, took) == Taken(ids, took[..n]) + if took[n] then {ids[n]} else {}
  {
  }

  lemma NotTakenYet(ids: seq<string>, took: seq<bool>)
    requires |took| < |ids| && DuplicateFree(ids)
    ensures ids[|took|] !in Taken(ids, took)
  {
  }

  lemma NothingTaken(m: Entries, ids: seq<string>)
    ensures Run(m, Deletes(ids[..0]), []) == m - Taken(ids, [])
  {
    assert m - Taken(ids, []) == m;
  }

  lemma DeleteOne(m: Entries, gone: set<string>, id: string)
    ensures Effect(m - gone, Delete(id)) == m - (gone + {id})
    ensures id in m && id !in gone ==> StatusOf(m - gone, Delete(id)) == OK
    ensures m - (gone + {}) == m - gone
  {
  }

  /** Deleting distinct existing IDs: exactly the calls that are carried out remove their entry and
      report OK. */
  lemma {:induction false} DistinctDeletes(m: Entries, ids: seq<string>, took: seq<bool>)
    requires |took| <= |ids| && DuplicateFree(ids) && forall id | id in ids :: id in m
    ensures
      var calls := Deletes(ids[..|took|]);
      && Run(m, calls, took) == m - Taken(ids, took)
      && (forall i | 0 <= i < |took| :: Statuses(m, calls, took)[i] == if took[i] then OK else INTERNAL)
  {
    hide Run, Statuses, Taken, Deletes, StatusOf, Effect;
    if took == [] {
      NothingTaken(m, ids);
    } else {
      var n := |took| - 1;
      DistinctDeletes(m, ids, took[..n]);
      assert took == took[..n] + [took[n]];
      assert Deletes(ids[..|took|]) == Deletes(ids[..n]) + [Delete(ids[n])];
      RunSnoc(m, Deletes(ids[..n]), took[..n], Delete(ids[n]), took[n]);
      TakenNext(ids, took);
      NotTakenYet(ids, took[..n]);
      assert ids[n] in ids;
      DeleteOne(m, Taken(ids, took[..n]), ids[n]);
    }
  }

  lemma AllTaken(ids: seq<string>, took: seq<bool>)
    requires |took| == |ids| && DuplicateFree(ids)
    ensures Taken(ids, took) == (set id | id in ids) <==> forall i | 0 <= i < |took| :: took[i]
    ensures Taken(ids, took) <= (set id | id in ids)
  {
    if Taken(ids, took) == (set id | id in ids) {
      forall i | 0 <= i < |took|
        ensures took[i]
      {
        assert ids[i] in (set id | id in ids);
        assert ids[i] in Taken(ids, took);
        var j :| 0 <= j < |took| && took[j] && ids[j] == ids[i];
      }
    }
  }

  /** What a cleanup did: which of the owner's entries it deleted, and whether all of its calls were
      carried out and answered with OK. */
  ghost predicate CleanedUp(
    m: Entries, m': Entries, test: Entry -> bool, gone: set<string>, err: bool, failures: nat)
  {
    && m' == m - gone && gone <= Victims(m, test)
    && (!err ==> (gone == Victims(m, test) <==> failures == 0))
  }

  lemma CleanedUpBy(
    m: Entries, m': Entries,
    test: Entry -> bool, ids: seq<string>, took: seq<bool>, codes: seq<nat>, err: bool, failures: nat)
    requires DuplicateFree(ids) && forall id :: id in ids <==> id in Victims(m, test)
    requires |codes| <= |took| <= |ids| && m' == Run(m, Deletes(ids[..|took|]), took)
    requires !err ==> |codes| == |ids| && codes == Statuses(m, Deletes(ids), took)
                      && (failures == 0 <==> forall i | 0 <= i < |codes| :: codes[i] == 0)
    ensures CleanedUp(m, m', test, Taken(ids, took), err, failures)
  {
    DistinctDeletes(m, ids, took);
    assert ids[..|ids|] == ids;
    assert (set id | id in ids) == Victims(m, test);
    if !err {
      AllTaken(ids, took);
    }
  }

  lemma AllCarriedOut(
    m: Entries, m': Entries, test: Entry -> bool, ids: seq<string>, took: seq<bool>, failures: nat)
    requires DuplicateFree(ids) && (forall id :: id in ids <==> id in Victims(m, test)) && took == AllTrue(|ids|)
    requires CleanedUp(m, m', test, Taken(ids, took), false, failures)
    ensures failures == 0
  {
    AllTaken(ids, took);
    assert (set id | id in ids) == Victims(m, test);
  }

  lemma NothingCleanedUp(m: Entries, test: Entry -> bool)
    ensures CleanedUp(m, m, test, {}, true, 0)
  {
    MinusNothing(m);
  }

  class DeletionReconciler {
    const identities: Resources
    const clusters: Resources
    const client: Client

    constructor (identities: Resources, clusters: Resources, client: Client)
      ensures this.identities == identities && this.clusters == clusters && this.client == client
    {
      this.identities, this.clusters, this.client := identities, clusters, client;
    }

    /** Statuses that report a failure are only counted, as the controller only logs them: no error is
        returned for them, although an entry stays for each. It is an error exactly when a request fails. */
    method DeleteEntriesForOwner(ownerType: string, ownerName: string)
      returns (err: bool, failures: nat, ghost gone: set<string>)
      requires client.server.Valid()
      modifies client.server
      ensures client.server.Valid() && client.server.faults >= old(client.server.faults)
      ensures CleanedUp(old(client.server.entries), client.server.entries, OwnedBy(ownerType, ownerName), gone, err,
          failures)
      ensures client.server.requests > old(client.server.requests)
      ensures if err then LastFailed(client.server.fates, old(client.server.requests), client.server.requests)
              else AllAnswered(client.server.fates, old(client.server.requests), client.server.requests)
      ensures client.server.faults == old(client.server.faults) ==> !err && failures == 0
    {
      hide OwnedBy, Collected, Victims, CleanedUp, Lists, Taken, Keyed, Effect, StatusOf;
      failures, gone := 0, {};
      NothingCleanedUp(client.server.entries, OwnedBy(ownerType, ownerName));
      var entries;
      err, entries := client.ListEntries();
      if err {
        return;
      }
      ghost var m, test := client.server.entries, OwnedBy(ownerType, ownerName);
      var toDelete := CollectOwned(entries, ownerType, ownerName);
      CollectedIDs(entries, m, test);
      var statuses: seq<nat>;
      ghost var took: seq<bool>;
      statuses, took := [], [];
      if |toDelete| > 0 {
        ghost var listed := client.server.requests;
        err, statuses, took := client.BatchDeleteEntries(toDelete);
        AnsweredOn(client.server.fates, old(client.server.requests), listed, client.server.requests);
      }
      assert toDelete[..|toDelete|] == toDelete;
      assert statuses[..|statuses|] == statuses && took[..|took|] == took;
      gone := Taken(toDelete, took);
      if err {
        CleanedUpBy(m, client.server.entries, test, toDelete, took, statuses, err, failures);
        return;
      }
      failures := CountFailures(statuses);
      CleanedUpBy(m, client.server.entries, test, toDelete, took, statuses, err, failures);
      if took == AllTrue(|toDelete|) {
        AllCarriedOut(m, client.server.entries, test, toDelete, took, failures);
      }
    }

    /** The loops over the listed entries. */
    method CollectOwned(entries: seq<Entry>, ownerType: string, ownerName: string) returns (toDelete: seq<string>)
      ensures toDelete == Collected(entries, OwnedBy(ownerType, ownerName))
    {
      toDelete := [];
      ghost var id := IDIf(OwnedBy(ownerType, ownerName));
      if ownerType == "EKSClusterRegistry" {
        for i := 0 to |entries|
          invariant toDelete == FlatMap(entries[..i], id)
        {
          FlatMapNext(entries, id, i);
          var hint := entries[i].hint;
          if Contains(hint, ":" + ownerName + ";") || Contains(hint, ":" + ownerName) {
            if "workloadidentity:" <= hint {
              var parts := Split(hint, ':');
              if |parts| >= 3 {
                var clusterPart := Split(parts[2], ';')[0];
                if clusterPart == ownerName {
                  toDelete := toDelete + [entries[i].id];
                }
              }
            }
          }
        }
      } else {
        var ownerKey := "owner:" + ownerType + "/" + ownerName;
        for i := 0 to |entries|
          invariant toDelete == FlatMap(entries[..i], id)
        {
          FlatMapNext(entries, id, i);
          if Contains(entries[i].hint, ownerKey) {
            toDelete := toDelete + [entries[i].id];
          }
        }
      }
      assert entries[..|entries|] == entries;
    }

    method CountFailures(statuses: seq<nat>) returns (failures: nat)
      ensures failures == 0 <==> forall i | 0 <= i < |statuses| :: statuses[i] == 0
    {
      failures := 0;
      for i := 0 to |statuses|
        invariant failures == 0 <==> forall j | 0 <= j < i :: statuses[j] == 0
      {
        if statuses[i] != 0 {
          failures := failures + 1;
        }
      }
    }

    /** Removes the finalizer of a resource that is being deleted, after its entries have been cleaned up. */
    method Finalize(resources: Resources, ownerType: string, name: string)
      returns (err: bool, failures: nat, ghost gone: set<string>)
      requires client.server.Valid() && resources.Valid()
      modifies client.server, resources
      ensures resources.Valid() && client.server.Valid() && client.server.faults >= old(client.server.faults)
      ensures resources.faults >= old(resources.faults)
      ensures FinalizeDoes(old(resources.objects), resources.objects, old(client.server.entries), client.server.entries,
                           ownerType, name, err, failures, gone)
      ensures err <==>
                || resources.fails(old(resources.requests))
                || (Waits(old(resources.objects), name) &&
                    (LastFailed(client.server.fates, old(client.server.requests), client.server.requests) ||
                     resources.fails(old(resources.requests) + 1)))
      ensures client.server.faults == old(client.server.faults) && resources.faults == old(resources.faults) ==>
                !err && failures == 0
    {
      failures, gone := 0, {};
      MinusNothing(client.server.entries);
      ghost var m, objects := client.server.entries, resources.objects;
      var found;
      err, found := resources.Get(name);
      if err || found.None? {
        return;
      }
      if found.value.deleting {
        if CLEANUP_FINALIZER in found.value.finalizers {
          err, failures, gone := DeleteEntriesForOwner(ownerType, name);
          if err {
            return;
          }
          var rest := WithoutFinalizer(found.value.finalizers, CLEANUP_FINALIZER);
          err := resources.Update(name, found.value.(finalizers := rest));
          if err {
            return;
          }
        }
      }
    }

    /** finalizer.RemoveFinalizer */
    method WithoutFinalizer(finalizers: seq<string>, finalizer: string) returns (rest: seq<string>)
      ensures rest == RemoveFinalizer(finalizers, finalizer)
    {
      rest := [];
      for i := 0 to |finalizers|
        invariant rest == FlatMap(finalizers[..i], Unless(finalizer))
      {
        FlatMapNext(finalizers, Unless(finalizer), i);
        if finalizers[i] != finalizer {
          rest := rest + [finalizers[i]];
        }
      }
      assert finalizers[..|finalizers|] == finalizers;
    }

    method ReconcileWorkloadIdentity(name: string) returns (err: bool, failures: nat, ghost gone: set<string>)
      requires client.server.Valid() && identities.Valid()
      modifies client.server, identities
      ensures identities.Valid() && client.server.Valid() && client.server.faults >= old(client.server.faults)
      ensures FinalizeDoes(old(identities.objects), identities.objects, old(client.server.entries),
          client.server.entries,
                           WORKLOAD_IDENTITY, name, err, failures, gone)
      ensures err <==>
                || identities.fails(old(identities.requests))
                || (Waits(old(identities.objects), name) &&
                    (LastFailed(client.server.fates, old(client.server.requests), client.server.requests) ||
                     identities.fails(old(identities.requests) + 1)))
      ensures client.server.faults == old(client.server.faults) && identities.faults == old(identities.faults) ==>
                !err && failures == 0
    {
      err, failures, gone := Finalize(identities, WORKLOAD_IDENTITY, name);
    }

    method ReconcileEKSClusterRegistry(name: string) returns (err: bool, failures: nat, ghost gone: set<string>)
      requires client.server.Valid() && clusters.Valid()
      modifies client.server, clusters
      ensures clusters.Valid() && client.server.Valid() && client.server.faults >= old(client.server.faults)
      ensures FinalizeDoes(old(clusters.objects), clusters.objects, old(client.server.entries), client.server.entries,
                           CLUSTER_REGISTRY, name, err, failures, gone)
      ensures err <==>
                || clusters.fails(old(clusters.requests))
                || (Waits(old(clusters.objects), name) &&
                    (LastFailed(client.server.fates, old(client.server.requests), client.server.requests) ||
                     clusters.fails(old(clusters.requests) + 1)))
      ensures client.server.faults == old(client.server.faults) && clusters.faults == old(clusters.faults) ==>
                !err && failures == 0
    {
      err, failures, gone := Finalize(clusters, CLUSTER_REGISTRY, name);
    }
  }

  /** The resource is being deleted and waits for the cleanup. */
  predicate Waits(objects: map<string, Resource>, name: string) {
    name in objects && objects[name].deleting && CLEANUP_FINALIZER in objects[name].finalizers
  }

  /** The resource without the finalizer. */
  function Released(r: Resource): Resource {
    r.(finalizers := RemoveFinalizer(r.finalizers, CLEANUP_FINALIZER))
  }

  /** What a reconciliation did to the resources and to the server. Only a waiting resource makes it do
      anything, the finalizer goes only when the cleanup returned no error, and a reconciliation without
      an error has removed it. */
  ghost predicate FinalizeDoes(
    objects: map<string, Resource>, objects': map<string, Resource>, m: Entries, m': Entries, ownerType: string,
    name: string, err: bool, failures: nat, gone: set<string>)
  {
    && (!Waits(objects, name) ==> objects' == objects && m' == m)
    && (Waits(objects, name) && err ==>
          objects' == objects && m' == m - gone && gone <= Victims(m, OwnedBy(ownerType, name)))
    && (Waits(objects, name) && !err ==>
          && CleanedUp(m, m', OwnedBy(ownerType, name), gone, false, failures)
          && objects' == objects[name := Released(objects[name])])
  }

  /** The finalizer is meant to hold a resource until its entries are gone. It does so exactly when every
      status of the batch was OK: otherwise the resource is let go with entries left. */
  lemma FinalizerExact(
    objects: map<string, Resource>, objects': map<string, Resource>, m: Entries, m': Entries, ownerType: string,
    name: string, err: bool, failures: nat, gone: set<string>)
    requires FinalizeDoes(objects, objects', m, m', ownerType, name, err, failures, gone)
    requires Waits(objects, name)
    ensures !Waits(objects', name) <==> !err
    ensures !Waits(objects', name) ==>
              (Victims(m', OwnedBy(ownerType, name)) == {} <==> failures == 0)
  {
    RemovedFinalizer(objects[name].finalizers, CLEANUP_FINALIZER);
    if !err {
      LeftAfter(m, OwnedBy(ownerType, name), gone);
    }
  }

  lemma LeftAfter(m: Entries, test: Entry -> bool, gone: set<string>)
    requires gone <= Victims(m, test)
    ensures Victims(m - gone, test) == {} <==> gone == Victims(m, test)
  {
    var left := Victims(m - gone, test);
    assert left == Victims(m, test) - gone;
    assert left + gone == Victims(m, test);
  }

  // ----- whose entries go

  /** Which held entries the deletion controller takes for those of a cluster. */
  lemma ClusterVictims(cfg: Config, w: World, w': World, m: Entries, name: string, e: Entry)
    requires DropsCluster(w, w', name) && DefaultHinted(w') && ValidName(name)
    requires Holds(cfg, m, AllEntries(w')) && e in AllEntries(w')
    ensures Address(cfg, e).id in Victims(m, OwnedBy(CLUSTER_REGISTRY, name)) <==> e !in AllEntries(w)
  {
    var id := Address(cfg, e).id;
    assert InPlace(cfg, m, e);
    InSyncWithRendered(cfg, m[id], e);
    AllEntriesMembers(w', e);
    SurvivesDrop(w, w', name, e);
    hide Address, AllEntries, ClusterOwns, RenderPod, Matches, Targets;
    forall v, i, p | Renders(w', v, i, p, e)
      ensures ClusterOwns(e.hint, name) <==> v.cluster.name == name
    {
      RenderedHasPodSelector(w'.env, i, v, p);
      ClusterRoundTrip(i.name, v.cluster.name, name);
    }
    var v, i, p :| Renders(w', v, i, p, e);
  }

  /** The cleanup of a deleted cluster, without failures, takes a server from what a full pass declares
      with the cluster to what it declares without it. */
  lemma ClusterDeletionConverges(
    cfg: Config, w: World, w': World, m: Entries, m': Entries, name: string, gone: set<string>)
    requires DropsCluster(w, w', name) && DefaultHinted(w') && ValidName(name)
    requires Converged(cfg, m, Declared(cfg, w')) && Unambiguous(cfg, AllEntries(w'))
    requires CleanedUp(m, m', OwnedBy(CLUSTER_REGISTRY, name), gone, false, 0)
    ensures Converged(cfg, m', Declared(cfg, w))
  {
    var es, rest := AllEntries(w'), AllEntries(w);
    assert gone == Victims(m, OwnedBy(CLUSTER_REGISTRY, name)) && m' == m - gone;
    HoldsDeclared(cfg, m, w');
    hide *;
    forall e
      ensures e in rest ==> e in es
      ensures e in es ==> (Address(cfg, e).id in gone <==> e !in rest)
    {
      DroppedIsRendered(w, w', name, e);
      if e in es {
        ClusterVictims(cfg, w, w', m, name, e);
      }
    }
    SweepingRest(cfg, m, es, rest, gone);
    FewerIsUnambiguous(cfg, rest, es);
    HoldsDeclared(cfg, m', w);
  }

  /** Some identity whose name goes on after that of the deleted one has the entry. */
  ghost predicate OfLongerName(w: World, identity: Identity, e: Entry) {
    exists v, i, p :: Renders(w, v, i, p, e) && identity.name < i.name
  }

  lemma OwnedByHint(cfg: Config, m: Entries, es: seq<Entry>, name: string, e: Entry)
    requires Holds(cfg, m, es) && e in es
    ensures Address(cfg, e).id in Victims(m, OwnedBy(WORKLOAD_IDENTITY, name)) <==> IdentityOwns(e.hint, name)
  {
    hide Holds, IdentityOwns, Address;
    HeldInPlace(cfg, m, es, e);
    InSyncWithRendered(cfg, m[Address(cfg, e).id], e);
    OwnedByIdentity(name);
  }

  /** Which held entries the deletion controller takes for those of an identity. */
  lemma IdentityVictims(cfg: Config, w: World, w': World, m: Entries, identity: Identity, e: Entry)
    requires AddsIdentity(w, w', identity) && DefaultHinted(w')
    requires Holds(cfg, m, AllEntries(w')) && e in AllEntries(w')
    ensures Address(cfg, e).id in Victims(m, OwnedBy(WORKLOAD_IDENTITY, identity.name)) <==>
              e !in AllEntries(w) || OfLongerName(w, identity, e)
  {
    HasIdentity(w, w', identity);
    hide Address, AllEntries, IdentityOwns, OwnedBy, Victims, Holds, DefaultHinted, Renders, AddsIdentity;
    OwnedByHint(cfg, m, AllEntries(w'), identity.name, e);
    AddedByIdentity(w, w', identity, e);
    AllEntriesMembers(w, e);
    if e in AllEntries(w) {
      var v, i, p :| Renders(w, v, i, p, e);
      OwnedIffLonger(w, w', identity, v, i, p, e);
      if OfLongerName(w, identity, e) {
        var v', i', p' :| Renders(w, v', i', p', e) && identity.name < i'.name;
        OwnedIffLonger(w, w', identity, v', i', p', e);
      }
    } else {
      var v, p :| Renders(w', v, identity, p, e);
      OwnedIffPrefix(w', v, identity, p, e, identity);
    }
  }

  lemma OwnedIffPrefix(w: World, v: ConnView, i: Identity, p: Pod, e: Entry, identity: Identity)
    requires DefaultHinted(w) && Renders(w, v, i, p, e) && identity in w.identities
    ensures IdentityOwns(e.hint, identity.name) <==> identity.name <= i.name
  {
    hide IdentityOwns, RenderPod, Matches, Targets;
    RenderedHasPodSelector(w.env, i, v, p);
    OwnerRoundTrip(i.name, v.cluster.name, identity.name);
  }

  lemma OwnedIffLonger(w: World, w': World, identity: Identity, v: ConnView, i: Identity, p: Pod, e: Entry)
    requires AddsIdentity(w, w', identity) && DefaultHinted(w') && Renders(w, v, i, p, e)
    ensures IdentityOwns(e.hint, identity.name) <==> identity.name < i.name
  {
    hide IdentityOwns, RenderPod, Matches, Targets, DefaultHinted;
    assert Renders(w', v, i, p, e) && identity in w'.identities;
    OwnedIffPrefix(w', v, i, p, e, identity);
  }

  /** The cleanup of a deleted identity, without failures, also deletes the entries of the identities
      whose names go on after its own. So it reaches what a full pass declares without the identity
      exactly when there are no such entries. */
  lemma IdentityDeletionExact(
    cfg: Config, w: World, w': World, m: Entries, m': Entries, identity: Identity, gone: set<string>)
    requires AddsIdentity(w, w', identity) && DefaultHinted(w')
    requires Converged(cfg, m, Declared(cfg, w')) && Unambiguous(cfg, AllEntries(w'))
    requires CleanedUp(m, m', OwnedBy(WORKLOAD_IDENTITY, identity.name), gone, false, 0)
    ensures Converged(cfg, m', Declared(cfg, w)) <==> forall e | e in AllEntries(w) :: !OfLongerName(w, identity, e)
  {
    var es, rest := AllEntries(w'), AllEntries(w);
    assert gone == Victims(m, OwnedBy(WORKLOAD_IDENTITY, identity.name)) && m' == m - gone;
    HoldsDeclared(cfg, m, w');
    hide *;
    forall e
      ensures e in rest ==> e in es
      ensures e in es ==> (Address(cfg, e).id in gone <==> e !in rest || OfLongerName(w, identity, e))
    {
      AddedByIdentity(w, w', identity, e);
      if e in es {
        IdentityVictims(cfg, w, w', m, identity, e);
      }
    }
    FewerIsUnambiguous(cfg, rest, es);
    HoldsDeclared(cfg, m', w);
    if forall e | e in rest :: !OfLongerName(w, identity, e) {
      SweepingRest(cfg, m, es, rest, gone);
    }
    if e :| e in rest && OfLongerName(w, identity, e) {
      GoneIsNotHeld(cfg, m', m, rest, gone, e);
    }
  }
}
