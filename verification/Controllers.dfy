// The controllers that turn changes of resources into events of the targeted
// reconciler (internal/controller/workloadidentity_controller.go and
// internal/controller/eksclusterregistry_controller.go).
module Controllers {
  import opened Store
  import opened State
  import opened Convergence
  import opened Rendering
  import opened ClusterManager
  import opened Declaration
  import opened FastPath
  import opened IdentityEvents
  import opened ClusterEvents
  import opened WorldTheorems

  /** What fetching a resource gives. */
  datatype Fetched<T> = NotFound | Failed | Found(resource: T, deleting: bool)

  /** The empty objects into which the controllers fetch: a resource that is not found leaves them empty. */
  const NO_IDENTITY := Identity(
    "", "", "", "", "", NoSelector, 0, 0, [], [], [], false, false, NoSelector, "")
  const NO_CLUSTER := Cluster("", ClusterSpec("", "", "", false, "", map[]))

  class WorkloadIdentityReconciler {
    const targeted: TargetedReconciler

    constructor (targeted: TargetedReconciler)
      ensures this.targeted == targeted
    {
      this.targeted := targeted;
    }

    /** A change of an identity becomes its event, its disappearance the deletion event of a nameless
        identity. One that is being deleted is left to the deletion controller. */
    method Reconcile(fetched: Fetched<Identity>, listed: seq<Cluster>, listedAgain: seq<Cluster>)
      returns (err: bool, ghost fx: Effects)
      requires targeted.client.server.Valid() && targeted.manager.Valid()
      requires targeted.client.server !in targeted.manager.Repr
      modifies targeted.client.server
      ensures targeted.client.server.Valid() && |fx.luck| == |fx.written|
      ensures err <==> fetched.Failed?
      ensures fetched.Failed? || (fetched.Found? && fetched.deleting) ==> fx == NOTHING
      ensures !(fetched.Failed? || (fetched.Found? && fetched.deleting)) ==>
        targeted.IdentityEventDoes(
          fx, old(targeted.client.server.entries), if fetched.Found? then fetched.resource else NO_IDENTITY,
          fetched.NotFound?, listed, listedAgain, targeted.manager.Connections(),
          targeted.client.server.faults - old(targeted.client.server.faults))
      ensures targeted.client.server.entries == After(targeted.cfg, old(targeted.client.server.entries), fx)
    {
      hide *;
      fx := NOTHING;
      NothingHappens(targeted.cfg, targeted.client.server.entries);
      var identity := NO_IDENTITY;
      if fetched.NotFound? {
        fx := targeted.ReconcileWorkloadIdentity(identity, true, listed, listedAgain);
        EventIsWellFormed(targeted, fx, old(targeted.client.server.entries), identity, true, listed, listedAgain,
                          targeted.manager.Connections(),
                          targeted.client.server.faults - old(targeted.client.server.faults));
        return false, fx;
      }
      if fetched.Failed? {
        return true, fx;
      }
      identity := fetched.resource;
      if fetched.deleting {
        return false, fx;
      }
      fx := targeted.ReconcileWorkloadIdentity(identity, false, listed, listedAgain);
      EventIsWellFormed(targeted, fx, old(targeted.client.server.entries), identity, false, listed, listedAgain,
                        targeted.manager.Connections(),
                        targeted.client.server.faults - old(targeted.client.server.faults));
      err := false;
    }
  }

  lemma NothingHappens(cfg: Config, m: Entries)
    ensures |NOTHING.luck| == |NOTHING.written| && After(cfg, m, NOTHING) == m
  {
  }

  lemma EventIsWellFormed(
    r: TargetedReconciler, fx: Effects, m: Entries, identity: Identity, deleted: bool, listed: seq<Cluster>,
    again: seq<Cluster>, conns: Connections, faults: int)
    requires r.IdentityEventDoes(fx, m, identity, deleted, listed, again, conns, faults)
    ensures |fx.luck| == |fx.written|
  {
  }

  class EKSClusterRegistryReconciler {
    const targeted: TargetedReconciler

    constructor (targeted: TargetedReconciler)
      ensures this.targeted == targeted
    {
      this.targeted := targeted;
    }

    /** The same for registries. The deletion event removes the connection without a name, of which there is
        none: that of the deleted registry stays, with its stop channel open. */
    method Reconcile(fetched: Fetched<Cluster>, identities: seq<Identity>, relisted: seq<Identity>, answer: Answer)
      returns (err: bool, ghost connected: bool, ghost fx: Effects)
      requires targeted.client.server.Valid() && targeted.manager.Valid()
      requires targeted.client.server !in targeted.manager.Repr
      modifies targeted.client.server, targeted.manager.Repr
      ensures targeted.client.server.Valid() && targeted.manager.Valid() && |fx.luck| == |fx.written|
      ensures err <==> fetched.Failed?
      ensures fetched.Failed? || (fetched.Found? && fetched.deleting) ==>
        fx == NOTHING && targeted.manager.Specs() == old(targeted.manager.Specs())
      ensures !(fetched.Failed? || (fetched.Found? && fetched.deleting)) ==>
        targeted.ClusterEventDoes(
          fx, old(targeted.client.server.entries), if fetched.Found? then fetched.resource else NO_CLUSTER,
          fetched.NotFound?, identities, relisted, connected, targeted.manager.Connections(),
          targeted.client.server.faults - old(targeted.client.server.faults))
      ensures fetched.Found? && !fetched.deleting ==>
        (connected <==>
         fetched.resource.spec.enabled &&
         (Reuses(old(targeted.manager.Specs()), fetched.resource) || (answer.Reachable? && answer.synced)))
      ensures fetched.NotFound? && "" !in old(targeted.manager.Specs()) ==>
        targeted.manager.Specs() == old(targeted.manager.Specs())
      ensures targeted.client.server.entries == After(targeted.cfg, old(targeted.client.server.entries), fx)
    {
      hide *;
      connected, fx := false, NOTHING;
      NothingHappens(targeted.cfg, targeted.client.server.entries);
      var cluster := NO_CLUSTER;
      if fetched.NotFound? {
        ghost var specs := targeted.manager.Specs();
        connected, fx := targeted.ReconcileEKSCluster(cluster, true, identities, relisted, answer);
        NamelessRemoval(specs);
        ClusterEventIsWellFormed(targeted, fx, old(targeted.client.server.entries), cluster, true, identities, relisted,
                                 connected, targeted.manager.Connections(),
                                 targeted.client.server.faults - old(targeted.client.server.faults));
        return false, connected, fx;
      }
      if fetched.Failed? {
        return true, connected, fx;
      }
      cluster := fetched.resource;
      if fetched.deleting {
        return false, connected, fx;
      }
      connected, fx := targeted.ReconcileEKSCluster(cluster, false, identities, relisted, answer);
      ClusterEventIsWellFormed(targeted, fx, old(targeted.client.server.entries), cluster, false, identities, relisted,
                               connected, targeted.manager.Connections(),
                               targeted.client.server.faults - old(targeted.client.server.faults));
      err := false;
    }
  }

  lemma NamelessRemoval(m: Registries)
    ensures NO_CLUSTER.name == "" && ("" !in m ==> m - {""} == m)
  {
  }

  lemma ClusterEventIsWellFormed(
    r: TargetedReconciler, fx: Effects, m: Entries, cluster: Cluster, deleted: bool, identities: seq<Identity>,
    relisted: seq<Identity>, connected: bool, conns: Connections, faults: int)
    requires r.ClusterEventDoes(fx, m, cluster, deleted, identities, relisted, connected, conns, faults)
    ensures |fx.luck| == |fx.written|
  {
  }

  /** When an identity is gone, its controller does nothing to the entries: they are as they were with the
      identity, whatever fails, and as they should be without it exactly when there are none of it. */
  lemma GoneIdentityLeavesEntries(
    r: TargetedReconciler, w: World, w': World, m: Entries, identity: Identity, listed: seq<Cluster>,
    again: seq<Cluster>, conns: Connections, fx: Effects, faults: int)
    requires AddsIdentity(w, w', identity) && DefaultHinted(w') && NoForeign(r.cfg, m, NO_IDENTITY)
    requires Converged(r.cfg, m, Declared(r.cfg, w')) && Unambiguous(r.cfg, AllEntries(w'))
    requires r.IdentityEventDoes(fx, m, NO_IDENTITY, true, listed, again, conns, faults)
    ensures After(r.cfg, m, fx) == m
    ensures Converged(r.cfg, After(r.cfg, m, fx), Declared(r.cfg, w)) <==>
            !exists v, p, e :: Renders(w', v, identity, p, e)
  {
    NamelessDeletionLeavesEntries(r, w, w', m, identity, NO_IDENTITY, listed, again, conns, fx, faults);
  }

  /** The same when a registry is gone. */
  lemma GoneClusterLeavesEntries(
    r: TargetedReconciler, w: World, w': World, m: Entries, name: string, relisted: seq<Identity>, connected: bool,
    conns: Connections, fx: Effects, faults: int)
    requires DropsCluster(w, w', name) && DefaultHinted(w') && NoForeignOfCluster(r.cfg, m, NO_CLUSTER.name)
    requires Converged(r.cfg, m, Declared(r.cfg, w')) && Unambiguous(r.cfg, AllEntries(w'))
    requires r.ClusterEventDoes(fx, m, NO_CLUSTER, true, w'.identities, relisted, connected, conns, faults)
    ensures After(r.cfg, m, fx) == m
    ensures Converged(r.cfg, After(r.cfg, m, fx), Declared(r.cfg, w)) <==>
            !exists v, i, p, e :: Renders(w', v, i, p, e) && v.cluster.name == name
  {
    DroppedClusterLeavesEntries(r, w, w', m, name, NO_CLUSTER, true, relisted, connected, conns, fx, faults);
  }
}
