// Cluster events on a server on which a full pass has converged.
module ClusterEvents {
  import opened Wrappers
  import opened Sequences
  import opened SpireApi
  import opened Store
  import opened State
  import opened Convergence
  import opened Rendering
  import opened Hints
  import opened ClusterManager
  import opened Declaration
  import opened FastPath
  import opened FastPathTheorems
  import opened IdentityEvents
  import opened WorldTheorems

  /** No entry has a hint that the targeted reconciler takes for one of the cluster. */
  ghost predicate NoneTakenFor(m: Entries, name: string) {
    forall id | id in m :: !BelongsToCluster(m[id].hint, name)
  }

  /** No unmanaged entry has such a hint. */
  ghost predicate NoForeignOfCluster(cfg: Config, m: Entries, name: string) {
    forall id | id in m && !(cfg.prefix <= id) :: !BelongsToCluster(m[id].hint, name)
  }

  /** The test for entries of a cluster accepts no rendered default hint. */
  lemma NoneOfCluster(cfg: Config, w: World, m: Entries, name: string)
    requires Holds(cfg, m, AllEntries(w)) && DefaultHinted(w) && PassedName(name) && NoForeignOfCluster(cfg, m, name)
    ensures NoneTakenFor(m, name)
  {
    hide BelongsToCluster;
    forall id | id in m
      ensures !BelongsToCluster(m[id].hint, name)
    {
      if cfg.prefix <= id {
        var e := HeldEntry(cfg, m, AllEntries(w), id);
        InSyncWithRendered(cfg, m[id], e);
        AllEntriesMembers(w, e);
        var v, i, p :| Renders(w, v, i, p, e);
        RenderedHasPodSelector(w.env, i, v, p);
        ClusterSweepMissesDefaultHints(i.name, v.cluster.name, name);
      }
    }
  }

  // ----- a cluster that is deleted or disabled

  /** The event of a deleted or disabled cluster deletes nothing, whether it is passed the registry or, because
      there is none any more, an object without a name: the server is still in the state declared with the
      cluster `name`, and in the one declared without it exactly when no entry is rendered for a pod of it. */
  lemma DroppedClusterLeavesEntries(
    r: TargetedReconciler, w: World, w': World, m: Entries, name: string, cluster: Cluster, deleted: bool,
    relisted: seq<Identity>, connected: bool, conns: Connections, fx: Effects, faults: int)
    requires DropsCluster(w, w', name)
    requires Converged(r.cfg, m, Declared(r.cfg, w')) && Unambiguous(r.cfg, AllEntries(w'))
    requires DefaultHinted(w') && PassedName(cluster.name) && NoForeignOfCluster(r.cfg, m, cluster.name)
    requires deleted || !cluster.spec.enabled
    requires r.ClusterEventDoes(fx, m, cluster, deleted, w'.identities, relisted, connected, conns, faults)
    ensures After(r.cfg, m, fx) == m
    ensures Converged(r.cfg, After(r.cfg, m, fx), Declared(r.cfg, w)) <==>
            !exists v, i, p, e :: Renders(w', v, i, p, e) && v.cluster.name == name
  {
    var es, rest := AllEntries(w'), AllEntries(w);
    HoldsDeclared(r.cfg, m, w');
    NoneOfCluster(r.cfg, w', m, cluster.name);
    NothingDeleted(r, m, cluster, deleted, w'.identities, relisted, connected, conns, fx, faults);
    hide *;
    forall e | e in rest
      ensures e in es
    {
      DroppedIsRendered(w, w', name, e);
    }
    FewerIsUnambiguous(r.cfg, rest, es);
    HoldsDeclared(r.cfg, m, w);
    HoldsBoth(r.cfg, m, es, rest);
    ContributesNothing(w, w', name);
  }

  lemma NothingDeleted(
    r: TargetedReconciler, m: Entries, cluster: Cluster, deleted: bool, identities: seq<Identity>,
    relisted: seq<Identity>, connected: bool, conns: Connections, fx: Effects, faults: int)
    requires NoneTakenFor(m, cluster.name) && (deleted || !cluster.spec.enabled)
    requires r.ClusterEventDoes(fx, m, cluster, deleted, identities, relisted, connected, conns, faults)
    ensures |fx.luck| == |fx.written| && After(r.cfg, m, fx) == m
  {
    hide BelongsToCluster;
    assert fx.gone == {};
  }

  /** The hint of an entry tells for which cluster it was rendered. */
  lemma RenderedInOneCluster(w: World, v: ConnView, i: Identity, p: Pod, v': ConnView, i': Identity, p': Pod, e: Entry)
    requires DefaultHinted(w) && Renders(w, v, i, p, e) && Renders(w, v', i', p', e)
    ensures v.cluster.name == v'.cluster.name
  {
    RenderedHasPodSelector(w.env, i, v, p);
    RenderedHasPodSelector(w.env, i', v', p');
    hide ClusterOwns;
    ClusterRoundTrip(i.name, v.cluster.name, v.cluster.name);
    ClusterRoundTrip(i'.name, v'.cluster.name, v.cluster.name);
  }

  /** The world without the cluster declares everything exactly when the cluster contributes nothing. */
  lemma ContributesNothing(w: World, w': World, name: string)
    requires DropsCluster(w, w', name) && DefaultHinted(w')
    ensures (forall e | e in AllEntries(w') :: e in AllEntries(w)) <==>
            !exists v, i, p, e :: Renders(w', v, i, p, e) && v.cluster.name == name
  {
    hide AllEntries, Renders, DropsCluster, DefaultHinted;
    if forall e | e in AllEntries(w') :: e in AllEntries(w) {
      forall v, i, p, e | Renders(w', v, i, p, e)
        ensures v.cluster.name != name
      {
        AllEntriesMembers(w', e);
        SurvivesDrop(w, w', name, e);
        var v', i', p' :| Renders(w', v', i', p', e) && v'.cluster.name != name;
        RenderedInOneCluster(w', v, i, p, v', i', p', e);
      }
    }
    if !exists v, i, p, e :: Renders(w', v, i, p, e) && v.cluster.name == name {
      forall e | e in AllEntries(w')
        ensures e in AllEntries(w)
      {
        AllEntriesMembers(w', e);
        SurvivesDrop(w, w', name, e);
      }
    }
  }

  // ----- an enabled cluster

  /** The cluster event looks at the ignored namespaces no more than the identity event: it writes `e` for
      an identity of one of them. */
  ghost predicate RendersIgnored(w: World, v: ConnView, i: Identity, p: Pod, e: Entry) {
    && v in w.views && i in w.identities && p in v.pods
    && Targets(i, v.cluster) && w.ignored(i.namespace) && Matches(i, p)
    && RenderPod(w.env, i, v, p) == Some(e)
  }

  /** What the event writes for a connection. */
  lemma ClusterEventWrites(w: World, v: ConnView, e: Entry)
    requires v in w.views
    ensures e in FlatMap(w.identities, IfTargeted(w.env, v)) <==>
            exists i, p :: Renders(w, v, i, p, e) || RendersIgnored(w, v, i, p, e)
  {
    FlatMapMembers(w.identities, IfTargeted(w.env, v), e);
    hide FlatMap, RenderPod, Matches, Targets, IdentityEntries;
    if i :| i in w.identities && e in IfTargeted(w.env, v)(i) {
      IdentityEntriesMembers(w.env, v, i, e);
      var p :| p in v.pods && Matches(i, p) && RenderPod(w.env, i, v, p) == Some(e);
      assert Renders(w, v, i, p, e) || RendersIgnored(w, v, i, p, e);
    }
    if i, p :| Renders(w, v, i, p, e) || RendersIgnored(w, v, i, p, e) {
      IdentityEntriesMembers(w.env, v, i, e);
      assert e in IfTargeted(w.env, v)(i);
    }
  }

  /** Written entries carry default hints, so the orphan search of the event finds none of them. */
  lemma {:induction false} WritingTakesNone(cfg: Config, m: Entries, es: seq<Entry>, luck: seq<Luck>, name: string)
    requires |luck| == |es| && NoneTakenFor(m, name) && forall e | e in es :: !BelongsToCluster(e.hint, name)
    ensures NoneTakenFor(Upserts(cfg, m, es, luck), name)
  {
    hide Upsert, NoneTakenFor, BelongsToCluster, Address;
    if es != [] {
      var n := |es| - 1;
      WritingTakesNone(cfg, m, es[..n], luck[..n], name);
      assert es[n] in es;
      AddressHint(cfg, es[n]);
      WriteTakesNone(Upserts(cfg, m, es[..n], luck[..n]), Address(cfg, es[n]), luck[n], name);
    }
  }

  lemma AddressHint(cfg: Config, e: Entry)
    ensures Address(cfg, e).hint == e.hint
  {
  }

  lemma WriteTakesNone(m: Entries, a: Entry, l: Luck, name: string)
    requires NoneTakenFor(m, name) && !BelongsToCluster(a.hint, name)
    ensures NoneTakenFor(Upsert(m, a, l), name)
  {
    hide BelongsToCluster, Similar, SameAttributes;
  }

  lemma DefaultHintOfWritten(w: World, v: ConnView, name: string, e: Entry)
    requires v in w.views && DefaultHinted(w) && PassedName(name) && e in FlatMap(w.identities, IfTargeted(w.env, v))
    ensures !BelongsToCluster(e.hint, name)
  {
    ClusterEventWrites(w, v, e);
    hide FlatMap, BelongsToCluster;
    var i, p :| Renders(w, v, i, p, e) || RendersIgnored(w, v, i, p, e);
    RenderedHasPodSelector(w.env, i, v, p);
    ClusterSweepMissesDefaultHints(i.name, v.cluster.name, name);
  }

  /** So the event only writes, whatever fails and whichever identities it lists for its cleanup. */
  lemma ClusterEventOnlyWrites(
    r: TargetedReconciler, w: World, m: Entries, cluster: Cluster, relisted: seq<Identity>, connected: bool,
    conns: Connections, fx: Effects, faults: int)
    requires w.env == r.env && Agrees(w, conns) && DefaultHinted(w) && PassedName(cluster.name)
    requires NoneTakenFor(m, cluster.name) && cluster.spec.enabled
    requires r.ClusterEventDoes(fx, m, cluster, false, w.identities, relisted, connected, conns, faults)
    ensures |fx.luck| == |fx.written| && After(r.cfg, m, fx) == Upserts(r.cfg, m, fx.written, fx.luck)
    ensures !connected ==> fx.written == []
    ensures connected ==>
      && cluster.name in conns && conns[cluster.name] in w.views
      && fx.written == FlatMap(w.identities, IfTargeted(w.env, conns[cluster.name]))
      && (faults == 0 ==> AllFine(fx.luck))
  {
    hide BelongsToCluster, FlatMap, IfTargeted, DefaultHinted, Misses, AllFine;
    if connected {
      NoMisses(fx.luck);
      forall e | e in fx.written
        ensures !BelongsToCluster(e.hint, cluster.name)
      {
        DefaultHintOfWritten(w, conns[cluster.name], cluster.name, e);
      }
      WritingTakesNone(r.cfg, m, fx.written, fx.luck, cluster.name);
      assert fx.gone == {};
    }
  }

  /** An entry written for an identity of an ignored namespace is not declared: no other identity has
      its hint. */
  lemma IgnoredIsNotRendered(w: World, v: ConnView, i: Identity, p: Pod, e: Entry)
    requires DefaultHinted(w) && RendersIgnored(w, v, i, p, e)
    ensures e !in AllEntries(w) && BelongsToIdentity(e.hint, i)
  {
    RenderedHasPodSelector(w.env, i, v, p);
    TargetedRoundTrip(i.name, v.cluster.name, i);
    AllEntriesMembers(w, e);
    hide BelongsToIdentity, AllEntries;
    forall v', j, q
      ensures !Renders(w, v', j, q, e)
    {
      if Renders(w, v', j, q, e) {
        HintTellsIdentity(w, v', j, q, e, i);
      }
    }
  }

  /** In a frozen world the event of an enabled cluster leaves a converged server as it is, whatever
      fails, unless it writes for an identity of an ignored namespace. */
  lemma ClusterEventKeepsConverged(
    r: TargetedReconciler, w: World, m: Entries, cluster: Cluster, relisted: seq<Identity>, connected: bool,
    conns: Connections, fx: Effects, faults: int)
    requires w.env == r.env && Agrees(w, conns)
    requires Converged(r.cfg, m, Declared(r.cfg, w)) && Unambiguous(r.cfg, AllEntries(w))
    requires DefaultHinted(w) && PassedName(cluster.name) && NoForeignOfCluster(r.cfg, m, cluster.name)
    requires cluster.spec.enabled
    requires forall v, i, p, e | RendersIgnored(w, v, i, p, e) :: v.cluster.name != cluster.name
    requires r.ClusterEventDoes(fx, m, cluster, false, w.identities, relisted, connected, conns, faults)
    ensures After(r.cfg, m, fx) == m
  {
    hide Declared, AllEntries, Converged, Unambiguous, Holds, DefaultHinted, Renders, RendersIgnored, FlatMap,
         IfTargeted, NoneTakenFor, NoForeignOfCluster;
    HoldsDeclared(r.cfg, m, w);
    NoneOfCluster(r.cfg, w, m, cluster.name);
    ClusterEventOnlyWrites(r, w, m, cluster, relisted, connected, conns, fx, faults);
    forall e | e in fx.written
      ensures InPlace(r.cfg, m, e)
    {
      ClusterEventWrites(w, conns[cluster.name], e);
      AllEntriesMembers(w, e);
      HeldInPlace(r.cfg, m, AllEntries(w), e);
    }
    UpsertsInPlace(r.cfg, m, fx.written, fx.luck);
  }

  /** Without faults that is exact: the server stays converged only if there is nothing to write for an
      identity of an ignored namespace. */
  lemma ClusterEventExact(
    r: TargetedReconciler, w: World, m: Entries, cluster: Cluster, relisted: seq<Identity>, conns: Connections,
    fx: Effects)
    requires w.env == r.env && Agrees(w, conns)
    requires Converged(r.cfg, m, Declared(r.cfg, w)) && Unambiguous(r.cfg, AllEntries(w))
    requires DefaultHinted(w) && PassedName(cluster.name) && NoForeignOfCluster(r.cfg, m, cluster.name)
    requires cluster.spec.enabled
    requires r.ClusterEventDoes(fx, m, cluster, false, w.identities, relisted, true, conns, 0)
    requires OrderlyFor(r.cfg, m, fx.written) && Unambiguous(r.cfg, fx.written) && Faithful(r.cfg, m, fx.written)
    ensures Converged(r.cfg, After(r.cfg, m, fx), Declared(r.cfg, w)) <==>
            forall v, i, p, e | RendersIgnored(w, v, i, p, e) :: v.cluster.name != cluster.name
  {
    hide Declared, AllEntries, Converged, Unambiguous, Holds, DefaultHinted, Renders, RendersIgnored, FlatMap,
         IfTargeted, NoneTakenFor, NoForeignOfCluster, OrderlyFor, Faithful, Upserts;
    if forall v, i, p, e | RendersIgnored(w, v, i, p, e) :: v.cluster.name != cluster.name {
      ClusterEventKeepsConverged(r, w, m, cluster, relisted, true, conns, fx, 0);
    } else {
      var v, i, p, e :| RendersIgnored(w, v, i, p, e) && v.cluster.name == cluster.name;
      HoldsDeclared(r.cfg, m, w);
      NoneOfCluster(r.cfg, w, m, cluster.name);
      ClusterEventOnlyWrites(r, w, m, cluster, relisted, true, conns, fx, 0);
      ViewByName(w, conns, v, i, p, e);
      ClusterEventWrites(w, v, e);
      UpsertsLand(r.cfg, m, fx.written, fx.written, fx.luck);
      UpToDateInPlace(r.cfg, m, After(r.cfg, m, fx), fx.written, e);
      IgnoredBreaks(r.cfg, w, After(r.cfg, m, fx), v, i, p, e);
    }
  }

  lemma ViewByName(w: World, conns: Connections, v: ConnView, i: Identity, p: Pod, e: Entry)
    requires Agrees(w, conns) && RendersIgnored(w, v, i, p, e)
    ensures v in w.views && v.cluster.name in conns && conns[v.cluster.name] == v
  {
  }

  lemma IgnoredBreaks(cfg: Config, w: World, m: Entries, v: ConnView, i: Identity, p: Pod, e: Entry)
    requires DefaultHinted(w) && RendersIgnored(w, v, i, p, e) && InPlace(cfg, m, e)
    ensures !Converged(cfg, m, Declared(cfg, w))
  {
    var id := Address(cfg, e).id;
    IgnoredIsNotRendered(w, v, i, p, e);
    InSyncWithRendered(cfg, m[id], e);
    AddressAddressed(cfg, e);
    hide Declared, AllEntries, BelongsToIdentity;
    if Converged(cfg, m, Declared(cfg, w)) {
      NoneOfIgnored(cfg, w, m, i, id);
    }
  }

  /** Without faults, the event of a newly enabled cluster takes a server from what a full pass declares
      without the cluster to what it declares with it. */
  lemma ClusterAddedConverges(
    r: TargetedReconciler, w: World, w': World, m: Entries, cluster: Cluster, relisted: seq<Identity>,
    conns: Connections, fx: Effects)
    requires DropsCluster(w, w', cluster.name) && w'.env == r.env && Agrees(w', conns)
    requires Converged(r.cfg, m, Declared(r.cfg, w)) && Unambiguous(r.cfg, AllEntries(w'))
    requires OrderlyFor(r.cfg, m, AllEntries(w'))
    requires DefaultHinted(w') && PassedName(cluster.name) && NoForeignOfCluster(r.cfg, m, cluster.name)
    requires forall v, i, p, e | RendersIgnored(w', v, i, p, e) :: v.cluster.name != cluster.name
    requires cluster.spec.enabled
    requires r.ClusterEventDoes(fx, m, cluster, false, w'.identities, relisted, true, conns, 0)
    ensures Converged(r.cfg, After(r.cfg, m, fx), Declared(r.cfg, w'))
  {
    var es, all := AllEntries(w), AllEntries(w');
    FewerViewsDefaultHinted(w, w', cluster.name);
    hide *;
    forall e | e in es
      ensures e in all
    {
      DroppedIsRendered(w, w', cluster.name, e);
    }
    FewerIsUnambiguous(r.cfg, es, all);
    HoldsDeclared(r.cfg, m, w);
    NoneOfCluster(r.cfg, w, m, cluster.name);
    ClusterEventOnlyWrites(r, w', m, cluster, relisted, true, conns, fx, 0);
    forall e
      ensures e in all <==> e in es || e in fx.written
    {
      AddedByCluster(w, w', cluster.name, conns, e);
    }
    WritingMore(r.cfg, m, es, fx.written, all, fx.luck);
    HoldsDeclared(r.cfg, After(r.cfg, m, fx), w');
  }

  lemma FewerViewsDefaultHinted(w: World, w': World, name: string)
    requires DropsCluster(w, w', name) && DefaultHinted(w')
    ensures DefaultHinted(w)
  {
  }

  lemma AddedByCluster(w: World, w': World, name: string, conns: Connections, e: Entry)
    requires DropsCluster(w, w', name) && Agrees(w', conns) && name in conns && conns[name] in w'.views
    requires forall v, i, p, e | RendersIgnored(w', v, i, p, e) :: v.cluster.name != name
    ensures e in AllEntries(w') <==>
            e in AllEntries(w) || e in FlatMap(w'.identities, IfTargeted(w'.env, conns[name]))
  {
    assert conns[name].cluster.name == name;
    AllEntriesMembers(w', e);
    SurvivesDrop(w, w', name, e);
    ClusterEventWrites(w', conns[name], e);
    hide AllEntries, FlatMap, IfTargeted, RendersIgnored, RenderPod, Matches, Targets;
    if v, i, p :| Renders(w', v, i, p, e) {
      if v.cluster.name == name {
        assert v == conns[name];
      }
    }
  }

  // ----- a registry that changes

  /** The registry of the cluster `name` changes, or its pods do, in a world that is `base` otherwise. The
      cleanup of the event finds no default-hinted entry, so without faults the event takes a server from
      the state declared before the change to the one declared after it exactly when every old entry of
      the cluster has an ID that is still declared. */
  lemma ClusterUpdatedExact(
    r: TargetedReconciler, base: World, w: World, w': World, m: Entries, cluster: Cluster, relisted: seq<Identity>,
    conns: Connections, fx: Effects)
    requires DropsCluster(base, w, cluster.name) && DropsCluster(base, w', cluster.name)
    requires w'.env == r.env && Agrees(w', conns)
    requires Converged(r.cfg, m, Declared(r.cfg, w))
    requires Unambiguous(r.cfg, AllEntries(w)) && Unambiguous(r.cfg, AllEntries(w'))
    requires OrderlyFor(r.cfg, m, AllEntries(w')) && Faithful(r.cfg, m, fx.written)
    requires DefaultHinted(w) && DefaultHinted(w') && PassedName(cluster.name)
    requires NoForeignOfCluster(r.cfg, m, cluster.name)
    requires forall v, i, p, e | RendersIgnored(w', v, i, p, e) :: v.cluster.name != cluster.name
    requires cluster.spec.enabled
    requires r.ClusterEventDoes(fx, m, cluster, false, w'.identities, relisted, true, conns, 0)
    ensures Converged(r.cfg, After(r.cfg, m, fx), Declared(r.cfg, w')) <==>
            forall v, i, p, e | Renders(w, v, i, p, e) && v.cluster.name == cluster.name ::
              IsIDOf(r.cfg, AllEntries(w'), Address(r.cfg, e).id)
  {
    hide *;
    var es, rest, all := AllEntries(w), AllEntries(base), AllEntries(w');
    HoldsDeclared(r.cfg, m, w);
    NoneOfCluster(r.cfg, w, m, cluster.name);
    ClusterEventOnlyWrites(r, w', m, cluster, relisted, true, conns, fx, 0);
    forall e
      ensures e in all <==> e in rest || e in fx.written
      ensures e in rest ==> e in es
    {
      AddedByCluster(base, w', cluster.name, conns, e);
      DroppedIsRendered(base, w, cluster.name, e);
    }
    WritingOver(r.cfg, m, es, rest, fx.written, all, fx.luck);
    HoldsDeclared(r.cfg, After(r.cfg, m, fx), w');
    OldOfCluster(r.cfg, base, w, w', cluster.name);
  }

  lemma OldOfCluster(cfg: Config, base: World, w: World, w': World, name: string)
    requires DropsCluster(base, w, name) && DropsCluster(base, w', name)
    ensures (forall e | e in AllEntries(w) :: IsIDOf(cfg, AllEntries(w'), Address(cfg, e).id)) <==>
            forall v, i, p, e | Renders(w, v, i, p, e) && v.cluster.name == name ::
              IsIDOf(cfg, AllEntries(w'), Address(cfg, e).id)
  {
    hide AllEntries, Renders, DropsCluster, Address;
    forall v, i, p, e | Renders(w, v, i, p, e)
      ensures e in AllEntries(w)
    {
      AllEntriesMembers(w, e);
    }
    if forall v, i, p, e | Renders(w, v, i, p, e) && v.cluster.name == name ::
         IsIDOf(cfg, AllEntries(w'), Address(cfg, e).id) {
      forall e | e in AllEntries(w)
        ensures IsIDOf(cfg, AllEntries(w'), Address(cfg, e).id)
      {
        AllEntriesMembers(w, e);
        var v, i, p :| Renders(w, v, i, p, e);
        if v.cluster.name != name {
          SurvivesDrop(base, w, name, e);
          DroppedIsRendered(base, w', name, e);
        }
      }
    }
  }
}
