// Update events of pods that change: a pod that ends, starts, moves to another
// label set, or otherwise becomes another one under the same UID.
module PodUpdates {
  import opened Wrappers
  import opened SpireApi
  import opened Store
  import opened State
  import opened Convergence
  import opened Rendering
  import opened Hints
  import opened ClusterManager
  import opened Declaration
  import opened FastPath
  import opened FastPathTheorems
  import opened IdentityEvents
  import opened WorldTheorems

  /** The update event of this pod deletes instead of writing. */
  ghost predicate Sweeps(r: TargetedReconciler, identities: seq<Identity>, pod: Pod, cluster: Cluster) {
    !r.ignored(pod.namespace) && !Live(pod) && MatchingIdentities(identities, pod, cluster) != []
  }

  lemma SweepOrWrite(
    r: TargetedReconciler, m: Entries, conns: Connections, pod: Pod, cluster: Cluster, action: string,
    identities: seq<Identity>, fx: Effects)
    requires action != "delete"
    requires r.PodEventDoes(fx, m, pod, cluster, action, identities, conns, 0)
    ensures |fx.luck| == |fx.written|
    ensures Sweeps(r, identities, pod, cluster) ==>
              fx.gone == Victims(m, OfPod(r.cfg.prefix, pod)) && After(r.cfg, m, fx) == m - fx.gone
    ensures !Sweeps(r, identities, pod, cluster) ==>
              AllFine(fx.luck) && After(r.cfg, m, fx) == Upserts(r.cfg, m, fx.written, fx.luck)
  {
    NoMisses(fx.luck);
    hide PodEventEntries, MatchingIdentities, OfPod, Victims;
    if Sweeps(r, identities, pod, cluster) {
      SweptAll(Victims(m, OfPod(r.cfg.prefix, pod)), fx.gone);
    }
  }

  /** What the sweep takes from a server that holds the entries of a world with a pod: those of the pod. */
  lemma SweepingPod(cfg: Config, base: World, w: World, k: nat, m: Entries, before: Pod, pod: Pod)
    requires AddsPod(base, w, k, before) && before.uid == pod.uid && NamesOwnPod(w)
    requires Holds(cfg, m, AllEntries(w)) && Unambiguous(cfg, AllEntries(w)) && Keyed(m)
    ensures Holds(cfg, m - Victims(m, OfPod(cfg.prefix, pod)), AllEntries(base))
  {
    hide Holds, Unambiguous, AllEntries, Victims, OfPod, Address, NamesOwnPod;
    var gone := Victims(m, OfPod(cfg.prefix, pod));
    forall e
      ensures e in AllEntries(base) ==> e in AllEntries(w)
      ensures e in AllEntries(w) ==> (Address(cfg, e).id in gone <==> e !in AllEntries(base))
    {
      AddedEntries(base, w, k, before, e);
      if e in AllEntries(w) {
        PodVictims(cfg, w, m, pod, e);
        OfPodIffAdded(base, w, k, before, e);
      }
    }
    SweepingRest(cfg, m, AllEntries(w), AllEntries(base), gone);
  }

  lemma HoldsSame(cfg: Config, m: Entries, es: seq<Entry>, es': seq<Entry>)
    requires forall e :: e in es <==> e in es'
    ensures Holds(cfg, m, es) <==> Holds(cfg, m, es')
  {
  }

  /** Every entry rendered for the pod as it was has the ID of an entry that is declared now. */
  ghost predicate AllReplaced(cfg: Config, w: World, w': World, k: nat, before: Pod)
    requires k < |w.views|
  {
    forall e | RendersForPod(w, w.views[k], before, e) :: IsIDOf(cfg, AllEntries(w'), Address(cfg, e).id)
  }

  /** A pod changes from `before` to `pod` in a world that is `base` otherwise. Without faults, the event takes
      a server from the state declared before the change to the one declared after it exactly when the
      pod is swept, as one that ended is, or all entries of the pod as it was are replaced. Otherwise,
      for instance after a change of labels, an old entry stays until the next full pass. */
  lemma PodUpdatedExact(
    r: TargetedReconciler, base: World, w: World, w': World, k: nat, m: Entries, conns: Connections, before: Pod,
    pod: Pod, action: string, fx: Effects)
    requires AddsPod(base, w, k, before) && AddsPod(base, w', k, pod) && before.uid == pod.uid
    requires w'.env == r.env && w'.ignored == r.ignored && Agrees(w', conns)
    requires Converged(r.cfg, m, Declared(r.cfg, w))
    requires Unambiguous(r.cfg, AllEntries(w)) && Unambiguous(r.cfg, AllEntries(w'))
    requires OrderlyFor(r.cfg, m, AllEntries(w')) && Faithful(r.cfg, m, fx.written) && NamesOwnPod(w)
    requires forall e :: !AbsentSelectorWrites(w', w'.views[k], pod, e)
    requires action != "delete"
    requires r.PodEventDoes(fx, m, pod, w'.views[k].cluster, action, w'.identities, conns, 0)
    ensures Converged(r.cfg, After(r.cfg, m, fx), Declared(r.cfg, w')) <==>
            Sweeps(r, w'.identities, pod, w'.views[k].cluster) || AllReplaced(r.cfg, w, w', k, before)
  {
    hide TargetedReconciler.PodEventDoes, Declared, Converged, AllEntries, Unambiguous, OrderlyFor, Faithful,
         NamesOwnPod, Holds, Upserts, AllReplaced, RendersForPod, Agrees, FastPath.After, Sweeps;
    var v, es, rest, all := w'.views[k], AllEntries(w), AllEntries(base), AllEntries(w');
    assert v in w'.views && pod in v.pods;
    HoldsDeclared(r.cfg, m, w);
    SweepOrWrite(r, m, conns, pod, v.cluster, action, w'.identities, fx);
    HoldsDeclared(r.cfg, After(r.cfg, m, fx), w');
    PodEventAgrees(r, w', v, m, conns, pod, action, fx, 0);
    if Sweeps(r, w'.identities, pod, v.cluster) {
      OrderlyIsKeyed(r.cfg, m, all);
      SweepingPod(r.cfg, base, w, k, m, before, pod);
      NothingForSwept(r, base, w', k, pod);
      HoldsSame(r.cfg, m - fx.gone, rest, all);
    } else {
      forall e
        ensures e in all <==> e in rest || e in fx.written
        ensures e in rest ==> e in es
      {
        AddedEntries(base, w', k, pod, e);
        AddedEntries(base, w, k, before, e);
      }
      WritingOver(r.cfg, m, es, rest, fx.written, all, fx.luck);
      ReplacedMeans(r.cfg, base, w, w', k, before, pod);
    }
  }

  lemma OrderlyIsKeyed(cfg: Config, m: Entries, es: seq<Entry>)
    requires OrderlyFor(cfg, m, es)
    ensures Keyed(m)
  {
  }

  lemma NothingForSwept(r: TargetedReconciler, base: World, w': World, k: nat, pod: Pod)
    requires AddsPod(base, w', k, pod) && Sweeps(r, w'.identities, pod, w'.views[k].cluster)
    ensures forall e :: e in AllEntries(base) <==> e in AllEntries(w')
  {
    hide AllEntries;
    forall e
      ensures e in AllEntries(base) <==> e in AllEntries(w')
    {
      AddedEntries(base, w', k, pod, e);
      NotRenderedForPod(w', w'.views[k], pod, e);
    }
  }

  lemma ReplacedMeans(cfg: Config, base: World, w: World, w': World, k: nat, before: Pod, pod: Pod)
    requires AddsPod(base, w, k, before) && AddsPod(base, w', k, pod)
    ensures AllReplaced(cfg, w, w', k, before) <==>
            forall e | e in AllEntries(w) :: IsIDOf(cfg, AllEntries(w'), Address(cfg, e).id)
  {
    hide AllEntries, RendersForPod, Address;
    forall e
      ensures e in AllEntries(w) <==> e in AllEntries(base) || RendersForPod(w, w.views[k], before, e)
      ensures e in AllEntries(base) ==> e in AllEntries(w')
    {
      AddedEntries(base, w, k, before, e);
      AddedEntries(base, w', k, pod, e);
    }
  }

  // ----- absent pod selectors

  /** What an event wrote for an identity without a pod selector is not declared: no other identity has
      its hint. */
  lemma AbsentBreaks(cfg: Config, w: World, m: Entries, v: ConnView, pod: Pod, e: Entry)
    requires DefaultHinted(w) && v in w.views && AbsentSelectorWrites(w, v, pod, e) && InPlace(cfg, m, e)
    requires Unambiguous(cfg, AllEntries(w))
    ensures !Converged(cfg, m, Declared(cfg, w))
  {
    var id := Address(cfg, e).id;
    HoldsDeclared(cfg, m, w);
    AddressAddressed(cfg, e);
    InSyncWithRendered(cfg, m[id], e);
    var i: Identity :| i.podSelector.NoSelector? && IsSelected(w.identities, pod, v.cluster, i)
                       && Rendered(w.env, i, v.cluster, pod, v.nodes(pod.nodeName).value) == Some(e);
    TargetedRoundTrip(i.name, v.cluster.name, i);
    if Holds(cfg, m, AllEntries(w)) {
      var x := HeldEntry(cfg, m, AllEntries(w), id);
      InSyncWithRendered(cfg, m[id], x);
      NotOfAbsent(w, i, x);
    }
  }

  lemma NotOfAbsent(w: World, i: Identity, x: Entry)
    requires DefaultHinted(w) && i in w.identities && i.podSelector.NoSelector? && x in AllEntries(w)
    ensures !BelongsToIdentity(x.hint, i)
  {
    AllEntriesMembers(w, x);
    hide AllEntries, BelongsToIdentity;
    var v, j, p :| Renders(w, v, j, p, x);
    HintTellsIdentity(w, v, j, p, x, i);
  }

  /** In a frozen world, without faults, an add or update event keeps a converged server converged exactly
      when it writes nothing for an identity without a pod selector: the full pass renders nothing for one. */
  lemma PodEventExact(
    r: TargetedReconciler, w: World, v: ConnView, m: Entries, conns: Connections, pod: Pod, action: string, fx: Effects)
    requires w.env == r.env && w.ignored == r.ignored && Agrees(w, conns) && v in w.views && pod in v.pods
    requires Converged(r.cfg, m, Declared(r.cfg, w)) && Unambiguous(r.cfg, AllEntries(w))
    requires NamesOwnPod(w) && DefaultHinted(w)
    requires forall v', p | v' in w.views && p in v'.pods && p.uid == pod.uid :: p == pod
    requires OrderlyFor(r.cfg, m, fx.written) && Unambiguous(r.cfg, fx.written) && Faithful(r.cfg, m, fx.written)
    requires action != "delete"
    requires r.PodEventDoes(fx, m, pod, v.cluster, action, w.identities, conns, 0)
    ensures Converged(r.cfg, After(r.cfg, m, fx), Declared(r.cfg, w)) <==>
            forall e :: !AbsentSelectorWrites(w, v, pod, e)
  {
    OrderlyIsKeyed(r.cfg, m, fx.written);
    SweepOrWrite(r, m, conns, pod, v.cluster, action, w.identities, fx);
    PodEventAgrees(r, w, v, m, conns, pod, action, fx, 0);
    if e :| AbsentSelectorWrites(w, v, pod, e) {
      hide *;
      AbsentIsWritten(r, w, v, pod, e);
      UpsertsLand(r.cfg, m, fx.written, fx.written, fx.luck);
      UpToDateInPlace(r.cfg, m, After(r.cfg, m, fx), fx.written, e);
      AbsentBreaks(r.cfg, w, After(r.cfg, m, fx), v, pod, e);
    } else {
      PodEventKeepsConverged(r, w, v, m, conns, pod, action, fx, 0);
    }
  }

  lemma AbsentIsWritten(r: TargetedReconciler, w: World, v: ConnView, pod: Pod, e: Entry)
    requires AbsentSelectorWrites(w, v, pod, e)
    ensures !Sweeps(r, w.identities, pod, v.cluster)
  {
  }
}
