// Identity events of identities that change.
module IdentityUpdates {
  import opened Wrappers
  import opened SpireApi
  import opened Store
  import opened State
  import opened Convergence
  import opened Rendering
  import opened Hints
  import opened ClusterManager
  import opened Declaration
  import opened FastPath
  import opened FastPathTheorems
  import opened IdentityEvents
  import opened WorldTheorems

  /** Every entry rendered for the identity as it was has an ID that is still declared, or belongs to no pod
      that the identity selects now. */
  ghost predicate ReplacedOrUnbacked(
    cfg: Config, w: World, w': World, before: Identity, now: Identity, listed: seq<Cluster>, conns: Connections)
  {
    forall v, p, e | Renders(w, v, before, p, e) ::
      IsIDOf(cfg, AllEntries(w'), Address(cfg, e).id) || !Backed(now, listed, conns, e)
  }

  /** What the cleanup takes: the entries of the identity that the listing does not back. */
  ghost predicate TakesUnbacked(
    m1: Entries, identity: Identity, listed: seq<Cluster>, conns: Connections, gone: set<string>)
  {
    forall id | id in m1 :: id in gone <==>
      BelongsToIdentity(m1[id].hint, identity) && !HasValidPod(m1[id], UIDSet(ValidUIDs(identity, listed, conns)))
  }

  /** What is declared now is in place after the writes and survives the cleanup. */
  lemma WantedSurvives(
    cfg: Config, w': World, m1: Entries, now: Identity, listed: seq<Cluster>, conns: Connections, gone: set<string>,
    e: Entry)
    requires Agrees(w', conns) && Settled(listed, conns) && DefaultHinted(w') && now in w'.identities
    requires e in AllEntries(w') && InPlace(cfg, m1, e) && TakesUnbacked(m1, now, listed, conns, gone)
    ensures InPlace(cfg, m1 - gone, e)
  {
    var id := Address(cfg, e).id;
    hide AllEntries, BelongsToIdentity, HasValidPod, DefaultHinted, Settled, Agrees, ValidUIDs, UIDSet;
    if BelongsToIdentity(m1[id].hint, now) {
      SyncedHasPod(cfg, w', m1[id], e, now, listed, conns);
    }
  }

  /** An entry of the identity as it was that is not written over is taken exactly if it is not backed. */
  lemma OldIsTaken(
    cfg: Config, w: World, m: Entries, m1: Entries, v: ConnView, before: Identity, p: Pod, now: Identity,
    listed: seq<Cluster>, conns: Connections, gone: set<string>, e: Entry)
    requires DefaultHinted(w) && Renders(w, v, before, p, e) && before.name == now.name && now.hint == ""
    requires InPlace(cfg, m, e) && At(m1, Address(cfg, e).id) == At(m, Address(cfg, e).id)
    requires TakesUnbacked(m1, now, listed, conns, gone)
    ensures Address(cfg, e).id in m1
    ensures Address(cfg, e).id in gone <==> !Backed(now, listed, conns, e)
  {
    var id := Address(cfg, e).id;
    hide BelongsToIdentity, HasValidPod, Backed, ValidUIDs, UIDSet, InSync;
    BackedInPlace(cfg, m, now, listed, conns, e);
    HintTellsIdentity(w, v, before, p, e, now);
    assert At(m1, id) == Some(m[id]);
  }

  /** An entry of the world before the change is still rendered, or was rendered for the identity as it was. */
  lemma StillOrBefore(base: World, w: World, w': World, before: Identity, now: Identity, e: Entry)
    requires AddsIdentity(base, w, before) && AddsIdentity(base, w', now)
    ensures e in AllEntries(w) <==> e in AllEntries(base) || exists v, p :: Renders(w, v, before, p, e)
    ensures e in AllEntries(w') <==> e in AllEntries(base) || exists v, p :: Renders(w', v, now, p, e)
  {
    AddedByIdentity(base, w, before, e);
    AddedByIdentity(base, w', now, e);
  }

  /** The server after the event holds what is declared now exactly when no entry of the identity as it was
      is left over. */
  lemma HoldsAfterUpdate(
    cfg: Config, base: World, w: World, w': World, m: Entries, m1: Entries, before: Identity, now: Identity,
    listed: seq<Cluster>, conns: Connections, more: seq<Entry>, gone: set<string>)
    requires AddsIdentity(base, w, before) && AddsIdentity(base, w', now) && before.name == now.name
    requires Agrees(w', conns) && Settled(listed, conns) && DefaultHinted(w) && DefaultHinted(w')
    requires Holds(cfg, m, AllEntries(w)) && TakesUnbacked(m1, now, listed, conns, gone)
    requires forall e | e in AllEntries(w') :: InPlace(cfg, m1, e)
    requires forall e | e in more :: e in AllEntries(w')
    requires forall id | !IsIDOf(cfg, more, id) :: At(m1, id) == At(m, id)
    ensures Holds(cfg, m1 - gone, AllEntries(w')) <==> ReplacedOrUnbacked(cfg, w, w', before, now, listed, conns)
  {
    var all, m' := AllEntries(w'), m1 - gone;
    HasIdentity(base, w', now);
    assert now.hint == "";
    hide AllEntries, AddsIdentity, Agrees, Settled, DefaultHinted, TakesUnbacked, Renders, Backed, Address, InSync;
    forall e | e in all
      ensures InPlace(cfg, m', e)
    {
      WantedSurvives(cfg, w', m1, now, listed, conns, gone, e);
    }
    forall v, p, e | Renders(w, v, before, p, e)
      ensures
        var id := Address(cfg, e).id;
        IsIDOf(cfg, all, id) || (cfg.prefix <= id && (id in m' <==> Backed(now, listed, conns, e)))
    {
      AllEntriesMembers(w, e);
      HeldInPlace(cfg, m, AllEntries(w), e);
      AddressAddressed(cfg, e);
      if !IsIDOf(cfg, all, Address(cfg, e).id) {
        OldIsTaken(cfg, w, m, m1, v, before, p, now, listed, conns, gone, e);
      }
    }
    if ReplacedOrUnbacked(cfg, w, w', before, now, listed, conns) {
      forall id | id in m' && cfg.prefix <= id
        ensures IsIDOf(cfg, all, id)
      {
        if !IsIDOf(cfg, all, id) {
          assert At(m1, id) == At(m, id);
          var e := HeldEntry(cfg, m, AllEntries(w), id);
          StillOrBefore(base, w, w', before, now, e);
        }
      }
    }
  }

  /** An identity changes from `before` to `now` in a world that is `base` otherwise. Without faults, its event
      takes a server from the state declared before the change to the one declared after it exactly when
      every old entry has an ID that is still declared or no longer belongs to a selected live pod. An entry
      rendered from an old template for a pod that is still live and selected stays until the next full pass. */
  lemma IdentityUpdatedExact(
    r: TargetedReconciler, base: World, w: World, w': World, m: Entries, before: Identity, now: Identity,
    listed: seq<Cluster>, conns: Connections, fx: Effects)
    requires AddsIdentity(base, w, before) && AddsIdentity(base, w', now) && before.name == now.name
    requires w'.env == r.env && w'.ignored == r.ignored && Agrees(w', conns) && Settled(listed, conns)
    requires DefaultHinted(w) && DefaultHinted(w') && !w'.ignored(now.namespace)
    requires Converged(r.cfg, m, Declared(r.cfg, w))
    requires Unambiguous(r.cfg, AllEntries(w)) && Unambiguous(r.cfg, AllEntries(w'))
    requires OrderlyFor(r.cfg, m, AllEntries(w')) && Faithful(r.cfg, m, fx.written)
    requires r.IdentityEventDoes(fx, m, now, false, listed, listed, conns, 0)
    ensures Converged(r.cfg, After(r.cfg, m, fx), Declared(r.cfg, w')) <==>
            ReplacedOrUnbacked(r.cfg, w, w', before, now, listed, conns)
  {
    var m1 := WriteThenSweep(r, m, now, listed, listed, conns, fx);
    assert TakesUnbacked(m1, now, listed, conns, fx.gone);
    HasIdentity(base, w', now);
    hide *;
    var more, rest, all := fx.written, AllEntries(base), AllEntries(w');
    HoldsDeclared(r.cfg, m, w);
    forall e
      ensures e in all <==> e in rest || e in more
      ensures e in rest ==> e in AllEntries(w)
    {
      StillOrBefore(base, w, w', before, now, e);
      IdentityEventWritesRendered(w', now, listed, conns, e);
    }
    UpsertsLand(r.cfg, m, all, more, fx.luck);
    forall e | e in all
      ensures InPlace(r.cfg, m1, e)
    {
      WantedInPlace(r.cfg, m, m1, AllEntries(w), rest, more, all, e);
    }
    HoldsAfterUpdate(r.cfg, base, w, w', m, m1, before, now, listed, conns, more, fx.gone);
    HoldsDeclared(r.cfg, m1 - fx.gone, w');
  }
}
