// Identity events: what one achieves on any server, and that it agrees with the
// full pass.
module IdentityEvents {
  import opened Wrappers
  import opened Sequences
  import opened Sorting
  import opened SpireApi
  import opened EntryKey
  import opened Store
  import opened State
  import opened Convergence
  import opened Rendering
  import opened Hints
  import opened ClusterManager
  import opened Declaration
  import opened FullPass
  import opened FastPath
  import opened FastPathTheorems
  import opened WorldTheorems

  // ----- what an identity event looks at

  /** The event sees the pods of cluster `c`. */
  ghost predicate Watches(identity: Identity, listed: seq<Cluster>, conns: Connections, c: Cluster) {
    c in listed && c.spec.enabled && Targets(identity, c) && c.name in conns
  }

  /** The event writes `e` for pod `p` of cluster `c`. */
  ghost predicate EventRenders(
    env: Env, identity: Identity, listed: seq<Cluster>, conns: Connections, c: Cluster, p: Pod, e: Entry)
  {
    && Watches(identity, listed, conns, c) && p in conns[c.name].pods && Matches(identity, p)
    && RenderPod(env, identity, ViewAs(conns, c), p) == Some(e)
  }

  /** The identity selects the live pod `p` of cluster `c`. */
  ghost predicate LivePodOf(identity: Identity, listed: seq<Cluster>, conns: Connections, c: Cluster, p: Pod) {
    Watches(identity, listed, conns, c) && p in conns[c.name].pods && Matches(identity, p) && Live(p)
  }

  lemma MatchingClustersMembers(identity: Identity, listed: seq<Cluster>, conns: Connections, c: Cluster)
    ensures c in MatchingClusters(listed, identity) && c.name in conns <==> Watches(identity, listed, conns, c)
  {
    FlatMapMembers(listed, IfEnabledTarget(identity), c);
  }

  lemma IdentityEventEntryMembers(env: Env, identity: Identity, listed: seq<Cluster>, conns: Connections, e: Entry)
    ensures e in IdentityEventEntries(env, identity, listed, conns) <==>
            exists c, p :: EventRenders(env, identity, listed, conns, c, p, e)
  {
    var clusters, f := MatchingClusters(listed, identity), EntriesIn(env, identity, conns);
    FlatMapMembers(clusters, f, e);
    hide FlatMap, RenderPod, Matches, Targets, IdentityEntries, MatchingClusters;
    if c :| c in clusters && e in f(c) {
      MatchingClustersMembers(identity, listed, conns, c);
      IdentityEntriesMembers(env, ViewAs(conns, c), identity, e);
      var p :| p in conns[c.name].pods && Matches(identity, p)
          && RenderPod(env, identity, ViewAs(conns, c), p) == Some(e);
      assert EventRenders(env, identity, listed, conns, c, p, e);
    }
    if c, p :| EventRenders(env, identity, listed, conns, c, p, e) {
      MatchingClustersMembers(identity, listed, conns, c);
      IdentityEntriesMembers(env, ViewAs(conns, c), identity, e);
      assert e in f(c);
    }
  }

  lemma MatchingPodsMembers(pods: seq<Pod>, identity: Identity, p: Pod)
    ensures p in MatchingPods(pods, identity) <==> p in pods && Matches(identity, p)
  {
    FlatMapMembers(pods, IfMatches(identity), p);
  }

  lemma ValidUIDsMembers(identity: Identity, listed: seq<Cluster>, conns: Connections, uid: string)
    ensures uid in UIDSet(ValidUIDs(identity, listed, conns)) <==>
            exists c, p :: LivePodOf(identity, listed, conns, c, p) && p.uid == uid
  {
    var clusters, f := MatchingClusters(listed, identity), LiveUIDsIn(identity, conns);
    FlatMapMembers(clusters, f, uid);
    hide FlatMap, Matches, Targets, MatchingClusters, MatchingPods;
    if c :| c in clusters && uid in f(c) {
      MatchingClustersMembers(identity, listed, conns, c);
      var p := LiveUIDOf(identity, conns[c.name].pods, uid);
      assert LivePodOf(identity, listed, conns, c, p);
    }
    if c, p :| LivePodOf(identity, listed, conns, c, p) && p.uid == uid {
      MatchingClustersMembers(identity, listed, conns, c);
      LivePodCounts(identity, conns[c.name].pods, p);
      assert uid in f(c);
    }
  }

  lemma LiveUIDOf(identity: Identity, pods: seq<Pod>, uid: string) returns (p: Pod)
    requires uid in FlatMap(MatchingPods(pods, identity), LiveUID)
    ensures p in pods && Matches(identity, p) && Live(p) && p.uid == uid
  {
    FlatMapMembers(MatchingPods(pods, identity), LiveUID, uid);
    p :| p in MatchingPods(pods, identity) && uid in LiveUID(p);
    MatchingPodsMembers(pods, identity, p);
  }

  lemma LivePodCounts(identity: Identity, pods: seq<Pod>, p: Pod)
    requires p in pods && Matches(identity, p) && Live(p)
    ensures p.uid in FlatMap(MatchingPods(pods, identity), LiveUID)
  {
    FlatMapMembers(MatchingPods(pods, identity), LiveUID, p.uid);
    MatchingPodsMembers(pods, identity, p);
    assert p.uid in LiveUID(p);
  }

  /** A selector names a valid pod exactly when it is the pod-uid selector of one of the UIDs. */
  lemma NamesPodMeans(s: Selector, uids: set<string>)
    ensures NamesPod(s, uids) <==> exists u | u in uids :: s == Selector("k8s", POD_UID_PREFIX + u)
  {
  }

  /** The cleanup keeps an entry exactly when it carries the UID of a live pod of the identity. */
  lemma KeptIffLivePod(identity: Identity, listed: seq<Cluster>, conns: Connections, e: Entry)
    ensures HasValidPod(e, UIDSet(ValidUIDs(identity, listed, conns))) <==>
            exists c, p :: LivePodOf(identity, listed, conns, c, p) && PodSelector(p) in e.selectors
  {
    var uids := UIDSet(ValidUIDs(identity, listed, conns));
    hide ValidUIDs, LivePodOf;
    if HasValidPod(e, uids) {
      var s :| s in e.selectors && NamesPod(s, uids);
      NamesPodMeans(s, uids);
      var u :| u in uids && s == Selector("k8s", POD_UID_PREFIX + u);
      ValidUIDsMembers(identity, listed, conns, u);
      var c, p :| LivePodOf(identity, listed, conns, c, p) && p.uid == u;
      assert PodSelector(p) == s;
    }
    if c, p :| LivePodOf(identity, listed, conns, c, p) && PodSelector(p) in e.selectors {
      ValidUIDsMembers(identity, listed, conns, p.uid);
      NamesPodMeans(PodSelector(p), uids);
    }
  }

  // ----- on any server

  /** For a hash without collisions, on a server whose managed entries have the IDs of their content, that
      holds exactly when stored and rendered entries under one ID have their field boundaries in the
      same places. */
  lemma FaithfulExactly(cfg: Config, m: Entries, es: seq<Entry>)
    requires OrderlyFor(cfg, m, es) && forall x, y | cfg.hash(x) == cfg.hash(y) :: x == y
    ensures Faithful(cfg, m, es) <==>
              forall id, e | id in m && e in es && id == Address(cfg, e).id ::
                && |m[id].parentID.String()| == |e.parentID.String()|
                && SameLengths(Sort(m[id].selectors, SelectorLess), Sort(e.selectors, SelectorLess))
  {
    hide SameLengths, Sort, SelectorLess, Similar;
    forall id, e | id in m && e in es && id == Address(cfg, e).id
      ensures Similar(m[id], e) <==>
                && |m[id].parentID.String()| == |e.parentID.String()|
                && SameLengths(Sort(m[id].selectors, SelectorLess), Sort(e.selectors, SelectorLess))
    {
      AddressAddressed(cfg, e);
      SameIDSamePreimage(cfg, m[id], e);
      PreimageExact(m[id], e);
    }
  }

  lemma SameIDSamePreimage(cfg: Config, x: Entry, e: Entry)
    requires Addressed(cfg, x) && x.id == Address(cfg, e).id
    requires forall a, b | cfg.hash(a) == cfg.hash(b) :: a == b
    ensures Preimage(x) == Preimage(e)
  {
    assert (cfg.prefix + Key(cfg.hash, x))[|cfg.prefix|..] == Key(cfg.hash, x);
    assert (cfg.prefix + Key(cfg.hash, e))[|cfg.prefix|..] == Key(cfg.hash, e);
  }

  /** The entry that the event wrote for a live pod is none of its orphans. */
  lemma WrittenIsKept(
    env: Env, cfg: Config, m': Entries, identity: Identity, listed: seq<Cluster>, conns: Connections, e: Entry)
    requires e in IdentityEventEntries(env, identity, listed, conns) && InPlace(cfg, m', e)
    ensures HasValidPod(m'[Address(cfg, e).id], UIDSet(ValidUIDs(identity, listed, conns)))
  {
    var x := m'[Address(cfg, e).id];
    IdentityEventEntryMembers(env, identity, listed, conns, e);
    var c, p :| EventRenders(env, identity, listed, conns, c, p, e);
    RenderedHasPodSelector(env, identity, ViewAs(conns, c), p);
    InSyncWithRendered(cfg, x, e);
    assert LivePodOf(identity, listed, conns, c, p);
    KeptIffLivePod(identity, listed, conns, x);
  }

  /** The two halves of an identity event without faults. */
  lemma WriteThenSweep(
    r: TargetedReconciler, m: Entries, identity: Identity, listed: seq<Cluster>, again: seq<Cluster>,
    conns: Connections, fx: Effects)
    returns (m1: Entries)
    requires r.IdentityEventDoes(fx, m, identity, false, listed, again, conns, 0)
    ensures |fx.luck| == |fx.written| && AllFine(fx.luck) && m1 == Upserts(r.cfg, m, fx.written, fx.luck)
    ensures fx.written == IdentityEventEntries(r.env, identity, listed, conns)
    ensures After(r.cfg, m, fx) == m1 - fx.gone
    ensures forall id | id in m1 :: id in fx.gone <==>
              BelongsToIdentity(m1[id].hint, identity) &&
              !HasValidPod(m1[id], UIDSet(ValidUIDs(identity, again, conns)))
  {
    m1 := Upserts(r.cfg, m, fx.written, fx.luck);
    var sweep := Victims(m1, OrphanOfIdentity(identity, UIDSet(ValidUIDs(identity, again, conns))));
    NothingMissed(fx.luck, sweep, fx.gone);
    hide Upserts, ValidUIDs, IdentityEventEntries, HasValidPod, BelongsToIdentity, Misses, AllFine, UIDSet;
    OrphanOfIdentityMeans(identity, UIDSet(ValidUIDs(identity, again, conns)));
  }

  /** An identity event without faults, on a server with other entries of any kind. Completeness: every
      entry rendered for a pod of the identity is in place. Soundness: every remaining entry of the
      identity carries the UID of a live pod that it selects. The cleanup removes nothing that was
      just written, and whatever was neither written nor the identity's is left alone. */
  lemma IdentityEventAchieves(
    r: TargetedReconciler, m: Entries, identity: Identity, listed: seq<Cluster>, conns: Connections, fx: Effects)
    requires
      var es := IdentityEventEntries(r.env, identity, listed, conns);
      OrderlyFor(r.cfg, m, es) && Unambiguous(r.cfg, es) && Faithful(r.cfg, m, es)
    requires r.IdentityEventDoes(fx, m, identity, false, listed, listed, conns, 0)
    ensures
      var m' := After(r.cfg, m, fx);
      && (forall c, p, e | EventRenders(r.env, identity, listed, conns, c, p, e) ::
            InPlace(r.cfg, m', e) && Address(r.cfg, e).id !in fx.gone)
      && (forall id | id in m' && BelongsToIdentity(m'[id].hint, identity) ::
            exists c, p :: LivePodOf(identity, listed, conns, c, p) && PodSelector(p) in m'[id].selectors)
      && (forall id | !IsIDOf(r.cfg, fx.written, id) && (id in m ==> !BelongsToIdentity(m[id].hint, identity)) ::
            At(m', id) == At(m, id))
  {
    var m1 := WriteThenSweep(r, m, identity, listed, listed, conns, fx);
    var es, m' := fx.written, After(r.cfg, m, fx);
    UpsertsLand(r.cfg, m, es, es, fx.luck);
    hide *;
    forall c, p, e | EventRenders(r.env, identity, listed, conns, c, p, e)
      ensures InPlace(r.cfg, m', e) && Address(r.cfg, e).id !in fx.gone
    {
      IdentityEventEntryMembers(r.env, identity, listed, conns, e);
      UpToDateInPlace(r.cfg, m, m1, es, e);
      WrittenIsKept(r.env, r.cfg, m1, identity, listed, conns, e);
      InPlaceAfterSweep(r.cfg, m1, fx.gone, e);
    }
    forall id | id in m' && BelongsToIdentity(m'[id].hint, identity)
      ensures exists c, p :: LivePodOf(identity, listed, conns, c, p) && PodSelector(p) in m'[id].selectors
    {
      KeptIffLivePod(identity, listed, conns, m'[id]);
    }
    forall id | !IsIDOf(r.cfg, es, id) && (id in m ==> !BelongsToIdentity(m[id].hint, identity))
      ensures At(m', id) == At(m, id)
    {
      assert At(m1, id) == At(m, id);
      AtAfterSweep(m, m1, fx.gone, id);
    }
  }

  lemma InPlaceAfterSweep(cfg: Config, m1: Entries, gone: set<string>, e: Entry)
    requires InPlace(cfg, m1, e)
    ensures Address(cfg, e).id in m1
    ensures Address(cfg, e).id !in gone <==> InPlace(cfg, m1 - gone, e)
  {
  }

  lemma AtAfterSweep(m: Entries, m1: Entries, gone: set<string>, id: string)
    requires At(m1, id) == At(m, id)
    ensures id in m1 ==> id in m && m1[id] == m[id]
    ensures id !in m1 || id !in gone ==> At(m1 - gone, id) == At(m, id)
  {
  }

  /** For an identity without a hint of its own this is about the entries that carry its default hint,
      whatever the cluster; the default-hinted entries of every other identity are left alone. */
  lemma IdentityEventOwnEntries(
    r: TargetedReconciler, m: Entries, identity: Identity, listed: seq<Cluster>, conns: Connections, fx: Effects,
    id: string, other: string, cluster: string)
    requires
      var es := IdentityEventEntries(r.env, identity, listed, conns);
      OrderlyFor(r.cfg, m, es) && Unambiguous(r.cfg, es) && Faithful(r.cfg, m, es)
    requires r.IdentityEventDoes(fx, m, identity, false, listed, listed, conns, 0)
    requires identity.hint == "" && ValidName(identity.name) && ValidName(other) && ValidName(cluster)
    ensures
      var m' := After(r.cfg, m, fx);
      id in m' && m'[id].hint == DefaultHint(identity.name, cluster) ==>
        exists c, p :: LivePodOf(identity, listed, conns, c, p) && PodSelector(p) in m'[id].selectors
    ensures
      other != identity.name && id in m && m[id].hint == DefaultHint(other, cluster)
          && !IsIDOf(r.cfg, fx.written, id) ==>
        At(After(r.cfg, m, fx), id) == Some(m[id])
  {
    IdentityEventAchieves(r, m, identity, listed, conns, fx);
    TargetedRoundTrip(identity.name, cluster, identity);
    TargetedRoundTrip(other, cluster, identity);
  }

  /** A live pod that the identity selects in one of the listed clusters backs the entry. */
  ghost predicate Backed(identity: Identity, listed: seq<Cluster>, conns: Connections, e: Entry) {
    exists c, p :: LivePodOf(identity, listed, conns, c, p) && PodSelector(p) in e.selectors
  }

  lemma BackedInPlace(
    cfg: Config, m: Entries, identity: Identity, listed: seq<Cluster>, conns: Connections, e: Entry)
    requires InPlace(cfg, m, e)
    ensures
      var x := m[Address(cfg, e).id];
      && x.hint == e.hint
      && (HasValidPod(x, UIDSet(ValidUIDs(identity, listed, conns))) <==> Backed(identity, listed, conns, e))
  {
    var x := m[Address(cfg, e).id];
    InSyncWithRendered(cfg, x, e);
    KeptIffLivePod(identity, listed, conns, x);
  }

  /** The registries are listed twice, once for the writes and once for the cleanup. Whatever the second
      listing returns, the event keeps what it has written exactly when that listing backs every written
      entry that counts as the identity's. */
  lemma SecondListingExact(
    r: TargetedReconciler, m: Entries, identity: Identity, listed: seq<Cluster>, again: seq<Cluster>,
    conns: Connections, fx: Effects)
    requires
      var es := IdentityEventEntries(r.env, identity, listed, conns);
      OrderlyFor(r.cfg, m, es) && Unambiguous(r.cfg, es) && Faithful(r.cfg, m, es)
    requires r.IdentityEventDoes(fx, m, identity, false, listed, again, conns, 0)
    ensures
      (forall e | e in fx.written :: InPlace(r.cfg, After(r.cfg, m, fx), e)) <==>
      (forall e | e in fx.written && BelongsToIdentity(e.hint, identity) :: Backed(identity, again, conns, e))
  {
    var m1 := WriteThenSweep(r, m, identity, listed, again, conns, fx);
    var es, m' := fx.written, After(r.cfg, m, fx);
    UpsertsLand(r.cfg, m, es, es, fx.luck);
    hide *;
    forall e | e in es
      ensures InPlace(r.cfg, m', e) <==> (BelongsToIdentity(e.hint, identity) ==> Backed(identity, again, conns, e))
    {
      UpToDateInPlace(r.cfg, m, m1, es, e);
      BackedInPlace(r.cfg, m1, identity, again, conns, e);
      InPlaceAfterSweep(r.cfg, m1, fx.gone, e);
    }
  }

  /** A second listing that fails is taken for an empty one: the event deletes what it has just written,
      and every other entry of the identity. */
  lemma FailedListingDeletesAll(
    r: TargetedReconciler, m: Entries, identity: Identity, listed: seq<Cluster>, conns: Connections, fx: Effects)
    requires r.IdentityEventDoes(fx, m, identity, false, listed, [], conns, 0)
    ensures forall id | id in After(r.cfg, m, fx) :: !BelongsToIdentity(After(r.cfg, m, fx)[id].hint, identity)
  {
  }

  // ----- in a frozen world

  /** The registries that the event lists are those behind the connections. */
  ghost predicate Settled(listed: seq<Cluster>, conns: Connections) {
    && (forall n | n in conns :: conns[n].cluster in listed && conns[n].cluster.spec.enabled)
    && (forall c | c in listed && c.name in conns :: conns[c.name].cluster == c)
  }

  /** As they are after the connection phase of a full pass with that listing. */
  lemma SettledAfterConnecting(specs: Registries, listed: seq<Cluster>, answers: seq<Answer>, conns: Connections)
    requires |answers| == |listed| && DistinctNames(listed)
    requires forall n :: n in conns <==> n in ConnectionPhase(specs, listed, answers)
    requires forall n | n in conns :: conns[n].cluster == ConnectionPhase(specs, listed, answers)[n]
    ensures Settled(listed, conns)
  {
    ConnectionPhaseExact(specs, listed, answers);
    forall c | c in listed && c.name in conns
      ensures conns[c.name].cluster == c
    {
      var i :| 0 <= i < |listed| && listed[i] == c;
    }
  }

  /** Identities and clusters have valid names, identities have different names and no hints of their own. */
  ghost predicate DefaultHinted(w: World) {
    && (forall i | i in w.identities :: i.hint == "" && ValidName(i.name))
    && (forall i, j | i in w.identities && j in w.identities && i.name == j.name :: i == j)
    && (forall v | v in w.views :: ValidName(v.cluster.name))
  }

  /** Hints do not claim entries of others for the identity. */
  ghost predicate NoForeign(cfg: Config, m: Entries, identity: Identity) {
    forall id | id in m && !(cfg.prefix <= id) :: !BelongsToIdentity(m[id].hint, identity)
  }

  /** The hint tells which identity an entry was rendered for. */
  lemma HintTellsIdentity(w: World, v: ConnView, i: Identity, p: Pod, e: Entry, identity: Identity)
    requires DefaultHinted(w) && Renders(w, v, i, p, e)
    requires identity.hint == "" && PassedName(identity.name)
    ensures BelongsToIdentity(e.hint, identity) <==> i.name == identity.name
  {
    RenderedHasPodSelector(w.env, i, v, p);
    TargetedRoundTrip(i.name, v.cluster.name, identity);
  }

  /** What the event writes, the full pass renders for the identity, and the other way round. */
  lemma IdentityEventWritesRendered(w: World, identity: Identity, listed: seq<Cluster>, conns: Connections, e: Entry)
    requires Agrees(w, conns) && Settled(listed, conns)
    requires identity in w.identities && !w.ignored(identity.namespace)
    ensures e in IdentityEventEntries(w.env, identity, listed, conns) <==> exists v, p :: Renders(w, v, identity, p, e)
  {
    IdentityEventEntryMembers(w.env, identity, listed, conns, e);
    hide IdentityEventEntries, RenderPod, Matches, Targets;
    if c, p :| EventRenders(w.env, identity, listed, conns, c, p, e) {
      assert ViewAs(conns, c) == conns[c.name];
      assert Renders(w, conns[c.name], identity, p, e);
    }
    if v, p :| Renders(w, v, identity, p, e) {
      assert ViewAs(conns, v.cluster) == v;
      assert EventRenders(w.env, identity, listed, conns, v.cluster, p, e);
    }
  }

  /** A server that holds the entries of the world has no orphans. */
  lemma NoOrphans(
    cfg: Config, w: World, m: Entries, identity: Identity, listed: seq<Cluster>, conns: Connections)
    requires Agrees(w, conns) && Settled(listed, conns) && DefaultHinted(w) && identity in w.identities
    requires Holds(cfg, m, AllEntries(w)) && NoForeign(cfg, m, identity)
    ensures Victims(m, OrphanOfIdentity(identity, UIDSet(ValidUIDs(identity, listed, conns)))) == {}
  {
    var uids := UIDSet(ValidUIDs(identity, listed, conns));
    hide Holds, HasValidPod, ValidUIDs, AllEntries, UIDSet, BelongsToIdentity;
    forall id | id in m
      ensures !(BelongsToIdentity(m[id].hint, identity) && !HasValidPod(m[id], uids))
    {
      if cfg.prefix <= id && BelongsToIdentity(m[id].hint, identity) {
        HeldHasPod(cfg, w, m, identity, listed, conns, id);
      }
    }
  }

  lemma HeldHasPod(
    cfg: Config, w: World, m: Entries, identity: Identity, listed: seq<Cluster>, conns: Connections, id: string)
    requires Agrees(w, conns) && Settled(listed, conns) && DefaultHinted(w) && identity in w.identities
    requires Holds(cfg, m, AllEntries(w)) && id in m && cfg.prefix <= id && BelongsToIdentity(m[id].hint, identity)
    ensures HasValidPod(m[id], UIDSet(ValidUIDs(identity, listed, conns)))
  {
    var e := HeldEntry(cfg, m, AllEntries(w), id);
    SyncedHasPod(cfg, w, m[id], e, identity, listed, conns);
  }

  /** What is in sync with an entry of the world and belongs to the identity has a live pod. */
  lemma SyncedHasPod(
    cfg: Config, w: World, x: Entry, e: Entry, identity: Identity, listed: seq<Cluster>, conns: Connections)
    requires Agrees(w, conns) && Settled(listed, conns) && DefaultHinted(w) && identity in w.identities
    requires e in AllEntries(w) && InSync(x, Address(cfg, e)) && BelongsToIdentity(x.hint, identity)
    ensures HasValidPod(x, UIDSet(ValidUIDs(identity, listed, conns)))
  {
    InSyncWithRendered(cfg, x, e);
    AllEntriesMembers(w, e);
    hide AllEntries, BelongsToIdentity, HasValidPod, ValidUIDs, Address;
    var v, i, p :| Renders(w, v, i, p, e);
    HintTellsIdentity(w, v, i, p, e, identity);
    assert i == identity;
    RenderedHasPodSelector(w.env, i, v, p);
    assert LivePodOf(identity, listed, conns, v.cluster, p);
    KeptIffLivePod(identity, listed, conns, x);
  }

  /** What a listing returns of the registries behind the connections is up to date; it may miss any of
      them, as one that failed does. */
  ghost predicate Current(listed: seq<Cluster>, conns: Connections) {
    forall c | c in listed && c.name in conns :: conns[c.name].cluster == c
  }

  /** Every entry that the full pass renders for the identity is backed by the listing. */
  ghost predicate AllBacked(w: World, identity: Identity, listed: seq<Cluster>, conns: Connections) {
    forall v, p, e | Renders(w, v, identity, p, e) :: Backed(identity, listed, conns, e)
  }

  lemma SettledBacks(w: World, identity: Identity, listed: seq<Cluster>, conns: Connections)
    requires Agrees(w, conns) && Settled(listed, conns)
    ensures AllBacked(w, identity, listed, conns)
  {
    forall v, p, e | Renders(w, v, identity, p, e)
      ensures Backed(identity, listed, conns, e)
    {
      RenderedHasPodSelector(w.env, identity, v, p);
      assert LivePodOf(identity, listed, conns, v.cluster, p);
    }
  }

  /** What the event writes, the full pass renders, also when the listing misses some clusters. */
  lemma WrittenIsRendered(w: World, identity: Identity, listed: seq<Cluster>, conns: Connections, e: Entry)
    requires Agrees(w, conns) && Current(listed, conns)
    requires identity in w.identities && !w.ignored(identity.namespace)
    requires e in IdentityEventEntries(w.env, identity, listed, conns)
    ensures e in AllEntries(w)
  {
    IdentityEventEntryMembers(w.env, identity, listed, conns, e);
    AllEntriesMembers(w, e);
    hide IdentityEventEntries, RenderPod, Matches, Targets, AllEntries;
    var c, p :| EventRenders(w.env, identity, listed, conns, c, p, e);
    assert ViewAs(conns, c) == conns[c.name];
    assert Renders(w, conns[c.name], identity, p, e);
  }

  /** On a server that holds the entries of the world, the orphans are the entries of the identity that
      the listing does not back. */
  lemma OrphanIffNotBacked(
    cfg: Config, w: World, m: Entries, identity: Identity, listed: seq<Cluster>, conns: Connections, id: string)
    requires DefaultHinted(w) && identity in w.identities
    requires Holds(cfg, m, AllEntries(w)) && NoForeign(cfg, m, identity) && id in m
    ensures id in Victims(m, OrphanOfIdentity(identity, UIDSet(ValidUIDs(identity, listed, conns)))) <==>
              exists v, p, e ::
                Renders(w, v, identity, p, e) && Address(cfg, e).id == id && !Backed(identity, listed, conns, e)
  {
    OrphanOfIdentityMeans(identity, UIDSet(ValidUIDs(identity, listed, conns)));
    if cfg.prefix <= id {
      var e := HeldEntry(cfg, m, AllEntries(w), id);
      BackedInPlace(cfg, m, identity, listed, conns, e);
      AllEntriesMembers(w, e);
      hide AllEntries, Holds, BelongsToIdentity, HasValidPod, ValidUIDs, Backed, Address, UIDSet, InSync;
      var v, i, p :| Renders(w, v, i, p, e);
      HintTellsIdentity(w, v, i, p, e, identity);
      forall v', p', e' | Renders(w, v', identity, p', e') && Address(cfg, e').id == id
        ensures BelongsToIdentity(m[id].hint, identity)
        ensures HasValidPod(m[id], UIDSet(ValidUIDs(identity, listed, conns))) <==> Backed(identity, listed, conns, e')
      {
        AllEntriesMembers(w, e');
        HeldInPlace(cfg, m, AllEntries(w), e');
        BackedInPlace(cfg, m, identity, listed, conns, e');
        HintTellsIdentity(w, v', identity, p', e', identity);
      }
    } else {
      forall e: Entry
        ensures Address(cfg, e).id != id
      {
        AddressAddressed(cfg, e);
      }
    }
  }

  /** An identity event in a frozen world, with any two listings of the registries. If the second one
      backs the entries of the identity, the event leaves a converged server as it is, whatever calls
      fail. Without faults the server stays converged only then. */
  lemma IdentityEventKeepsConverged(
    r: TargetedReconciler, w: World, m: Entries, identity: Identity, listed: seq<Cluster>, again: seq<Cluster>,
    conns: Connections, fx: Effects, faults: int)
    requires w.env == r.env && w.ignored == r.ignored && Agrees(w, conns) && Current(listed, conns)
    requires Converged(r.cfg, m, Declared(r.cfg, w)) && Unambiguous(r.cfg, AllEntries(w))
    requires DefaultHinted(w) && identity in w.identities && !w.ignored(identity.namespace)
    requires NoForeign(r.cfg, m, identity)
    requires r.IdentityEventDoes(fx, m, identity, false, listed, again, conns, faults)
    ensures AllBacked(w, identity, again, conns) ==> After(r.cfg, m, fx) == m
    ensures faults == 0 ==>
      (Converged(r.cfg, After(r.cfg, m, fx), Declared(r.cfg, w)) <==> AllBacked(w, identity, again, conns))
  {
    hide *;
    HoldsDeclared(r.cfg, m, w);
    OnlySweeps(r, w, m, identity, listed, again, conns, fx, faults);
    HoldsDeclared(r.cfg, After(r.cfg, m, fx), w);
    MinusNothing(m);
    if AllBacked(w, identity, again, conns) {
      NothingUnbacked(r.cfg, w, m, identity, again, conns);
    } else {
      UnbackedIsSwept(r.cfg, w, m, identity, again, conns);
    }
  }

  lemma NothingUnbacked(
    cfg: Config, w: World, m: Entries, identity: Identity, listed: seq<Cluster>, conns: Connections)
    requires DefaultHinted(w) && identity in w.identities
    requires Holds(cfg, m, AllEntries(w)) && NoForeign(cfg, m, identity) && AllBacked(w, identity, listed, conns)
    ensures Victims(m, OrphanOfIdentity(identity, UIDSet(ValidUIDs(identity, listed, conns)))) == {}
  {
    hide Renders, OrphanOfIdentity, UIDSet, ValidUIDs, AllEntries, Holds, Address, Backed, DefaultHinted, NoForeign;
    forall id | id in m
      ensures id !in Victims(m, OrphanOfIdentity(identity, UIDSet(ValidUIDs(identity, listed, conns))))
    {
      OrphanIffNotBacked(cfg, w, m, identity, listed, conns, id);
    }
  }

  lemma UnbackedIsSwept(
    cfg: Config, w: World, m: Entries, identity: Identity, listed: seq<Cluster>, conns: Connections)
    requires DefaultHinted(w) && identity in w.identities
    requires Holds(cfg, m, AllEntries(w)) && NoForeign(cfg, m, identity) && !AllBacked(w, identity, listed, conns)
    ensures
      var sweep := Victims(m, OrphanOfIdentity(identity, UIDSet(ValidUIDs(identity, listed, conns))));
      !Holds(cfg, m - sweep, AllEntries(w))
  {
    hide OrphanOfIdentity, UIDSet, ValidUIDs, AllEntries, Holds, Address, Backed, DefaultHinted, NoForeign, Victims;
    var sweep := Victims(m, OrphanOfIdentity(identity, UIDSet(ValidUIDs(identity, listed, conns))));
    var v, p, e :| Renders(w, v, identity, p, e) && !Backed(identity, listed, conns, e);
    AllEntriesMembers(w, e);
    HeldInPlace(cfg, m, AllEntries(w), e);
    OrphanIffNotBacked(cfg, w, m, identity, listed, conns, Address(cfg, e).id);
    GoneIsNotHeld(cfg, m - sweep, m, AllEntries(w), sweep, e);
  }

  /** On such a server the event writes nothing new. */
  lemma OnlySweeps(
    r: TargetedReconciler, w: World, m: Entries, identity: Identity, listed: seq<Cluster>, again: seq<Cluster>,
    conns: Connections, fx: Effects, faults: int)
    requires w.env == r.env && Agrees(w, conns) && Current(listed, conns)
    requires Holds(r.cfg, m, AllEntries(w)) && identity in w.identities && !w.ignored(identity.namespace)
    requires r.IdentityEventDoes(fx, m, identity, false, listed, again, conns, faults)
    ensures
      var sweep := Victims(m, OrphanOfIdentity(identity, UIDSet(ValidUIDs(identity, again, conns))));
      && |fx.luck| == |fx.written| && After(r.cfg, m, fx) == m - fx.gone
      && (forall id | id in sweep :: id in m) && fx.gone <= sweep && (faults == 0 ==> fx.gone == sweep)
  {
    hide OrphanOfIdentity, UIDSet, ValidUIDs, IdentityEventEntries, AllEntries;
    forall e | e in fx.written
      ensures InPlace(r.cfg, m, e)
    {
      WrittenIsRendered(w, identity, listed, conns, e);
    }
    UpsertsInPlace(r.cfg, m, fx.written, fx.luck);
  }

  /** `w'` is `w` with one more identity. */
  ghost predicate AddsIdentity(w: World, w': World, identity: Identity) {
    && w'.env == w.env && w'.views == w.views && w'.ignored == w.ignored
    && (forall i :: i in w'.identities <==> i in w.identities || i == identity)
    && (forall i | i in w.identities :: i.name != identity.name)
  }

  /** The additional identity adds exactly what is rendered for it. */
  lemma AddedByIdentity(w: World, w': World, identity: Identity, e: Entry)
    requires AddsIdentity(w, w', identity)
    ensures e in AllEntries(w') <==> e in AllEntries(w) || exists v, p :: Renders(w', v, identity, p, e)
  {
    AllEntriesMembers(w, e);
    AllEntriesMembers(w', e);
    hide RenderPod, Matches, Targets, AllEntries;
    if v, i, p :| Renders(w', v, i, p, e) {
      if i != identity {
        assert Renders(w, v, i, p, e);
      }
    }
    if v, i, p :| Renders(w, v, i, p, e) {
      assert Renders(w', v, i, p, e);
    }
  }

  /** Without faults, the event of a new identity takes a server from what a full pass declares without
      the identity to what it declares with it. */
  lemma IdentityAddedConverges(
    r: TargetedReconciler, w: World, w': World, m: Entries, identity: Identity, listed: seq<Cluster>,
    conns: Connections, fx: Effects)
    requires AddsIdentity(w, w', identity) && w'.env == r.env && w'.ignored == r.ignored
    requires Agrees(w', conns) && Settled(listed, conns)
    requires Converged(r.cfg, m, Declared(r.cfg, w)) && Unambiguous(r.cfg, AllEntries(w'))
    requires OrderlyFor(r.cfg, m, AllEntries(w')) && NoForeign(r.cfg, m, identity)
    requires DefaultHinted(w') && !w'.ignored(identity.namespace)
    requires r.IdentityEventDoes(fx, m, identity, false, listed, listed, conns, 0)
    ensures Converged(r.cfg, After(r.cfg, m, fx), Declared(r.cfg, w'))
  {
    var es, all := AllEntries(w), AllEntries(w');
    var m1 := Upserts(r.cfg, m, fx.written, fx.luck);
    NoMisses(fx.luck);
    assert fx.written == IdentityEventEntries(r.env, identity, listed, conns) && AllFine(fx.luck);
    assert fx.gone <= Victims(m1, OrphanOfIdentity(identity, UIDSet(ValidUIDs(identity, listed, conns))));
    forall e
      ensures e in all <==> e in es || e in fx.written
    {
      AddedByIdentity(w, w', identity, e);
      IdentityEventWritesRendered(w', identity, listed, conns, e);
    }
    hide *;
    FewerIsUnambiguous(r.cfg, es, all);
    HoldsDeclared(r.cfg, m, w);
    WritingMore(r.cfg, m, es, fx.written, all, fx.luck);
    WritingKeepsForeign(r.cfg, m, fx.written, all, fx.luck, identity);
    HasIdentity(w, w', identity);
    NoOrphans(r.cfg, w', m1, identity, listed, conns);
    NothingGoneAfter(r.cfg, m, fx);
    HoldsDeclared(r.cfg, m1, w');
  }

  lemma HasIdentity(w: World, w': World, identity: Identity)
    requires AddsIdentity(w, w', identity)
    ensures identity in w'.identities
  {
  }

  /** Written entries are managed, so unmanaged ones stay as they are. */
  lemma WritingKeepsForeign(
    cfg: Config, m: Entries, es: seq<Entry>, all: seq<Entry>, luck: seq<Luck>, identity: Identity)
    requires NoForeign(cfg, m, identity) && OrderlyFor(cfg, m, all) && Unambiguous(cfg, all)
    requires (forall e | e in es :: e in all) && |luck| == |es| && AllFine(luck)
    ensures NoForeign(cfg, Upserts(cfg, m, es, luck), identity)
  {
    var m' := Upserts(cfg, m, es, luck);
    UpsertsLand(cfg, m, all, es, luck);
    hide Upserts, OrderlyFor, Unambiguous, BelongsToIdentity;
    forall id | id in m' && !(cfg.prefix <= id)
      ensures !BelongsToIdentity(m'[id].hint, identity)
    {
      forall e | e in es
        ensures Address(cfg, e).id != id
      {
        AddressAddressed(cfg, e);
      }
      assert At(m', id) == At(m, id);
    }
  }

  /** And a deletion event for the identity itself would take it back. */
  lemma IdentityDeletedConverges(
    r: TargetedReconciler, w: World, w': World, m: Entries, identity: Identity, listed: seq<Cluster>,
    conns: Connections, fx: Effects)
    requires AddsIdentity(w, w', identity) && w'.env == r.env && w'.ignored == r.ignored && DefaultHinted(w')
    requires Converged(r.cfg, m, Declared(r.cfg, w')) && Unambiguous(r.cfg, AllEntries(w'))
    requires r.IdentityEventDoes(fx, m, identity, true, listed, listed, conns, 0)
    ensures Converged(r.cfg, After(r.cfg, m, fx), Declared(r.cfg, w))
  {
    var es, rest := AllEntries(w'), AllEntries(w);
    HoldsDeclared(r.cfg, m, w');
    IdentityDeletionSweeps(r, m, identity, listed, conns, fx);
    forall e
      ensures e in rest ==> e in es
      ensures e in es ==> (Address(r.cfg, e).id in fx.gone <==> e !in rest)
    {
      SweptIffAdded(r.cfg, w, w', m, identity, e);
    }
    hide *;
    SweepingRest(r.cfg, m, es, rest, fx.gone);
    FewerIsUnambiguous(r.cfg, rest, es);
    HoldsDeclared(r.cfg, m - fx.gone, w);
  }

  /** An identity without a name has no default-hinted entries. */
  lemma NoneOfNameless(cfg: Config, w: World, m: Entries, nameless: Identity, id: string)
    requires Holds(cfg, m, AllEntries(w)) && DefaultHinted(w) && NoForeign(cfg, m, nameless) && id in m
    requires nameless.name == "" && nameless.hint == ""
    ensures !BelongsToIdentity(m[id].hint, nameless)
  {
    if cfg.prefix <= id {
      var e := HeldEntry(cfg, m, AllEntries(w), id);
      InSyncWithRendered(cfg, m[id], e);
      AllEntriesMembers(w, e);
      hide AllEntries, BelongsToIdentity;
      var v, i, p :| Renders(w, v, i, p, e);
      HintTellsIdentity(w, v, i, p, e, nameless);
    }
  }

  /** The deletion event that the controller sends is that of a nameless identity, because the deleted one
      cannot be fetched any more. It deletes nothing, whatever fails: the server reaches the state declared
      without the deleted identity exactly when no entry is rendered for it. */
  lemma NamelessDeletionLeavesEntries(
    r: TargetedReconciler, w: World, w': World, m: Entries, identity: Identity, nameless: Identity,
    listed: seq<Cluster>, again: seq<Cluster>, conns: Connections, fx: Effects, faults: int)
    requires AddsIdentity(w, w', identity) && DefaultHinted(w')
    requires nameless.name == "" && nameless.hint == "" && NoForeign(r.cfg, m, nameless)
    requires Converged(r.cfg, m, Declared(r.cfg, w')) && Unambiguous(r.cfg, AllEntries(w'))
    requires r.IdentityEventDoes(fx, m, nameless, true, listed, again, conns, faults)
    ensures After(r.cfg, m, fx) == m
    ensures Converged(r.cfg, After(r.cfg, m, fx), Declared(r.cfg, w)) <==>
            !exists v, p, e :: Renders(w', v, identity, p, e)
  {
    var es, rest := AllEntries(w'), AllEntries(w);
    HoldsDeclared(r.cfg, m, w');
    NothingNameless(r, w', m, nameless, listed, again, conns, fx, faults);
    hide *;
    forall e | e in rest
      ensures e in es
    {
      AddedByIdentity(w, w', identity, e);
    }
    FewerIsUnambiguous(r.cfg, rest, es);
    HoldsDeclared(r.cfg, m, w);
    HoldsBoth(r.cfg, m, es, rest);
    IdentityContributesNothing(w, w', identity);
  }

  lemma NothingNameless(
    r: TargetedReconciler, w: World, m: Entries, nameless: Identity, listed: seq<Cluster>, again: seq<Cluster>,
    conns: Connections, fx: Effects, faults: int)
    requires Holds(r.cfg, m, AllEntries(w)) && DefaultHinted(w) && NoForeign(r.cfg, m, nameless)
    requires nameless.name == "" && nameless.hint == ""
    requires r.IdentityEventDoes(fx, m, nameless, true, listed, again, conns, faults)
    ensures |fx.luck| == |fx.written| && After(r.cfg, m, fx) == m
  {
    hide BelongsToIdentity, AllEntries, Holds, DefaultHinted, NoForeign;
    forall id | id in m
      ensures !BelongsToIdentity(m[id].hint, nameless)
    {
      NoneOfNameless(r.cfg, w, m, nameless, id);
    }
    assert fx.gone == {};
  }

  /** The hint of an entry tells for which identity it was rendered. */
  lemma RenderedForOneIdentity(
    w: World, v: ConnView, i: Identity, p: Pod, v': ConnView, i': Identity, p': Pod, e: Entry)
    requires DefaultHinted(w) && Renders(w, v, i, p, e) && Renders(w, v', i', p', e)
    ensures i == i'
  {
    hide BelongsToIdentity;
    HintTellsIdentity(w, v, i, p, e, i);
    HintTellsIdentity(w, v', i', p', e, i);
  }

  /** The world without the identity declares everything exactly when the identity contributes nothing. */
  lemma IdentityContributesNothing(w: World, w': World, identity: Identity)
    requires AddsIdentity(w, w', identity) && DefaultHinted(w')
    ensures (forall e | e in AllEntries(w') :: e in AllEntries(w)) <==>
            !exists v, p, e :: Renders(w', v, identity, p, e)
  {
    hide AllEntries, RenderPod, Matches, Targets, DefaultHinted;
    if forall e | e in AllEntries(w') :: e in AllEntries(w) {
      forall v, p, e
        ensures !Renders(w', v, identity, p, e)
      {
        AddedByIdentity(w, w', identity, e);
        AllEntriesMembers(w, e);
        if Renders(w', v, identity, p, e) {
          var v', i', p' :| Renders(w, v', i', p', e);
          assert Renders(w', v', i', p', e);
          RenderedForOneIdentity(w', v, identity, p, v', i', p', e);
        }
      }
    }
    if !exists v, p, e :: Renders(w', v, identity, p, e) {
      forall e | e in AllEntries(w')
        ensures e in AllEntries(w)
      {
        AddedByIdentity(w, w', identity, e);
      }
    }
  }

  lemma IdentityDeletionSweeps(
    r: TargetedReconciler, m: Entries, identity: Identity, listed: seq<Cluster>, conns: Connections, fx: Effects)
    requires r.IdentityEventDoes(fx, m, identity, true, listed, listed, conns, 0)
    ensures |fx.luck| == |fx.written| && After(r.cfg, m, fx) == m - fx.gone
    ensures fx.gone == Victims(m, OfIdentity(identity))
  {
  }

  lemma SweptIffAdded(cfg: Config, w: World, w': World, m: Entries, identity: Identity, e: Entry)
    requires AddsIdentity(w, w', identity) && DefaultHinted(w') && Holds(cfg, m, AllEntries(w'))
    ensures e in AllEntries(w) ==> e in AllEntries(w')
    ensures e in AllEntries(w') ==> (Address(cfg, e).id in Victims(m, OfIdentity(identity)) <==> e !in AllEntries(w))
  {
    var id := Address(cfg, e).id;
    AddedByIdentity(w, w', identity, e);
    AllEntriesMembers(w, e);
    hide AllEntries, RenderPod, Address, BelongsToIdentity;
    if e in AllEntries(w') {
      assert InPlace(cfg, m, e);
      InSyncWithRendered(cfg, m[id], e);
      if e in AllEntries(w) {
        var v, i, p :| Renders(w, v, i, p, e);
        assert Renders(w', v, i, p, e);
        HintTellsIdentity(w', v, i, p, e, identity);
      } else {
        var v, p :| Renders(w', v, identity, p, e);
        HintTellsIdentity(w', v, identity, p, e, identity);
      }
    }
  }

  /** On a converged server no managed entry belongs to an identity of an ignored namespace. */
  lemma NoneOfIgnored(cfg: Config, w: World, m: Entries, identity: Identity, id: string)
    requires Converged(cfg, m, Declared(cfg, w)) && id in m && cfg.prefix <= id
    requires DefaultHinted(w) && identity in w.identities && w.ignored(identity.namespace)
    ensures !BelongsToIdentity(m[id].hint, identity)
  {
    DeclareMembers(cfg, AllEntries(w));
    assert SyncedAt(m, Declared(cfg, w), id);
    var e :| e in AllEntries(w) && Declared(cfg, w)[id] == Address(cfg, e);
    AllEntriesMembers(w, e);
    hide AllEntries, BelongsToIdentity;
    InSyncWithRendered(cfg, m[id], e);
    var v, i, p :| Renders(w, v, i, p, e);
    HintTellsIdentity(w, v, i, p, e, identity);
  }

  lemma WrittenBelongs(
    env: Env, w: World, identity: Identity, listed: seq<Cluster>, conns: Connections, c: Cluster, p: Pod, e: Entry)
    requires Agrees(w, conns) && Settled(listed, conns) && DefaultHinted(w) && identity in w.identities
    requires EventRenders(env, identity, listed, conns, c, p, e)
    ensures BelongsToIdentity(e.hint, identity)
  {
    RenderedHasPodSelector(env, identity, ViewAs(conns, c), p);
    TargetedRoundTrip(identity.name, c.name, identity);
  }

  /** The identity event does not look at the ignored namespaces: for an identity in one of them, a
      converged server stays converged exactly when the event has nothing to write. */
  lemma IgnoredNamespace(
    r: TargetedReconciler, w: World, m: Entries, identity: Identity, listed: seq<Cluster>, conns: Connections,
    fx: Effects)
    requires w.env == r.env && Agrees(w, conns) && Settled(listed, conns)
    requires Converged(r.cfg, m, Declared(r.cfg, w))
    requires DefaultHinted(w) && identity in w.identities && w.ignored(identity.namespace)
    requires
      var es := IdentityEventEntries(r.env, identity, listed, conns);
      OrderlyFor(r.cfg, m, es) && Unambiguous(r.cfg, es) && Faithful(r.cfg, m, es)
    requires r.IdentityEventDoes(fx, m, identity, false, listed, listed, conns, 0)
    ensures Converged(r.cfg, After(r.cfg, m, fx), Declared(r.cfg, w)) <==>
            IdentityEventEntries(r.env, identity, listed, conns) == []
  {
    var m', es := After(r.cfg, m, fx), IdentityEventEntries(r.env, identity, listed, conns);
    IdentityEventAchieves(r, m, identity, listed, conns, fx);
    assert fx.written == es;
    hide Declared, BelongsToIdentity, IdentityEventEntries, OrderlyFor, Faithful, Unambiguous, Address;
    if es != [] {
      var e := es[0];
      IdentityEventEntryMembers(r.env, identity, listed, conns, e);
      var c, p :| EventRenders(r.env, identity, listed, conns, c, p, e);
      WrittenBelongs(r.env, w, identity, listed, conns, c, p, e);
      var id := Address(r.cfg, e).id;
      InSyncWithRendered(r.cfg, m'[id], e);
      AddressAddressed(r.cfg, e);
      if Converged(r.cfg, m', Declared(r.cfg, w)) {
        NoneOfIgnored(r.cfg, w, m', identity, id);
      }
    } else {
      forall id | r.cfg.prefix <= id
        ensures SyncedAt(m', Declared(r.cfg, w), id)
      {
        if id in m {
          NoneOfIgnored(r.cfg, w, m, identity, id);
        }
        assert !IsIDOf(r.cfg, fx.written, id);
        assert At(m', id) == At(m, id);
        assert SyncedAt(m, Declared(r.cfg, w), id);
      }
    }
  }
}
