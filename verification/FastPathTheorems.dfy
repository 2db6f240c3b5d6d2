// The fast path against the full pass: what an event does to a server on which a
// full pass has converged, and what an identity event achieves on any server.
module FastPathTheorems {
  import opened Wrappers
  import opened Sequences
  import opened SpireApi
  import opened EntryKey
  import opened Store
  import opened State
  import opened Convergence
  import opened Rendering
  import opened ClusterManager
  import opened Declaration
  import opened FastPath
  import opened WorldTheorems

  // ----- writing entries

  /** Managed entries have the IDs of their content and nothing else resembles the entries `es`. */
  ghost predicate OrderlyFor(cfg: Config, m: Entries, es: seq<Entry>) {
    && Keyed(m)
    && (forall id | id in m && cfg.prefix <= id :: Addressed(cfg, m[id]))
    && (forall id, e | id in m && !(cfg.prefix <= id) && e in es :: !Similar(m[id], e))
  }

  lemma AddressSimilar(cfg: Config, e: Entry)
    ensures Similar(Address(cfg, e), e) && SameAttributes(Address(cfg, e), e)
  {
  }

  /** On an orderly server a create is refused only if its own ID is taken. */
  lemma OrderlyCreates(cfg: Config, m: Entries, es: seq<Entry>, e: Entry)
    requires OrderlyFor(cfg, m, es) && e in es && Address(cfg, e).id !in m
    ensures !Blocked(m, Address(cfg, e))
  {
    AddressSimilar(cfg, e);
    AddressAddressed(cfg, e);
    forall id | id in m && Similar(m[id], Address(cfg, e))
      ensures id == Address(cfg, e).id
    {
      SimilarSameKey(cfg.hash, m[id], Address(cfg, e));
    }
  }

  /** What is stored under the ID of `e` is `e`, or was there before and has its attributes. */
  predicate UpToDate(cfg: Config, m: Entries, m': Entries, e: Entry) {
    var a := Address(cfg, e);
    a.id in m' && (m'[a.id] == a || (At(m, a.id) == Some(m'[a.id]) && SameAttributes(a, m'[a.id])))
  }

  /** The entry under the ID of `e` was left alone or written. */
  predicate LeftOrWritten(cfg: Config, m: Entries, m': Entries, e: Entry) {
    var a := Address(cfg, e);
    At(m', a.id) == At(m, a.id) || At(m', a.id) == Some(a)
  }

  /** One write: if nothing failed the entry is up to date, and every other entry is left alone. */
  lemma UpsertLands(cfg: Config, m: Entries, es: seq<Entry>, e: Entry, luck: Luck)
    requires OrderlyFor(cfg, m, es) && e in es
    ensures
      var m' := Upsert(m, Address(cfg, e), luck);
      && LeftOrWritten(cfg, m, m', e)
      && (luck == FINE ==> UpToDate(cfg, m, m', e))
      && (forall id | id != Address(cfg, e).id :: At(m', id) == At(m, id))
      && OrderlyFor(cfg, m', es)
  {
    var a := Address(cfg, e);
    AddressAddressed(cfg, e);
    if a.id !in m {
      OrderlyCreates(cfg, m, es, e);
    }
    UpsertCases(m, a, luck);
    WrittenStaysOrderly(cfg, m, es, a);
    hide Upsert, Address, SameAttributes, Blocked, OrderlyFor;
  }

  lemma WrittenStaysOrderly(cfg: Config, m: Entries, es: seq<Entry>, a: Entry)
    requires OrderlyFor(cfg, m, es) && Addressed(cfg, a)
    ensures OrderlyFor(cfg, m[a.id := a], es)
  {
  }

  /** What a write can make of the server. */
  lemma UpsertCases(m: Entries, a: Entry, luck: Luck)
    ensures Upsert(m, a, luck) == m || Upsert(m, a, luck) == m[a.id := a]
    ensures luck == FINE && a.id !in m && !Blocked(m, a) ==> Upsert(m, a, luck) == m[a.id := a]
    ensures luck == FINE && a.id in m ==> Upsert(m, a, luck) == if SameAttributes(a, m[a.id]) then m else m[a.id := a]
  {
  }

  /** The last write, after those before it. */
  lemma LandsOnce(
    cfg: Config, m: Entries, m1: Entries, m': Entries, all: seq<Entry>, es: seq<Entry>, e: Entry, luck: Luck)
    requires es != [] && e in es && (forall x | x in es :: x in all) && Unambiguous(cfg, all)
    requires forall x | x in es[..|es| - 1] :: LeftOrWritten(cfg, m, m1, x)
    requires forall id | !IsIDOf(cfg, es[..|es| - 1], id) :: At(m1, id) == At(m, id)
    requires LeftOrWritten(cfg, m1, m', es[|es| - 1])
    requires luck == FINE ==> UpToDate(cfg, m1, m', es[|es| - 1])
    requires forall id | id != Address(cfg, es[|es| - 1]).id :: At(m', id) == At(m1, id)
    ensures LeftOrWritten(cfg, m, m', e)
    ensures luck == FINE && e == es[|es| - 1] ==> UpToDate(cfg, m, m', e)
    ensures UpToDate(cfg, m, m1, e) ==> UpToDate(cfg, m, m', e)
  {
    hide Address, SameAttributes;
    var init, last := es[..|es| - 1], es[|es| - 1];
    var id := Address(cfg, e).id;
    if id == Address(cfg, last).id {
      assert last in es && e == last;
      if IsIDOf(cfg, init, id) {
        var x :| x in init && Address(cfg, x).id == id;
        assert x in es && x in all && e in all;
        assert LeftOrWritten(cfg, m, m1, x);
      } else {
        assert At(m1, id) == At(m, id);
      }
    } else {
      assert e in init && LeftOrWritten(cfg, m, m1, e);
      assert At(m', id) == At(m1, id);
    }
  }

  /** What writing `es` made of `m`, entry by entry: those for which nothing failed are up to date, the others
      are left alone or written as well, and nothing else changed. */
  ghost predicate Landed(cfg: Config, m: Entries, m': Entries, es: seq<Entry>, luck: seq<Luck>) {
    && |luck| == |es|
    && (forall i | 0 <= i < |es| && luck[i] == FINE :: UpToDate(cfg, m, m', es[i]))
    && (forall e | e in es :: LeftOrWritten(cfg, m, m', e))
    && (forall id | !IsIDOf(cfg, es, id) :: At(m', id) == At(m, id))
  }

  lemma LandedNext(
    cfg: Config, m: Entries, m1: Entries, m': Entries, all: seq<Entry>, es: seq<Entry>, luck: seq<Luck>, n: nat)
    requires n + 1 == |es| == |luck| && Unambiguous(cfg, all) && forall e | e in es :: e in all
    requires Landed(cfg, m, m1, es[..n], luck[..n])
    requires LeftOrWritten(cfg, m1, m', es[n]) && (luck[n] == FINE ==> UpToDate(cfg, m1, m', es[n]))
    requires forall id | id != Address(cfg, es[n]).id :: At(m', id) == At(m1, id)
    ensures Landed(cfg, m, m', es, luck)
  {
    hide Address, Unambiguous, UpToDate, LeftOrWritten;
    forall e | e in es
      ensures LeftOrWritten(cfg, m, m', e)
      ensures UpToDate(cfg, m, m1, e) || (luck[n] == FINE && e == es[n]) ==> UpToDate(cfg, m, m', e)
    {
      LandsOnce(cfg, m, m1, m', all, es, e, luck[n]);
    }
    forall i | 0 <= i < |es| && luck[i] == FINE
      ensures UpToDate(cfg, m, m', es[i])
    {
      assert es[i] in es && (i < n ==> es[i] == es[..n][i] && luck[i] == luck[..n][i]);
    }
    forall id | !IsIDOf(cfg, es, id)
      ensures At(m', id) == At(m, id)
    {
      assert es[n] in es && !IsIDOf(cfg, es[..n], id);
    }
  }

  /** Writing entries, whatever fails: a failure concerns its own entry only. */
  lemma {:induction false} FailuresStayApart(
    cfg: Config, m: Entries, all: seq<Entry>, es: seq<Entry>, luck: seq<Luck>)
    requires OrderlyFor(cfg, m, all) && Unambiguous(cfg, all) && (forall e | e in es :: e in all)
    requires |luck| == |es|
    ensures Landed(cfg, m, Upserts(cfg, m, es, luck), es, luck) && OrderlyFor(cfg, Upserts(cfg, m, es, luck), all)
  {
    if es != [] {
      var n := |es| - 1;
      var m1, m' := Upserts(cfg, m, es[..n], luck[..n]), Upserts(cfg, m, es, luck);
      assert m' == Upsert(m1, Address(cfg, es[n]), luck[n]);
      hide Upsert, Address, OrderlyFor, Unambiguous, UpToDate, LeftOrWritten, Upserts, Landed;
      assert es[n] in es && forall e | e in es[..n] :: e in es;
      FailuresStayApart(cfg, m, all, es[..n], luck[..n]);
      UpsertLands(cfg, m1, all, es[n], luck[n]);
      LandedNext(cfg, m, m1, m', all, es, luck, n);
    }
  }

  /** The entries for which something failed. */
  function Struck(es: seq<Entry>, luck: seq<Luck>): set<Entry>
    requires |luck| == |es|
  {
    if es == [] then {}
    else
      var n := |es| - 1;
      Struck(es[..n], luck[..n]) + if luck[n] == FINE then {} else {es[n]}
  }

  lemma {:induction false} StruckAtMostMisses(es: seq<Entry>, luck: seq<Luck>)
    requires |luck| == |es|
    ensures |Struck(es, luck)| <= Misses(luck)
    ensures forall i | 0 <= i < |es| && luck[i] != FINE :: es[i] in Struck(es, luck)
  {
    if es != [] {
      var n := |es| - 1;
      StruckAtMostMisses(es[..n], luck[..n]);
      MissedNothing(luck[n]);
      forall i | 0 <= i < n && luck[i] != FINE
        ensures es[i] in Struck(es, luck)
      {
        assert es[..n][i] == es[i] && luck[..n][i] == luck[i];
      }
    }
  }

  /** Faults cost no more entries than there are faults. */
  lemma FaultsCostAtMost(
    cfg: Config, m: Entries, m': Entries, all: seq<Entry>, es: seq<Entry>, luck: seq<Luck>, faults: int,
    stale: set<Entry>)
    requires OrderlyFor(cfg, m, all) && Unambiguous(cfg, all) && (forall e | e in es :: e in all)
    requires Wrote(cfg, m, m', es, luck, faults)
    requires forall e | e in stale :: e in es && !UpToDate(cfg, m, m', e)
    ensures |stale| <= faults
  {
    FailuresStayApart(cfg, m, all, es, luck);
    StruckAtMostMisses(es, luck);
    hide Upserts, UpToDate, LeftOrWritten, OrderlyFor, Struck, Misses;
    forall e | e in stale
      ensures e in Struck(es, luck)
    {
      var i :| 0 <= i < |es| && es[i] == e;
    }
    SubsetSmaller(stale, Struck(es, luck));
  }

  /** Writing entries without a fault: each is up to date afterwards, and nothing else changes. */
  lemma UpsertsLand(cfg: Config, m: Entries, all: seq<Entry>, es: seq<Entry>, luck: seq<Luck>)
    requires OrderlyFor(cfg, m, all) && Unambiguous(cfg, all) && (forall e | e in es :: e in all)
    requires |luck| == |es| && AllFine(luck)
    ensures
      var m' := Upserts(cfg, m, es, luck);
      && OrderlyFor(cfg, m', all)
      && (forall e | e in es :: UpToDate(cfg, m, m', e))
      && (forall id | !IsIDOf(cfg, es, id) :: At(m', id) == At(m, id))
  {
    FailuresStayApart(cfg, m, all, es, luck);
    hide UpToDate, Upserts, OrderlyFor, Unambiguous;
    forall e | e in es
      ensures UpToDate(cfg, m, Upserts(cfg, m, es, luck), e)
    {
      var i :| 0 <= i < |es| && es[i] == e;
      assert luck[i] in luck;
    }
  }

  /** Nothing is written for entries that are in place already, whatever fails. */
  lemma {:induction false} UpsertsInPlace(cfg: Config, m: Entries, es: seq<Entry>, luck: seq<Luck>)
    requires |luck| == |es| && forall e | e in es :: InPlace(cfg, m, e)
    ensures Upserts(cfg, m, es, luck) == m
  {
    if es != [] {
      var n := |es| - 1;
      UpsertsInPlace(cfg, m, es[..n], luck[..n]);
      assert es[n] in es;
    }
  }

  /** Writing `more` without a fault on a server that holds `es` makes it hold both. */
  lemma WritingMore(cfg: Config, m: Entries, es: seq<Entry>, more: seq<Entry>, all: seq<Entry>, luck: seq<Luck>)
    requires Holds(cfg, m, es) && OrderlyFor(cfg, m, all) && Unambiguous(cfg, all)
    requires forall e :: e in all <==> e in es || e in more
    requires |luck| == |more| && AllFine(luck)
    ensures Holds(cfg, Upserts(cfg, m, more, luck), all)
  {
    var m' := Upserts(cfg, m, more, luck);
    UpsertsLand(cfg, m, all, more, luck);
    hide Upserts, Address, Similar, SameAttributes, OrderlyFor;
    forall e | e in all
      ensures InPlace(cfg, m', e)
    {
      PlacedAfterWriting(cfg, m, m', es, more, all, e);
    }
    forall id | id in m' && cfg.prefix <= id
      ensures IsIDOf(cfg, all, id)
    {
      if !IsIDOf(cfg, more, id) {
        assert At(m', id) == At(m, id);
        assert IsIDOf(cfg, es, id);
      }
    }
  }

  lemma PlacedAfterWriting(
    cfg: Config, m: Entries, m': Entries, es: seq<Entry>, more: seq<Entry>, all: seq<Entry>, e: Entry)
    requires Holds(cfg, m, es) && Unambiguous(cfg, all)
    requires forall x :: x in all <==> x in es || x in more
    requires forall x | x in more :: UpToDate(cfg, m, m', x)
    requires forall id | !IsIDOf(cfg, more, id) :: At(m', id) == At(m, id)
    requires e in all
    ensures InPlace(cfg, m', e)
  {
    var id := Address(cfg, e).id;
    AddressAddressed(cfg, e);
    assert InSync(Address(cfg, e), Address(cfg, e));
    hide Address, Similar, SameAttributes;
    if id in m {
      var x := HeldEntry(cfg, m, es, id);
      assert x == e;
    }
    assert e in es ==> InPlace(cfg, m, e);
    if IsIDOf(cfg, more, id) {
      var x :| x in more && Address(cfg, x).id == id;
      assert x == e;
      assert UpToDate(cfg, m, m', e);
    } else {
      assert At(m', id) == At(m, id);
    }
  }

  /** On `m`, the key of a content decides it: no entry has the key of one of `es` without being similar. */
  ghost predicate Faithful(cfg: Config, m: Entries, es: seq<Entry>) {
    forall id, e | id in m && e in es && id == Address(cfg, e).id :: Similar(m[id], e)
  }

  lemma UpToDateInPlace(cfg: Config, m: Entries, m': Entries, es: seq<Entry>, e: Entry)
    requires Faithful(cfg, m, es) && e in es && UpToDate(cfg, m, m', e)
    ensures InPlace(cfg, m', e)
  {
  }

  /** Writing `more` on a server that holds `es`, of which only `rest` is still wanted: everything wanted is
      in place afterwards, and nothing else is left exactly when each ID of `es` is still wanted. */
  lemma WritingOver(
    cfg: Config, m: Entries, es: seq<Entry>, rest: seq<Entry>, more: seq<Entry>, all: seq<Entry>, luck: seq<Luck>)
    requires Holds(cfg, m, es) && OrderlyFor(cfg, m, all) && Unambiguous(cfg, all) && Faithful(cfg, m, more)
    requires forall e :: e in all <==> e in rest || e in more
    requires forall e | e in rest :: e in es
    requires |luck| == |more| && AllFine(luck)
    ensures Holds(cfg, Upserts(cfg, m, more, luck), all) <==>
            forall e | e in es :: IsIDOf(cfg, all, Address(cfg, e).id)
  {
    hide Upserts, OrderlyFor, Address, Faithful, InSync, UpToDate, Unambiguous, AllFine;
    var m' := Upserts(cfg, m, more, luck);
    UpsertsLand(cfg, m, all, more, luck);
    forall e | e in all
      ensures InPlace(cfg, m', e)
    {
      WantedInPlace(cfg, m, m', es, rest, more, all, e);
    }
    forall e | e in es
      ensures var id := Address(cfg, e).id; cfg.prefix <= id && (id in m' || IsIDOf(cfg, all, id))
    {
      AddressAddressed(cfg, e);
      assert InPlace(cfg, m, e);
      StillThere(cfg, m, m', more, all, Address(cfg, e).id);
    }
    if forall e | e in es :: IsIDOf(cfg, all, Address(cfg, e).id) {
      forall id | id in m' && cfg.prefix <= id
        ensures IsIDOf(cfg, all, id)
      {
        StillThere(cfg, m, m', more, all, id);
        if !IsIDOf(cfg, all, id) {
          var e := HeldEntry(cfg, m, es, id);
        }
      }
    }
  }

  lemma WantedInPlace(
    cfg: Config, m: Entries, m': Entries, es: seq<Entry>, rest: seq<Entry>, more: seq<Entry>, all: seq<Entry>, e: Entry)
    requires Holds(cfg, m, es) && Unambiguous(cfg, all) && Faithful(cfg, m, more)
    requires (forall x :: x in all <==> x in rest || x in more) && forall x | x in rest :: x in es
    requires forall x | x in more :: UpToDate(cfg, m, m', x)
    requires forall id | !IsIDOf(cfg, more, id) :: At(m', id) == At(m, id)
    requires e in all
    ensures InPlace(cfg, m', e)
  {
    hide Address, Faithful, InSync, UpToDate;
    var id := Address(cfg, e).id;
    if IsIDOf(cfg, more, id) {
      var x :| x in more && Address(cfg, x).id == id;
      assert x == e;
      UpToDateInPlace(cfg, m, m', more, e);
    } else {
      assert InPlace(cfg, m, e);
      assert At(m', id) == At(m, id);
    }
  }

  lemma StillThere(cfg: Config, m: Entries, m': Entries, more: seq<Entry>, all: seq<Entry>, id: string)
    requires forall x | x in more :: x in all
    requires forall id | !IsIDOf(cfg, more, id) :: At(m', id) == At(m, id)
    ensures IsIDOf(cfg, all, id) || (id in m' <==> id in m)
  {
    if !IsIDOf(cfg, more, id) {
      assert At(m', id) == At(m, id);
    }
  }

  /** Sweeping exactly the entries that are no longer wanted leaves the wanted ones. */
  lemma SweepingRest(cfg: Config, m: Entries, es: seq<Entry>, rest: seq<Entry>, gone: set<string>)
    requires Holds(cfg, m, es) && Unambiguous(cfg, es)
    requires forall e | e in rest :: e in es
    requires forall e | e in es :: Address(cfg, e).id in gone <==> e !in rest
    ensures Holds(cfg, m - gone, rest)
  {
  }

  // ----- pod events in a frozen world

  /** The connections of a world by name. */
  ghost predicate Agrees(w: World, conns: Connections) {
    && (forall v | v in w.views :: v.cluster.name in conns && conns[v.cluster.name] == v)
    && (forall n | n in conns :: conns[n] in w.views && conns[n].cluster.name == n)
  }

  /** No template renders a pod-uid selector for a pod other than the entry's own. */
  ghost predicate NamesOwnPod(w: World) {
    forall v, i, p, e | Renders(w, v, i, p, e) ::
      forall s | s in e.selectors && s.typ == "k8s" && POD_UID_PREFIX <= s.value :: s == PodSelector(p)
  }

  lemma PodSelectorInjective(p: Pod, p': Pod)
    requires PodSelector(p) == PodSelector(p')
    ensures p.uid == p'.uid
  {
    assert PodSelector(p).value[|POD_UID_PREFIX|..] == p.uid;
    assert PodSelector(p').value[|POD_UID_PREFIX|..] == p'.uid;
  }

  /** A rendered entry carries the UID of its own pod and of no other, and that pod is live. */
  lemma RenderedNamesPod(w: World, v: ConnView, i: Identity, p: Pod, e: Entry, pod: Pod)
    requires NamesOwnPod(w) && Renders(w, v, i, p, e)
    ensures v in w.views && p in v.pods && Live(p)
    ensures PodSelector(pod) in e.selectors <==> p.uid == pod.uid
  {
    RenderedHasPodSelector(w.env, i, v, p);
    assert POD_UID_PREFIX <= PodSelector(pod).value;
    hide RenderPod;
    if PodSelector(pod) in e.selectors {
      PodSelectorInjective(pod, p);
    }
  }

  /** What the sweep for a pod finds on a server that holds the entries of a world. */
  lemma PodVictims(cfg: Config, w: World, m: Entries, pod: Pod, e: Entry)
    requires Holds(cfg, m, AllEntries(w)) && Keyed(m) && e in AllEntries(w)
    ensures Address(cfg, e).id in Victims(m, OfPod(cfg.prefix, pod)) <==> PodSelector(pod) in e.selectors
  {
    var id := Address(cfg, e).id;
    AddressAddressed(cfg, e);
    assert InPlace(cfg, m, e);
    InSyncWithRendered(cfg, m[id], e);
    assert m[id].id == id;
  }

  /** Without a live pod of that UID in the world, the sweep finds nothing. */
  lemma NoVictims(cfg: Config, w: World, m: Entries, pod: Pod)
    requires Holds(cfg, m, AllEntries(w)) && Keyed(m) && NamesOwnPod(w)
    requires forall v, p | v in w.views && p in v.pods && p.uid == pod.uid :: !Live(p)
    ensures Victims(m, OfPod(cfg.prefix, pod)) == {}
  {
    forall id | id in m
      ensures id !in Victims(m, OfPod(cfg.prefix, pod))
    {
      if cfg.prefix <= id {
        var e := HeldEntry(cfg, m, AllEntries(w), id);
        PodVictims(cfg, w, m, pod, e);
        AllEntriesMembers(w, e);
        var v, i, p :| Renders(w, v, i, p, e);
        RenderedNamesPod(w, v, i, p, e, pod);
      }
      assert m[id].id == id;
    }
  }

  ghost predicate IsSelected(identities: seq<Identity>, pod: Pod, cluster: Cluster, i: Identity) {
    && i in identities && i.namespace == pod.namespace
    && Targets(i, cluster) && SelectsForEvent(i, pod)
  }

  lemma PodEventEntryMembers(env: Env, identities: seq<Identity>, pod: Pod, cluster: Cluster, node: Node, e: Entry)
    ensures e in PodEventEntries(env, identities, pod, cluster, node) <==>
            exists i :: IsSelected(identities, pod, cluster, i) && Rendered(env, i, cluster, pod, node) == Some(e)
  {
    hide Rendered;
    var matching, f := MatchingIdentities(identities, pod, cluster), RenderedFor(env, cluster, pod, node);
    FlatMapMembers(matching, f, e);
    forall i
      ensures i in matching <==> IsSelected(identities, pod, cluster, i)
    {
      FlatMapMembers(identities, IfSelected(pod, cluster), i);
    }
  }

  /** Some identity makes the full pass render `e` for the pod. */
  ghost predicate RendersForPod(w: World, v: ConnView, pod: Pod, e: Entry) {
    exists i :: Renders(w, v, i, pod, e)
  }

  /** An identity without a pod selector makes a pod event write `e`. */
  ghost predicate WrittenForAbsent(w: World, v: ConnView, pod: Pod, node: Node, e: Entry) {
    exists i: Identity ::
      && i.podSelector.NoSelector? && IsSelected(w.identities, pod, v.cluster, i)
      && Rendered(w.env, i, v.cluster, pod, node) == Some(e)
  }

  /** A pod event writes what the full pass renders for the pod, and the entries of the identities
      without a pod selector, for which the full pass renders nothing. */
  lemma PodEventWrites(w: World, v: ConnView, pod: Pod, node: Node, e: Entry)
    requires v in w.views && pod in v.pods && Live(pod) && v.nodes(pod.nodeName) == Some(node)
    requires !w.ignored(pod.namespace)
    ensures e in PodEventEntries(w.env, w.identities, pod, v.cluster, node) <==>
            RendersForPod(w, v, pod, e) || WrittenForAbsent(w, v, pod, node, e)
  {
    PodEventEntryMembers(w.env, w.identities, pod, v.cluster, node, e);
    hide Rendered, PodEventEntries;
    if i :| IsSelected(w.identities, pod, v.cluster, i) && Rendered(w.env, i, v.cluster, pod, node) == Some(e) {
      if !i.podSelector.NoSelector? {
        assert Renders(w, v, i, pod, e);
      }
    }
    if i :| Renders(w, v, i, pod, e) {
      assert IsSelected(w.identities, pod, v.cluster, i);
    }
  }

  /** A pod that is not live, has no node or is ignored is rendered for no identity. */
  lemma NotRenderedForPod(w: World, v: ConnView, pod: Pod, e: Entry)
    requires w.ignored(pod.namespace) || !Live(pod) || v.nodes(pod.nodeName).None?
    ensures !RendersForPod(w, v, pod, e)
  {
  }

  /** The add or update event of the pod writes `e` for an identity without a pod selector. */
  ghost predicate AbsentSelectorWrites(w: World, v: ConnView, pod: Pod, e: Entry) {
    && !w.ignored(pod.namespace) && Live(pod) && v.nodes(pod.nodeName).Some?
    && WrittenForAbsent(w, v, pod, v.nodes(pod.nodeName).value, e)
  }

  /** An add or update event writes what the full pass renders for the pod and what it writes for absent
      pod selectors, and nothing else. */
  lemma PodEventAgrees(
    r: TargetedReconciler, w: World, v: ConnView, m: Entries, conns: Connections, pod: Pod, action: string, fx: Effects,
    faults: int)
    requires w.env == r.env && w.ignored == r.ignored && Agrees(w, conns) && v in w.views && pod in v.pods
    requires action != "delete"
    requires r.PodEventDoes(fx, m, pod, v.cluster, action, w.identities, conns, faults)
    ensures forall e :: e in fx.written <==> RendersForPod(w, v, pod, e) || AbsentSelectorWrites(w, v, pod, e)
    ensures faults == 0 ==> AllFine(fx.luck)
    ensures fx.gone == {} || (fx.gone <= Victims(m, OfPod(r.cfg.prefix, pod)) && !Live(pod))
  {
    assert conns[v.cluster.name] == v;
    NoMisses(fx.luck);
    hide Renders, PodEventEntries, MatchingIdentities, OfPod, Victims, WrittenForAbsent, RendersForPod, Misses, AllFine;
    forall e
      ensures e in fx.written <==> RendersForPod(w, v, pod, e) || AbsentSelectorWrites(w, v, pod, e)
    {
      if w.ignored(pod.namespace) || !Live(pod) || v.nodes(pod.nodeName).None? {
        NotRenderedForPod(w, v, pod, e);
      } else {
        PodEventWrites(w, v, pod, v.nodes(pod.nodeName).value, e);
      }
    }
  }

  /** In a frozen world an add or update event that writes nothing for absent pod selectors leaves a
      converged server as it is, whatever calls fail. */
  lemma PodEventKeepsConverged(
    r: TargetedReconciler, w: World, v: ConnView, m: Entries, conns: Connections, pod: Pod, action: string, fx: Effects,
    faults: int)
    requires w.env == r.env && w.ignored == r.ignored && Agrees(w, conns) && v in w.views && pod in v.pods
    requires forall e :: !AbsentSelectorWrites(w, v, pod, e)
    requires Converged(r.cfg, m, Declared(r.cfg, w)) && Keyed(m)
    requires Unambiguous(r.cfg, AllEntries(w)) && NamesOwnPod(w)
    requires forall v', p | v' in w.views && p in v'.pods && p.uid == pod.uid :: p == pod
    requires action != "delete"
    requires r.PodEventDoes(fx, m, pod, v.cluster, action, w.identities, conns, faults)
    ensures After(r.cfg, m, fx) == m
  {
    PodEventAgrees(r, w, v, m, conns, pod, action, fx, faults);
    LuckFits(r, m, pod, v.cluster, action, w.identities, conns, fx, faults);
    hide *;
    HoldsDeclared(r.cfg, m, w);
    forall e | e in fx.written
      ensures InPlace(r.cfg, m, e)
    {
      RenderedForPodInPlace(r.cfg, w, v, m, pod, e);
    }
    UpsertsInPlace(r.cfg, m, fx.written, fx.luck);
    if !Live(pod) {
      NoVictims(r.cfg, w, m, pod);
    }
    NothingGoneAfter(r.cfg, m, fx);
  }

  lemma LuckFits(
    r: TargetedReconciler, m: Entries, pod: Pod, cluster: Cluster, action: string, identities: seq<Identity>,
    conns: Connections, fx: Effects, faults: int)
    requires r.PodEventDoes(fx, m, pod, cluster, action, identities, conns, faults)
    ensures |fx.luck| == |fx.written|
  {
  }

  lemma RenderedForPodInPlace(cfg: Config, w: World, v: ConnView, m: Entries, pod: Pod, e: Entry)
    requires Holds(cfg, m, AllEntries(w)) && RendersForPod(w, v, pod, e)
    ensures InPlace(cfg, m, e)
  {
    AllEntriesMembers(w, e);
    hide AllEntries, Renders;
    var i :| Renders(w, v, i, pod, e);
    HeldInPlace(cfg, m, AllEntries(w), e);
  }

  lemma NothingGoneAfter(cfg: Config, m: Entries, fx: Effects)
    requires |fx.luck| == |fx.written|
    ensures fx.gone == {} ==> After(cfg, m, fx) == Upserts(cfg, m, fx.written, fx.luck)
  {
  }

  /** `w'` is `w` with `pod` among the pods of its k-th connection. */
  ghost predicate AddsPod(w: World, w': World, k: nat, pod: Pod) {
    && w'.env == w.env && w'.identities == w.identities && w'.ignored == w.ignored
    && k < |w.views| == |w'.views|
    && (forall j | 0 <= j < |w.views| && j != k :: w'.views[j] == w.views[j])
    && w'.views[k].cluster == w.views[k].cluster && w'.views[k].nodes == w.views[k].nodes
    && (forall p :: p in w'.views[k].pods <==> p in w.views[k].pods || p == pod)
    && (forall v, p | v in w.views && p in v.pods :: p.uid != pod.uid)
  }

  lemma RenderPodSame(env: Env, i: Identity, v: ConnView, v': ConnView, p: Pod)
    requires v.cluster == v'.cluster && v.nodes == v'.nodes
    ensures RenderPod(env, i, v, p) == RenderPod(env, i, v', p)
  {
  }

  /** The additional pod adds exactly the entries rendered for it. */
  lemma AddedEntries(w: World, w': World, k: nat, pod: Pod, e: Entry)
    requires AddsPod(w, w', k, pod)
    ensures e in AllEntries(w') <==> e in AllEntries(w) || RendersForPod(w', w'.views[k], pod, e)
  {
    AllEntriesMembers(w, e);
    AllEntriesMembers(w', e);
    hide RenderPod, Matches, Targets, AllEntries;
    if e in AllEntries(w') {
      var v', i, p :| Renders(w', v', i, p, e);
      var j :| 0 <= j < |w'.views| && w'.views[j] == v';
      RenderPodSame(w.env, i, w.views[j], v', p);
      if j == k && p == pod {
        assert RendersForPod(w', w'.views[k], pod, e);
      } else {
        assert Renders(w, w.views[j], i, p, e);
      }
    }
    if e in AllEntries(w) {
      var v, i, p :| Renders(w, v, i, p, e);
      var j :| 0 <= j < |w.views| && w.views[j] == v;
      RenderPodSame(w.env, i, v, w'.views[j], p);
      assert Renders(w', w'.views[j], i, p, e);
    }
  }

  lemma FewerIsUnambiguous(cfg: Config, es: seq<Entry>, es': seq<Entry>)
    requires Unambiguous(cfg, es') && forall e | e in es :: e in es'
    ensures Unambiguous(cfg, es)
  {
  }

  /** Without faults, the event of a new pod takes a server from what a full pass declares without the
      pod to what it declares with the pod. */
  lemma PodAddedConverges(
    r: TargetedReconciler, w: World, w': World, k: nat, m: Entries, conns: Connections, pod: Pod, action: string,
    fx: Effects)
    requires AddsPod(w, w', k, pod) && w'.env == r.env && w'.ignored == r.ignored && Agrees(w', conns)
    requires Converged(r.cfg, m, Declared(r.cfg, w)) && Unambiguous(r.cfg, AllEntries(w'))
    requires OrderlyFor(r.cfg, m, AllEntries(w')) && NamesOwnPod(w)
    requires forall e :: !AbsentSelectorWrites(w', w'.views[k], pod, e)
    requires action != "delete"
    requires r.PodEventDoes(fx, m, pod, w'.views[k].cluster, action, w'.identities, conns, 0)
    ensures Converged(r.cfg, After(r.cfg, m, fx), Declared(r.cfg, w'))
  {
    var v, es, all := w'.views[k], AllEntries(w), AllEntries(w');
    assert v in w'.views && pod in v.pods;
    PodEventAgrees(r, w', v, m, conns, pod, action, fx, 0);
    forall e
      ensures e in all <==> e in es || e in fx.written
    {
      AddedEntries(w, w', k, pod, e);
    }
    hide *;
    FewerIsUnambiguous(r.cfg, es, all);
    HoldsDeclared(r.cfg, m, w);
    NothingSwept(r, w, w', k, m, pod, fx);
    WritingMore(r.cfg, m, es, fx.written, all, fx.luck);
    HoldsDeclared(r.cfg, Upserts(r.cfg, m, fx.written, fx.luck), w');
  }

  lemma HoldsDeclared(cfg: Config, m: Entries, w: World)
    requires Unambiguous(cfg, AllEntries(w))
    ensures Converged(cfg, m, Declared(cfg, w)) <==> Holds(cfg, m, AllEntries(w))
  {
    ConvergedIffHolds(cfg, m, AllEntries(w));
  }

  lemma NothingSwept(r: TargetedReconciler, w: World, w': World, k: nat, m: Entries, pod: Pod, fx: Effects)
    requires AddsPod(w, w', k, pod) && Holds(r.cfg, m, AllEntries(w)) && OrderlyFor(r.cfg, m, AllEntries(w'))
        && NamesOwnPod(w)
    requires |fx.luck| == |fx.written| && (fx.gone == {} || fx.gone <= Victims(m, OfPod(r.cfg.prefix, pod)))
    ensures After(r.cfg, m, fx) == Upserts(r.cfg, m, fx.written, fx.luck)
  {
    NoVictims(r.cfg, w, m, pod);
  }

  /** What the delete event removes: the entries with the UID of the pod, unless its namespace is ignored. */
  lemma DeleteEventSweeps(
    r: TargetedReconciler, m: Entries, conns: Connections, pod: Pod, cluster: Cluster, w: World, fx: Effects)
    requires r.PodEventDoes(fx, m, pod, cluster, "delete", w.identities, conns, 0)
    ensures fx.written == [] && After(r.cfg, m, fx) == m - fx.gone
    ensures fx.gone == if r.ignored(pod.namespace) then {} else Victims(m, OfPod(r.cfg.prefix, pod))
  {
  }

  /** In the world with the pod, the entries with its UID are those that the world without it does not render. */
  lemma OfPodIffAdded(w: World, w': World, k: nat, pod: Pod, e: Entry)
    requires AddsPod(w, w', k, pod) && NamesOwnPod(w') && e in AllEntries(w')
    ensures PodSelector(pod) in e.selectors <==> e !in AllEntries(w)
  {
    AddedEntries(w, w', k, pod, e);
    if e in AllEntries(w) {
      var v, i, p := StillRendered(w, w', k, pod, e);
      RenderedNamesPod(w', v, i, p, e, pod);
    } else {
      var i :| Renders(w', w'.views[k], i, pod, e);
      RenderedNamesPod(w', w'.views[k], i, pod, e, pod);
    }
  }

  /** An entry rendered without the pod is rendered with it, for a pod with another UID. */
  lemma StillRendered(w: World, w': World, k: nat, pod: Pod, e: Entry) returns (v: ConnView, i: Identity, p: Pod)
    requires AddsPod(w, w', k, pod) && e in AllEntries(w)
    ensures Renders(w', v, i, p, e) && p.uid != pod.uid
  {
    AllEntriesMembers(w, e);
    var v0;
    v0, i, p :| Renders(w, v0, i, p, e);
    hide RenderPod, Matches, Targets, AllEntries;
    var j :| 0 <= j < |w.views| && w.views[j] == v0;
    v := w'.views[j];
    RenderPodSame(w.env, i, v0, v, p);
  }

  lemma DeletedIffAdded(r: TargetedReconciler, w: World, w': World, k: nat, m: Entries, pod: Pod, fx: Effects, e: Entry)
    requires AddsPod(w, w', k, pod) && w'.ignored == r.ignored && NamesOwnPod(w')
    requires Holds(r.cfg, m, AllEntries(w')) && Keyed(m)
    requires fx.gone == if r.ignored(pod.namespace) then {} else Victims(m, OfPod(r.cfg.prefix, pod))
    ensures e in AllEntries(w) ==> e in AllEntries(w')
    ensures e in AllEntries(w') ==> (Address(r.cfg, e).id in fx.gone <==> e !in AllEntries(w))
  {
    AddedEntries(w, w', k, pod, e);
    hide AllEntries, Holds, OfPod, Victims, Address, NamesOwnPod;
    if e in AllEntries(w') {
      PodVictims(r.cfg, w', m, pod, e);
      OfPodIffAdded(w, w', k, pod, e);
      if r.ignored(pod.namespace) {
        NotRenderedForPod(w', w'.views[k], pod, e);
      }
    }
  }

  /** And the delete event of the pod takes it back. */
  lemma PodDeletedConverges(
    r: TargetedReconciler, w: World, w': World, k: nat, m: Entries, conns: Connections, pod: Pod, cluster: Cluster,
    fx: Effects)
    requires AddsPod(w, w', k, pod) && w'.env == r.env && w'.ignored == r.ignored
    requires Converged(r.cfg, m, Declared(r.cfg, w')) && Unambiguous(r.cfg, AllEntries(w'))
    requires Keyed(m) && NamesOwnPod(w')
    requires r.PodEventDoes(fx, m, pod, cluster, "delete", w.identities, conns, 0)
    ensures Converged(r.cfg, After(r.cfg, m, fx), Declared(r.cfg, w))
  {
    var es, rest := AllEntries(w'), AllEntries(w);
    HoldsDeclared(r.cfg, m, w');
    DeleteEventSweeps(r, m, conns, pod, cluster, w, fx);
    forall e
      ensures e in rest ==> e in es
      ensures e in es ==> (Address(r.cfg, e).id in fx.gone <==> e !in rest)
    {
      DeletedIffAdded(r, w, w', k, m, pod, fx, e);
    }
    hide *;
    SweepingRest(r.cfg, m, es, rest, fx.gone);
    FewerIsUnambiguous(r.cfg, rest, es);
    HoldsDeclared(r.cfg, m - fx.gone, w);
  }
}
