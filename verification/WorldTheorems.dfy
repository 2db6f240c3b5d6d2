// What a full pass means for the pods of the world that it saw.
module WorldTheorems {
  import opened SpireApi
  import opened Store
  import opened State
  import opened Convergence
  import opened Rendering
  import opened ClusterManager
  import opened Declaration

  /** The server holds `e` under the ID of its content, up to the order of lists. */
  ghost predicate InPlace(cfg: Config, m: Entries, e: Entry) {
    Address(cfg, e).id in m && InSync(m[Address(cfg, e).id], Address(cfg, e))
  }

  /** `id` is the ID of one of the entries `es`. */
  ghost predicate IsIDOf(cfg: Config, es: seq<Entry>, id: string) {
    exists e | e in es :: Address(cfg, e).id == id
  }

  /** The managed part of the server holds the entries `es` and nothing else. */
  ghost predicate Holds(cfg: Config, m: Entries, es: seq<Entry>) {
    && (forall e | e in es :: InPlace(cfg, m, e))
    && (forall id | id in m && cfg.prefix <= id :: IsIDOf(cfg, es, id))
  }

  /** Convergence in terms of the rendered entries: each of them is in place, and every managed entry
      is one of them. */
  lemma ConvergedIffHolds(cfg: Config, m: Entries, es: seq<Entry>)
    requires Unambiguous(cfg, es)
    ensures Converged(cfg, m, Declare(cfg, map[], es)) <==> Holds(cfg, m, es)
  {
    var declared := Declare(cfg, map[], es);
    hide Declare, Address, InSync, Unambiguous;
    if Converged(cfg, m, declared) {
      DeclareMembers(cfg, es);
      forall e | e in es
        ensures InPlace(cfg, m, e)
      {
        AddressAddressed(cfg, e);
        assert SyncedAt(m, declared, Address(cfg, e).id);
      }
      forall id | id in m && cfg.prefix <= id
        ensures IsIDOf(cfg, es, id)
      {
        assert SyncedAt(m, declared, id);
        var e :| e in es && declared[id] == Address(cfg, e);
        assert Address(cfg, e).id == id;
      }
    }
    if Holds(cfg, m, es) {
      forall id | cfg.prefix <= id
        ensures SyncedAt(m, declared, id)
      {
        HoldsAt(cfg, m, es, id);
      }
    }
  }

  lemma HoldsAt(cfg: Config, m: Entries, es: seq<Entry>, id: string)
    requires Unambiguous(cfg, es) && Holds(cfg, m, es) && cfg.prefix <= id
    ensures SyncedAt(m, Declare(cfg, map[], es), id)
  {
    var declared := Declare(cfg, map[], es);
    DeclareMembers(cfg, es);
    hide Address, Similar, SameAttributes;
    if id in declared {
      var e :| e in es && declared[id] == Address(cfg, e);
      assert declared[id].id == id;
      assert InPlace(cfg, m, e);
    }
    if IsIDOf(cfg, es, id) {
      var e :| e in es && Address(cfg, e).id == id;
      assert id in declared;
    }
  }

  /** A managed entry is in sync with the entry it holds the ID of. */
  lemma HeldEntry(cfg: Config, m: Entries, es: seq<Entry>, id: string) returns (e: Entry)
    requires Holds(cfg, m, es) && id in m && cfg.prefix <= id
    ensures e in es && Address(cfg, e).id == id && InSync(m[id], Address(cfg, e))
  {
    e :| e in es && Address(cfg, e).id == id;
    assert InPlace(cfg, m, e);
  }

  lemma HeldInPlace(cfg: Config, m: Entries, es: seq<Entry>, e: Entry)
    requires Holds(cfg, m, es) && e in es
    ensures InPlace(cfg, m, e)
  {
  }

  lemma GoneIsNotHeld(cfg: Config, m': Entries, m: Entries, es: seq<Entry>, gone: set<string>, e: Entry)
    requires m' == m - gone && e in es && Address(cfg, e).id in gone
    ensures !Holds(cfg, m', es)
  {
  }

  /** A server that holds the entries `es` holds fewer of them only if they are all there are. */
  lemma HoldsBoth(cfg: Config, m: Entries, es: seq<Entry>, es': seq<Entry>)
    requires Holds(cfg, m, es) && Unambiguous(cfg, es) && forall e | e in es' :: e in es
    ensures Holds(cfg, m, es') <==> forall e | e in es :: e in es'
  {
  }

  lemma InSyncWithRendered(cfg: Config, x: Entry, e: Entry)
    requires InSync(x, Address(cfg, e))
    ensures forall s :: s in x.selectors <==> s in e.selectors
    ensures x.hint == e.hint && x.spiffeID == e.spiffeID && x.parentID == e.parentID
  {
    assert Address(cfg, e).selectors == e.selectors;
    forall s
      ensures s in x.selectors <==> s in e.selectors
    {
      assert s in multiset(x.selectors) <==> s in multiset(e.selectors);
    }
  }

  /** The main result about the full pass: without failures it leaves, for every pod of a connected
      cluster that an identity selects and whose node and templates are in order, its entry in place; and every
      managed entry belongs to such a pod. */
  lemma FullPassAchieves(cfg: Config, w: World, m: Entries, p: Plan)
    requires Unambiguous(cfg, AllEntries(w))
    requires forall v, i, q, e | Renders(w, v, i, q, e) :: DuplicateFree(e.selectors)
    requires KeptAddressed(cfg, m, Declared(cfg, w)) && NoSimilarUnmanaged(cfg, m, Declared(cfg, w))
    requires IsPlan(p, Managed(m, cfg.prefix), Declared(cfg, w))
    ensures
      var r := Pass(m, p, NoFailure(p));
      && (forall v, i, q, e | Renders(w, v, i, q, e) :: InPlace(cfg, r, e))
      && (forall id | id in r && cfg.prefix <= id ::
            exists v, i, q, e :: Renders(w, v, i, q, e) && Address(cfg, e).id == id && InSync(r[id], Address(cfg, e)))
      && SameUnmanaged(cfg, m, r)
  {
    var r, es := Pass(m, p, NoFailure(p)), AllEntries(w);
    RenderedIsDeclared(cfg, w);
    Converges(cfg, m, Declared(cfg, w), p);
    ConvergedIffHolds(cfg, r, es);
    hide Renders, Pass, Declared, Converged, Address, Similar, SameAttributes, NoSimilarUnmanaged, KeptAddressed,
        IsPlan;
    forall v, i, q, e | Renders(w, v, i, q, e)
      ensures InPlace(cfg, r, e)
    {
      AllEntriesMembers(w, e);
    }
    forall id | id in r && cfg.prefix <= id
      ensures exists v, i, q, e :: Renders(w, v, i, q, e) && Address(cfg, e).id == id && InSync(r[id], Address(cfg, e))
    {
      var e := HeldEntry(cfg, r, es, id);
      AllEntriesMembers(w, e);
    }
  }

  lemma RenderedIsDeclared(cfg: Config, w: World)
    requires forall v, i, q, e | Renders(w, v, i, q, e) :: DuplicateFree(e.selectors)
    ensures DeclaredState(cfg, Declared(cfg, w))
  {
    var d := Declared(cfg, w);
    DeclareMembers(cfg, AllEntries(w));
    hide Renders;
    forall id | id in d
      ensures DuplicateFree(d[id].selectors)
    {
      var e :| e in AllEntries(w) && d[id] == Address(cfg, e);
      AllEntriesMembers(w, e);
      assert Address(cfg, e).selectors == e.selectors;
    }
  }

  /** The pod-uid selector is one more selector of type k8s: a template that renders another one makes
      a full pass update the entry again and again. */
  lemma SecondK8sSelector(
    cfg: Config, w: World, m: Entries, p: Plan, v: ConnView, i: Identity, q: Pod, e: Entry, s: Selector)
    requires Unambiguous(cfg, AllEntries(w)) && DeclaredState(cfg, Declared(cfg, w))
    requires Converged(cfg, m, Declared(cfg, w)) && IsPlan(p, Managed(m, cfg.prefix), Declared(cfg, w))
    requires Renders(w, v, i, q, e) && s in e.selectors && s.typ == "k8s" && s != PodSelector(q)
    ensures Address(cfg, e) in p.updates
  {
    var d := Declared(cfg, w);
    AllEntriesMembers(w, e);
    DeclareMembers(cfg, AllEntries(w));
    RenderedHasPodSelector(w.env, i, v, q);
    PlanAfterConvergence(cfg, m, d, p);
    assert Address(cfg, e).selectors == e.selectors;
    assert !SingleValued(e.selectors);
    assert d[Address(cfg, e).id] == Address(cfg, e);
  }

  lemma RenderedHasPodSelector(env: Env, i: Identity, v: ConnView, p: Pod)
    ensures
      var r := RenderPod(env, i, v, p);
      r.Some? ==> Live(p) && PodSelector(p) in r.value.selectors && r.value.hint == HintFor(i, v.cluster)
  {
  }

  // ----- one cluster less

  /** `w` is `w'` without the connection of one cluster. */
  ghost predicate DropsCluster(w: World, w': World, name: string) {
    && w'.env == w.env && w'.identities == w.identities && w'.ignored == w.ignored
    && (forall v :: v in w.views <==> v in w'.views && v.cluster.name != name)
  }

  lemma SurvivesDrop(w: World, w': World, name: string, e: Entry)
    requires DropsCluster(w, w', name)
    ensures e in AllEntries(w) <==> exists v, i, p :: Renders(w', v, i, p, e) && v.cluster.name != name
  {
    AllEntriesMembers(w, e);
    hide RenderPod, Matches, Targets, AllEntries;
    if v, i, p :| Renders(w, v, i, p, e) {
      assert Renders(w', v, i, p, e);
    }
    if v, i, p :| Renders(w', v, i, p, e) && v.cluster.name != name {
      assert Renders(w, v, i, p, e);
    }
  }

  lemma DroppedIsRendered(w: World, w': World, name: string, e: Entry)
    requires DropsCluster(w, w', name)
    ensures e in AllEntries(w) ==> e in AllEntries(w')
  {
    SurvivesDrop(w, w', name, e);
    AllEntriesMembers(w', e);
  }
}
