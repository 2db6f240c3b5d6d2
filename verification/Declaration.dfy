// What the registrar declares in a given world: which entries it wants the server
// to hold for the connected clusters, the identities and the pods that it sees.
module Declaration {
  import opened Sequences
  import opened Wrappers
  import opened SpireApi
  import opened Store
  import opened State
  import opened Rendering
  import opened ClusterManager

  /** LabelSelectorAsSelector: an absent selector matches nothing, an invalid one is an error. */
  predicate Selects(selector: LabelSelector, labels: map<string, string>) {
    selector.Matching? && selector.matches(labels)
  }

  /** shouldProcessIdentity: here an absent selector matches everything. */
  predicate Targets(identity: Identity, cluster: Cluster) {
    identity.clusterSelector.NoSelector? || Selects(identity.clusterSelector, cluster.spec.labels)
  }

  /** A pod of the identity's namespace that its pod selector matches. */
  predicate Matches(identity: Identity, pod: Pod) {
    pod.namespace == identity.namespace && Selects(identity.podSelector, pod.labels)
  }

  function IfMatches(identity: Identity): Pod -> seq<Pod> {
    pod => if Matches(identity, pod) then [pod] else []
  }

  /** The pods of a connection that match, in the order of its informer. */
  function MatchingPods(pods: seq<Pod>, identity: Identity): seq<Pod> {
    FlatMap(pods, IfMatches(identity))
  }

  lemma WhichPodsMatch(pods: seq<Pod>, identity: Identity)
    ensures forall p :: p in MatchingPods(pods, identity) <==>
              && p in pods && p.namespace == identity.namespace
              && identity.podSelector.Matching? && identity.podSelector.matches(p.labels)
  {
    forall p
      ensures p in MatchingPods(pods, identity) <==> p in pods && Matches(identity, p)
    {
      FlatMapMembers(pods, IfMatches(identity), p);
    }
  }

  lemma {:induction false} NothingMatches(pods: seq<Pod>, identity: Identity)
    requires !identity.podSelector.Matching?
    ensures MatchingPods(pods, identity) == []
  {
    if pods != [] {
      NothingMatches(pods[..|pods| - 1], identity);
    }
  }

  /** The entry of a pod, if it is live, its node is found and the entry renders. */
  function RenderPod(env: Env, identity: Identity, v: ConnView, pod: Pod): Option<Entry> {
    if !Live(pod) then None
    else
      match v.nodes(pod.nodeName)
      case None => None
      case Some(node) => Rendered(env, identity, v.cluster, pod, node)
  }

  function PodEntries(env: Env, identity: Identity, v: ConnView): Pod -> seq<Entry> {
    pod =>
      match RenderPod(env, identity, v, pod)
      case Some(e) => [e]
      case None => []
  }

  /** The entries of an identity in one cluster. */
  function IdentityEntries(env: Env, v: ConnView, identity: Identity): seq<Entry> {
    FlatMap(MatchingPods(v.pods, identity), PodEntries(env, identity, v))
  }

  /** What the reconcilers read: the connections, the identities and the ignored namespaces. */
  datatype World = World(env: Env, views: seq<ConnView>, identities: seq<Identity>, ignored: string -> bool)

  /** processWorkloadIdentity, for the identities that target the cluster. */
  function IfTargets(env: Env, ignored: string -> bool, v: ConnView): Identity -> seq<Entry> {
    identity =>
      if Targets(identity, v.cluster) && !ignored(identity.namespace) then IdentityEntries(env, v, identity) else []
  }

  /** processCluster */
  function ClusterEntries(env: Env, ignored: string -> bool, identities: seq<Identity>): ConnView -> seq<Entry> {
    v => FlatMap(identities, IfTargets(env, ignored, v))
  }

  /** All entries that a full pass renders. */
  function AllEntries(w: World): seq<Entry> {
    FlatMap(w.views, ClusterEntries(w.env, w.ignored, w.identities))
  }

  /** AddDeclared for each of the entries: a later entry replaces one with the same key. */
  function Declare(cfg: Config, declared: Entries, es: seq<Entry>): Entries {
    if es == [] then declared
    else
      var n := |es| - 1;
      var e := Address(cfg, es[n]);
      Declare(cfg, declared, es[..n])[e.id := e]
  }

  function Declared(cfg: Config, w: World): Entries {
    Declare(cfg, map[], AllEntries(w))
  }

  // ----- meaning

  /** The full pass renders `e` for pod `p` of identity `i` in the cluster of `v`. */
  ghost predicate Renders(w: World, v: ConnView, i: Identity, p: Pod, e: Entry) {
    && v in w.views && i in w.identities && p in v.pods
    && Targets(i, v.cluster) && !w.ignored(i.namespace) && Matches(i, p)
    && RenderPod(w.env, i, v, p) == Some(e)
  }

  /** What that takes, in full. Both selectors have to be valid; an absent one targets every cluster, but
      matches no pod. */
  lemma RendersMeans(w: World, v: ConnView, i: Identity, p: Pod, e: Entry)
    ensures Renders(w, v, i, p, e) <==>
              && v in w.views && i in w.identities && p in v.pods
              && (i.clusterSelector == NoSelector ||
                  (i.clusterSelector.Matching? && i.clusterSelector.matches(v.cluster.spec.labels)))
              && !w.ignored(i.namespace)
              && p.namespace == i.namespace
              && i.podSelector.Matching? && i.podSelector.matches(p.labels)
              && p.phase == "Running" && !p.deleting && p.nodeName != ""
              && v.nodes(p.nodeName).Some?
              && Rendered(w.env, i, v.cluster, p, v.nodes(p.nodeName).value) == Some(e)
  {
  }

  lemma IdentityEntriesMembers(env: Env, v: ConnView, identity: Identity, e: Entry)
    ensures e in IdentityEntries(env, v, identity) <==>
            exists p | p in v.pods :: Matches(identity, p) && RenderPod(env, identity, v, p) == Some(e)
  {
    var pods := MatchingPods(v.pods, identity);
    FlatMapMembers(pods, PodEntries(env, identity, v), e);
    forall p
      ensures p in pods <==> p in v.pods && Matches(identity, p)
    {
      FlatMapMembers(v.pods, IfMatches(identity), p);
    }
  }

  /** A full pass renders an entry exactly when some eligible pod asks for it. */
  lemma AllEntriesMembers(w: World, e: Entry)
    ensures e in AllEntries(w) <==> exists v, i, p :: Renders(w, v, i, p, e)
  {
    var f := ClusterEntries(w.env, w.ignored, w.identities);
    FlatMapMembers(w.views, f, e);
    if e in AllEntries(w) {
      var v :| v in w.views && e in f(v);
      var g := IfTargets(w.env, w.ignored, v);
      FlatMapMembers(w.identities, g, e);
      var i :| i in w.identities && e in g(i);
      IdentityEntriesMembers(w.env, v, i, e);
      var p :| p in v.pods && Matches(i, p) && RenderPod(w.env, i, v, p) == Some(e);
      assert Renders(w, v, i, p, e);
    }
    if v, i, p :| Renders(w, v, i, p, e) {
      IdentityEntriesMembers(w.env, v, i, e);
      FlatMapMembers(w.identities, IfTargets(w.env, w.ignored, v), e);
      assert e in f(v);
    }
  }

  /** No two rendered entries fight for one key. */
  ghost predicate Unambiguous(cfg: Config, es: seq<Entry>) {
    forall e, e' | e in es && e' in es && Address(cfg, e).id == Address(cfg, e').id :: e == e'
  }

  lemma AddressAddressed(cfg: Config, e: Entry)
    ensures Addressed(cfg, Address(cfg, e))
    ensures cfg.prefix <= Address(cfg, e).id
  {
  }

  lemma {:induction false} DeclareAddressed(cfg: Config, es: seq<Entry>)
    ensures Keyed(Declare(cfg, map[], es)) && AllAddressed(cfg, Declare(cfg, map[], es))
  {
    if es != [] {
      var n := |es| - 1;
      DeclareAddressed(cfg, es[..n]);
      AddressAddressed(cfg, es[n]);
    }
  }

  lemma {:induction false} DeclareSound(cfg: Config, es: seq<Entry>, id: string)
    requires id in Declare(cfg, map[], es)
    ensures exists e | e in es :: Declare(cfg, map[], es)[id] == Address(cfg, e)
  {
    var n := |es| - 1;
    var d := Declare(cfg, map[], es[..n]);
    if id == Address(cfg, es[n]).id {
      assert es[n] in es;
    } else {
      DeclareSound(cfg, es[..n], id);
      var e :| e in es[..n] && d[id] == Address(cfg, e);
      assert e in es;
    }
  }

  lemma {:induction false} DeclareComplete(cfg: Config, es: seq<Entry>, e: Entry)
    requires e in es
    ensures Address(cfg, e).id in Declare(cfg, map[], es)
  {
    var n := |es| - 1;
    if e != es[n] {
      DeclareComplete(cfg, es[..n], e);
    }
  }

  /** Declared entries are rendered entries under the IDs of their content, every rendered ID is
      declared, and without ambiguity every rendered entry is. */
  lemma DeclareMembers(cfg: Config, es: seq<Entry>)
    ensures
      var d := Declare(cfg, map[], es);
      && Keyed(d) && AllAddressed(cfg, d)
      && (forall id | id in d :: exists e | e in es :: d[id] == Address(cfg, e))
      && (forall e | e in es :: Address(cfg, e).id in d)
      && (Unambiguous(cfg, es) ==> forall e | e in es :: d[Address(cfg, e).id] == Address(cfg, e))
  {
    var d := Declare(cfg, map[], es);
    DeclareAddressed(cfg, es);
    forall id | id in d
      ensures exists e | e in es :: d[id] == Address(cfg, e)
    {
      DeclareSound(cfg, es, id);
    }
    forall e | e in es
      ensures Address(cfg, e).id in d
      ensures Unambiguous(cfg, es) ==> d[Address(cfg, e).id] == Address(cfg, e)
    {
      DeclareComplete(cfg, es, e);
      var id := Address(cfg, e).id;
      var e' :| e' in es && d[id] == Address(cfg, e');
      assert d[id].id == id;
    }
  }

  lemma {:induction false} DeclareAppend(cfg: Config, d: Entries, es: seq<Entry>, es': seq<Entry>)
    ensures Declare(cfg, d, es + es') == Declare(cfg, Declare(cfg, d, es), es')
  {
    hide Address;
    if es' == [] {
      assert es + es' == es;
    } else {
      var n := |es'| - 1;
      assert (es + es')[..|es| + n] == es + es'[..n] && (es + es')[|es| + n] == es'[n];
      DeclareAppend(cfg, d, es, es'[..n]);
    }
  }
}
