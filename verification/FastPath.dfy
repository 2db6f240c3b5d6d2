// The targeted reconciler (internal/controller/targeted_reconciler.go): pod,
// identity and cluster events edit the server entry by entry.
module FastPath {
  import opened Wrappers
  import opened Sequences
  import opened Text
  import opened SpireApi
  import opened EntryKey
  import opened Store
  import opened State
  import opened Rendering
  import opened Hints
  import opened ClusterManager
  import opened Declaration
  import opened SpireClient

  // ----- reconcilePodEntry

  /** The call that reconcilePodEntry makes when it lists `listed`, or fails to list. */
  function UpsertCall(listed: Option<Entries>, e: Entry): Option<Call> {
    if listed.None? || e.id !in listed.value then Some(Create(e))
    else if SameAttributes(e, listed.value[e.id]) then None
    else Some(Update(e))
  }

  /** Whether the listing before a call succeeded, and whether the call was carried out. */
  datatype Luck = Luck(listed: bool, took: bool)

  const FINE := Luck(true, true)

  function Upsert(m: Entries, e: Entry, luck: Luck): Entries {
    match UpsertCall(if luck.listed then Some(m) else None, e)
    case None => m
    case Some(c) => if luck.took then Effect(m, c) else m
  }

  /** reconcilePodEntry for the entries `es` in turn. */
  function Upserts(cfg: Config, m: Entries, es: seq<Entry>, luck: seq<Luck>): Entries
    requires |luck| == |es|
  {
    if es == [] then m
    else
      var n := |es| - 1;
      Upsert(Upserts(cfg, m, es[..n], luck[..n]), Address(cfg, es[n]), luck[n])
  }

  predicate AllFine(luck: seq<Luck>) {
    forall l | l in luck :: l == FINE
  }

  function Missed(l: Luck): nat {
    (if l.listed then 0 else 1) + if l.took then 0 else 1
  }

  /** How many of the listings and calls failed. */
  function Misses(luck: seq<Luck>): nat {
    if luck == [] then 0 else Misses(luck[..|luck| - 1]) + Missed(luck[|luck| - 1])
  }

  lemma MissedNothing(l: Luck)
    ensures Missed(l) == 0 <==> l == FINE
  {
  }

  lemma {:induction false} NoMisses(luck: seq<Luck>)
    ensures Misses(luck) == 0 <==> AllFine(luck)
  {
    if luck != [] {
      var init, last := luck[..|luck| - 1], luck[|luck| - 1];
      NoMisses(init);
      MissedNothing(last);
      assert luck == init + [last];
      assert last in luck && forall l :: l in luck <==> l in init || l == last;
    }
  }

  lemma {:induction false} MissesAppend(luck: seq<Luck>, luck': seq<Luck>)
    ensures Misses(luck + luck') == Misses(luck) + Misses(luck')
  {
    if luck' == [] {
      assert luck + luck' == luck;
    } else {
      var n := |luck'| - 1;
      assert (luck + luck')[..|luck| + n] == luck + luck'[..n];
      MissesAppend(luck, luck'[..n]);
    }
  }

  /** `m'` is what writing `es` made of `m`. No more listings and calls failed than there were `faults`: a
      failure concerns its own entry only. */
  ghost predicate Wrote(cfg: Config, m: Entries, m': Entries, es: seq<Entry>, luck: seq<Luck>, faults: int) {
    |luck| == |es| && m' == Upserts(cfg, m, es, luck) && Misses(luck) <= faults
  }

  lemma WroteNothing(cfg: Config, m: Entries)
    ensures Wrote(cfg, m, m, [], [], 0)
  {
  }

  lemma WroteMore(
    cfg: Config, m: Entries, m': Entries, m'': Entries, es: seq<Entry>, luck: seq<Luck>, es': seq<Entry>,
    luck': seq<Luck>, faults: int, faults': int)
    requires Wrote(cfg, m, m', es, luck, faults) && Wrote(cfg, m', m'', es', luck', faults')
    ensures Wrote(cfg, m, m'', es + es', luck + luck', faults + faults')
  {
    UpsertsAppend(cfg, m, es, luck, es', luck');
    MissesAppend(luck, luck');
  }

  lemma {:induction false} UpsertsAppend(
    cfg: Config, m: Entries, es: seq<Entry>, luck: seq<Luck>, es': seq<Entry>, luck': seq<Luck>)
    requires |luck| == |es| && |luck'| == |es'|
    ensures Upserts(cfg, m, es + es', luck + luck') == Upserts(cfg, Upserts(cfg, m, es, luck), es', luck')
  {
    hide Upsert, Address;
    if es' == [] {
      assert es + es' == es && luck + luck' == luck;
    } else {
      var n := |es'| - 1;
      assert (es + es')[..|es| + n] == es + es'[..n] && (es + es')[|es| + n] == es'[n];
      assert (luck + luck')[..|es| + n] == luck + luck'[..n] && (luck + luck')[|es| + n] == luck'[n];
      UpsertsAppend(cfg, m, es, luck, es'[..n], luck'[..n]);
    }
  }

  // ----- sweeps: list the entries and delete those that meet a test

  function Victims(m: Entries, test: Entry -> bool): set<string> {
    set id | id in m && test(m[id])
  }

  function VictimsIn(es: seq<Entry>, test: Entry -> bool): set<string> {
    if es == [] then {}
    else
      var e := es[|es| - 1];
      VictimsIn(es[..|es| - 1], test) + if test(e) then {e.id} else {}
  }

  /** Of the victims so far no more are left than there were faults. */
  ghost predicate SweptSoFar(victims: set<string>, gone: set<string>, faults: int) {
    gone <= victims && |victims - gone| <= faults
  }

  lemma SweepStart(m: Entries, es: seq<Entry>, test: Entry -> bool)
    ensures m - {} == m && forall faults: nat :: SweptSoFar(VictimsIn(es[..0], test), {}, faults)
  {
    assert VictimsIn(es[..0], test) - {} == {};
  }

  /** One more entry, which does not meet the test. */
  lemma SweepSkips(es: seq<Entry>, i: nat, test: Entry -> bool, gone: set<string>, faults: int)
    requires i < |es| && SweptSoFar(VictimsIn(es[..i], test), gone, faults)
    ensures !test(es[i]) ==> SweptSoFar(VictimsIn(es[..i + 1], test), gone, faults)
  {
    assert es[..i + 1][..i] == es[..i];
    assert VictimsIn(es[..i], test) + {} == VictimsIn(es[..i], test);
  }

  /** One more entry that meets the test: its deletion was carried out or is a fault. */
  lemma SweepHits(
    es: seq<Entry>, i: nat, test: Entry -> bool, gone: set<string>, gone': set<string>, faults: int, faults': int)
    requires i < |es| && SweptSoFar(VictimsIn(es[..i], test), gone, faults) && test(es[i])
    requires (gone' == gone + {es[i].id} && faults' >= faults) || (gone' == gone && faults' > faults)
    ensures SweptSoFar(VictimsIn(es[..i + 1], test), gone', faults')
  {
    assert es[..i + 1][..i] == es[..i];
    var v, id := VictimsIn(es[..i], test), es[i].id;
    assert VictimsIn(es[..i + 1], test) == v + {id};
    if gone' == gone + {id} {
      assert (v + {id}) - gone' <= v - gone;
      SubsetSmaller((v + {id}) - gone', v - gone);
    } else {
      SubsetSmaller((v + {id}) - gone, (v - gone) + {id});
    }
  }

  lemma {:induction false} SubsetSmaller<T>(a: set<T>, b: set<T>)
    requires a <= b
    ensures |a| <= |b|
  {
    if a != {} {
      var x :| x in a;
      SubsetSmaller(a - {x}, b - {x});
    }
  }

  /** How many of the victims are left; one for a listing that failed. */
  function SweepMisses(sweep: set<string>, gone: set<string>): nat {
    if gone == sweep then 0 else if gone == {} then 1 else |sweep - gone|
  }

  /** A sweep deletes nothing but victims, and no more are left than there were faults, unless it failed
      to list the entries. */
  ghost predicate Swept(sweep: set<string>, gone: set<string>, faults: int) {
    gone <= sweep && SweepMisses(sweep, gone) <= faults
  }

  lemma SweptAll(sweep: set<string>, gone: set<string>)
    requires Swept(sweep, gone, 0)
    ensures gone == sweep
  {
    assert |sweep - gone| == 0 ==> sweep - gone == {};
  }

  lemma SweptNothing(sweep: set<string>, faults: int)
    requires faults >= 1
    ensures Swept(sweep, {}, faults)
  {
  }

  /** Without faults everything was written and swept. */
  lemma NothingMissed(luck: seq<Luck>, sweep: set<string>, gone: set<string>)
    requires gone <= sweep && Misses(luck) + SweepMisses(sweep, gone) <= 0
    ensures AllFine(luck) && gone == sweep
  {
    NoMisses(luck);
    SweptAll(sweep, gone);
  }

  lemma SweptMore(sweep: set<string>, gone: set<string>, faults: int, faults': int)
    requires Swept(sweep, gone, faults) && faults <= faults'
    ensures Swept(sweep, gone, faults')
  {
  }

  lemma SweptByLoop(es: seq<Entry>, m: Entries, test: Entry -> bool, gone: set<string>, faults: int)
    requires Lists(es, m) && SweptSoFar(VictimsIn(es[..|es|], test), gone, faults)
    ensures Swept(Victims(m, test), gone, faults)
  {
    assert es[..|es|] == es;
    VictimsOfListing(es, m, test);
    var sweep := Victims(m, test);
    if gone != sweep && gone == {} {
      assert sweep - gone == sweep && |sweep| != 0;
    }
  }

  lemma MinusNothing(m: Entries)
    ensures m - {} == m
  {
  }

  lemma {:induction false} VictimsOfListing(es: seq<Entry>, m: Entries, test: Entry -> bool)
    requires Lists(es, m)
    ensures VictimsIn(es, test) == Victims(m, test)
  {
    if es != [] {
      var e := es[|es| - 1];
      VictimsOfListing(es[..|es| - 1], m - {e.id}, test);
      assert Victims(m, test) == Victims(m - {e.id}, test) + if test(e) then {e.id} else {};
    }
  }

  /** The entries with the UID of the pod among their selectors, if they are managed. */
  function OfPod(prefix: string, pod: Pod): Entry -> bool {
    (e: Entry) => prefix <= e.id && PodSelector(pod) in e.selectors
  }

  lemma OfPodMeans(prefix: string, pod: Pod)
    ensures forall e :: OfPod(prefix, pod)(e) <==>
              prefix <= e.id && Selector("k8s", "pod-uid:" + pod.uid) in e.selectors
  {
  }

  function OfIdentity(identity: Identity): Entry -> bool {
    (e: Entry) => BelongsToIdentity(e.hint, identity)
  }

  lemma OfIdentityMeans(identity: Identity)
    ensures forall e :: OfIdentity(identity)(e) <==> BelongsToIdentity(e.hint, identity)
  {
  }

  function OfCluster(name: string): Entry -> bool {
    (e: Entry) => BelongsToCluster(e.hint, name)
  }

  lemma OfClusterMeans(name: string)
    ensures forall e :: OfCluster(name)(e) <==> BelongsToCluster(e.hint, name)
  {
  }

  predicate NamesPod(s: Selector, uids: set<string>) {
    s.typ == "k8s" && POD_UID_PREFIX <= s.value && TrimPrefix(s.value, POD_UID_PREFIX) in uids
  }

  /** One of the selectors carries the UID of a valid pod. */
  predicate HasValidPod(e: Entry, uids: set<string>) {
    exists s | s in e.selectors :: NamesPod(s, uids)
  }

  function OrphanOfIdentity(identity: Identity, uids: set<string>): Entry -> bool {
    (e: Entry) => BelongsToIdentity(e.hint, identity) && !HasValidPod(e, uids)
  }

  function OrphanOfCluster(name: string, uids: set<string>): Entry -> bool {
    (e: Entry) => BelongsToCluster(e.hint, name) && !HasValidPod(e, uids)
  }

  lemma OrphanOfIdentityMeans(identity: Identity, uids: set<string>)
    ensures forall e :: OrphanOfIdentity(identity, uids)(e) <==>
              BelongsToIdentity(e.hint, identity) && !HasValidPod(e, uids)
  {
  }

  lemma OrphanOfClusterMeans(name: string, uids: set<string>)
    ensures forall e :: OrphanOfCluster(name, uids)(e) <==> BelongsToCluster(e.hint, name) && !HasValidPod(e, uids)
  {
  }

  // ----- what the events look at

  /** In findMatchingIdentities an absent pod selector matches every pod. */
  predicate SelectsForEvent(identity: Identity, pod: Pod) {
    identity.podSelector.NoSelector? || Selects(identity.podSelector, pod.labels)
  }

  function IfSelected(pod: Pod, cluster: Cluster): Identity -> seq<Identity> {
    (i: Identity) => if i.namespace == pod.namespace && Targets(i, cluster) && SelectsForEvent(i, pod) then [i] else []
  }

  /** findMatchingIdentities */
  function MatchingIdentities(identities: seq<Identity>, pod: Pod, cluster: Cluster): seq<Identity> {
    FlatMap(identities, IfSelected(pod, cluster))
  }

  lemma WhichIdentitiesMatch(identities: seq<Identity>, pod: Pod, cluster: Cluster)
    ensures forall i :: i in MatchingIdentities(identities, pod, cluster) <==>
              && i in identities && i.namespace == pod.namespace
              && (i.clusterSelector == NoSelector ||
                  (i.clusterSelector.Matching? && i.clusterSelector.matches(cluster.spec.labels)))
              && (i.podSelector == NoSelector || (i.podSelector.Matching? && i.podSelector.matches(pod.labels)))
  {
    forall i
      ensures i in MatchingIdentities(identities, pod, cluster) <==>
                i in identities && i.namespace == pod.namespace && Targets(i, cluster) && SelectsForEvent(i, pod)
    {
      FlatMapMembers(identities, IfSelected(pod, cluster), i);
    }
  }

  ghost predicate NoInvalidSelector(identities: seq<Identity>, pod: Pod, cluster: Cluster) {
    forall i | i in identities && i.namespace == pod.namespace && Targets(i, cluster) :: !i.podSelector.Invalid?
  }

  function RenderedFor(env: Env, cluster: Cluster, pod: Pod, node: Node): Identity -> seq<Entry> {
    (i: Identity) =>
      match Rendered(env, i, cluster, pod, node)
      case Some(e) => [e]
      case None => []
  }

  /** The entries that a pod event writes. */
  function PodEventEntries(
    env: Env, identities: seq<Identity>, pod: Pod, cluster: Cluster, node: Node): seq<Entry>
  {
    FlatMap(MatchingIdentities(identities, pod, cluster), RenderedFor(env, cluster, pod, node))
  }

  function IfEnabledTarget(identity: Identity): Cluster -> seq<Cluster> {
    (c: Cluster) => if c.spec.enabled && Targets(identity, c) then [c] else []
  }

  /** findMatchingClusters */
  function MatchingClusters(listed: seq<Cluster>, identity: Identity): seq<Cluster> {
    FlatMap(listed, IfEnabledTarget(identity))
  }

  lemma WhichClustersMatch(listed: seq<Cluster>, identity: Identity)
    ensures forall c :: c in MatchingClusters(listed, identity) <==>
              && c in listed && c.spec.enabled
              && (identity.clusterSelector == NoSelector ||
                  (identity.clusterSelector.Matching? && identity.clusterSelector.matches(c.spec.labels)))
  {
    forall c
      ensures c in MatchingClusters(listed, identity) <==> c in listed && c.spec.enabled && Targets(identity, c)
    {
      FlatMapMembers(listed, IfEnabledTarget(identity), c);
    }
  }

  /** The connections by cluster name. */
  type Connections = map<string, ConnView>

  /** A connection seen with the registry that the event read, not with the stored one. */
  function ViewAs(conns: Connections, c: Cluster): ConnView
    requires c.name in conns
  {
    ConnView(c, conns[c.name].pods, conns[c.name].nodes)
  }

  function EntriesIn(env: Env, identity: Identity, conns: Connections): Cluster -> seq<Entry> {
    (c: Cluster) => if c.name in conns then IdentityEntries(env, ViewAs(conns, c), identity) else []
  }

  /** The entries that an identity event writes. */
  function IdentityEventEntries(env: Env, identity: Identity, listed: seq<Cluster>, conns: Connections): seq<Entry> {
    FlatMap(MatchingClusters(listed, identity), EntriesIn(env, identity, conns))
  }

  function LiveUID(pod: Pod): seq<string> {
    if Live(pod) then [pod.uid] else []
  }

  function LiveUIDsIn(identity: Identity, conns: Connections): Cluster -> seq<string> {
    (c: Cluster) => if c.name in conns then FlatMap(MatchingPods(conns[c.name].pods, identity), LiveUID) else []
  }

  function UIDSet(uids: seq<string>): set<string> {
    set u | u in uids
  }

  /** The pod UIDs that keep an entry of the identity alive. */
  function ValidUIDs(identity: Identity, listed: seq<Cluster>, conns: Connections): seq<string> {
    FlatMap(MatchingClusters(listed, identity), LiveUIDsIn(identity, conns))
  }

  function IfTargeted(env: Env, v: ConnView): Identity -> seq<Entry> {
    (i: Identity) => if Targets(i, v.cluster) then IdentityEntries(env, v, i) else []
  }

  function LiveUIDsFor(v: ConnView): Identity -> seq<string> {
    (i: Identity) => if Targets(i, v.cluster) then FlatMap(MatchingPods(v.pods, i), LiveUID) else []
  }

  // ----- the reconciler

  /** What an event did: the entries it wrote with how each call went, and the IDs it deleted. */
  datatype Effects = Effects(written: seq<Entry>, luck: seq<Luck>, gone: set<string>)

  const NOTHING := Effects([], [], {})

  function After(cfg: Config, m: Entries, fx: Effects): Entries
    requires |fx.luck| == |fx.written|
  {
    Upserts(cfg, m, fx.written, fx.luck) - fx.gone
  }

  class TargetedReconciler {
    const env: Env
    const cfg: Config
    const ignored: string -> bool
    const manager: Manager
    const client: Client

    constructor (env: Env, cfg: Config, ignored: string -> bool, manager: Manager, client: Client)
      ensures this.env == env && this.cfg == cfg && this.ignored == ignored
      ensures this.manager == manager && this.client == client
    {
      this.env, this.cfg, this.ignored := env, cfg, ignored;
      this.manager, this.client := manager, client;
    }

    /** Nothing is written when the entry does not render. */
    method ReconcilePodEntry(pod: Pod, node: Node, identity: Identity, cluster: Cluster) returns (ghost luck: seq<Luck>)
      requires client.server.Valid()
      modifies client.server
      ensures client.server.Valid() && client.server.faults >= old(client.server.faults)
      ensures Wrote(cfg, old(client.server.entries), client.server.entries,
                    RenderedFor(env, cluster, pod, node)(identity), luck,
                    client.server.faults - old(client.server.faults))
    {
      luck := [];
      var rendered := RenderEntry(env, identity, cluster, pod, node);
      if rendered.None? {
        return;
      }
      var entry := rendered.value;
      var entryKey := MakeEntryKey(cfg.hash, entry);
      if cfg.prefix != "" {
        entry := entry.(id := cfg.prefix + entryKey);
      } else {
        assert cfg.prefix + entryKey == entryKey;
        entry := entry.(id := entryKey);
      }
      assert entry == Address(cfg, rendered.value);
      ghost var m := client.server.entries;
      ghost var l := UpsertEntry(entry);
      luck := [l];
      UpsertsNone(cfg, m, [], RenderedFor(env, cluster, pod, node));
      UpsertsNext(cfg, m, [], [], rendered.value, l);
    }

    /** The second half of reconcilePodEntry: looks the entry up and creates or updates it. */
    method UpsertEntry(entry: Entry) returns (ghost luck: Luck)
      requires client.server.Valid()
      modifies client.server
      ensures client.server.Valid()
      ensures luck.listed && entry.id in old(client.server.entries) ==>
                (var existing := old(client.server.entries)[entry.id];
                 client.server.entries ==
                 if luck.took && !SameAttributes(entry, existing) then old(client.server.entries)[entry.id := entry]
                 else old(client.server.entries))
      ensures !luck.listed || entry.id !in old(client.server.entries) ==>
                client.server.entries ==
                if luck.took then Effect(old(client.server.entries), Create(entry)) else old(client.server.entries)
      ensures client.server.entries == Upsert(old(client.server.entries), entry, luck)
      ensures Missed(luck) <= client.server.faults - old(client.server.faults)
    {
      hide SameAttributes, Effect, Lists, Keyed;
      ghost var m := client.server.entries;
      var failed, entries := client.ListEntries();
      var existing := FindByID(entries, entry.id);
      if !failed {
        ValidIsKeyed(client.server);
        FoundInListing(entries, m, entry.id);
      }
      ghost var took := true;
      if existing.None? {
        var err;
        err, took := client.CreateEntry(entry);
        RunOne(m, Create(entry), took);
      } else {
        var outdated := GetOutdatedEntryFields(entry, existing.value);
        if |outdated| > 0 {
          var e := entry.(id := existing.value.id);
          var err;
          err, took := client.UpdateEntry(e);
          RunOne(m, Update(e), took);
          UpdateExisting(m, e);
        }
      }
      luck := Luck(!failed, took);
    }

    /** The search loop of reconcilePodEntry. */
    method FindByID(entries: seq<Entry>, id: string) returns (existing: Option<Entry>)
      ensures existing.Some? ==> existing.value in entries && existing.value.id == id
      ensures existing.None? ==> forall e | e in entries :: e.id != id
    {
      existing := None;
      for i := 0 to |entries|
        invariant forall e | e in entries[..i] :: e.id != id
      {
        if entries[i].id == id {
          return Some(entries[i]);
        }
      }
      assert entries[..|entries|] == entries;
    }

    // ----- sweeps

    /** DeleteEntry for one listed entry. */
    method DeleteVictim(id: string, ghost m: Entries, ghost gone: set<string>) returns (ghost gone': set<string>)
      requires client.server.Valid() && client.server.entries == m - gone
      modifies client.server
      ensures client.server.Valid() && client.server.entries == m - gone'
      ensures client.server.faults >= old(client.server.faults)
      ensures gone' == gone + {id} || (gone' == gone && client.server.faults > old(client.server.faults))
    {
      var err; ghost var took;
      err, took := client.DeleteEntry(id);
      gone' := if took then gone + {id} else gone;
      assert m - gone - {id} == m - (gone + {id});
    }

    method DeleteEntriesForPod(pod: Pod) returns (ghost gone: set<string>)
      requires client.server.Valid()
      modifies client.server
      ensures client.server.Valid()
      ensures client.server.faults >= old(client.server.faults)
      ensures Swept(Victims(old(client.server.entries), OfPod(cfg.prefix, pod)), gone,
                    client.server.faults - old(client.server.faults))
      ensures client.server.entries == old(client.server.entries) - gone
    {
      hide *;
      gone := {};
      MinusNothing(client.server.entries);
      var failed, entries := client.ListEntries();
      if failed {
        SweptNothing(Victims(client.server.entries, OfPod(cfg.prefix, pod)),
                     client.server.faults - old(client.server.faults));
        return;
      }
      ghost var m, test := client.server.entries, OfPod(cfg.prefix, pod);
      SweepStart(m, entries, test);
      OfPodMeans(cfg.prefix, pod);
      for i := 0 to |entries|
        invariant client.server.Valid() && client.server.entries == m - gone
        invariant client.server.faults >= old(client.server.faults)
        invariant SweptSoFar(VictimsIn(entries[..i], test), gone, client.server.faults - old(client.server.faults))
      {
        ghost var gone', faults := gone, client.server.faults - old(client.server.faults);
        SweepSkips(entries, i, test, gone, faults);
        var entry := entries[i];
        if !(cfg.prefix <= entry.id) {
          continue;
        }
        var podUIDSelector := "pod-uid:" + pod.uid;
        var found := HasSelector(entry, podUIDSelector);
        if found {
          gone := DeleteVictim(entry.id, m, gone);
          SweepHits(entries, i, test, gone', gone, faults, client.server.faults - old(client.server.faults));
        }
      }
      SweptByLoop(entries, m, test, gone, client.server.faults - old(client.server.faults));
    }

    /** The inner loop of deleteEntriesForPod. */
    method HasSelector(entry: Entry, value: string) returns (found: bool)
      ensures found <==> Selector("k8s", value) in entry.selectors
    {
      for i := 0 to |entry.selectors|
        invariant Selector("k8s", value) !in entry.selectors[..i]
      {
        if entry.selectors[i].typ == "k8s" && entry.selectors[i].value == value {
          return true;
        }
      }
      assert entry.selectors[..|entry.selectors|] == entry.selectors;
      found := false;
    }

    method DeleteEntriesForIdentity(identity: Identity) returns (ghost gone: set<string>)
      requires client.server.Valid()
      modifies client.server
      ensures client.server.Valid()
      ensures client.server.faults >= old(client.server.faults)
      ensures Swept(Victims(old(client.server.entries), OfIdentity(identity)), gone,
                    client.server.faults - old(client.server.faults))
      ensures client.server.entries == old(client.server.entries) - gone
    {
      hide *;
      gone := {};
      MinusNothing(client.server.entries);
      var failed, entries := client.ListEntries();
      if failed {
        SweptNothing(Victims(client.server.entries, OfIdentity(identity)),
                     client.server.faults - old(client.server.faults));
        return;
      }
      ghost var m, test := client.server.entries, OfIdentity(identity);
      SweepStart(m, entries, test);
      OfIdentityMeans(identity);
      for i := 0 to |entries|
        invariant client.server.Valid() && client.server.entries == m - gone
        invariant client.server.faults >= old(client.server.faults)
        invariant SweptSoFar(VictimsIn(entries[..i], test), gone, client.server.faults - old(client.server.faults))
      {
        ghost var gone', faults := gone, client.server.faults - old(client.server.faults);
        SweepSkips(entries, i, test, gone, faults);
        if BelongsToIdentity(entries[i].hint, identity) {
          gone := DeleteVictim(entries[i].id, m, gone);
          SweepHits(entries, i, test, gone', gone, faults, client.server.faults - old(client.server.faults));
        }
      }
      SweptByLoop(entries, m, test, gone, client.server.faults - old(client.server.faults));
    }

    method DeleteEntriesForCluster(cluster: Cluster) returns (ghost gone: set<string>)
      requires client.server.Valid()
      modifies client.server
      ensures client.server.Valid()
      ensures client.server.faults >= old(client.server.faults)
      ensures Swept(Victims(old(client.server.entries), OfCluster(cluster.name)), gone,
                    client.server.faults - old(client.server.faults))
      ensures client.server.entries == old(client.server.entries) - gone
    {
      hide *;
      gone := {};
      MinusNothing(client.server.entries);
      var failed, entries := client.ListEntries();
      if failed {
        SweptNothing(Victims(client.server.entries, OfCluster(cluster.name)),
                     client.server.faults - old(client.server.faults));
        return;
      }
      ghost var m, test := client.server.entries, OfCluster(cluster.name);
      SweepStart(m, entries, test);
      OfClusterMeans(cluster.name);
      for i := 0 to |entries|
        invariant client.server.Valid() && client.server.entries == m - gone
        invariant client.server.faults >= old(client.server.faults)
        invariant SweptSoFar(VictimsIn(entries[..i], test), gone, client.server.faults - old(client.server.faults))
      {
        ghost var gone', faults := gone, client.server.faults - old(client.server.faults);
        SweepSkips(entries, i, test, gone, faults);
        if BelongsToCluster(entries[i].hint, cluster.name) {
          gone := DeleteVictim(entries[i].id, m, gone);
          SweepHits(entries, i, test, gone', gone, faults, client.server.faults - old(client.server.faults));
        }
      }
      SweptByLoop(entries, m, test, gone, client.server.faults - old(client.server.faults));
    }

    // ----- loops over pods and clusters

    method GetMatchingPods(conn: ClusterConnection, identity: Identity) returns (pods: seq<Pod>)
      ensures forall p :: p in pods <==>
                && p in conn.pods && p.namespace == identity.namespace
                && identity.podSelector.Matching? && identity.podSelector.matches(p.labels)
      ensures pods == MatchingPods(conn.pods, identity)
    {
      WhichPodsMatch(conn.pods, identity);
      pods := [];
      if identity.podSelector.Invalid? {
        NothingMatches(conn.pods, identity);
        return;
      }
      var objs := conn.pods;
      for i := 0 to |objs|
        invariant pods == MatchingPods(objs[..i], identity)
      {
        FlatMapNext(objs, IfMatches(identity), i);
        if objs[i].namespace != identity.namespace {
          continue;
        }
        if !Selects(identity.podSelector, objs[i].labels) {
          continue;
        }
        pods := pods + [objs[i]];
      }
      assert objs[..|objs|] == objs;
    }

    /** The body of the inner loop of the identity and cluster events. */
    method ReconcilePod(pod: Pod, identity: Identity, cluster: Cluster, conn: ClusterConnection)
      returns (ghost luck: seq<Luck>)
      requires client.server.Valid()
      modifies client.server
      ensures client.server.Valid() && client.server.faults >= old(client.server.faults)
      ensures Wrote(cfg, old(client.server.entries), client.server.entries,
                    PodEntries(env, identity, ConnView(cluster, conn.pods, conn.nodes))(pod), luck,
                    client.server.faults - old(client.server.faults))
    {
      luck := [];
      WroteNothing(cfg, client.server.entries);
      hide Wrote, Rendered;
      if pod.phase != RUNNING || pod.deleting || pod.nodeName == "" {
        return;
      }
      var node := conn.nodes(pod.nodeName);
      if node.None? {
        return;
      }
      luck := ReconcilePodEntry(pod, node.value, identity, cluster);
    }

    /** The inner loop of the identity and cluster events: one identity in one cluster. */
    method ReconcilePods(identity: Identity, cluster: Cluster, conn: ClusterConnection) returns (ghost luck: seq<Luck>)
      requires client.server.Valid()
      modifies client.server
      ensures client.server.Valid() && client.server.faults >= old(client.server.faults)
      ensures Wrote(cfg, old(client.server.entries), client.server.entries,
                    IdentityEntries(env, ConnView(cluster, conn.pods, conn.nodes), identity), luck,
                    client.server.faults - old(client.server.faults))
    {
      ghost var m, faults := client.server.entries, client.server.faults;
      ghost var entries := PodEntries(env, identity, ConnView(cluster, conn.pods, conn.nodes));
      var pods := GetMatchingPods(conn, identity);
      luck := [];
      WroteNothing(cfg, m);
      hide Wrote, PodEntries, MatchingPods;
      for i := 0 to |pods|
        invariant client.server.Valid() && client.server.faults >= faults
        invariant Wrote(cfg, m, client.server.entries, FlatMap(pods[..i], entries), luck,
            client.server.faults - faults)
      {
        FlatMapNext(pods, entries, i);
        ghost var m', faults' := client.server.entries, client.server.faults;
        ghost var more := ReconcilePod(pods[i], identity, cluster, conn);
        WroteMore(cfg, m, m', client.server.entries, FlatMap(pods[..i], entries), luck, entries(pods[i]), more,
                  faults' - faults, client.server.faults - faults');
        luck := luck + more;
      }
      assert pods[..|pods|] == pods;
    }

    method FindMatchingClusters(listed: seq<Cluster>, identity: Identity) returns (matching: seq<Cluster>)
      ensures forall c :: c in matching <==>
                && c in listed && c.spec.enabled
                && (identity.clusterSelector == NoSelector ||
                    (identity.clusterSelector.Matching? && identity.clusterSelector.matches(c.spec.labels)))
      ensures matching == MatchingClusters(listed, identity)
    {
      WhichClustersMatch(listed, identity);
      matching := [];
      for i := 0 to |listed|
        invariant matching == MatchingClusters(listed[..i], identity)
      {
        FlatMapNext(listed, IfEnabledTarget(identity), i);
        if listed[i].spec.enabled && Targets(identity, listed[i]) {
          matching := matching + [listed[i]];
        }
      }
      assert listed[..|listed|] == listed;
    }

    /** An invalid pod selector comes back as nil from LabelSelectorAsSelector, and calling it panics: that
        happens exactly when an identity of the pod's namespace that targets the cluster has one. */
    method FindMatchingIdentities(identities: seq<Identity>, pod: Pod, cluster: Cluster)
      returns (panicked: bool, matching: seq<Identity>)
      ensures panicked <==> !NoInvalidSelector(identities, pod, cluster)
      ensures !panicked ==>
                forall i :: i in matching <==>
                  && i in identities && i.namespace == pod.namespace
                  && (i.clusterSelector == NoSelector ||
                      (i.clusterSelector.Matching? && i.clusterSelector.matches(cluster.spec.labels)))
                  && (i.podSelector == NoSelector || (i.podSelector.Matching? && i.podSelector.matches(pod.labels)))
      ensures !panicked ==> matching == MatchingIdentities(identities, pod, cluster)
    {
      WhichIdentitiesMatch(identities, pod, cluster);
      matching := [];
      for i := 0 to |identities|
        invariant NoInvalidSelector(identities[..i], pod, cluster)
        invariant matching == MatchingIdentities(identities[..i], pod, cluster)
      {
        FlatMapNext(identities, IfSelected(pod, cluster), i);
        var identity := identities[i];
        if identity.namespace != pod.namespace {
          continue;
        }
        if !Targets(identity, cluster) {
          continue;
        }
        if !identity.podSelector.NoSelector? {
          if identity.podSelector.Invalid? {
            return true, matching;
          }
          if !Selects(identity.podSelector, pod.labels) {
            continue;
          }
        }
        matching := matching + [identity];
      }
      assert identities[..|identities|] == identities;
      panicked := false;
    }

    method LiveUIDsOf(identity: Identity, conn: ClusterConnection) returns (uids: set<string>)
      ensures uids == UIDSet(FlatMap(MatchingPods(conn.pods, identity), LiveUID))
    {
      var pods := GetMatchingPods(conn, identity);
      uids := {};
      for i := 0 to |pods|
        invariant uids == UIDSet(FlatMap(pods[..i], LiveUID))
      {
        FlatMapNext(pods, LiveUID, i);
        if pods[i].phase == RUNNING && !pods[i].deleting && pods[i].nodeName != "" {
          uids := uids + {pods[i].uid};
        }
      }
      assert pods[..|pods|] == pods;
    }

    // ----- orphans

    method CleanupOrphanedEntriesForIdentity(identity: Identity, listed: seq<Cluster>) returns (ghost gone: set<string>)
      requires client.server.Valid() && manager.Valid() && client.server !in manager.Repr
      modifies client.server
      ensures client.server.Valid() && client.server.faults >= old(client.server.faults)
      ensures
        var test := OrphanOfIdentity(identity, UIDSet(ValidUIDs(identity, listed, manager.Connections())));
        Swept(Victims(old(client.server.entries), test), gone, client.server.faults - old(client.server.faults))
      ensures client.server.entries == old(client.server.entries) - gone
    {
      hide *;
      gone := {};
      MinusNothing(client.server.entries);
      var failed, entries := client.ListEntries();
      if failed {
        manager.Framed();
        ghost var uids := UIDSet(ValidUIDs(identity, listed, manager.Connections()));
        SweptNothing(Victims(client.server.entries, OrphanOfIdentity(identity, uids)),
                     client.server.faults - old(client.server.faults));
        return;
      }
      manager.Framed();
      var uids := ValidPodUIDs(identity, listed);
      ghost var test, faults := OrphanOfIdentity(identity, uids), client.server.faults;
      gone := DeleteOrphansOfIdentity(identity, uids, entries);
      SweptMore(Victims(old(client.server.entries), test), gone,
                client.server.faults - faults, client.server.faults - old(client.server.faults));
    }

    /** The UIDs of the live pods that the identity selects in the clusters it targets. */
    method ValidPodUIDs(identity: Identity, listed: seq<Cluster>) returns (uids: set<string>)
      requires manager.Valid()
      ensures uids == UIDSet(ValidUIDs(identity, listed, manager.Connections()))
    {
      hide *;
      uids := {};
      var clusters := FindMatchingClusters(listed, identity);
      ghost var uidsIn := LiveUIDsIn(identity, manager.Connections());
      UIDsAtStart(identity, listed, manager.Connections());
      for i := 0 to |clusters|
        invariant uids == UIDSet(FlatMap(clusters[..i], uidsIn))
      {
        FlatMapNext(clusters, uidsIn, i);
        UIDSetAppend(FlatMap(clusters[..i], uidsIn), uidsIn(clusters[i]));
        var more := LiveUIDsInCluster(identity, clusters[i]);
        uids := uids + more;
      }
      assert clusters[..|clusters|] == clusters;
    }

    /** The body of the loop over the clusters; none for a cluster without a connection. */
    method LiveUIDsInCluster(identity: Identity, cluster: Cluster) returns (uids: set<string>)
      requires manager.Valid()
      ensures uids == UIDSet(LiveUIDsIn(identity, manager.Connections())(cluster))
    {
      hide FlatMap, MatchingPods;
      uids := {};
      var conn := manager.GetClusterConnection(cluster.name);
      if conn.Some? {
        uids := LiveUIDsOf(identity, conn.value);
      }
    }

    /** The second half of cleanupOrphanedEntriesForIdentity. */
    method DeleteOrphansOfIdentity(identity: Identity, uids: set<string>, entries: seq<Entry>)
      returns (ghost gone: set<string>)
      requires client.server.Valid() && Lists(entries, client.server.entries)
      modifies client.server
      ensures client.server.Valid() && client.server.faults >= old(client.server.faults)
      ensures
        var test := OrphanOfIdentity(identity, uids);
        Swept(Victims(old(client.server.entries), test), gone, client.server.faults - old(client.server.faults))
      ensures client.server.entries == old(client.server.entries) - gone
    {
      hide *;
      gone := {};
      ghost var m, test := client.server.entries, OrphanOfIdentity(identity, uids);
      SweepStart(m, entries, test);
      OrphanOfIdentityMeans(identity, uids);
      for i := 0 to |entries|
        invariant client.server.Valid() && client.server.entries == m - gone
        invariant client.server.faults >= old(client.server.faults)
        invariant SweptSoFar(VictimsIn(entries[..i], test), gone, client.server.faults - old(client.server.faults))
      {
        ghost var gone', faults := gone, client.server.faults - old(client.server.faults);
        SweepSkips(entries, i, test, gone, faults);
        if !BelongsToIdentity(entries[i].hint, identity) {
          continue;
        }
        var hasValidPod := FindValidPod(entries[i], uids);
        if !hasValidPod {
          gone := DeleteVictim(entries[i].id, m, gone);
          SweepHits(entries, i, test, gone', gone, faults, client.server.faults - old(client.server.faults));
        }
      }
      SweptByLoop(entries, m, test, gone, client.server.faults - old(client.server.faults));
    }

    /** The second half of cleanupOrphanedEntriesForCluster. */
    method DeleteOrphansOfCluster(name: string, uids: set<string>, entries: seq<Entry>)
      returns (ghost gone: set<string>)
      requires client.server.Valid() && Lists(entries, client.server.entries)
      modifies client.server
      ensures client.server.Valid() && client.server.faults >= old(client.server.faults)
      ensures
        var test := OrphanOfCluster(name, uids);
        Swept(Victims(old(client.server.entries), test), gone, client.server.faults - old(client.server.faults))
      ensures client.server.entries == old(client.server.entries) - gone
    {
      hide *;
      gone := {};
      ghost var m, test := client.server.entries, OrphanOfCluster(name, uids);
      SweepStart(m, entries, test);
      OrphanOfClusterMeans(name, uids);
      for i := 0 to |entries|
        invariant client.server.Valid() && client.server.entries == m - gone
        invariant client.server.faults >= old(client.server.faults)
        invariant SweptSoFar(VictimsIn(entries[..i], test), gone, client.server.faults - old(client.server.faults))
      {
        ghost var gone', faults := gone, client.server.faults - old(client.server.faults);
        SweepSkips(entries, i, test, gone, faults);
        if !BelongsToCluster(entries[i].hint, name) {
          continue;
        }
        var hasValidPod := FindValidPod(entries[i], uids);
        if !hasValidPod {
          gone := DeleteVictim(entries[i].id, m, gone);
          SweepHits(entries, i, test, gone', gone, faults, client.server.faults - old(client.server.faults));
        }
      }
      SweptByLoop(entries, m, test, gone, client.server.faults - old(client.server.faults));
    }

    /** The loop over the selectors in both cleanups. */
    method FindValidPod(entry: Entry, uids: set<string>) returns (hasValidPod: bool)
      ensures hasValidPod <==> HasValidPod(entry, uids)
    {
      for i := 0 to |entry.selectors|
        invariant forall s | s in entry.selectors[..i] :: !NamesPod(s, uids)
      {
        var selector := entry.selectors[i];
        if selector.typ == "k8s" && "pod-uid:" <= selector.value {
          var podUID := TrimPrefix(selector.value, "pod-uid:");
          if podUID in uids {
            assert NamesPod(selector, uids);
            return true;
          }
        }
      }
      assert entry.selectors[..|entry.selectors|] == entry.selectors;
      hasValidPod := false;
    }

    method CleanupOrphanedEntriesForCluster(cluster: Cluster, identities: seq<Identity>)
      returns (ghost gone: set<string>)
      requires client.server.Valid() && manager.Valid() && client.server !in manager.Repr
      modifies client.server
      ensures client.server.Valid() && client.server.faults >= old(client.server.faults)
      ensures
        var conns := manager.Connections();
        var uids := if cluster.name in conns then FlatMap(identities, LiveUIDsFor(ViewAs(conns, cluster))) else [];
        var test := OrphanOfCluster(cluster.name, UIDSet(uids));
        Swept(Victims(old(client.server.entries), test), gone, client.server.faults - old(client.server.faults))
      ensures client.server.entries == old(client.server.entries) - gone
    {
      hide *;
      gone := {};
      MinusNothing(client.server.entries);
      var failed, entries := client.ListEntries();
      if failed {
        ghost var conns := manager.Connections();
        ghost var uids :=
          UIDSet(if cluster.name in conns then FlatMap(identities, LiveUIDsFor(ViewAs(conns, cluster))) else []);
        SweptNothing(Victims(client.server.entries, OrphanOfCluster(cluster.name, uids)),
                     client.server.faults - old(client.server.faults));
        return;
      }
      manager.Framed();
      var uids := ValidPodUIDsIn(cluster, identities);
      ghost var test, faults := OrphanOfCluster(cluster.name, uids), client.server.faults;
      gone := DeleteOrphansOfCluster(cluster.name, uids, entries);
      SweptMore(Victims(old(client.server.entries), test), gone,
                client.server.faults - faults, client.server.faults - old(client.server.faults));
    }

    /** The UIDs of the live pods in a cluster that some identity selects. */
    method ValidPodUIDsIn(cluster: Cluster, identities: seq<Identity>) returns (uids: set<string>)
      requires manager.Valid()
      ensures
        var conns := manager.Connections();
        uids == UIDSet(if cluster.name in conns then FlatMap(identities, LiveUIDsFor(ViewAs(conns, cluster))) else [])
    {
      uids := {};
      var conn := manager.GetClusterConnection(cluster.name);
      if conn.Some? {
        ghost var v := ConnView(cluster, conn.value.pods, conn.value.nodes);
        for i := 0 to |identities|
          invariant uids == UIDSet(FlatMap(identities[..i], LiveUIDsFor(v)))
        {
          FlatMapNext(identities, LiveUIDsFor(v), i);
          if Targets(identities[i], cluster) {
            var more := LiveUIDsOf(identities[i], conn.value);
            uids := uids + more;
          }
        }
        assert identities[..|identities|] == identities;
      }
    }

    // ----- the events

    /** A pod event; `identities` is the listing that it makes. It panics, before any call to the server,
        exactly when it comes to an invalid pod selector. */
    method ReconcileSinglePod(pod: Pod, cluster: Cluster, action: string, identities: seq<Identity>)
      returns (panicked: bool, ghost fx: Effects)
      requires client.server.Valid() && manager.Valid() && client.server !in manager.Repr
      modifies client.server
      ensures client.server.Valid() && client.server.faults >= old(client.server.faults)
      ensures panicked <==>
                !ignored(pod.namespace) && action != "delete" && !NoInvalidSelector(identities, pod, cluster)
      ensures panicked ==> fx == NOTHING
      ensures !panicked ==>
                PodEventDoes(fx, old(client.server.entries), pod, cluster, action, identities, manager.Connections(),
                             client.server.faults - old(client.server.faults))
      ensures client.server.entries == After(cfg, old(client.server.entries), fx)
    {
      hide Manager.Valid, Manager.Connections, MatchingIdentities, PodEventEntries, RenderedFor, OfPod, Victims,
           FlatMap, NoInvalidSelector, Keyed;
      panicked, fx := false, NOTHING;
      ghost var m := client.server.entries;
      MinusNothing(m);
      if ignored(pod.namespace) {
        return;
      }
      if action == "delete" {
        ghost var gone := DeleteEntriesForPod(pod);
        manager.Framed();
        fx := Effects([], [], gone);
        return;
      }
      var matching;
      panicked, matching := FindMatchingIdentities(identities, pod, cluster);
      if panicked {
        return;
      }
      if |matching| == 0 {
        NothingMatching(env, identities, pod, cluster);
        return;
      }
      if pod.phase != RUNNING || pod.deleting || pod.nodeName == "" {
        ghost var gone := DeleteEntriesForPod(pod);
        manager.Framed();
        fx := Effects([], [], gone);
        return;
      }
      var conn := manager.GetClusterConnection(cluster.name);
      if conn.None? {
        return;
      }
      var node := conn.value.nodes(pod.nodeName);
      if node.None? {
        return;
      }
      ghost var luck := ReconcileIdentities(pod, node.value, matching, cluster);
      manager.Framed();
      EntriesOfMatching(env, identities, pod, cluster, node.value);
      fx := Effects(PodEventEntries(env, identities, pod, cluster, node.value), luck, {});
      MinusNothing(Upserts(cfg, m, fx.written, luck));
    }

    method ReconcileIdentities(pod: Pod, node: Node, matching: seq<Identity>, cluster: Cluster)
      returns (ghost luck: seq<Luck>)
      requires client.server.Valid()
      modifies client.server
      ensures client.server.Valid() && client.server.faults >= old(client.server.faults)
      ensures Wrote(cfg, old(client.server.entries), client.server.entries,
                    FlatMap(matching, RenderedFor(env, cluster, pod, node)), luck,
                    client.server.faults - old(client.server.faults))
    {
      ghost var m, faults := client.server.entries, client.server.faults;
      ghost var entries := RenderedFor(env, cluster, pod, node);
      luck := [];
      WroteNothing(cfg, m);
      hide Wrote, RenderedFor;
      for i := 0 to |matching|
        invariant client.server.Valid() && client.server.faults >= faults
        invariant Wrote(cfg, m, client.server.entries, FlatMap(matching[..i], entries), luck,
            client.server.faults - faults)
      {
        FlatMapNext(matching, entries, i);
        ghost var m', faults' := client.server.entries, client.server.faults;
        ghost var more := ReconcilePodEntry(pod, node, matching[i], cluster);
        WroteMore(cfg, m, m', client.server.entries, FlatMap(matching[..i], entries), luck, entries(matching[i]), more,
                  faults' - faults, client.server.faults - faults');
        luck := luck + more;
      }
      assert matching[..|matching|] == matching;
    }

    /** What a pod event writes and deletes, in terms of what it reads. */
    ghost predicate PodEventDoes(
      fx: Effects, m: Entries, pod: Pod, cluster: Cluster, action: string, identities: seq<Identity>,
      conns: Connections, faults: int)
    {
      var sweep := Victims(m, OfPod(cfg.prefix, pod));
      && |fx.luck| == |fx.written|
      && if ignored(pod.namespace) then fx == NOTHING
         else if action == "delete" || (MatchingIdentities(identities, pod, cluster) != [] && !Live(pod)) then
           fx.written == [] && Swept(sweep, fx.gone, faults)
         else if cluster.name !in conns || conns[cluster.name].nodes(pod.nodeName).None? then fx == NOTHING
         else if !Live(pod) then fx == NOTHING
         else
           && fx.written == PodEventEntries(env, identities, pod, cluster,
               conns[cluster.name].nodes(pod.nodeName).value)
           && fx.gone == {}
           && Misses(fx.luck) <= faults
    }

    /** An identity event; `listed` and `listedAgain` are the two listings of the registries that it makes. */
    method ReconcileWorkloadIdentity(identity: Identity, deleted: bool, listed: seq<Cluster>, listedAgain: seq<Cluster>)
      returns (ghost fx: Effects)
      requires client.server.Valid() && manager.Valid() && client.server !in manager.Repr
      modifies client.server
      ensures client.server.Valid() && client.server.faults >= old(client.server.faults)
      ensures IdentityEventDoes(fx, old(client.server.entries), identity, deleted, listed, listedAgain,
                                manager.Connections(), client.server.faults - old(client.server.faults))
      ensures client.server.entries == After(cfg, old(client.server.entries), fx)
    {
      hide *;
      ghost var m, conns := client.server.entries, manager.Connections();
      ghost var luck, gone;
      if deleted {
        gone := DeleteEntriesForIdentity(identity);
        fx := Effects([], [], gone);
        IdentityDeleted(fx, m, identity, listed, listedAgain, conns, client.server.faults - old(client.server.faults));
        return;
      }
      var clusters := FindMatchingClusters(listed, identity);
      luck := ReconcileClusters(identity, clusters);
      ghost var written, faults := client.server.entries, client.server.faults;
      gone := CleanupOrphanedEntriesForIdentity(identity, listedAgain);
      fx := Effects(IdentityEventEntries(env, identity, listed, conns), luck, gone);
      IdentityReconciled(fx, m, written, identity, listed, listedAgain, conns,
                         faults - old(client.server.faults), client.server.faults - faults);
    }

    /** What an identity event writes and deletes, in terms of what it reads. */
    ghost predicate IdentityEventDoes(
      fx: Effects, m: Entries, identity: Identity, deleted: bool, listed: seq<Cluster>, listedAgain: seq<Cluster>,
      conns: Connections, faults: int)
    {
      && |fx.luck| == |fx.written|
      && fx.written == (if deleted then [] else IdentityEventEntries(env, identity, listed, conns))
      && var written := Upserts(cfg, m, fx.written, fx.luck);
         var sweep := if deleted then Victims(written, OfIdentity(identity))
                      else Victims(written, OrphanOfIdentity(identity,
                          UIDSet(ValidUIDs(identity, listedAgain, conns))));
         fx.gone <= sweep && Misses(fx.luck) + SweepMisses(sweep, fx.gone) <= faults
    }

    lemma IdentityDeleted(
      fx: Effects, m: Entries, identity: Identity, listed: seq<Cluster>, listedAgain: seq<Cluster>, conns: Connections,
      faults: int)
      requires fx.written == [] && fx.luck == []
      requires Swept(Victims(m, OfIdentity(identity)), fx.gone, faults)
      ensures IdentityEventDoes(fx, m, identity, true, listed, listedAgain, conns, faults)
      ensures After(cfg, m, fx) == m - fx.gone
    {
    }

    lemma IdentityReconciled(
      fx: Effects, m: Entries, written: Entries, identity: Identity, listed: seq<Cluster>, listedAgain: seq<Cluster>,
      conns: Connections, faults: int, faults': int)
      requires Wrote(cfg, m, written, FlatMap(MatchingClusters(listed, identity), EntriesIn(env, identity, conns)),
                     fx.luck, faults)
      requires fx.written == IdentityEventEntries(env, identity, listed, conns)
      requires
        var sweep := Victims(written, OrphanOfIdentity(identity, UIDSet(ValidUIDs(identity, listedAgain, conns))));
        Swept(sweep, fx.gone, faults')
      ensures IdentityEventDoes(fx, m, identity, false, listed, listedAgain, conns, faults + faults')
      ensures |fx.luck| == |fx.written| && After(cfg, m, fx) == written - fx.gone
    {
    }

    /** The body of the loop over the clusters. */
    method ReconcileInCluster(identity: Identity, cluster: Cluster) returns (ghost luck: seq<Luck>)
      requires client.server.Valid() && manager.Valid() && client.server !in manager.Repr
      modifies client.server
      ensures client.server.Valid() && client.server.faults >= old(client.server.faults)
      ensures Wrote(cfg, old(client.server.entries), client.server.entries,
                    EntriesIn(env, identity, old(manager.Connections()))(cluster), luck,
                    client.server.faults - old(client.server.faults))
      ensures manager.Valid() && manager.Connections() == old(manager.Connections())
    {
      hide Wrote, IdentityEntries, Manager.Valid, Manager.Connections;
      luck := [];
      WroteNothing(cfg, client.server.entries);
      var conn := manager.GetClusterConnection(cluster.name);
      if conn.None? {
        return;
      }
      luck := ReconcilePods(identity, cluster, conn.value);
      manager.Framed();
    }

    method ReconcileClusters(identity: Identity, clusters: seq<Cluster>) returns (ghost luck: seq<Luck>)
      requires client.server.Valid() && manager.Valid() && client.server !in manager.Repr
      modifies client.server
      ensures client.server.Valid() && client.server.faults >= old(client.server.faults)
      ensures Wrote(cfg, old(client.server.entries), client.server.entries,
                    FlatMap(clusters, EntriesIn(env, identity, old(manager.Connections()))), luck,
                    client.server.faults - old(client.server.faults))
      ensures manager.Valid() && manager.Connections() == old(manager.Connections())
    {
      ghost var m, faults, conns := client.server.entries, client.server.faults, manager.Connections();
      ghost var entries := EntriesIn(env, identity, conns);
      luck := [];
      WroteNothing(cfg, m);
      hide Wrote, EntriesIn, Manager.Valid, Manager.Connections;
      for i := 0 to |clusters|
        invariant client.server.Valid() && client.server.faults >= faults
        invariant Wrote(cfg, m, client.server.entries, FlatMap(clusters[..i], entries), luck,
            client.server.faults - faults)
        invariant manager.Valid() && manager.Connections() == conns
      {
        FlatMapNext(clusters, entries, i);
        ghost var m', faults' := client.server.entries, client.server.faults;
        ghost var more := ReconcileInCluster(identity, clusters[i]);
        WroteMore(cfg, m, m', client.server.entries, FlatMap(clusters[..i], entries), luck, entries(clusters[i]), more,
                  faults' - faults, client.server.faults - faults');
        luck := luck + more;
      }
      assert clusters[..|clusters|] == clusters;
    }

    /** A cluster event; `identities` and `relisted` are the two listings that it makes, and
        `answer` is what the cluster answers if it has to connect. `connected` tells whether it got as far as
        having a connection: exactly if there was one to the same target, or the attempt succeeds. */
    method ReconcileEKSCluster(
      cluster: Cluster, deleted: bool, identities: seq<Identity>, relisted: seq<Identity>, answer: Answer)
      returns (ghost connected: bool, ghost fx: Effects)
      requires client.server.Valid() && manager.Valid() && client.server !in manager.Repr
      modifies client.server, manager.Repr
      ensures client.server.Valid() && manager.Valid() && client.server.faults >= old(client.server.faults)
      ensures ClusterEventDoes(fx, old(client.server.entries), cluster, deleted, identities, relisted, connected,
                               manager.Connections(), client.server.faults - old(client.server.faults))
      ensures client.server.entries == After(cfg, old(client.server.entries), fx)
      ensures manager.Specs() == if deleted || !cluster.spec.enabled then old(manager.Specs()) - {cluster.name}
                                 else AddOrUpdated(old(manager.Specs()), cluster, answer)
      ensures connected <==>
                && !deleted && cluster.spec.enabled
                && (Reuses(old(manager.Specs()), cluster) || (answer.Reachable? && answer.synced))
    {
      ConnectsMeans(answer);
      ghost var m := client.server.entries;
      connected := false;
      hide *;
      if deleted || !cluster.spec.enabled {
        ghost var gone := DeleteEntriesForCluster(cluster);
        manager.Framed();
        manager.RemoveCluster(cluster.name);
        fx := Effects([], [], gone);
        ClusterDropped(fx, m, cluster, deleted, identities, relisted, connected, manager.Connections(),
                       client.server.faults - old(client.server.faults));
        return;
      }
      connected, fx := ReconcileEnabled(cluster, identities, relisted, answer);
    }

    /** A cluster event for an enabled registry. */
    method ReconcileEnabled(cluster: Cluster, identities: seq<Identity>, relisted: seq<Identity>, answer: Answer)
      returns (ghost connected: bool, ghost fx: Effects)
      requires client.server.Valid() && manager.Valid() && client.server !in manager.Repr
      requires cluster.spec.enabled
      modifies client.server, manager.Repr
      ensures client.server.Valid() && manager.Valid() && client.server.faults >= old(client.server.faults)
      ensures ClusterEventDoes(fx, old(client.server.entries), cluster, false, identities, relisted, connected,
                               manager.Connections(), client.server.faults - old(client.server.faults))
      ensures client.server.entries == After(cfg, old(client.server.entries), fx)
      ensures manager.Specs() == AddOrUpdated(old(manager.Specs()), cluster, answer)
      ensures connected <==> Reuses(old(manager.Specs()), cluster) || Connects(answer)
    {
      hide *;
      var conn := ConnectTo(cluster, answer);
      connected := conn.Some?;
      if conn.Some? {
        fx := ReconcileConnected(conn.value, cluster, identities, relisted);
      } else {
        fx := NOTHING;
        NothingDone(client.server.entries, cluster, identities, relisted, manager.Connections(), 0);
      }
    }

    /** AddOrUpdateCluster and GetClusterConnection: the connection, unless an error is reported. */
    method ConnectTo(cluster: Cluster, answer: Answer) returns (conn: Option<ClusterConnection>)
      requires manager.Valid() && cluster.spec.enabled
      modifies manager.Repr
      ensures manager.Valid() && fresh(manager.Repr - old(manager.Repr))
      ensures manager.Specs() == AddOrUpdated(old(manager.Specs()), cluster, answer)
      ensures conn.Some? ==> cluster.name in manager.clusters && manager.clusters[cluster.name] == conn.value
                             && conn.value.cluster == cluster
      ensures conn.Some? <==> Reuses(old(manager.Specs()), cluster) || Connects(answer)
    {
      hide *;
      ghost var specs := manager.Specs();
      var err := manager.AddOrUpdateCluster(cluster, answer);
      ConnectsMeans(answer);
      if err {
        return None;
      }
      AddedIsThere(specs, cluster, answer);
      manager.SpecsAt(cluster.name);
      conn := manager.GetClusterConnection(cluster.name);
    }

    /** The last part of a cluster event, once the cluster is connected. */
    method ReconcileConnected(
      conn: ClusterConnection, cluster: Cluster, identities: seq<Identity>, relisted: seq<Identity>)
      returns (ghost fx: Effects)
      requires client.server.Valid() && manager.Valid() && client.server !in manager.Repr
      requires cluster.name in manager.clusters && manager.clusters[cluster.name] == conn && conn.cluster == cluster
      requires cluster.spec.enabled
      modifies client.server
      ensures client.server.Valid() && client.server.faults >= old(client.server.faults)
      ensures ClusterEventDoes(fx, old(client.server.entries), cluster, false, identities, relisted, true,
                               manager.Connections(), client.server.faults - old(client.server.faults))
      ensures client.server.entries == After(cfg, old(client.server.entries), fx)
      ensures manager.Valid() && manager.Specs() == old(manager.Specs())
    {
      hide *;
      ghost var m, conns := client.server.entries, manager.Connections();
      ViewOfConnection(conn, cluster);
      ghost var luck := ReconcileTargeting(conn, cluster, identities);
      manager.Framed();
      ghost var written, faults := client.server.entries, client.server.faults;
      ghost var gone := CleanupOrphanedEntriesForCluster(cluster, relisted);
      manager.Framed();
      fx := Effects(FlatMap(identities, IfTargeted(env, conns[cluster.name])), luck, gone);
      ClusterReconciled(fx, m, written, cluster, identities, relisted, conns,
                        faults - old(client.server.faults), client.server.faults - faults);
    }

    lemma ViewOfConnection(conn: ClusterConnection, cluster: Cluster)
      requires manager.Valid()
      requires cluster.name in manager.clusters && manager.clusters[cluster.name] == conn && conn.cluster == cluster
      ensures
        var conns := manager.Connections();
        && cluster.name in conns
        && conns[cluster.name] == ConnView(cluster, conn.pods, conn.nodes) == ViewAs(conns, cluster)
    {
    }

    /** What a cluster event writes and deletes; nothing when there is no connection. */
    ghost predicate ClusterEventDoes(
      fx: Effects, m: Entries, cluster: Cluster, deleted: bool, identities: seq<Identity>, relisted: seq<Identity>,
      connected: bool, conns: Connections, faults: int)
    {
      && |fx.luck| == |fx.written|
      && if deleted || !cluster.spec.enabled then
           var sweep := Victims(m, OfCluster(cluster.name));
           fx.written == [] && Swept(sweep, fx.gone, faults)
         else if !connected then fx == NOTHING
         else
           && cluster.name in conns && conns[cluster.name].cluster == cluster
           && fx.written == FlatMap(identities, IfTargeted(env, conns[cluster.name]))
           && var uids := UIDSet(FlatMap(relisted, LiveUIDsFor(conns[cluster.name])));
              var sweep := Victims(Upserts(cfg, m, fx.written, fx.luck), OrphanOfCluster(cluster.name, uids));
              fx.gone <= sweep && Misses(fx.luck) + SweepMisses(sweep, fx.gone) <= faults
    }

    lemma NothingDone(
      m: Entries, cluster: Cluster, identities: seq<Identity>, relisted: seq<Identity>, conns: Connections, faults: int)
      ensures After(cfg, m, NOTHING) == m
      ensures cluster.spec.enabled ==>
          ClusterEventDoes(NOTHING, m, cluster, false, identities, relisted, false, conns, faults)
    {
    }

    lemma ClusterDropped(
      fx: Effects, m: Entries, cluster: Cluster, deleted: bool, identities: seq<Identity>, relisted: seq<Identity>,
      connected: bool, conns: Connections, faults: int)
      requires deleted || !cluster.spec.enabled
      requires fx.written == [] && fx.luck == []
      requires Swept(Victims(m, OfCluster(cluster.name)), fx.gone, faults)
      ensures ClusterEventDoes(fx, m, cluster, deleted, identities, relisted, connected, conns, faults)
      ensures After(cfg, m, fx) == m - fx.gone
    {
    }

    lemma ClusterReconciled(
      fx: Effects, m: Entries, written: Entries, cluster: Cluster, identities: seq<Identity>, relisted: seq<Identity>,
      conns: Connections, faults: int, faults': int)
      requires cluster.spec.enabled && cluster.name in conns && conns[cluster.name] == ViewAs(conns, cluster)
      requires Wrote(cfg, m, written, FlatMap(identities, IfTargeted(env, conns[cluster.name])), fx.luck, faults)
      requires fx.written == FlatMap(identities, IfTargeted(env, conns[cluster.name]))
      requires
        var uids := if cluster.name in conns then FlatMap(relisted, LiveUIDsFor(ViewAs(conns, cluster))) else [];
        var sweep := Victims(written, OrphanOfCluster(cluster.name, UIDSet(uids)));
        Swept(sweep, fx.gone, faults')
      ensures ClusterEventDoes(fx, m, cluster, false, identities, relisted, true, conns, faults + faults')
      ensures |fx.luck| == |fx.written| && After(cfg, m, fx) == written - fx.gone
    {
    }

    /** The body of the loop over the identities. */
    method ReconcileIfTargeted(conn: ClusterConnection, cluster: Cluster, identity: Identity)
      returns (ghost luck: seq<Luck>)
      requires client.server.Valid()
      modifies client.server
      ensures client.server.Valid() && client.server.faults >= old(client.server.faults)
      ensures Wrote(cfg, old(client.server.entries), client.server.entries,
                    IfTargeted(env, ConnView(cluster, conn.pods, conn.nodes))(identity), luck,
                    client.server.faults - old(client.server.faults))
    {
      luck := [];
      WroteNothing(cfg, client.server.entries);
      hide Wrote, IdentityEntries;
      if !Targets(identity, cluster) {
        return;
      }
      luck := ReconcilePods(identity, cluster, conn);
    }

    method ReconcileTargeting(conn: ClusterConnection, cluster: Cluster, identities: seq<Identity>)
      returns (ghost luck: seq<Luck>)
      requires client.server.Valid()
      modifies client.server
      ensures client.server.Valid() && client.server.faults >= old(client.server.faults)
      ensures Wrote(cfg, old(client.server.entries), client.server.entries,
                    FlatMap(identities, IfTargeted(env, ConnView(cluster, conn.pods, conn.nodes))), luck,
                    client.server.faults - old(client.server.faults))
    {
      ghost var m, faults := client.server.entries, client.server.faults;
      ghost var entries := IfTargeted(env, ConnView(cluster, conn.pods, conn.nodes));
      luck := [];
      WroteNothing(cfg, m);
      hide Wrote, IfTargeted;
      for i := 0 to |identities|
        invariant client.server.Valid() && client.server.faults >= faults
        invariant Wrote(cfg, m, client.server.entries, FlatMap(identities[..i], entries), luck,
            client.server.faults - faults)
      {
        FlatMapNext(identities, entries, i);
        ghost var m', faults' := client.server.entries, client.server.faults;
        ghost var more := ReconcileIfTargeted(conn, cluster, identities[i]);
        WroteMore(cfg, m, m', client.server.entries, FlatMap(identities[..i], entries), luck, entries(identities[i]),
                  more, faults' - faults, client.server.faults - faults');
        luck := luck + more;
      }
      assert identities[..|identities|] == identities;
    }
  }

  /** A registry that AddOrUpdateCluster accepted has its connection. */
  lemma AddedIsThere(m: Registries, c: Cluster, a: Answer)
    requires c.spec.enabled && (Connects(a) || Reuses(m, c))
    ensures c.name in AddOrUpdated(m, c, a) && AddOrUpdated(m, c, a)[c.name] == c
  {
  }

  lemma EntriesOfMatching(env: Env, identities: seq<Identity>, pod: Pod, cluster: Cluster, node: Node)
    ensures PodEventEntries(env, identities, pod, cluster, node) ==
            FlatMap(MatchingIdentities(identities, pod, cluster), RenderedFor(env, cluster, pod, node))
  {
  }

  lemma NothingMatching(env: Env, identities: seq<Identity>, pod: Pod, cluster: Cluster)
    requires MatchingIdentities(identities, pod, cluster) == []
    ensures forall node :: PodEventEntries(env, identities, pod, cluster, node) == []
  {
  }

  lemma UIDsAtStart(identity: Identity, listed: seq<Cluster>, conns: Connections)
    ensures
      var clusters, uidsIn := MatchingClusters(listed, identity), LiveUIDsIn(identity, conns);
      && UIDSet(FlatMap(clusters[..0], uidsIn)) == {}
      && FlatMap(clusters, uidsIn) == ValidUIDs(identity, listed, conns)
  {
  }

  lemma UIDSetAppend(a: seq<string>, b: seq<string>)
    ensures UIDSet(a + b) == UIDSet(a) + UIDSet(b)
    ensures b == [] ==> UIDSet(b) == {}
  {
  }

  lemma UpsertsNone<A>(cfg: Config, m: Entries, none: seq<A>, f: A -> seq<Entry>)
    requires none == []
    ensures FlatMap(none, f) == [] && Upserts(cfg, m, [], []) == m
  {
  }

  lemma UpsertsNext(cfg: Config, m: Entries, es: seq<Entry>, luck: seq<Luck>, e: Entry, l: Luck)
    requires |luck| == |es|
    ensures Upserts(cfg, m, es + [e], luck + [l]) == Upsert(Upserts(cfg, m, es, luck), Address(cfg, e), l)
  {
  }

  lemma FoundInListing(entries: seq<Entry>, m: Entries, id: string)
    requires Lists(entries, m) && Keyed(m)
    ensures id in m <==> exists e | e in entries :: e.id == id
    ensures forall e | e in entries && e.id == id :: id in m && m[id] == e
  {
  }

  lemma UpdateExisting(m: Entries, e: Entry)
    requires e.id in m
    ensures Effect(m, Update(e)) == m[e.id := e]
  {
  }

  lemma ValidIsKeyed(server: Server)
    requires server.Valid()
    ensures Keyed(server.entries)
  {
  }
}
