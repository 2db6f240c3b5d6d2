# Verified model of the SPIRE EKS workload registrar

The registrar keeps the registration entries of a SPIRE server equal to the set that it derives from
EKS clusters, `WorkloadIdentity` resources and running pods. This project models in Dafny how it does so,
and proves when it succeeds. `dafny verify dfyconfig.toml` checks everything.

The four parts and the main results about each:

1. **The full pass** (`State`, `Convergence`, `Progress`, `Declaration`, `FullPass`, `WorldTheorems`). A pass
   connects to the listed clusters, lists the entries, renders the declared entries, diffs the two and replays
   the difference as deletes, creates and updates on a server that refuses a second entry with the same SPIFFE ID,
   parent ID and selectors. The passes are methods that change a server object call by call; each call may fail,
   before or after the server carried it out, and every iteration order of a Go map is allowed. `OnePassExact` says
   exactly when one failure-free pass reaches the declared state; `Converges` and `FullPassAchieves` give the usual
   sufficient condition; `RepeatedPassesConverge` bounds the number of passes when calls keep failing.
2. **The fast path** (`FastPath`, `Controllers`, `FastPathTheorems`, `PodUpdates`, `IdentityEvents`, `IdentityUpdates`,
   `ClusterEvents`, `Interleaving`). Pod, identity and cluster events edit the server directly. They agree with the full
   pass in a frozen world. They take the server from one declared state to the next when a pod, an identity or a cluster
   comes and when a pod goes. What a change of a pod, an identity or a registry leaves behind, and that nothing is done
   when an identity or a registry has gone, is said exactly (`PodUpdatedExact`, `IdentityUpdatedExact`,
   `ClusterUpdatedExact`, `GoneIdentityLeavesEntries`, `GoneClusterLeavesEntries`). Any interleaving of events with passes
   and sweeps is absorbed by the next uninterrupted pass (`QuiescenceConverges`).
3. **Ownership hints** (`Rendering`, `Hints`, `Deletion`). What is printed into the hint of an entry is recovered
   by three different searches; each is characterised exactly, and so is what the deletion controller removes.
4. **Connections and batches** (`ClusterManager`, `SpireClient`, `SpireApi`). Stop channels are closed at most once
   and never leaked; paging lists every entry once; batched deletion equals one-by-one deletion.

`Text`, `Sorting`, `Sequences`, `Store` and `Spiffe` hold what these share. `EntryKey` models the entry key and the
comparison of entries, `ByObject` the comparison of resources.

## How the model is built

- Where the Go code updates fields or slices in loops, there is a class or a method with the same loop; its `ensures`
  ties the new state to a specification function, and the theorems are about these functions.
- The server is a map from ID to entry. `Store.Effect` is what a call does, `Store.Run` a sequence of calls of which
  any subset is carried out, `Convergence.Pass` the replay of a plan.
- Templates, label selectors, SHA-256 with hexadecimal encoding, the ignored-namespace expressions, node lookup and
  the contents of the pod informers are parameters: arbitrary functions and values. Collision-freedom of the hash is
  assumed only where a lemma says so (`Unambiguous`, `Faithful`).
- What befalls a request is up to the environment and fixed from the start: for each request to the server a `Fate` says
  whether it is answered with an error and which of its calls are lost, and for each request to Kubernetes whether it
  fails. What a cluster answers when it is connected is the parameter `Answer`. Contracts say exactly which calls of a
  pass are carried out, that an error is returned exactly when a request fails, and that an event misses no more listings,
  writes and deletions than there were faulty requests: a failure concerns its own entry only (`FailuresStayApart`,
  `FaultsCostAtMost`).
- A specification function is characterised by a lemma or a contract that does not use it: what an entry holds field by
  field (`RenderedMeans`), what is hashed piece by piece (`PreimageHasPieces`), for which hints each search succeeds
  (`BelongsToClusterMeans`, `ClusterOwnsMeans`), what makes a pod eligible (`RendersMeans`).

## Where the code departs from its documentation or its apparent intent

The model follows the code. Each departure has a lemma or a contract that says exactly when it shows.

- The example in the documentation adds `k8s:ns:…` selectors. Next to the mandatory pod-uid selector an entry then has
  two values under the type `k8s`, `entriesEqual` finds it different from itself, and every pass updates it again
  (`EqualExact`, `PlanAfterConvergence`, `SecondK8sSelector`).
- With duplicated declared selectors `entriesEqual` accepts entries that differ, unless they have two values under one
  type, when it accepts none (`EqualSoundExactly`, `EqualUnsoundWithDuplicates`).
- The key is written without separators, so it determines the SPIFFE ID but not the parent ID and the selectors; entries
  with equal preimages are similar exactly when their field boundaries are in the same places (`PreimageFixesSpiffeID`,
  `PreimageExact`, `PreimageIsAmbiguous`).
- The targeted reconciler never recognises the entries of a cluster by their default hints: the event of a deleted or
  disabled cluster deletes nothing (`ClusterSweepMissesDefaultHints`, `DroppedClusterLeavesEntries`).
- When an identity or a registry has gone, its controller cannot fetch it any more and passes an object without a name to
  the targeted reconciler. That finds no default-hinted entry and no connection: the entries stay, and so does the
  connection with its stop channel, until the next full pass (`GoneIdentityLeavesEntries`, `GoneClusterLeavesEntries`,
  `EKSClusterRegistryReconciler.Reconcile`). Entries of a resource with the finalizer are removed by the deletion
  controller before.
- The identity event of a changed identity leaves the entries rendered from its old templates for pods that are still
  selected and live; the cluster event of a changed registry leaves all old entries (`IdentityUpdatedExact`,
  `ClusterUpdatedExact`).
- Deleting an identity in the deletion controller also deletes the entries of identities whose names go on after its own (`OwnerRoundTrip`,
  `IdentityDeletionExact`).
- An identity with a hint of its own never recognises its entries in the targeted reconciler (`CustomHintNeverFound`).
- Failed statuses of the batch deletion are only logged, so the finalizer can go while entries remain
  (`FinalizerExact`).
- Identity and cluster events do not look at ignored namespaces (`IgnoredNamespace`, `ClusterEventExact`).
- Identity events list the clusters twice and ignore errors. A second listing that misses a cluster deletes what was just
  written for it, and one that fails deletes all entries of the identity (`SecondListingExact`,
  `IdentityEventKeepsConverged`, `FailedListingDeletesAll`).
- The update event of a pod that no identity selects any more, or that other identities select now, leaves the entries of
  the pod as it was (`PodUpdatedExact`).
- A pod event dereferences a nil selector, before any call to the server, when an identity of the pod's namespace that
  targets the cluster has a pod selector that is rejected. The exact guard is `NoInvalidSelector`; the other paths treat
  such a selector as one that matches nothing (`FindMatchingIdentities`, `ReconcileSinglePod`).
- A pod event takes an absent pod selector for one that matches everything; the full pass takes it for one that
  matches nothing, so an event that writes for one breaks a converged server (`PodEventWrites`, `PodEventExact`).
- The subtractions in `objectCmp` wrap around for times more than 2^63 nanoseconds apart (`ObjectCmpExact`, `Circle`).

## Model

| member | source | states |
|---|---|---|
| Text.LessMeans | internal/spireentry/entries.go:281-286 | the order of Go strings: a proper prefix comes first, otherwise the first position at which they differ decides |
| Text.ContainsMeans | internal/controller/deletion_controller.go:109-128 | strings.Contains finds exactly what stands between some front and some rest |
| Sorting.SortSlice | internal/spireentry/entries.go:277-290 | sorting in place leaves exactly the sorted permutation of the slice |
| Sorting.SortSorts | internal/spireentry/entries.go:277-290 | for a strict total order the result is sorted and has the same elements with the same multiplicities |
| Sorting.SortedUnique | internal/spireentry/entries.go:277-290 | there is only one sorted permutation, so the library's algorithm does not matter |
| Spiffe.FromStringRoundTrip | pkg/spireapi/client.go:538-552 | printing a SPIFFE ID and parsing it gives the same ID |
| Spiffe.FromStringMeans | internal/spireentry/entries.go:77-89 | FromString accepts exactly the printed IDs |
| Spiffe.TrustDomainMeans | internal/spireentry/entries.go:129-136 | TrustDomainFromString accepts exactly the names of trust domains and the printed IDs, and gives the trust domain of either |
| Spiffe.OneColon | internal/spireentry/entries.go:264-268 | a printed ID has one colon, the one of its scheme |
| SpireApi.ToAPIEntry | pkg/spireapi/client.go:503-536 | every field of the message is the field of the entry, trust domains by name and in order |
| SpireApi.FromAPIEntry | pkg/spireapi/client.go:538-581 | every field of the entry is that of the message, IDs printing to its parts and trust domains denoted by its names in order; it fails exactly when an ID is none or a name denotes no trust domain |
| SpireApi.WireRoundTrip | pkg/spireapi/client.go:503-581 | converting an entry to a message and back gives the same entry and never fails |
| SpireApi.WireInjective | pkg/spireapi/client.go:503-536 | different entries look different on the wire |
| EntryKey.SortSelectors | internal/spireentry/entries.go:277-290 | a permutation of the selectors in which types do not decrease, and values not within a type |
| EntryKey.SortSelectorsUnique | internal/spireentry/entries.go:277-290 | a list is a permutation of the selectors in that order if and only if it is what sortSelectors returns |
| EntryKey.MakeEntryKey | internal/spireentry/entries.go:264-274 | the hash of the SPIFFE ID, the parent ID, and type and value of each selector in the order of types and values, one after the other |
| EntryKey.PreimageHasPieces | internal/spireentry/entries.go:264-274 | the preimage used by the theorems below is that sequence of pieces |
| EntryKey.SimilarSameKey | internal/spireentry/entries.go:264-290 | entries with the same IDs and selector multiset get the same key, for every hash |
| EntryKey.PreimageFixesSpiffeID | internal/spireentry/entries.go:264-273 | entries with equal preimages have equal SPIFFE IDs although no separators are written |
| EntryKey.PreimageIsAmbiguous | internal/spireentry/entries.go:264-273 | two entries with different parent IDs and the same key, for every hash |
| EntryKey.PreimageExact | internal/spireentry/entries.go:264-273 | entries with equal preimages are similar if and only if their parent IDs and, position by position, their sorted selectors have the same lengths |
| EntryKey.StringsMatch | internal/spireentry/entries.go:351-370 | true if and only if the lists are equal as multisets |
| EntryKey.TrustDomainsMatch | internal/spireentry/entries.go:325-348 | true if and only if the lists of trust domains are equal as multisets |
| EntryKey.GetOutdatedEntryFields | internal/spireentry/entries.go:298-322 | names exactly the fields that differ; empty if and only if all seven attributes agree up to list order |
| State.EqualSound | internal/spireentry/state.go:85-120 | a true result of entriesEqual with duplicate-free declared selectors means equal IDs, selector multisets and attributes |
| State.LastValuesMeans | internal/spireentry/state.go:99-104 | the map that entriesEqual compares with has, for each type, the value of the last selector of the type |
| State.EqualIffSingleValued | internal/spireentry/state.go:99-109 | on entries that agree it is true exactly when no selector type has two values |
| State.EqualExact | internal/spireentry/state.go:85-120 | against duplicate-free selectors it is true exactly when the entries agree and no type has two values |
| State.EqualSoundExactly | internal/spireentry/state.go:85-120 | every true result against a declared entry means agreement if and only if its selectors have no duplicates, or two values under one type so that no result is true |
| State.EqualUnsoundWithDuplicates | internal/spireentry/state.go:99-109 | with a duplicated declared selector, entries with different selectors pass as equal |
| State.EntriesState.AddCurrent | internal/spireentry/state.go:38-41 | the entry is held under its ID, everything else is unchanged |
| State.EntriesState.AddDeclared | internal/spireentry/state.go:43-56 | the entry is held under the prefix and the key of its content |
| State.AddressMeans | internal/spireentry/state.go:43-56 | that ID is the prefix followed by the hash of the pieces of the key, and nothing else of the entry changes |
| State.EntriesState.GetChanges | internal/spireentry/state.go:58-83 | in any iteration order the three lists hold exactly the missing, the differing and the undeclared entries, each once |
| State.EntriesState.EntriesEqual | internal/spireentry/state.go:85-120 | the loops over the map of last values decide the equality that the lemmas above characterise |
| SpireClient.Client.ListEntries | pkg/spireapi/client.go:131-173 | following the page tokens gives every entry of the server exactly once; it is an error, without entries, exactly when a page request fails, and that request is the last one |
| SpireClient.Client.CreateEntry | pkg/spireapi/client.go:175-225 | exactly when it is an error: the request fails, its call is lost, or the status is neither OK nor that a similar entry exists |
| SpireClient.Client.UpdateEntry | pkg/spireapi/client.go:227-265 | exactly when it is an error: the request fails, its call is lost, or the entry does not exist; what it leaves |
| SpireClient.Client.DeleteEntry | pkg/spireapi/client.go:267-289 | the same for a deletion |
| SpireClient.RunBatch | pkg/spireapi/client.go:109-125 | terminates for any batch value; one request for each range passed, which are all of them in order when no request fails, and otherwise a prefix that ends with the first one that failed |
| SpireClient.RangesPartition | pkg/spireapi/client.go:109-125 | the ranges are consecutive, disjoint, not empty, no longer than a batch and cover everything |
| SpireClient.DeleteBatch.Call | pkg/spireapi/client.go:437-482 | one batch extends the sequential deletion by its IDs, and the statuses in the same order; its lost calls are those of its request |
| SpireClient.Client.BatchDeleteEntries | pkg/spireapi/client.go:429-492 | server and ordered statuses equal those of one-by-one deletion; it is an error exactly when a request fails, which then is the last one; an error that applies nothing of its batch leaves exactly the earlier batches applied |
| Convergence.PassClosedForm | internal/controller/main_reconciler.go:294-346 | what the calls of a pass leave, whichever are carried out: creates are decided on the server after the deletes |
| Convergence.PassAt | internal/controller/main_reconciler.go:294-346 | the same for each ID, case by case |
| Convergence.AddressedNonSimilar | internal/spireentry/entries.go:264-290 | declared entries with distinct IDs are never similar |
| Convergence.OrderIrrelevant | internal/spireentry/state.go:61-79 | two plans for the same diff leave the same server |
| Convergence.OnePassExact | internal/controller/main_reconciler.go:294-346 | a failure-free pass reaches the declared state if and only if no missing entry is similar to one that stays; unmanaged entries are untouched |
| Convergence.Converges | internal/controller/main_reconciler.go:294-346 | it does if kept entries have the IDs of their content and no unmanaged entry resembles a declared one |
| Convergence.TwoPassesConverge | internal/controller/main_reconciler.go:294-346 | without content-addressing two passes do |
| Convergence.PlanAfterConvergence | internal/spireentry/state.go:58-83 | after convergence a diff has no creates and no deletes, and updates exactly the entries with two values under one selector type |
| Convergence.PassAfterConvergence | internal/controller/main_reconciler.go:294-346 | and applying any of these updates keeps the server converged |
| Progress.UnchangedOrSynced | internal/controller/main_reconciler.go:301-346 | whatever fails, each managed ID is afterwards unchanged, or in sync if its call was carried out |
| Progress.PassRepairs | internal/controller/main_reconciler.go:301-346 | the out-of-sync IDs after a pass are those before it minus those whose call was carried out |
| Progress.PlanCoversOutOfSync | internal/spireentry/state.go:58-83 | the plan has a call for each out-of-sync ID |
| Progress.PassKeepsOrderly | internal/controller/main_reconciler.go:301-346 | a pass with failures keeps managed entries under the IDs of their content and unmanaged entries unchanged |
| Progress.RepeatedPassesShrink | internal/controller/main_reconciler.go:301-346 | over any history of passes the out-of-sync IDs only shrink, by one or more in each pass that achieves something |
| Progress.RepeatedPassesConverge | internal/controller/main_reconciler.go:301-346 | as many such passes as there were out-of-sync IDs reach the declared state |
| Rendering.RenderEntry | internal/spireentry/entries.go:37-159 | each field of the entry in terms of the identity, its templates on the data of the pod, and the pod; none exactly when a template fails, an ID does not parse or a trust domain is none |
| Rendering.RenderedMeans | internal/spireentry/entries.go:37-159 | the same for the function that the theorems use: data, IDs, selectors, DNS names, trust domains, attributes and hint field by field, and exactly when there is no entry |
| Rendering.LastPartIsLast | internal/spireentry/entries.go:244-251 | the instance ID is what follows the last slash of the provider ID |
| Rendering.Rendered | internal/spireentry/entries.go:91-145 | every rendered entry has the pod-uid selector of its pod and the hint of its identity and cluster |
| Rendering.RenderSelectors | internal/spireentry/entries.go:91-113 | the pod UID, then in order the type and the value of each rendered text with a colon, split at its first one; nothing exactly when a template fails |
| Rendering.RenderDNSNames | internal/spireentry/entries.go:115-127 | the rendered text of each template at its position, or nothing exactly when one fails |
| Rendering.ParseFederatesWith | internal/spireentry/entries.go:129-136 | the trust domain that each name denotes, in order, or nothing exactly when one denotes none |
| Rendering.RenderHint | internal/spireentry/entries.go:138-145 | the default hint, or the identity's own hint, each followed by the owner |
| Hints.ClusterRoundTrip | internal/controller/deletion_controller.go:104-123 | the cluster search accepts a default hint if and only if it was printed for that cluster, for every identity |
| Hints.OwnerFound | internal/controller/deletion_controller.go:124-133 | the owner search finds every entry rendered for the identity, with a default hint or its own |
| Hints.OwnerRoundTrip | internal/controller/deletion_controller.go:124-133 | it accepts a default hint of another identity exactly when the searched name is a prefix of that identity's |
| Hints.OwnerIffPrefix | internal/controller/deletion_controller.go:124-133 | the same behind any hint without a slash |
| Hints.TargetedRoundTrip | internal/controller/targeted_reconciler.go:450-456 | the targeted test of an identity accepts a default hint if and only if it was printed for that identity |
| Hints.CustomHintNeverFound | internal/controller/targeted_reconciler.go:450-456 | with a hint of its own it accepts none of the identity's entries |
| Hints.ClusterSweepMissesDefaultHints | internal/controller/targeted_reconciler.go:459-471 | the targeted test of a cluster accepts no default hint |
| Hints.BelongsToClusterMeans | internal/controller/targeted_reconciler.go:459-471 | for every hint, the targeted test of a cluster succeeds exactly when behind seventeen characters and one field the name follows, up to the next colon or the end |
| Hints.BelongsToClusterNamed | internal/controller/targeted_reconciler.go:242-260 | so such a hint belongs to that cluster and to no other, with or without more fields behind |
| Hints.BelongsToNoCluster | internal/controller/targeted_reconciler.go:459-471 | a hint of at most seventeen characters, or without a colon behind them, belongs to no cluster |
| Hints.ClusterOwnsMeans | internal/controller/deletion_controller.go:104-123 | for every hint, the search of the deletion controller for a cluster succeeds exactly when behind the prefix and one field the name follows, up to the next colon or semicolon or the end |
| Hints.BelongsToIdentityMeans | internal/controller/targeted_reconciler.go:450-456 | for every hint, the targeted test of an identity succeeds exactly when its key stands somewhere in it, or it is the hint of its own |
| Hints.IdentityOwnsMeans | internal/controller/deletion_controller.go:124-133 | for every hint, the search for an identity succeeds exactly when the owner stands somewhere in it |
| ClusterManager.Manager.AddOrUpdateCluster | internal/cluster/manager.go:67-115 | a connection to the same target stays and reads what it read; otherwise an enabled registry that answers is connected and reads what it answered, and any other has no connection; an error exactly when such an enabled registry does not answer or does not sync; open stop channels stay exactly those of the map; none is closed twice |
| ClusterManager.Manager.Reconnect | internal/cluster/manager.go:82-115 | the case without a connection to the same target, with the same exact outcome for each answer |
| ClusterManager.Manager.Connect | internal/cluster/manager.go:95-114 | a cluster that answers gets a connection that reads what it answered, even if its cache does not sync; an error exactly when it does not answer or does not sync |
| ClusterManager.Manager.CreateClusterConnection | internal/cluster/manager.go:178-195 | a connection exactly for a cluster that answers, with a new open stop channel |
| ClusterManager.Manager.RemoveCluster | internal/cluster/manager.go:117-130 | closes the channel of that connection and of no other, and removes the connection |
| ClusterManager.Manager.GetClusterConnection | internal/cluster/manager.go:132-138 | finds a connection exactly when one can be read under the name; it belongs to that cluster and has not been stopped |
| ClusterManager.Manager.GetAllConnections | internal/cluster/manager.go:140-151 | every connection once, in any order |
| ClusterManager.Manager.StopClusterConnection | internal/cluster/manager.go:278-280 | requires an open channel and closes it |
| ClusterManager.Manager.Shutdown | internal/cluster/manager.go:282-290 | every channel ever made is closed, each once, and no connection is left |
| Declaration.AllEntriesMembers | internal/controller/main_reconciler.go:155-256 | the full pass renders an entry if and only if a live pod of a connected, targeted cluster asks for it through an identity of a namespace that is not ignored |
| Declaration.RendersMeans | internal/controller/main_reconciler.go:155-292 | what that takes in full: both selectors valid, an absent cluster selector targeting all and an absent pod selector matching none, namespace, phase, no deletion, node |
| Declaration.DeclareMembers | internal/spireentry/state.go:43-56 | declared entries are rendered entries under the IDs of their content; every rendered ID is declared |
| FullPass.ConnectionPhaseExact | internal/controller/main_reconciler.go:78-100 | afterwards there are connections exactly for the enabled listed registries that answer or had one to the same EKS cluster, region and role, each with the listed registry |
| FullPass.MainReconciler.UpdateConnections | internal/controller/main_reconciler.go:78-100 | the connection phase computes that map for whatever the clusters answer |
| FullPass.MainReconciler.DropOthers | internal/controller/main_reconciler.go:88-100 | removes the connections of registries that are not listed as enabled |
| FullPass.MainReconciler.ReconcileAll | internal/controller/main_reconciler.go:65-153 | a pass aborts without touching the server, only when a listing fails, or replays a plan for the managed entries and the declared entries of the world it saw; each call of the plan is made, and carried out unless its own request loses it |
| FullPass.MainReconciler.ReconcileEntries | internal/controller/main_reconciler.go:102-146 | the part of a pass after the connection phase |
| FullPass.MainReconciler.AddManaged | internal/controller/main_reconciler.go:122-134 | exactly the entries whose ID has the prefix become current entries |
| FullPass.MainReconciler.ProcessClusters | internal/controller/main_reconciler.go:136-142 | the declared entries are those of the world seen through the connections |
| FullPass.MainReconciler.ProcessCluster | internal/controller/main_reconciler.go:155-177 | declares the entries of all identities that target the cluster |
| FullPass.MainReconciler.ProcessWorkloadIdentity | internal/controller/main_reconciler.go:179-256 | declares the entry of each live matching pod that renders, nothing for an ignored namespace |
| FullPass.MainReconciler.GetPodsFromInformer | internal/controller/main_reconciler.go:258-292 | exactly the pods of the namespace that the selector matches, in order, none for an absent one; an error exactly for an invalid one |
| FullPass.MainReconciler.ApplyEntryChanges | internal/controller/main_reconciler.go:294-362 | the server is what replaying the plan leaves; one request for each call, deletes before creates before updates, each carried out unless its own request loses it; no counted error means that every call was |
| FullPass.MainReconciler.ApplyDeletes | internal/controller/main_reconciler.go:303-315 | one request for each delete, carried out unless that request loses it, whatever becomes of the others |
| FullPass.MainReconciler.ApplyCreates | internal/controller/main_reconciler.go:317-330 | the same for the creates |
| FullPass.MainReconciler.ApplyUpdates | internal/controller/main_reconciler.go:332-345 | the same for the updates |
| WorldTheorems.ConvergedIffHolds | internal/controller/main_reconciler.go:65-153 | convergence means that every rendered entry is in place and every managed entry is one of them |
| WorldTheorems.FullPassAchieves | internal/controller/main_reconciler.go:65-153 | a failure-free pass puts the entry of every eligible pod in place, and every managed entry left belongs to such a pod |
| WorldTheorems.SecondK8sSelector | internal/spireentry/state.go:99-109 | an entry with a further selector of type k8s is updated by every pass |
| FastPath.TargetedReconciler.ReconcilePodEntry | internal/controller/targeted_reconciler.go:168-203 | writes the rendered entry under the ID of its content; nothing if it does not render |
| FastPath.TargetedReconciler.UpsertEntry | internal/controller/targeted_reconciler.go:188-202 | creates the entry if the listing fails or lacks its ID, updates it if an attribute differs, and otherwise makes no call; what the server holds in each case; no more failed than there were faults |
| FastPath.TargetedReconciler.DeleteEntriesForPod | internal/controller/targeted_reconciler.go:206-225 | deletes only managed entries with the UID of the pod, and misses no more of them than there were faults, unless the listing failed |
| FastPath.TargetedReconciler.DeleteEntriesForIdentity | internal/controller/targeted_reconciler.go:228-239 | the same for the entries that belong to the identity, managed or not |
| FastPath.TargetedReconciler.DeleteEntriesForCluster | internal/controller/targeted_reconciler.go:242-260 | the same for the entries that the test takes for those of the cluster |
| FastPath.TargetedReconciler.FindMatchingIdentities | internal/controller/targeted_reconciler.go:263-292 | exactly the identities of the pod's namespace whose cluster and pod selectors are absent or match; panics exactly when one of those that target the cluster has a rejected pod selector |
| FastPath.TargetedReconciler.FindMatchingClusters | internal/controller/targeted_reconciler.go:295-306 | exactly the enabled registries that the cluster selector matches, all of them if it is absent |
| FastPath.TargetedReconciler.GetMatchingPods | internal/controller/targeted_reconciler.go:323-352 | exactly the pods of the namespace that the selector matches; none for an absent or invalid one |
| FastPath.TargetedReconciler.CleanupOrphanedEntriesForIdentity | internal/controller/targeted_reconciler.go:355-400 | deletes only entries of the identity without the UID of a live selected pod, and misses no more of them than there were faults, unless the listing failed |
| FastPath.TargetedReconciler.CleanupOrphanedEntriesForCluster | internal/controller/targeted_reconciler.go:403-447 | the same for a cluster |
| FastPath.TargetedReconciler.FindValidPod | internal/controller/targeted_reconciler.go:432-442 | whether some selector carries the UID of a valid pod |
| FastPath.TargetedReconciler.ReconcileSinglePod | internal/controller/targeted_reconciler.go:36-77 | what a pod event writes and deletes, branch by branch; when it panics it has made no call |
| FastPath.TargetedReconciler.ReconcileWorkloadIdentity | internal/controller/targeted_reconciler.go:80-118 | writes the entries of all pods of the identity, then deletes its orphans; for a deletion, deletes what belongs to it |
| FastPath.TargetedReconciler.ReconcileEKSCluster | internal/controller/targeted_reconciler.go:121-165 | the same for a cluster, after adding or removing its connection; it goes on exactly when there was a connection to the same target or the cluster answers and syncs, and otherwise writes nothing; the registries behind the connections afterwards |
| FastPathTheorems.UpsertsLand | internal/controller/targeted_reconciler.go:168-203 | written without faults, entries with different keys are all up to date afterwards and nothing else changes |
| FastPathTheorems.FailuresStayApart | internal/controller/targeted_reconciler.go:168-203 | whatever fails, each entry for which nothing failed is up to date afterwards, each other one is left alone or written, and nothing else changes |
| FastPathTheorems.FaultsCostAtMost | internal/controller/targeted_reconciler.go:98-115 | no more of the entries that an event writes are out of date afterwards than there were faulty requests |
| FastPathTheorems.PodEventWrites | internal/controller/targeted_reconciler.go:263-292 | a pod event writes what the full pass renders for the pod, and the entries of identities without a pod selector |
| FastPathTheorems.PodEventKeepsConverged | internal/controller/targeted_reconciler.go:36-77 | in a frozen world an add or update event that writes nothing for absent pod selectors leaves a converged server as it is, whatever fails |
| PodUpdates.PodEventExact | internal/controller/targeted_reconciler.go:263-292 | without faults such an event keeps a converged server converged exactly when it writes nothing for an identity without a pod selector |
| FastPathTheorems.PodAddedConverges | internal/controller/targeted_reconciler.go:36-77 | the event of a new pod takes the server from the state declared without the pod to the one declared with it |
| FastPathTheorems.PodDeletedConverges | internal/controller/targeted_reconciler.go:206-225 | its delete event takes it back |
| FastPathTheorems.WritingOver | internal/controller/targeted_reconciler.go:168-203 | writing replaces what has the same ID: the server then holds what is wanted exactly when every ID held before is still wanted |
| PodUpdates.PodUpdatedExact | internal/controller/targeted_reconciler.go:36-77 | after the update event of a changed pod the server is in the state declared after the change exactly when the event sweeps the pod or every entry of the pod as it was is replaced |
| IdentityEvents.FaithfulExactly | internal/spireentry/entries.go:264-274 | without hash collisions, stored and rendered entries under one ID are similar exactly when their field boundaries agree |
| IdentityEvents.KeptIffLivePod | internal/controller/targeted_reconciler.go:361-399 | the cleanup keeps an entry exactly when it carries the UID of a live pod that the identity selects in a connected enabled cluster |
| IdentityEvents.IdentityEventAchieves | internal/controller/targeted_reconciler.go:80-118 | on any orderly server, without faults: every eligible pod has its entry in place, every remaining entry of the identity has a live pod, cleanup removes nothing just written, the rest is untouched |
| IdentityEvents.IdentityEventOwnEntries | internal/controller/targeted_reconciler.go:355-400 | for default hints: the identity's entries are those with its name, and those of others are left alone |
| IdentityEvents.SecondListingExact | internal/controller/targeted_reconciler.go:93-117 | whatever the second listing of the clusters returns, what was written stays exactly when that listing still shows a live pod for each written entry of the identity |
| IdentityEvents.FailedListingDeletesAll | internal/controller/targeted_reconciler.go:295-306 | if it fails, every entry of the identity is deleted |
| IdentityEvents.SettledAfterConnecting | internal/controller/main_reconciler.go:78-100 | after the connection phase the connections hold the listed registries |
| IdentityEvents.IdentityEventKeepsConverged | internal/controller/targeted_reconciler.go:80-118 | in a frozen world, with any two listings of the registries, an identity event leaves a converged server as it is, whatever calls to the server fail, if the second listing backs the identity's entries; without faults the server stays converged only then |
| IdentityEvents.SettledBacks | internal/controller/targeted_reconciler.go:355-379 | a second listing that shows the connected registries backs them |
| IdentityEvents.IdentityAddedConverges | internal/controller/targeted_reconciler.go:80-118 | the event of a new identity takes the server from the state declared without it to the one declared with it |
| IdentityEvents.IdentityDeletedConverges | internal/controller/targeted_reconciler.go:228-239 | a deletion event for the identity itself would take it back; the controller never sends one, see the next rows |
| IdentityEvents.NamelessDeletionLeavesEntries | internal/controller/targeted_reconciler.go:228-239 | a deletion event for an identity without a name deletes nothing, whatever fails, and reaches the state declared without the identity that has gone exactly when no entry is rendered for that one |
| Controllers.WorkloadIdentityReconciler.Reconcile | internal/controller/workloadidentity_controller.go:23-54 | a fetched identity gives its event, one that is not found the deletion event of a nameless one, one being deleted none |
| Controllers.EKSClusterRegistryReconciler.Reconcile | internal/controller/eksclusterregistry_controller.go:22-53 | the same for registries, with exactly when it connects; when one is not found, all connections stay |
| Controllers.GoneIdentityLeavesEntries | internal/controller/workloadidentity_controller.go:30-37 | so the entries of an identity that has gone stay, and the server is in the state declared without it exactly when there are none |
| Controllers.GoneClusterLeavesEntries | internal/controller/eksclusterregistry_controller.go:29-36 | the same for a registry |
| IdentityUpdates.IdentityUpdatedExact | internal/controller/targeted_reconciler.go:80-118 | after the event of a changed identity the server is in the state declared after the change exactly when every old entry has an ID that is still declared or no selected live pod |
| IdentityEvents.IgnoredNamespace | internal/controller/targeted_reconciler.go:80-118 | for an identity of an ignored namespace the event keeps a converged server converged exactly when it has nothing to write |
| ClusterEvents.DroppedClusterLeavesEntries | internal/controller/targeted_reconciler.go:128-132 | the event of a deleted or disabled cluster deletes nothing, with the registry as well as with an object without a name, so it reaches the state declared without the cluster exactly when no entry is rendered for a pod of the cluster |
| ClusterEvents.ClusterEventOnlyWrites | internal/controller/targeted_reconciler.go:144-165 | whichever identities the cleanup lists, and whatever fails, the event of an enabled cluster deletes no default-hinted entry |
| ClusterEvents.ClusterEventKeepsConverged | internal/controller/targeted_reconciler.go:134-165 | in a frozen world it leaves a converged server as it is unless it writes for an identity of an ignored namespace |
| ClusterEvents.ClusterEventExact | internal/controller/targeted_reconciler.go:134-165 | without faults the server stays converged exactly when there is nothing to write for such an identity |
| ClusterEvents.ClusterAddedConverges | internal/controller/targeted_reconciler.go:134-165 | the event of a newly enabled cluster takes the server from the state declared without it to the one declared with it |
| ClusterEvents.ClusterUpdatedExact | internal/controller/targeted_reconciler.go:134-165 | after the event of a changed registry the server is in the state declared after the change exactly when every old entry of the cluster has an ID that is still declared |
| Interleaving.StepKeepsInv | internal/controller/main_reconciler.go:65-153 | no step of a pass, an event, a sweep or another client breaks content-addressing of the managed entries |
| Interleaving.RunKeepsInv | internal/controller/main_reconciler.go:65-153 | so it holds in every interleaving, whatever calls fail and whatever worlds are seen |
| Interleaving.PassIsRun | internal/controller/main_reconciler.go:294-346 | the full pass, run alone, is a run of the state machine |
| Interleaving.WritesAreRun | internal/controller/targeted_reconciler.go:168-203 | so are the writes of an event |
| Interleaving.SweepIsRun | internal/controller/targeted_reconciler.go:206-260 | so is every sweep, whichever of its deletions are carried out |
| Interleaving.CleanupIsRun | internal/controller/deletion_controller.go:93-154 | so is the cleanup of a deleted resource, in any number of batches |
| Interleaving.QuiescenceConverges | internal/controller/main_reconciler.go:65-153 | after any such history, one uninterrupted failure-free pass reaches the declared state of the world it sees |
| Interleaving.FrozenRunStaysConverged | internal/controller/targeted_reconciler.go:36-165 | once converged and without stale tasks, the server stays converged in every interleaving over a frozen world |
| Interleaving.IdentityCleanupSees | internal/controller/targeted_reconciler.go:355-400 | the cleanup of an identity event is a sweep allowed in these interleavings |
| Interleaving.PodSweepSees | internal/controller/targeted_reconciler.go:206-225 | so is the sweep for a pod that is no longer live |
| Interleaving.ClusterSweepsSee | internal/controller/targeted_reconciler.go:242-260 | so are both sweeps of a cluster event |
| Deletion.DeletionReconciler.DeleteEntriesForOwner | internal/controller/deletion_controller.go:93-154 | deletes only entries of the owner; it is an error exactly when a request fails; without an error it deleted all of them if and only if every status was OK |
| Deletion.DeletionReconciler.CollectOwned | internal/controller/deletion_controller.go:103-133 | collects the IDs of exactly the listed entries that the search accepts, in order |
| Deletion.DistinctDeletes | pkg/spireapi/client.go:429-492 | deleting distinct existing IDs, exactly the calls carried out remove their entry and report OK |
| Deletion.DeletionReconciler.ReconcileWorkloadIdentity | internal/controller/deletion_controller.go:26-57 | acts only on a resource that waits for the cleanup, and removes the finalizer only after a cleanup without an error; exactly when it is an error |
| Deletion.DeletionReconciler.ReconcileEKSClusterRegistry | internal/controller/deletion_controller.go:60-91 | the same for a registry |
| Deletion.DeletionReconciler.WithoutFinalizer | pkg/finalizer/finalizer.go:26-30 | every other finalizer stays, in order |
| Deletion.FinalizerExact | internal/controller/deletion_controller.go:93-154 | a released resource has no entries left if and only if every status was OK |
| Deletion.ClusterDeletionConverges | internal/controller/deletion_controller.go:60-123 | the cleanup of a deleted cluster takes the server from the state declared with the cluster to the one declared without it |
| Deletion.IdentityDeletionExact | internal/controller/deletion_controller.go:124-133 | that of a deleted identity does so exactly when no identity whose name goes on after its own has entries |
| ByObject.BeforeIsTotalOrder | internal/spireentry/byobject.go:74-111 | creation ascending, deletion descending with none first, UID: a strict total order |
| ByObject.ObjectCmpExact | internal/spireentry/byobject.go:74-111 | objectCmp gives that order if and only if neither subtraction wraps around |
| ByObject.ZeroMeansEqual | internal/spireentry/byobject.go:74-111 | it is zero only when all three keys agree |
| ByObject.AntisymmetricExactly | internal/spireentry/byobject.go:74-111 | exchanging the arguments changes the sign exactly when the compared times do not differ by 2^63 |
| ByObject.TotalOrderOnShortSpan | internal/spireentry/byobject.go:74-111 | on objects whose times span less than 2^63 ns it is a total order |
| ByObject.Circle | internal/spireentry/byobject.go:74-111 | three objects further apart on which it goes round in a circle |

## Left out

- Controllers.WorkloadIdentityReconciler.Reconcile: the case of a controller without a main or targeted reconciler, in which it does nothing, and the registration of the controllers.
- gRPC, the Kubernetes API, AWS sessions, kubeconfig and logging: requests are methods of the modelled server and of `Deletion.Resources`; which of them fail, and what a cluster answers when it is connected, are parameters.
- Go templates, label selectors, regular expressions for ignored namespaces and SHA-256: arbitrary functions; that a template may render differently at different times is not modelled.
- Rendering.RenderEntry: the conversion of the TTL durations to int32 seconds goes through floating point and an implementation-specific conversion for values out of range; the model's identities hold the seconds.
- SpireClient.Client.ListEntries: the server's listing is one snapshot in some order and a page token is a position in it; how a server answers for entries that change between two pages is not part of the repository.
- The server's answer to a create whose ID is taken by an entry that is not similar is assumed to be a refusal with another status; an update is assumed not to be refused for similarity.
- SpireClient.RunBatch: the function it is given is the one that deletes a batch, its only caller that runs.
- BatchCreateEntries and BatchUpdateEntries: nothing calls them, and they repeat the shape of BatchDeleteEntries.
- FastPath.TargetedReconciler.ReconcileWorkloadIdentity: the informer stores and the connections do not change during one event; the two listings of the registries may differ.
- Interleaving.RunKeepsInv: tasks interleave call by call on values; the locks of the connection manager and the memory model are not part of the state machine.
- ClusterManager.Manager.AddOrUpdateCluster: the mutex, the informer goroutine and LastConnected are not modelled; methods run one at a time.
- The AWS client cache, the reconciler's trigger loop, status counters and conditions (updateStatuses), webhooks, configuration and finalizer insertion: no invariant that spans operations.
- Unused helpers (entryCache, dnsNamesFromEndpoints, appendIfNotExists, renderSPIFFEID, parseSelector).
