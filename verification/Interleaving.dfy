// Full passes, events and other clients of the server at the same time: every
// task works from the listing it made, while the others go on changing the server.
module Interleaving {
  import opened Wrappers
  import opened Sequences
  import opened SpireApi
  import opened Store
  import opened State
  import opened Convergence
  import opened Declaration
  import opened Rendering
  import opened Hints
  import opened FastPath
  import opened FastPathTheorems
  import opened IdentityEvents
  import opened Deletion
  import opened WorldTheorems

  /** A goroutine: the calls it has decided on, then the entries it has yet to look up and write. */
  datatype Task = Task(calls: seq<Call>, writes: seq<Entry>)

  datatype System = System(store: Entries, tasks: seq<Task>)

  datatype Step =
    | StartPass(w: World, plan: Plan)                         // lists the entries and plans for the world it sees
    | StartSweep(test: Entry -> bool, listing: seq<Entry>)    // lists the entries and deletes those that meet a test
    | StartWrites(es: seq<Entry>)                             // an event with entries to write
    | Look(t: nat, listed: bool)                              // reconcilePodEntry lists and decides for the next entry
    | Send(t: nat, took: bool)                                // the next call, carried out or not
    | Other(call: Call)                                       // a call of another client, on unmanaged entries

  /** The calls of a full pass, in their order. */
  function CallsOf(p: Plan): seq<Call> {
    Deletes(IDs(p.deletes)) + Creates(p.creates) + Updates(p.updates)
  }

  function IfMeets(test: Entry -> bool): Entry -> seq<Call> {
    (e: Entry) => if test(e) then [Delete(e.id)] else []
  }

  function Decide(store: Entries, listed: bool, e: Entry): seq<Call> {
    match UpsertCall(if listed then Some(store) else None, e)
    case None => []
    case Some(c) => [c]
  }

  ghost predicate Enabled(cfg: Config, s: System, step: Step) {
    match step
    case StartPass(w, plan) => IsPlan(plan, Managed(s.store, cfg.prefix), Declared(cfg, w))
    case StartSweep(_, listing) => Lists(listing, s.store)
    case StartWrites(_) => true
    case Look(t, _) => t < |s.tasks| && s.tasks[t].calls == [] && s.tasks[t].writes != []
    case Send(t, _) => t < |s.tasks| && s.tasks[t].calls != []
    case Other(call) => !(cfg.prefix <= call.Target())
  }

  function Next(cfg: Config, s: System, step: Step): System {
    match step
    case StartPass(_, plan) => s.(tasks := s.tasks + [Task(CallsOf(plan), [])])
    case StartSweep(test, listing) => s.(tasks := s.tasks + [Task(FlatMap(listing, IfMeets(test)), [])])
    case StartWrites(es) => s.(tasks := s.tasks + [Task([], es)])
    case Look(t, listed) =>
      if t < |s.tasks| && s.tasks[t].writes != [] then
        var ws := s.tasks[t].writes;
        s.(tasks := s.tasks[t := Task(Decide(s.store, listed, Address(cfg, ws[0])), ws[1..])])
      else s
    case Send(t, took) =>
      if t < |s.tasks| && s.tasks[t].calls != [] then
        var cs := s.tasks[t].calls;
        System(if took then Effect(s.store, cs[0]) else s.store, s.tasks[t := s.tasks[t].(calls := cs[1..])])
      else s
    case Other(call) => s.(store := Effect(s.store, call))
  }

  function After(cfg: Config, s: System, steps: seq<Step>): System {
    if steps == [] then s else Next(cfg, After(cfg, s, steps[..|steps| - 1]), steps[|steps| - 1])
  }

  ghost predicate Possible(cfg: Config, s: System, steps: seq<Step>) {
    steps == [] ||
    (Possible(cfg, s, steps[..|steps| - 1]) && Enabled(cfg, After(cfg, s, steps[..|steps| - 1]), steps[|steps| - 1]))
  }

  // ----- the invariant of every run

  /** A call that puts an entry on the server puts it under the prefix and the key of its content. */
  predicate CallAddressed(cfg: Config, c: Call) {
    c.Delete? || Addressed(cfg, c.entry)
  }

  ghost predicate TaskAddressed(cfg: Config, task: Task) {
    forall c | c in task.calls :: CallAddressed(cfg, c)
  }

  ghost predicate StoreAddressed(cfg: Config, m: Entries) {
    Keyed(m) && forall id | id in m && cfg.prefix <= id :: Addressed(cfg, m[id])
  }

  /** Every managed entry is under the prefix and the key of its content, now and after whatever the
      tasks have decided on. */
  ghost predicate Inv(cfg: Config, s: System) {
    && StoreAddressed(cfg, s.store)
    && (forall task | task in s.tasks :: TaskAddressed(cfg, task))
  }

  lemma PlanAddressed(cfg: Config, store: Entries, w: World, plan: Plan)
    requires IsPlan(plan, Managed(store, cfg.prefix), Declared(cfg, w))
    ensures TaskAddressed(cfg, Task(CallsOf(plan), []))
  {
    var cur, declared := Managed(store, cfg.prefix), Declared(cfg, w);
    DeclareMembers(cfg, AllEntries(w));
    ListsMembers(plan.creates, ToCreate(cur, declared));
    ListsMembers(plan.updates, ToUpdate(cur, declared));
    hide Declared, Addressed, IsPlan;
    forall c | c in CallsOf(plan)
      ensures CallAddressed(cfg, c)
    {
      CallOfPlan(plan, c);
      if !c.Delete? {
        assert c.entry.id in declared && declared[c.entry.id] == c.entry;
      }
    }
  }

  lemma CallOfPlan(plan: Plan, c: Call)
    requires c in CallsOf(plan)
    ensures match c
            case Delete(id) => exists e | e in plan.deletes :: e.id == id
            case Create(e) => e in plan.creates
            case Update(e) => e in plan.updates
  {
  }

  lemma SweepCalls(listing: seq<Entry>, test: Entry -> bool, c: Call)
    ensures c in FlatMap(listing, IfMeets(test)) <==> exists e | e in listing :: test(e) && c == Delete(e.id)
  {
  }

  lemma SendKeepsStore(cfg: Config, m: Entries, c: Call)
    requires StoreAddressed(cfg, m)
    requires CallAddressed(cfg, c) || !(cfg.prefix <= c.Target())
    ensures StoreAddressed(cfg, Effect(m, c))
  {
    hide Addressed, Similar;
    EffectKeyed(m, c);
  }

  lemma SweepAddressed(cfg: Config, listing: seq<Entry>, test: Entry -> bool)
    ensures TaskAddressed(cfg, Task(FlatMap(listing, IfMeets(test)), []))
  {
  }

  lemma DecisionAddressed(cfg: Config, store: Entries, listed: bool, e: Entry)
    ensures forall c | c in Decide(store, listed, Address(cfg, e)) :: CallAddressed(cfg, c)
  {
  }

  lemma StepKeepsInv(cfg: Config, s: System, step: Step)
    requires Inv(cfg, s) && Enabled(cfg, s, step)
    ensures Inv(cfg, Next(cfg, s, step))
  {
    hide StoreAddressed, CallAddressed, Effect, IsPlan, Declared, Managed, Decide, CallsOf, Address,
         FlatMap;
    match step
    case StartPass(w, plan) =>
      PlanAddressed(cfg, s.store, w, plan);
    case StartSweep(test, listing) =>
      SweepAddressed(cfg, listing, test);
    case StartWrites(_) =>
    case Look(t, listed) =>
      DecisionAddressed(cfg, s.store, listed, s.tasks[t].writes[0]);
    case Send(t, took) =>
      assert s.tasks[t] in s.tasks && s.tasks[t].calls[0] in s.tasks[t].calls;
      SendKeepsStore(cfg, s.store, s.tasks[t].calls[0]);
    case Other(call) =>
      SendKeepsStore(cfg, s.store, call);
  }

  /** In every interleaving of passes, events and sweeps, with any calls lost and any worlds seen, every
      managed entry stays under the prefix and the key of its content. */
  lemma {:induction false} RunKeepsInv(cfg: Config, s: System, steps: seq<Step>)
    requires Inv(cfg, s) && Possible(cfg, s, steps)
    ensures Inv(cfg, After(cfg, s, steps))
  {
    if steps != [] {
      var n := |steps| - 1;
      RunKeepsInv(cfg, s, steps[..n]);
      StepKeepsInv(cfg, After(cfg, s, steps[..n]), steps[n]);
    }
  }

  // ----- quiescence

  /** A pass that nothing interrupts. */
  function Uninterrupted(t: nat, w: World, plan: Plan, l: Landings): seq<Step> {
    [StartPass(w, plan)] + Sends(t, l.deletes + l.creates + l.updates)
  }

  function Sends(t: nat, took: seq<bool>): (r: seq<Step>)
    ensures |r| == |took|
  {
    seq(|took|, i requires 0 <= i < |took| => Send(t, took[i]))
  }

  lemma {:induction false} AfterAppend(cfg: Config, s: System, steps: seq<Step>, more: seq<Step>)
    ensures After(cfg, s, steps + more) == After(cfg, After(cfg, s, steps), more)
    ensures Possible(cfg, s, steps + more) <==> Possible(cfg, s, steps) && Possible(cfg, After(cfg, s, steps), more)
  {
    hide Next, Enabled;
    if more == [] {
      assert steps + more == steps;
    } else {
      var n := |more| - 1;
      assert (steps + more)[..|steps| + n] == steps + more[..n] && (steps + more)[|steps| + n] == more[n];
      AfterAppend(cfg, s, steps, more[..n]);
    }
  }

  /** A task that sends its calls one after the other does what Run says. */
  lemma {:induction false} SendAll(cfg: Config, s: System, t: nat, took: seq<bool>)
    requires t < |s.tasks| && |took| <= |s.tasks[t].calls|
    ensures
      var cs, n, s' := s.tasks[t].calls, |took|, After(cfg, s, Sends(t, took));
      && Possible(cfg, s, Sends(t, took))
      && s'.store == Run(s.store, cs[..n], took)
      && s'.tasks == s.tasks[t := s.tasks[t].(calls := cs[n..])]
  {
    hide Effect, StatusOf, Statuses, Enabled, After, Possible, Run, Next;
    var cs, n := s.tasks[t].calls, |took|;
    if n == 0 {
      NothingSent(cfg, s, t, took);
    } else {
      var k := n - 1;
      SendAll(cfg, s, t, took[..k]);
      RunNext(s.store, cs, took[..k], took[k]);
      assert took[..k] + [took[k]] == took;
      assert Sends(t, took) == Sends(t, took[..k]) + [Send(t, took[k])];
      AfterAppend(cfg, s, Sends(t, took[..k]), [Send(t, took[k])]);
      SendOne(cfg, After(cfg, s, Sends(t, took[..k])), t, took[k]);
      assert cs[k..][0] == cs[k] && cs[k..][1..] == cs[n..];
    }
  }

  lemma NothingSent(cfg: Config, s: System, t: nat, took: seq<bool>)
    requires t < |s.tasks| && took == []
    ensures Possible(cfg, s, Sends(t, took)) && After(cfg, s, Sends(t, took)) == s
    ensures Run(s.store, s.tasks[t].calls[..0], took) == s.store
    ensures s.tasks == s.tasks[t := s.tasks[t].(calls := s.tasks[t].calls[0..])]
  {
    assert Sends(t, took) == [];
    assert s.tasks[t].calls[0..] == s.tasks[t].calls;
  }

  lemma SendOne(cfg: Config, s: System, t: nat, took: bool)
    requires t < |s.tasks| && s.tasks[t].calls != []
    ensures
      var cs, s' := s.tasks[t].calls, After(cfg, s, [Send(t, took)]);
      && Possible(cfg, s, [Send(t, took)])
      && s'.store == (if took then Effect(s.store, cs[0]) else s.store)
      && s'.tasks == s.tasks[t := s.tasks[t].(calls := cs[1..])]
  {
  }

  /** Sent one after the other, the calls of a plan make a pass. */
  lemma CallsMakePass(m: Entries, plan: Plan, l: Landings)
    requires Fits(l, plan)
    ensures |l.deletes + l.creates + l.updates| == |CallsOf(plan)|
    ensures Run(m, CallsOf(plan), l.deletes + l.creates + l.updates) == Pass(m, plan, l)
  {
    var d, c, u := Deletes(IDs(plan.deletes)), Creates(plan.creates), Updates(plan.updates);
    RunAppend(m, d, l.deletes, c, l.creates);
    RunAppend(m, d + c, l.deletes + l.creates, u, l.updates);
  }

  /** The full pass of the main reconciler is such a run. */
  lemma PassIsRun(cfg: Config, s: System, w: World, plan: Plan, l: Landings)
    requires Enabled(cfg, s, StartPass(w, plan)) && Fits(l, plan)
    ensures
      var steps := Uninterrupted(|s.tasks|, w, plan, l);
      && Possible(cfg, s, steps)
      && After(cfg, s, steps) == System(Pass(s.store, plan, l), s.tasks + [Task([], [])])
  {
    hide Enabled, Pass, CallsOf, Run, Effect;
    var t, start, took := |s.tasks|, [StartPass(w, plan)], l.deletes + l.creates + l.updates;
    FirstStep(cfg, s, start[0]);
    CallsMakePass(s.store, plan, l);
    SendAll(cfg, Next(cfg, s, start[0]), t, took);
    assert CallsOf(plan)[..|took|] == CallsOf(plan) && CallsOf(plan)[|took|..] == [];
    AfterAppend(cfg, s, start, Sends(t, took));
  }

  /** The calls of a sweep delete the collected IDs in their order. */
  lemma {:induction false} SweepDeletes(listing: seq<Entry>, test: Entry -> bool)
    ensures FlatMap(listing, IfMeets(test)) == Deletes(Collected(listing, test))
  {
    if listing != [] {
      var n := |listing| - 1;
      SweepDeletes(listing[..n], test);
      assert IfMeets(test)(listing[n]) == Deletes(IDIf(test)(listing[n]));
    }
  }

  /** Which of the calls are carried out when the entries `gone` disappear. */
  function Removing(ids: seq<string>, gone: set<string>): (took: seq<bool>)
    ensures |took| == |ids|
  {
    seq(|ids|, i requires 0 <= i < |ids| => ids[i] in gone)
  }

  lemma RemovingTakes(ids: seq<string>, gone: set<string>)
    requires forall id | id in gone :: id in ids
    ensures Taken(ids, Removing(ids, gone)) == gone
  {
    var took := Removing(ids, gone);
    forall id
      ensures id in Taken(ids, took) <==> id in gone
    {
      if id in gone {
        var i :| 0 <= i < |ids| && ids[i] == id;
        assert took[i];
      }
    }
  }

  /** A sweep that nothing interrupts: of the listed entries that meet the test, those in `gone` disappear. */
  function SweepSteps(t: nat, test: Entry -> bool, listing: seq<Entry>, gone: set<string>): seq<Step> {
    [StartSweep(test, listing)] + Sends(t, Removing(Collected(listing, test), gone))
  }

  /** Every sweep of the targeted reconciler, and every cleanup of the deletion controller, in one batch or
      many, complete or broken off, is such a run: it takes entries `gone` that meet its test. */
  lemma SweepIsRun(cfg: Config, s: System, test: Entry -> bool, listing: seq<Entry>, gone: set<string>)
    requires Lists(listing, s.store) && gone <= Victims(s.store, test)
    ensures
      var steps := SweepSteps(|s.tasks|, test, listing, gone);
      && Possible(cfg, s, steps)
      && After(cfg, s, steps) == System(s.store - gone, s.tasks + [Task([], [])])
  {
    var t, ids := |s.tasks|, Collected(listing, test);
    var took := Removing(ids, gone);
    var calls, start := FlatMap(listing, IfMeets(test)), StartSweep(test, listing);
    hide Run, Effect, Collected, FlatMap, Victims, Taken, Removing, Deletes, Lists, Enabled, After, Possible;
    CollectedIDs(listing, s.store, test);
    SweepDeletes(listing, test);
    SweepStarts(cfg, s, test, listing);
    SendAll(cfg, Next(cfg, s, start), t, took);
    assert calls[..|took|] == calls && calls[|took|..] == [] && ids[..|took|] == ids;
    RemovedBySending(s.store, test, ids, gone);
    AfterAppend(cfg, s, [start], Sends(t, took));
  }

  lemma SweepStarts(cfg: Config, s: System, test: Entry -> bool, listing: seq<Entry>)
    requires Lists(listing, s.store)
    ensures Possible(cfg, s, [StartSweep(test, listing)])
    ensures After(cfg, s, [StartSweep(test, listing)]) == Next(cfg, s, StartSweep(test, listing))
  {
    FirstStep(cfg, s, StartSweep(test, listing));
  }

  lemma RemovedBySending(m: Entries, test: Entry -> bool, ids: seq<string>, gone: set<string>)
    requires DuplicateFree(ids) && (forall id :: id in ids <==> id in Victims(m, test)) && gone <= Victims(m, test)
    ensures Run(m, Deletes(ids), Removing(ids, gone)) == m - gone
  {
    assert forall id | id in ids :: id in m;
    assert ids[..|ids|] == ids;
    hide Run, Taken, Removing;
    DistinctDeletes(m, ids, Removing(ids, gone));
    RemovingTakes(ids, gone);
  }

  /** In particular the cleanup of a deleted resource. */
  lemma CleanupIsRun(
    cfg: Config, s: System,
    test: Entry -> bool, listing: seq<Entry>, m': Entries, gone: set<string>, err: bool, failures: nat)
    requires Lists(listing, s.store) && CleanedUp(s.store, m', test, gone, err, failures)
    ensures
      var steps := SweepSteps(|s.tasks|, test, listing, gone);
      Possible(cfg, s, steps) && After(cfg, s, steps) == System(m', s.tasks + [Task([], [])])
  {
    SweepIsRun(cfg, s, test, listing, gone);
  }

  /** After `before`, the steps with which task `t` writes its next entry. */
  function WriteNext(cfg: Config, s: System, before: seq<Step>, t: nat, l: Luck): seq<Step> {
    var look := before + [Look(t, l.listed)];
    var s' := After(cfg, s, look);
    if t < |s'.tasks| && s'.tasks[t].calls != [] then look + [Send(t, l.took)] else look
  }

  /** The steps of an event that writes as many entries without interruption. */
  function WriteSteps(cfg: Config, s: System, t: nat, luck: seq<Luck>): seq<Step> {
    if luck == [] then []
    else WriteNext(cfg, s, WriteSteps(cfg, s, t, luck[..|luck| - 1]), t, luck[|luck| - 1])
  }

  /** The writes of the targeted reconciler are such a run. */
  lemma {:induction false} WritesAreRun(
    cfg: Config, s: System, t: nat, es: seq<Entry>, rest: seq<Entry>, luck: seq<Luck>)
    requires t < |s.tasks| && s.tasks[t] == Task([], es + rest) && |luck| == |es|
    ensures
      var steps := WriteSteps(cfg, s, t, luck);
      && Possible(cfg, s, steps)
      && After(cfg, s, steps) == System(Upserts(cfg, s.store, es, luck), s.tasks[t := Task([], rest)])
  {
    hide Next, Enabled, Upsert, Address, WriteNext;
    if es == [] {
      assert es + rest == rest;
      assert s.tasks == s.tasks[t := Task([], rest)];
    } else {
      var n := |es| - 1;
      assert es + rest == es[..n] + ([es[n]] + rest);
      WritesAreRun(cfg, s, t, es[..n], [es[n]] + rest, luck[..n]);
      OneWrite(cfg, s, WriteSteps(cfg, s, t, luck[..n]), t, es[n], rest, luck[n]);
    }
  }

  lemma OneWrite(cfg: Config, s: System, before: seq<Step>, t: nat, e: Entry, rest: seq<Entry>, l: Luck)
    requires Possible(cfg, s, before) && t < |After(cfg, s, before).tasks|
    requires After(cfg, s, before).tasks[t] == Task([], [e] + rest)
    ensures
      var now, steps := After(cfg, s, before), WriteNext(cfg, s, before, t, l);
      && Possible(cfg, s, steps)
      && After(cfg, s, steps) == System(Upsert(now.store, Address(cfg, e), l), now.tasks[t := Task([], rest)])
  {
    hide After, Possible, Upsert, Decide, Effect, Address, Enabled, Next;
    var now, look := After(cfg, s, before), before + [Look(t, l.listed)];
    AfterAppend(cfg, s, before, [Look(t, l.listed)]);
    LookOne(cfg, now, t, e, rest, l.listed);
    DecideThenSend(now.store, Address(cfg, e), l);
    var s' := After(cfg, s, look);
    if s'.tasks[t].calls != [] {
      AfterAppend(cfg, s, look, [Send(t, l.took)]);
      SendOne(cfg, s', t, l.took);
      assert s'.tasks[t := Task([], rest)] == now.tasks[t := Task([], rest)];
    }
  }

  lemma LookOne(cfg: Config, s: System, t: nat, e: Entry, rest: seq<Entry>, listed: bool)
    requires t < |s.tasks| && s.tasks[t] == Task([], [e] + rest)
    ensures Possible(cfg, s, [Look(t, listed)])
    ensures After(cfg, s, [Look(t, listed)]) ==
            s.(tasks := s.tasks[t := Task(Decide(s.store, listed, Address(cfg, e)), rest)])
  {
    hide After, Possible, Decide, Address;
    FirstStep(cfg, s, Look(t, listed));
    assert ([e] + rest)[1..] == rest;
  }

  /** A write is the decision after the lookup and its call. */
  lemma DecideThenSend(m: Entries, a: Entry, l: Luck)
    ensures
      var calls := Decide(m, l.listed, a);
      && |calls| <= 1 && (calls != [] ==> calls[1..] == [])
      && Upsert(m, a, l) == if calls != [] && l.took then Effect(m, calls[0]) else m
  {
    hide Effect;
  }

  lemma FirstStep(cfg: Config, s: System, step: Step)
    ensures After(cfg, s, [step]) == Next(cfg, s, step)
    ensures Possible(cfg, s, [step]) <==> Enabled(cfg, s, step)
  {
  }

  /** Whatever happened before, starting from content-addressed managed entries: one full pass that nothing
      interrupts and in which no call fails reaches the declared state of the world it sees. */
  lemma QuiescenceConverges(cfg: Config, s: System, steps: seq<Step>, w: World, plan: Plan)
    requires Inv(cfg, s) && Possible(cfg, s, steps)
    requires forall v, i, q, e | Renders(w, v, i, q, e) :: DuplicateFree(e.selectors)
    requires
      var s' := After(cfg, s, steps);
      NoSimilarUnmanaged(cfg, s'.store, Declared(cfg, w)) && Enabled(cfg, s', StartPass(w, plan))
    ensures
      var s' := After(cfg, s, steps);
      var all := steps + Uninterrupted(|s'.tasks|, w, plan, NoFailure(plan));
      && Possible(cfg, s, all)
      && Converged(cfg, After(cfg, s, all).store, Declared(cfg, w))
      && SameUnmanaged(cfg, s'.store, After(cfg, s, all).store)
  {
    var s' := After(cfg, s, steps);
    RunKeepsInv(cfg, s, steps);
    RenderedIsDeclared(cfg, w);
    PassIsRun(cfg, s', w, plan, NoFailure(plan));
    AfterAppend(cfg, s, steps, Uninterrupted(|s'.tasks|, w, plan, NoFailure(plan)));
    KeptOfInv(cfg, s', Declared(cfg, w));
    assert IsPlan(plan, Managed(s'.store, cfg.prefix), Declared(cfg, w));
    hide *;
    Converges(cfg, s'.store, Declared(cfg, w), plan);
  }

  lemma KeptOfInv(cfg: Config, s: System, declared: Entries)
    requires Inv(cfg, s) && (forall id | id in declared :: cfg.prefix <= id)
    ensures KeptAddressed(cfg, s.store, declared)
  {
  }

  // ----- a frozen world

  /** The step sees the world `w`: passes declare it, events write entries of it, and sweeps do not ask for
      an entry that it declares. */
  ghost predicate Sees(cfg: Config, w: World, step: Step) {
    match step
    case StartPass(w', _) => Declared(cfg, w') == Declared(cfg, w)
    case StartSweep(test, _) =>
      forall e: Entry | e.id in Declared(cfg, w) && InSync(e, Declared(cfg, w)[e.id]) :: !test(e)
    case StartWrites(es) => forall e | e in es :: e in AllEntries(w)
    case _ => true
  }

  /** The cleanup after an identity event in the frozen world is such a sweep. */
  lemma IdentityCleanupSees(
    cfg: Config, w: World, identity: Identity, listed: seq<Cluster>, conns: Connections, listing: seq<Entry>)
    requires Agrees(w, conns) && Settled(listed, conns) && DefaultHinted(w) && identity in w.identities
    ensures Sees(cfg, w, StartSweep(OrphanOfIdentity(identity, UIDSet(ValidUIDs(identity, listed, conns))), listing))
  {
    var uids := UIDSet(ValidUIDs(identity, listed, conns));
    hide Declared, InSync, BelongsToIdentity, HasValidPod, OrphanOfIdentity, UIDSet, ValidUIDs, DefaultHinted, Settled,
         Agrees;
    OrphanOfIdentityMeans(identity, uids);
    forall x: Entry | x.id in Declared(cfg, w) && InSync(x, Declared(cfg, w)[x.id])
      ensures BelongsToIdentity(x.hint, identity) ==> HasValidPod(x, uids)
    {
      var e := DeclaredFor(cfg, w, x);
      if BelongsToIdentity(x.hint, identity) {
        SyncedHasPod(cfg, w, x, e, identity, listed, conns);
      }
    }
  }

  /** What is in sync with a declared entry is in sync with a rendered one. */
  lemma DeclaredFor(cfg: Config, w: World, x: Entry) returns (e: Entry)
    requires x.id in Declared(cfg, w) && InSync(x, Declared(cfg, w)[x.id])
    ensures e in AllEntries(w) && InSync(x, Address(cfg, e))
  {
    DeclareMembers(cfg, AllEntries(w));
    hide AllEntries, Address, InSync;
    e :| e in AllEntries(w) && Declared(cfg, w)[x.id] == Address(cfg, e);
  }

  /** So is the sweep after the deletion of a pod that the world no longer knows as live. */
  lemma PodSweepSees(cfg: Config, w: World, pod: Pod, listing: seq<Entry>)
    requires NamesOwnPod(w) && forall v, p | v in w.views && p in v.pods && p.uid == pod.uid :: !Live(p)
    ensures Sees(cfg, w, StartSweep(OfPod(cfg.prefix, pod), listing))
  {
    hide Declared, AllEntries, Address, InSync, Renders, NamesOwnPod;
    forall x: Entry | x.id in Declared(cfg, w) && InSync(x, Declared(cfg, w)[x.id])
      ensures PodSelector(pod) !in x.selectors
    {
      var e := DeclaredFor(cfg, w, x);
      InSyncWithRendered(cfg, x, e);
      AllEntriesMembers(w, e);
      var v, i, p :| Renders(w, v, i, p, e);
      RenderedNamesPod(w, v, i, p, e, pod);
    }
  }

  lemma DeclaredIsNotOfCluster(cfg: Config, w: World, name: string, x: Entry)
    requires DefaultHinted(w) && PassedName(name)
    requires x.id in Declared(cfg, w) && InSync(x, Declared(cfg, w)[x.id])
    ensures !BelongsToCluster(x.hint, name)
  {
    hide AllEntries, BelongsToCluster, Address, InSync, Declared;
    var e := DeclaredFor(cfg, w, x);
    InSyncWithRendered(cfg, x, e);
    AllEntriesMembers(w, e);
    var v, i, p :| Renders(w, v, i, p, e);
    RenderedHasPodSelector(w.env, i, v, p);
    ClusterSweepMissesDefaultHints(i.name, v.cluster.name, name);
  }

  /** So are both sweeps of a cluster event, for any set of pods. */
  lemma ClusterSweepsSee(cfg: Config, w: World, name: string, uids: set<string>, listing: seq<Entry>)
    requires DefaultHinted(w) && PassedName(name)
    ensures Sees(cfg, w, StartSweep(OfCluster(name), listing))
    ensures Sees(cfg, w, StartSweep(OrphanOfCluster(name, uids), listing))
  {
    hide Declared, InSync, BelongsToCluster, HasValidPod, OfCluster, OrphanOfCluster, DefaultHinted, PassedName;
    OfClusterMeans(name);
    OrphanOfClusterMeans(name, uids);
    forall x: Entry | x.id in Declared(cfg, w) && InSync(x, Declared(cfg, w)[x.id])
      ensures !BelongsToCluster(x.hint, name)
    {
      DeclaredIsNotOfCluster(cfg, w, name, x);
    }
  }

  /** A call that cannot take a server out of the declared state. */
  predicate Harmless(declared: Entries, c: Call) {
    match c
    case Delete(id) => id !in declared
    case Create(e) => e.id in declared
    case Update(e) => e.id in declared && declared[e.id] == e
  }

  ghost predicate TaskHarmless(cfg: Config, w: World, task: Task) {
    && (forall c | c in task.calls :: Harmless(Declared(cfg, w), c))
    && (forall e | e in task.writes :: e in AllEntries(w))
  }

  ghost predicate AtRest(cfg: Config, w: World, s: System) {
    && Keyed(s.store) && Converged(cfg, s.store, Declared(cfg, w))
    && (forall task | task in s.tasks :: TaskHarmless(cfg, w, task))
  }

  lemma HarmlessKeeps(cfg: Config, m: Entries, declared: Entries, c: Call)
    requires Keyed(m) && Converged(cfg, m, declared) && (forall id | id in declared :: cfg.prefix <= id)
    requires Harmless(declared, c) || !(cfg.prefix <= c.Target())
    ensures Keyed(Effect(m, c)) && Converged(cfg, Effect(m, c), declared)
  {
    EffectKeyed(m, c);
    var m' := Effect(m, c);
    forall id | cfg.prefix <= id
      ensures SyncedAt(m', declared, id)
    {
      assert SyncedAt(m, declared, id);
      if c.Create? && c.entry.id in declared {
        assert SyncedAt(m, declared, c.entry.id);
      }
    }
  }

  lemma PassIsHarmless(cfg: Config, w: World, s: System, plan: Plan)
    requires AtRest(cfg, w, s) && DeclaredState(cfg, Declared(cfg, w))
    requires IsPlan(plan, Managed(s.store, cfg.prefix), Declared(cfg, w))
    ensures TaskHarmless(cfg, w, Task(CallsOf(plan), []))
  {
    PlanAfterConvergence(cfg, s.store, Declared(cfg, w), plan);
    forall c | c in CallsOf(plan)
      ensures Harmless(Declared(cfg, w), c)
    {
      CallOfPlan(plan, c);
    }
  }

  lemma SweepIsHarmless(cfg: Config, w: World, s: System, test: Entry -> bool, listing: seq<Entry>)
    requires AtRest(cfg, w, s) && Sees(cfg, w, StartSweep(test, listing)) && Lists(listing, s.store)
    requires forall id | id in Declared(cfg, w) :: cfg.prefix <= id
    ensures TaskHarmless(cfg, w, Task(FlatMap(listing, IfMeets(test)), []))
  {
    var declared := Declared(cfg, w);
    ListsMembers(listing, s.store);
    hide Declared, InSync, Similar, SameAttributes;
    forall c | c in FlatMap(listing, IfMeets(test))
      ensures Harmless(declared, c)
    {
      SweepCalls(listing, test, c);
      var e :| e in listing && test(e) && c == Delete(e.id);
      assert cfg.prefix <= e.id ==> SyncedAt(s.store, declared, e.id);
    }
  }

  lemma LookIsHarmless(cfg: Config, w: World, m: Entries, listed: bool, e: Entry)
    requires Converged(cfg, m, Declared(cfg, w)) && Unambiguous(cfg, AllEntries(w)) && e in AllEntries(w)
    ensures forall c | c in Decide(m, listed, Address(cfg, e)) :: Harmless(Declared(cfg, w), c)
  {
    hide AllEntries, Address, Similar, SameAttributes, Declare, Converged, Unambiguous;
    DeclareMembers(cfg, AllEntries(w));
    ConvergedIffHolds(cfg, m, AllEntries(w));
    HeldInPlace(cfg, m, AllEntries(w), e);
  }

  lemma DeclaredHavePrefix(cfg: Config, declared: Entries)
    requires DeclaredState(cfg, declared)
    ensures forall id | id in declared :: cfg.prefix <= id
  {
    forall id | id in declared
      ensures cfg.prefix <= id
    {
      PrefixOfDeclared(cfg, declared, id);
    }
  }

  lemma FrozenStep(cfg: Config, w: World, s: System, step: Step)
    requires AtRest(cfg, w, s) && Enabled(cfg, s, step) && Sees(cfg, w, step)
    requires DeclaredState(cfg, Declared(cfg, w)) && Unambiguous(cfg, AllEntries(w))
    ensures AtRest(cfg, w, Next(cfg, s, step))
  {
    hide Declared, Converged, CallsOf, Decide, Effect, AllEntries, Harmless, DeclaredState, IsPlan, Unambiguous, Keyed,
         FlatMap, Managed, Lists, InSync;
    var declared := Declared(cfg, w);
    DeclaredHavePrefix(cfg, declared);
    match step
    case StartPass(w', plan) =>
      PassIsHarmless(cfg, w, s, plan);
    case StartSweep(test, listing) =>
      SweepIsHarmless(cfg, w, s, test, listing);
    case StartWrites(_) =>
    case Look(t, listed) =>
      assert s.tasks[t] in s.tasks;
      LookIsHarmless(cfg, w, s.store, listed, s.tasks[t].writes[0]);
    case Send(t, took) =>
      assert s.tasks[t] in s.tasks && s.tasks[t].calls[0] in s.tasks[t].calls;
      HarmlessKeeps(cfg, s.store, declared, s.tasks[t].calls[0]);
    case Other(call) =>
      HarmlessKeeps(cfg, s.store, declared, call);
  }

  /** Once converged and without stale tasks, the server stays converged in every interleaving of passes,
      events and sweeps over the same world, whatever calls and listings fail. */
  lemma {:induction false} FrozenRunStaysConverged(cfg: Config, w: World, s: System, steps: seq<Step>)
    requires AtRest(cfg, w, s) && Possible(cfg, s, steps) && forall step | step in steps :: Sees(cfg, w, step)
    requires DeclaredState(cfg, Declared(cfg, w)) && Unambiguous(cfg, AllEntries(w))
    ensures AtRest(cfg, w, After(cfg, s, steps))
  {
    if steps != [] {
      var n := |steps| - 1;
      FrozenRunStaysConverged(cfg, w, s, steps[..n]);
      FrozenStep(cfg, w, After(cfg, s, steps[..n]), steps[n]);
    }
  }
}
