// What one full pass does to the server: the replay of a plan in any order, with
// any subset of its calls carried out, and when it reaches the declared state
// (internal/controller/main_reconciler.go, applyEntryChanges).
module Convergence {
  import opened Wrappers
  import opened SpireApi
  import opened EntryKey
  import opened Store
  import opened State

  /** The entries that the registrar regards as its own. */
  function Managed(m: Entries, prefix: string): Entries {
    map id | id in m && prefix <= id :: m[id]
  }

  function IDs(es: seq<Entry>): (r: seq<string>)
    ensures |r| == |es| && forall i | 0 <= i < |r| :: r[i] == es[i].id
  {
    seq(|es|, i requires 0 <= i < |es| => es[i].id)
  }

  /** Which calls of a plan are carried out. */
  datatype Landings = Landings(deletes: seq<bool>, creates: seq<bool>, updates: seq<bool>)

  predicate Fits(l: Landings, p: Plan) {
    |l.deletes| == |p.deletes| && |l.creates| == |p.creates| && |l.updates| == |p.updates|
  }

  function NoFailure(p: Plan): (l: Landings)
    ensures Fits(l, p)
  {
    Landings(AllTrue(|p.deletes|), AllTrue(|p.creates|), AllTrue(|p.updates|))
  }

  /** The replay of a plan: deletes first, then creates, then updates. */
  function Pass(m: Entries, p: Plan, l: Landings): Entries
    requires Fits(l, p)
  {
    var m1 := Run(m, Deletes(IDs(p.deletes)), l.deletes);
    var m2 := Run(m1, Creates(p.creates), l.creates);
    Run(m2, Updates(p.updates), l.updates)
  }

  // ----- closed form of the replay

  /** The entries of `s` whose calls were carried out. */
  function Landed(s: seq<Entry>, took: seq<bool>): Entries
    requires |took| == |s|
  {
    if s == [] then map[]
    else
      var n := |s| - 1;
      var before := Landed(s[..n], took[..n]);
      if took[n] then before[s[n].id := s[n]] else before
  }

  /** The entries of `s` whose creates were carried out on `m` and not refused. */
  function Created(m: Entries, s: seq<Entry>, took: seq<bool>): Entries
    requires |took| == |s|
  {
    if s == [] then map[]
    else
      var n := |s| - 1;
      var before := Created(m, s[..n], took[..n]);
      if took[n] && !Blocked(m, s[n]) then before[s[n].id := s[n]] else before
  }

  lemma {:induction false} LandedMembers(s: seq<Entry>, m: Entries, took: seq<bool>)
    requires Lists(s, m) && |took| == |s|
    ensures forall id | id in Landed(s, took) :: id in m && Landed(s, took)[id] == m[id]
    ensures took == AllTrue(|s|) ==> Landed(s, took) == m
  {
    if s != [] {
      var n := |s| - 1;
      LandedMembers(s[..n], m - {s[n].id}, took[..n]);
      if took == AllTrue(|s|) {
        assert took[..n] == AllTrue(n);
      }
    }
  }

  lemma {:induction false} CreatedMembers(m: Entries, s: seq<Entry>, creates: Entries, took: seq<bool>)
    requires Lists(s, creates) && |took| == |s|
    ensures forall id | id in creates ::
              id in Created(m, s, took) <==> id in Landed(s, took) && !Blocked(m, creates[id])
    ensures forall id | id in Created(m, s, took) :: id in creates && Created(m, s, took)[id] == creates[id]
  {
    hide Blocked;
    if s != [] {
      var n := |s| - 1;
      var e, rest := s[n], creates - {s[n].id};
      var landed, created := Landed(s[..n], took[..n]), Created(m, s[..n], took[..n]);
      CreatedMembers(m, s[..n], rest, took[..n]);
      LandedMembers(s[..n], rest, took[..n]);
      assert creates[e.id] == e && e.id !in landed;
      assert Landed(s, took) == if took[n] then landed[e.id := e] else landed;
      assert Created(m, s, took) == if took[n] && !Blocked(m, e) then created[e.id := e] else created;
      hide Landed, Created, Lists;
      forall id | id in creates
        ensures id in Created(m, s, took) <==> id in Landed(s, took) && !Blocked(m, creates[id])
      {
        assert id != e.id ==> id in rest && rest[id] == creates[id];
      }
    }
  }

  lemma {:induction false} DeletePhase(m: Entries, s: seq<Entry>, took: seq<bool>)
    requires |took| == |s|
    ensures Run(m, Deletes(IDs(s)), took) == m - Landed(s, took).Keys
  {
    if s != [] {
      var n := |s| - 1;
      DeletePhase(m, s[..n], took[..n]);
      DeletesLast(m, s, took);
    }
  }

  lemma DeletesLast(m: Entries, s: seq<Entry>, took: seq<bool>)
    requires |took| == |s| > 0
    ensures
      var n := |s| - 1;
      var before := Run(m, Deletes(IDs(s[..n])), took[..n]);
      Run(m, Deletes(IDs(s)), took) == if took[n] then Effect(before, Delete(s[n].id)) else before
  {
    assert Deletes(IDs(s))[..|s| - 1] == Deletes(IDs(s[..|s| - 1]));
    RunLast(m, Deletes(IDs(s)), took);
  }

  lemma CreatesLast(m: Entries, s: seq<Entry>, took: seq<bool>)
    requires |took| == |s| > 0
    ensures
      var n := |s| - 1;
      var before := Run(m, Creates(s[..n]), took[..n]);
      Run(m, Creates(s), took) == if took[n] then Effect(before, Create(s[n])) else before
  {
    assert Creates(s)[..|s| - 1] == Creates(s[..|s| - 1]);
    RunLast(m, Creates(s), took);
  }

  lemma UpdatesLast(m: Entries, s: seq<Entry>, took: seq<bool>)
    requires |took| == |s| > 0
    ensures
      var n := |s| - 1;
      var before := Run(m, Updates(s[..n]), took[..n]);
      Run(m, Updates(s), took) == if took[n] then Effect(before, Update(s[n])) else before
  {
    assert Updates(s)[..|s| - 1] == Updates(s[..|s| - 1]);
    RunLast(m, Updates(s), took);
  }

  lemma MergeOneMore(m: Entries, more: Entries, e: Entry)
    ensures m + more[e.id := e] == (m + more)[e.id := e]
  {
  }

  /** Entries under different IDs are never similar. */
  ghost predicate NonSimilar(m: Entries) {
    forall id, id' | id in m && id' in m && id != id' :: !Similar(m[id], m[id'])
  }

  /** Declared entries with distinct IDs are never similar. */
  lemma AddressedNonSimilar(cfg: Config, m: Entries)
    requires Keyed(m) && AllAddressed(cfg, m)
    ensures NonSimilar(m)
  {
    forall id, id' | id in m && id' in m && id != id'
      ensures !Similar(m[id], m[id'])
    {
      if Similar(m[id], m[id']) {
        SimilarSameKey(cfg.hash, m[id], m[id']);
      }
    }
  }

  /** Entries that are not similar to `e` do not block it. */
  lemma BlockedByFirst(m: Entries, more: Entries, e: Entry)
    requires more.Keys !! m.Keys
    requires forall id | id in more :: !Similar(more[id], e)
    ensures Blocked(m + more, e) <==> Blocked(m, e)
  {
    if Blocked(m, e) {
      var id :| id in m && Similar(m[id], e);
      assert (m + more)[id] == m[id];
    }
  }

  lemma {:induction false} CreatePhase(m: Entries, s: seq<Entry>, creates: Entries, took: seq<bool>)
    requires Lists(s, creates) && |took| == |s|
    requires creates.Keys !! m.Keys && NonSimilar(creates)
    ensures Run(m, Creates(s), took) == m + Created(m, s, took)
  {
    if s == [] {
      assert m + map[] == m;
    } else {
      var n := |s| - 1;
      CreatePhase(m, s[..n], creates - {s[n].id}, took[..n]);
      CreatesLast(m, s, took);
      NotBlockedByEarlier(m, s, creates, took[..n]);
      CreateStep(m, s, took);
    }
  }

  lemma CreateStep(m: Entries, s: seq<Entry>, took: seq<bool>)
    requires |took| == |s| > 0
    requires
      var e, now := s[|s| - 1], m + Created(m, s[..|s| - 1], took[..|s| - 1]);
      e.id !in now && (Blocked(now, e) <==> Blocked(m, e))
    ensures
      var n := |s| - 1;
      var now := m + Created(m, s[..n], took[..n]);
      m + Created(m, s, took) == if took[n] then Effect(now, Create(s[n])) else now
  {
    var n := |s| - 1;
    MergeOneMore(m, Created(m, s[..n], took[..n]), s[n]);
  }

  lemma NotBlockedByEarlier(m: Entries, s: seq<Entry>, creates: Entries, took: seq<bool>)
    requires s != [] && Lists(s, creates) && |took| == |s| - 1
    requires creates.Keys !! m.Keys && NonSimilar(creates)
    ensures
      var e, now := s[|s| - 1], m + Created(m, s[..|s| - 1], took);
      e.id !in now && (Blocked(now, e) <==> Blocked(m, e))
  {
    var e, init := s[|s| - 1], s[..|s| - 1];
    CreatedMembers(m, init, creates - {e.id}, took);
    BlockedByFirst(m, Created(m, init, took), e);
  }

  lemma {:induction false} UpdatePhase(m: Entries, s: seq<Entry>, took: seq<bool>)
    requires |took| == |s| && forall e | e in s :: e.id in m
    ensures Run(m, Updates(s), took) == m + Landed(s, took)
  {
    if s == [] {
      assert m + map[] == m;
    } else {
      var n := |s| - 1;
      UpdatePhase(m, s[..n], took[..n]);
      UpdatesLast(m, s, took);
      assert s[n] in s;
      MergeOneMore(m, Landed(s[..n], took[..n]), s[n]);
    }
  }

  // ----- the whole pass

  /** The store after the deletes of a pass. */
  function AfterDeletes(m: Entries, p: Plan, l: Landings): Entries
    requires Fits(l, p)
  {
    m - Landed(p.deletes, l.deletes).Keys
  }

  lemma PassClosedForm(cfg: Config, m: Entries, declared: Entries, p: Plan, l: Landings)
    requires Keyed(declared) && AllAddressed(cfg, declared)
    requires IsPlan(p, Managed(m, cfg.prefix), declared) && Fits(l, p)
    ensures
      var m1 := AfterDeletes(m, p, l);
      Pass(m, p, l) == m1 + Created(m1, p.creates, l.creates) + Landed(p.updates, l.updates)
  {
    DeletePhase(m, p.deletes, l.deletes);
    NewIDsAreFree(cfg, m, declared);
    var m1 := AfterDeletes(m, p, l);
    CreatePhase(m1, p.creates, ToCreate(Managed(m, cfg.prefix), declared), l.creates);
    UpdatesExist(cfg, m, declared, p, l);
    UpdatePhase(m1 + Created(m1, p.creates, l.creates), p.updates, l.updates);
  }

  /** IDs to create carry the prefix, so no entry of the server has them. */
  lemma NewIDsAreFree(cfg: Config, m: Entries, declared: Entries)
    requires Keyed(declared) && AllAddressed(cfg, declared)
    ensures ToCreate(Managed(m, cfg.prefix), declared).Keys !! m.Keys
    ensures NonSimilar(ToCreate(Managed(m, cfg.prefix), declared))
  {
    AddressedNonSimilar(cfg, declared);
    forall id | id in declared
      ensures cfg.prefix <= id
    {
      assert id == cfg.prefix + Key(cfg.hash, declared[id]);
    }
  }

  lemma UpdatesExist(cfg: Config, m: Entries, declared: Entries, p: Plan, l: Landings)
    requires IsPlan(p, Managed(m, cfg.prefix), declared) && Fits(l, p)
    ensures
      var m1 := AfterDeletes(m, p, l);
      forall e | e in p.updates :: e.id in m1 + Created(m1, p.creates, l.creates)
  {
    var cur := Managed(m, cfg.prefix);
    LandedMembers(p.deletes, ToDelete(cur, declared), l.deletes);
    ListsMembers(p.updates, ToUpdate(cur, declared));
  }

  lemma MergeAt(m: Entries, c: Entries, u: Entries, id: string)
    ensures At(m + c + u, id) == if id in u then Some(u[id]) else if id in c then Some(c[id]) else At(m, id)
  {
  }

  /** Which IDs the landed calls of a plan can touch. */
  lemma LandedAt(cfg: Config, m: Entries, declared: Entries, p: Plan, l: Landings, id: string)
    requires Keyed(declared) && AllAddressed(cfg, declared)
    requires IsPlan(p, Managed(m, cfg.prefix), declared) && Fits(l, p)
    ensures id in Landed(p.deletes, l.deletes) ==> id in m && cfg.prefix <= id && id !in declared
    ensures id in Landed(p.creates, l.creates) ==> id in declared && id !in m
    ensures id in Landed(p.updates, l.updates) ==>
              id in declared && id in m && Landed(p.updates, l.updates)[id] == declared[id]
  {
    var cur := Managed(m, cfg.prefix);
    LandedMembers(p.deletes, ToDelete(cur, declared), l.deletes);
    LandedMembers(p.creates, ToCreate(cur, declared), l.creates);
    LandedMembers(p.updates, ToUpdate(cur, declared), l.updates);
    PrefixOfDeclared(cfg, declared, id);
  }

  lemma PrefixOfDeclared(cfg: Config, declared: Entries, id: string)
    requires Keyed(declared) && AllAddressed(cfg, declared)
    ensures id in declared ==> cfg.prefix <= id
  {
  }

  lemma CreatedAt(cfg: Config, m: Entries, declared: Entries, p: Plan, l: Landings, id: string)
    requires Keyed(declared) && AllAddressed(cfg, declared)
    requires IsPlan(p, Managed(m, cfg.prefix), declared) && Fits(l, p)
    ensures
      var m1 := AfterDeletes(m, p, l);
      var c := Created(m1, p.creates, l.creates);
      && (id in c <==> id in Landed(p.creates, l.creates) && id in declared && !Blocked(m1, declared[id]))
      && (id in c ==> c[id] == declared[id])
  {
    var creates := ToCreate(Managed(m, cfg.prefix), declared);
    LandedMembers(p.creates, creates, l.creates);
    CreatedMembers(AfterDeletes(m, p, l), p.creates, creates, l.creates);
  }

  /** What a pass leaves under one ID, whichever of its calls are carried out. */
  lemma PassAt(cfg: Config, m: Entries, declared: Entries, p: Plan, l: Landings, id: string)
    requires Keyed(declared) && AllAddressed(cfg, declared)
    requires IsPlan(p, Managed(m, cfg.prefix), declared) && Fits(l, p)
    ensures At(Pass(m, p, l), id) ==
      if id !in declared then (if id in Landed(p.deletes, l.deletes) then None else At(m, id))
      else if id in m then Some(if id in Landed(p.updates, l.updates) then declared[id] else m[id])
      else if id in Landed(p.creates, l.creates) && !Blocked(AfterDeletes(m, p, l), declared[id])
        then Some(declared[id])
      else None
  {
    var m1 := AfterDeletes(m, p, l);
    PassClosedForm(cfg, m, declared, p, l);
    MergeAt(m1, Created(m1, p.creates, l.creates), Landed(p.updates, l.updates), id);
    LandedAt(cfg, m, declared, p, l, id);
    CreatedAt(cfg, m, declared, p, l, id);
  }

  // ----- convergence

  /** The server agrees with the declarations at `id`. */
  predicate SyncedAt(m: Entries, declared: Entries, id: string) {
    if id in declared then id in m && InSync(m[id], declared[id]) else id !in m
  }

  /** In the managed part the server holds exactly the declared IDs, each in sync. */
  ghost predicate Converged(cfg: Config, m: Entries, declared: Entries) {
    forall id | cfg.prefix <= id :: SyncedAt(m, declared, id)
  }

  ghost predicate SameUnmanaged(cfg: Config, m: Entries, m': Entries) {
    forall id | !(cfg.prefix <= id) :: At(m', id) == At(m, id)
  }

  ghost predicate DeclaredState(cfg: Config, declared: Entries) {
    && Keyed(declared)
    && AllAddressed(cfg, declared)
    && forall id | id in declared :: DuplicateFree(declared[id].selectors)
  }

  /** Everything but the entries that the diff deletes. */
  function Remaining(cfg: Config, m: Entries, declared: Entries): Entries {
    m - ToDelete(Managed(m, cfg.prefix), declared).Keys
  }

  /** What a pass without failures leaves under one ID. */
  function OutcomeAt(cfg: Config, m: Entries, declared: Entries, id: string): Option<Entry> {
    if id in declared then
      if id !in m then (if Blocked(Remaining(cfg, m, declared), declared[id]) then None else Some(declared[id]))
      else if Equal(m[id], declared[id]) then Some(m[id])
      else Some(declared[id])
    else if cfg.prefix <= id then None
    else At(m, id)
  }

  lemma FailureFreeAt(cfg: Config, m: Entries, declared: Entries, p: Plan, id: string)
    requires Keyed(declared) && AllAddressed(cfg, declared)
    requires IsPlan(p, Managed(m, cfg.prefix), declared)
    ensures At(Pass(m, p, NoFailure(p)), id) == OutcomeAt(cfg, m, declared, id)
  {
    var cur, l := Managed(m, cfg.prefix), NoFailure(p);
    LandedMembers(p.deletes, ToDelete(cur, declared), l.deletes);
    LandedMembers(p.creates, ToCreate(cur, declared), l.creates);
    LandedMembers(p.updates, ToUpdate(cur, declared), l.updates);
    PrefixOfDeclared(cfg, declared, id);
    PassAt(cfg, m, declared, p, l, id);
  }

  /** The iteration order of the maps does not matter. */
  lemma OrderIrrelevant(cfg: Config, m: Entries, declared: Entries, p: Plan, p': Plan)
    requires Keyed(declared) && AllAddressed(cfg, declared)
    requires IsPlan(p, Managed(m, cfg.prefix), declared) && IsPlan(p', Managed(m, cfg.prefix), declared)
    ensures Pass(m, p, NoFailure(p)) == Pass(m, p', NoFailure(p'))
  {
    var r, r' := Pass(m, p, NoFailure(p)), Pass(m, p', NoFailure(p'));
    forall id: string
      ensures At(r, id) == At(r', id)
    {
      FailureFreeAt(cfg, m, declared, p, id);
      FailureFreeAt(cfg, m, declared, p', id);
    }
    SameAtIsEqual(r, r');
  }

  lemma SameAtIsEqual(r: Entries, r': Entries)
    requires forall id :: At(r, id) == At(r', id)
    ensures r == r'
  {
    assert forall id | id in r :: At(r, id) == Some(r[id]) && id in r';
    assert forall id | id in r' :: At(r', id) == Some(r'[id]) && id in r;
    forall id | id in r
      ensures r[id] == r'[id]
    {
      assert At(r, id) == At(r', id);
    }
  }

  /** No missing declared entry is similar to one that stays. */
  ghost predicate NothingBlocks(cfg: Config, m: Entries, declared: Entries) {
    forall id | id in declared && id !in m :: !Blocked(Remaining(cfg, m, declared), declared[id])
  }

  /** Exactly when one failure-free pass converges, in any iteration order. */
  lemma OnePassExact(cfg: Config, m: Entries, declared: Entries, p: Plan)
    requires DeclaredState(cfg, declared)
    requires IsPlan(p, Managed(m, cfg.prefix), declared)
    ensures Converged(cfg, Pass(m, p, NoFailure(p)), declared) <==> NothingBlocks(cfg, m, declared)
    ensures SameUnmanaged(cfg, m, Pass(m, p, NoFailure(p)))
    ensures forall id | id in declared && id in m :: SyncedAt(Pass(m, p, NoFailure(p)), declared, id)
  {
    var r := Pass(m, p, NoFailure(p));
    forall id: string
      ensures !(cfg.prefix <= id) ==> At(r, id) == At(m, id)
      ensures id in declared && id in m ==> SyncedAt(r, declared, id)
      ensures cfg.prefix <= id ==>
        (SyncedAt(r, declared, id) <==>
         (id in declared && id !in m ==> !Blocked(Remaining(cfg, m, declared), declared[id])))
    {
      OutcomeSynced(cfg, m, declared, p, id);
    }
    forall id | id in declared
      ensures cfg.prefix <= id
    {
      assert id == cfg.prefix + Key(cfg.hash, declared[id]);
    }
  }

  lemma OutcomeSynced(cfg: Config, m: Entries, declared: Entries, p: Plan, id: string)
    requires DeclaredState(cfg, declared)
    requires IsPlan(p, Managed(m, cfg.prefix), declared)
    ensures
      var r := Pass(m, p, NoFailure(p));
      && (!(cfg.prefix <= id) ==> At(r, id) == At(m, id))
      && (id in declared && id in m ==> SyncedAt(r, declared, id))
      && (cfg.prefix <= id ==>
          (SyncedAt(r, declared, id) <==>
           (id in declared && id !in m ==> !Blocked(Remaining(cfg, m, declared), declared[id]))))
  {
    FailureFreeAt(cfg, m, declared, p, id);
    if id in declared {
      assert id == cfg.prefix + Key(cfg.hash, declared[id]);
      if id in m && Equal(m[id], declared[id]) {
        EqualSound(m[id], declared[id]);
      }
    }
  }

  /** Nothing outside the managed part is similar to a declared entry. */
  ghost predicate NoSimilarUnmanaged(cfg: Config, m: Entries, declared: Entries) {
    forall id, id' | id in m && !(cfg.prefix <= id) && id' in declared :: !Similar(m[id], declared[id'])
  }

  /** The kept entries carry the IDs of their content. */
  ghost predicate KeptAddressed(cfg: Config, m: Entries, declared: Entries) {
    forall id | id in m && id in declared :: id == cfg.prefix + Key(cfg.hash, m[id])
  }

  lemma BlockerIsItself(cfg: Config, m: Entries, declared: Entries, id: string, id': string)
    requires DeclaredState(cfg, declared)
    requires KeptAddressed(cfg, m, declared) && NoSimilarUnmanaged(cfg, m, declared)
    requires id in declared && id' in Remaining(cfg, m, declared) && Similar(m[id'], declared[id])
    ensures id' == id
  {
    SimilarSameKey(cfg.hash, m[id'], declared[id]);
    assert Addressed(cfg, declared[id]);
    assert cfg.prefix <= id';
  }

  /** Convergence: one failure-free pass, in any iteration order, leaves exactly the declared
      entries in the managed part. Entries under other IDs that are similar to a declared one do
      not prevent it, because they are deleted first. */
  lemma Converges(cfg: Config, m: Entries, declared: Entries, p: Plan)
    requires DeclaredState(cfg, declared)
    requires IsPlan(p, Managed(m, cfg.prefix), declared)
    requires KeptAddressed(cfg, m, declared) && NoSimilarUnmanaged(cfg, m, declared)
    ensures Converged(cfg, Pass(m, p, NoFailure(p)), declared)
    ensures SameUnmanaged(cfg, m, Pass(m, p, NoFailure(p)))
  {
    forall id | id in declared && id !in m
      ensures !Blocked(Remaining(cfg, m, declared), declared[id])
    {
      forall id' | id' in Remaining(cfg, m, declared) && Similar(m[id'], declared[id])
        ensures id' == id
      {
        BlockerIsItself(cfg, m, declared, id, id');
      }
    }
    OnePassExact(cfg, m, declared, p);
  }

  /** Without content-addressing a second pass may be needed, but no third. */
  lemma TwoPassesConverge(cfg: Config, m: Entries, declared: Entries, p: Plan, p': Plan)
    requires DeclaredState(cfg, declared) && NoSimilarUnmanaged(cfg, m, declared)
    requires IsPlan(p, Managed(m, cfg.prefix), declared)
    requires IsPlan(p', Managed(Pass(m, p, NoFailure(p)), cfg.prefix), declared)
    ensures
      var r := Pass(Pass(m, p, NoFailure(p)), p', NoFailure(p'));
      Converged(cfg, r, declared) && SameUnmanaged(cfg, m, r)
  {
    var m' := Pass(m, p, NoFailure(p));
    OnePassExact(cfg, m, declared, p);
    KeptAddressedAfterPass(cfg, m, declared, p);
    NoSimilarUnmanagedStays(cfg, m, m', declared);
    Converges(cfg, m', declared, p');
    SameUnmanagedTransitive(cfg, m, m', Pass(m', p', NoFailure(p')));
  }

  /** After a failure-free pass, what is kept under a declared ID has the content of that ID. */
  lemma KeptAddressedAfterPass(cfg: Config, m: Entries, declared: Entries, p: Plan)
    requires DeclaredState(cfg, declared)
    requires IsPlan(p, Managed(m, cfg.prefix), declared)
    ensures KeptAddressed(cfg, Pass(m, p, NoFailure(p)), declared)
  {
    var m' := Pass(m, p, NoFailure(p));
    forall id | id in m' && id in declared
      ensures id == cfg.prefix + Key(cfg.hash, m'[id])
    {
      FailureFreeAt(cfg, m, declared, p, id);
      OutcomeSynced(cfg, m, declared, p, id);
      assert At(m', id) == Some(m'[id]);
      assert Similar(m'[id], declared[id]);
      SimilarSameKey(cfg.hash, m'[id], declared[id]);
      assert Addressed(cfg, declared[id]);
    }
  }

  lemma NoSimilarUnmanagedStays(cfg: Config, m: Entries, m': Entries, declared: Entries)
    requires NoSimilarUnmanaged(cfg, m, declared) && SameUnmanaged(cfg, m, m')
    ensures NoSimilarUnmanaged(cfg, m', declared)
  {
    forall id, id' | id in m' && !(cfg.prefix <= id) && id' in declared
      ensures !Similar(m'[id], declared[id'])
    {
      assert At(m', id) == At(m, id);
    }
  }

  lemma SameUnmanagedTransitive(cfg: Config, m: Entries, m': Entries, m'': Entries)
    requires SameUnmanaged(cfg, m, m') && SameUnmanaged(cfg, m', m'')
    ensures SameUnmanaged(cfg, m, m'')
  {
  }

  /** On a converged server a pass creates and deletes nothing, and updates exactly the declared
      entries with two values under one selector type: those are updated again by every pass. */
  lemma PlanAfterConvergence(cfg: Config, m: Entries, declared: Entries, p: Plan)
    requires DeclaredState(cfg, declared) && Converged(cfg, m, declared)
    requires IsPlan(p, Managed(m, cfg.prefix), declared)
    ensures p.creates == [] && p.deletes == []
    ensures forall id | id in declared ::
              declared[id] in p.updates <==> !SingleValued(declared[id].selectors)
    ensures forall e | e in p.updates :: e.id in declared && declared[e.id] == e
  {
    var cur := Managed(m, cfg.prefix);
    forall id: string
      ensures id in declared <==> id in cur
    {
      PrefixOfDeclared(cfg, declared, id);
      assert cfg.prefix <= id ==> SyncedAt(m, declared, id);
    }
    assert ToCreate(cur, declared) == map[] && ToDelete(cur, declared) == map[];
    ListsMembers(p.updates, ToUpdate(cur, declared));
    forall id | id in declared
      ensures declared[id] in p.updates <==> !SingleValued(declared[id].selectors)
    {
      UpdatedIffTwoValued(cfg, m, declared, id);
    }
  }

  lemma UpdatedIffTwoValued(cfg: Config, m: Entries, declared: Entries, id: string)
    requires DeclaredState(cfg, declared) && Converged(cfg, m, declared) && id in declared
    ensures id in ToUpdate(Managed(m, cfg.prefix), declared) <==> !SingleValued(declared[id].selectors)
  {
    PrefixOfDeclared(cfg, declared, id);
    assert SyncedAt(m, declared, id);
    EqualIffSingleValued(m[id], declared[id]);
  }

  /** And the server stays converged, whichever of these updates are carried out. */
  lemma PassAfterConvergence(cfg: Config, m: Entries, declared: Entries, p: Plan, l: Landings)
    requires DeclaredState(cfg, declared) && Converged(cfg, m, declared)
    requires IsPlan(p, Managed(m, cfg.prefix), declared) && Fits(l, p)
    ensures Converged(cfg, Pass(m, p, l), declared) && SameUnmanaged(cfg, m, Pass(m, p, l))
  {
    PlanAfterConvergence(cfg, m, declared, p);
    var r := Pass(m, p, l);
    forall id: string
      ensures !(cfg.prefix <= id) ==> At(r, id) == At(m, id)
      ensures cfg.prefix <= id ==> SyncedAt(r, declared, id)
    {
      assert cfg.prefix <= id ==> SyncedAt(m, declared, id);
      PrefixOfDeclared(cfg, declared, id);
      LandedAt(cfg, m, declared, p, l, id);
      PassAt(cfg, m, declared, p, l, id);
    }
  }
}
