// Passes in which calls fail: what each one achieves, and that repeating them
// reaches the declared state.
module Progress {
  import opened Wrappers
  import opened SpireApi
  import opened EntryKey
  import opened Store
  import opened State
  import opened Convergence

  /** The managed IDs at which the server and the declarations disagree. */
  function OutOfSync(cfg: Config, m: Entries, declared: Entries): set<string> {
    set id | id in m.Keys + declared.Keys && cfg.prefix <= id && !SyncedAt(m, declared, id)
  }

  /** The IDs whose call in the pass was carried out. */
  function LandedIDs(p: Plan, l: Landings): set<string>
    requires Fits(l, p)
  {
    Landed(p.deletes, l.deletes).Keys + Landed(p.creates, l.creates).Keys + Landed(p.updates, l.updates).Keys
  }

  /** Every managed entry has the ID of its content, and nothing else resembles a declaration. */
  ghost predicate Orderly(cfg: Config, m: Entries, declared: Entries) {
    && Keyed(m)
    && AllAddressed(cfg, Managed(m, cfg.prefix))
    && NoSimilarUnmanaged(cfg, m, declared)
  }

  lemma ConvergedIffNoneOutOfSync(cfg: Config, m: Entries, declared: Entries)
    requires DeclaredState(cfg, declared)
    ensures Converged(cfg, m, declared) <==> OutOfSync(cfg, m, declared) == {}
  {
    if OutOfSync(cfg, m, declared) == {} {
      forall id | cfg.prefix <= id
        ensures SyncedAt(m, declared, id)
      {
        if id in m.Keys + declared.Keys {
          assert id !in OutOfSync(cfg, m, declared);
        }
      }
    }
  }

  lemma SimilarSameID(cfg: Config, m: Entries, declared: Entries, id: string, id': string)
    requires DeclaredState(cfg, declared) && Orderly(cfg, m, declared)
    requires id in declared && id' in m && Similar(m[id'], declared[id])
    ensures id == id'
  {
    SimilarSameKey(cfg.hash, m[id'], declared[id]);
    assert Addressed(cfg, declared[id]);
    assert Managed(m, cfg.prefix)[id'] == m[id'];
  }

  /** An orderly server refuses no create of the plan, whichever deletes failed. */
  lemma OrderlyNeverBlocks(cfg: Config, m: Entries, declared: Entries, p: Plan, l: Landings, id: string)
    requires DeclaredState(cfg, declared) && Orderly(cfg, m, declared) && Fits(l, p)
    requires id in declared && id !in m
    ensures !Blocked(AfterDeletes(m, p, l), declared[id])
  {
    forall id' | id' in m
      ensures !Similar(m[id'], declared[id])
    {
      if Similar(m[id'], declared[id]) {
        SimilarSameID(cfg, m, declared, id, id');
      }
    }
  }

  /** Whatever fails, each managed ID is afterwards unchanged or in sync. */
  lemma UnchangedOrSynced(cfg: Config, m: Entries, declared: Entries, p: Plan, l: Landings, id: string)
    requires DeclaredState(cfg, declared) && Orderly(cfg, m, declared)
    requires IsPlan(p, Managed(m, cfg.prefix), declared) && Fits(l, p) && cfg.prefix <= id
    ensures
      var r := Pass(m, p, l);
      if id in LandedIDs(p, l) then SyncedAt(r, declared, id) else At(r, id) == At(m, id)
  {
    LandedAt(cfg, m, declared, p, l, id);
    PassAt(cfg, m, declared, p, l, id);
    if id in declared && id !in m {
      OrderlyNeverBlocks(cfg, m, declared, p, l, id);
    }
  }

  /** The out-of-sync IDs after a pass are those before it minus the ones whose call was carried out. */
  lemma PassRepairs(cfg: Config, m: Entries, declared: Entries, p: Plan, l: Landings)
    requires DeclaredState(cfg, declared) && Orderly(cfg, m, declared)
    requires IsPlan(p, Managed(m, cfg.prefix), declared) && Fits(l, p)
    ensures OutOfSync(cfg, Pass(m, p, l), declared) == OutOfSync(cfg, m, declared) - LandedIDs(p, l)
  {
    var r := Pass(m, p, l);
    forall id: string
      ensures id in OutOfSync(cfg, r, declared) <==> id in OutOfSync(cfg, m, declared) - LandedIDs(p, l)
    {
      if cfg.prefix <= id {
        UnchangedOrSynced(cfg, m, declared, p, l, id);
      }
    }
  }

  /** The plan has a call for every out-of-sync ID. */
  lemma PlanCoversOutOfSync(cfg: Config, m: Entries, declared: Entries, p: Plan)
    requires DeclaredState(cfg, declared)
    requires IsPlan(p, Managed(m, cfg.prefix), declared)
    ensures OutOfSync(cfg, m, declared) <= LandedIDs(p, NoFailure(p))
  {
    var cur, l := Managed(m, cfg.prefix), NoFailure(p);
    LandedMembers(p.deletes, ToDelete(cur, declared), l.deletes);
    LandedMembers(p.creates, ToCreate(cur, declared), l.creates);
    LandedMembers(p.updates, ToUpdate(cur, declared), l.updates);
    forall id | id in OutOfSync(cfg, m, declared)
      ensures id in LandedIDs(p, l)
    {
      if id in declared && id in m && Equal(m[id], declared[id]) {
        EqualSound(m[id], declared[id]);
      }
    }
  }

  /** A pass with failures leaves the server orderly. */
  lemma PassKeepsOrderly(cfg: Config, m: Entries, declared: Entries, p: Plan, l: Landings)
    requires DeclaredState(cfg, declared) && Orderly(cfg, m, declared)
    requires IsPlan(p, Managed(m, cfg.prefix), declared) && Fits(l, p)
    ensures Orderly(cfg, Pass(m, p, l), declared)
    ensures SameUnmanaged(cfg, m, Pass(m, p, l))
  {
    hide Pass, Landed, AfterDeletes, Blocked, Orderly;
    var r := Pass(m, p, l);
    forall id: string
      ensures At(r, id) == At(m, id) || At(r, id) == None || (id in declared && At(r, id) == Some(declared[id]))
      ensures !(cfg.prefix <= id) ==> At(r, id) == At(m, id)
    {
      PassAt(cfg, m, declared, p, l, id);
      LandedAt(cfg, m, declared, p, l, id);
      PrefixOfDeclared(cfg, declared, id);
    }
    OrderlyStays(cfg, m, r, declared);
  }

  /** Entries that stay, go or become declared ones leave an orderly server orderly. */
  lemma OrderlyStays(cfg: Config, m: Entries, r: Entries, declared: Entries)
    requires DeclaredState(cfg, declared) && Orderly(cfg, m, declared)
    requires forall id ::
      At(r, id) == At(m, id) || At(r, id) == None || (id in declared && At(r, id) == Some(declared[id]))
    requires forall id | !(cfg.prefix <= id) :: At(r, id) == At(m, id)
    ensures Orderly(cfg, r, declared) && SameUnmanaged(cfg, m, r)
  {
    hide Addressed;
    assert SameUnmanaged(cfg, m, r);
    NoSimilarUnmanagedStays(cfg, m, r, declared);
    forall id | id in r
      ensures r[id].id == id
      ensures cfg.prefix <= id ==> Addressed(cfg, r[id])
    {
      assert At(r, id) == Some(r[id]);
      if At(r, id) == At(m, id) && cfg.prefix <= id {
        assert Managed(m, cfg.prefix)[id] == m[id];
      }
    }
  }

  // ----- repeated passes over a frozen world

  datatype Round = Round(plan: Plan, landings: Landings)

  /** A history of passes, the latest one last. */
  datatype Rounds = Start | Then(earlier: Rounds, round: Round) {
    function Count(): nat {
      match this
      case Start => 0
      case Then(earlier, _) => earlier.Count() + 1
    }

    /** The server after these passes. */
    function After(m: Entries): Entries {
      match this
      case Start => m
      case Then(earlier, round) =>
        if Fits(round.landings, round.plan) then Pass(earlier.After(m), round.plan, round.landings)
        else earlier.After(m)
    }

    /** Every pass works from a plan for the server as the previous pass left it. */
    ghost predicate Feasible(cfg: Config, m: Entries, declared: Entries) {
      match this
      case Start => true
      case Then(earlier, round) =>
        && earlier.Feasible(cfg, m, declared)
        && Fits(round.landings, round.plan)
        && IsPlan(round.plan, Managed(earlier.After(m), cfg.prefix), declared)
    }

    /** In every pass at least one out-of-sync ID, if there is any, has its call carried out. */
    ghost predicate Effective(cfg: Config, m: Entries, declared: Entries) {
      match this
      case Start => true
      case Then(earlier, round) =>
        && earlier.Effective(cfg, m, declared)
        && Fits(round.landings, round.plan)
        && var out := OutOfSync(cfg, earlier.After(m), declared);
           out == {} || out * LandedIDs(round.plan, round.landings) != {}
    }
  }

  lemma SmallerWithout(a: set<string>, b: set<string>)
    ensures |a - b| <= |a|
    ensures a * b != {} ==> |a - b| < |a|
  {
  }

  /** However many calls fail, the server stays orderly and the out-of-sync IDs only shrink, by one
      or more in each pass that achieves something. */
  lemma {:induction false} RepeatedPassesShrink(cfg: Config, m: Entries, declared: Entries, rounds: Rounds)
    requires DeclaredState(cfg, declared) && Orderly(cfg, m, declared)
    requires rounds.Feasible(cfg, m, declared)
    ensures Orderly(cfg, rounds.After(m), declared)
    ensures OutOfSync(cfg, rounds.After(m), declared) <= OutOfSync(cfg, m, declared)
    ensures rounds.Effective(cfg, m, declared) ==>
              var left := |OutOfSync(cfg, rounds.After(m), declared)|;
              left == 0 || left + rounds.Count() <= |OutOfSync(cfg, m, declared)|
  {
    match rounds
    case Start =>
    case Then(earlier, round) =>
      RepeatedPassesShrink(cfg, m, declared, earlier);
      var now := earlier.After(m);
      PassRepairs(cfg, now, declared, round.plan, round.landings);
      PassKeepsOrderly(cfg, now, declared, round.plan, round.landings);
      SmallerWithout(OutOfSync(cfg, now, declared), LandedIDs(round.plan, round.landings));
  }

  /** So the server has converged after at most as many such passes as there were out-of-sync IDs. */
  lemma RepeatedPassesConverge(cfg: Config, m: Entries, declared: Entries, rounds: Rounds)
    requires DeclaredState(cfg, declared) && Orderly(cfg, m, declared)
    requires rounds.Feasible(cfg, m, declared) && rounds.Effective(cfg, m, declared)
    requires rounds.Count() >= |OutOfSync(cfg, m, declared)|
    ensures Converged(cfg, rounds.After(m), declared)
  {
    RepeatedPassesShrink(cfg, m, declared, rounds);
    var left := OutOfSync(cfg, rounds.After(m), declared);
    assert |left| == 0;
    ConvergedIffNoneOutOfSync(cfg, rounds.After(m), declared);
  }
}
