// The diff engine (internal/spireentry/state.go).
module State {
  import opened SpireApi
  import opened EntryKey
  import opened Store

  // ----- equality of two entries

  /** The last value under each selector type. */
  function LastValues(selectors: seq<Selector>): map<string, string> {
    if selectors == [] then map[]
    else
      var last := selectors[|selectors| - 1];
      LastValues(selectors[..|selectors| - 1])[last.typ := last.value]
  }

  /** The test that decides between "up to date" and "update". */
  predicate Equal(a: Entry, b: Entry) {
    && a.spiffeID == b.spiffeID && a.parentID == b.parentID
    && |a.selectors| == |b.selectors|
    && (var values := LastValues(a.selectors);
        forall s | s in b.selectors :: s.typ in values && values[s.typ] == s.value)
    && SameAttributes(a, b)
  }

  predicate DuplicateFree<T(==)>(s: seq<T>) {
    forall i, j | 0 <= i < j < |s| :: s[i] != s[j]
  }

  predicate SingleValued(selectors: seq<Selector>) {
    forall s, t | s in selectors && t in selectors && s.typ == t.typ :: s.value == t.value
  }

  lemma {:induction false} LastValuesAreSelectors(s: seq<Selector>)
    ensures forall t | t in LastValues(s) :: Selector(t, LastValues(s)[t]) in s
    ensures forall x | x in s :: x.typ in LastValues(s)
    ensures |LastValues(s)| <= |s|
  {
    if s != [] {
      LastValuesAreSelectors(s[..|s| - 1]);
      assert s == s[..|s| - 1] + [s[|s| - 1]];
    }
  }

  /** The selector at `i` is the last one of its type. */
  predicate LastOfType(s: seq<Selector>, i: nat) {
    i < |s| && forall j | i < j < |s| :: s[j].typ != s[i].typ
  }

  lemma LastOfTypeNext(s: seq<Selector>, i: nat)
    requires i < |s|
    ensures
      var n := |s| - 1;
      LastOfType(s, i) <==> i == n || (LastOfType(s[..n], i) && s[n].typ != s[i].typ)
  {
  }

  /** The value under a type is that of the last selector of the type. */
  lemma {:induction false} LastValuesMeans(s: seq<Selector>, typ: string, value: string)
    ensures typ in LastValues(s) && LastValues(s)[typ] == value <==>
              exists i | 0 <= i < |s| :: LastOfType(s, i) && s[i] == Selector(typ, value)
  {
    if s != [] {
      var n := |s| - 1;
      LastValuesMeans(s[..n], typ, value);
      hide LastOfType;
      forall i | 0 <= i < |s|
        ensures LastOfType(s, i) <==> i == n || (LastOfType(s[..n], i) && s[n].typ != s[i].typ)
      {
        LastOfTypeNext(s, i);
      }
      assert LastOfType(s, n);
      assert forall i | 0 <= i < n :: s[..n][i] == s[i];
    }
  }

  /** Two lists of the same length, one without duplicates and contained in the other, are permutations. */
  lemma {:induction false} ContainedIsPermutation<T>(a: seq<T>, b: seq<T>)
    requires |a| == |b| && DuplicateFree(b) && forall x | x in b :: x in a
    ensures multiset(a) == multiset(b)
  {
    if b != [] {
      var init, last := b[..|b| - 1], b[|b| - 1];
      assert b == init + [last];
      assert last in a;
      var i :| 0 <= i < |a| && a[i] == last;
      var rest := a[..i] + a[i + 1..];
      assert a == a[..i] + [last] + a[i + 1..];
      forall x | x in init
        ensures x in rest
      {
        assert x in a && x != last;
      }
      ContainedIsPermutation(rest, init);
    }
  }

  /** Equal is sound when the declared selectors have no duplicates. */
  lemma EqualSound(a: Entry, b: Entry)
    requires Equal(a, b) && DuplicateFree(b.selectors)
    ensures InSync(a, b)
  {
    LastValuesAreSelectors(a.selectors);
    forall x | x in b.selectors
      ensures x in a.selectors
    {
      assert Selector(x.typ, LastValues(a.selectors)[x.typ]) == x;
    }
    ContainedIsPermutation(a.selectors, b.selectors);
  }

  /** On entries that agree, Equal holds exactly when no selector type has two values. */
  lemma EqualIffSingleValued(a: Entry, b: Entry)
    requires InSync(a, b)
    ensures Equal(a, b) <==> SingleValued(b.selectors)
  {
    LastValuesAreSelectors(a.selectors);
    assert |a.selectors| == |multiset(a.selectors)| == |multiset(b.selectors)| == |b.selectors|;
    forall x
      ensures x in a.selectors <==> x in b.selectors
    {
      assert x in multiset(a.selectors) <==> x in multiset(b.selectors);
    }
  }

  /** So against a declaration without duplicate selectors: */
  lemma EqualExact(a: Entry, b: Entry)
    requires DuplicateFree(b.selectors)
    ensures Equal(a, b) <==> InSync(a, b) && SingleValued(b.selectors)
  {
    if Equal(a, b) {
      EqualSound(a, b);
    }
    if InSync(a, b) {
      EqualIffSingleValued(a, b);
    }
  }

  /** With a duplicated declared selector, entries with different selectors pass as equal. */
  lemma EqualUnsoundWithDuplicates(e: Entry)
    ensures
      var x, y := Selector("k8s", "ns:x"), Selector("k8s", "ns:y");
      var a, b := e.(selectors := [x, y]), e.(selectors := [y, y]);
      Equal(a, b) && !InSync(a, b)
  {
  }

  /** Behind any other selectors, those of a single-valued list are the last of their types. */
  lemma {:induction false} LastOfSingleValued(before: seq<Selector>, s: seq<Selector>)
    requires SingleValued(s)
    ensures forall x | x in s :: x.typ in LastValues(before + s) && LastValues(before + s)[x.typ] == x.value
  {
    if s != [] {
      var init, last := s[..|s| - 1], s[|s| - 1];
      assert (before + s)[..|before + s| - 1] == before + init;
      LastOfSingleValued(before, init);
      assert s == init + [last];
    }
  }

  /** No entry is equal to one with two values under a selector type. */
  lemma TwoValuedNeverEqual(a: Entry, b: Entry)
    requires !SingleValued(b.selectors)
    ensures !Equal(a, b)
  {
  }

  /** The duplicate of a selector can be exchanged for another value of its type without Equal noticing. */
  lemma DuplicateUnnoticed(b: Entry) returns (a: Entry)
    requires !DuplicateFree(b.selectors) && SingleValued(b.selectors)
    ensures Equal(a, b) && !InSync(a, b)
  {
    var s := b.selectors;
    var i, j :| 0 <= i < j < |s| && s[i] == s[j];
    var other, rest := Selector(s[i].typ, s[i].value + "x"), s[..i] + s[i + 1..];
    a := b.(selectors := [other] + rest);
    assert s == s[..i] + [s[i]] + s[i + 1..];
    assert s[i + 1..][j - i - 1] == s[i];
    LastOfSingleValued([other], rest);
    assert forall x :: x in rest <==> x in s;
    assert other in a.selectors && other !in s;
    assert other in multiset(a.selectors) && other !in multiset(s);
  }

  /** Exactly for which declared selectors a true result means agreement: those without duplicates, and
      those for which there are no true results. */
  lemma EqualSoundExactly(b: Entry)
    ensures (forall a :: Equal(a, b) ==> InSync(a, b)) <==> DuplicateFree(b.selectors) || !SingleValued(b.selectors)
  {
    forall a | Equal(a, b)
      ensures DuplicateFree(b.selectors) ==> InSync(a, b)
      ensures SingleValued(b.selectors)
    {
      if !SingleValued(b.selectors) {
        TwoValuedNeverEqual(a, b);
      }
      if DuplicateFree(b.selectors) {
        EqualSound(a, b);
      }
    }
    if !DuplicateFree(b.selectors) && SingleValued(b.selectors) {
      var a := DuplicateUnnoticed(b);
    }
  }

  // ----- IDs

  /** The ID prefix of the registrar and the hash of its entry keys. */
  datatype Config = Config(prefix: string, hash: string -> string)

  function Address(cfg: Config, e: Entry): Entry {
    e.(id := cfg.prefix + Key(cfg.hash, e))
  }

  /** The ID is the prefix and the hash of the pieces of the key; nothing else changes. */
  lemma AddressMeans(cfg: Config, e: Entry)
    ensures exists sorted, pieces | KeyPieces(e, sorted, pieces) ::
              Address(cfg, e) == e.(id := cfg.prefix + cfg.hash(Concat(pieces)))
  {
    PreimageHasPieces(e);
    hide KeyPieces, Concat, Preimage;
  }

  /** Content-addressed: the ID is the prefix and the key of the content. */
  predicate Addressed(cfg: Config, e: Entry) {
    e.id == cfg.prefix + Key(cfg.hash, e)
  }

  /** Every entry carries the ID of its content. */
  predicate AllAddressed(cfg: Config, m: Entries) {
    forall id | id in m :: Addressed(cfg, m[id])
  }

  // ----- the diff

  function ToCreate(current: Entries, declared: Entries): Entries {
    declared - current.Keys
  }

  function ToUpdate(current: Entries, declared: Entries): Entries {
    map id | id in declared && id in current && !Equal(current[id], declared[id]) :: declared[id]
  }

  function ToDelete(current: Entries, declared: Entries): Entries {
    current - declared.Keys
  }

  datatype Plan = Plan(creates: seq<Entry>, updates: seq<Entry>, deletes: seq<Entry>)

  /** The plan lists exactly what the diff asks for, in any order. */
  ghost predicate IsPlan(p: Plan, current: Entries, declared: Entries) {
    && Lists(p.creates, ToCreate(current, declared))
    && Lists(p.updates, ToUpdate(current, declared))
    && Lists(p.deletes, ToDelete(current, declared))
  }

  class EntriesState {
    var current: Entries
    var declared: Entries
    const entryPrefix: string
    const hash: string -> string

    constructor (entryPrefix: string, hash: string -> string)
      ensures Valid() && current == map[] && declared == map[]
      ensures Cfg() == Config(entryPrefix, hash)
    {
      current, declared := map[], map[];
      this.entryPrefix := entryPrefix;
      this.hash := hash;
    }

    ghost predicate Valid()
      reads this
    {
      Keyed(current) && Keyed(declared)
    }

    ghost function Cfg(): Config {
      Config(entryPrefix, hash)
    }

    method AddCurrent(entry: Entry)
      requires Valid()
      modifies this`current
      ensures Valid()
      ensures current == old(current)[entry.id := entry]
    {
      current := current[entry.id := entry];
    }

    method AddDeclared(entry: Entry)
      requires Valid()
      modifies this`declared
      ensures Valid()
      ensures declared == old(declared)[Address(Cfg(), entry).id := Address(Cfg(), entry)]
    {
      var key := MakeEntryKey(hash, entry);
      var e := entry;
      if entryPrefix != "" {
        e := e.(id := entryPrefix + key);
      } else {
        e := e.(id := key);
        assert entryPrefix + key == key;
      }
      declared := declared[e.id := e];
    }

    method GetChanges() returns (toCreate: seq<Entry>, toUpdate: seq<Entry>, toDelete: seq<Entry>)
      requires Valid()
      ensures IsPlan(Plan(toCreate, toUpdate, toDelete), current, declared)
    {
      toCreate, toUpdate := DeclaredChanges();
      toDelete := UndeclaredChanges();
    }

    /** The loop over the declared entries, in any order. */
    method DeclaredChanges() returns (toCreate: seq<Entry>, toUpdate: seq<Entry>)
      requires Valid()
      ensures Lists(toCreate, ToCreate(current, declared)) && Lists(toUpdate, ToUpdate(current, declared))
    {
      toCreate, toUpdate := [], [];
      ghost var c, u := ToCreate(current, declared), ToUpdate(current, declared);
      var todo := declared.Keys;
      VisitedNone(c, todo);
      VisitedNone(u, todo);
      while todo != {}
        invariant todo <= declared.Keys
        invariant Lists(toCreate, Visited(c, todo)) && Lists(toUpdate, Visited(u, todo))
      {
        var id :| id in todo;
        ListsVisit(toCreate, c, todo, id);
        ListsVisit(toUpdate, u, todo, id);
        todo := todo - {id};
        var d := declared[id];
        if id !in current {
          toCreate := toCreate + [d];
        } else {
          var equal := EntriesEqual(current[id], d);
          if !equal {
            d := d.(id := current[id].id);
            toUpdate := toUpdate + [d];
          }
        }
      }
      VisitedAll(c);
      VisitedAll(u);
    }

    /** The loop over the current entries, in any order. */
    method UndeclaredChanges() returns (toDelete: seq<Entry>)
      requires Valid()
      ensures Lists(toDelete, ToDelete(current, declared))
    {
      toDelete := [];
      ghost var d := ToDelete(current, declared);
      var todo := current.Keys;
      VisitedNone(d, todo);
      while todo != {}
        invariant todo <= current.Keys
        invariant Lists(toDelete, Visited(d, todo))
      {
        var id :| id in todo;
        ListsVisit(toDelete, d, todo, id);
        todo := todo - {id};
        if id !in declared {
          toDelete := toDelete + [current[id]];
        }
      }
      VisitedAll(d);
    }

    method EntriesEqual(a: Entry, b: Entry) returns (r: bool)
      ensures r <==> Equal(a, b)
    {
      if a.spiffeID != b.spiffeID || a.parentID != b.parentID {
        return false;
      }
      if |a.selectors| != |b.selectors| {
        return false;
      }
      var aSelectors: map<string, string> := map[];
      for i := 0 to |a.selectors|
        invariant aSelectors == LastValues(a.selectors[..i])
      {
        aSelectors := aSelectors[a.selectors[i].typ := a.selectors[i].value];
        assert a.selectors[..i + 1][..i] == a.selectors[..i];
      }
      assert a.selectors[..|a.selectors|] == a.selectors;
      for i := 0 to |b.selectors|
        invariant forall s | s in b.selectors[..i] :: s.typ in aSelectors && aSelectors[s.typ] == s.value
      {
        var sel := b.selectors[i];
        if sel.typ !in aSelectors || aSelectors[sel.typ] != sel.value {
          return false;
        }
      }
      var outdatedFields := GetOutdatedEntryFields(b, a);
      if |outdatedFields| > 0 {
        return false;
      }
      return true;
    }
  }
}
