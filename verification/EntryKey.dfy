// The entry key and the comparison of two entries (internal/spireentry/entries.go).
module EntryKey {
  import opened Text
  import opened Sorting
  import opened Spiffe
  import opened SpireApi

  predicate SelectorLess(a: Selector, b: Selector) {
    if Less(a.typ, b.typ) then true
    else if Less(b.typ, a.typ) then false
    else Less(a.value, b.value)
  }

  lemma LessIsTotalOrder()
    ensures StrictTotalOrder(Less)
  {
    forall x { LessIrreflexive(x); }
    forall x, y, z | Less(x, y) && Less(y, z) { LessTransitive(x, y, z); }
    forall x, y { LessTotal(x, y); }
  }

  lemma SelectorLessTransitive(x: Selector, y: Selector, z: Selector)
    requires SelectorLess(x, y) && SelectorLess(y, z)
    ensures SelectorLess(x, z)
  {
    LessTotal(x.typ, y.typ);
    LessTotal(y.typ, z.typ);
    LessIrreflexive(x.typ);
    if Less(x.typ, y.typ) && Less(y.typ, z.typ) {
      LessTransitive(x.typ, y.typ, z.typ);
    } else if x.typ == y.typ == z.typ {
      LessTransitive(x.value, y.value, z.value);
    }
  }

  lemma SelectorLessIsTotalOrder()
    ensures StrictTotalOrder(SelectorLess)
  {
    forall x: Selector
      ensures !SelectorLess(x, x)
    {
      LessIrreflexive(x.typ);
      LessIrreflexive(x.value);
    }
    forall x, y, z | SelectorLess(x, y) && SelectorLess(y, z)
      ensures SelectorLess(x, z)
    {
      SelectorLessTransitive(x, y, z);
    }
    forall x: Selector, y: Selector
      ensures SelectorLess(x, y) || SelectorLess(y, x) || x == y
    {
      LessTotal(x.typ, y.typ);
      LessTotal(x.value, y.value);
    }
  }

  /** By type, and within a type by value. */
  ghost predicate InSelectorOrder(s: seq<Selector>) {
    forall i, j | 0 <= i < j < |s| ::
      && (s[i].typ == s[j].typ || Less(s[i].typ, s[j].typ))
      && (s[i].typ == s[j].typ ==> !Less(s[j].value, s[i].value))
  }

  lemma SortedIsInOrder(s: seq<Selector>)
    ensures InSelectorOrder(s) <==> Sorted(s, SelectorLess)
  {
    if Sorted(s, SelectorLess) {
      SortedPairs(s, SelectorLess);
      forall i, j | 0 <= i < j < |s|
        ensures s[i].typ == s[j].typ || Less(s[i].typ, s[j].typ)
        ensures s[i].typ == s[j].typ ==> !Less(s[j].value, s[i].value)
      {
        LessTotal(s[i].typ, s[j].typ);
        LessIrreflexive(s[i].typ);
      }
    }
    if InSelectorOrder(s) {
      OrderIsSorted(s);
    }
  }

  lemma {:induction false} OrderIsSorted(s: seq<Selector>)
    requires InSelectorOrder(s)
    ensures Sorted(s, SelectorLess)
  {
    if s != [] {
      var init, last := s[..|s| - 1], s[|s| - 1];
      OrderIsSorted(init);
      forall y | y in init
        ensures !SelectorLess(last, y)
      {
        var i :| 0 <= i < |init| && init[i] == y;
        assert s[i] == y;
        NotBoth(y.typ, last.typ);
        LessIrreflexive(last.typ);
      }
    }
  }

  lemma NotBoth(a: string, b: string)
    ensures !(Less(a, b) && Less(b, a))
  {
    if Less(a, b) && Less(b, a) {
      LessTransitive(a, b, a);
      LessIrreflexive(a);
    }
  }

  /** sortSelectors: a copy, sorted by type and within a type by value. */
  method SortSelectors(unsorted: seq<Selector>) returns (sorted: seq<Selector>)
    ensures InSelectorOrder(sorted) && multiset(sorted) == multiset(unsorted)
    ensures sorted == Sort(unsorted, SelectorLess)
    ensures IsSortOf(sorted, unsorted, SelectorLess)
  {
    var a := new Selector[|unsorted|](i requires 0 <= i < |unsorted| => unsorted[i]);
    assert a[..] == unsorted;
    SortSlice(a, SelectorLess);
    sorted := a[..];
    SelectorLessIsTotalOrder();
    SortSorts(unsorted, SelectorLess);
    SortedIsInOrder(sorted);
  }

  // ----- the key

  function Flatten(selectors: seq<Selector>): string {
    if selectors == [] then ""
    else Flatten(selectors[..|selectors| - 1]) + selectors[|selectors| - 1].typ + selectors[|selectors| - 1].value
  }

  /** The bytes that makeEntryKey hashes: no separator between the fields. */
  function Preimage(e: Entry): string {
    e.spiffeID.String() + e.parentID.String() + Flatten(Sort(e.selectors, SelectorLess))
  }

  /** `hash` is SHA-256 followed by hexadecimal encoding. */
  function Key(hash: string -> string, e: Entry): string {
    hash(Preimage(e))
  }

  /** The pieces one after the other. */
  function Concat(pieces: seq<string>): string {
    if pieces == [] then "" else Concat(pieces[..|pieces| - 1]) + pieces[|pieces| - 1]
  }

  /** The pieces of a key: the SPIFFE ID, the parent ID, and type and value of each selector, in the order of
      types and values. */
  ghost predicate KeyPieces(e: Entry, sorted: seq<Selector>, pieces: seq<string>) {
    && InSelectorOrder(sorted) && multiset(sorted) == multiset(e.selectors)
    && |pieces| == 2 + 2 * |sorted|
    && pieces[0] == e.spiffeID.String() && pieces[1] == e.parentID.String()
    && forall i | 0 <= i < |sorted| :: pieces[2 + 2 * i] == sorted[i].typ && pieces[3 + 2 * i] == sorted[i].value
  }

  lemma ConcatMore(pieces: seq<string>, piece: string)
    ensures Concat(pieces + [piece]) == Concat(pieces) + piece
  {
    assert (pieces + [piece])[..|pieces|] == pieces;
  }

  lemma {:induction false} FlattenPieces(first: string, second: string, sorted: seq<Selector>)
      returns (pieces: seq<string>)
    ensures |pieces| == 2 + 2 * |sorted| && pieces[0] == first && pieces[1] == second
    ensures forall i | 0 <= i < |sorted| :: pieces[2 + 2 * i] == sorted[i].typ && pieces[3 + 2 * i] == sorted[i].value
    ensures Concat(pieces) == first + second + Flatten(sorted)
  {
    hide Concat;
    if sorted == [] {
      ConcatTwo(first, second);
      pieces := [first, second];
    } else {
      var n := |sorted| - 1;
      var before := FlattenPieces(first, second, sorted[..n]);
      pieces := before + [sorted[n].typ] + [sorted[n].value];
      ConcatMore(before, sorted[n].typ);
      ConcatMore(before + [sorted[n].typ], sorted[n].value);
    }
  }

  lemma ConcatTwo(first: string, second: string)
    ensures Concat([first, second]) == first + second
  {
    ConcatMore([], first);
    ConcatMore([first], second);
    assert [] + [first] == [first] && [first] + [second] == [first, second];
  }

  /** What is hashed are the pieces of the key. */
  lemma PreimageHasPieces(e: Entry)
    ensures exists sorted, pieces :: KeyPieces(e, sorted, pieces) && Preimage(e) == Concat(pieces)
  {
    hide Sort, Flatten, SelectorLess, InSelectorOrder, Concat, StrictTotalOrder, SpiffeIDParts.String;
    var sorted := Sort(e.selectors, SelectorLess);
    SelectorLessIsTotalOrder();
    SortSorts(e.selectors, SelectorLess);
    SortedIsInOrder(sorted);
    var pieces := FlattenPieces(e.spiffeID.String(), e.parentID.String(), sorted);
    assert KeyPieces(e, sorted, pieces);
  }

  lemma FlattenNone()
    ensures Flatten([]) == ""
  {
  }

  /** One more selector written. */
  lemma FlattenNext(ids: string, selectors: seq<Selector>, i: nat)
    requires i < |selectors|
    ensures ids + Flatten(selectors[..i + 1]) ==
            ids + Flatten(selectors[..i]) + selectors[i].typ + selectors[i].value
  {
    assert selectors[..i + 1][..i] == selectors[..i];
  }

  method MakeEntryKey(hash: string -> string, entry: Entry) returns (key: string)
    ensures exists sorted, pieces :: KeyPieces(entry, sorted, pieces) && key == hash(Concat(pieces))
    ensures key == Key(hash, entry)
  {
    PreimageHasPieces(entry);
    hide KeyPieces, Concat, Flatten, Sort, SelectorLess;
    FlattenNone();
    var h := entry.spiffeID.String();
    h := h + entry.parentID.String();
    var sorted := SortSelectors(entry.selectors);
    assert sorted[..0] == [];
    ghost var ids := h;
    for i := 0 to |sorted|
      invariant h == ids + Flatten(sorted[..i])
    {
      FlattenNext(ids, sorted, i);
      h := h + sorted[i].typ;
      h := h + sorted[i].value;
    }
    assert sorted[..|sorted|] == sorted;
    key := hash(h);
  }

  /** Whatever the order of its selectors, an entry gets the same key, for every hash. */
  lemma SimilarSameKey(hash: string -> string, a: Entry, b: Entry)
    requires Similar(a, b)
    ensures Preimage(a) == Preimage(b) && Key(hash, a) == Key(hash, b)
  {
    SelectorLessIsTotalOrder();
    SortEqualIffPermutation(a.selectors, b.selectors, SelectorLess);
  }

  /** The sorted copy is the only permutation of the selectors in that order. */
  lemma SortSelectorsUnique(r: seq<Selector>, s: seq<Selector>)
    ensures IsSortOf(r, s, SelectorLess) <==> r == Sort(s, SelectorLess)
    ensures InSelectorOrder(r) && multiset(r) == multiset(s) <==> r == Sort(s, SelectorLess)
  {
    SortedIsInOrder(r);
    SelectorLessIsTotalOrder();
    SortSorts(s, SelectorLess);
    if IsSortOf(r, s, SelectorLess) {
      SortedUnique(r, Sort(s, SelectorLess), SelectorLess);
    }
  }

  /** Where the second scheme starts is where the first ID ends. */
  lemma SecondColon(id: SpiffeID, parent: SpiffeID, rest: string)
    ensures Index((id.String() + parent.String() + rest)[7..], ':') == |id.String()| - 1
  {
    var s := (id.String() + parent.String() + rest)[7..];
    OneColon(id);
    OneColon(parent);
    assert parent.String() == "spiffe" + [':'] + parent.String()[7..];
    var field, tail := id.String()[7..] + "spiffe", parent.String()[7..] + rest;
    assert s == field + [':'] + tail;
    IndexOfField(field, ':', tail);
  }

  /** The fields are written without separators, and still the preimage determines the SPIFFE ID. */
  lemma PreimageFixesSpiffeID(a: Entry, b: Entry)
    requires Preimage(a) == Preimage(b)
    ensures a.spiffeID == b.spiffeID
  {
    var p := Preimage(a);
    SecondColon(a.spiffeID, a.parentID, Flatten(Sort(a.selectors, SelectorLess)));
    SecondColon(b.spiffeID, b.parentID, Flatten(Sort(b.selectors, SelectorLess)));
    assert |a.spiffeID.String()| == |b.spiffeID.String()|;
    assert a.spiffeID.String() == p[..|a.spiffeID.String()|] == b.spiffeID.String();
    FromStringRoundTrip(a.spiffeID);
    FromStringRoundTrip(b.spiffeID);
  }

  /** It does not determine the rest: the end of the parent ID can move into a selector. */
  lemma PreimageIsAmbiguous(hash: string -> string, e: Entry)
    ensures
      var td := TrustDomainName("a");
      var x := e.(parentID := SpiffeIDParts(td, ""), selectors := [Selector("bk8s", "v")]);
      var y := e.(parentID := SpiffeIDParts(TrustDomainName("ab"), ""), selectors := [Selector("k8s", "v")]);
      x.parentID != y.parentID && Key(hash, x) == Key(hash, y)
  {
    var td := TrustDomainName("a");
    var sx, sy := [Selector("bk8s", "v")], [Selector("k8s", "v")];
    assert Sort(sx, SelectorLess) == sx by { assert sx[..0] == []; }
    assert Sort(sy, SelectorLess) == sy by { assert sy[..0] == []; }
    assert Flatten(sx) == "bk8s" + "v" by { assert sx[..0] == []; }
    assert Flatten(sy) == "k8s" + "v" by { assert sy[..0] == []; }
    var idx, idy := SpiffeIDParts(td, ""), SpiffeIDParts(TrustDomainName("ab"), "");
    assert idx.String() + Flatten(sx) == idy.String() + Flatten(sy);
    var x, y := e.(parentID := idx, selectors := sx), e.(parentID := idy, selectors := sy);
    assert Preimage(x) == e.spiffeID.String() + (idx.String() + Flatten(sx));
    assert Preimage(y) == e.spiffeID.String() + (idy.String() + Flatten(sy));
  }

  /** The selectors are of the same lengths, position by position. */
  predicate SameLengths(r: seq<Selector>, s: seq<Selector>) {
    && |r| == |s|
    && forall i | 0 <= i < |r| :: |r[i].typ| == |s[i].typ| && |r[i].value| == |s[i].value|
  }

  lemma {:induction false} FlattenInjective(r: seq<Selector>, s: seq<Selector>)
    requires SameLengths(r, s) && Flatten(r) == Flatten(s)
    ensures r == s
  {
    if r != [] {
      var n := |r| - 1;
      var x, y := Flatten(r[..n]), Flatten(s[..n]);
      LastPieces(x, r[n].typ, r[n].value, y, s[n].typ, s[n].value);
      FlattenInjective(r[..n], s[..n]);
      assert r == r[..n] + [r[n]] && s == s[..n] + [s[n]];
    }
  }

  lemma LastPieces(x: string, t: string, v: string, y: string, t': string, v': string)
    requires x + t + v == y + t' + v' && |t| == |t'| && |v| == |v'|
    ensures x == y && t == t' && v == v'
  {
    var s := x + t + v;
    assert |x| == |y|;
    assert s[..|x|] == x && s[..|x|] == y;
    assert s[|x|..|x| + |t|] == t && s[|x|..|x| + |t|] == t';
    assert s[|x| + |t|..] == v && s[|x| + |t|..] == v';
  }

  /** The pieces of a preimage, once it is known how long the parent ID is. */
  lemma SplitPreimage(a: Entry, b: Entry)
    requires Preimage(a) == Preimage(b) && |a.parentID.String()| == |b.parentID.String()|
    ensures a.spiffeID == b.spiffeID && a.parentID == b.parentID
    ensures Flatten(Sort(a.selectors, SelectorLess)) == Flatten(Sort(b.selectors, SelectorLess))
  {
    hide Flatten, Sort;
    PreimageFixesSpiffeID(a, b);
    var p, n := Preimage(a), |a.spiffeID.String()|;
    var k := n + |a.parentID.String()|;
    assert p[n..k] == a.parentID.String() && p[n..k] == b.parentID.String();
    assert p[k..] == Flatten(Sort(a.selectors, SelectorLess)) && p[k..] == Flatten(Sort(b.selectors, SelectorLess));
    FromStringRoundTrip(a.parentID);
    FromStringRoundTrip(b.parentID);
  }

  /** Exactly when entries with equal preimages are similar: when the boundaries between their fields
      are in the same places. */
  lemma PreimageExact(a: Entry, b: Entry)
    requires Preimage(a) == Preimage(b)
    ensures Similar(a, b) <==>
              |a.parentID.String()| == |b.parentID.String()| &&
              SameLengths(Sort(a.selectors, SelectorLess), Sort(b.selectors, SelectorLess))
  {
    SelectorLessIsTotalOrder();
    SortEqualIffPermutation(a.selectors, b.selectors, SelectorLess);
    hide Preimage, Sort, Flatten;
    if |a.parentID.String()| == |b.parentID.String()| &&
       SameLengths(Sort(a.selectors, SelectorLess), Sort(b.selectors, SelectorLess)) {
      SplitPreimage(a, b);
      FlattenInjective(Sort(a.selectors, SelectorLess), Sort(b.selectors, SelectorLess));
    }
  }

  // ----- comparison of the other fields

  lemma SortedStringsDecide(a: seq<string>, b: seq<string>)
    ensures Sort(a, Less) == Sort(b, Less) <==> multiset(a) == multiset(b)
  {
    LessIsTotalOrder();
    SortEqualIffPermutation(a, b, Less);
  }

  /** Sorts copies of both lists and compares them position by position. */
  method StringsMatch(a: seq<string>, b: seq<string>) returns (r: bool)
    ensures r <==> multiset(a) == multiset(b)
  {
    SortedStringsDecide(a, b);
    if |a| != |b| {
      assert |Sort(a, Less)| != |Sort(b, Less)|;
      return false;
    }
    var aCopy := SortedCopy(a);
    var bCopy := SortedCopy(b);
    for i := 0 to |aCopy|
      invariant aCopy[..i] == bCopy[..i]
    {
      if aCopy[i] != bCopy[i] {
        return false;
      }
    }
    assert aCopy[..|aCopy|] == aCopy && bCopy[..|aCopy|] == bCopy;
    return true;
  }

  /** A copy, sorted by sort.Strings. */
  method SortedCopy(strs: seq<string>) returns (sorted: seq<string>)
    ensures sorted == Sort(strs, Less)
  {
    var copy := new string[|strs|](i requires 0 <= i < |strs| => strs[i]);
    assert copy[..] == strs;
    SortSlice(copy, Less);
    sorted := copy[..];
  }

  lemma {:induction false} NamesMember(tds: seq<TrustDomain>, td: TrustDomain)
    ensures multiset(Names(tds))[td.name] == multiset(tds)[td]
  {
    if tds != [] {
      var n := |tds| - 1;
      NamesMember(tds[..n], td);
      assert tds == tds[..n] + [tds[n]];
    }
  }

  lemma {:induction false} NameOfMember(tds: seq<TrustDomain>, name: string) returns (td: TrustDomain)
    requires name in Names(tds)
    ensures td.name == name
  {
    var n := |tds| - 1;
    if name == tds[n].name {
      td := tds[n];
    } else {
      td := NameOfMember(tds[..n], name);
    }
  }

  /** Trust domains are compared by name, which loses nothing. */
  lemma NamesMultiset(a: seq<TrustDomain>, b: seq<TrustDomain>)
    ensures multiset(Names(a)) == multiset(Names(b)) <==> multiset(a) == multiset(b)
  {
    hide Names;
    if multiset(Names(a)) == multiset(Names(b)) {
      forall td: TrustDomain
        ensures multiset(a)[td] == multiset(b)[td]
      {
        NamesMember(a, td);
        NamesMember(b, td);
      }
    } else if multiset(a) == multiset(b) {
      forall n: string
        ensures multiset(Names(a))[n] == multiset(Names(b))[n]
      {
        if n in Names(a) || n in Names(b) {
          var td := NameOfMember(if n in Names(a) then a else b, n);
          NamesMember(a, td);
          NamesMember(b, td);
        }
      }
    }
  }

  lemma SortedNamesDecide(a: seq<TrustDomain>, b: seq<TrustDomain>)
    ensures Sort(Names(a), Less) == Sort(Names(b), Less) <==> multiset(a) == multiset(b)
    ensures multiset(a) == multiset(b) ==> |a| == |b|
  {
    SortedStringsDecide(Names(a), Names(b));
    NamesMultiset(a, b);
    assert |multiset(a)| == |a| && |multiset(b)| == |b|;
  }

  /** The names of the trust domains, sorted by sort.Strings. */
  method SortedNames(tds: seq<TrustDomain>) returns (sorted: seq<string>)
    ensures sorted == Sort(Names(tds), Less) && |sorted| == |tds|
  {
    var strs := new string[|tds|](_ => "");
    for i := 0 to |tds|
      invariant strs[..i] == Names(tds[..i])
    {
      strs[i] := tds[i].name;
      NamesNext(tds, i);
    }
    assert tds[..|tds|] == tds && strs[..] == Names(tds);
    SortSlice(strs, Less);
    sorted := strs[..];
  }

  method TrustDomainsMatch(a: seq<TrustDomain>, b: seq<TrustDomain>) returns (r: bool)
    ensures r <==> multiset(a) == multiset(b)
  {
    SortedNamesDecide(a, b);
    if |a| != |b| {
      return false;
    }
    var aStrs := SortedNames(a);
    var bStrs := SortedNames(b);
    for i := 0 to |aStrs|
      invariant aStrs[..i] == bStrs[..i]
    {
      if aStrs[i] != bStrs[i] {
        return false;
      }
    }
    assert aStrs[..|aStrs|] == aStrs && bStrs[..|aStrs|] == bStrs;
    return true;
  }

  /** Appends the name of a field that differs. */
  function Note(outdated: seq<string>, differs: bool, field: string): (r: seq<string>)
    ensures forall f :: f in r <==> f in outdated || (differs && f == field)
    ensures r == [] <==> outdated == [] && !differs
  {
    if differs then outdated + [field] else outdated
  }

  /** The fields in which the entries differ; none exactly when the seven attributes agree. */
  method GetOutdatedEntryFields(newEntry: Entry, oldEntry: Entry) returns (outdated: seq<string>)
    ensures forall f :: f in outdated <==> Differs(f, newEntry, oldEntry)
    ensures outdated == [] <==> SameAttributes(newEntry, oldEntry)
  {
    outdated := Note([], oldEntry.x509SVIDTTL != newEntry.x509SVIDTTL, "X509SVIDTTL");
    outdated := Note(outdated, oldEntry.jwtSVIDTTL != newEntry.jwtSVIDTTL, "JWTSVIDTTL");
    var tdsMatch := TrustDomainsMatch(oldEntry.federatesWith, newEntry.federatesWith);
    outdated := Note(outdated, !tdsMatch, "FederatesWith");
    outdated := Note(outdated, oldEntry.admin != newEntry.admin, "Admin");
    outdated := Note(outdated, oldEntry.downstream != newEntry.downstream, "Downstream");
    var namesMatch := StringsMatch(oldEntry.dnsNames, newEntry.dnsNames);
    outdated := Note(outdated, !namesMatch, "DNSNames");
    outdated := Note(outdated, oldEntry.hint != newEntry.hint, "Hint");
  }

  ghost predicate Differs(field: string, a: Entry, b: Entry) {
    || (field == "X509SVIDTTL" && a.x509SVIDTTL != b.x509SVIDTTL)
    || (field == "JWTSVIDTTL" && a.jwtSVIDTTL != b.jwtSVIDTTL)
    || (field == "FederatesWith" && multiset(a.federatesWith) != multiset(b.federatesWith))
    || (field == "Admin" && a.admin != b.admin)
    || (field == "Downstream" && a.downstream != b.downstream)
    || (field == "DNSNames" && multiset(a.dnsNames) != multiset(b.dnsNames))
    || (field == "Hint" && a.hint != b.hint)
  }
}
