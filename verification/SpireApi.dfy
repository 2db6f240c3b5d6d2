// Registration entries (pkg/spireapi/client.go) and their conversion to and
// from the messages of the SPIRE API.
module SpireApi {
  import opened Sequences
  import opened Wrappers
  import opened Spiffe

  newtype int32 = x: int | -0x8000_0000 <= x < 0x8000_0000

  datatype Selector = Selector(typ: string, value: string)

  datatype Entry = Entry(
    id: string,
    spiffeID: SpiffeID,
    parentID: SpiffeID,
    selectors: seq<Selector>,
    x509SVIDTTL: int32,
    jwtSVIDTTL: int32,
    federatesWith: seq<TrustDomain>,
    admin: bool,
    downstream: bool,
    dnsNames: seq<string>,
    hint: string)

  /** The IDs and selectors of an entry, the order of the selectors forgotten. */
  datatype Subject = Subject(spiffeID: SpiffeID, parentID: SpiffeID, selectors: multiset<Selector>)

  /** The seven fields outside the entry key, lists taken as multisets. */
  datatype Attributes = Attributes(
    x509SVIDTTL: int32,
    jwtSVIDTTL: int32,
    federatesWith: multiset<TrustDomain>,
    admin: bool,
    downstream: bool,
    dnsNames: multiset<string>,
    hint: string)

  function SubjectOf(e: Entry): Subject {
    Subject(e.spiffeID, e.parentID, multiset(e.selectors))
  }

  function AttributesOf(e: Entry): Attributes {
    Attributes(e.x509SVIDTTL, e.jwtSVIDTTL, multiset(e.federatesWith), e.admin, e.downstream,
               multiset(e.dnsNames), e.hint)
  }

  /** The server refuses a second entry with the IDs and selectors of an existing one. */
  predicate Similar(a: Entry, b: Entry) {
    SubjectOf(a) == SubjectOf(b)
  }

  predicate SameAttributes(a: Entry, b: Entry) {
    AttributesOf(a) == AttributesOf(b)
  }

  /** Equality up to the order of the lists; the entry ID is compared by the caller. */
  predicate InSync(a: Entry, b: Entry) {
    Similar(a, b) && SameAttributes(a, b)
  }

  // ----- messages of the SPIRE API

  datatype ApiID = ApiID(trustDomain: string, path: string)

  datatype ApiEntry = ApiEntry(
    id: string,
    spiffeID: ApiID,
    parentID: ApiID,
    selectors: seq<Selector>,
    x509SvidTtl: int32,
    jwtSvidTtl: int32,
    federatesWith: seq<string>,
    admin: bool,
    downstream: bool,
    dnsNames: seq<string>,
    hint: string)

  function Names(tds: seq<TrustDomain>): (r: seq<string>)
    ensures |r| == |tds|
  {
    if tds == [] then [] else Names(tds[..|tds| - 1]) + [tds[|tds| - 1].name]
  }

  function ParseName(name: string): Option<seq<TrustDomain>> {
    match TrustDomainFromString(name)
    case Some(td) => Some([td])
    case None => None
  }

  function AsApi(e: Entry): ApiEntry {
    ApiEntry(
      e.id, ApiID(e.spiffeID.trustDomain.name, e.spiffeID.path), ApiID(e.parentID.trustDomain.name, e.parentID.path),
      e.selectors, e.x509SVIDTTL, e.jwtSVIDTTL, Names(e.federatesWith), e.admin, e.downstream, e.dnsNames, e.hint)
  }

  function OfApi(e: ApiEntry): Option<Entry> {
    match (FromString(SCHEME + e.spiffeID.trustDomain + e.spiffeID.path),
           FromString(SCHEME + e.parentID.trustDomain + e.parentID.path),
           Collect(e.federatesWith, ParseName))
    case (Some(spiffeID), Some(parentID), Some(tds)) =>
      Some(Entry(e.id, spiffeID, parentID, e.selectors, e.x509SvidTtl, e.jwtSvidTtl,
                 tds, e.admin, e.downstream, e.dnsNames, e.hint))
    case _ => None
  }

  // ----- what is converted, field by field

  /** The fields that are taken over as they are. */
  ghost predicate SameFields(e: Entry, m: ApiEntry) {
    && m.id == e.id && m.selectors == e.selectors
    && m.x509SvidTtl == e.x509SVIDTTL && m.jwtSvidTtl == e.jwtSVIDTTL
    && m.admin == e.admin && m.downstream == e.downstream && m.dnsNames == e.dnsNames && m.hint == e.hint
  }

  ghost predicate NoID(s: string) {
    forall id: SpiffeID :: id.String() != s
  }

  ghost predicate NoTrustDomain(s: string) {
    forall td: TrustDomain :: !Denotes(s, td)
  }

  /** The trust domains that the names denote, in order. */
  ghost predicate AllDenoted(names: seq<string>, tds: seq<TrustDomain>) {
    |tds| == |names| && forall i | 0 <= i < |names| :: Denotes(names[i], tds[i])
  }

  lemma FromStringFails(s: string)
    ensures FromString(s).None? <==> NoID(s)
  {
    hide FromString;
    forall id: SpiffeID
      ensures FromString(s) == Some(id) <==> s == id.String()
    {
      FromStringMeans(s, id);
    }
  }

  lemma ParseNameMeans(name: string)
    ensures match ParseName(name)
            case Some(tds) => |tds| == 1 && Denotes(name, tds[0])
            case None => NoTrustDomain(name)
  {
    hide TrustDomainFromString, Denotes;
    forall td: TrustDomain
      ensures TrustDomainFromString(name) == Some(td) <==> Denotes(name, td)
    {
      TrustDomainMeans(name, td);
    }
  }

  lemma {:induction false} ParsedNames(names: seq<string>)
    ensures match Collect(names, ParseName)
            case Some(tds) => AllDenoted(names, tds) && forall n | n in names :: !NoTrustDomain(n)
            case None => exists n | n in names :: NoTrustDomain(n)
  {
    if names != [] {
      var init, last := names[..|names| - 1], names[|names| - 1];
      hide NoTrustDomain, Denotes, ParseName;
      ParsedNames(init);
      ParseNameMeans(last);
      assert names == init + [last];
      if Collect(names, ParseName).Some? {
        SomeTrustDomain(last, ParseName(last).value[0]);
      }
    }
  }

  lemma SomeTrustDomain(name: string, td: TrustDomain)
    requires Denotes(name, td)
    ensures !NoTrustDomain(name)
  {
  }

  lemma {:induction false} ParseNamesRoundTrip(tds: seq<TrustDomain>)
    ensures Collect(Names(tds), ParseName) == Some(tds)
  {
    if tds != [] {
      var n := |tds| - 1;
      TrustDomainRoundTrip(tds[n]);
      ParseNamesRoundTrip(tds[..n]);
      assert Names(tds)[..n] == Names(tds[..n]);
      assert tds == tds[..n] + [tds[n]];
    }
  }

  /** What the server gives back converts to the entry that was sent. */
  lemma WireRoundTrip(e: Entry)
    ensures OfApi(AsApi(e)) == Some(e)
  {
    FromStringRoundTrip(e.spiffeID);
    FromStringRoundTrip(e.parentID);
    ParseNamesRoundTrip(e.federatesWith);
  }

  /** No two entries look the same on the wire. */
  lemma WireInjective(a: Entry, b: Entry)
    requires AsApi(a) == AsApi(b)
    ensures a == b
  {
    WireRoundTrip(a);
    WireRoundTrip(b);
  }

  lemma NamesNext(tds: seq<TrustDomain>, i: nat)
    requires i < |tds|
    ensures Names(tds[..i + 1]) == Names(tds[..i]) + [tds[i].name]
  {
    assert tds[..i + 1][..i] == tds[..i];
  }

  method ToAPIEntry(entry: Entry) returns (r: ApiEntry)
    ensures SameFields(entry, r)
    ensures r.spiffeID.trustDomain == entry.spiffeID.trustDomain.name && r.spiffeID.path == entry.spiffeID.path
    ensures r.parentID.trustDomain == entry.parentID.trustDomain.name && r.parentID.path == entry.parentID.path
    ensures |r.federatesWith| == |entry.federatesWith|
    ensures forall i | 0 <= i < |r.federatesWith| :: r.federatesWith[i] == entry.federatesWith[i].name
    ensures r == AsApi(entry)
  {
    var selectors := new Selector[|entry.selectors|](_ => Selector("", ""));
    for i := 0 to |entry.selectors|
      invariant selectors[..i] == entry.selectors[..i]
    {
      selectors[i] := Selector(entry.selectors[i].typ, entry.selectors[i].value);
    }
    var federatesWith := new string[|entry.federatesWith|](_ => "");
    for i := 0 to |entry.federatesWith|
      invariant federatesWith[..i] == Names(entry.federatesWith[..i])
      invariant forall k | 0 <= k < i :: federatesWith[k] == entry.federatesWith[k].name
      invariant selectors[..] == entry.selectors
    {
      federatesWith[i] := entry.federatesWith[i].name;
      NamesNext(entry.federatesWith, i);
    }
    assert entry.federatesWith[..|entry.federatesWith|] == entry.federatesWith;
    r := ApiEntry(
      entry.id, ApiID(entry.spiffeID.trustDomain.name, entry.spiffeID.path),
      ApiID(entry.parentID.trustDomain.name, entry.parentID.path),
      selectors[..], entry.x509SVIDTTL, entry.jwtSVIDTTL, federatesWith[..],
      entry.admin, entry.downstream, entry.dnsNames, entry.hint);
  }

  method FromAPIEntry(e: ApiEntry) returns (r: Option<Entry>)
    ensures r.Some? ==>
              && SameFields(r.value, e)
              && r.value.spiffeID.String() == "spiffe://" + e.spiffeID.trustDomain + e.spiffeID.path
              && r.value.parentID.String() == "spiffe://" + e.parentID.trustDomain + e.parentID.path
              && AllDenoted(e.federatesWith, r.value.federatesWith)
    ensures r.None? <==>
              || NoID("spiffe://" + e.spiffeID.trustDomain + e.spiffeID.path)
              || NoID("spiffe://" + e.parentID.trustDomain + e.parentID.path)
              || exists name | name in e.federatesWith :: NoTrustDomain(name)
    ensures r == OfApi(e)
  {
    hide FromString, TrustDomainFromString, NoID, NoTrustDomain, AllDenoted;
    FromStringFails(SCHEME + e.spiffeID.trustDomain + e.spiffeID.path);
    FromStringFails(SCHEME + e.parentID.trustDomain + e.parentID.path);
    ParsedNames(e.federatesWith);
    var spiffeID := FromString(SCHEME + e.spiffeID.trustDomain + e.spiffeID.path);
    if spiffeID.None? {
      return None;
    }
    var parentID := FromString(SCHEME + e.parentID.trustDomain + e.parentID.path);
    if parentID.None? {
      return None;
    }
    var selectors := new Selector[|e.selectors|](_ => Selector("", ""));
    for i := 0 to |e.selectors|
      invariant selectors[..i] == e.selectors[..i]
    {
      selectors[i] := Selector(e.selectors[i].typ, e.selectors[i].value);
    }
    var federatesWith: seq<TrustDomain> := [];
    for i := 0 to |e.federatesWith|
      invariant Collect(e.federatesWith[..i], ParseName) == Some(federatesWith)
      invariant selectors[..] == e.selectors
    {
      var trustDomain := TrustDomainFromString(e.federatesWith[i]);
      CollectNext(e.federatesWith, ParseName, i);
      if trustDomain.None? {
        CollectFails(e.federatesWith, ParseName, i + 1);
        return None;
      }
      federatesWith := federatesWith + [trustDomain.value];
    }
    assert e.federatesWith[..|e.federatesWith|] == e.federatesWith;
    r := Some(Entry(e.id, spiffeID.value, parentID.value, selectors[..], e.x509SvidTtl, e.jwtSvidTtl,
                    federatesWith, e.admin, e.downstream, e.dnsNames, e.hint));
  }
}
