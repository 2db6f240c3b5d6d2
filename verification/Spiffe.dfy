// SPIFFE IDs and trust domains, with the character sets of sections 2.1 and 2.2
// of the SPIFFE-ID specification.
module Spiffe {
  import opened Wrappers
  import opened Text

  const SCHEME := "spiffe://"

  predicate TrustDomainChar(c: char) {
    'a' <= c <= 'z' || '0' <= c <= '9' || c == '.' || c == '-' || c == '_'
  }

  predicate PathChar(c: char) {
    TrustDomainChar(c) || 'A' <= c <= 'Z'
  }

  predicate ValidTrustDomain(s: string) {
    s != "" && forall c | c in s :: TrustDomainChar(c)
  }

  predicate ValidSegment(s: string) {
    s != "" && s != "." && s != ".." && forall c | c in s :: PathChar(c)
  }

  predicate ValidPath(p: string) {
    p == "" || (p[0] == '/' && forall s | s in Split(p[1..], '/') :: ValidSegment(s))
  }

  datatype TrustDomainName = TrustDomainName(name: string)
  type TrustDomain = td: TrustDomainName | ValidTrustDomain(td.name) witness TrustDomainName("a")

  datatype SpiffeIDParts = SpiffeIDParts(trustDomain: TrustDomain, path: string) {
    function String(): string {
      SCHEME + trustDomain.name + path
    }
  }
  type SpiffeID = id: SpiffeIDParts | ValidPath(id.path) witness SpiffeIDParts(TrustDomainName("a"), "")

  /** spiffeid.FromString */
  function FromString(s: string): (r: Option<SpiffeID>)
    ensures r.Some? ==> r.value.String() == s
  {
    if SCHEME <= s then
      var rest := s[|SCHEME|..];
      var i := Index(rest, '/');
      if ValidTrustDomain(rest[..i]) && ValidPath(rest[i..]) then
        assert rest == rest[..i] + rest[i..] && s == SCHEME + rest;
        Some(SpiffeIDParts(TrustDomainName(rest[..i]), rest[i..]))
      else
        None
    else
      None
  }

  /** spiffeid.TrustDomainFromString */
  function TrustDomainFromString(s: string): Option<TrustDomain> {
    if Contains(s, ":/") then
      match FromString(s)
      case Some(id) => Some(id.trustDomain)
      case None => None
    else if ValidTrustDomain(s) then Some(TrustDomainName(s))
    else None
  }

  /** Printing an ID and parsing it again gives the same ID. */
  lemma FromStringRoundTrip(id: SpiffeID)
    ensures FromString(id.String()) == Some(id)
  {
    var td, path := id.trustDomain.name, id.path;
    var s := id.String();
    var rest := s[|SCHEME|..];
    assert rest == td + path;
    assert '/' !in td;
    if path == "" {
      assert rest == td;
      assert Index(rest, '/') == |rest|;
    } else {
      assert rest == td + ['/'] + path[1..];
      IndexOfField(td, '/', path[1..]);
    }
    assert rest[..|td|] == td && rest[|td|..] == path;
  }

  lemma TrustDomainRoundTrip(td: TrustDomain)
    ensures TrustDomainFromString(td.name) == Some(td)
  {
    if Contains(td.name, ":/") {
      OccursHasChars(td.name, ":/", ':');
    }
  }

  /** FromString accepts exactly the printed IDs. */
  lemma FromStringMeans(s: string, id: SpiffeID)
    ensures FromString(s) == Some(id) <==> s == id.String()
  {
    FromStringRoundTrip(id);
  }

  /** TrustDomainFromString accepts the name of a trust domain and any ID in it. */
  ghost predicate Denotes(s: string, td: TrustDomain) {
    s == td.name || exists id: SpiffeID :: id.String() == s && id.trustDomain == td
  }

  lemma TrustDomainMeans(s: string, td: TrustDomain)
    ensures TrustDomainFromString(s) == Some(td) <==> Denotes(s, td)
  {
    hide FromString, Contains;
    TrustDomainRoundTrip(td);
    if Contains(s, ":/") {
      if s == td.name {
        OccursHasChars(s, ":/", ':');
      }
      forall id: SpiffeID
        ensures FromString(s) == Some(id) <==> s == id.String()
      {
        FromStringMeans(s, id);
      }
    } else {
      forall id: SpiffeID
        ensures id.String() != s
      {
        ContainsMeans(id.String(), ":/");
        assert id.String() == "spiffe" + ":/" + ("/" + id.trustDomain.name + id.path);
      }
    }
  }

  lemma {:induction false} JoinSplit(s: string, sep: char)
    ensures Join(Split(s, sep), sep) == s
    decreases |s|
  {
    var i := Index(s, sep);
    if i < |s| {
      var rest := Split(s[i + 1..], sep);
      assert Split(s, sep) == [s[..i]] + rest;
      hide Split;
      JoinSplit(s[i + 1..], sep);
      JoinFirst(s[..i], rest, sep);
      assert s == s[..i] + [sep] + s[i + 1..];
    }
  }

  lemma JoinFirst(first: string, rest: seq<string>, sep: char)
    requires |rest| > 0
    ensures Join([first] + rest, sep) == first + [sep] + Join(rest, sep)
  {
    assert ([first] + rest)[1..] == rest;
  }

  lemma {:induction false} JoinChars(parts: seq<string>, sep: char, c: char)
    requires |parts| > 0
    requires c != sep && forall p | p in parts :: c !in p
    ensures c !in Join(parts, sep)
  {
    if |parts| > 1 {
      JoinChars(parts[1..], sep, c);
    }
  }

  /** The only colon of a printed ID is the one of its scheme. */
  lemma OneColon(id: SpiffeID)
    ensures ':' !in id.String()[7..]
    ensures id.String()[..7] == "spiffe:"
  {
    var s := id.String();
    if id.path != "" {
      var segments := Split(id.path[1..], '/');
      JoinChars(segments, '/', ':');
      JoinSplit(id.path[1..], '/');
      assert id.path == ['/'] + id.path[1..];
    }
    assert s[7..] == "//" + id.trustDomain.name + id.path;
  }
}
