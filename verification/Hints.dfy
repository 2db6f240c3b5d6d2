// The hint of an entry as a record of its owner: what the deletion controller and
// the targeted reconciler recover from it.
module Hints {
  import opened Text
  import opened Rendering

  /** The characters of Kubernetes object names (RFC 1123, section 2.1, and dots). */
  predicate NameChar(c: char) {
    'a' <= c <= 'z' || '0' <= c <= '9' || c == '-' || c == '.'
  }

  predicate ValidName(s: string) {
    s != "" && forall c | c in s :: NameChar(c)
  }

  /** The name of an object that was fetched, or the empty one of an object that was not. */
  predicate PassedName(s: string) {
    s == "" || ValidName(s)
  }

  // ----- the searches

  /** deleteEntriesForOwner for an EKSClusterRegistry. */
  predicate ClusterOwns(hint: string, cluster: string) {
    && (Contains(hint, ":" + cluster + ";") || Contains(hint, ":" + cluster))
    && HINT_PREFIX <= hint
    && (var parts := Split(hint, ':');
        |parts| >= 3 && Split(parts[2], ';')[0] == cluster)
  }

  /** deleteEntriesForOwner for a WorkloadIdentity. */
  predicate IdentityOwns(hint: string, identity: string) {
    Contains(hint, OWNER_PREFIX + identity)
  }

  /** entryBelongsToIdentity */
  predicate BelongsToIdentity(hint: string, identity: Identity) {
    if identity.hint == "" then Contains(hint, HINT_PREFIX + identity.name + ":")
    else hint == identity.hint
  }

  /** entryBelongsToCluster, and the test in deleteEntriesForCluster. */
  predicate BelongsToCluster(hint: string, cluster: string) {
    && |hint| > |HINT_PREFIX|
    && (var parts := Split(hint[|HINT_PREFIX|..], ':');
        |parts| >= 2 && parts[1] == cluster)
  }

  // ----- for which hints the searches succeed

  /** Seventeen characters, a field, a colon, then the name, up to the next colon or the end. */
  ghost predicate NamesBehindPrefix(hint: string, name: string) {
    && ':' !in name
    && exists front, field, rest ::
         && |front| == 17 && ':' !in field && Ends(rest, ':')
         && hint == front + field + ":" + name + rest
  }

  /** The targeted reconciler takes the second field behind the length of the prefix for the cluster,
      whatever the prefix is. */
  lemma BelongsToClusterMeans(hint: string, cluster: string)
    ensures BelongsToCluster(hint, cluster) <==> NamesBehindPrefix(hint, cluster)
  {
    hide Split;
    if BelongsToCluster(hint, cluster) {
      var behind := hint[17..];
      var field, rest := SecondPart(behind, ':');
      assert hint == hint[..17] + field + ":" + cluster + rest;
    }
    if NamesBehindPrefix(hint, cluster) {
      var front, field, rest :|
        |front| == 17 && ':' !in field && Ends(rest, ':') && hint == front + field + ":" + cluster + rest;
      assert hint[17..] == field + [':'] + cluster + rest;
      SecondPartIs(field, cluster, rest, ':');
    }
  }

  /** So it takes an entry for one cluster only, and for that one whatever follows the name. */
  lemma BelongsToClusterNamed(front: string, field: string, name: string, rest: string, cluster: string)
    requires |front| == 17 && ':' !in field && ':' !in name
    ensures BelongsToCluster(front + field + ":" + name, cluster) <==> cluster == name
    ensures BelongsToCluster(front + field + ":" + name + ":" + rest, cluster) <==> cluster == name
  {
    hide Split;
    SecondPartIs(field, name, "", ':');
    SecondPartIs(field, name, ":" + rest, ':');
    var hint, longer := front + field + ":" + name, front + field + ":" + name + ":" + rest;
    assert hint[17..] == field + [':'] + name + "";
    assert longer[17..] == field + [':'] + name + (":" + rest);
  }

  /** A hint that is too short, or has no colon behind the prefix's length, belongs to no cluster. */
  lemma BelongsToNoCluster(hint: string, cluster: string)
    requires |hint| <= 17 || ':' !in hint[17..]
    ensures !BelongsToCluster(hint, cluster)
  {
    if |hint| > 17 {
      SplitWhole(hint[17..], ':');
    }
  }

  /** The prefix, a field, a colon, then the name, up to the next colon or semicolon or the end. */
  ghost predicate NamesCluster(hint: string, name: string) {
    && ':' !in name && ';' !in name
    && exists field, rest ::
         && ':' !in field && (Ends(rest, ':') || Ends(rest, ';'))
         && hint == "workloadidentity:" + field + ":" + name + rest
  }

  /** The deletion controller takes it only behind the prefix, and stops at a semicolon. */
  lemma ClusterOwnsMeans(hint: string, cluster: string)
    ensures ClusterOwns(hint, cluster) <==> NamesCluster(hint, cluster)
  {
    if ClusterOwns(hint, cluster) {
      OwnedHintNames(hint, cluster);
    }
    if NamesCluster(hint, cluster) {
      NamedHintIsOwned(hint, cluster);
    }
  }

  lemma PrefixIsField(hint: string)
    requires HINT_PREFIX <= hint
    ensures Split(hint, ':') == ["workloadidentity"] + Split(hint[17..], ':')
  {
    hide Split;
    assert hint == "workloadidentity" + [':'] + hint[17..];
    SplitField("workloadidentity", ':', hint[17..]);
  }

  lemma OwnedHintNames(hint: string, cluster: string)
    requires ClusterOwns(hint, cluster)
    ensures NamesCluster(hint, cluster)
  {
    hide Split, Contains;
    PrefixIsField(hint);
    var part := Split(hint, ':')[2];
    var field, rest := SecondPart(hint[17..], ':');
    var tail := FirstPart(part, ';');
    Regrouped(hint, field, cluster, tail, rest);
    assert tail == "" ==> tail + rest == rest;
    assert Ends(tail + rest, ':') || Ends(tail + rest, ';');
    assert ':' !in part && part == cluster + tail;
  }

  lemma Regrouped(hint: string, field: string, name: string, tail: string, rest: string)
    requires HINT_PREFIX <= hint && hint[17..] == field + [':'] + (name + tail) + rest
    ensures hint == "workloadidentity:" + field + ":" + name + (tail + rest)
  {
    assert hint == HINT_PREFIX + hint[17..];
  }

  lemma NamedHintIsOwned(hint: string, cluster: string)
    requires NamesCluster(hint, cluster)
    ensures ClusterOwns(hint, cluster)
  {
    hide Split;
    var field, rest :|
      && ':' !in field && (Ends(rest, ':') || Ends(rest, ';'))
      && hint == "workloadidentity:" + field + ":" + cluster + rest;
    MiddleOccurs("workloadidentity:" + field, ":" + cluster, rest);
    assert hint == ("workloadidentity:" + field) + (":" + cluster) + rest;
    PrefixIsField(hint);
    assert hint[17..] == field + [':'] + (cluster + rest);
    SplitField(field, ':', cluster + rest);
    var part := Split(cluster + rest, ':')[0];
    var tail := NamedPart(cluster, rest);
    FirstPartIs(cluster, tail, ';');
  }

  /** What the part with the name goes on with. */
  lemma NamedPart(name: string, rest: string) returns (tail: string)
    requires ':' !in name && (Ends(rest, ':') || Ends(rest, ';'))
    ensures Ends(tail, ';') && Split(name + rest, ':')[0] == name + tail
  {
    hide Split;
    var i := Index(rest, ':');
    tail := rest[..i];
    FirstPartIs(name + tail, rest[i..], ':');
    assert name + rest == name + tail + rest[i..];
  }

  /** The targeted reconciler looks for its key anywhere in the hint, and compares a hint of the identity's
      own with the whole. */
  lemma BelongsToIdentityMeans(hint: string, identity: Identity)
    ensures identity.hint == "" ==>
              (BelongsToIdentity(hint, identity) <==>
               exists before, after :: hint == before + ("workloadidentity:" + identity.name + ":") + after)
    ensures identity.hint != "" ==> (BelongsToIdentity(hint, identity) <==> hint == identity.hint)
  {
    ContainsMeans(hint, "workloadidentity:" + identity.name + ":");
  }

  /** The deletion controller looks for the owner anywhere in the hint. */
  lemma IdentityOwnsMeans(hint: string, identity: string)
    ensures IdentityOwns(hint, identity) <==>
              exists before, after :: hint == before + ("owner:WorkloadIdentity/" + identity) + after
  {
    ContainsMeans(hint, "owner:WorkloadIdentity/" + identity);
  }

  // ----- the shape of a default hint

  /** w:i:c;o:t */
  function Shape(w: string, i: string, c: string, o: string, t: string): string {
    w + [':'] + (i + [':'] + ((c + [';'] + o) + [':'] + t))
  }

  lemma DefaultHintShape(identity: string, cluster: string)
    ensures DefaultHint(identity, cluster)
         == Shape("workloadidentity", identity, cluster, "owner", "WorkloadIdentity/" + identity)
  {
    var w, o, tail := "workloadidentity", "owner", "WorkloadIdentity/";
    assert HINT_PREFIX == w + [':'] && OWNER_PREFIX == o + [':'] + tail;
    Regroup(w, identity, cluster, o, tail);
  }

  lemma Regroup(w: string, i: string, c: string, o: string, t: string)
    ensures (w + [':']) + i + ":" + c + ";" + (o + [':'] + t) + i == Shape(w, i, c, o, t + i)
  {
  }

  predicate Plain(s: string) {
    ':' !in s && ';' !in s && '/' !in s
  }

  lemma NameIsPlain(s: string)
    requires PassedName(s)
    ensures Plain(s)
  {
  }

  lemma SplitTail(i: string, part: string, t: string)
    requires ':' !in i && ':' !in part && ':' !in t
    ensures Split(i + [':'] + (part + [':'] + t), ':') == [i, part, t]
  {
    SplitField(i, ':', part + [':'] + t);
    SplitField(part, ':', t);
    SplitWhole(t, ':');
  }

  lemma SplitPart(c: string, o: string)
    requires ';' !in c && ';' !in o
    ensures Split(c + [';'] + o, ';') == [c, o]
  {
    SplitField(c, ';', o);
    SplitWhole(o, ';');
  }

  lemma SplitShape(w: string, i: string, part: string, t: string)
    requires ':' !in w && ':' !in i && ':' !in part && ':' !in t
    ensures
      var rest := i + [':'] + (part + [':'] + t);
      var s := w + [':'] + rest;
      && Split(s, ':') == [w, i, part, t]
      && w + [':'] <= s && s[|w| + 1..] == rest && Split(rest, ':') == [i, part, t]
  {
    hide Split;
    var rest := i + [':'] + (part + [':'] + t);
    SplitTail(i, part, t);
    SplitField(w, ':', rest);
    assert w + [':'] + rest == (w + [':']) + rest;
  }

  /** The fields of a default hint. */
  lemma SplitDefaultHint(identity: string, cluster: string)
    requires Plain(identity) && Plain(cluster)
    ensures
      var hint, part, tail := DefaultHint(identity, cluster), cluster + [';'] + "owner", "WorkloadIdentity/" + identity;
      && HINT_PREFIX <= hint
      && Split(hint, ':') == ["workloadidentity", identity, part, tail]
      && Split(hint[|HINT_PREFIX|..], ':') == [identity, part, tail]
      && Split(part, ';') == [cluster, "owner"]
  {
    var w, o, tail := "workloadidentity", "owner", "WorkloadIdentity/" + identity;
    hide Split, DefaultHint;
    DefaultHintShape(identity, cluster);
    SplitPart(cluster, o);
    assert ':' !in tail && ':' !in w && ':' !in cluster + [';'] + o;
    SplitShape(w, identity, cluster + [';'] + o, tail);
    assert HINT_PREFIX == w + [':'];
  }

  // ----- finding entries by cluster

  /** The deletion controller finds an entry rendered with a default hint by its cluster, and by no
      other: for every identity and cluster name. */
  lemma ClusterRoundTrip(identity: string, cluster: string, owner: string)
    requires ValidName(identity) && ValidName(cluster) && ValidName(owner)
    ensures ClusterOwns(DefaultHint(identity, cluster), owner) <==> cluster == owner
  {
    NameIsPlain(identity);
    NameIsPlain(cluster);
    SplitDefaultHint(identity, cluster);
    ClusterOccurs(identity, cluster);
  }

  lemma ClusterOccurs(identity: string, cluster: string)
    ensures Contains(DefaultHint(identity, cluster), ":" + cluster)
  {
    MiddleOccurs(HINT_PREFIX + identity, ":" + cluster, ";" + (OWNER_PREFIX + identity));
    assert DefaultHint(identity, cluster)
        == (HINT_PREFIX + identity) + (":" + cluster) + (";" + (OWNER_PREFIX + identity));
  }

  lemma MiddleOccurs(before: string, sub: string, after: string)
    ensures Contains(before + sub + after, sub)
  {
    assert OccursAt(before + sub + after, sub, |before|);
  }

  /** The targeted reconciler takes ";owner" for a part of the cluster name, so neither its cluster
      deletion nor its cluster cleanup ever finds an entry rendered with a default hint. */
  lemma ClusterSweepMissesDefaultHints(identity: string, cluster: string, owner: string)
    requires ValidName(identity) && ValidName(cluster) && PassedName(owner)
    ensures !BelongsToCluster(DefaultHint(identity, cluster), owner)
  {
    NameIsPlain(identity);
    NameIsPlain(cluster);
    NameIsPlain(owner);
    assert (cluster + [';'] + "owner")[|cluster|] == ';';
    SplitDefaultHint(identity, cluster);
  }

  // ----- finding entries by owner

  /** Every entry rendered for an identity is found by its owner, whatever its own hint. */
  lemma OwnerFound(identity: Identity, cluster: Cluster)
    ensures IdentityOwns(HintFor(identity, cluster), identity.name)
  {
    var key := OWNER_PREFIX + identity.name;
    var before := if identity.hint == "" then HINT_PREFIX + identity.name + ":" + cluster.name else identity.hint;
    MiddleOccurs(before + ";", key, "");
    assert HintFor(identity, cluster) == (before + ";") + key + "";
  }

  /** With one slash in the text and one in the key, the key can occur in one place only. */
  lemma KeyBySlash(before: string, p: string, owner: string, name: string)
    requires '/' !in before && '/' !in p && '/' !in owner && '/' !in name
    ensures Contains(before + p + ['/'] + owner, p + ['/'] + name) <==> name <= owner
  {
    var s, key := before + p + ['/'] + owner, p + ['/'] + name;
    if Contains(s, key) {
      var i :| 0 <= i <= |s| && OccursAt(s, key, i);
      OccursChar(s, key, i, |p|);
      FirstOrLater(before + p, '/', owner, i + |p|);
      assert i == |before|;
      assert s[i..i + |key|][|p| + 1..] == name;
      assert owner[..|name|] == name;
    }
    if name <= owner {
      assert s[|before|..|before| + |key|] == key;
      assert OccursAt(s, key, |before|);
    }
  }

  /** Deleting identity I deletes the default-hinted entries of I' exactly when I is a prefix of I':
      those of I, but also those of every identity whose name goes on after I. */
  lemma OwnerRoundTrip(other: string, cluster: string, identity: string)
    requires ValidName(other) && ValidName(cluster) && ValidName(identity)
    ensures IdentityOwns(DefaultHint(other, cluster), identity) <==> identity <= other
  {
    NameIsPlain(other);
    NameIsPlain(cluster);
    OwnerIffPrefix(HINT_PREFIX + other + ":" + cluster, other, identity);
  }

  /** The same for the entries of an identity whose own hint has no slash. */
  lemma OwnerIffPrefix(before: string, owner: string, identity: string)
    requires '/' !in before && ValidName(owner) && ValidName(identity)
    ensures IdentityOwns(before + ";" + OWNER_PREFIX + owner, identity) <==> identity <= owner
  {
    NameIsPlain(owner);
    NameIsPlain(identity);
    var p := "owner:WorkloadIdentity";
    assert OWNER_PREFIX == p + ['/'];
    KeyBySlash(before + ";", p, owner, identity);
    assert before + ";" + OWNER_PREFIX + owner == (before + ";") + p + ['/'] + owner;
    assert OWNER_PREFIX + identity == p + ['/'] + identity;
  }

  // ----- the targeted test

  /** A key w:n: occurs in w:i:c;o:t only at the front, and then n is i. */
  lemma KeyByColons(w: string, i: string, c: string, o: string, t: string, n: string)
    requires Plain(w) && Plain(i) && Plain(c) && Plain(o) && Plain(n) && ':' !in t
    ensures Contains(Shape(w, i, c, o, t), w + [':'] + (n + [':'])) <==> n == i
  {
    var s, key := Shape(w, i, c, o, t), w + [':'] + (n + [':']);
    if Contains(s, key) {
      var p :| 0 <= p <= |s| && OccursAt(s, key, p);
      KeyOccurs(w, i, c + [';'] + o, t, n, p);
      assert (c + [';'] + o)[|c|] == ';';
    }
    if n == i {
      MiddleOccurs("", key, (c + [';'] + o) + [':'] + t);
      assert s == "" + key + ((c + [';'] + o) + [':'] + t);
    }
  }

  lemma KeyOccurs(w: string, i: string, part: string, t: string, n: string, p: nat)
    requires ':' !in w && ':' !in i && ':' !in part && ':' !in t && ':' !in n
    requires OccursAt(w + [':'] + (i + [':'] + (part + [':'] + t)), w + [':'] + (n + [':']), p)
    ensures n == i || n == part
  {
    var s, key := w + [':'] + (i + [':'] + (part + [':'] + t)), w + [':'] + (n + [':']);
    OccursChar(s, key, p, |w|);
    var rest := s[p + |key|..];
    assert s[p..] == key + rest;
    assert s[p + |w| + 1..] == n + [':'] + rest;
    FieldBehindColon(w, i, part, t, n, p + |w| + 1, rest);
  }

  /** A field between two colons of w:i:part:t is one of the two middle fields. */
  lemma FieldBehindColon(w: string, i: string, part: string, t: string, n: string, q: nat, rest: string)
    requires ':' !in w && ':' !in i && ':' !in part && ':' !in t && ':' !in n
    requires
      var s := w + [':'] + (i + [':'] + (part + [':'] + t));
      0 < q <= |s| && s[q - 1] == ':' && s[q..] == n + [':'] + rest
    ensures n == i || n == part
  {
    var r2 := part + [':'] + t;
    var r1 := i + [':'] + r2;
    var s := w + [':'] + r1;
    assert s[q..][|n|] == ':' == s[q + |n|];
    FirstOrLater(w, ':', r1, q - 1);
    FirstOrLater(w, ':', r1, q + |n|);
    FirstOrLater(i, ':', r2, q + |n| - |w| - 1);
    if q - 1 == |w| {
      assert s[q..] == r1;
      FieldUnique(i, r2, n, rest, ':');
    } else {
      FirstOrLater(i, ':', r2, q - 2 - |w|);
      LastField(part, t, q + |n| - |w| - |i| - 2);
      assert s[q..] == r2;
      FieldUnique(part, t, n, rest, ':');
    }
  }

  lemma LastField(part: string, t: string, k: int)
    requires ':' !in part && ':' !in t
    requires 0 <= k < |part| + 1 + |t| && (part + [':'] + t)[k] == ':'
    ensures k == |part|
  {
  }

  /** The targeted reconciler finds a default-hinted entry by its identity, and by no other. */
  lemma TargetedRoundTrip(other: string, cluster: string, identity: Identity)
    requires ValidName(other) && ValidName(cluster) && PassedName(identity.name) && identity.hint == ""
    ensures BelongsToIdentity(DefaultHint(other, cluster), identity) <==> other == identity.name
  {
    hide Contains, DefaultHint, Shape;
    NameIsPlain(other);
    NameIsPlain(cluster);
    NameIsPlain(identity.name);
    var tail := "WorkloadIdentity/" + other;
    assert ':' !in tail;
    DefaultHintShape(other, cluster);
    KeyByColons("workloadidentity", other, cluster, "owner", tail, identity.name);
    assert (HINT_PREFIX + identity.name) + ":" == ("workloadidentity" + [':']) + (identity.name + [':']);
  }

  /** An identity with a hint of its own never finds the entries rendered for it: they carry the
      hint followed by the owner. */
  lemma CustomHintNeverFound(identity: Identity, cluster: Cluster)
    requires identity.hint != ""
    ensures !BelongsToIdentity(HintFor(identity, cluster), identity)
  {
  }
}
