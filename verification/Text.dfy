// Go strings: the byte order of the `<` operator and the functions of package
// strings that the registrar calls.
module Text {

  /** The `<` of Go strings: lexicographic, a proper prefix comes first. */
  predicate Less(a: string, b: string) {
    if b == "" then false
    else if a == "" then true
    else if a[0] != b[0] then a[0] < b[0]
    else Less(a[1..], b[1..])
  }

  lemma {:induction false} LessIrreflexive(a: string)
    ensures !Less(a, a)
  {
    if a != "" {
      LessIrreflexive(a[1..]);
    }
  }

  lemma {:induction false} LessTransitive(a: string, b: string, c: string)
    requires Less(a, b) && Less(b, c)
    ensures Less(a, c)
  {
    if a != "" && a[0] == b[0] == c[0] {
      LessTransitive(a[1..], b[1..], c[1..]);
    }
  }

  lemma {:induction false} LessTotal(a: string, b: string)
    ensures Less(a, b) || Less(b, a) || a == b
  {
    if a != "" && b != "" && a[0] == b[0] {
      LessTotal(a[1..], b[1..]);
      assert a == [a[0]] + a[1..] && b == [b[0]] + b[1..];
    }
  }

  /** The first is a proper prefix of the second, or smaller at the first position where they differ. */
  lemma {:induction false} LessMeans(a: string, b: string)
    ensures Less(a, b) <==>
              || (a <= b && a != b)
              || exists k :: 0 <= k < |a| && k < |b| && a[..k] == b[..k] && a[k] < b[k]
  {
    if a != "" && b != "" {
      var x, y := a[1..], b[1..];
      assert a == [a[0]] + x && b == [b[0]] + y;
      if a[0] == b[0] {
        LessMeans(x, y);
        SmallerBehind(a, b);
      } else {
        assert a[..0] == b[..0];
        forall k | 0 < k < |a| && k < |b|
          ensures a[..k] != b[..k]
        {
          assert a[..k][0] != b[..k][0];
        }
      }
    }
  }

  lemma SmallerBehind(a: string, b: string)
    requires a != "" && b != "" && a[0] == b[0]
    ensures (exists k :: 0 <= k < |a[1..]| && k < |b[1..]| && a[1..][..k] == b[1..][..k] && a[1..][k] < b[1..][k]) <==>
            exists k :: 0 <= k < |a| && k < |b| && a[..k] == b[..k] && a[k] < b[k]
  {
    var x, y := a[1..], b[1..];
    forall k | 0 <= k <= |x| && k <= |y|
      ensures x[..k] == y[..k] <==> a[..k + 1] == b[..k + 1]
    {
      assert a[..k + 1] == [a[0]] + x[..k] && b[..k + 1] == [b[0]] + y[..k];
      assert a[..k + 1][1..] == x[..k] && b[..k + 1][1..] == y[..k];
    }
    if k :| 0 <= k < |x| && k < |y| && x[..k] == y[..k] && x[k] < y[k] {
      assert a[k + 1] < b[k + 1] && a[..k + 1] == b[..k + 1];
    }
    if k :| 0 <= k < |a| && k < |b| && a[..k] == b[..k] && a[k] < b[k] {
      assert k > 0 && x[k - 1] < y[k - 1] && x[..k - 1] == y[..k - 1];
    }
  }

  /** `sub` occurs in `s` at position `i`. */
  predicate OccursAt(s: string, sub: string, i: int) {
    0 <= i <= |s| - |sub| && s[i..i + |sub|] == sub
  }

  /** strings.Contains */
  predicate Contains(s: string, sub: string) {
    exists i | 0 <= i <= |s| :: OccursAt(s, sub, i)
  }

  /** It contains what stands between anything in front and anything behind. */
  lemma ContainsMeans(s: string, sub: string)
    ensures Contains(s, sub) <==> exists before, after :: s == before + sub + after
  {
    if Contains(s, sub) {
      var i :| 0 <= i <= |s| && OccursAt(s, sub, i);
      assert s == s[..i] + sub + s[i + |sub|..];
    }
    if before, after :| s == before + sub + after {
      assert OccursAt(s, sub, |before|);
    }
  }

  lemma OccursChar(s: string, sub: string, i: int, k: nat)
    requires OccursAt(s, sub, i) && k < |sub|
    ensures s[i + k] == sub[k]
  {
  }

  /** A separator in `field + sep + rest` is the first one or lies in the rest. */
  lemma FirstOrLater(field: string, sep: char, rest: string, k: nat)
    requires sep !in field
    requires k < |field| + 1 + |rest| && (field + [sep] + rest)[k] == sep
    ensures k == |field| || (k > |field| && rest[k - |field| - 1] == sep)
  {
  }

  /** The field in front of the first separator is determined. */
  lemma FieldUnique(field: string, rest: string, field': string, rest': string, sep: char)
    requires sep !in field && sep !in field'
    requires field + [sep] + rest == field' + [sep] + rest'
    ensures field == field' && rest == rest'
  {
    IndexOfField(field, sep, rest);
    IndexOfField(field', sep, rest');
    var s := field + [sep] + rest;
    assert s[..|field|] == field && s[..|field'|] == field';
    assert s[|field| + 1..] == rest && s[|field'| + 1..] == rest';
  }

  lemma OccursHasChars(s: string, sub: string, c: char)
    requires Contains(s, sub) && c in sub
    ensures c in s
  {
  }

  /** strings.TrimPrefix */
  function TrimPrefix(s: string, prefix: string): string {
    if prefix <= s then s[|prefix|..] else s
  }

  /** The position of the first `c` in `s`, or |s|. */
  function Index(s: string, c: char): (i: nat)
    ensures i <= |s|
    ensures i < |s| ==> s[i] == c
    ensures c !in s[..i]
  {
    if s == "" then 0
    else if s[0] == c then 0
    else
      var i := 1 + Index(s[1..], c);
      assert s[..i] == [s[0]] + s[1..][..i - 1];
      i
  }

  /** strings.Split for a separator of one character. */
  function Split(s: string, sep: char): (parts: seq<string>)
    ensures |parts| > 0
    decreases |s|
  {
    var i := Index(s, sep);
    if i == |s| then [s] else [s[..i]] + Split(s[i + 1..], sep)
  }

  lemma {:induction false} IndexOfField(field: string, sep: char, rest: string)
    requires sep !in field
    ensures Index(field + [sep] + rest, sep) == |field|
  {
    var s := field + [sep] + rest;
    if field != "" {
      IndexOfField(field[1..], sep, rest);
      assert s[1..] == field[1..] + [sep] + rest;
    }
  }

  lemma SplitWhole(s: string, sep: char)
    requires sep !in s
    ensures Split(s, sep) == [s]
  {
  }

  /** A field without separators comes back whole, the rest is split on its own. */
  lemma SplitField(field: string, sep: char, rest: string)
    requires sep !in field
    ensures Split(field + [sep] + rest, sep) == [field] + Split(rest, sep)
  {
    var s := field + [sep] + rest;
    IndexOfField(field, sep, rest);
    assert s[..|field|] == field && s[|field| + 1..] == rest;
  }

  /** `rest` is empty or starts with a separator. */
  predicate Ends(rest: string, sep: char) {
    rest == "" || rest[0] == sep
  }

  /** The first part goes up to the first separator, or is everything. */
  lemma FirstPart(s: string, sep: char) returns (rest: string)
    ensures Ends(rest, sep) && s == Split(s, sep)[0] + rest
    ensures sep !in Split(s, sep)[0]
  {
    rest := s[Index(s, sep)..];
  }

  lemma FirstPartIs(part: string, rest: string, sep: char)
    requires sep !in part && Ends(rest, sep)
    ensures Split(part + rest, sep)[0] == part
  {
    if rest == "" {
      assert part + rest == part;
      SplitWhole(part, sep);
    } else {
      assert part + rest == part + [sep] + rest[1..];
      hide Split;
      SplitField(part, sep, rest[1..]);
    }
  }

  /** A text with a separator is its first part, the separator, and what the other parts are those of. */
  lemma SplitAtFirst(s: string, sep: char) returns (first: string, behind: string)
    requires |Split(s, sep)| >= 2
    ensures sep !in first && s == first + [sep] + behind && |behind| < |s|
    ensures Split(s, sep)[1] == Split(behind, sep)[0]
    ensures |Split(s, sep)| == |Split(behind, sep)| + 1
    ensures Split(s, sep)[|Split(s, sep)| - 1] == Split(behind, sep)[|Split(behind, sep)| - 1]
  {
    var i := Index(s, sep);
    first, behind := s[..i], s[i + 1..];
    CutAt(s, i);
  }

  lemma CutAt(s: string, i: nat)
    requires i < |s|
    ensures s == s[..i] + [s[i]] + s[i + 1..]
  {
  }

  lemma RegroupField(first: string, sep: char, part: string, rest: string)
    ensures first + [sep] + (part + rest) == first + [sep] + part + rest
  {
  }

  /** The second part is the first one of what is behind the first separator. */
  lemma SecondPart(s: string, sep: char) returns (first: string, rest: string)
    requires |Split(s, sep)| >= 2
    ensures sep !in first && Ends(rest, sep) && s == first + [sep] + Split(s, sep)[1] + rest
    ensures sep !in Split(s, sep)[1]
  {
    hide Split;
    var behind;
    first, behind := SplitAtFirst(s, sep);
    rest := FirstPart(behind, sep);
    RegroupField(first, sep, Split(s, sep)[1], rest);
  }

  /** The last part is what follows the last separator, or everything. */
  lemma {:induction false} LastPart(s: string, sep: char)
    ensures
      var parts := Split(s, sep);
      var i := |s| - |parts[|parts| - 1]|;
      i >= 0 && s[i..] == parts[|parts| - 1] && (i > 0 ==> s[i - 1] == sep)
    decreases |s|
  {
    if |Split(s, sep)| >= 2 {
      hide Split;
      var first, behind := SplitAtFirst(s, sep);
      LastPart(behind, sep);
      SuffixOfSuffix(first, sep, behind, |behind| - |Split(behind, sep)[|Split(behind, sep)| - 1]|);
    } else {
      assert s[0..] == s;
    }
  }

  lemma SuffixOfSuffix(first: string, sep: char, behind: string, i: nat)
    requires i <= |behind|
    ensures
      var s, k := first + [sep] + behind, |first| + 1 + i;
      s[k..] == behind[i..] && s[k - 1] == if i > 0 then behind[i - 1] else sep
  {
  }

  lemma SecondPartIs(first: string, part: string, rest: string, sep: char)
    requires sep !in first && sep !in part && Ends(rest, sep)
    ensures
      var parts := Split(first + [sep] + part + rest, sep);
      |parts| >= 2 && parts[1] == part
  {
    hide Split;
    assert first + [sep] + part + rest == first + [sep] + (part + rest);
    SplitField(first, sep, part + rest);
    FirstPartIs(part, rest, sep);
  }

  /** No part has a separator; together with JoinSplit that determines the parts. */
  lemma {:induction false} SplitParts(s: string, sep: char)
    ensures forall p | p in Split(s, sep) :: sep !in p
    decreases |s|
  {
    var i := Index(s, sep);
    if i < |s| {
      SplitParts(s[i + 1..], sep);
    }
  }

  /** Inverse of Split. */
  function Join(parts: seq<string>, sep: char): string
    requires |parts| > 0
  {
    if |parts| == 1 then parts[0] else parts[0] + [sep] + Join(parts[1..], sep)
  }
}
