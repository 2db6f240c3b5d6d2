// The entries held by the SPIRE server, and the effect of sequences of calls on
// them when any of the calls may fail.
module Store {
  import opened Wrappers
  import opened SpireApi

  /** Entries by ID. */
  type Entries = map<string, Entry>

  /** Every entry is held under its own ID. */
  ghost predicate Keyed(m: Entries) {
    forall id | id in m :: m[id].id == id
  }

  datatype Call = Delete(id: string) | Create(entry: Entry) | Update(entry: Entry) {
    function Target(): string {
      match this
      case Delete(id) => id
      case Create(e) => e.id
      case Update(e) => e.id
    }
  }

  function At(m: Entries, id: string): Option<Entry> {
    if id in m then Some(m[id]) else None
  }

  /** An entry with these IDs and selectors exists already. */
  predicate Blocked(m: Entries, e: Entry) {
    exists id | id in m :: Similar(m[id], e)
  }

  /** What a call does when the server carries it out. */
  function Effect(m: Entries, c: Call): Entries {
    match c
    case Delete(id) => m - {id}
    case Create(e) => if Blocked(m, e) || e.id in m then m else m[e.id := e]
    case Update(e) => if e.id in m then m[e.id := e] else m
  }

  const OK := 0
  const NOT_FOUND := 5
  const ALREADY_EXISTS := 6
  const INTERNAL := 13

  /** The status the server reports for a call that it carries out. */
  function StatusOf(m: Entries, c: Call): nat {
    match c
    case Delete(id) => if id in m then OK else NOT_FOUND
    case Create(e) => if Blocked(m, e) then ALREADY_EXISTS else if e.id in m then INTERNAL else OK
    case Update(e) => if e.id in m then OK else NOT_FOUND
  }

  lemma EffectKeyed(m: Entries, c: Call)
    requires Keyed(m)
    ensures Keyed(Effect(m, c))
  {
  }

  /** `took` says for each call whether it reached the server and was carried out. */
  function Run(m: Entries, calls: seq<Call>, took: seq<bool>): Entries
    requires |took| == |calls|
    decreases |calls|
  {
    if calls == [] then m
    else Run(if took[0] then Effect(m, calls[0]) else m, calls[1..], took[1..])
  }

  function Statuses(m: Entries, calls: seq<Call>, took: seq<bool>): (r: seq<nat>)
    requires |took| == |calls|
    ensures |r| == |calls|
    decreases |calls|
  {
    if calls == [] then []
    else if took[0] then [StatusOf(m, calls[0])] + Statuses(Effect(m, calls[0]), calls[1..], took[1..])
    else [INTERNAL] + Statuses(m, calls[1..], took[1..])
  }

  function AllTrue(n: nat): (r: seq<bool>)
    ensures |r| == n && forall i | 0 <= i < n :: r[i]
  {
    seq(n, _ => true)
  }

  function Deletes(ids: seq<string>): (r: seq<Call>)
    ensures |r| == |ids| && forall i | 0 <= i < |r| :: r[i] == Delete(ids[i])
  {
    seq(|ids|, i requires 0 <= i < |ids| => Delete(ids[i]))
  }

  function Creates(es: seq<Entry>): (r: seq<Call>)
    ensures |r| == |es| && forall i | 0 <= i < |r| :: r[i] == Create(es[i])
  {
    seq(|es|, i requires 0 <= i < |es| => Create(es[i]))
  }

  function Updates(es: seq<Entry>): (r: seq<Call>)
    ensures |r| == |es| && forall i | 0 <= i < |r| :: r[i] == Update(es[i])
  {
    seq(|es|, i requires 0 <= i < |es| => Update(es[i]))
  }

  lemma {:induction false} RunAppend(m: Entries, c: seq<Call>, t: seq<bool>, c': seq<Call>, t': seq<bool>)
    requires |t| == |c| && |t'| == |c'|
    ensures Run(m, c + c', t + t') == Run(Run(m, c, t), c', t')
    decreases |c|
  {
    if c == [] {
      assert c + c' == c' && t + t' == t';
    } else {
      var next := if t[0] then Effect(m, c[0]) else m;
      assert (c + c')[1..] == c[1..] + c' && (t + t')[1..] == t[1..] + t';
      RunAppend(next, c[1..], t[1..], c', t');
    }
  }

  lemma {:induction false} StatusesAppend(m: Entries, c: seq<Call>, t: seq<bool>, c': seq<Call>, t': seq<bool>)
    requires |t| == |c| && |t'| == |c'|
    ensures Statuses(m, c + c', t + t') == Statuses(m, c, t) + Statuses(Run(m, c, t), c', t')
    decreases |c|
  {
    if c == [] {
      assert c + c' == c' && t + t' == t';
    } else {
      var next := if t[0] then Effect(m, c[0]) else m;
      assert (c + c')[1..] == c[1..] + c' && (t + t')[1..] == t[1..] + t';
      StatusesAppend(next, c[1..], t[1..], c', t');
    }
  }

  /** The last call of a sequence. */
  lemma RunLast(m: Entries, calls: seq<Call>, took: seq<bool>)
    requires |took| == |calls| > 0
    ensures
      var n := |calls| - 1;
      var before := Run(m, calls[..n], took[..n]);
      Run(m, calls, took) == if took[n] then Effect(before, calls[n]) else before
  {
    var n := |calls| - 1;
    assert calls == calls[..n] + [calls[n]] && took == took[..n] + [took[n]];
    RunAppend(m, calls[..n], took[..n], [calls[n]], [took[n]]);
  }

  lemma RunSnoc(m: Entries, c: seq<Call>, t: seq<bool>, call: Call, took: bool)
    requires |t| == |c|
    ensures Run(m, c + [call], t + [took]) ==
            if took then Effect(Run(m, c, t), call) else Run(m, c, t)
    ensures Statuses(m, c + [call], t + [took]) ==
            Statuses(m, c, t) + [if took then StatusOf(Run(m, c, t), call) else INTERNAL]
  {
    RunAppend(m, c, t, [call], [took]);
    StatusesAppend(m, c, t, [call], [took]);
  }

  /** Whatever is called, entries stay under their own IDs. */
  lemma {:induction false} RunKeyed(m: Entries, calls: seq<Call>, took: seq<bool>)
    requires |took| == |calls| && Keyed(m)
    ensures Keyed(Run(m, calls, took))
    decreases |calls|
  {
    if calls != [] {
      var next := if took[0] then Effect(m, calls[0]) else m;
      EffectKeyed(m, calls[0]);
      RunKeyed(next, calls[1..], took[1..]);
    }
  }

  lemma RunOne(m: Entries, c: Call, took: bool)
    ensures Run(m, [c], [took]) == if took then Effect(m, c) else m
  {
  }

  lemma RunNothing(m: Entries, calls: seq<Call>)
    ensures Run(m, calls[..0], []) == m
  {
  }

  /** The next call of a sequence. */
  lemma RunNext(m: Entries, calls: seq<Call>, t: seq<bool>, took: bool)
    requires |t| < |calls|
    ensures
      var now, call := Run(m, calls[..|t|], t), calls[|t|];
      && Run(m, calls[..|t| + 1], t + [took]) == (if took then Effect(now, call) else now)
      && Statuses(m, calls[..|t| + 1], t + [took]) ==
         Statuses(m, calls[..|t|], t) + [if took then StatusOf(now, call) else INTERNAL]
  {
    assert calls[..|t| + 1] == calls[..|t|] + [calls[|t|]];
    RunSnoc(m, calls[..|t|], t, calls[|t|], took);
  }

  /** Calls that are not carried out change nothing. */
  lemma {:induction false} RunNone(m: Entries, calls: seq<Call>, took: seq<bool>)
    requires |took| == |calls| && forall i | 0 <= i < |took| :: !took[i]
    ensures Run(m, calls, took) == m
    decreases |calls|
  {
    if calls != [] {
      RunNone(m, calls[1..], took[1..]);
    }
  }

  /** `s` lists the values of `m`, each once, in any order. */
  ghost predicate Lists(s: seq<Entry>, m: Entries) {
    if s == [] then m == map[]
    else
      var e := s[|s| - 1];
      e.id in m && m[e.id] == e && Lists(s[..|s| - 1], m - {e.id})
  }

  lemma ListsSnoc(s: seq<Entry>, m: Entries, e: Entry)
    requires Lists(s, m) && e.id !in m
    ensures Lists(s + [e], m[e.id := e])
  {
    assert (s + [e])[..|s|] == s;
    assert m[e.id := e] - {e.id} == m;
  }

  lemma {:induction false} ListsMembers(s: seq<Entry>, m: Entries)
    requires Lists(s, m)
    ensures forall e | e in s :: e.id in m && m[e.id] == e
    ensures forall id | id in m :: m[id] in s
  {
    if s != [] {
      var init, last := s[..|s| - 1], s[|s| - 1];
      ListsMembers(init, m - {last.id});
      assert s == init + [last];
      forall id | id in m
        ensures m[id] in s
      {
        if id != last.id {
          assert (m - {last.id})[id] in init;
        }
      }
    }
  }

  /** The part of `m` outside `todo`. */
  function Visited(m: Entries, todo: set<string>): Entries {
    m - todo
  }

  lemma VisitedStep(m: Entries, todo: set<string>, id: string)
    requires id in todo
    ensures Visited(m, todo - {id}) == if id in m then Visited(m, todo)[id := m[id]] else Visited(m, todo)
  {
  }

  /** One more ID visited: its entry joins the list if it is in `m`. */
  lemma ListsVisit(s: seq<Entry>, m: Entries, todo: set<string>, id: string)
    requires Lists(s, Visited(m, todo)) && id in todo && Keyed(m)
    ensures Lists(if id in m then s + [m[id]] else s, Visited(m, todo - {id}))
  {
    VisitedStep(m, todo, id);
    if id in m {
      ListsSnoc(s, Visited(m, todo), m[id]);
    }
  }

  lemma VisitedNone(m: Entries, todo: set<string>)
    requires m.Keys <= todo
    ensures Visited(m, todo) == map[]
  {
  }

  lemma VisitedAll(m: Entries)
    ensures Visited(m, {}) == m
  {
  }
}
