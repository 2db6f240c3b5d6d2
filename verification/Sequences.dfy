// Loops that append to a slice, as functions.
module Sequences {
  import opened Wrappers

  /** The results of `f` on all elements one after the other. */
  function FlatMap<A, B>(xs: seq<A>, f: A -> seq<B>): seq<B> {
    if xs == [] then [] else FlatMap(xs[..|xs| - 1], f) + f(xs[|xs| - 1])
  }

  lemma FlatMapNext<A, B>(xs: seq<A>, f: A -> seq<B>, i: nat)
    requires i < |xs|
    ensures FlatMap(xs[..i + 1], f) == FlatMap(xs[..i], f) + f(xs[i])
  {
    assert xs[..i + 1][..i] == xs[..i];
  }

  lemma {:induction false} FlatMapMembers<A, B>(xs: seq<A>, f: A -> seq<B>, y: B)
    ensures y in FlatMap(xs, f) <==> exists x | x in xs :: y in f(x)
  {
    if xs != [] {
      var init, last := xs[..|xs| - 1], xs[|xs| - 1];
      FlatMapMembers(init, f, y);
      assert xs == init + [last];
    }
  }

  /** The same for a loop that fails when `f` fails on an element. */
  function Collect<A, B>(xs: seq<A>, f: A -> Option<seq<B>>): Option<seq<B>> {
    if xs == [] then Some([])
    else
      match (Collect(xs[..|xs| - 1], f), f(xs[|xs| - 1]))
      case (Some(before), Some(last)) => Some(before + last)
      case _ => None
  }

  lemma CollectNext<A, B>(xs: seq<A>, f: A -> Option<seq<B>>, i: nat)
    requires i < |xs|
    ensures Collect(xs[..i + 1], f) ==
            match (Collect(xs[..i], f), f(xs[i]))
            case (Some(before), Some(last)) => Some(before + last)
            case _ => None
  {
    assert xs[..i + 1][..i] == xs[..i];
  }

  /** A failure on the way is a failure of the whole. */
  lemma {:induction false} CollectFails<A, B>(xs: seq<A>, f: A -> Option<seq<B>>, i: nat)
    requires i <= |xs| && Collect(xs[..i], f).None?
    ensures Collect(xs, f).None?
    decreases |xs| - i
  {
    if i < |xs| {
      CollectNext(xs, f, i);
      CollectFails(xs, f, i + 1);
    } else {
      assert xs[..i] == xs;
    }
  }
}
