/**
 * Calls interleaved with everyone else. A schedule says what the others attempt in each gap
 * between two accesses of a call; a label belongs to the call's own thread where `mine` holds.
 */
module Schedules {
  type Schedule<L> = seq<seq<L>>

  /** The labels of others, in order. */
  function Foreign<L>(mine: L -> bool, ls: seq<L>): seq<L> {
    if ls == [] then [] else (if mine(ls[0]) then [] else [ls[0]]) + Foreign(mine, ls[1..])
  }

  /** Nothing of others is lost, and nothing of one's own is kept. */
  lemma {:induction false} ForeignIs<L>(mine: L -> bool, ls: seq<L>)
    ensures (forall l :: l in ls ==> !mine(l)) ==> Foreign(mine, ls) == ls
    ensures forall l :: l in Foreign(mine, ls) ==> !mine(l)
  {
    if ls != [] {
      ForeignIs(mine, ls[1..]);
      assert ls == [ls[0]] + ls[1..];
    }
  }

  lemma {:induction false} ForeignAppend<L>(mine: L -> bool, a: seq<L>, b: seq<L>)
    ensures Foreign(mine, a + b) == Foreign(mine, a) + Foreign(mine, b)
  {
    if a == [] {
      assert a + b == b;
    } else {
      assert (a + b)[0] == a[0] && (a + b)[1..] == a[1..] + b;
      ForeignAppend(mine, a[1..], b);
    }
  }

  /** What the others do in gap i; after the last gap of the schedule, nothing. */
  function Gap<L>(mine: L -> bool, env: Schedule<L>, i: nat): seq<L> {
    if i < |env| then Foreign(mine, env[i]) else []
  }

  /** The accesses of a call, each followed by its gap. */
  function Weave<L>(mine: L -> bool, own: seq<L>, env: Schedule<L>): seq<L> {
    if own == [] then [] else
      var n := |own| - 1;
      Weave(mine, own[..n], env) + [own[n]] + Gap(mine, env, n)
  }

  lemma WeaveNothing<L>(mine: L -> bool, env: Schedule<L>)
    ensures Weave(mine, [], env) == []
  {
  }

  lemma WeaveSnoc<L>(mine: L -> bool, own: seq<L>, l: L, env: Schedule<L>)
    ensures Weave(mine, own + [l], env) == Weave(mine, own, env) + [l] + Gap(mine, env, |own|)
  {
    assert (own + [l])[..|own|] == own;
  }

  /** The accesses of one call, beginning with `first`. */
  ghost predicate OneCall<L>(mine: L -> bool, first: L, own: seq<L>) {
    own != [] && own[0] == first && forall l :: l in own ==> mine(l)
  }

  lemma OneCallSnoc<L>(mine: L -> bool, first: L, own: seq<L>, l: L)
    requires OneCall(mine, first, own) && mine(l)
    ensures OneCall(mine, first, own + [l])
  {
  }

  lemma TwoMore<L>(mine: L -> bool, first: L, own: seq<L>, l: L)
    requires OneCall(mine, first, own) && mine(l)
    ensures OneCall(mine, first, own + [l, l])
  {
  }

  /** A whole call: its own accesses with every gap between them; perhaps one more after the last. */
  ghost predicate Woven<L>(mine: L -> bool, first: L, own: seq<L>, env: Schedule<L>, tr: seq<L>) {
    && OneCall(mine, first, own)
    && (tr == Weave(mine, own, env) || tr == Weave(mine, own[..|own| - 1], env) + [own[|own| - 1]])
  }

  lemma WovenLast<L>(mine: L -> bool, first: L, own: seq<L>, l: L, env: Schedule<L>)
    requires OneCall(mine, first, own) && mine(l)
    ensures Woven(mine, first, own + [l], env, Weave(mine, own, env) + [l])
  {
    OneCallSnoc(mine, first, own, l);
    assert (own + [l])[..|own|] == own;
  }
}
