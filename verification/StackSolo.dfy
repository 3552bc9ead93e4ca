/** Calls that run without interference: the sequential meaning of Push and Pop. */
module StackSolo {
  import opened Common
  import opened StackMachine
  import opened StackInvariant
  import opened Tallies
  import opened StackSteps

  ghost predicate Reaches<T>(s: State<T>, ls: seq<Label<T>>, s': State<T>) {
    s' == Run(s, ls) && RunWithinWidths(s, ls)
  }

  function Steps<T>(t: nat, k: nat): seq<Label<T>> { seq(k, _ => Step(t)) }

  /** The accesses of one Push(d) that receives the node a from the pool. */
  function PushRun<T>(t: nat, d: T, a: Addr): seq<Label<T>> { [CallPush(t, d), Alloc(t, a)] + Steps(t, 7) }

  /** The accesses of one Pop that is granted, and of one that is refused. */
  function PopRun<T>(t: nat): seq<Label<T>> { [CallPop(t)] + Steps(t, 7) }
  function RefusedRun<T>(t: nat): seq<Label<T>> { [CallPop(t)] + Steps(t, 2) }

  lemma Then<T>(s: State<T>, a: seq<Label<T>>, m: State<T>, b: seq<Label<T>>, e: State<T>)
    requires Reaches(s, a, m) && Reaches(m, b, e)
    ensures Reaches(s, a + b, e)
  {
    RunAppend(s, a, b);
  }

  lemma One<T>(s: State<T>, l: Label<T>)
    requires WithinWidths(s, l)
    ensures Reaches(s, [l], Exec(s, l))
  {
    assert [l][1..] == [];
  }

  /** Extends a run by one access of thread t. */
  lemma More<T>(s: State<T>, t: nat, k: nat, m: State<T>)
    requires Reaches(s, Steps(t, k), m) && WithinWidths(m, Step(t))
    ensures Reaches(s, Steps(t, k + 1), Exec(m, Step(t)))
  {
    One(m, Step(t));
    Then(s, Steps(t, k), m, [Step(t)], Exec(m, Step(t)));
    assert Steps<T>(t, k + 1) == Steps(t, k) + [Step(t)];
  }

  ghost predicate OthersSame<T>(s: State<T>, s': State<T>, t: nat) {
    |s'.threads| == |s.threads| && forall u :: 0 <= u < |s.threads| && u != t ==> s'.threads[u] == s.threads[u]
  }

  ghost predicate HeadSame<T>(s: State<T>, s': State<T>, t: nat)
    requires t < |s.threads|
  {
    && OthersSame(s, s', t)
    && s'.threads[t].hist.got == s.threads[t].hist.got && s'.threads[t].hist.refused == s.threads[t].hist.refused
    && s'.top == s.top && s'.id == s.id && s'.stack == s.stack && s'.ops == s.ops
  }

  /** An access that leaves the head, m_Count and the pool alone. */
  lemma QuietAccess<T>(s: State<T>, t: nat)
    requires t < |s.threads|
    requires var f := s.threads[t].frame;
      f.PushData? || f.PushNull? || f.PushReadTop? || f.PushReadId? || f.PushLink?
      || f.PopReadTop? || f.PopReadId? || (f.PopReadNext? && f.top != NULL && f.top in s.next)
    ensures var s' := Exec(s, Step(t)); HeadSame(s, s', t) && s'.count == s.count && s'.owned == s.owned
    ensures var f' := Exec(s, Step(t)).threads[t].frame;
      match s.threads[t].frame
      case PushData(d, n) => f' == PushNull(d, n)
      case PushNull(d, n) => f' == PushReadTop(d, n)
      case PushReadTop(d, n) => f' == PushReadId(d, n, s.top)
      case PushReadId(d, n, top) => f' == PushLink(d, n, top, s.id)
      case PushLink(d, n, top, id) => f' == PushCas(d, n, top, id)
      case PopReadTop => f' == PopReadId(s.top)
      case PopReadId(top) => f' == PopReadNext(top, s.id)
      case PopReadNext(top, id) => f' == PopCas(top, id, NextOf(s, top))
      case _ => true
    ensures WithinWidths(s, Step(t))
  {
  }

  lemma PushStart<T>(s: State<T>, t: nat, d: T, a: Addr) returns (s': State<T>)
    requires t < |s.threads| && s.threads[t].frame.Idle? && a != NULL && a !in s.owned
    ensures Reaches(s, [CallPush(t, d), Alloc(t, a)], s')
    ensures HeadSame(s, s', t) && s'.threads[t].frame == PushData(d, a)
    ensures s'.owned == s.owned + {a} && s'.count == s.count
  {
    var m := Exec(s, CallPush(t, d));
    s' := Exec(m, Alloc(t, a));
    One(s, CallPush(t, d));
    One(m, Alloc(t, a));
    Then(s, [CallPush(t, d)], m, [Alloc(t, a)], s');
  }

  /** From the allocation to just before the CAS of Push. */
  lemma PushPrefix<T>(s: State<T>, t: nat) returns (s': State<T>)
    requires t < |s.threads| && s.threads[t].frame.PushData?
    ensures Reaches(s, Steps(t, 5), s')
    ensures HeadSame(s, s', t) && s'.owned == s.owned && s'.count == s.count
    ensures s'.threads[t].frame == PushCas(s.threads[t].frame.d, s.threads[t].frame.node, s.top, s.id)
  {
    var d, n := s.threads[t].frame.d, s.threads[t].frame.node;
    var frames := [PushData(d, n), PushNull(d, n), PushReadTop(d, n), PushReadId(d, n, s.top),
                   PushLink(d, n, s.top, s.id), PushCas(d, n, s.top, s.id)];
    s' := s;
    for k := 0 to 5
      invariant Reaches(s, Steps(t, k), s')
      invariant HeadSame(s, s', t) && s'.owned == s.owned && s'.count == s.count
      invariant s'.threads[t].frame == frames[k]
    {
      QuietAccess(s', t);
      More(s, t, k, s');
      s' := Exec(s', Step(t));
    }
  }

  /** From the CAS of Push, with the head as it was read, to the return. */
  lemma PushSuffix<T>(s: State<T>, t: nat) returns (s': State<T>)
    requires t < |s.threads| && s.threads[t].frame.PushCas? && |s.stack| < HALF32 - 1
    requires CasHits(s, s.threads[t].frame.top, s.threads[t].frame.id)
    ensures Reaches(s, Steps(t, 2), s')
    ensures var f := s.threads[t].frame;
      && OthersSame(s, s', t) && s'.threads[t] == Thread(Idle, s.threads[t].hist)
      && s'.stack == [Cell(f.node, f.d)] + s.stack && s'.ops == s.ops + [Pushed(t, f.d)]
      && s'.owned == s.owned && s'.count == Inc32(s.count)
  {
    var c := Exec(s, Step(t));
    More(s, t, 0, s);
    More(s, t, 1, c);
    s' := Exec(c, Step(t));
  }

  /** Push alone puts its argument on top. */
  lemma SoloPush<T>(s: State<T>, t: nat, d: T, a: Addr) returns (s': State<T>)
    requires Inv(s) && t < |s.threads| && s.threads[t].frame.Idle? && a != NULL && a !in s.owned
    requires |s.stack| < HALF32 - 1
    ensures Reaches(s, PushRun(t, d, a), s')
    ensures Inv(s') && OthersSame(s, s', t) && s'.threads[t].frame.Idle?
    ensures s'.threads[t].hist.got == s.threads[t].hist.got
    ensures s'.stack == [Cell(a, d)] + s.stack && |s'.ops| == |s.ops| + 1
    ensures s'.owned == s.owned + {a} && s'.count == s.count + 1
  {
    var m := PushStart(s, t, d, a);
    var c := PushPrefix(m, t);
    s' := PushSuffix(c, t);
    Then(m, Steps(t, 5), c, Steps(t, 2), s');
    assert Steps<T>(t, 5) + Steps(t, 2) == Steps(t, 7);
    Then(s, [CallPush(t, d), Alloc(t, a)], m, Steps(t, 7), s');
    RunInv(s, PushRun(t, d, a));
  }

  lemma PopStart<T>(s: State<T>, t: nat) returns (s': State<T>)
    requires Inv(s) && t < |s.threads| && s.threads[t].frame.Idle?
    ensures Reaches(s, [CallPop(t), Step(t)], s') && Inv(s')
    ensures HeadSame(s, s', t) && s'.owned == s.owned && s'.count == s.count - 1
    ensures s'.next == s.next && s'.data == s.data
    ensures s'.threads[t].frame == if s.count <= 0 then PopRestore else PopReadTop
  {
    var m := Exec(s, CallPop(t));
    s' := Exec(m, Step(t));
    One(s, CallPop(t));
    One(m, Step(t));
    Then(s, [CallPop(t)], m, [Step(t)], s');
    StepInv(s, CallPop(t));
    StepInv(m, Step(t));
    CountAccount(m, t);
  }

  /** From the grant to just before the CAS of Pop. */
  lemma PopPrefix<T>(s: State<T>, t: nat) returns (s': State<T>)
    requires Inv(s) && t < |s.threads| && s.threads[t].frame.PopReadTop?
    ensures Reaches(s, Steps(t, 3), s') && Inv(s')
    ensures HeadSame(s, s', t) && s'.owned == s.owned && s'.count == s.count
    ensures s'.threads[t].frame == PopCas(s.top, s.id, NextOf(s, s.top)) && s'.threads[t].hist.ver == |s.ops|
  {
    ReservedMeansLinked(s, t);
    QuietAccess(s, t);
    var c1 := Exec(s, Step(t));
    More(s, t, 0, s);
    QuietAccess(c1, t);
    var c2 := Exec(c1, Step(t));
    More(s, t, 1, c1);
    QuietAccess(c2, t);
    s' := Exec(c2, Step(t));
    More(s, t, 2, c2);
    RunInv(s, Steps(t, 3));
  }

  /** From the CAS of Pop, with the head as it was read, to the return. */
  lemma PopSuffix<T>(s: State<T>, t: nat) returns (s': State<T>)
    requires t < |s.threads| && s.threads[t].frame.PopCas? && s.threads[t].hist.ver == |s.ops|
    requires CasHits(s, s.threads[t].frame.top, s.threads[t].frame.id)
    requires s.stack != [] && s.top in s.data && s.top in s.owned
    ensures Reaches(s, Steps(t, 3), s')
    ensures OthersSame(s, s', t) && s'.threads[t].frame.Idle?
    ensures s'.threads[t].hist.got == s.threads[t].hist.got + [s.data[s.top]]
    ensures s'.stack == s.stack[1..] && s'.ops == s.ops + [Popped(t, s.stack[0].value)]
    ensures s'.owned == s.owned - {s.top} && s'.count == s.count
  {
    var c1 := Exec(s, Step(t));
    More(s, t, 0, s);
    var c2 := Exec(c1, Step(t));
    More(s, t, 1, c1);
    s' := Exec(c2, Step(t));
    More(s, t, 2, c2);
  }

  /** Pop alone, when m_Count is positive, returns and unlinks the top. */
  lemma SoloPop<T>(s: State<T>, t: nat) returns (s': State<T>)
    requires Inv(s) && t < |s.threads| && s.threads[t].frame.Idle? && s.count > 0
    ensures s.stack != [] && Reaches(s, PopRun(t), s')
    ensures Inv(s') && OthersSame(s, s', t) && s'.threads[t].frame.Idle?
    ensures s'.threads[t].hist.got == s.threads[t].hist.got + [s.stack[0].value]
    ensures s'.stack == s.stack[1..] && |s'.ops| == |s.ops| + 1
    ensures s'.owned == s.owned - {s.stack[0].addr} && s'.count == s.count - 1
  {
    var m := PopStart(s, t);
    var c := PopPrefix(m, t);
    assert s.stack != [] && CellInv(c, 0);
    s' := PopSuffix(c, t);
    Then(m, Steps(t, 3), c, Steps(t, 3), s');
    assert Steps<T>(t, 3) + Steps(t, 3) == Steps(t, 6);
    Then(s, [CallPop(t), Step(t)], m, Steps(t, 6), s');
    assert [CallPop(t), Step(t)] + Steps<T>(t, 6) == PopRun(t);
    RunInv(s, PopRun(t));
  }

  /** Pop alone, when m_Count is not positive, returns false and changes nothing else. */
  lemma SoloRefusal<T>(s: State<T>, t: nat) returns (s': State<T>)
    requires Inv(s) && t < |s.threads| && s.threads[t].frame.Idle? && s.count <= 0
    ensures Reaches(s, RefusedRun(t), s') && Inv(s')
    ensures s' == s.(threads := s'.threads) && OthersSame(s, s', t)
    ensures s'.threads[t].frame.Idle? && s'.threads[t].hist.got == s.threads[t].hist.got
    ensures s'.threads[t].hist.refused == s.threads[t].hist.refused + 1
  {
    var m := PopStart(s, t);
    s' := Exec(m, Step(t));
    More(m, t, 0, m);
    Then(s, [CallPop(t), Step(t)], m, Steps(t, 1), s');
    assert [CallPop(t), Step(t)] + Steps<T>(t, 1) == RefusedRun(t);
    StepInv(m, Step(t));
    CountAccount(m, t);
  }

  /** With nobody else inside a call, Pop returns true exactly when the list is not empty. */
  lemma SequentialStack<T>(s: State<T>, t: nat)
    requires Inv(s) && t < |s.threads|
    requires forall u :: 0 <= u < |s.threads| ==> s.threads[u].frame.Idle?
    ensures s.count == |s.stack|
    ensures s.stack == [] ==>
      var s' := Run(s, RefusedRun(t));
      OthersSame(s, s', t) && s'.stack == [] && s'.threads[t].hist.refused == s.threads[t].hist.refused + 1
    ensures s.stack != [] ==>
      var s' := Run(s, PopRun(t));
      && OthersSame(s, s', t) && s'.stack == s.stack[1..]
      && s'.threads[t].hist.got == s.threads[t].hist.got + [s.stack[0].value]
  {
    NoneTallied(s.threads);
    if s.stack == [] {
      var s' := SoloRefusal(s, t);
    } else {
      var s' := SoloPop(s, t);
    }
  }
}
