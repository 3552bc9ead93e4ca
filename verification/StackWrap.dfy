/** The bound of 2^64 successful CASs is tight: at exactly 2^64 a reachable Pop breaks the list. */
module StackWrap {
  import opened Common
  import opened StackMachine
  import opened StackInvariant
  import opened StackSteps
  import opened StackSolo

  /** Thread 0 holds (node 3, its _ID, _Next == 2) before its CAS while the list is 3, 4, 1. */
  ghost predicate Stalled<T>(s: State<T>, ver: nat) {
    && Inv(s) && |s.threads| >= 2 && s.threads[1].frame.Idle?
    && s.threads[0].frame.PopCas? && s.threads[0].frame.top == 3 && s.threads[0].frame.nxt == 2
    && s.threads[0].frame.id == IdOf(ver) && s.threads[0].hist.ver == ver
    && |s.stack| == 3 && s.stack[0].addr == 3 && s.count == 2 && s.owned == {1, 3, 4}
  }

  /** One Push and one Pop by thread 1 restore the list and advance _ID by two. */
  lemma Cycle<T>(s: State<T>, ver: nat, d: T) returns (s': State<T>, ls: seq<Label<T>>)
    requires Stalled(s, ver)
    ensures Reaches(s, ls, s') && Stalled(s', ver) && |s'.ops| == |s.ops| + 2
  {
    var m := SoloPush(s, 1, d, 5);
    s' := SoloPop(m, 1);
    Then(s, PushRun(1, d, 5), m, PopRun(1), s');
    ls := PushRun(1, d, 5) + PopRun(1);
    assert s'.threads[0] == s.threads[0];
    assert s'.owned == s.owned;
  }

  lemma {:induction false} Cycles<T>(s: State<T>, ver: nat, d: T, k: nat) returns (s': State<T>, ls: seq<Label<T>>)
    requires Stalled(s, ver)
    ensures Reaches(s, ls, s') && Stalled(s', ver) && |s'.ops| == |s.ops| + 2 * k
    decreases k
  {
    if k == 0 {
      s', ls := s, [];
    } else {
      var m, first := Cycle(s, ver, d);
      var rest;
      s', rest := Cycles(m, ver, d, k - 1);
      Then(s, first, m, rest, s');
      ls := first + rest;
    }
  }

  lemma TopNext<T>(s: State<T>)
    requires Inv(s) && |s.stack| >= 2
    ensures s.top == s.stack[0].addr && NextOf(s, s.top) == s.stack[1].addr
  {
    assert CellInv(s, 0);
  }

  /** Thread 1 builds the list 3, 2, 1. */
  lemma Build<T>(n: nat, d: T) returns (s: State<T>, ls: seq<Label<T>>)
    requires 2 <= n <= HALF32
    ensures Reaches(Init<T>(n), ls, s) && Inv(s) && |s.threads| >= 2
    ensures s.threads[0].frame.Idle? && s.threads[1].frame.Idle?
    ensures |s.stack| == 3 && s.stack[0].addr == 3 && s.stack[1].addr == 2 && s.stack[2].addr == 1
    ensures s.owned == {1, 2, 3} && s.count == 3
  {
    InitInv<T>(n);
    hide Inv, Reaches;
    var s0 := Init<T>(n);
    var s1 := SoloPush(s0, 1, d, 1);
    var s2 := SoloPush(s1, 1, d, 2);
    Then(s0, PushRun(1, d, 1), s1, PushRun(1, d, 2), s2);
    s := SoloPush(s2, 1, d, 3);
    Then(s0, PushRun(1, d, 1) + PushRun(1, d, 2), s2, PushRun(1, d, 3), s);
    ls := PushRun(1, d, 1) + PushRun(1, d, 2) + PushRun(1, d, 3);
    assert s.threads[0] == s2.threads[0] == s1.threads[0] == s0.threads[0];
  }

  /** On that list thread 0 starts a Pop of node 3. */
  lemma Prepare<T>(n: nat, d: T) returns (s: State<T>, ls: seq<Label<T>>)
    requires 2 <= n <= HALF32
    ensures Reaches(Init<T>(n), ls, s) && Inv(s) && |s.threads| >= 2 && s.threads[1].frame.Idle?
    ensures s.threads[0].frame == PopCas(3, s.id, 2) && s.threads[0].hist.ver == |s.ops|
    ensures |s.stack| == 3 && s.stack[0].addr == 3 && s.stack[1].addr == 2 && s.stack[2].addr == 1
    ensures s.owned == {1, 2, 3} && s.count == 2
  {
    hide Inv, Reaches, Exec, Run;
    var s3, build := Build(n, d);
    var s4 := PopStart(s3, 0);
    s := PopPrefix(s4, 0);
    TopNext(s4);
    var rest := [CallPop(0), Step(0)] + Steps(0, 3);
    Then(s3, [CallPop(0), Step(0)], s4, Steps(0, 3), s);
    Then(Init<T>(n), build, s3, rest, s);
    ls := build + rest;
  }

  lemma IdIs<T>(s: State<T>)
    requires Inv(s)
    ensures s.id == IdOf(|s.ops|)
  {
  }

  /** Thread 1 pops nodes 3 and 2 and pushes nodes 4 and 3: the list becomes 3, 4, 1. */
  lemma Recycle<T>(s: State<T>, d: T) returns (s': State<T>, ls: seq<Label<T>>)
    requires Inv(s) && |s.threads| >= 2 && s.threads[1].frame.Idle?
    requires s.threads[0].frame == PopCas(3, s.id, 2) && s.threads[0].hist.ver == |s.ops|
    requires |s.stack| == 3 && s.stack[0].addr == 3 && s.stack[1].addr == 2 && s.stack[2].addr == 1
    requires s.owned == {1, 2, 3} && s.count == 2
    ensures Reaches(s, ls, s') && Stalled(s', |s.ops|) && |s'.ops| == |s.ops| + 4
  {
    hide Inv, Reaches, IdOf;
    IdIs(s);
    var s1 := SoloPop(s, 1);
    var s2 := SoloPop(s1, 1);
    Then(s, PopRun(1), s1, PopRun(1), s2);
    assert s2.owned == {1};
    var s3 := SoloPush(s2, 1, d, 4);
    Then(s, PopRun(1) + PopRun(1), s2, PushRun(1, d, 4), s3);
    s' := SoloPush(s3, 1, d, 3);
    Then(s, PopRun(1) + PopRun(1) + PushRun(1, d, 4), s3, PushRun(1, d, 3), s');
    ls := PopRun(1) + PopRun(1) + PushRun(1, d, 4) + PushRun(1, d, 3);
    assert s'.threads[0] == s3.threads[0] == s2.threads[0] == s1.threads[0] == s.threads[0];
  }

  /**
   * After exactly 2^64 successful CASs a stalled Pop's CAS succeeds again, although its node
   * was recycled meanwhile, and leaves the head pointing at a node that the pool owns.
   */
  lemma WindowIsTight<T>(n: nat, d: T) returns (ls: seq<Label<T>>)
    requires 2 <= n <= HALF32
    ensures RunWithinWidths(Init<T>(n), ls)
    ensures var s := Run(Init<T>(n), ls);
      && |s.threads| >= 2 && s.threads[0].frame.PopCas? && |s.ops| - s.threads[0].hist.ver == MOD64
      && var s' := Exec(s, Step(0));
         s'.threads[0].frame.PopReadData? && s'.top != NULL && s'.top !in s'.owned && !Inv(s')
  {
    var s1, l1 := Prepare(n, d);
    var s2, l2 := Recycle(s1, d);
    var s3, l3 := Cycles(s2, |s1.ops|, d, HALF64 - 2);
    Then(Init<T>(n), l1, s1, l2, s2);
    Then(Init<T>(n), l1 + l2, s2, l3, s3);
    ls := l1 + l2 + l3;
    HitAfterWrap(s3, |s1.ops|);
  }

  lemma HitAfterWrap<T>(s: State<T>, ver: nat)
    requires Stalled(s, ver) && |s.ops| - ver == MOD64
    ensures var s' := Exec(s, Step(0));
      s'.threads[0].frame.PopReadData? && s'.top != NULL && s'.top !in s'.owned && !Inv(s')
  {
    IdWraps(ver, |s.ops|);
    assert CellInv(s, 0);
    var s' := Exec(s, Step(0));
    assert s'.top == 2 && |s'.stack| == 2;
    assert Inv(s') ==> CellInv(s', 0);
  }
}
