/** No value is lost or duplicated: what was pushed is handed out, still linked, or in hand. */
module StackConservation {
  import opened Common
  import opened StackMachine
  import opened StackInvariant
  import opened StackSteps

  ghost function AllPushed<T>(ops: seq<Op<T>>): multiset<T> {
    if ops == [] then multiset{} else
      var e := ops[|ops| - 1];
      AllPushed(ops[..|ops| - 1]) + if e.Pushed? then multiset{e.value} else multiset{}
  }

  ghost function AllPopped<T>(ops: seq<Op<T>>): multiset<T> {
    if ops == [] then multiset{} else
      var e := ops[|ops| - 1];
      AllPopped(ops[..|ops| - 1]) + if e.Popped? then multiset{e.value} else multiset{}
  }

  /** Values the first n threads' Pops have written to *outData. */
  ghost function HandedOut<T>(s: State<T>, n: nat): multiset<T>
    requires n <= |s.threads|
  {
    if n == 0 then multiset{} else HandedOut(s, n - 1) + multiset(s.threads[n - 1].hist.got)
  }

  /** Values in nodes that Pops of the first n threads have unlinked but not yet read. */
  ghost function InHand<T>(s: State<T>, n: nat): multiset<T>
    requires n <= |s.threads|
  {
    if n == 0 then multiset{} else InHand(s, n - 1) + InHandOf(s, n - 1)
  }

  ghost function InHandOf<T>(s: State<T>, t: nat): multiset<T>
    requires t < |s.threads|
  {
    var f := s.threads[t].frame;
    if f.PopReadData? && f.top in s.data then multiset{s.data[f.top]} else multiset{}
  }

  /** The value the last operation pops, if thread m performed it. */
  ghost function LastPop<T>(ops: seq<Op<T>>, m: nat): multiset<T>
    requires ops != []
  {
    var e := ops[|ops| - 1];
    if e.Popped? && e.who == m then multiset{e.value} else multiset{}
  }

  ghost function PoppedBy<T>(ops: seq<Op<T>>, m: nat): multiset<T> {
    if ops == [] then multiset{} else PoppedBy(ops[..|ops| - 1], m) + LastPop(ops, m)
  }

  ghost function PoppedBelow<T>(ops: seq<Op<T>>, n: nat): multiset<T> {
    if n == 0 then multiset{} else PoppedBelow(ops, n - 1) + PoppedBy(ops, n - 1)
  }

  lemma {:induction false} ReplayConserves<T>(ops: seq<Op<T>>)
    requires Replay(ops).Some?
    ensures AllPushed(ops) == AllPopped(ops) + multiset(Replay(ops).value)
  {
    if ops != [] {
      var init := ops[..|ops| - 1];
      ReplayConserves(init);
      var st := Replay(init).value;
      match ops[|ops| - 1]
      case Pushed(_, v) => assert multiset([v] + st) == multiset{v} + multiset(st);
      case Popped(_, v) => assert st == [v] + st[1..];
    }
  }

  lemma {:induction false} PoppedInOrder<T>(ops: seq<Op<T>>, m: nat)
    ensures PoppedBy(ops, m) == multiset(PopsBy(ops, m))
  {
    if ops != [] { PoppedInOrder(ops[..|ops| - 1], m); }
  }

  /** The value the last operation pops, if one of the first n threads performed it. */
  ghost function LastPopBelow<T>(ops: seq<Op<T>>, n: nat): multiset<T>
    requires ops != []
  {
    if ops[|ops| - 1].who < n then LastPop(ops, ops[|ops| - 1].who) else multiset{}
  }

  lemma LastPopBelowStep<T>(ops: seq<Op<T>>, n: nat)
    requires ops != [] && n > 0
    ensures LastPopBelow(ops, n) == LastPopBelow(ops, n - 1) + LastPop(ops, n - 1)
  {
    var who := ops[|ops| - 1].who;
    if who < n - 1 {
      assert LastPop(ops, n - 1) == multiset{};
    } else if who == n - 1 {
      assert LastPopBelow(ops, n - 1) == multiset{};
    }
  }

  lemma Combine<T>(a: multiset<T>, b: multiset<T>, a': multiset<T>, b': multiset<T>, l: multiset<T>, m: multiset<T>)
    requires a' == a + l && b' == b + m
    ensures a' + b' == (a + b) + (l + m)
  {
  }

  lemma {:induction false} PoppedBelowStep<T>(ops: seq<Op<T>>, n: nat)
    requires ops != []
    ensures PoppedBelow(ops, n) == PoppedBelow(ops[..|ops| - 1], n) + LastPopBelow(ops, n)
  {
    if n > 0 {
      var init := ops[..|ops| - 1];
      PoppedBelowStep(ops, n - 1);
      Combine(PoppedBelow(init, n - 1), PoppedBy(init, n - 1), PoppedBelow(ops, n - 1), PoppedBy(ops, n - 1),
              LastPopBelow(ops, n - 1), LastPop(ops, n - 1));
      LastPopBelowStep(ops, n);
    }
  }

  lemma {:induction false} PoppedByThreads<T>(ops: seq<Op<T>>, n: nat)
    requires forall i :: 0 <= i < |ops| ==> ops[i].who < n
    ensures PoppedBelow(ops, n) == AllPopped(ops)
  {
    if ops == [] {
      NothingPopped<T>(n);
    } else {
      PoppedByThreads(ops[..|ops| - 1], n);
      PoppedBelowStep(ops, n);
    }
  }

  lemma {:induction false} NothingPopped<T>(n: nat)
    ensures PoppedBelow<T>([], n) == multiset{}
  {
    if n > 0 { NothingPopped<T>(n - 1); }
  }

  lemma ThreadPops<T>(s: State<T>, t: nat)
    requires t < |s.threads| && CallsInv(s, t)
    ensures PoppedBy(s.ops, t) == multiset(s.threads[t].hist.got) + InHandOf(s, t)
  {
    PoppedInOrder(s.ops, t);
    var f := s.threads[t].frame;
    var got := s.threads[t].hist.got;
    if f.PopReadData? {
      assert multiset(got + [s.data[f.top]]) == multiset(got) + multiset{s.data[f.top]};
    } else {
      assert got + [] == got;
    }
  }

  lemma {:induction false} PoppedAreHeldOrHanded<T>(s: State<T>, n: nat)
    requires ThreadsInv(s) && n <= |s.threads|
    ensures PoppedBelow(s.ops, n) == HandedOut(s, n) + InHand(s, n)
  {
    if n > 0 {
      hide FrameInv, CallsInv;
      PoppedAreHeldOrHanded(s, n - 1);
      ThreadPops(s, n - 1);
      Combine(HandedOut(s, n - 1), InHand(s, n - 1), HandedOut(s, n), InHand(s, n),
              multiset(s.threads[n - 1].hist.got), InHandOf(s, n - 1));
    }
  }

  /** Every value a CAS linked is, exactly once, handed out, in a popper's hand, or linked. */
  lemma ValuesConserved<T>(n: nat, ls: seq<Label<T>>)
    requires n <= HALF32 && RunWithinWidths(Init<T>(n), ls)
    ensures var s := Run(Init<T>(n), ls);
      AllPushed(s.ops) == HandedOut(s, |s.threads|) + InHand(s, |s.threads|) + multiset(Values(s.stack))
  {
    InitInv<T>(n);
    RunInv(Init<T>(n), ls);
    var s := Run(Init<T>(n), ls);
    ReplayConserves(s.ops);
    PoppedByThreads(s.ops, |s.threads|);
    PoppedAreHeldOrHanded(s, |s.threads|);
  }
}
