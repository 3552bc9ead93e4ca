/** Every transition of StackMachine keeps the invariant. */
module StackSteps {
  import opened Common
  import opened StackMachine
  import opened StackInvariant
  import opened Tallies

  /** The frames whose access touches neither m_Count, nor the pool, nor the head. */
  predicate Local<T>(s: State<T>, t: nat)
    requires t < |s.threads|
  {
    match s.threads[t].frame
    case PushCas(_, _, top, id) => !CasHits(s, top, id)
    case PopCas(top, id, _) => !CasHits(s, top, id)
    case PushAlloc(_) | PushCount | PopReserve | PopRestore | PopFree(_) => false
    case _ => true
  }

  lemma CountUnchanged<T>(s: State<T>, s': State<T>, t: nat)
    requires CountInv(s) && t < |s.threads| == |s'.threads| && s'.threads == s.threads[t := s'.threads[t]]
    requires |s'.stack| == |s.stack| && s'.count == s.count
    requires KindOf(s'.threads[t].frame) == KindOf(s.threads[t].frame)
    ensures CountInv(s')
  {
    TallyAll(s, t, s'.threads[t]);
  }

  lemma PushLocal<T>(s: State<T>, t: nat)
    requires Inv(s) && t < |s.threads| && Local(s, t)
    requires var f := s.threads[t].frame;
      f.PushData? || f.PushNull? || f.PushReadTop? || f.PushReadId? || f.PushLink? || f.PushCas?
    ensures Inv(Advance(s, t))
  {
    var s' := Advance(s, t);
    assert FrameInv(s, t) && CallsInv(s, t);
    CountUnchanged(s, s', t);
    OwnStep(s, s', t);
  }

  lemma PopLocal<T>(s: State<T>, t: nat)
    requires Inv(s) && t < |s.threads| && Local(s, t)
    requires var f := s.threads[t].frame; f.PopReadTop? || f.PopReadId? || f.PopReadNext? || f.PopCas?
    ensures Inv(Advance(s, t))
  {
    var s' := Advance(s, t);
    assert FrameInv(s, t) && CallsInv(s, t);
    ReservedMeansLinked(s, t);
    CountUnchanged(s, s', t);
    OwnStep(s, s', t);
  }

  lemma PopData<T>(s: State<T>, t: nat)
    requires Inv(s) && t < |s.threads| && s.threads[t].frame.PopReadData?
    ensures Inv(Advance(s, t))
  {
    var s' := Advance(s, t);
    assert FrameInv(s, t) && CallsInv(s, t);
    CountUnchanged(s, s', t);
    OwnStep(s, s', t);
  }

  lemma CallStep<T>(s: State<T>, l: Label<T>)
    requires Inv(s) && (l.CallPush? || l.CallPop?)
    ensures Inv(Exec(s, l))
  {
    var s' := Exec(s, l);
    if l.t < |s.threads| && s.threads[l.t].frame.Idle? {
      assert FrameInv(s, l.t) && CallsInv(s, l.t);
      CountUnchanged(s, s', l.t);
      OwnStep(s, s', l.t);
    }
  }

  /** InterlockedIncrement and InterlockedDecrement never wrap, and keep the account of m_Count. */
  lemma CountAccount<T>(s: State<T>, t: nat)
    requires CountInv(s) && t < |s.threads|
    requires var f := s.threads[t].frame; f.PushCount? || f.PopReserve? || f.PopRestore?
    ensures CountInv(Advance(s, t))
    ensures Advance(s, t).count == if s.threads[t].frame.PopReserve? then s.count - 1 else s.count + 1
  {
    var ts, ts' := s.threads, Advance(s, t).threads;
    TallyUpdate(ts, t, ts'[t], Uncounted);
    TallyUpdate(ts, t, ts'[t], Reserved);
    TallyUpdate(ts, t, ts'[t], Failing);
    TallySum(ts');
    TallyAtLeast(ts, t, KindOf(ts[t].frame));
  }

  /** The three accesses to m_Count. */
  lemma CountStep<T>(s: State<T>, t: nat)
    requires Inv(s) && t < |s.threads|
    requires var f := s.threads[t].frame; f.PushCount? || f.PopReserve? || f.PopRestore?
    ensures Inv(Advance(s, t))
  {
    CountAccount(s, t);
    assert FrameInv(s, t) && CallsInv(s, t);
    OwnStep(s, Advance(s, t), t);
  }

  lemma AllocStep<T>(s: State<T>, t: nat, a: Addr)
    requires Inv(s) && t < |s.threads| && s.threads[t].frame.PushAlloc? && a != NULL && a !in s.owned
    ensures Inv(Exec(s, Alloc(t, a)))
  {
    var s' := Exec(s, Alloc(t, a));
    assert FrameInv(s, t) && CallsInv(s, t);
    CountUnchanged(s, s', t);
    NotLinked(s, a);
    ChainKept(s, s', a);
    forall u | 0 <= u < |s'.threads| ensures FrameInv(s', u) && CallsInv(s', u) {
      if u != t { ThreadKept(s, s', a, u); }
    }
    assert Held(s'.threads[t].frame) == a;
    StillHeld(s, s', t);
  }

  lemma NotLinked<T>(s: State<T>, a: Addr)
    requires ChainInv(s) && a !in s.owned
    ensures !InStack(s, a)
  {
    forall i | 0 <= i < |s.stack| ensures s.stack[i].addr != a { assert CellInv(s, i); }
  }

  lemma FreeOwners<T>(s: State<T>, t: nat)
    requires OwnerInv(s) && t < |s.threads| && s.threads[t].frame.PopFree? && FrameInv(s, t)
    ensures OwnerInv(Advance(s, t)) && Advance(s, t).threads[t].frame.Idle?
  {
    assert Held(s.threads[t].frame) == s.threads[t].frame.top;
    StillHeld(s, Advance(s, t), t);
  }

  lemma FreeStep<T>(s: State<T>, t: nat)
    requires Inv(s) && t < |s.threads| && s.threads[t].frame.PopFree?
    ensures Inv(Advance(s, t))
  {
    var s' := Advance(s, t);
    var p := s.threads[t].frame.top;
    assert FrameInv(s, t) && CallsInv(s, t);
    assert Held(s.threads[t].frame) == p;
    FreeOwners(s, t);
    CountUnchanged(s, s', t);
    ChainKept(s, s', p);
    forall u | 0 <= u < |s'.threads| ensures FrameInv(s', u) && CallsInv(s', u) {
      if u != t { ThreadKept(s, s', p, u); }
    }
  }

  lemma PoolStep<T>(s: State<T>, a: Addr, nxt: Addr, d: T)
    requires Inv(s) && a != NULL && a !in s.owned
    ensures Inv(Exec(s, PoolWrite(a, nxt, d)))
  {
    var s' := Exec(s, PoolWrite(a, nxt, d));
    NotLinked(s, a);
    ChainKept(s, s', a);
    forall u | 0 <= u < |s'.threads| ensures FrameInv(s', u) && CallsInv(s', u) {
      ThreadKept(s, s', a, u);
    }
    assert forall b :: HeldBySome(s, b) ==> HeldBySome(s', b);
  }

  /** Nodes held by threads other than t keep their holder. */
  lemma StillHeld<T>(s: State<T>, s': State<T>, t: nat)
    requires OwnerInv(s) && t < |s.threads| == |s'.threads| && s'.threads == s.threads[t := s'.threads[t]]
    ensures forall a :: HeldBySome(s, a) ==> a == Held(s.threads[t].frame) || HeldBySome(s', a)
  {
    forall u | 0 <= u < |s.threads| && u != t
      ensures Held(s'.threads[u].frame) == Held(s.threads[u].frame) {}
  }

  /** IDs agree exactly when the numbers of successful CASs agree modulo 2^64. */
  lemma IdWraps(v: nat, w: nat)
    requires v <= w
    ensures IdOf(v) == IdOf(w) <==> (w - v) % MOD64 == 0
    ensures Inc64(IdOf(v)) == IdOf(v + 1)
  {
    CountWraps(-1, v, w);
  }

  /** An operation by another thread leaves a thread outside the head alone. */
  lemma ThreadAfterCas<T>(s: State<T>, s': State<T>, t: nat, u: nat)
    requires u != t && u < |s.threads| == |s'.threads| && s'.threads[u] == s.threads[u]
    requires FrameInv(s, u) && CallsInv(s, u)
    requires s'.next == s.next && s'.data == s.data
    requires |s'.ops| == |s.ops| + 1 && s'.ops[..|s.ops|] == s.ops && s'.ops[|s.ops|].who == t
    ensures FrameInv(s', u) && CallsInv(s', u)
  {
    assert s'.ops[..|s'.ops| - 1] == s.ops;
    assert PushesBy(s'.ops, u) == PushesBy(s.ops, u) + [] && PopsBy(s'.ops, u) == PopsBy(s.ops, u) + [];
    match s.threads[u].frame {
      case PushLink(d, n, top, id) => assert Snapshot(s, u, s.threads[u].hist, top, id);
      case PushCas(d, n, top, id) => assert Snapshot(s, u, s.threads[u].hist, top, id);
      case PopCas(top, id, nxt) => assert Snapshot(s, u, s.threads[u].hist, top, id);
      case PopReadNext(top, id) => assert Snapshot(s, u, s.threads[u].hist, top, id);
      case _ =>
    }
  }

  lemma ThreadsAfterCas<T>(s: State<T>, s': State<T>, t: nat)
    requires ThreadsInv(s) && t < |s.threads| == |s'.threads|
    requires forall u :: 0 <= u < |s.threads| && u != t ==> s'.threads[u] == s.threads[u]
    requires s'.next == s.next && s'.data == s.data
    requires |s'.ops| == |s.ops| + 1 && s'.ops[..|s.ops|] == s.ops && s'.ops[|s.ops|].who == t
    requires FrameInv(s', t) && CallsInv(s', t)
    ensures ThreadsInv(s')
  {
    forall u | 0 <= u < |s'.threads| ensures FrameInv(s', u) && CallsInv(s', u) {
      if u != t { ThreadAfterCas(s, s', t, u); }
    }
  }

  /** Inside its loop a thread has had no success, so every successful CAS was another thread's. */
  lemma {:induction false} AllByOthers<T>(ops: seq<Op<T>>, start: nat, t: nat)
    requires start <= |ops| && forall i :: start <= i < |ops| ==> ops[i].who != t
    ensures CasByOthers(ops, start, t) == |ops| - start
  {
    if start < |ops| { AllByOthers(ops[..|ops| - 1], start, t); }
  }

  lemma PushHead<T>(s: State<T>, t: nat)
    requires HeadInv(s) && t < |s.threads| && s.threads[t].frame.PushCas?
    requires CasHits(s, s.threads[t].frame.top, s.threads[t].frame.id)
    ensures HeadInv(Advance(s, t))
  {
    var s' := Advance(s, t);
    assert s'.ops[..|s'.ops| - 1] == s.ops;
    IdWraps(|s.ops|, |s.ops|);
    assert Values(s'.stack) == [s.threads[t].frame.d] + Values(s.stack);
  }

  lemma PushChain<T>(s: State<T>, t: nat)
    requires Inv(s) && t < |s.threads| && s.threads[t].frame.PushCas?
    requires CasHits(s, s.threads[t].frame.top, s.threads[t].frame.id)
    ensures ChainInv(Advance(s, t))
  {
    var s' := Advance(s, t);
    var node := s.threads[t].frame.node;
    assert FrameInv(s, t);
    assert Held(s.threads[t].frame) == node;
    assert CellInv(s', 0);
    forall i | 0 < i < |s'.stack| ensures CellInv(s', i) && s'.stack[i].addr != node {
      assert CellInv(s, i - 1) && InStack(s, s.stack[i - 1].addr);
      assert s'.stack[i] == s.stack[i - 1];
    }
    DistinctAfterPush(s.stack, s'.stack);
  }

  lemma DistinctAfterPush<T>(st: seq<Cell<T>>, st': seq<Cell<T>>)
    requires st' != [] && st'[1..] == st
    requires forall i, j :: 0 <= i < j < |st| ==> st[i].addr != st[j].addr
    requires forall i :: 0 < i < |st'| ==> st'[i].addr != st'[0].addr
    ensures forall i, j :: 0 <= i < j < |st'| ==> st'[i].addr != st'[j].addr
  {
    assert forall i :: 0 < i < |st'| ==> st'[i] == st[i - 1];
  }

  /** Adding or removing the top cell moves one node between the list and thread t. */
  lemma MovedNode<T>(s: State<T>, s': State<T>, t: nat, p: Addr)
    requires OwnerInv(s) && t < |s.threads| == |s'.threads| && s'.threads == s.threads[t := s'.threads[t]]
    requires p != NULL && s'.owned == s.owned
    requires forall a :: a != p ==> (InStack(s', a) <==> InStack(s, a))
    requires Held(s.threads[t].frame) == (if InStack(s', p) then p else NULL)
    requires Held(s'.threads[t].frame) == (if InStack(s', p) then NULL else p)
    requires InStack(s', p) != InStack(s, p) && p in s.owned
    requires forall u :: 0 <= u < |s.threads| && u != t ==> Held(s.threads[u].frame) != p
    ensures OwnerInv(s')
  {
    StillHeld(s, s', t);
    assert Held(s'.threads[t].frame) == p ==> HeldBySome(s', p);
    forall a | a in s'.owned ensures a != NULL && (InStack(s', a) || HeldBySome(s', a)) {
      if a != p && !InStack(s', a) { assert HeldBySome(s, a); }
    }
  }

  lemma PushOwners<T>(s: State<T>, t: nat)
    requires Inv(s) && t < |s.threads| && s.threads[t].frame.PushCas?
    requires CasHits(s, s.threads[t].frame.top, s.threads[t].frame.id)
    ensures OwnerInv(Advance(s, t))
  {
    var s' := Advance(s, t);
    var p := s.threads[t].frame.node;
    assert FrameInv(s, t);
    assert s'.stack[0].addr == p && s'.stack[1..] == s.stack;
    assert forall a :: a != p ==> (InStack(s', a) <==> InStack(s, a)) by {
      forall i | 0 <= i < |s.stack| ensures s'.stack[i + 1] == s.stack[i] {}
    }
    assert Held(s.threads[t].frame) == p;
    MovedNode(s, s', t, p);
  }

  lemma PushThread<T>(s: State<T>, t: nat)
    requires t < |s.threads| && s.threads[t].frame.PushCas? && FrameInv(s, t) && CallsInv(s, t)
    requires CasHits(s, s.threads[t].frame.top, s.threads[t].frame.id)
    ensures FrameInv(Advance(s, t), t) && CallsInv(Advance(s, t), t)
  {
    var s' := Advance(s, t);
    assert s'.ops[..|s'.ops| - 1] == s.ops;
    AllByOthers(s.ops, s.threads[t].hist.start, t);
  }

  lemma PushCasStep<T>(s: State<T>, t: nat)
    requires Inv(s) && t < |s.threads| && s.threads[t].frame.PushCas?
    requires CasHits(s, s.threads[t].frame.top, s.threads[t].frame.id)
    requires WithinWidths(s, Step(t))
    ensures Inv(Advance(s, t))
  {
    var s' := Advance(s, t);
    PushHead(s, t);
    PushChain(s, t);
    PushOwners(s, t);
    TallyAll(s, t, s'.threads[t]);
    assert FrameInv(s, t) && CallsInv(s, t);
    PushThread(s, t);
    ThreadsAfterCas(s, s', t);
  }

  /** The node below the one on top. */
  function Successor<T>(s: State<T>): Addr { if |s.stack| > 1 then s.stack[1].addr else NULL }

  /** No ABA: a Pop whose CAS succeeds installs the true successor of the node on top. */
  lemma NoABA<T>(s: State<T>, t: nat)
    requires Inv(s) && t < |s.threads| && s.threads[t].frame.PopCas?
    requires CasHits(s, s.threads[t].frame.top, s.threads[t].frame.id)
    requires WithinWidths(s, Step(t))
    ensures s.stack != [] && s.threads[t].frame.top == s.stack[0].addr
    ensures s.threads[t].frame.nxt == Successor(s)
    ensures s.threads[t].hist.ver == |s.ops|
  {
    assert FrameInv(s, t);
    ReservedMeansLinked(s, t);
    IdWraps(s.threads[t].hist.ver, |s.ops|);
    assert CellInv(s, 0);
  }

  lemma PopChain<T>(s: State<T>, t: nat)
    requires Inv(s) && t < |s.threads| && s.threads[t].frame.PopCas?
    requires CasHits(s, s.threads[t].frame.top, s.threads[t].frame.id)
    requires s.threads[t].frame.nxt == Successor(s)
    ensures HeadInv(Advance(s, t)) && ChainInv(Advance(s, t))
  {
    var s' := Advance(s, t);
    ReservedMeansLinked(s, t);
    assert s'.ops[..|s'.ops| - 1] == s.ops;
    IdWraps(|s.ops|, |s.ops|);
    assert Values(s'.stack) == Values(s.stack)[1..];
    forall i | 0 <= i < |s'.stack| ensures CellInv(s', i) {
      assert CellInv(s, i + 1);
    }
  }

  lemma PopOwners<T>(s: State<T>, t: nat)
    requires Inv(s) && t < |s.threads| && s.threads[t].frame.PopCas?
    requires CasHits(s, s.threads[t].frame.top, s.threads[t].frame.id)
    requires s.threads[t].frame.nxt == Successor(s)
    ensures OwnerInv(Advance(s, t))
  {
    var s' := Advance(s, t);
    var p := s.threads[t].frame.top;
    ReservedMeansLinked(s, t);
    assert CellInv(s, 0) && InStack(s, p);
    assert forall a :: a != p ==> (InStack(s', a) <==> InStack(s, a)) by {
      forall i | 0 <= i < |s'.stack| ensures s'.stack[i] == s.stack[i + 1] {}
    }
    assert !InStack(s', p);
    assert Held(s'.threads[t].frame) == p;
    MovedNode(s, s', t, p);
  }

  lemma PopThread<T>(s: State<T>, t: nat)
    requires Inv(s) && t < |s.threads| && s.threads[t].frame.PopCas?
    requires CasHits(s, s.threads[t].frame.top, s.threads[t].frame.id)
    requires s.threads[t].frame.nxt == Successor(s)
    ensures FrameInv(Advance(s, t), t) && CallsInv(Advance(s, t), t)
  {
    var s' := Advance(s, t);
    assert FrameInv(s, t) && CallsInv(s, t);
    ReservedMeansLinked(s, t);
    assert CellInv(s, 0);
    assert s'.ops[..|s'.ops| - 1] == s.ops;
    AllByOthers(s.ops, s.threads[t].hist.start, t);
  }

  lemma PopCasStep<T>(s: State<T>, t: nat)
    requires Inv(s) && t < |s.threads| && s.threads[t].frame.PopCas?
    requires CasHits(s, s.threads[t].frame.top, s.threads[t].frame.id)
    requires s.threads[t].frame.nxt == Successor(s)
    ensures Inv(Advance(s, t))
  {
    var s' := Advance(s, t);
    ReservedMeansLinked(s, t);
    PopChain(s, t);
    PopOwners(s, t);
    TallyAll(s, t, s'.threads[t]);
    PopThread(s, t);
    ThreadsAfterCas(s, s', t);
  }

  /** Every transition within the integer widths keeps the invariant. */
  lemma StepInv<T>(s: State<T>, l: Label<T>)
    requires Inv(s) && WithinWidths(s, l)
    ensures Inv(Exec(s, l))
  {
    match l {
      case CallPush(_, _) => CallStep(s, l);
      case CallPop(_) => CallStep(s, l);
      case Alloc(t, a) =>
        if t < |s.threads| && s.threads[t].frame.PushAlloc? && a != NULL && a !in s.owned { AllocStep(s, t, a); }
      case PoolWrite(a, nxt, d) =>
        if a != NULL && a !in s.owned { PoolStep(s, a, nxt, d); }
      case Step(t) =>
        if t < |s.threads| { AdvanceInv(s, t); }
    }
  }

  lemma AdvanceInv<T>(s: State<T>, t: nat)
    requires Inv(s) && t < |s.threads| && WithinWidths(s, Step(t))
    ensures Inv(Advance(s, t))
  {
    var f := s.threads[t].frame;
    if f.PushCount? || f.PopReserve? || f.PopRestore? {
      CountStep(s, t);
    } else if f.PopFree? {
      FreeStep(s, t);
    } else if f.PopReadData? {
      PopData(s, t);
    } else if f.Idle? || f.PushAlloc? || f.Crashed? {
    } else if f.PushCas? && !Local(s, t) {
      PushCasStep(s, t);
    } else if f.PopCas? && !Local(s, t) {
      NoABA(s, t);
      PopCasStep(s, t);
    } else if KindOf(f) == Reserved {
      PopLocal(s, t);
    } else {
      PushLocal(s, t);
    }
  }

  lemma {:induction false} RunInv<T>(s: State<T>, ls: seq<Label<T>>)
    requires Inv(s) && RunWithinWidths(s, ls)
    ensures Inv(Run(s, ls))
    decreases |ls|
  {
    if ls != [] {
      StepInv(s, ls[0]);
      RunInv(Exec(s, ls[0]), ls[1..]);
    }
  }
}
