/** What the invariant means for whole runs of Push and Pop by any number of threads. */
module StackTheorems {
  import opened Common
  import opened StackMachine
  import opened StackInvariant
  import opened Tallies
  import opened StackSteps

  /** The k-th node from the head, found by following _Next in memory. */
  function Follow<T>(s: State<T>, k: nat): Addr {
    if k == 0 then s.top else NextOf(s, Follow(s, k - 1))
  }

  /** Memory holds a finite, acyclic list whose nodes and values are the abstract stack's. */
  lemma {:induction false} ListInMemory<T>(s: State<T>, k: nat)
    requires Inv(s) && k <= |s.stack|
    ensures k < |s.stack| ==> Follow(s, k) == s.stack[k].addr && Follow(s, k) in s.data
    ensures k < |s.stack| ==> s.data[Follow(s, k)] == s.stack[k].value && Follow(s, k) != NULL
    ensures k == |s.stack| ==> Follow(s, k) == NULL
    ensures forall j :: 0 <= j < k < |s.stack| ==> Follow(s, j) != Follow(s, k)
  {
    if k > 0 {
      ListInMemory(s, k - 1);
      assert CellInv(s, k - 1);
      forall j | 0 <= j < k < |s.stack| ensures Follow(s, j) != Follow(s, k) { ListInMemory(s, j); }
    }
    if k < |s.stack| { assert CellInv(s, k); }
  }

  /** What a transition does to the abstract stack, seen from outside. */
  ghost predicate Refines<T>(s: State<T>, l: Label<T>, s': State<T>) {
    || (s'.ops == s.ops && Values(s'.stack) == Values(s.stack))
    || (&& l.Step? && l.t < |s.threads| && s.threads[l.t].frame.PushCas?
        && var v := s.threads[l.t].frame.d;
           |s'.threads| == |s.threads| && s'.ops == s.ops + [Pushed(l.t, v)]
           && Values(s'.stack) == [v] + Values(s.stack)
           && s'.threads[l.t].frame.PushCount?)
    || (&& l.Step? && l.t < |s.threads| && s.threads[l.t].frame.PopCas? && s.stack != []
        && var v := Values(s.stack)[0];
           s'.ops == s.ops + [Popped(l.t, v)] && Values(s'.stack) == Values(s.stack)[1..]
           && |s'.threads| == |s.threads| && s'.threads[l.t].frame.PopReadData?
           && s'.threads[l.t].frame.top in s'.data && s'.data[s'.threads[l.t].frame.top] == v)
  }

  lemma PushRefines<T>(s: State<T>, t: nat)
    requires Inv(s) && t < |s.threads| && s.threads[t].frame.PushCas? && !Local(s, t)
    ensures Refines(s, Step(t), Exec(s, Step(t)))
  {
    assert Values(Exec(s, Step(t)).stack) == [s.threads[t].frame.d] + Values(s.stack);
  }

  lemma PopRefines<T>(s: State<T>, t: nat)
    requires Inv(s) && t < |s.threads| && s.threads[t].frame.PopCas? && !Local(s, t) && WithinWidths(s, Step(t))
    ensures Refines(s, Step(t), Exec(s, Step(t)))
  {
    NoABA(s, t);
    assert CellInv(s, 0);
    assert Values(Exec(s, Step(t)).stack) == Values(s.stack)[1..];
  }

  lemma NoEffect<T>(s: State<T>, l: Label<T>)
    requires l.Step? && l.t < |s.threads| && !Local(s, l.t) ==>
      !s.threads[l.t].frame.PushCas? && !s.threads[l.t].frame.PopCas?
    ensures Exec(s, l).ops == s.ops && Exec(s, l).stack == s.stack
  {
  }

  /** Push takes effect at its successful CAS, Pop at its own, and nothing else is visible. */
  lemma StepRefines<T>(s: State<T>, l: Label<T>)
    requires Inv(s) && WithinWidths(s, l)
    ensures Refines(s, l, Exec(s, l))
  {
    if l.Step? && l.t < |s.threads| && !Local(s, l.t) && s.threads[l.t].frame.PushCas? {
      PushRefines(s, l.t);
    } else if l.Step? && l.t < |s.threads| && !Local(s, l.t) && s.threads[l.t].frame.PopCas? {
      PopRefines(s, l.t);
    } else {
      NoEffect(s, l);
    }
  }

  /** Every run is a LIFO history of its CASs, and each thread's calls match its operations. */
  lemma RunsAreLifo<T>(n: nat, ls: seq<Label<T>>)
    requires n <= HALF32 && RunWithinWidths(Init<T>(n), ls)
    ensures var s := Run(Init<T>(n), ls);
      && Replay(s.ops) == Some(Values(s.stack))
      && forall t :: 0 <= t < |s.threads| ==>
           && s.threads[t].hist.got <= PopsBy(s.ops, t)
           && PushesBy(s.ops, t) <= s.threads[t].hist.asked
           && (s.threads[t].frame.Idle? ==>
                 PopsBy(s.ops, t) == s.threads[t].hist.got && PushesBy(s.ops, t) == s.threads[t].hist.asked)
  {
    InitInv<T>(n);
    RunInv(Init<T>(n), ls);
    var s := Run(Init<T>(n), ls);
    forall t | 0 <= t < |s.threads|
      ensures s.threads[t].hist.got <= PopsBy(s.ops, t) && PushesBy(s.ops, t) <= s.threads[t].hist.asked
      ensures s.threads[t].frame.Idle? ==>
        PopsBy(s.ops, t) == s.threads[t].hist.got && PushesBy(s.ops, t) == s.threads[t].hist.asked
    {
      assert CallsInv(s, t);
    }
  }

  /** No reachable thread dereferences null, reads an unwritten node or frees a node twice. */
  lemma NeverCrashes<T>(n: nat, ls: seq<Label<T>>, t: nat)
    requires n <= HALF32 && RunWithinWidths(Init<T>(n), ls)
    requires t < |Run(Init<T>(n), ls).threads|
    ensures !Run(Init<T>(n), ls).threads[t].frame.Crashed?
  {
    InitInv<T>(n);
    RunInv(Init<T>(n), ls);
    assert FrameInv(Run(Init<T>(n), ls), t);
  }

  /** A node outside the pool is linked or held, never both, and by one thread only. */
  lemma ExclusiveOwnership<T>(s: State<T>, a: Addr)
    requires Inv(s)
    ensures a in s.owned <==> a != NULL && (InStack(s, a) || HeldBySome(s, a))
    ensures a != NULL ==> !(InStack(s, a) && HeldBySome(s, a))
    ensures forall t, u | 0 <= t < u < |s.threads| && a != NULL ::
              !(Held(s.threads[t].frame) == a && Held(s.threads[u].frame) == a)
    ensures forall i, j | 0 <= i < j < |s.stack| :: !(s.stack[i].addr == a && s.stack[j].addr == a)
  {
    if InStack(s, a) {
      var i :| 0 <= i < |s.stack| && s.stack[i].addr == a;
      assert CellInv(s, i);
    }
  }

  lemma WritesOwnNode<T>(s: State<T>, t: nat, a: Addr)
    requires t < |s.threads| && Held(s.threads[t].frame) != a
    ensures NextOf(Advance(s, t), a) == NextOf(s, a)
    ensures a in s.data ==> a in Advance(s, t).data && Advance(s, t).data[a] == s.data[a]
  {
  }

  /** While a node stays linked its _Next and its data never change. */
  lemma LinkedNodesAreStable<T>(s: State<T>, l: Label<T>, a: Addr)
    requires Inv(s) && WithinWidths(s, l) && InStack(s, a) && InStack(Exec(s, l), a)
    ensures NextOf(Exec(s, l), a) == NextOf(s, a)
    ensures a in s.data && a in Exec(s, l).data && Exec(s, l).data[a] == s.data[a]
  {
    var i :| 0 <= i < |s.stack| && s.stack[i].addr == a;
    assert CellInv(s, i);
    if l.Step? && l.t < |s.threads| {
      assert Held(s.threads[l.t].frame) != a;
      WritesOwnNode(s, l.t, a);
    }
  }

  /** The account of m_Count, and the guarantee it buys. */
  lemma CountGate<T>(s: State<T>)
    requires Inv(s)
    ensures s.count + Tally(s.threads, Failing) ==
      |s.stack| - Tally(s.threads, Uncounted) - Tally(s.threads, Reserved) >= 0
    ensures forall t :: 0 <= t < |s.threads| && KindOf(s.threads[t].frame) == Reserved ==> s.top != NULL
    ensures (forall t :: 0 <= t < |s.threads| ==> KindOf(s.threads[t].frame) == Neutral) ==> s.count == |s.stack|
  {
    forall t | 0 <= t < |s.threads| && KindOf(s.threads[t].frame) == Reserved ensures s.top != NULL {
      ReservedMeansLinked(s, t);
    }
    if forall t :: 0 <= t < |s.threads| ==> KindOf(s.threads[t].frame) == Neutral { NoneTallied(s.threads); }
  }

  /** Pop refuses exactly when every linked node is spoken for; alone, exactly when the list is empty. */
  lemma WeakEmptiness<T>(s: State<T>, t: nat)
    requires Inv(s) && t < |s.threads| && s.threads[t].frame.PopReserve?
    ensures Exec(s, Step(t)).threads[t].frame.PopRestore? <==>
      |s.stack| <= Tally(s.threads, Uncounted) + Tally(s.threads, Reserved) + Tally(s.threads, Failing)
    ensures !Exec(s, Step(t)).threads[t].frame.PopRestore? ==> Exec(s, Step(t)).threads[t].frame.PopReadTop?
    ensures (forall u :: 0 <= u < |s.threads| ==> KindOf(s.threads[u].frame) == Neutral) ==>
      (Exec(s, Step(t)).threads[t].frame.PopRestore? <==> s.top == NULL)
  {
    CountAccount(s, t);
    if forall u :: 0 <= u < |s.threads| ==> KindOf(s.threads[u].frame) == Neutral { NoneTallied(s.threads); }
    if s.stack != [] { assert CellInv(s, 0); }
  }

  /** From the read of _ID to the end of the call. */
  predicate InCasLoop<T>(f: Frame<T>) {
    || f.PushReadId? || f.PushLink? || f.PushCas? || f.PushCount?
    || f.PopReadId? || f.PopReadNext? || f.PopCas? || f.PopReadData? || f.PopFree?
  }

  /**
   * What the histories record of an access: a read of _TopPtr starts the count of failures and
   * notes how many CASs had succeeded, a failed CAS adds one failure, a read of _ID, a failed
   * CAS's reload included, notes the same for the ID, and nothing else is touched.
   */
  lemma AttemptsAreCounted<T>(s: State<T>, t: nat)
    requires t < |s.threads|
    ensures var (f, h) := (s.threads[t].frame, s.threads[t].hist);
      var failed := (f.PushCas? || f.PopCas?) && !CasHits(s, f.top, f.id);
      && t < |Advance(s, t).threads|
      && var h' := Advance(s, t).threads[t].hist;
         && h'.start == (if f.PushReadTop? || f.PopReadTop? then |s.ops| else h.start)
         && h'.fails == (if f.PushReadTop? || f.PopReadTop? then 0 else if failed then h.fails + 1 else h.fails)
         && h'.ver == (if f.PushReadId? || f.PopReadId? || failed then |s.ops| else h.ver)
  {
    match s.threads[t].frame
    case PushCas(_, _, _, _) =>
    case PopCas(_, _, _) =>
    case _ =>
  }

  /** And of a call: its argument when it begins, what it hands out, and that it was refused. */
  lemma CallsAreRecorded<T>(s: State<T>, t: nat, d: T)
    requires t < |s.threads|
    ensures s.threads[t].frame.Idle? ==>
      Exec(s, CallPush(t, d)).threads[t].hist == s.threads[t].hist.(asked := s.threads[t].hist.asked + [d])
      && Exec(s, CallPop(t)).threads[t].hist == s.threads[t].hist
    ensures t < |Advance(s, t).threads|
    ensures var (f, h) := (s.threads[t].frame, s.threads[t].hist);
      var h' := Advance(s, t).threads[t].hist;
      && h'.asked == h.asked && h'.refused == h.refused + (if f.PopRestore? then 1 else 0)
      && h'.got == h.got + if f.PopReadData? && f.top in s.data then [s.data[f.top]] else []
  {
    match s.threads[t].frame
    case PushCas(_, _, _, _) =>
    case PopCas(_, _, _) =>
    case _ =>
  }

  /** The environment: the pool hands out any node that is in nobody's hands, and writes to its own. */
  lemma PoolIsArbitrary<T>(s: State<T>, t: nat, a: Addr, nxt: Addr, d: T)
    requires a != NULL && a !in s.owned
    ensures t < |s.threads| && s.threads[t].frame.PushAlloc? ==>
      Exec(s, Alloc(t, a)).threads[t].frame == PushData(s.threads[t].frame.d, a) && a in Exec(s, Alloc(t, a)).owned
    ensures Exec(s, PoolWrite(a, nxt, d)) == s.(next := s.next[a := nxt], data := s.data[a := d])
  {
  }

  /** CasByOthers counts the operations of others from `start` on. */
  lemma {:induction false} CasByOthersIs<T>(ops: seq<Op<T>>, start: nat, t: nat)
    ensures CasByOthers(ops, start, t) == |set i | start <= i < |ops| && ops[i].who != t|
  {
    var others := set i | start <= i < |ops| && ops[i].who != t;
    if |ops| <= start {
      assert others == {};
    } else {
      var n := |ops| - 1;
      CasByOthersIs(ops[..n], start, t);
      var before := set i | start <= i < n && ops[..n][i].who != t;
      assert others == before + if ops[n].who != t then {n} else {};
    }
  }

  /** A call fails at most as many CASs as other threads complete since it read _TopPtr. */
  lemma ProgressBound<T>(s: State<T>, t: nat)
    requires Inv(s) && t < |s.threads|
    requires InCasLoop(s.threads[t].frame)
    ensures s.threads[t].hist.fails <= CasByOthers(s.ops, s.threads[t].hist.start, t)
    ensures CasByOthers(s.ops, s.threads[t].hist.start, t) ==
      |set i | s.threads[t].hist.start <= i < |s.ops| && s.ops[i].who != t|
  {
    CasByOthersIs(s.ops, s.threads[t].hist.start, t);
    assert FrameInv(s, t);
    if InLoop(s, t, s.threads[t].hist) { AllByOthers(s.ops, s.threads[t].hist.start, t); }
  }

  /**
   * A CAS with nobody's success since its snapshot succeeds, but for a first attempt that had one
   * between its torn reads: only another thread's CAS can fail it.
   */
  lemma UndisturbedCasSucceeds<T>(s: State<T>, t: nat)
    requires Inv(s) && t < |s.threads| && (s.threads[t].frame.PushCas? || s.threads[t].frame.PopCas?)
    requires s.threads[t].hist.ver == |s.ops|
    requires s.threads[t].hist.fails > 0 || s.threads[t].hist.start == s.threads[t].hist.ver
    ensures CasHits(s, s.threads[t].frame.top, s.threads[t].frame.id)
  {
    assert FrameInv(s, t);
  }

  /**
   * A Pop's CAS on the head's pointer succeeds exactly when its snapshot is a multiple of
   * 2^64 successful CASs old; within the window that means it is not stale at all.
   */
  lemma CasHitsExactly<T>(s: State<T>, t: nat)
    requires Inv(s) && t < |s.threads| && s.threads[t].frame.PopCas? && s.threads[t].frame.top == s.top
    ensures CasHits(s, s.threads[t].frame.top, s.threads[t].frame.id) <==>
      (|s.ops| - s.threads[t].hist.ver) % MOD64 == 0
    ensures WithinWidths(s, Step(t)) ==>
      (CasHits(s, s.threads[t].frame.top, s.threads[t].frame.id) <==> s.threads[t].hist.ver == |s.ops|)
  {
    assert FrameInv(s, t);
    IdWraps(s.threads[t].hist.ver, |s.ops|);
  }

  /**
   * A Pop's successful CAS, at whatever age of its snapshot, keeps the invariant exactly when
   * the _Next it read is still the successor of the node on top.
   */
  lemma ListSurvivesExactly<T>(s: State<T>, t: nat)
    requires Inv(s) && t < |s.threads| && s.threads[t].frame.PopCas?
    requires CasHits(s, s.threads[t].frame.top, s.threads[t].frame.id)
    ensures Inv(Advance(s, t)) <==> s.threads[t].frame.nxt == Successor(s)
  {
    ReservedMeansLinked(s, t);
    var s' := Advance(s, t);
    if s.threads[t].frame.nxt == Successor(s) {
      PopCasStep(s, t);
    } else {
      assert s'.stack == s.stack[1..] && s'.top == s.threads[t].frame.nxt;
      assert !HeadInv(s');
    }
  }

  function CountPushed<T>(ops: seq<Op<T>>): nat {
    if ops == [] then 0 else CountPushed(ops[..|ops| - 1]) + if ops[|ops| - 1].Pushed? then 1 else 0
  }

  lemma {:induction false} ReplayLength<T>(ops: seq<Op<T>>)
    requires Replay(ops).Some?
    ensures |Replay(ops).value| == CountPushed(ops) - (|ops| - CountPushed(ops))
  {
    if ops != [] { ReplayLength(ops[..|ops| - 1]); }
  }

  /** Length is pushes minus pops, and _ID + 1 is their sum modulo 2^64. */
  lemma LengthAndId<T>(s: State<T>)
    requires Inv(s)
    ensures |s.stack| == CountPushed(s.ops) - (|s.ops| - CountPushed(s.ops))
    ensures (s.id + 1 - |s.ops|) % MOD64 == 0 && -HALF64 <= s.id < HALF64
    ensures |s.ops| <= HALF64 ==> s.id + 1 == |s.ops|
  {
    ReplayLength(s.ops);
  }
}
