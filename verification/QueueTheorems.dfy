/** What the invariant means for whole runs of EnQ and DeQ by any number of threads. */
module QueueTheorems {
  import opened Common
  import opened Tallies
  import opened QueueMachine
  import opened QueueInvariant
  import opened QueueSteps

  // ----- A FIFO queue -----

  /** What a transition does to the abstract queue, seen from outside. */
  ghost predicate Refines<T>(s: State<T>, l: Label<T>, s': State<T>)
    requires s.head < |s.chain| && s'.head < |s'.chain|
  {
    || (s'.ops == s.ops && Contents(s') == Contents(s))
    || (&& l.Step? && Links(s, l.t)
        && var v := s.threads[l.t].frame.d;
           s'.ops == s.ops + [Enqueued(l.t, v)] && Contents(s') == Contents(s) + [v])
    || (&& l.Step? && Takes(s, l.t) && Contents(s) != []
        && var v := Contents(s)[0];
           s'.ops == s.ops + [Dequeued(l.t, v)] && Contents(s') == Contents(s)[1..]
           && |s'.threads| == |s.threads| && s'.threads[l.t].frame.DeqFree? && s'.threads[l.t].frame.value == v)
  }

  lemma NoEffectEnq<T>(s: State<T>, t: nat)
    requires t < |s.threads| && !Links(s, t)
    ensures var s' := AdvanceEnq(s, t); s'.chain == s.chain && s'.head == s.head && s'.ops == s.ops
  {
  }

  lemma NoEffectDeq<T>(s: State<T>, t: nat)
    requires t < |s.threads| && !Takes(s, t)
    ensures var s' := AdvanceDeq(s, t); s'.chain == s.chain && s'.head == s.head && s'.ops == s.ops
  {
  }

  lemma NoEffect<T>(s: State<T>, l: Label<T>)
    requires !(l.Step? && (Links(s, l.t) || Takes(s, l.t)))
    ensures Exec(s, l).chain == s.chain && Exec(s, l).head == s.head && Exec(s, l).ops == s.ops
  {
    hide AdvanceEnq, AdvanceDeq;
    if l.Step? && l.t < |s.threads| {
      NoEffectEnq(s, l.t);
      NoEffectDeq(s, l.t);
    }
  }

  lemma EndsShape<T>(s: State<T>)
    requires EndsInv(s)
    ensures s.head <= s.back < |s.chain|
  {
  }

  lemma LinkRefines<T>(s: State<T>, t: nat)
    requires Inv(s) && Links(s, t) && WithinWidths(s, Step(t))
    ensures Exec(s, Step(t)).head < |Exec(s, Step(t)).chain| && Refines(s, Step(t), Exec(s, Step(t)))
  {
    hide EndsInv, ChainInv, MarksInv, MemoryInv, OwnerInv, LagInv, CountInv, OpsInv, ThreadsInv, CallsInv, FrameInv;
    Parts(s, t);
    hide Inv, Advance;
    EndsShape(s);
    LinkShape(s, t);
    LinkOps(s, t);
  }

  lemma TakeRefines<T>(s: State<T>, t: nat)
    requires Inv(s) && Takes(s, t) && WithinWidths(s, Step(t))
    ensures Exec(s, Step(t)).head < |Exec(s, Step(t)).chain| && Refines(s, Step(t), Exec(s, Step(t)))
  {
    hide EndsInv, ChainInv, MarksInv, MemoryInv, OwnerInv, LagInv, CountInv, OpsInv, ThreadsInv, CallsInv, FrameInv;
    Parts(s, t);
    hide Inv, Advance;
    EndsShape(s);
    TakesTheOldest(s, t);
    TakeShape(s, t);
    TakeOps(s, Advance(s, t), t);
  }

  /** EnQ takes effect at the CAS that links its node, DeQ at its CAS on the front. */
  lemma StepRefines<T>(s: State<T>, l: Label<T>)
    requires Inv(s) && WithinWidths(s, l)
    ensures s.head < |s.chain| && Exec(s, l).head < |Exec(s, l).chain| && Refines(s, l, Exec(s, l))
  {
    if l.Step? && Links(s, l.t) {
      LinkRefines(s, l.t);
    } else if l.Step? && Takes(s, l.t) {
      TakeRefines(s, l.t);
    } else {
      NoEffect(s, l);
    }
  }

  function Entered<T>(ops: seq<Op<T>>): seq<T> {
    if ops == [] then [] else
      var e := ops[|ops| - 1];
      Entered(ops[..|ops| - 1]) + if e.Enqueued? then [e.value] else []
  }

  function Left<T>(ops: seq<Op<T>>): seq<T> {
    if ops == [] then [] else
      var e := ops[|ops| - 1];
      Left(ops[..|ops| - 1]) + if e.Dequeued? then [e.value] else []
  }

  /** First in, first out: what left, followed by what is left, is what entered, in order. */
  lemma {:induction false} ReplayIsFifo<T>(ops: seq<Op<T>>)
    requires Replay(ops).Some?
    ensures Entered(ops) == Left(ops) + Replay(ops).value
  {
    if ops != [] {
      var init := ops[..|ops| - 1];
      ReplayIsFifo(init);
      var q := Replay(init).value;
      match ops[|ops| - 1]
      case Enqueued(_, v) => assert Left(init) + [] == Left(init);
      case Dequeued(_, v) => assert Left(init) + q == Left(init) + [v] + q[1..];
    }
  }

  lemma OpsAreReplayed<T>(s: State<T>)
    requires Inv(s)
    ensures s.head < |s.chain| && Replay(s.ops) == Some(Contents(s))
  {
  }

  lemma CallsMatch<T>(s: State<T>, t: nat)
    requires t < |s.threads| && CallsInv(s, t)
    ensures s.threads[t].hist.got <= DeqsBy(s.ops, t)
    ensures s.threads[t].frame.Idle? ==>
      DeqsBy(s.ops, t) == s.threads[t].hist.got && EnqsBy(s.ops, t) == s.threads[t].hist.asked
  {
  }

  /** Every run is a FIFO history of its CASs, and each thread's calls match its operations. */
  lemma RunsAreFifo<T>(n: nat, maxCount: int, dummy: Addr, zero: T, ls: seq<Label<T>>)
    requires n <= HALF32 && IsNode(dummy) && RunWithinWidths(Init(n, maxCount, dummy, zero), ls)
    ensures var s := Run(Init(n, maxCount, dummy, zero), ls);
      && s.head < |s.chain| && Replay(s.ops) == Some(Contents(s)) && Entered(s.ops) == Left(s.ops) + Contents(s)
      && forall t :: 0 <= t < |s.threads| ==>
           && s.threads[t].hist.got <= DeqsBy(s.ops, t)
           && (s.threads[t].frame.Idle? ==>
                 DeqsBy(s.ops, t) == s.threads[t].hist.got && EnqsBy(s.ops, t) == s.threads[t].hist.asked)
  {
    InitInv(n, maxCount, dummy, zero);
    RunInv(Init(n, maxCount, dummy, zero), ls);
    var s := Run(Init(n, maxCount, dummy, zero), ls);
    OpsAreReplayed(s);
    hide Inv;
    ReplayIsFifo(s.ops);
    forall t | 0 <= t < |s.threads|
      ensures s.threads[t].hist.got <= DeqsBy(s.ops, t)
      ensures s.threads[t].frame.Idle? ==>
        DeqsBy(s.ops, t) == s.threads[t].hist.got && EnqsBy(s.ops, t) == s.threads[t].hist.asked
    {
      Parts(s, t);
      CallsMatch(s, t);
    }
  }


  // ----- Safety -----

  lemma NotCrashed<T>(s: State<T>, th: Thread<T>)
    requires FrameInv(s, th)
    ensures !th.frame.Crashed?
  {
  }

  /**
   * No reachable thread dereferences null or an unwritten node, frees a node twice, or finds its
   * own new node at the rear.
   */
  lemma NeverCrashes<T>(n: nat, maxCount: int, dummy: Addr, zero: T, ls: seq<Label<T>>, t: nat)
    requires n <= HALF32 && IsNode(dummy) && RunWithinWidths(Init(n, maxCount, dummy, zero), ls)
    requires t < |Run(Init(n, maxCount, dummy, zero), ls).threads|
    ensures !Run(Init(n, maxCount, dummy, zero), ls).threads[t].frame.Crashed?
  {
    hide EndsInv, ChainInv, MarksInv, MemoryInv, OwnerInv, LagInv, CountInv, OpsInv, ThreadsInv, CallsInv, FrameInv;
    InitInv(n, maxCount, dummy, zero);
    RunInv(Init(n, maxCount, dummy, zero), ls);
    var s := Run(Init(n, maxCount, dummy, zero), ls);
    Parts(s, t);
    NotCrashed(s, s.threads[t]);
  }

  /**
   * The front never passes the rear, however far the rear lags: its node is never in the pool.
   * The rear is at the last node or at the one before it.
   */
  lemma RearIsNeverFreed<T>(s: State<T>)
    requires Inv(s)
    ensures s.head <= s.back && |s.chain| - 2 <= s.back < |s.chain| && s.rear in s.owned && Live(s, s.rear)
    ensures s.back + 1 == |s.chain| || exists t :: 0 <= t < |s.threads| && Swinging(s, t)
  {
    EndsKnown(s);
    CellAt(s, s.back);
  }

  /** A node outside the pool is in the queue or held, never both, and by one thread only. */
  lemma ExclusiveOwnership<T>(s: State<T>, a: Addr)
    requires Inv(s)
    ensures a in s.owned <==> a != NULL && (Live(s, a) || HeldBySome(s, a))
    ensures a != NULL ==> !(Live(s, a) && HeldBySome(s, a))
    ensures forall t, u | 0 <= t < u < |s.threads| && a != NULL ::
              !(Held(s.threads[t].frame) == a && Held(s.threads[u].frame) == a)
  {
    if Live(s, a) {
      var i :| s.head <= i < |s.chain| && s.chain[i].addr == a;
      assert CellInv(s, i);
    }
  }

  /** The k-th node from the front, found by following _Next in memory. */
  function Follow<T>(s: State<T>, k: nat): int {
    if k == 0 then s.front
    else
      var a := Follow(s, k - 1);
      if a >= 0 && a in s.next then s.next[a] else NULL
  }

  /** Along the chain, and from the last node to its marker. */
  lemma {:induction false} FollowIs<T>(s: State<T>, k: nat)
    requires EndsInv(s) && ChainInv(s) && s.head + k <= |s.chain|
    ensures Follow(s, k) ==
      if s.head + k < |s.chain| then s.chain[s.head + k].addr else s.chain[|s.chain| - 1].mark
  {
    if k > 0 {
      FollowIs(s, k - 1);
      CellAt(s, s.head + k - 1);
    }
  }

  lemma NodeAt<T>(s: State<T>, i: nat)
    requires Inv(s) && s.head <= i < |s.chain|
    ensures 0 < s.chain[i].addr < KERNEL_ADDRESS && s.chain[i].addr in s.data
    ensures s.data[s.chain[i].addr] == s.chain[i].value
  {
    CellAt(s, i);
  }

  lemma LastMarker<T>(s: State<T>)
    requires Inv(s)
    ensures s.head < |s.chain| && s.chain[|s.chain| - 1].mark >= KERNEL_ADDRESS
  {
  }

  lemma FollowInv<T>(s: State<T>, k: nat)
    requires Inv(s) && s.head + k <= |s.chain|
    ensures |s.chain| > 0 && Follow(s, k) ==
      if s.head + k < |s.chain| then s.chain[s.head + k].addr else s.chain[|s.chain| - 1].mark
  {
    FollowIs(s, k);
  }

  lemma ContentsAt<T>(s: State<T>, k: nat)
    requires s.head < |s.chain| && s.head + k < |s.chain|
    ensures |Contents(s)| == |s.chain| - 1 - s.head
    ensures k > 0 ==> Contents(s)[k - 1] == s.chain[s.head + k].value
  {
  }

  /** Memory holds the dummy, then the queue's values in order, then an end marker. */
  lemma ListInMemory<T>(s: State<T>, k: nat)
    requires Inv(s) && s.head + k <= |s.chain|
    ensures k <= |Contents(s)| ==>
      0 < Follow(s, k) < KERNEL_ADDRESS && Follow(s, k) == s.chain[s.head + k].addr && Follow(s, k) in s.data
    ensures 0 < k <= |Contents(s)| ==> s.data[Follow(s, k)] == Contents(s)[k - 1]
    ensures k == |Contents(s)| + 1 ==> Follow(s, k) >= KERNEL_ADDRESS
  {
    hide Inv, Follow, Contents;
    LastMarker(s);
    FollowInv(s, k);
    ContentsAt(s, 0);
    if s.head + k < |s.chain| {
      NodeAt(s, s.head + k);
      ContentsAt(s, k);
    }
  }

  // ----- Calls and their environment -----

  /** What the histories record: arguments, results and refusals of calls. */
  lemma EnqIsRecorded<T>(s: State<T>, t: nat)
    requires t < |s.threads| && InEnq(s.threads[t].frame)
    ensures t < |Advance(s, t).threads|
    ensures var (h, h') := (s.threads[t].hist, Advance(s, t).threads[t].hist);
      h'.asked == h.asked && h'.got == h.got && h'.refused == h.refused
  {
  }

  lemma DeqIsRecorded<T>(s: State<T>, t: nat)
    requires t < |s.threads| && !InEnq(s.threads[t].frame)
    ensures t < |Advance(s, t).threads|
    ensures var (f, h) := (s.threads[t].frame, s.threads[t].hist);
      var h' := Advance(s, t).threads[t].hist;
      && h'.asked == h.asked && h'.refused == h.refused + (if f.DeqRestore? then 1 else 0)
      && h'.got == h.got + if f.DeqFree? && f.front in s.owned then [f.value] else []
  {
  }

  lemma CallsAreRecorded<T>(s: State<T>, t: nat, d: T)
    requires t < |s.threads| && s.threads[t].frame.Idle?
    ensures Exec(s, CallEnQ(t, d)).threads[t] ==
      Thread(EnqCheck(d), s.threads[t].hist.(asked := s.threads[t].hist.asked + [d]))
    ensures Exec(s, CallDeQ(t)).threads[t] == Thread(DeqReserve, s.threads[t].hist)
  {
  }

  /** EnQ gives up where the count exceeds the capacity, and only there. */
  lemma FullExactly<T>(s: State<T>, t: nat)
    requires t < |s.threads| && s.threads[t].frame.EnqCheck?
    ensures Exec(s, Step(t)).threads[t].frame == if s.maxCount < s.count then Full else EnqAlloc(s.threads[t].frame.d)
  {
  }

  /** The pool hands out any node that is in nobody's hands: a used one as it is, a new one with a null _Next. */
  lemma PoolIsArbitrary<T>(s: State<T>, t: nat, a: Addr)
    requires t < |s.threads| && s.threads[t].frame.EnqAlloc? && IsNode(a) && a !in s.owned
    ensures var s' := Exec(s, Alloc(t, a));
      && s'.threads[t].frame == EnqData(s.threads[t].frame.d, a) && s'.owned == s.owned + {a} && s'.data == s.data
      && a in s'.next && s'.next[a] == (if a in s.next then s.next[a] else NULL)
      && forall b :: b in s.next ==> b in s'.next && s'.next[b] == s.next[b]
  {
  }

  // ----- The count -----

  /** The account of m_Count, and what it buys: a granted DeQ finds the front behind the rear. */
  lemma CountGate<T>(s: State<T>)
    requires Inv(s)
    ensures s.head < |s.chain| && s.count + Tally(s, Failing) ==
      |Contents(s)| - Tally(s, Uncounted) - Tally(s, Reserved) >= 0
    ensures forall t :: 0 <= t < |s.threads| && KindOf(s.threads[t].frame) == Reserved ==> s.head < s.back
    ensures (forall t :: 0 <= t < |s.threads| ==> KindOf(s.threads[t].frame) == Neutral) ==> s.count == |Contents(s)|
  {
    forall t | 0 <= t < |s.threads| && KindOf(s.threads[t].frame) == Reserved ensures s.head < s.back {
      ReservedMeansBehind(s, t);
    }
    if forall t :: 0 <= t < |s.threads| ==> KindOf(s.threads[t].frame) == Neutral { CountNone(Kinds(s.threads)); }
  }

  /** DeQ refuses exactly when every value is spoken for; alone, exactly when the queue is empty. */
  lemma WeakEmptiness<T>(s: State<T>, t: nat)
    requires Inv(s) && t < |s.threads| && s.threads[t].frame.DeqReserve?
    ensures s.head < |s.chain|
    ensures Exec(s, Step(t)).threads[t].frame.DeqRestore? <==>
      |Contents(s)| <= Tally(s, Uncounted) + Tally(s, Reserved) + Tally(s, Failing)
    ensures !Exec(s, Step(t)).threads[t].frame.DeqRestore? ==> Exec(s, Step(t)).threads[t].frame.DeqReadFront?
    ensures (forall u :: 0 <= u < |s.threads| ==> KindOf(s.threads[u].frame) == Neutral) ==>
      (Exec(s, Step(t)).threads[t].frame.DeqRestore? <==> Contents(s) == [])
  {
    hide EndsInv, ChainInv, MarksInv, MemoryInv, OwnerInv, LagInv, CountInv, OpsInv, ThreadsInv, CallsInv, FrameInv;
    Parts(s, t);
    hide Inv;
    Refused(s, t);
    if forall u :: 0 <= u < |s.threads| ==> KindOf(s.threads[u].frame) == Neutral { CountNone(Kinds(s.threads)); }
  }

  lemma Refused<T>(s: State<T>, t: nat)
    requires CountInv(s) && t < |s.threads| && s.threads[t].frame.DeqReserve?
    ensures var f := Exec(s, Step(t)).threads[t].frame;
      && (f.DeqRestore? <==> |Contents(s)| <= Tally(s, Uncounted) + Tally(s, Reserved) + Tally(s, Failing))
      && (!f.DeqRestore? ==> f.DeqReadFront?)
  {
    CountAccount(s, t);
  }

  lemma DeqCasKnows<T>(s: State<T>, th: Thread<T>)
    requires th.frame.DeqCas? && FrameInv(s, th)
    ensures th.hist.ver <= s.head && th.frame.id == FrontIdOf(th.hist.ver)
  {
  }

  lemma FrontIdIs<T>(s: State<T>)
    requires EndsInv(s)
    ensures s.frontId == FrontIdOf(s.head)
  {
  }

  /**
   * A DeQ's CAS on the front's pointer succeeds exactly when its snapshot is a multiple of 2^64
   * successes old; EnQ's CASs need no such window, as markers are never drawn twice.
   */
  lemma FrontHitsExactly<T>(s: State<T>, t: nat)
    requires Inv(s) && t < |s.threads| && s.threads[t].frame.DeqCas? && s.threads[t].frame.front == s.front
    ensures FrontHits(s, s.threads[t].frame.front, s.threads[t].frame.id) <==>
      (s.head - s.threads[t].hist.ver) % MOD64 == 0
  {
    hide EndsInv, ChainInv, MarksInv, MemoryInv, OwnerInv, LagInv, CountInv, OpsInv, ThreadsInv, CallsInv, FrameInv;
    Parts(s, t);
    hide Inv;
    DeqCasKnows(s, s.threads[t]);
    FrontIdIs(s);
    CountWraps(0, s.threads[t].hist.ver, s.head);
  }

  // ----- Progress -----

  /** A known node whose _Next is a marker is the last of the queue or being enqueued. */
  lemma WhereMarkersAre<T>(s: State<T>, a: Addr)
    requires MemoryInv(s) && a in s.next && s.next[a] >= KERNEL_ADDRESS && |s.chain| > 0
    ensures a == s.chain[|s.chain| - 1].addr || exists u | 0 <= u < |s.threads| ::
      Ready(s.threads[u].frame) && s.threads[u].frame.node == a
  {
    assert NextInv(s, a);
    if a != s.chain[|s.chain| - 1].addr {
      var u :| 0 <= u < |s.threads| && ReadyThread(s.threads[u], a, s.next[a]);
    }
  }

  lemma FrontHasNext<T>(s: State<T>)
    requires EndsInv(s) && ChainInv(s) && s.head < s.back
    ensures s.front in s.next && s.next[s.front] < KERNEL_ADDRESS
  {
    CellAt(s, s.head);
    CellAt(s, s.head + 1);
  }

  /**
   * A DeQ inside its loop sees an end marker only where its node has been recycled: the node is
   * the last of the queue, or being enqueued, and the front is not what DeQ read.
   */
  lemma EndMeansRecycled<T>(s: State<T>, t: nat)
    requires Inv(s) && t < |s.threads| && s.threads[t].frame.DeqReadNext?
    ensures s.threads[t].frame.front in s.next && |s.chain| > 0
    ensures var a := s.threads[t].frame.front;
      s.next[a] >= KERNEL_ADDRESS ==>
        && a != s.front
        && (a == s.chain[|s.chain| - 1].addr || exists u | 0 <= u < |s.threads| ::
              Ready(s.threads[u].frame) && s.threads[u].frame.node == a)
  {
    hide EndsInv, ChainInv, MarksInv, MemoryInv, OwnerInv, LagInv, CountInv, OpsInv, ThreadsInv, CallsInv, FrameInv;
    Parts(s, t);
    hide Inv;
    var a := s.threads[t].frame.front;
    ReadNextKnown(s, s.threads[t]);
    EndsShape(s);
    ReservedMeansBehind(s, t);
    FrontHasNext(s);
    if s.next[a] >= KERNEL_ADDRESS { WhereMarkersAre(s, a); }
  }

  lemma ReadNextKnown<T>(s: State<T>, th: Thread<T>)
    requires th.frame.DeqReadNext? && FrameInv(s, th)
    ensures Known(s, th.frame.front)
  {
  }

  /** DeQ does not reread the front then: alone, it stays where it is exactly in that case. */
  lemma SpinsExactly<T>(s: State<T>, t: nat)
    requires Inv(s) && t < |s.threads| && s.threads[t].frame.DeqReadNext?
    ensures s.threads[t].frame.front in s.next
    ensures Exec(s, Step(t)) == s <==> s.next[s.threads[t].frame.front] >= KERNEL_ADDRESS
  {
    hide EndsInv, ChainInv, MarksInv, MemoryInv, OwnerInv, LagInv, CountInv, OpsInv, ThreadsInv, CallsInv, FrameInv;
    Parts(s, t);
    hide Inv;
    ReadNextKnown(s, s.threads[t]);
    NextOfKnown(s, s.threads[t].frame.front);
    assert s.next[s.threads[t].frame.front] < KERNEL_ADDRESS ==> Exec(s, Step(t)).threads[t].frame.DeqReadData?;
  }
}
