/** Every transition of QueueMachine keeps the invariant. */
module QueueSteps {
  import opened Common
  import opened Tallies
  import opened QueueMachine
  import opened QueueInvariant

  // ----- What a transition of one thread leaves alone -----

  /** Only thread t moved. */
  ghost predicate Moved<T>(s: State<T>, s': State<T>, t: nat) {
    t < |s.threads| == |s'.threads| && s'.threads == s.threads[t := s'.threads[t]]
  }

  lemma TallyMoved<T>(s: State<T>, s': State<T>, t: nat)
    requires Moved(s, s', t)
    ensures forall k :: (Tally(s', k) == Tally(s, k)
      - (if KindOf(s.threads[t].frame) == k then 1 else 0) + (if KindOf(s'.threads[t].frame) == k then 1 else 0))
  {
    assert Kinds(s'.threads) == Kinds(s.threads)[t := KindOf(s'.threads[t].frame)];
    forall k
      ensures Tally(s', k) == Tally(s, k)
        - (if KindOf(s.threads[t].frame) == k then 1 else 0) + (if KindOf(s'.threads[t].frame) == k then 1 else 0)
    {
      CountUpdate(Kinds(s.threads), t, KindOf(s'.threads[t].frame), k);
    }
  }

  /** Chain, front and rear only move forward, and known nodes stay known. */
  ghost predicate Grows<T>(s: State<T>, s': State<T>) {
    && |s.chain| <= |s'.chain| && (forall i :: 0 <= i < |s.chain| ==> s'.chain[i] == s.chain[i])
    && s.head <= s'.head && s.back <= s'.back < |s'.chain| && s.back < |s.chain| && s.head < |s.chain|
    && (forall a :: Known(s, a) ==> Known(s', a))
  }

  /** The memory of a node is as it was. */
  ghost predicate SameNode<T>(s: State<T>, s': State<T>, n: Addr) {
    && (n in s.next ==> n in s'.next && s'.next[n] == s.next[n])
    && (n in s.data ==> n in s'.data && s'.data[n] == s.data[n])
  }

  lemma HelpKept<T>(s: State<T>, s': State<T>, th: Thread<T>, rear: Addr, id: int, nxt: Addr)
    requires Grows(s, s') && RearSeen(s, th, rear, id) && HelpSeen(s, th, rear, nxt)
    ensures RearSeen(s', th, rear, id) && HelpSeen(s', th, rear, nxt)
    ensures th.hist.seen == s'.back && rear == s'.chain[s'.back].addr ==>
      s'.back == s.back && rear == s.chain[s.back].addr && s'.chain[s'.back + 1] == s.chain[s.back + 1]
  {
  }

  lemma LinkKept<T>(s: State<T>, s': State<T>, th: Thread<T>, node: Addr, rear: Addr, id: int)
    requires Grows(s, s') && LinkedAt(s, th, node, rear, id)
    ensures LinkedAt(s', th, node, rear, id) && s'.chain[th.hist.pos] == s.chain[th.hist.pos]
    ensures s'.back == th.hist.pos - 1 ==> s.back == th.hist.pos - 1
  {
    assert s'.chain[th.hist.pos - 1] == s.chain[th.hist.pos - 1];
  }

  lemma NextKept<T>(s: State<T>, s': State<T>, th: Thread<T>, front: Addr, id: int, nxt: Addr)
    requires Grows(s, s') && FrontSeen(s, th, front, id) && NextSeen(s, th, front, nxt) && s.head < |s.chain|
    ensures FrontSeen(s', th, front, id) && NextSeen(s', th, front, nxt)
    ensures th.hist.ver == s'.head < |s'.chain| && front == s'.chain[s'.head].addr ==>
      s'.head == s.head && front == s.chain[s.head].addr && s'.chain[s'.head + 1] == s.chain[s.head + 1]
  {
    if th.hist.ver == s'.head { assert s'.head == s.head && s'.chain[s.head] == s.chain[s.head]; }
  }

  lemma EnqFrameKept<T>(s: State<T>, s': State<T>, th: Thread<T>)
    requires FrameInv(s, th) && Grows(s, s') && InEnq(th.frame)
    requires Building(th.frame) ==> SameNode(s, s', th.frame.node)
    ensures FrameInv(s', th)
  {
    match th.frame {
      case EnqHelpMark(_, _, rear, id, nxt) => HelpKept(s, s', th, rear, id, nxt);
      case EnqHelp(_, _, rear, id, nxt, newId) => HelpKept(s, s', th, rear, id, nxt);
      case EnqReadMark(node, rear, id) => LinkKept(s, s', th, node, rear, id);
      case EnqSwing(node, rear, id, newId) => LinkKept(s, s', th, node, rear, id);
      case _ =>
    }
  }

  lemma DeqFrameKept<T>(s: State<T>, s': State<T>, th: Thread<T>)
    requires FrameInv(s, th) && Grows(s, s') && !InEnq(th.frame)
    ensures FrameInv(s', th)
  {
    match th.frame {
      case DeqReadData(front, id, nxt) => NextKept(s, s', th, front, id, nxt);
      case DeqCas(front, id, nxt, value) => NextKept(s, s', th, front, id, nxt);
      case _ =>
    }
  }

  lemma FrameKept<T>(s: State<T>, s': State<T>, th: Thread<T>)
    requires FrameInv(s, th) && Grows(s, s')
    requires Building(th.frame) ==> SameNode(s, s', th.frame.node)
    ensures FrameInv(s', th)
  {
    hide FrameInv;
    if InEnq(th.frame) { EnqFrameKept(s, s', th); } else { DeqFrameKept(s, s', th); }
  }

  /** The operations of everyone but t are as they were. */
  ghost predicate OpsBy<T>(s: State<T>, s': State<T>, t: nat) {
    s'.ops == s.ops || (|s'.ops| == |s.ops| + 1 && s'.ops[..|s.ops|] == s.ops && s'.ops[|s.ops|].who == t)
  }

  lemma CallsKept<T>(s: State<T>, s': State<T>, t: nat, u: nat)
    requires u != t && u < |s.threads| == |s'.threads| && s'.threads[u] == s.threads[u]
    requires CallsInv(s, u) && OpsBy(s, s', t)
    ensures CallsInv(s', u)
  {
    if s'.ops != s.ops {
      assert s'.ops[..|s'.ops| - 1] == s.ops;
      assert EnqsBy(s'.ops, u) == EnqsBy(s.ops, u) + [] && DeqsBy(s'.ops, u) == DeqsBy(s.ops, u) + [];
    }
  }

  lemma ThreadsKept<T>(s: State<T>, s': State<T>, t: nat)
    requires ThreadsInv(s) && Moved(s, s', t) && Grows(s, s') && OpsBy(s, s', t)
    requires forall u :: 0 <= u < |s.threads| && u != t && Building(s.threads[u].frame) ==>
      SameNode(s, s', s.threads[u].frame.node)
    requires FrameInv(s', s'.threads[t]) && CallsInv(s', t)
    ensures ThreadsInv(s')
  {
    hide FrameInv, CallsInv;
    forall u | 0 <= u < |s'.threads| ensures FrameInv(s', s'.threads[u]) && CallsInv(s', u) {
      if u != t {
        FrameKept(s, s', s.threads[u]);
        CallsKept(s, s', t, u);
      }
    }
  }

  lemma MarksKept<T>(s: State<T>, s': State<T>, t: nat)
    requires MarksInv(s) && Moved(s, s', t) && s'.chain == s.chain && s'.lastMark == s.lastMark
    requires HasMark(s'.threads[t].frame) ==>
      HasMark(s.threads[t].frame) && s'.threads[t].hist.mark == s.threads[t].hist.mark
    ensures MarksInv(s')
  {
    forall u | 0 <= u < |s'.threads| && HasMark(s'.threads[u].frame) ensures MarkInv(s', u) { assert MarkInv(s, u); }
  }

  lemma MemoryKept<T>(s: State<T>, s': State<T>, t: nat)
    requires MemoryInv(s) && Moved(s, s', t) && s'.chain == s.chain && s'.next == s.next && s'.data == s.data
    requires Ready(s.threads[t].frame) ==>
      && Ready(s'.threads[t].frame) && s'.threads[t].frame.node == s.threads[t].frame.node
      && s'.threads[t].hist.mark == s.threads[t].hist.mark
    ensures MemoryInv(s')
  {
    forall a | a in s'.next ensures NextInv(s', a) {
      assert NextInv(s, a);
      assert ReadyWith(s, a, s.next[a]) ==> ReadyWith(s', a, s.next[a]) by { ReadyKept(s, s', t, a, s.next[a]); }
    }
  }

  lemma ReadyKept<T>(s: State<T>, s': State<T>, t: nat, a: Addr, m: int)
    requires Moved(s, s', t)
    requires ReadyThread(s.threads[t], a, m) ==> ReadyThread(s'.threads[t], a, m)
    ensures ReadyWith(s, a, m) ==> ReadyWith(s', a, m)
  {
    if ReadyWith(s, a, m) {
      var u :| 0 <= u < |s.threads| && ReadyThread(s.threads[u], a, m);
      assert ReadyThread(s'.threads[u], a, m);
    }
  }

  lemma OwnersKept<T>(s: State<T>, s': State<T>, t: nat)
    requires OwnerInv(s) && Moved(s, s', t) && s'.chain == s.chain && s'.head == s.head && s'.owned == s.owned
    requires Held(s'.threads[t].frame) == Held(s.threads[t].frame)
    ensures OwnerInv(s')
  {
    assert forall u :: 0 <= u < |s.threads| ==> Held(s'.threads[u].frame) == Held(s.threads[u].frame);
    assert forall a :: Live(s', a) <==> Live(s, a);
    forall a | a in s'.owned && !Live(s', a) ensures IsNode(a) && HeldBySome(s', a) {
      assert !Live(s, a);
      var u :| 0 <= u < |s.threads| && Held(s.threads[u].frame) == a;
      assert Held(s'.threads[u].frame) == a;
    }
  }

  lemma LagKept<T>(s: State<T>, s': State<T>, t: nat)
    requires LagInv(s) && Moved(s, s', t) && s'.chain == s.chain && s'.back == s.back
    requires s.back + 1 != |s.chain| && Swinging(s, t) ==> Swinging(s', t)
    ensures LagInv(s')
  {
    if s.back + 1 != |s.chain| {
      var u :| 0 <= u < |s.threads| && Swinging(s, u);
      assert Swinging(s', u);
    }
  }

  lemma CountKept<T>(s: State<T>, s': State<T>, t: nat)
    requires CountInv(s) && Moved(s, s', t) && s'.chain == s.chain && s'.head == s.head && s'.count == s.count
    requires KindOf(s'.threads[t].frame) == KindOf(s.threads[t].frame)
    ensures CountInv(s')
  {
    TallyMoved(s, s', t);
  }

  /** The queue and its ends are as they were, and thread t has moved. */
  ghost predicate Quiet<T>(s: State<T>, s': State<T>, t: nat) {
    && Moved(s, s', t) && s'.chain == s.chain && s'.head == s.head && s'.back == s.back && s'.ops == s.ops
    && s'.front == s.front && s'.frontId == s.frontId && s'.rear == s.rear && s'.rearId == s.rearId
    && s'.maxCount == s.maxCount
    && KindOf(s'.threads[t].frame) == KindOf(s.threads[t].frame)
    && Held(s'.threads[t].frame) == Held(s.threads[t].frame)
    && (s.back + 1 != |s.chain| && Swinging(s, t) ==> Swinging(s', t))
  }

  lemma EndsKept<T>(s: State<T>, s': State<T>, t: nat)
    requires EndsInv(s) && Quiet(s, s', t)
    ensures EndsInv(s')
  {
  }

  lemma OpsKept<T>(s: State<T>, s': State<T>, t: nat)
    requires OpsInv(s) && Quiet(s, s', t)
    ensures OpsInv(s')
  {
  }

  lemma ChainKept<T>(s: State<T>, s': State<T>)
    requires ChainInv(s) && s'.chain == s.chain && s'.head == s.head && s'.owned == s.owned
    requires s'.next == s.next && s'.data == s.data
    ensures ChainInv(s')
  {
    forall i | s.head <= i < |s.chain| ensures CellInv(s', i) { assert CellInv(s, i); }
  }

  lemma GrowsQuietly<T>(s: State<T>, s': State<T>, t: nat)
    requires EndsInv(s) && Quiet(s, s', t) && s'.next == s.next && s'.data == s.data
    ensures Grows(s, s')
  {
  }

  /** A step of thread t that touches nothing shared. */
  lemma SilentStep<T>(s: State<T>, s': State<T>, t: nat)
    requires Inv(s) && Quiet(s, s', t)
    requires s'.count == s.count && s'.owned == s.owned && s'.next == s.next && s'.data == s.data
    requires s'.lastMark == s.lastMark
    requires var (th, th') := (s.threads[t], s'.threads[t]);
      && th'.hist.mark == th.hist.mark && (Ready(th.frame) <==> Ready(th'.frame))
      && (Building(th.frame) <==> Building(th'.frame)) && (Building(th.frame) ==> th'.frame.node == th.frame.node)
      && (HasMark(th'.frame) ==> HasMark(th.frame))
    requires FrameInv(s', s'.threads[t]) && CallsInv(s', t)
    ensures Inv(s')
  {
    hide EndsInv, ChainInv, MarksInv, MemoryInv, OwnerInv, LagInv, CountInv, OpsInv, ThreadsInv;
    hide FrameInv, CallsInv, Grows;
    GrowsQuietly(s, s', t);
    EndsKept(s, s', t);
    ChainKept(s, s');
    ThreadsKept(s, s', t);
    MarksKept(s, s', t);
    MemoryKept(s, s', t);
    OwnersKept(s, s', t);
    LagKept(s, s', t);
    CountKept(s, s', t);
    OpsKept(s, s', t);
  }

  // ----- What the reads see -----

  lemma CellAt<T>(s: State<T>, i: nat)
    requires ChainInv(s) && s.head <= i < |s.chain|
    ensures CellInv(s, i)
  {
  }

  /** The front's and the rear's nodes are known and in the queue. */
  lemma EndsKnown<T>(s: State<T>)
    requires EndsInv(s) && ChainInv(s)
    ensures Known(s, s.rear) && Live(s, s.rear) && Known(s, s.front) && Live(s, s.front)
  {
    CellAt(s, s.head);
    CellAt(s, s.back);
  }

  /** The count keeps a DeQ that passed it behind the rear: the front has a successor. */
  lemma ReservedMeansBehind<T>(s: State<T>, t: nat)
    requires EndsInv(s) && LagInv(s) && CountInv(s) && t < |s.threads| && KindOf(s.threads[t].frame) == Reserved
    ensures s.head < s.back
  {
    CountAtLeast(Kinds(s.threads), t);
    if s.back + 1 != |s.chain| {
      var u :| 0 <= u < |s.threads| && Swinging(s, u);
      CountAtLeast(Kinds(s.threads), u);
    }
  }

  /** What a known node's _Next is: a marker or a known node. */
  lemma NextOfKnown<T>(s: State<T>, a: Addr)
    requires MemoryInv(s) && Known(s, a)
    ensures s.next[a] >= KERNEL_ADDRESS || Known(s, s.next[a])
  {
    assert NextInv(s, a);
  }

  lemma HelpNextRead<T>(s: State<T>, th: Thread<T>, rear: Addr, id: int)
    requires EndsInv(s) && ChainInv(s) && MarksInv(s) && MemoryInv(s) && RearSeen(s, th, rear, id)
    ensures s.next[rear] < KERNEL_ADDRESS ==> Known(s, s.next[rear]) && HelpSeen(s, th, rear, s.next[rear])
    ensures s.next[rear] >= 0
  {
    NextOfKnown(s, rear);
    CellAt(s, s.back);
  }

  lemma HelpMarkRead<T>(s: State<T>, th: Thread<T>, rear: Addr, nxt: Addr)
    requires EndsInv(s) && ChainInv(s) && Known(s, nxt) && HelpSeen(s, th, rear, nxt)
    ensures th.hist.seen == s.back && rear == s.chain[s.back].addr ==> s.next[nxt] == s.chain[s.back + 1].mark
  {
    if s.back + 1 < |s.chain| { CellAt(s, s.back + 1); }
  }

  lemma OwnMarkRead<T>(s: State<T>, th: Thread<T>, node: Addr, rear: Addr, id: int)
    requires EndsInv(s) && ChainInv(s) && LinkedAt(s, th, node, rear, id)
    ensures s.back == th.hist.pos - 1 ==> s.next[node] == s.chain[th.hist.pos].mark
  {
    if s.back == th.hist.pos - 1 { CellAt(s, th.hist.pos); }
  }

  lemma FrontNextRead<T>(s: State<T>, th: Thread<T>, front: Addr, id: int)
    requires EndsInv(s) && ChainInv(s) && MemoryInv(s) && FrontSeen(s, th, front, id) && s.head < s.back
    ensures s.next[front] < KERNEL_ADDRESS ==> NextSeen(s, th, front, s.next[front])
    ensures s.next[front] >= 0
  {
    NextOfKnown(s, front);
    CellAt(s, s.head);
  }

  lemma DataRead<T>(s: State<T>, th: Thread<T>, front: Addr, nxt: Addr)
    requires EndsInv(s) && ChainInv(s) && NextSeen(s, th, front, nxt)
    ensures th.hist.ver == s.head && front == s.chain[s.head].addr ==> s.data[nxt] == s.chain[s.head + 1].value
  {
    if s.head + 1 < |s.chain| { CellAt(s, s.head + 1); }
  }

  // ----- Steps that touch nothing shared -----

  lemma Parts<T>(s: State<T>, t: nat)
    requires Inv(s) && t < |s.threads|
    ensures EndsInv(s) && ChainInv(s) && MarksInv(s) && MemoryInv(s) && OwnerInv(s) && LagInv(s)
    ensures CountInv(s) && OpsInv(s) && ThreadsInv(s) && FrameInv(s, s.threads[t]) && CallsInv(s, t)
  {
  }

  /** Frame f and history h leave thread t what it owns, what it counts for and what its call owes. */
  ghost predicate SameRole<T>(s: State<T>, t: nat, f: Frame<T>, h: History<T>)
    requires t < |s.threads|
  {
    var th := s.threads[t];
    && KindOf(f) == KindOf(th.frame) && Held(f) == Held(th.frame)
    && Pending(f) == Pending(th.frame) && Giving(f) == Giving(th.frame) && !th.frame.Full?
    && h.mark == th.hist.mark && h.asked == th.hist.asked && h.got == th.hist.got && h.pos == th.hist.pos
    && (Ready(th.frame) <==> Ready(f)) && (Building(th.frame) <==> Building(f))
    && (Building(f) ==> f.node == th.frame.node) && (HasMark(f) ==> HasMark(th.frame))
  }

  /** A step that moves thread t and nothing else. */
  lemma SilentPut<T>(s: State<T>, t: nat, f: Frame<T>, h: History<T>)
    requires Inv(s) && t < |s.threads| && SameRole(s, t, f, h)
    requires s.back + 1 != |s.chain| && Swinging(s, t) ==> f.EnqReadMark? || f.EnqSwing?
    requires FrameInv(s, Thread(f, h))
    ensures Inv(PutBoth(s, t, f, h))
  {
    hide EndsInv, ChainInv, MarksInv, MemoryInv, OwnerInv, LagInv, CountInv, OpsInv, ThreadsInv, FrameInv, CallsInv;
    Parts(s, t);
    hide Inv;
    var s' := PutBoth(s, t, f, h);
    CallsSame(s, s', t);
    SameFrame(s, s', Thread(f, h));
    SilentStep(s, s', t);
  }

  lemma CallsSame<T>(s: State<T>, s': State<T>, t: nat)
    requires t < |s.threads| == |s'.threads| && CallsInv(s, t) && s'.ops == s.ops
    requires SameRole(s, t, s'.threads[t].frame, s'.threads[t].hist)
    ensures CallsInv(s', t)
  {
  }

  /** What a frame says depends on memory and the chain only. */
  lemma SameFrame<T>(s: State<T>, s': State<T>, th: Thread<T>)
    requires FrameInv(s, th) && s'.chain == s.chain && s'.head == s.head && s'.back == s.back
    requires s'.next == s.next && s'.data == s.data
    ensures FrameInv(s', th)
  {
  }

  lemma CheckStep<T>(s: State<T>, t: nat)
    requires Inv(s) && t < |s.threads| && s.threads[t].frame.EnqCheck?
    ensures Inv(Advance(s, t))
  {
    hide Inv;
    var f := s.threads[t].frame;
    if s.maxCount < s.count { FullPut(s, t); } else { SilentPut(s, t, EnqAlloc(f.d), s.threads[t].hist); }
  }

  lemma FullPut<T>(s: State<T>, t: nat)
    requires Inv(s) && t < |s.threads| && s.threads[t].frame.EnqCheck?
    ensures Inv(Put(s, t, Full))
  {
    hide EndsInv, ChainInv, MarksInv, MemoryInv, OwnerInv, LagInv, CountInv, OpsInv, ThreadsInv;
    Parts(s, t);
    hide Inv;
    SilentStep(s, Put(s, t, Full), t);
  }

  lemma CallEnQStep<T>(s: State<T>, t: nat, d: T)
    requires Inv(s) && t < |s.threads| && s.threads[t].frame.Idle?
    ensures Inv(Exec(s, CallEnQ(t, d)))
  {
    hide EndsInv, ChainInv, MarksInv, MemoryInv, OwnerInv, LagInv, CountInv, OpsInv, ThreadsInv;
    Parts(s, t);
    hide Inv;
    SilentStep(s, Exec(s, CallEnQ(t, d)), t);
  }

  lemma CallDeQStep<T>(s: State<T>, t: nat)
    requires Inv(s) && t < |s.threads| && s.threads[t].frame.Idle?
    ensures Inv(Exec(s, CallDeQ(t)))
  {
    hide Inv;
    SilentPut(s, t, DeqReserve, s.threads[t].hist);
  }

  lemma ReadRearStep<T>(s: State<T>, t: nat)
    requires Inv(s) && t < |s.threads| && s.threads[t].frame.EnqReadRear?
    ensures Inv(Advance(s, t))
  {
    hide EndsInv, ChainInv, MarksInv, MemoryInv, OwnerInv, LagInv, CountInv, OpsInv, ThreadsInv, FrameInv, CallsInv;
    hide Inv;
    var th := s.threads[t];
    Parts(s, t);
    ReadRearFrame(s, t);
    SilentPut(s, t, EnqReadId(th.frame.d, th.frame.node, s.rear), th.hist);
  }

  lemma ReadRearFrame<T>(s: State<T>, t: nat)
    requires EndsInv(s) && ChainInv(s) && OwnerInv(s) && t < |s.threads| && FrameInv(s, s.threads[t])
    requires s.threads[t].frame.EnqReadRear?
    ensures var th := s.threads[t]; FrameInv(s, Thread(EnqReadId(th.frame.d, th.frame.node, s.rear), th.hist))
  {
    EndsKnown(s);
    HeldIsNotLive(s, t);
  }

  /** A held node is not in the queue. */
  lemma HeldIsNotLive<T>(s: State<T>, t: nat)
    requires OwnerInv(s) && t < |s.threads| && Held(s.threads[t].frame) != NULL
    ensures !Live(s, Held(s.threads[t].frame)) && Held(s.threads[t].frame) in s.owned
  {
  }

  lemma ReadIdFrame<T>(s: State<T>, th: Thread<T>)
    requires EndsInv(s) && th.frame.EnqReadId? && FrameInv(s, th)
    ensures th.frame.rear != th.frame.node
    ensures var f := th.frame; FrameInv(s, Thread(EnqLink(f.d, f.node, f.rear, s.rearId), th.hist.(seen := s.back)))
  {
  }

  lemma ReadIdStep<T>(s: State<T>, t: nat)
    requires Inv(s) && t < |s.threads| && s.threads[t].frame.EnqReadId?
    ensures Inv(Advance(s, t))
  {
    hide EndsInv, ChainInv, MarksInv, MemoryInv, OwnerInv, LagInv, CountInv, OpsInv, ThreadsInv, FrameInv, CallsInv;
    hide Inv;
    var th := s.threads[t];
    var f := th.frame;
    Parts(s, t);
    ReadIdFrame(s, th);
    SilentPut(s, t, EnqLink(f.d, f.node, f.rear, s.rearId), th.hist.(seen := s.back));
  }

  /** The frames an EnQ goes back or on to when its CAS on _Next or on the rear fails. */
  lemma EnqMissFrame<T>(s: State<T>, th: Thread<T>)
    requires (th.frame.EnqLink? || th.frame.EnqHelp?) && FrameInv(s, th)
    ensures var f := th.frame;
      && f.rear in s.next && FrameInv(s, Thread(EnqReadRear(f.d, f.node), th.hist))
      && FrameInv(s, Thread(EnqHelpNext(f.d, f.node, f.rear, f.id), th.hist))
  {
  }

  lemma LinkMissStep<T>(s: State<T>, t: nat)
    requires Inv(s) && t < |s.threads| && s.threads[t].frame.EnqLink?
    requires s.threads[t].frame.rear in s.next ==> s.next[s.threads[t].frame.rear] != s.threads[t].frame.id
    ensures Inv(Advance(s, t))
  {
    hide EndsInv, ChainInv, MarksInv, MemoryInv, OwnerInv, LagInv, CountInv, OpsInv, ThreadsInv, FrameInv, CallsInv;
    hide Inv;
    var th := s.threads[t];
    Parts(s, t);
    EnqMissFrame(s, th);
    SilentPut(s, t, EnqHelpNext(th.frame.d, th.frame.node, th.frame.rear, th.frame.id), th.hist);
  }

  lemma HelpNextFrame<T>(s: State<T>, th: Thread<T>)
    requires EndsInv(s) && ChainInv(s) && MarksInv(s) && MemoryInv(s)
    requires th.frame.EnqHelpNext? && FrameInv(s, th)
    ensures var f := th.frame;
      && f.rear in s.next && s.next[f.rear] >= 0 && FrameInv(s, Thread(EnqReadRear(f.d, f.node), th.hist))
      && (s.next[f.rear] < KERNEL_ADDRESS ==>
            FrameInv(s, Thread(EnqHelpMark(f.d, f.node, f.rear, f.id, s.next[f.rear]), th.hist)))
  {
    HelpNextRead(s, th, th.frame.rear, th.frame.id);
  }

  lemma HelpNextStep<T>(s: State<T>, t: nat)
    requires Inv(s) && t < |s.threads| && s.threads[t].frame.EnqHelpNext?
    ensures Inv(Advance(s, t))
  {
    hide EndsInv, ChainInv, MarksInv, MemoryInv, OwnerInv, LagInv, CountInv, OpsInv, ThreadsInv, FrameInv, CallsInv;
    hide Inv;
    var th := s.threads[t];
    var f := th.frame;
    Parts(s, t);
    HelpNextFrame(s, th);
    if s.next[f.rear] < KERNEL_ADDRESS {
      SilentPut(s, t, EnqHelpMark(f.d, f.node, f.rear, f.id, s.next[f.rear]), th.hist);
    } else {
      SilentPut(s, t, EnqReadRear(f.d, f.node), th.hist);
    }
  }

  lemma HelpMarkFrame<T>(s: State<T>, th: Thread<T>)
    requires EndsInv(s) && ChainInv(s) && th.frame.EnqHelpMark? && FrameInv(s, th)
    ensures var f := th.frame;
      f.nxt in s.next && FrameInv(s, Thread(EnqHelp(f.d, f.node, f.rear, f.id, f.nxt, s.next[f.nxt]), th.hist))
  {
    HelpMarkRead(s, th, th.frame.rear, th.frame.nxt);
  }

  lemma HelpMarkStep<T>(s: State<T>, t: nat)
    requires Inv(s) && t < |s.threads| && s.threads[t].frame.EnqHelpMark?
    ensures Inv(Advance(s, t))
  {
    hide EndsInv, ChainInv, MarksInv, MemoryInv, OwnerInv, LagInv, CountInv, OpsInv, ThreadsInv, FrameInv, CallsInv;
    hide Inv;
    var th := s.threads[t];
    var f := th.frame;
    Parts(s, t);
    HelpMarkFrame(s, th);
    SilentPut(s, t, EnqHelp(f.d, f.node, f.rear, f.id, f.nxt, s.next[f.nxt]), th.hist);
  }

  lemma HelpMissStep<T>(s: State<T>, t: nat)
    requires Inv(s) && t < |s.threads| && s.threads[t].frame.EnqHelp?
    requires !RearHits(s, s.threads[t].frame.rear, s.threads[t].frame.id)
    ensures Inv(Advance(s, t))
  {
    hide EndsInv, ChainInv, MarksInv, MemoryInv, OwnerInv, LagInv, CountInv, OpsInv, ThreadsInv, FrameInv, CallsInv;
    hide Inv;
    var th := s.threads[t];
    Parts(s, t);
    EnqMissFrame(s, th);
    SilentPut(s, t, EnqReadRear(th.frame.d, th.frame.node), th.hist);
  }

  lemma ReadMarkFrame<T>(s: State<T>, th: Thread<T>)
    requires EndsInv(s) && ChainInv(s) && th.frame.EnqReadMark? && FrameInv(s, th)
    ensures var f := th.frame;
      f.node in s.next && FrameInv(s, Thread(EnqSwing(f.node, f.rear, f.id, s.next[f.node]), th.hist))
  {
    OwnMarkRead(s, th, th.frame.node, th.frame.rear, th.frame.id);
  }

  lemma ReadMarkStep<T>(s: State<T>, t: nat)
    requires Inv(s) && t < |s.threads| && s.threads[t].frame.EnqReadMark?
    ensures Inv(Advance(s, t))
  {
    hide EndsInv, ChainInv, MarksInv, MemoryInv, OwnerInv, LagInv, CountInv, OpsInv, ThreadsInv, FrameInv, CallsInv;
    hide Inv;
    var th := s.threads[t];
    var f := th.frame;
    Parts(s, t);
    ReadMarkFrame(s, th);
    SilentPut(s, t, EnqSwing(f.node, f.rear, f.id, s.next[f.node]), th.hist);
  }

  /** An EnQ that fails to swing the rear finds it swung already. */
  lemma MissMeansSwung<T>(s: State<T>, t: nat)
    requires EndsInv(s) && t < |s.threads| && s.threads[t].frame.EnqSwing? && FrameInv(s, s.threads[t])
    requires !RearHits(s, s.threads[t].frame.rear, s.threads[t].frame.id)
    ensures s.back + 1 != |s.chain| ==> !Swinging(s, t)
  {
    var f := s.threads[t].frame;
    assert LinkedAt(s, s.threads[t], f.node, f.rear, f.id);
  }

  lemma SwingMissStep<T>(s: State<T>, t: nat)
    requires Inv(s) && t < |s.threads| && s.threads[t].frame.EnqSwing?
    requires !RearHits(s, s.threads[t].frame.rear, s.threads[t].frame.id)
    ensures Inv(Advance(s, t))
  {
    hide EndsInv, ChainInv, MarksInv, MemoryInv, OwnerInv, LagInv, CountInv, OpsInv, ThreadsInv, CallsInv;
    hide Inv;
    Parts(s, t);
    MissMeansSwung(s, t);
    SilentPut(s, t, EnqCount, s.threads[t].hist);
  }

  /** What DeQ knows of the front it has just read. */
  lemma FrontFrames<T>(s: State<T>, h: History<T>)
    requires EndsInv(s) && ChainInv(s)
    ensures FrameInv(s, Thread(DeqReadId(s.front), h))
    ensures FrameInv(s, Thread(DeqReadNext(s.front, s.frontId), h.(ver := s.head)))
  {
    EndsKnown(s);
  }

  lemma ReadFrontStep<T>(s: State<T>, t: nat)
    requires Inv(s) && t < |s.threads| && s.threads[t].frame.DeqReadFront?
    ensures Inv(Advance(s, t))
  {
    hide EndsInv, ChainInv, MarksInv, MemoryInv, OwnerInv, LagInv, CountInv, OpsInv, ThreadsInv, FrameInv, CallsInv;
    hide Inv;
    Parts(s, t);
    FrontFrames(s, s.threads[t].hist);
    SilentPut(s, t, DeqReadId(s.front), s.threads[t].hist);
  }

  lemma ReadFrontIdFrame<T>(s: State<T>, th: Thread<T>)
    requires EndsInv(s) && th.frame.DeqReadId? && FrameInv(s, th)
    ensures FrameInv(s, Thread(DeqReadNext(th.frame.front, s.frontId), th.hist.(ver := s.head)))
  {
  }

  lemma ReadFrontIdStep<T>(s: State<T>, t: nat)
    requires Inv(s) && t < |s.threads| && s.threads[t].frame.DeqReadId?
    ensures Inv(Advance(s, t))
  {
    hide EndsInv, ChainInv, MarksInv, MemoryInv, OwnerInv, LagInv, CountInv, OpsInv, ThreadsInv, FrameInv, CallsInv;
    hide Inv;
    Parts(s, t);
    ReadFrontIdFrame(s, s.threads[t]);
    SilentPut(s, t, DeqReadNext(s.threads[t].frame.front, s.frontId), s.threads[t].hist.(ver := s.head));
  }

  lemma ReadNextFrame<T>(s: State<T>, th: Thread<T>)
    requires EndsInv(s) && ChainInv(s) && MemoryInv(s) && s.head < s.back
    requires th.frame.DeqReadNext? && FrameInv(s, th)
    ensures var f := th.frame;
      && f.front in s.next && s.next[f.front] >= 0
      && (s.next[f.front] < KERNEL_ADDRESS ==>
            FrameInv(s, Thread(DeqReadData(f.front, f.id, s.next[f.front]), th.hist)))
  {
    FrontNextRead(s, th, th.frame.front, th.frame.id);
  }

  lemma ReadNextStep<T>(s: State<T>, t: nat)
    requires Inv(s) && t < |s.threads| && s.threads[t].frame.DeqReadNext?
    ensures Inv(Advance(s, t))
  {
    hide EndsInv, ChainInv, MarksInv, MemoryInv, OwnerInv, LagInv, CountInv, OpsInv, ThreadsInv, FrameInv, CallsInv;
    hide Inv;
    var th := s.threads[t];
    var f := th.frame;
    Parts(s, t);
    ReservedMeansBehind(s, t);
    ReadNextFrame(s, th);
    if s.next[f.front] < KERNEL_ADDRESS {
      SilentPut(s, t, DeqReadData(f.front, f.id, s.next[f.front]), th.hist);
    }
  }

  lemma ReadDataFrame<T>(s: State<T>, th: Thread<T>)
    requires EndsInv(s) && ChainInv(s) && th.frame.DeqReadData? && FrameInv(s, th)
    ensures var f := th.frame;
      f.nxt in s.data && FrameInv(s, Thread(DeqCas(f.front, f.id, f.nxt, s.data[f.nxt]), th.hist))
  {
    DataRead(s, th, th.frame.front, th.frame.nxt);
  }

  lemma ReadDataStep<T>(s: State<T>, t: nat)
    requires Inv(s) && t < |s.threads| && s.threads[t].frame.DeqReadData?
    ensures Inv(Advance(s, t))
  {
    hide EndsInv, ChainInv, MarksInv, MemoryInv, OwnerInv, LagInv, CountInv, OpsInv, ThreadsInv, FrameInv, CallsInv;
    hide Inv;
    var th := s.threads[t];
    var f := th.frame;
    Parts(s, t);
    ReadDataFrame(s, th);
    SilentPut(s, t, DeqCas(f.front, f.id, f.nxt, s.data[f.nxt]), th.hist);
  }

  lemma DeqMissStep<T>(s: State<T>, t: nat)
    requires Inv(s) && t < |s.threads| && s.threads[t].frame.DeqCas?
    requires !FrontHits(s, s.threads[t].frame.front, s.threads[t].frame.id)
    ensures Inv(Advance(s, t))
  {
    hide EndsInv, ChainInv, MarksInv, MemoryInv, OwnerInv, LagInv, CountInv, OpsInv, ThreadsInv, FrameInv, CallsInv;
    hide Inv;
    Parts(s, t);
    FrontFrames(s, s.threads[t].hist);
    SilentPut(s, t, DeqReadNext(s.front, s.frontId), s.threads[t].hist.(ver := s.head));
  }

  // ----- Steps that write the node being enqueued -----

  /** Only the memory of node n changed, and known nodes stay known. */
  ghost predicate OnlyNode<T>(s: State<T>, s': State<T>, n: Addr) {
    && (forall a :: a != n ==> SameNode(s, s', a))
    && (forall a :: Known(s, a) ==> Known(s', a))
  }

  lemma ChainApart<T>(s: State<T>, s': State<T>, n: Addr)
    requires ChainInv(s) && !Live(s, n) && OnlyNode(s, s', n)
    requires s'.chain == s.chain && s'.head == s.head && s'.owned == s.owned
    ensures ChainInv(s')
  {
    forall i | s.head <= i < |s.chain| ensures CellInv(s', i) {
      assert CellInv(s, i);
      assert Live(s, s.chain[i].addr);
      assert SameNode(s, s', s.chain[i].addr);
    }
  }

  lemma GrowsApart<T>(s: State<T>, s': State<T>, t: nat, n: Addr)
    requires EndsInv(s) && Quiet(s, s', t) && OnlyNode(s, s', n)
    ensures Grows(s, s')
  {
  }

  /** Nodes being enqueued by others are other nodes. */
  lemma OthersApart<T>(s: State<T>, s': State<T>, t: nat, n: Addr)
    requires OwnerInv(s) && ThreadsInv(s) && t < |s.threads| && OnlyNode(s, s', n)
    requires Held(s.threads[t].frame) == n != NULL
    ensures forall u :: 0 <= u < |s.threads| && u != t && Building(s.threads[u].frame) ==>
      SameNode(s, s', s.threads[u].frame.node)
  {
    forall u | 0 <= u < |s.threads| && u != t && Building(s.threads[u].frame)
      ensures SameNode(s, s', s.threads[u].frame.node)
    {
      assert FrameInv(s, s.threads[u]);
      assert Held(s.threads[u].frame) == s.threads[u].frame.node;
      if t < u { assert Held(s.threads[t].frame) != Held(s.threads[u].frame); }
    }
  }

  lemma BuildStep<T>(s: State<T>, s': State<T>, t: nat)
    requires Inv(s) && Quiet(s, s', t) && s'.count == s.count && s'.owned == s.owned
    requires Held(s.threads[t].frame) != NULL && OnlyNode(s, s', Held(s.threads[t].frame))
    requires MarksInv(s') && MemoryInv(s') && FrameInv(s', s'.threads[t]) && CallsInv(s', t)
    ensures Inv(s')
  {
    hide EndsInv, ChainInv, MarksInv, MemoryInv, OwnerInv, LagInv, CountInv, OpsInv, ThreadsInv;
    hide FrameInv, CallsInv, Grows, OnlyNode;
    var n := Held(s.threads[t].frame);
    Parts(s, t);
    HeldIsNotLive(s, t);
    GrowsApart(s, s', t, n);
    OthersApart(s, s', t, n);
    EndsKept(s, s', t);
    ChainApart(s, s', n);
    ThreadsKept(s, s', t);
    OwnersKept(s, s', t);
    LagKept(s, s', t);
    CountKept(s, s', t);
    OpsKept(s, s', t);
  }

  lemma DataMemory<T>(s: State<T>, t: nat)
    requires MemoryInv(s) && t < |s.threads| && s.threads[t].frame.EnqData? && FrameInv(s, s.threads[t])
    ensures var s' := Advance(s, t);
      MemoryInv(s') && OnlyNode(s, s', s.threads[t].frame.node) && FrameInv(s', s'.threads[t])
  {
    var s' := Advance(s, t);
    forall a | a in s'.next ensures NextInv(s', a) {
      assert NextInv(s, a);
      ReadyKept(s, s', t, a, s.next[a]);
    }
  }

  lemma DataStep<T>(s: State<T>, t: nat)
    requires Inv(s) && t < |s.threads| && s.threads[t].frame.EnqData?
    ensures Inv(Advance(s, t))
  {
    hide EndsInv, ChainInv, MarksInv, MemoryInv, OwnerInv, LagInv, CountInv, OpsInv, ThreadsInv, FrameInv, CallsInv;
    hide OnlyNode, Inv;
    Parts(s, t);
    NodeIsHeld(s, s.threads[t]);
    var s' := Advance(s, t);
    DataMemory(s, t);
    MarksKept(s, s', t);
    CallsSame(s, s', t);
    BuildStep(s, s', t);
  }

  lemma NodeIsHeld<T>(s: State<T>, th: Thread<T>)
    requires FrameInv(s, th) && Building(th.frame)
    ensures Held(th.frame) == th.frame.node && IsNode(th.frame.node)
  {
  }

  /** The marker drawn is new. */
  lemma DrawMarks<T>(s: State<T>, t: nat)
    requires MarksInv(s) && t < |s.threads| && s.threads[t].frame.EnqDraw? && s.lastMark < HALF64 - 1
    ensures MarksInv(Advance(s, t)) && Advance(s, t).lastMark == s.lastMark + 1
  {
    var s' := Advance(s, t);
    forall u | 0 <= u < |s'.threads| && HasMark(s'.threads[u].frame) ensures MarkInv(s', u) {
      if u != t { assert MarkInv(s, u); }
    }
    forall u, v | 0 <= u < v < |s'.threads| && HasMark(s'.threads[u].frame) && HasMark(s'.threads[v].frame)
      ensures s'.threads[u].hist.mark != s'.threads[v].hist.mark
    {
      if u != t { assert MarkInv(s, u); }
      if v != t { assert MarkInv(s, v); }
    }
  }

  lemma DrawMemory<T>(s: State<T>, t: nat)
    requires MemoryInv(s) && t < |s.threads| && s.threads[t].frame.EnqDraw? && FrameInv(s, s.threads[t])
    ensures var s' := Advance(s, t);
      MemoryInv(s') && OnlyNode(s, s', s.threads[t].frame.node) && FrameInv(s', s'.threads[t])
  {
    MemoryKept(s, Advance(s, t), t);
  }

  lemma DrawCalls<T>(s: State<T>, t: nat)
    requires t < |s.threads| && s.threads[t].frame.EnqDraw? && CallsInv(s, t)
    ensures CallsInv(Advance(s, t), t)
  {
  }

  lemma DrawStep<T>(s: State<T>, t: nat)
    requires Inv(s) && t < |s.threads| && s.threads[t].frame.EnqDraw? && s.lastMark < HALF64 - 1
    ensures Inv(Advance(s, t))
  {
    hide EndsInv, ChainInv, MarksInv, MemoryInv, OwnerInv, LagInv, CountInv, OpsInv, ThreadsInv, FrameInv, CallsInv;
    hide OnlyNode, Inv;
    Parts(s, t);
    NodeIsHeld(s, s.threads[t]);
    DrawMemory(s, t);
    DrawMarks(s, t);
    DrawCalls(s, t);
    BuildStep(s, Advance(s, t), t);
  }

  lemma MarkMemory<T>(s: State<T>, t: nat)
    requires MemoryInv(s) && MarksInv(s) && t < |s.threads| && s.threads[t].frame.EnqMark? && FrameInv(s, s.threads[t])
    ensures var s' := Advance(s, t);
      MemoryInv(s') && OnlyNode(s, s', s.threads[t].frame.node) && FrameInv(s', s'.threads[t])
  {
    var s' := Advance(s, t);
    var f := s.threads[t].frame;
    assert MarkInv(s, t);
    assert ReadyThread(s'.threads[t], f.node, f.mark);
    forall a | a in s'.next ensures NextInv(s', a) {
      assert NextInv(s, a);
      ReadyKept(s, s', t, a, s.next[a]);
    }
  }

  lemma MarkStep<T>(s: State<T>, t: nat)
    requires Inv(s) && t < |s.threads| && s.threads[t].frame.EnqMark?
    ensures Inv(Advance(s, t))
  {
    hide EndsInv, ChainInv, MarksInv, MemoryInv, OwnerInv, LagInv, CountInv, OpsInv, ThreadsInv, FrameInv, CallsInv;
    hide OnlyNode, Inv;
    Parts(s, t);
    NodeIsHeld(s, s.threads[t]);
    var s' := Advance(s, t);
    MarkMemory(s, t);
    MarksKept(s, s', t);
    MarkCalls(s, t);
    BuildStep(s, s', t);
  }

  lemma MarkCalls<T>(s: State<T>, t: nat)
    requires t < |s.threads| && s.threads[t].frame.EnqMark? && CallsInv(s, t)
    ensures CallsInv(Advance(s, t), t)
  {
  }

  // ----- Steps on the count -----

  /** The interlocked accesses to m_Count never wrap, and keep its account. */
  lemma CountAccount<T>(s: State<T>, t: nat)
    requires CountInv(s) && t < |s.threads|
    requires var f := s.threads[t].frame; f.EnqCount? || f.DeqReserve? || f.DeqRestore?
    ensures CountInv(Advance(s, t))
    ensures Advance(s, t).count == if s.threads[t].frame.DeqReserve? then s.count - 1 else s.count + 1
  {
    var s' := Advance(s, t);
    TallyMoved(s, s', t);
    CountSum(Kinds(s'.threads));
    CountAtLeast(Kinds(s.threads), t);
  }

  lemma CountFrame<T>(s: State<T>, t: nat)
    requires t < |s.threads| && CallsInv(s, t)
    requires var f := s.threads[t].frame; f.EnqCount? || f.DeqReserve? || f.DeqRestore?
    ensures var s' := Advance(s, t); FrameInv(s', s'.threads[t]) && CallsInv(s', t)
  {
  }

  lemma CountStep<T>(s: State<T>, t: nat)
    requires Inv(s) && t < |s.threads|
    requires var f := s.threads[t].frame; f.EnqCount? || f.DeqReserve? || f.DeqRestore?
    ensures Inv(Advance(s, t))
  {
    hide EndsInv, ChainInv, MarksInv, MemoryInv, OwnerInv, LagInv, CountInv, OpsInv, ThreadsInv, FrameInv, CallsInv;
    Parts(s, t);
    var s' := Advance(s, t);
    CountAccount(s, t);
    CountFrame(s, t);
    assert Grows(s, s') by { GrowsStill(s, s'); }
    ThreadsKept(s, s', t);
    MarksKept(s, s', t);
    MemoryKept(s, s', t);
    OwnersKept(s, s', t);
    LagKept(s, s', t);
    ChainKept(s, s');
    EndsStill(s, s');
  }

  lemma GrowsStill<T>(s: State<T>, s': State<T>)
    requires EndsInv(s) && s'.next == s.next && s'.data == s.data
    requires s'.chain == s.chain && s'.head == s.head && s'.back == s.back
    ensures Grows(s, s')
  {
  }

  lemma EndsStill<T>(s: State<T>, s': State<T>)
    requires EndsInv(s) && OpsInv(s) && s'.ops == s.ops && |s'.threads| == |s.threads|
    requires s'.chain == s.chain && s'.head == s.head && s'.back == s.back
    requires s'.front == s.front && s'.frontId == s.frontId && s'.rear == s.rear && s'.rearId == s.rearId
    ensures EndsInv(s') && OpsInv(s')
  {
  }

  // ----- Steps that move a node between pool, threads and queue -----

  /** The node p, and no other, changes hands between the pool, thread t and the queue. */
  lemma OwnersMoved<T>(s: State<T>, s': State<T>, t: nat, p: Addr)
    requires OwnerInv(s) && Moved(s, s', t) && IsNode(p)
    requires forall a :: a != p ==> (Live(s', a) <==> Live(s, a)) && (a in s'.owned <==> a in s.owned)
    requires Held(s.threads[t].frame) == p || Held(s.threads[t].frame) == NULL
    requires Held(s'.threads[t].frame) == p || Held(s'.threads[t].frame) == NULL
    requires p in s'.owned <==> Live(s', p) || Held(s'.threads[t].frame) == p
    requires !(Live(s', p) && Held(s'.threads[t].frame) == p)
    requires forall u :: 0 <= u < |s.threads| && u != t ==> Held(s.threads[u].frame) != p
    ensures OwnerInv(s')
  {
    forall u | 0 <= u < |s'.threads| && Held(s'.threads[u].frame) != NULL
      ensures Held(s'.threads[u].frame) in s'.owned && !Live(s', Held(s'.threads[u].frame))
    {
      if u != t { assert s'.threads[u] == s.threads[u]; }
    }
    forall a | a in s'.owned && !Live(s', a) ensures IsNode(a) && HeldBySome(s', a) {
      if a == p {
        assert Held(s'.threads[t].frame) == p;
      } else {
        var u :| 0 <= u < |s.threads| && Held(s.threads[u].frame) == a;
        assert Held(s'.threads[u].frame) == a;
      }
    }
  }

  lemma NobodyHolds<T>(s: State<T>, a: Addr)
    requires OwnerInv(s) && ChainInv(s) && a !in s.owned && a != NULL
    ensures forall u :: 0 <= u < |s.threads| ==> Held(s.threads[u].frame) != a
    ensures !Live(s, a)
  {
    forall i | s.head <= i < |s.chain| ensures s.chain[i].addr != a { assert CellInv(s, i); }
  }

  lemma OnlyHolder<T>(s: State<T>, t: nat, p: Addr)
    requires OwnerInv(s) && t < |s.threads| && Held(s.threads[t].frame) == p != NULL
    ensures forall u :: 0 <= u < |s.threads| && u != t ==> Held(s.threads[u].frame) != p
  {
    forall u | 0 <= u < |s.threads| && u != t ensures Held(s.threads[u].frame) != p {
      if t < u { assert Held(s.threads[t].frame) != Held(s.threads[u].frame); }
    }
  }

  lemma AllocMemory<T>(s: State<T>, t: nat, a: Addr)
    requires MemoryInv(s) && t < |s.threads| && s.threads[t].frame.EnqAlloc? && IsNode(a) && a !in s.owned
    ensures var s' := Exec(s, Alloc(t, a));
      MemoryInv(s') && OnlyNode(s, s', a) && FrameInv(s', s'.threads[t])
  {
    var s' := Exec(s, Alloc(t, a));
    forall b | b in s'.next ensures NextInv(s', b) {
      if b in s.next {
        assert NextInv(s, b);
        ReadyKept(s, s', t, b, s.next[b]);
      }
    }
  }

  lemma AllocStep<T>(s: State<T>, t: nat, a: Addr)
    requires Inv(s) && t < |s.threads| && s.threads[t].frame.EnqAlloc? && IsNode(a) && a !in s.owned
    ensures Inv(Exec(s, Alloc(t, a)))
  {
    hide EndsInv, ChainInv, MarksInv, MemoryInv, OwnerInv, LagInv, CountInv, OpsInv, ThreadsInv, FrameInv, CallsInv;
    hide OnlyNode;
    Parts(s, t);
    var s' := Exec(s, Alloc(t, a));
    NobodyHolds(s, a);
    AllocMemory(s, t, a);
    assert Moved(s, s', t);
    MarksKept(s, s', t);
    AllocRest(s, s', t, a);
    OwnersMoved(s, s', t, a);
    LagKept(s, s', t);
    CountKept(s, s', t);
    EndsStill(s, s');
  }

  lemma AllocRest<T>(s: State<T>, s': State<T>, t: nat, a: Addr)
    requires EndsInv(s) && ChainInv(s) && OwnerInv(s) && ThreadsInv(s) && Moved(s, s', t) && OnlyNode(s, s', a)
    requires forall u :: 0 <= u < |s.threads| ==> Held(s.threads[u].frame) != a
    requires !Live(s, a) && s.owned <= s'.owned && s'.ops == s.ops
    requires s'.chain == s.chain && s'.head == s.head && s'.back == s.back
    requires FrameInv(s', s'.threads[t]) && s.threads[t].frame.EnqAlloc? && s'.threads[t].frame.EnqData?
    requires s'.threads[t].hist == s.threads[t].hist && s'.threads[t].frame.d == s.threads[t].frame.d
    ensures ChainInv(s') && ThreadsInv(s')
  {
    forall i | s.head <= i < |s.chain| ensures CellInv(s', i) {
      assert CellInv(s, i);
      assert Live(s, s.chain[i].addr);
      assert SameNode(s, s', s.chain[i].addr);
    }
    forall u | 0 <= u < |s.threads| && u != t && Building(s.threads[u].frame)
      ensures SameNode(s, s', s.threads[u].frame.node)
    {
      assert Held(s.threads[u].frame) != a;
    }
    assert CallsInv(s, t) && CallsInv(s', t);
    ThreadsKept(s, s', t);
  }

  lemma FreeStep<T>(s: State<T>, t: nat)
    requires Inv(s) && t < |s.threads| && s.threads[t].frame.DeqFree?
    ensures Inv(Advance(s, t))
  {
    hide EndsInv, ChainInv, MarksInv, MemoryInv, OwnerInv, LagInv, CountInv, OpsInv, ThreadsInv, FrameInv, CallsInv;
    Parts(s, t);
    var s' := Advance(s, t);
    var p := s.threads[t].frame.front;
    FreeFrame(s, t);
    HeldIsNotLive(s, t);
    OnlyHolder(s, t, p);
    OwnedIsNode(s, p);
    GrowsStill(s, s');
    ThreadsKept(s, s', t);
    MarksKept(s, s', t);
    MemoryKept(s, s', t);
    assert forall a :: Live(s', a) <==> Live(s, a);
    OwnersMoved(s, s', t, p);
    LagKept(s, s', t);
    CountKept(s, s', t);
    FreeChain(s, s', p);
    EndsStill(s, s');
  }

  lemma OwnedIsNode<T>(s: State<T>, p: Addr)
    requires OwnerInv(s) && p in s.owned
    ensures IsNode(p)
  {
  }

  lemma FreeChain<T>(s: State<T>, s': State<T>, p: Addr)
    requires ChainInv(s) && !Live(s, p) && s'.owned == s.owned - {p}
    requires s'.chain == s.chain && s'.head == s.head && s'.next == s.next && s'.data == s.data
    ensures ChainInv(s')
  {
    forall i | s.head <= i < |s.chain| ensures CellInv(s', i) {
      assert CellInv(s, i);
      assert Live(s, s.chain[i].addr);
    }
  }

  lemma FreeFrame<T>(s: State<T>, t: nat)
    requires OwnerInv(s) && t < |s.threads| && s.threads[t].frame.DeqFree?
    requires FrameInv(s, s.threads[t]) && CallsInv(s, t)
    ensures var s' := Advance(s, t);
      && FrameInv(s', s'.threads[t]) && CallsInv(s', t) && s'.threads[t].frame.Idle?
      && s.threads[t].frame.front != NULL && s'.owned == s.owned - {s.threads[t].frame.front}
  {
    assert Held(s.threads[t].frame) == s.threads[t].frame.front;
  }

  // ----- The CAS that links a node -----

  predicate Links<T>(s: State<T>, t: nat) {
    && t < |s.threads| && s.threads[t].frame.EnqLink?
    && s.threads[t].frame.rear in s.next && s.next[s.threads[t].frame.rear] == s.threads[t].frame.id
  }

  /**
   * A CAS on _Next succeeds only on the last node of the queue, with the rear at it: markers are
   * unique, so neither recycling nor the torn read of the rear can make it succeed elsewhere.
   */
  lemma LinksAtTheEnd<T>(s: State<T>, t: nat)
    requires EndsInv(s) && MarksInv(s) && MemoryInv(s) && Links(s, t) && FrameInv(s, s.threads[t])
    ensures s.back + 1 == |s.chain| && s.threads[t].hist.seen == s.back
    ensures s.threads[t].frame.rear == s.chain[s.back].addr && s.threads[t].frame.id == s.chain[s.back].mark
  {
    var f := s.threads[t].frame;
    assert RearSeen(s, s.threads[t], f.rear, f.id);
    assert NextInv(s, f.rear);
    assert forall u :: 0 <= u < |s.threads| && HasMark(s.threads[u].frame) ==> MarkInv(s, u);
    assert !ReadyWith(s, f.rear, f.id);
  }

  /** What the link does: the node joins the chain after the last one. */
  lemma LinkShape<T>(s: State<T>, t: nat)
    requires EndsInv(s) && MarksInv(s) && MemoryInv(s) && Links(s, t) && FrameInv(s, s.threads[t])
    ensures var (s', th) := (Advance(s, t), s.threads[t]);
      var f := th.frame;
      && Moved(s, s', t) && s'.chain == s.chain + [Cell(f.node, f.d, th.hist.mark)] && s.back + 1 == |s.chain|
      && s'.next == s.next[s.chain[s.back].addr := f.node] && s'.data == s.data && s'.owned == s.owned
      && s'.head == s.head && s'.back == s.back && s'.lastMark == s.lastMark && s'.count == s.count
      && s'.front == s.front && s'.frontId == s.frontId && s'.rear == s.rear && s'.rearId == s.rearId
      && s'.ops == s.ops + [Enqueued(t, f.d)]
      && s'.threads[t] == Thread(EnqReadMark(f.node, f.rear, f.id), th.hist.(pos := |s.chain|))
  {
    LinksAtTheEnd(s, t);
  }

  lemma LinkKnown<T>(s: State<T>, t: nat)
    requires EndsInv(s) && MarksInv(s) && MemoryInv(s) && Links(s, t) && FrameInv(s, s.threads[t])
    ensures Known(s, s.threads[t].frame.node)
    ensures forall a :: Known(s, a) ==> Known(Advance(s, t), a)
  {
    LinkShape(s, t);
    assert MarkInv(s, t);
  }

  lemma LinkChain<T>(s: State<T>, t: nat)
    requires EndsInv(s) && ChainInv(s) && MarksInv(s) && MemoryInv(s) && OwnerInv(s)
    requires Links(s, t) && FrameInv(s, s.threads[t])
    ensures ChainInv(Advance(s, t))
  {
    LinkShape(s, t);
    LinkKnown(s, t);
    HeldIsNotLive(s, t);
    var s' := Advance(s, t);
    var n := s.threads[t].frame.node;
    forall i | s'.head <= i < |s'.chain| ensures CellInv(s', i) {
      if i < |s.chain| {
        assert CellInv(s, i);
        assert Live(s, s.chain[i].addr);
        CellAt(s, s.back);
      }
    }
    forall i, j | s'.head <= i < j < |s'.chain| ensures s'.chain[i].addr != s'.chain[j].addr {
      assert Live(s, s.chain[i].addr);
    }
  }

  lemma LinkMarks<T>(s: State<T>, t: nat)
    requires EndsInv(s) && MarksInv(s) && MemoryInv(s) && Links(s, t) && FrameInv(s, s.threads[t])
    ensures MarksInv(Advance(s, t))
  {
    LinkShape(s, t);
    assert MarkInv(s, t);
    var s' := Advance(s, t);
    forall u | 0 <= u < |s'.threads| && HasMark(s'.threads[u].frame) ensures MarkInv(s', u) {
      assert MarkInv(s, u);
      if t < u { assert s.threads[t].hist.mark != s.threads[u].hist.mark; }
    }
  }

  lemma LinkMemory<T>(s: State<T>, t: nat)
    requires EndsInv(s) && ChainInv(s) && MarksInv(s) && MemoryInv(s) && Links(s, t) && FrameInv(s, s.threads[t])
    ensures MemoryInv(Advance(s, t))
  {
    LinkShape(s, t);
    LinkKnown(s, t);
    LinksAtTheEnd(s, t);
    var s' := Advance(s, t);
    var th := s.threads[t];
    forall a | a in s'.next ensures NextInv(s', a) {
      assert NextInv(s, a);
      if a != th.frame.rear && s.next[a] >= KERNEL_ADDRESS && !ReadyThread(th, a, s.next[a]) {
        CellAt(s, s.back);
        ReadyKept(s, s', t, a, s.next[a]);
      }
    }
  }

  /** Of the nodes that are live, only the linked one is new. */
  lemma LinkLive<T>(s: State<T>, t: nat)
    requires EndsInv(s) && MarksInv(s) && MemoryInv(s) && Links(s, t) && FrameInv(s, s.threads[t])
    ensures var (s', n) := (Advance(s, t), s.threads[t].frame.node);
      Live(s', n) && forall a :: a != n ==> (Live(s', a) <==> Live(s, a))
  {
    LinkShape(s, t);
    var s' := Advance(s, t);
    assert s'.chain[|s.chain|].addr == s.threads[t].frame.node;
    assert forall i :: 0 <= i < |s.chain| ==> s'.chain[i] == s.chain[i];
  }

  lemma LinkHistory<T>(ops: seq<Op<T>>, t: nat, v: T)
    ensures EnqsBy(ops + [Enqueued(t, v)], t) == EnqsBy(ops, t) + [v]
    ensures DeqsBy(ops + [Enqueued(t, v)], t) == DeqsBy(ops, t)
  {
    var ops' := ops + [Enqueued(t, v)];
    assert ops'[..|ops'| - 1] == ops;
    assert DeqsBy(ops, t) + [] == DeqsBy(ops, t);
  }

  lemma LinkCalls<T>(s: State<T>, t: nat)
    requires t < |s.threads| && Links(s, t) && CallsInv(s, t)
    ensures CallsInv(Advance(s, t), t)
  {
    var d := s.threads[t].frame.d;
    LinkHistory(s.ops, t, d);
    assert (EnqsBy(s.ops, t) + [d]) + [] == EnqsBy(s.ops, t) + [d];
  }

  lemma ReplayEnqueued<T>(ops: seq<Op<T>>, t: nat, v: T)
    requires Replay(ops).Some?
    ensures Replay(ops + [Enqueued(t, v)]) == Some(Replay(ops).value + [v])
  {
    assert (ops + [Enqueued(t, v)])[..|ops|] == ops;
  }

  lemma LongerContents<T>(s: State<T>, s': State<T>, c: Cell<T>)
    requires s.head < |s.chain| && s'.head == s.head && s'.chain == s.chain + [c]
    ensures Contents(s') == Contents(s) + [c.value]
  {
    assert s'.chain[s.head + 1..] == s.chain[s.head + 1..] + [c];
  }

  lemma LinkOps<T>(s: State<T>, t: nat)
    requires EndsInv(s) && MarksInv(s) && MemoryInv(s) && OpsInv(s) && Links(s, t) && FrameInv(s, s.threads[t])
    ensures OpsInv(Advance(s, t))
    ensures Contents(Advance(s, t)) == Contents(s) + [s.threads[t].frame.d]
  {
    LinkShape(s, t);
    hide EndsInv, MarksInv, MemoryInv, FrameInv, Advance, Contents, Replay;
    var s' := Advance(s, t);
    LongerContents(s, s', s'.chain[|s.chain|]);
    ReplayEnqueued(s.ops, t, s.threads[t].frame.d);
  }

  lemma LinkFrame<T>(s: State<T>, t: nat)
    requires EndsInv(s) && MarksInv(s) && MemoryInv(s) && Links(s, t) && FrameInv(s, s.threads[t])
    ensures var s' := Advance(s, t); FrameInv(s', s'.threads[t]) && Grows(s, s') && Swinging(s', t) && EndsInv(s')
  {
    LinkShape(s, t);
    LinkKnown(s, t);
    LinksAtTheEnd(s, t);
  }

  /** The rear's node is in the queue, so no other thread is building it. */
  lemma LinkApart<T>(s: State<T>, t: nat)
    requires EndsInv(s) && ChainInv(s) && MarksInv(s) && MemoryInv(s) && OwnerInv(s) && ThreadsInv(s) && Links(s, t)
    requires FrameInv(s, s.threads[t])
    ensures forall u :: 0 <= u < |s.threads| && u != t && Building(s.threads[u].frame) ==>
      SameNode(s, Advance(s, t), s.threads[u].frame.node)
  {
    LinkShape(s, t);
    EndsKnown(s);
    forall u | 0 <= u < |s.threads| && u != t && Building(s.threads[u].frame)
      ensures SameNode(s, Advance(s, t), s.threads[u].frame.node)
    {
      assert FrameInv(s, s.threads[u]);
      HeldIsNotLive(s, u);
    }
  }

  lemma LinkCount<T>(s: State<T>, t: nat)
    requires EndsInv(s) && MarksInv(s) && MemoryInv(s) && CountInv(s) && Links(s, t) && FrameInv(s, s.threads[t])
    requires WithinWidths(s, Step(t))
    ensures CountInv(Advance(s, t))
  {
    LinkShape(s, t);
    TallyMoved(s, Advance(s, t), t);
  }

  lemma LinkStep<T>(s: State<T>, t: nat)
    requires Inv(s) && Links(s, t) && WithinWidths(s, Step(t))
    ensures Inv(Advance(s, t))
  {
    hide EndsInv, ChainInv, MarksInv, MemoryInv, OwnerInv, LagInv, CountInv, OpsInv, ThreadsInv, FrameInv, CallsInv;
    hide Grows, Links;
    LinkIsLink(s, t);
    Parts(s, t);
    NodeIsHeld(s, s.threads[t]);
    var s' := Advance(s, t);
    LinkShape(s, t);
    LinkChain(s, t);
    LinkMarks(s, t);
    LinkMemory(s, t);
    LinkFrame(s, t);
    LinkCalls(s, t);
    LinkOps(s, t);
    LinkCount(s, t);
    LinkApart(s, t);
    assert OpsBy(s, s', t);
    ThreadsKept(s, s', t);
    LinkLive(s, t);
    HeldIsNotLive(s, t);
    OnlyHolder(s, t, s.threads[t].frame.node);
    OwnersMoved(s, s', t, s.threads[t].frame.node);
    assert LagInv(s') by { LagBySwinging(s', t); }
  }

  lemma LinkIsLink<T>(s: State<T>, t: nat)
    requires Links(s, t)
    ensures t < |s.threads| && s.threads[t].frame.EnqLink?
  {
  }

  lemma LagBySwinging<T>(s: State<T>, t: nat)
    requires t < |s.threads| && Swinging(s, t)
    ensures LagInv(s)
  {
  }

  // ----- The CAS that swings the rear -----

  /** The rear moves to the node after it. */
  ghost predicate RearMoved<T>(s: State<T>, s': State<T>, t: nat) {
    && Moved(s, s', t) && s'.chain == s.chain && s'.head == s.head && s'.back == s.back + 1 < |s.chain|
    && s'.rear == s.chain[s.back + 1].addr && s'.rearId == s.chain[s.back + 1].mark
    && s'.front == s.front && s'.frontId == s.frontId && s'.ops == s.ops && s'.owned == s.owned
    && s'.next == s.next && s'.data == s.data && s'.lastMark == s.lastMark && s'.count == s.count
  }

  /** A helper that swings the rear swings it to the true successor, with its marker. */
  lemma HelpSwings<T>(s: State<T>, t: nat)
    requires EndsInv(s) && MarksInv(s) && t < |s.threads| && s.threads[t].frame.EnqHelp? && FrameInv(s, s.threads[t])
    requires RearHits(s, s.threads[t].frame.rear, s.threads[t].frame.id)
    ensures RearMoved(s, Advance(s, t), t)
  {
    var f := s.threads[t].frame;
    assert RearSeen(s, s.threads[t], f.rear, f.id) && HelpSeen(s, s.threads[t], f.rear, f.nxt);
  }

  /** So does the thread that linked the node. */
  lemma OwnerSwings<T>(s: State<T>, t: nat)
    requires EndsInv(s) && MarksInv(s) && t < |s.threads| && s.threads[t].frame.EnqSwing? && FrameInv(s, s.threads[t])
    requires RearHits(s, s.threads[t].frame.rear, s.threads[t].frame.id)
    ensures RearMoved(s, Advance(s, t), t)
  {
    var f := s.threads[t].frame;
    assert LinkedAt(s, s.threads[t], f.node, f.rear, f.id);
  }

  lemma SwingEnds<T>(s: State<T>, s': State<T>, t: nat)
    requires EndsInv(s) && OpsInv(s) && RearMoved(s, s', t)
    ensures EndsInv(s') && OpsInv(s') && LagInv(s') && Grows(s, s')
  {
  }

  lemma SwingFrame<T>(s: State<T>, t: nat)
    requires EndsInv(s) && t < |s.threads| && (s.threads[t].frame.EnqHelp? || s.threads[t].frame.EnqSwing?)
    requires RearHits(s, s.threads[t].frame.rear, s.threads[t].frame.id) && FrameInv(s, s.threads[t])
    ensures var s' := Advance(s, t); FrameInv(s', s'.threads[t])
    ensures SameRole(s, t, Advance(s, t).threads[t].frame, Advance(s, t).threads[t].hist)
  {
  }

  lemma SwingStep<T>(s: State<T>, t: nat)
    requires Inv(s) && t < |s.threads| && (s.threads[t].frame.EnqHelp? || s.threads[t].frame.EnqSwing?)
    requires RearHits(s, s.threads[t].frame.rear, s.threads[t].frame.id)
    ensures Inv(Advance(s, t))
  {
    hide EndsInv, ChainInv, MarksInv, MemoryInv, OwnerInv, LagInv, CountInv, OpsInv, ThreadsInv, FrameInv, CallsInv;
    hide Grows, RearHits, Advance;
    Parts(s, t);
    var s' := Advance(s, t);
    if s.threads[t].frame.EnqHelp? { HelpSwings(s, t); } else { OwnerSwings(s, t); }
    SwingEnds(s, s', t);
    SwingFrame(s, t);
    CallsSame(s, s', t);
    ChainKept(s, s');
    ThreadsKept(s, s', t);
    MarksKept(s, s', t);
    MemoryKept(s, s', t);
    OwnersKept(s, s', t);
    CountKept(s, s', t);
  }

  // ----- The CAS that advances the front -----

  /** A DeQ whose CAS succeeds takes the oldest value, and its node is the dummy no longer needed. */
  lemma TakesTheOldest<T>(s: State<T>, t: nat)
    requires EndsInv(s) && LagInv(s) && CountInv(s) && t < |s.threads| && s.threads[t].frame.DeqCas?
    requires FrameInv(s, s.threads[t]) && WithinWidths(s, Step(t))
    requires FrontHits(s, s.threads[t].frame.front, s.threads[t].frame.id)
    ensures s.head < s.back && s.threads[t].hist.ver == s.head
    ensures s.threads[t].frame.front == s.chain[s.head].addr
    ensures s.threads[t].frame.nxt == s.chain[s.head + 1].addr
    ensures s.threads[t].frame.value == s.chain[s.head + 1].value == Contents(s)[0]
  {
    var f := s.threads[t].frame;
    ReservedMeansBehind(s, t);
    assert FrontSeen(s, s.threads[t], f.front, f.id) && NextSeen(s, s.threads[t], f.front, f.nxt);
    CountWraps(0, s.threads[t].hist.ver, s.head);
  }

  predicate Takes<T>(s: State<T>, t: nat) {
    && t < |s.threads| && s.threads[t].frame.DeqCas?
    && FrontHits(s, s.threads[t].frame.front, s.threads[t].frame.id)
  }

  ghost predicate FrontMoved<T>(s: State<T>, s': State<T>, t: nat) {
    && Moved(s, s', t) && s'.chain == s.chain && s'.head == s.head + 1 <= s.back < |s.chain| && s'.back == s.back
    && s'.front == s.chain[s.head + 1].addr && s'.frontId == FrontIdOf(s.head + 1)
    && s'.rear == s.rear && s'.rearId == s.rearId && s'.owned == s.owned
    && s'.next == s.next && s'.data == s.data && s'.lastMark == s.lastMark && s'.count == s.count
    && s.threads[t].frame.DeqCas? && s'.threads[t].hist == s.threads[t].hist
    && s'.threads[t].frame == DeqFree(s.chain[s.head].addr, s.chain[s.head + 1].value)
    && s'.ops == s.ops + [Dequeued(t, s.chain[s.head + 1].value)]
  }

  lemma TakeShape<T>(s: State<T>, t: nat)
    requires EndsInv(s) && LagInv(s) && CountInv(s) && Takes(s, t)
    requires FrameInv(s, s.threads[t]) && WithinWidths(s, Step(t))
    ensures FrontMoved(s, Advance(s, t), t)
  {
    TakesTheOldest(s, t);
    CountWraps(0, s.head, s.head);
  }

  lemma TakeEnds<T>(s: State<T>, s': State<T>, t: nat)
    requires EndsInv(s) && ChainInv(s) && LagInv(s) && FrontMoved(s, s', t)
    ensures EndsInv(s') && ChainInv(s') && Grows(s, s') && FrameInv(s', s'.threads[t])
    ensures LagInv(s')
  {
    CellAt(s, s.head);
    forall i | s'.head <= i < |s'.chain| ensures CellInv(s', i) { assert CellInv(s, i); }
    if s.back + 1 != |s.chain| {
      var u :| 0 <= u < |s.threads| && Swinging(s, u);
      assert Swinging(s', u);
    }
  }

  lemma ReplayDequeued<T>(ops: seq<Op<T>>, t: nat, v: T)
    requires Replay(ops).Some? && Replay(ops).value != [] && Replay(ops).value[0] == v
    ensures Replay(ops + [Dequeued(t, v)]) == Some(Replay(ops).value[1..])
  {
    assert (ops + [Dequeued(t, v)])[..|ops|] == ops;
  }

  lemma ShorterContents<T>(s: State<T>, s': State<T>)
    requires s.head + 1 < |s.chain| && s'.head == s.head + 1 && s'.chain == s.chain
    ensures Contents(s) != [] && Contents(s)[0] == s.chain[s.head + 1].value && Contents(s') == Contents(s)[1..]
  {
    assert s.chain[s.head + 1..][1..] == s'.chain[s'.head + 1..];
  }

  lemma TakeOps<T>(s: State<T>, s': State<T>, t: nat)
    requires EndsInv(s) && OpsInv(s) && FrontMoved(s, s', t)
    ensures OpsInv(s') && Contents(s') == Contents(s)[1..]
  {
    hide EndsInv, Contents, Replay;
    ShorterContents(s, s');
    ReplayDequeued(s.ops, t, s.chain[s.head + 1].value);
  }

  lemma TakeHistory<T>(ops: seq<Op<T>>, t: nat, v: T)
    ensures EnqsBy(ops + [Dequeued(t, v)], t) == EnqsBy(ops, t)
    ensures DeqsBy(ops + [Dequeued(t, v)], t) == DeqsBy(ops, t) + [v]
  {
    var ops' := ops + [Dequeued(t, v)];
    assert ops'[..|ops'| - 1] == ops;
    assert EnqsBy(ops, t) + [] == EnqsBy(ops, t);
  }

  lemma TakeCalls<T>(s: State<T>, s': State<T>, t: nat)
    requires FrontMoved(s, s', t) && CallsInv(s, t)
    ensures CallsInv(s', t)
  {
    TakeHistory(s.ops, t, s.chain[s.head + 1].value);
    assert s.threads[t].hist.got + [] == s.threads[t].hist.got;
  }

  /** Of the nodes that were live, only the old front's is not any more. */
  lemma TakeLive<T>(s: State<T>, s': State<T>, t: nat)
    requires ChainInv(s) && FrontMoved(s, s', t)
    ensures var p := s.chain[s.head].addr;
      IsNode(p) && p in s.owned && Live(s, p) && !Live(s', p) && forall a :: a != p ==> (Live(s', a) <==> Live(s, a))
  {
    CellAt(s, s.head);
  }

  lemma LiveIsFree<T>(s: State<T>, p: Addr)
    requires OwnerInv(s) && Live(s, p) && p != NULL
    ensures forall u :: 0 <= u < |s.threads| ==> Held(s.threads[u].frame) != p
  {
  }

  lemma TakeCount<T>(s: State<T>, s': State<T>, t: nat)
    requires CountInv(s) && FrontMoved(s, s', t)
    ensures CountInv(s')
  {
    TallyMoved(s, s', t);
  }

  lemma TakeStep<T>(s: State<T>, t: nat)
    requires Inv(s) && Takes(s, t) && WithinWidths(s, Step(t))
    ensures Inv(Advance(s, t))
  {
    hide EndsInv, ChainInv, MarksInv, MemoryInv, OwnerInv, LagInv, CountInv, OpsInv, ThreadsInv, FrameInv, CallsInv;
    hide Grows, Advance;
    Parts(s, t);
    var s' := Advance(s, t);
    TakeShape(s, t);
    TakeEnds(s, s', t);
    TakeOps(s, s', t);
    TakeCalls(s, s', t);
    TakeCount(s, s', t);
    ThreadsKept(s, s', t);
    MarksKept(s, s', t);
    MemoryKept(s, s', t);
    TakeLive(s, s', t);
    LiveIsFree(s, s.chain[s.head].addr);
    OwnersMoved(s, s', t, s.chain[s.head].addr);
  }

  // ----- Every step, every run -----

  lemma EnqStep<T>(s: State<T>, t: nat)
    requires Inv(s) && t < |s.threads| && InEnq(s.threads[t].frame) && WithinWidths(s, Step(t))
    ensures Inv(Advance(s, t))
  {
    hide Inv;
    match s.threads[t].frame {
      case EnqCheck(_) => CheckStep(s, t);
      case EnqAlloc(_) =>
      case EnqData(_, _) => DataStep(s, t);
      case EnqDraw(_, _) => DrawStep(s, t);
      case EnqMark(_, _, _) => MarkStep(s, t);
      case EnqReadRear(_, _) => ReadRearStep(s, t);
      case EnqReadId(_, _, _) => ReadIdStep(s, t);
      case EnqLink(_, _, rear, id) => if Links(s, t) { LinkStep(s, t); } else { LinkMissStep(s, t); }
      case EnqHelpNext(_, _, _, _) => HelpNextStep(s, t);
      case EnqHelpMark(_, _, _, _, _) => HelpMarkStep(s, t);
      case EnqHelp(_, _, rear, id, _, _) => if RearHits(s, rear, id) { SwingStep(s, t); } else { HelpMissStep(s, t); }
      case EnqReadMark(_, _, _) => ReadMarkStep(s, t);
      case EnqSwing(_, rear, id, _) => if RearHits(s, rear, id) { SwingStep(s, t); } else { SwingMissStep(s, t); }
      case EnqCount => CountStep(s, t);
      case _ =>
    }
  }

  lemma DeqStep<T>(s: State<T>, t: nat)
    requires Inv(s) && t < |s.threads| && !InEnq(s.threads[t].frame) && WithinWidths(s, Step(t))
    ensures Inv(Advance(s, t))
  {
    hide Inv;
    match s.threads[t].frame {
      case DeqReserve => CountStep(s, t);
      case DeqRestore => CountStep(s, t);
      case DeqReadFront => ReadFrontStep(s, t);
      case DeqReadId(_) => ReadFrontIdStep(s, t);
      case DeqReadNext(_, _) => ReadNextStep(s, t);
      case DeqReadData(_, _, _) => ReadDataStep(s, t);
      case DeqCas(_, _, _, _) => if Takes(s, t) { TakeStep(s, t); } else { DeqMissStep(s, t); }
      case DeqFree(_, _) => FreeStep(s, t);
      case _ =>
    }
  }

  /** Every transition within the integer widths keeps the invariant. */
  lemma StepInv<T>(s: State<T>, l: Label<T>)
    requires Inv(s) && WithinWidths(s, l)
    ensures Inv(Exec(s, l))
  {
    hide Inv;
    match l {
      case CallEnQ(t, d) => if t < |s.threads| && s.threads[t].frame.Idle? { CallEnQStep(s, t, d); }
      case CallDeQ(t) => if t < |s.threads| && s.threads[t].frame.Idle? { CallDeQStep(s, t); }
      case Alloc(t, a) =>
        if t < |s.threads| && s.threads[t].frame.EnqAlloc? && IsNode(a) && a !in s.owned { AllocStep(s, t, a); }
      case Step(t) =>
        if t < |s.threads| { if InEnq(s.threads[t].frame) { EnqStep(s, t); } else { DeqStep(s, t); } }
    }
  }

  lemma {:induction false} RunInv<T>(s: State<T>, ls: seq<Label<T>>)
    requires Inv(s) && RunWithinWidths(s, ls)
    ensures Inv(Run(s, ls))
    decreases |ls|
  {
    if ls != [] {
      StepInv(s, ls[0]);
      RunInv(Exec(s, ls[0]), ls[1..]);
    }
  }
}
