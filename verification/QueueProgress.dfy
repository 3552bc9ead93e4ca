/**
 * Which calls of LockFreeQ return when their thread runs alone from any reachable state: every
 * EnQ that has its node, and exactly the granted DeQs whose front has not been recycled.
 */
module QueueProgress {
  import opened Common
  import opened Tallies
  import opened QueueMachine
  import opened QueueInvariant
  import opened QueueSteps
  import opened QueueTheorems

  function Steps<T>(t: nat, k: nat): seq<Label<T>> { if k == 0 then [] else [Step(t)] + Steps(t, k - 1) }

  ghost predicate IdleAfter<T>(s: State<T>, t: nat, k: nat) {
    var r := Run(s, Steps(t, k));
    t < |r.threads| && r.threads[t].frame.Idle?
  }

  ghost predicate Returns<T>(s: State<T>, t: nat) { exists k: nat :: IdleAfter(s, t, k) }

  /** Alone, thread t gets to the end of its call, with this chain and the front at this place. */
  ghost predicate ReturnsWith<T>(s: State<T>, t: nat, chain: seq<Cell<T>>, head: nat) {
    exists k: nat :: IdleAfter(s, t, k) && Run(s, Steps(t, k)).chain == chain && Run(s, Steps(t, k)).head == head
  }

  lemma AtOnce<T>(s: State<T>, t: nat)
    requires t < |s.threads| && s.threads[t].frame.Idle?
    ensures ReturnsWith(s, t, s.chain, s.head)
  {
    assert Run(s, Steps(t, 0)) == s;
    assert IdleAfter(s, t, 0);
  }

  lemma Later<T>(s: State<T>, t: nat, chain: seq<Cell<T>>, head: nat)
    requires ReturnsWith(Exec(s, Step(t)), t, chain, head)
    ensures ReturnsWith(s, t, chain, head)
  {
    var s' := Exec(s, Step(t));
    var k: nat :| IdleAfter(s', t, k) && Run(s', Steps(t, k)).chain == chain && Run(s', Steps(t, k)).head == head;
    assert Steps<T>(t, k + 1)[0] == Step(t) && Steps<T>(t, k + 1)[1..] == Steps(t, k);
    assert Run(s, Steps(t, k + 1)) == Run(s', Steps(t, k));
    assert IdleAfter(s, t, k + 1);
  }

  // ----- DeQ -----

  /** The front that DeQ read has been recycled, and is the last node or not linked yet. */
  predicate Stuck<T>(s: State<T>, t: nat)
    requires t < |s.threads|
  {
    var f := s.threads[t].frame;
    (f.DeqReadId? || f.DeqReadNext?) && f.front in s.next && s.next[f.front] >= KERNEL_ADDRESS
  }

  /** The ID that DeQ holds has not come back by wrapping around. */
  predicate Window<T>(s: State<T>, t: nat)
    requires t < |s.threads|
  {
    var th := s.threads[t];
    th.frame.DeqReadNext? || th.frame.DeqReadData? || th.frame.DeqCas? ==>
      s.head <= th.hist.ver || (s.head - th.hist.ver) % MOD64 != 0
  }

  lemma DeqStepInv<T>(s: State<T>, t: nat)
    requires Inv(s) && t < |s.threads| && !s.threads[t].frame.EnqDraw? && !s.threads[t].frame.EnqLink? && Window(s, t)
    ensures Inv(Exec(s, Step(t)))
  {
    StepInv(s, Step(t));
  }

  lemma NotCrashedNow<T>(s: State<T>, t: nat)
    requires Inv(s) && t < |s.threads|
    ensures !s.threads[t].frame.Crashed?
  {
    hide EndsInv, ChainInv, MarksInv, MemoryInv, OwnerInv, LagInv, CountInv, OpsInv, ThreadsInv, CallsInv, FrameInv;
    Parts(s, t);
    NotCrashed(s, s.threads[t]);
  }

  lemma FreeReturns<T>(s: State<T>, t: nat)
    requires Inv(s) && t < |s.threads| && s.threads[t].frame.DeqFree?
    ensures ReturnsWith(s, t, s.chain, s.head)
  {
    hide Inv, ReturnsWith;
    var s' := Exec(s, Step(t));
    DeqStepInv(s, t);
    NotCrashedNow(s', t);
    AtOnce(s', t);
    Later(s, t, s.chain, s.head);
  }

  lemma HitReturns<T>(s: State<T>, t: nat)
    requires Inv(s) && Takes(s, t) && Window(s, t)
    ensures ReturnsWith(s, t, s.chain, s.head + 1)
  {
    hide Inv, ReturnsWith;
    DeqStepInv(s, t);
    FreeReturns(Exec(s, Step(t)), t);
    Later(s, t, s.chain, s.head + 1);
  }

  /** From a read of the true front, nothing can go wrong. */
  lemma FreshDataReturns<T>(s: State<T>, t: nat)
    requires Inv(s) && t < |s.threads| && s.threads[t].frame.DeqReadData? && s.threads[t].hist.ver == s.head
    requires FrontHits(s, s.threads[t].frame.front, s.threads[t].frame.id)
    ensures ReturnsWith(s, t, s.chain, s.head + 1)
  {
    hide Inv, ReturnsWith;
    var s' := Exec(s, Step(t));
    DeqStepInv(s, t);
    NotCrashedNow(s', t);
    HitReturns(s', t);
    Later(s, t, s.chain, s.head + 1);
  }

  lemma TrueFrontHasNext<T>(s: State<T>, t: nat)
    requires Inv(s) && t < |s.threads| && KindOf(s.threads[t].frame) == Reserved
    ensures s.front in s.next && s.next[s.front] < KERNEL_ADDRESS
  {
    hide EndsInv, ChainInv, MarksInv, MemoryInv, OwnerInv, LagInv, CountInv, OpsInv, ThreadsInv, CallsInv, FrameInv;
    Parts(s, t);
    ReservedMeansBehind(s, t);
    FrontHasNext(s);
  }

  lemma FreshNextReturns<T>(s: State<T>, t: nat)
    requires Inv(s) && t < |s.threads| && s.threads[t].frame.DeqReadNext? && s.threads[t].hist.ver == s.head
    requires FrontHits(s, s.threads[t].frame.front, s.threads[t].frame.id)
    ensures ReturnsWith(s, t, s.chain, s.head + 1)
  {
    hide Inv, ReturnsWith;
    TrueFrontHasNext(s, t);
    var s' := Exec(s, Step(t));
    DeqStepInv(s, t);
    NotCrashedNow(s', t);
    FreshDataReturns(s', t);
    Later(s, t, s.chain, s.head + 1);
  }

  /** A CAS that fails reloads the true front. */
  lemma DeqCasReturns<T>(s: State<T>, t: nat)
    requires Inv(s) && t < |s.threads| && s.threads[t].frame.DeqCas? && Window(s, t)
    ensures ReturnsWith(s, t, s.chain, s.head + 1)
  {
    hide Inv, ReturnsWith;
    if Takes(s, t) {
      HitReturns(s, t);
    } else {
      DeqStepInv(s, t);
      FreshNextReturns(Exec(s, Step(t)), t);
      Later(s, t, s.chain, s.head + 1);
    }
  }

  lemma DataReturns<T>(s: State<T>, t: nat)
    requires Inv(s) && t < |s.threads| && s.threads[t].frame.DeqReadData? && Window(s, t)
    ensures ReturnsWith(s, t, s.chain, s.head + 1)
  {
    hide Inv, ReturnsWith;
    var s' := Exec(s, Step(t));
    DeqStepInv(s, t);
    NotCrashedNow(s', t);
    DeqCasReturns(s', t);
    Later(s, t, s.chain, s.head + 1);
  }

  lemma NextReturns<T>(s: State<T>, t: nat)
    requires Inv(s) && t < |s.threads| && s.threads[t].frame.DeqReadNext? && Window(s, t) && !Stuck(s, t)
    ensures ReturnsWith(s, t, s.chain, s.head + 1)
  {
    hide Inv, ReturnsWith;
    var s' := Exec(s, Step(t));
    DeqStepInv(s, t);
    NotCrashedNow(s', t);
    DataReturns(s', t);
    Later(s, t, s.chain, s.head + 1);
  }

  lemma IdReturns<T>(s: State<T>, t: nat)
    requires Inv(s) && t < |s.threads| && s.threads[t].frame.DeqReadId? && !Stuck(s, t)
    ensures ReturnsWith(s, t, s.chain, s.head + 1)
  {
    hide Inv, ReturnsWith;
    DeqStepInv(s, t);
    NextReturns(Exec(s, Step(t)), t);
    Later(s, t, s.chain, s.head + 1);
  }

  lemma FrontReturns<T>(s: State<T>, t: nat)
    requires Inv(s) && t < |s.threads| && s.threads[t].frame.DeqReadFront?
    ensures ReturnsWith(s, t, s.chain, s.head + 1)
  {
    hide Inv, ReturnsWith;
    TrueFrontHasNext(s, t);
    DeqStepInv(s, t);
    IdReturns(Exec(s, Step(t)), t);
    Later(s, t, s.chain, s.head + 1);
  }

  lemma {:induction false} StaysPut<T>(s: State<T>, t: nat, k: nat)
    requires Exec(s, Step(t)) == s
    ensures Run(s, Steps(t, k)) == s
  {
    if k > 0 { StaysPut(s, t, k - 1); }
  }

  /** A stuck DeQ does not reread the front: no number of its own steps ends its call. */
  lemma StuckForEver<T>(s: State<T>, t: nat, k: nat)
    requires t < |s.threads| && Stuck(s, t)
    ensures !IdleAfter(s, t, k)
  {
    if s.threads[t].frame.DeqReadNext? {
      StaysPut(s, t, k);
    } else if k > 0 {
      var s' := Exec(s, Step(t));
      assert Steps<T>(t, k)[0] == Step(t) && Steps<T>(t, k)[1..] == Steps(t, k - 1);
      StaysPut(s', t, k - 1);
    }
  }

  lemma DeqReturns<T>(s: State<T>, t: nat)
    requires Inv(s) && t < |s.threads| && KindOf(s.threads[t].frame) == Reserved && Window(s, t) && !Stuck(s, t)
    ensures ReturnsWith(s, t, s.chain, s.head + 1)
  {
    hide Inv, ReturnsWith;
    match s.threads[t].frame {
      case DeqReadFront => FrontReturns(s, t);
      case DeqReadId(_) => IdReturns(s, t);
      case DeqReadNext(_, _) => NextReturns(s, t);
      case DeqReadData(_, _, _) => DataReturns(s, t);
      case DeqCas(_, _, _, _) => DeqCasReturns(s, t);
      case _ =>
    }
  }

  /**
   * A granted DeQ running alone returns exactly when it is not about to follow a recycled front
   * onto an end marker; when it returns it has taken one value.
   */
  lemma DeqReturnsExactly<T>(s: State<T>, t: nat)
    requires Inv(s) && t < |s.threads| && KindOf(s.threads[t].frame) == Reserved && Window(s, t)
    ensures Returns(s, t) <==> !Stuck(s, t)
    ensures !Stuck(s, t) ==> ReturnsWith(s, t, s.chain, s.head + 1)
  {
    if Stuck(s, t) {
      forall k: nat ensures !IdleAfter(s, t, k) { StuckForEver(s, t, k); }
    } else {
      DeqReturns(s, t);
    }
  }

  // ----- EnQ -----

  /** A 32-bit count has room for one more node. */
  predicate Room<T>(s: State<T>) { |s.chain| - s.head < HALF32 }

  lemma EnqStepInv<T>(s: State<T>, t: nat)
    requires Inv(s) && t < |s.threads| && !s.threads[t].frame.DeqCas? && Room(s)
    requires s.threads[t].frame.EnqDraw? ==> s.lastMark < HALF64 - 1
    ensures Inv(Exec(s, Step(t)))
  {
    StepInv(s, Step(t));
  }

  lemma SwungReturns<T>(s: State<T>, t: nat)
    requires t < |s.threads| && s.threads[t].frame.EnqCount?
    ensures ReturnsWith(s, t, s.chain, s.head)
  {
    hide ReturnsWith;
    AtOnce(Exec(s, Step(t)), t);
    Later(s, t, s.chain, s.head);
  }

  lemma SwingReturns<T>(s: State<T>, t: nat)
    requires t < |s.threads| && s.threads[t].frame.EnqSwing?
    ensures ReturnsWith(s, t, s.chain, s.head)
  {
    hide ReturnsWith;
    SwungReturns(Exec(s, Step(t)), t);
    Later(s, t, s.chain, s.head);
  }

  lemma LinkKnowsNode<T>(s: State<T>, t: nat)
    requires Inv(s) && t < |s.threads| && s.threads[t].frame.EnqReadMark?
    ensures s.threads[t].frame.node in s.next
  {
    hide EndsInv, ChainInv, MarksInv, MemoryInv, OwnerInv, LagInv, CountInv, OpsInv, ThreadsInv, CallsInv;
    Parts(s, t);
  }

  lemma LinkedReturns<T>(s: State<T>, t: nat)
    requires Inv(s) && t < |s.threads| && s.threads[t].frame.EnqReadMark?
    ensures ReturnsWith(s, t, s.chain, s.head)
  {
    hide Inv, ReturnsWith;
    LinkKnowsNode(s, t);
    SwingReturns(Exec(s, Step(t)), t);
    Later(s, t, s.chain, s.head);
  }

  /** The chain once the node of thread t has been linked. */
  function Appended<T>(s: State<T>, t: nat): seq<Cell<T>>
    requires t < |s.threads| && Building(s.threads[t].frame)
  {
    var th := s.threads[t];
    s.chain + [Cell(th.frame.node, th.frame.d, if HasMark(th.frame) then th.hist.mark else Inc64(s.lastMark))]
  }

  lemma LinkReturns<T>(s: State<T>, t: nat)
    requires Inv(s) && Links(s, t) && Room(s)
    ensures ReturnsWith(s, t, Appended(s, t), s.head)
  {
    hide Inv, ReturnsWith;
    EnqStepInv(s, t);
    LinkedReturns(Exec(s, Step(t)), t);
    Later(s, t, Appended(s, t), s.head);
  }

  /** Where the rear does not lag, its ID is the marker in its node. */
  lemma RearMarker<T>(s: State<T>, t: nat)
    requires Inv(s) && t < |s.threads|
    ensures s.back < |s.chain| && s.rear in s.next
    ensures if s.back + 1 == |s.chain| then s.next[s.rear] == s.rearId
      else s.back + 2 == |s.chain| && 0 <= s.next[s.rear] < KERNEL_ADDRESS <= s.rearId
  {
    hide MemoryInv, OwnerInv, LagInv, CountInv, OpsInv, ThreadsInv, CallsInv, FrameInv;
    Parts(s, t);
    CellAt(s, s.back);
    if s.back + 1 < |s.chain| { CellAt(s, s.back + 1); }
  }

  lemma FreshReadIdReturns<T>(s: State<T>, t: nat)
    requires Inv(s) && t < |s.threads| && s.threads[t].frame.EnqReadId? && s.threads[t].frame.rear == s.rear
    requires s.back + 1 == |s.chain| && Room(s)
    ensures ReturnsWith(s, t, Appended(s, t), s.head)
  {
    hide Inv, ReturnsWith;
    RearMarker(s, t);
    var s' := Exec(s, Step(t));
    EnqStepInv(s, t);
    NotCrashedNow(s', t);
    LinkReturns(s', t);
    Later(s, t, Appended(s, t), s.head);
  }

  /** One turn of the loop links the node where the rear does not lag. */
  lemma FreshReadRearReturns<T>(s: State<T>, t: nat)
    requires Inv(s) && t < |s.threads| && s.threads[t].frame.EnqReadRear? && s.back + 1 == |s.chain| && Room(s)
    ensures ReturnsWith(s, t, Appended(s, t), s.head)
  {
    hide Inv, ReturnsWith;
    EnqStepInv(s, t);
    FreshReadIdReturns(Exec(s, Step(t)), t);
    Later(s, t, Appended(s, t), s.head);
  }

  lemma LagIsOne<T>(s: State<T>)
    requires Inv(s)
    ensures s.back + 1 == |s.chain| || s.back + 2 == |s.chain|
  {
  }

  // An EnQ that finds the rear lagging swings it and starts over.

  lemma LagHelpReturns<T>(s: State<T>, t: nat)
    requires Inv(s) && t < |s.threads| && Room(s)
    requires s.threads[t].frame.EnqHelp? && RearHits(s, s.threads[t].frame.rear, s.threads[t].frame.id)
    requires s.back + 2 == |s.chain|
    ensures ReturnsWith(s, t, Appended(s, t), s.head)
  {
    hide Inv, ReturnsWith;
    var s' := Exec(s, Step(t));
    EnqStepInv(s, t);
    FreshReadRearReturns(s', t);
    Later(s, t, Appended(s, t), s.head);
  }

  lemma LagHelpMarkReturns<T>(s: State<T>, t: nat)
    requires Inv(s) && t < |s.threads| && Room(s)
    requires s.threads[t].frame.EnqHelpMark? && RearHits(s, s.threads[t].frame.rear, s.threads[t].frame.id)
    requires s.back + 2 == |s.chain|
    ensures ReturnsWith(s, t, Appended(s, t), s.head)
  {
    hide Inv, ReturnsWith;
    var s' := Exec(s, Step(t));
    EnqStepInv(s, t);
    NotCrashedNow(s', t);
    LagHelpReturns(s', t);
    Later(s, t, Appended(s, t), s.head);
  }

  lemma LagHelpNextReturns<T>(s: State<T>, t: nat)
    requires Inv(s) && t < |s.threads| && Room(s)
    requires s.threads[t].frame.EnqHelpNext? && RearHits(s, s.threads[t].frame.rear, s.threads[t].frame.id)
    requires s.back + 2 == |s.chain|
    ensures ReturnsWith(s, t, Appended(s, t), s.head)
  {
    hide Inv, ReturnsWith;
    RearMarker(s, t);
    var s' := Exec(s, Step(t));
    EnqStepInv(s, t);
    NotCrashedNow(s', t);
    LagHelpMarkReturns(s', t);
    Later(s, t, Appended(s, t), s.head);
  }

  lemma LagLinkReturns<T>(s: State<T>, t: nat)
    requires Inv(s) && t < |s.threads| && Room(s)
    requires s.threads[t].frame.EnqLink? && RearHits(s, s.threads[t].frame.rear, s.threads[t].frame.id)
    requires s.back + 2 == |s.chain|
    ensures ReturnsWith(s, t, Appended(s, t), s.head)
  {
    hide Inv, ReturnsWith;
    RearMarker(s, t);
    var s' := Exec(s, Step(t));
    EnqStepInv(s, t);
    NotCrashedNow(s', t);
    LagHelpNextReturns(s', t);
    Later(s, t, Appended(s, t), s.head);
  }

  lemma LagReadIdReturns<T>(s: State<T>, t: nat)
    requires Inv(s) && t < |s.threads| && Room(s)
    requires s.threads[t].frame.EnqReadId? && s.threads[t].frame.rear == s.rear
    requires s.back + 2 == |s.chain|
    ensures ReturnsWith(s, t, Appended(s, t), s.head)
  {
    hide Inv, ReturnsWith;
    var s' := Exec(s, Step(t));
    EnqStepInv(s, t);
    NotCrashedNow(s', t);
    LagLinkReturns(s', t);
    Later(s, t, Appended(s, t), s.head);
  }

  /** At the start of a turn of its loop, whether or not the rear lags. */
  lemma ReadRearReturns<T>(s: State<T>, t: nat)
    requires Inv(s) && t < |s.threads| && Room(s)
    requires s.threads[t].frame.EnqReadRear?
    ensures ReturnsWith(s, t, Appended(s, t), s.head)
  {
    hide Inv, ReturnsWith;
    LagIsOne(s);
    if s.back + 1 == |s.chain| {
      FreshReadRearReturns(s, t);
    } else {
      EnqStepInv(s, t);
      LagReadIdReturns(Exec(s, Step(t)), t);
      Later(s, t, Appended(s, t), s.head);
    }
  }

  // Wherever else in the loop it is, it links its node or gets to the start of a turn.

  lemma HelpReturns<T>(s: State<T>, t: nat)
    requires Inv(s) && t < |s.threads| && Room(s)
    requires s.threads[t].frame.EnqHelp?
    ensures ReturnsWith(s, t, Appended(s, t), s.head)
  {
    hide Inv, ReturnsWith;
    var s' := Exec(s, Step(t));
    EnqStepInv(s, t);
    ReadRearReturns(s', t);
    Later(s, t, Appended(s, t), s.head);
  }

  lemma HelpMarkReturns<T>(s: State<T>, t: nat)
    requires Inv(s) && t < |s.threads| && Room(s)
    requires s.threads[t].frame.EnqHelpMark?
    ensures ReturnsWith(s, t, Appended(s, t), s.head)
  {
    hide Inv, ReturnsWith;
    var s' := Exec(s, Step(t));
    EnqStepInv(s, t);
    NotCrashedNow(s', t);
    HelpReturns(s', t);
    Later(s, t, Appended(s, t), s.head);
  }

  lemma HelpNextReturns<T>(s: State<T>, t: nat)
    requires Inv(s) && t < |s.threads| && Room(s)
    requires s.threads[t].frame.EnqHelpNext?
    ensures ReturnsWith(s, t, Appended(s, t), s.head)
  {
    hide Inv, ReturnsWith;
    var s' := Exec(s, Step(t));
    EnqStepInv(s, t);
    NotCrashedNow(s', t);
    if s'.threads[t].frame.EnqReadRear? { ReadRearReturns(s', t); } else { HelpMarkReturns(s', t); }
    Later(s, t, Appended(s, t), s.head);
  }

  lemma TryLinkReturns<T>(s: State<T>, t: nat)
    requires Inv(s) && t < |s.threads| && Room(s)
    requires s.threads[t].frame.EnqLink?
    ensures ReturnsWith(s, t, Appended(s, t), s.head)
  {
    hide Inv, ReturnsWith;
    if Links(s, t) {
      LinkReturns(s, t);
    } else {
      var s' := Exec(s, Step(t));
      EnqStepInv(s, t);
      NotCrashedNow(s', t);
      HelpNextReturns(s', t);
      Later(s, t, Appended(s, t), s.head);
    }
  }

  lemma ReadIdReturns<T>(s: State<T>, t: nat)
    requires Inv(s) && t < |s.threads| && Room(s)
    requires s.threads[t].frame.EnqReadId?
    ensures ReturnsWith(s, t, Appended(s, t), s.head)
  {
    hide Inv, ReturnsWith;
    var s' := Exec(s, Step(t));
    EnqStepInv(s, t);
    NotCrashedNow(s', t);
    TryLinkReturns(s', t);
    Later(s, t, Appended(s, t), s.head);
  }

  // Before the loop.

  lemma MarkIsOwn<T>(s: State<T>, t: nat)
    requires Inv(s) && t < |s.threads| && s.threads[t].frame.EnqMark?
    ensures s.threads[t].frame.mark == s.threads[t].hist.mark
  {
    hide EndsInv, ChainInv, MarksInv, MemoryInv, OwnerInv, LagInv, CountInv, OpsInv, ThreadsInv, CallsInv;
    Parts(s, t);
  }

  lemma MarkReturns<T>(s: State<T>, t: nat)
    requires Inv(s) && t < |s.threads| && Room(s)
    requires s.threads[t].frame.EnqMark?
    ensures ReturnsWith(s, t, Appended(s, t), s.head)
  {
    hide Inv, ReturnsWith;
    MarkIsOwn(s, t);
    var s' := Exec(s, Step(t));
    EnqStepInv(s, t);
    ReadRearReturns(s', t);
    Later(s, t, Appended(s, t), s.head);
  }

  lemma DrawReturns<T>(s: State<T>, t: nat)
    requires Inv(s) && t < |s.threads| && Room(s)
    requires s.threads[t].frame.EnqDraw? && s.lastMark < HALF64 - 1
    ensures ReturnsWith(s, t, Appended(s, t), s.head)
  {
    hide Inv, ReturnsWith;
    var s' := Exec(s, Step(t));
    EnqStepInv(s, t);
    MarkReturns(s', t);
    Later(s, t, Appended(s, t), s.head);
  }

  lemma WriteDataReturns<T>(s: State<T>, t: nat)
    requires Inv(s) && t < |s.threads| && Room(s)
    requires s.threads[t].frame.EnqData? && s.lastMark < HALF64 - 1
    ensures ReturnsWith(s, t, Appended(s, t), s.head)
  {
    hide Inv, ReturnsWith;
    var s' := Exec(s, Step(t));
    EnqStepInv(s, t);
    DrawReturns(s', t);
    Later(s, t, Appended(s, t), s.head);
  }

  /**
   * An EnQ that has its node, running alone, always returns with its value appended, from any
   * point of its loop and whether or not another thread has left the rear behind.
   */
  lemma EnqReturns<T>(s: State<T>, t: nat)
    requires Inv(s) && t < |s.threads| && Building(s.threads[t].frame) && Room(s)
    requires HasMark(s.threads[t].frame) || s.lastMark < HALF64 - 1
    ensures ReturnsWith(s, t, Appended(s, t), s.head)
  {
    hide Inv, ReturnsWith;
    match s.threads[t].frame {
      case EnqData(_, _) => WriteDataReturns(s, t);
      case EnqDraw(_, _) => DrawReturns(s, t);
      case EnqMark(_, _, _) => MarkReturns(s, t);
      case EnqReadRear(_, _) => ReadRearReturns(s, t);
      case EnqReadId(_, _, _) => ReadIdReturns(s, t);
      case EnqLink(_, _, _, _) => TryLinkReturns(s, t);
      case EnqHelpNext(_, _, _, _) => HelpNextReturns(s, t);
      case EnqHelpMark(_, _, _, _, _) => HelpMarkReturns(s, t);
      case EnqHelp(_, _, _, _, _, _) => HelpReturns(s, t);
      case _ =>
    }
  }

  /** And so does one that has linked it. */
  lemma EnqAfterLinkReturns<T>(s: State<T>, t: nat)
    requires Inv(s) && t < |s.threads| && KindOf(s.threads[t].frame) == Uncounted
    ensures ReturnsWith(s, t, s.chain, s.head)
  {
    hide Inv, ReturnsWith;
    match s.threads[t].frame {
      case EnqReadMark(_, _, _) => LinkedReturns(s, t);
      case EnqSwing(_, _, _, _) => SwingReturns(s, t);
      case EnqCount => SwungReturns(s, t);
      case _ =>
    }
  }
}
