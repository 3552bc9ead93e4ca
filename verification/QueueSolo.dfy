/**
 * Calls of LockFreeQ that run without interference, and a run in which a DeQ spins for ever
 * although the queue is not empty.
 */
module QueueSolo {
  import opened Common
  import opened Tallies
  import opened QueueMachine
  import opened QueueInvariant
  import opened QueueSteps
  import opened QueueTheorems
  import opened QueueProgress

  ghost predicate Reaches<T>(s: State<T>, ls: seq<Label<T>>, s': State<T>) {
    s' == Run(s, ls) && RunWithinWidths(s, ls)
  }

  lemma {:induction false} RunAppend<T>(s: State<T>, a: seq<Label<T>>, b: seq<Label<T>>)
    ensures Run(s, a + b) == Run(Run(s, a), b)
    ensures RunWithinWidths(s, a + b) == (RunWithinWidths(s, a) && RunWithinWidths(Run(s, a), b))
    decreases |a|
  {
    if a == [] {
      assert a + b == b;
    } else {
      assert (a + b)[0] == a[0] && (a + b)[1..] == a[1..] + b;
      RunAppend(Exec(s, a[0]), a[1..], b);
    }
  }

  lemma Then<T>(s: State<T>, a: seq<Label<T>>, m: State<T>, b: seq<Label<T>>, e: State<T>)
    requires Reaches(s, a, m) && Reaches(m, b, e)
    ensures Reaches(s, a + b, e)
  {
    RunAppend(s, a, b);
  }

  lemma One<T>(s: State<T>, l: Label<T>)
    requires WithinWidths(s, l)
    ensures Reaches(s, [l], Exec(s, l))
  {
    assert [l][1..] == [];
  }

  /** Extends a run by one label. */
  lemma More<T>(s: State<T>, ls: seq<Label<T>>, m: State<T>, l: Label<T>) returns (ls': seq<Label<T>>, m': State<T>)
    requires Reaches(s, ls, m) && WithinWidths(m, l)
    ensures Reaches(s, ls', m') && m' == Exec(m, l)
  {
    m' := Exec(m, l);
    One(m, l);
    Then(s, ls, m, [l], m');
    ls' := ls + [l];
  }

  lemma Nothing<T>(s: State<T>)
    ensures Reaches(s, [], s)
  {
  }

  ghost predicate OthersSame<T>(s: State<T>, s': State<T>, t: nat) {
    |s'.threads| == |s.threads| && forall u :: 0 <= u < |s.threads| && u != t ==> s'.threads[u] == s.threads[u]
  }

  /** The queue, its ends and its count are as they were. */
  ghost predicate Untouched<T>(s: State<T>, s': State<T>, t: nat) {
    && OthersSame(s, s', t) && t < |s.threads|
    && s'.chain == s.chain && s'.head == s.head && s'.back == s.back && s'.maxCount == s.maxCount
    && s'.front == s.front && s'.frontId == s.frontId && s'.rear == s.rear && s'.rearId == s.rearId
  }

  /** EnQ alone, up to the allocation. */
  lemma EnqStart<T>(s: State<T>, t: nat, d: T, a: Addr) returns (ls: seq<Label<T>>, s': State<T>)
    requires t < |s.threads| && s.threads[t].frame.Idle? && s.count <= s.maxCount && IsNode(a) && a !in s.owned
    ensures Reaches(s, ls, s') && Untouched(s, s', t) && s'.count == s.count && s'.owned == s.owned + {a}
    ensures s'.threads[t].frame == EnqData(d, a) && s'.lastMark == s.lastMark
    ensures s'.threads[t].hist.got == s.threads[t].hist.got
    ensures forall b :: b in s.next ==> b in s'.next && s'.next[b] == s.next[b]
  {
    hide Reaches, Run, AdvanceDeq;
    Nothing(s);
    ls, s' := More(s, [], s, CallEnQ(t, d));
    ls, s' := More(s, ls, s', Step(t));
    ls, s' := More(s, ls, s', Alloc(t, a));
  }

  /** The write of the data and the draw of the marker. */
  lemma EnqDraws<T>(s: State<T>, t: nat) returns (ls: seq<Label<T>>, s': State<T>)
    requires t < |s.threads| && s.threads[t].frame.EnqData? && KERNEL_ADDRESS <= s.lastMark < HALF64 - 1
    ensures Reaches(s, ls, s') && Untouched(s, s', t) && s'.count == s.count && s'.owned == s.owned
    ensures s'.threads[t].frame == EnqMark(s.threads[t].frame.d, s.threads[t].frame.node, s'.lastMark)
    ensures s'.lastMark == s.lastMark + 1 == s'.threads[t].hist.mark && s'.next == s.next
    ensures s'.threads[t].hist.got == s.threads[t].hist.got
  {
    hide Reaches, Run, AdvanceDeq;
    Nothing(s);
    ls, s' := More(s, [], s, Step(t));
    ls, s' := More(s, ls, s', Step(t));
  }

  /** From the allocation to the end of the writes to the node. */
  lemma EnqWrites<T>(s: State<T>, t: nat) returns (ls: seq<Label<T>>, s': State<T>)
    requires t < |s.threads| && s.threads[t].frame.EnqData? && KERNEL_ADDRESS <= s.lastMark < HALF64 - 1
    ensures Reaches(s, ls, s') && Untouched(s, s', t) && s'.count == s.count && s'.owned == s.owned
    ensures s'.threads[t].frame == EnqReadRear(s.threads[t].frame.d, s.threads[t].frame.node)
    ensures s'.lastMark == s.lastMark + 1 == s'.threads[t].hist.mark
    ensures s'.threads[t].hist.got == s.threads[t].hist.got
    ensures forall b :: b in s.next && b != s.threads[t].frame.node ==> b in s'.next && s'.next[b] == s.next[b]
  {
    hide Reaches, Run, AdvanceDeq;
    var l1, s1 := EnqDraws(s, t);
    ls, s' := More(s, l1, s1, Step(t));
  }

  /** From there to the CAS on _Next. */
  lemma EnqReads<T>(s: State<T>, t: nat) returns (ls: seq<Label<T>>, s': State<T>)
    requires t < |s.threads| && s.threads[t].frame.EnqReadRear? && s.rear != s.threads[t].frame.node
    ensures Reaches(s, ls, s') && Untouched(s, s', t) && s'.count == s.count && s'.owned == s.owned
    ensures s'.threads[t].frame == EnqLink(s.threads[t].frame.d, s.threads[t].frame.node, s.rear, s.rearId)
    ensures s'.threads[t].hist == s.threads[t].hist.(seen := s.back)
    ensures s'.next == s.next && s'.lastMark == s.lastMark
  {
    hide Reaches, Run, AdvanceDeq;
    Nothing(s);
    ls, s' := More(s, [], s, Step(t));
    ls, s' := More(s, ls, s', Step(t));
  }

  /** The link and the read of the node's own marker. */
  lemma EnqLinks<T>(s: State<T>, t: nat) returns (ls: seq<Label<T>>, s': State<T>)
    requires t < |s.threads| && s.threads[t].frame.EnqLink? && |s.chain| - s.head < HALF32
    requires var f := s.threads[t].frame;
      f.rear in s.next && s.next[f.rear] == f.id && f.node in s.next && f.node != f.rear
    ensures Reaches(s, ls, s') && OthersSame(s, s', t) && s'.owned == s.owned && s'.count == s.count
    ensures var (f, h) := (s.threads[t].frame, s.threads[t].hist);
      && s'.chain == s.chain + [Cell(f.node, f.d, h.mark)] && s'.back == s.back && s'.head == s.head
      && s'.front == s.front && s'.frontId == s.frontId && s'.rear == s.rear && s'.rearId == s.rearId
      && s'.threads[t].frame == EnqSwing(f.node, f.rear, f.id, s.next[f.node]) && s'.threads[t].hist.got == h.got
    ensures s'.lastMark == s.lastMark && s'.maxCount == s.maxCount
  {
    hide Reaches, Run, AdvanceDeq;
    Nothing(s);
    ls, s' := More(s, [], s, Step(t));
    ls, s' := More(s, ls, s', Step(t));
  }

  /** The swing of the rear and the count. */
  lemma EnqFinish<T>(s: State<T>, t: nat) returns (ls: seq<Label<T>>, s': State<T>)
    requires t < |s.threads| && s.threads[t].frame.EnqSwing? && s.count < HALF32 - 1
    requires RearHits(s, s.threads[t].frame.rear, s.threads[t].frame.id)
    ensures Reaches(s, ls, s') && OthersSame(s, s', t) && s'.owned == s.owned && s'.count == s.count + 1
    ensures s'.chain == s.chain && s'.back == s.back + 1 && s'.head == s.head
    ensures s'.front == s.front && s'.frontId == s.frontId && s'.threads[t].frame.Idle?
    ensures s'.threads[t].hist == s.threads[t].hist && s'.lastMark == s.lastMark && s'.maxCount == s.maxCount
  {
    hide Reaches, Run, AdvanceDeq;
    Nothing(s);
    ls, s' := More(s, [], s, Step(t));
    ls, s' := More(s, ls, s', Step(t));
  }

  /** EnQ alone, up to its CAS on _Next. */
  lemma EnqPrefix<T>(s: State<T>, t: nat, d: T, a: Addr) returns (ls: seq<Label<T>>, s': State<T>)
    requires t < |s.threads| && s.threads[t].frame.Idle? && s.count <= s.maxCount
    requires IsNode(a) && a !in s.owned && s.rear != a && KERNEL_ADDRESS <= s.lastMark < HALF64 - 1
    ensures Reaches(s, ls, s') && Untouched(s, s', t) && s'.count == s.count && s'.owned == s.owned + {a}
    ensures s'.threads[t].frame == EnqLink(d, a, s.rear, s.rearId)
    ensures s'.lastMark == s.lastMark + 1 == s'.threads[t].hist.mark
    ensures s'.threads[t].hist.got == s.threads[t].hist.got
    ensures forall b :: b in s.next && b != a ==> b in s'.next && s'.next[b] == s.next[b]
  {
    hide Reaches, Run, Exec;
    var l1, s1 := EnqStart(s, t, d, a);
    var l2, s2 := EnqWrites(s1, t);
    Then(s, l1, s1, l2, s2);
    var l3, s3 := EnqReads(s2, t);
    Then(s, l1 + l2, s2, l3, s3);
    ls, s' := l1 + l2 + l3, s3;
  }

  /** A whole EnQ alone, on a queue whose rear does not lag. */
  lemma SoloEnq<T>(s: State<T>, t: nat, d: T, a: Addr) returns (ls: seq<Label<T>>, s': State<T>)
    requires Inv(s) && t < |s.threads| && s.threads[t].frame.Idle? && s.back + 1 == |s.chain|
    requires IsNode(a) && a !in s.owned && s.count <= s.maxCount
    requires s.lastMark < HALF64 - 1 && |s.chain| - s.head < HALF32 && s.count < HALF32 - 1
    ensures Reaches(s, ls, s') && Inv(s') && OthersSame(s, s', t) && s'.threads[t].frame.Idle?
    ensures s'.chain == s.chain + [Cell(a, d, s.lastMark + 1)] && s'.head == s.head && s'.back == s.back + 1
    ensures s'.owned == s.owned + {a} && s'.count == s.count + 1 && s'.lastMark == s.lastMark + 1
    ensures s'.maxCount == s.maxCount && s'.front == s.front && s'.frontId == s.frontId
    ensures s'.threads[t].hist.got == s.threads[t].hist.got
  {
    hide Reaches, Run, Exec, Inv;
    RearIsLast(s);
    var l1, s1 := EnqPrefix(s, t, d, a);
    ReachesInv(s, l1, s1);
    LinkReady(s1, t);
    var l2, s2 := EnqLinks(s1, t);
    Then(s, l1, s1, l2, s2);
    var l3, s3 := EnqFinish(s2, t);
    Then(s, l1 + l2, s2, l3, s3);
    ls, s' := l1 + l2 + l3, s3;
    ReachesInv(s, ls, s');
  }

  lemma ReachesInv<T>(s: State<T>, ls: seq<Label<T>>, s': State<T>)
    requires Inv(s) && Reaches(s, ls, s')
    ensures Inv(s')
  {
    RunInv(s, ls);
  }

  /** When the rear does not lag, its node's _Next is the marker in the rear's ID. */
  lemma RearIsLast<T>(s: State<T>)
    requires Inv(s) && s.back + 1 == |s.chain|
    ensures s.rear in s.next && s.next[s.rear] == s.rearId && s.rear in s.owned
    ensures KERNEL_ADDRESS <= s.lastMark
  {
    CellAt(s, s.back);
  }

  /** The node to be linked is another than the rear's. */
  lemma LinkReady<T>(s: State<T>, t: nat)
    requires Inv(s) && t < |s.threads| && s.threads[t].frame.EnqLink?
    ensures s.threads[t].frame.node in s.next && s.threads[t].frame.node != s.rear
  {
    Parts(s, t);
    EndsKnown(s);
    HeldIsNotLive(s, t);
  }

  lemma DeqReserves<T>(s: State<T>, t: nat) returns (ls: seq<Label<T>>, s': State<T>)
    requires t < |s.threads| && s.threads[t].frame.Idle? && 0 < s.count < HALF32
    ensures Reaches(s, ls, s') && Untouched(s, s', t) && s'.count == s.count - 1 && s'.owned == s.owned
    ensures s'.threads[t].frame.DeqReadFront? && s'.threads[t].hist == s.threads[t].hist
    ensures s'.next == s.next && s'.data == s.data && s'.lastMark == s.lastMark
  {
    hide Reaches, Run, AdvanceEnq;
    Nothing(s);
    ls, s' := More(s, [], s, CallDeQ(t));
    ls, s' := More(s, ls, s', Step(t));
  }

  lemma DeqReads<T>(s: State<T>, t: nat) returns (ls: seq<Label<T>>, s': State<T>)
    requires t < |s.threads| && s.threads[t].frame.DeqReadFront?
    ensures Reaches(s, ls, s') && Untouched(s, s', t) && s'.count == s.count && s'.owned == s.owned
    ensures s'.threads[t].frame == DeqReadNext(s.front, s.frontId) && s'.lastMark == s.lastMark
    ensures s'.threads[t].hist == s.threads[t].hist.(ver := s.head)
    ensures s'.next == s.next && s'.data == s.data
  {
    hide Reaches, Run, AdvanceEnq;
    Nothing(s);
    ls, s' := More(s, [], s, Step(t));
    ls, s' := More(s, ls, s', Step(t));
  }

  /** DeQ alone, up to its read of _Next. */
  lemma DeqStart<T>(s: State<T>, t: nat) returns (ls: seq<Label<T>>, s': State<T>)
    requires t < |s.threads| && s.threads[t].frame.Idle? && 0 < s.count < HALF32
    ensures Reaches(s, ls, s') && Untouched(s, s', t) && s'.count == s.count - 1 && s'.owned == s.owned
    ensures s'.threads[t].frame == DeqReadNext(s.front, s.frontId) && s'.lastMark == s.lastMark
    ensures s'.threads[t].hist == s.threads[t].hist.(ver := s.head)
    ensures s'.next == s.next && s'.data == s.data
  {
    hide Reaches, Run, Exec;
    var l1, s1 := DeqReserves(s, t);
    var l2, s2 := DeqReads(s1, t);
    Then(s, l1, s1, l2, s2);
    ls, s' := l1 + l2, s2;
  }

  /** The reads of the successor and of its data. */
  lemma DeqLooks<T>(s: State<T>, t: nat) returns (ls: seq<Label<T>>, s': State<T>)
    requires t < |s.threads| && s.threads[t].frame.DeqReadNext? && s.threads[t].frame.front in s.next
    requires 0 < s.next[s.threads[t].frame.front] < KERNEL_ADDRESS && s.next[s.threads[t].frame.front] in s.data
    ensures Reaches(s, ls, s') && Untouched(s, s', t) && s'.count == s.count && s'.owned == s.owned
    ensures s'.lastMark == s.lastMark && s'.threads[t].hist == s.threads[t].hist
    ensures var f := s.threads[t].frame;
      var nxt: Addr := s.next[f.front];
      s'.threads[t].frame == DeqCas(f.front, f.id, nxt, s.data[nxt])
  {
    hide Reaches, Run, AdvanceEnq;
    Nothing(s);
    ls, s' := More(s, [], s, Step(t));
    ls, s' := More(s, ls, s', Step(t));
  }

  /** The CAS on the front and the return of its node to the pool. */
  lemma DeqTakes<T>(s: State<T>, t: nat) returns (ls: seq<Label<T>>, s': State<T>)
    requires t < |s.threads| && s.threads[t].frame.DeqCas? && s.threads[t].hist.ver == s.head && s.front in s.owned
    requires FrontHits(s, s.threads[t].frame.front, s.threads[t].frame.id)
    ensures Reaches(s, ls, s') && OthersSame(s, s', t) && s'.count == s.count && s'.owned == s.owned - {s.front}
    ensures s'.chain == s.chain && s'.head == s.head + 1 && s'.back == s.back && s'.maxCount == s.maxCount
    ensures s'.lastMark == s.lastMark && s'.threads[t].frame.Idle?
    ensures s'.threads[t].hist.got == s.threads[t].hist.got + [s.threads[t].frame.value]
  {
    hide Reaches, Run, AdvanceEnq;
    Nothing(s);
    ls, s' := More(s, [], s, Step(t));
    ls, s' := More(s, ls, s', Step(t));
  }

  /** From the read of _Next to the end of the call. */
  lemma DeqFinish<T>(s: State<T>, t: nat) returns (ls: seq<Label<T>>, s': State<T>)
    requires t < |s.threads| && s.threads[t].frame == DeqReadNext(s.front, s.frontId) && s.threads[t].hist.ver == s.head
    requires s.front in s.next && 0 < s.next[s.front] < KERNEL_ADDRESS && s.next[s.front] in s.data
    requires s.front in s.owned
    ensures Reaches(s, ls, s') && OthersSame(s, s', t) && s'.count == s.count && s'.owned == s.owned - {s.front}
    ensures s'.chain == s.chain && s'.head == s.head + 1 && s'.back == s.back && s'.maxCount == s.maxCount
    ensures s'.lastMark == s.lastMark && s'.threads[t].frame.Idle?
    ensures var nxt: Addr := s.next[s.front]; s'.threads[t].hist.got == s.threads[t].hist.got + [s.data[nxt]]
  {
    hide Reaches, Run, Exec;
    var l1, s1 := DeqLooks(s, t);
    var l2, s2 := DeqTakes(s1, t);
    Then(s, l1, s1, l2, s2);
    ls, s' := l1 + l2, s2;
  }

  /** A whole DeQ alone, granted: it hands out the oldest value and frees the old dummy. */
  lemma SoloDeq<T>(s: State<T>, t: nat) returns (ls: seq<Label<T>>, s': State<T>)
    requires Inv(s) && t < |s.threads| && s.threads[t].frame.Idle? && s.count > 0
    ensures s.head < |s.chain| && Contents(s) != []
    ensures Reaches(s, ls, s') && Inv(s') && OthersSame(s, s', t) && s'.threads[t].frame.Idle?
    ensures s'.chain == s.chain && s'.head == s.head + 1 && s'.back == s.back && s'.owned == s.owned - {s.front}
    ensures s'.count == s.count - 1 && s'.lastMark == s.lastMark && s'.maxCount == s.maxCount
    ensures s'.threads[t].hist.got == s.threads[t].hist.got + [Contents(s)[0]]
  {
    hide Reaches, Run, Exec, Inv;
    CountBounds(s);
    var l1, s1 := DeqStart(s, t);
    ReachesInv(s, l1, s1);
    FrontReady(s1, t);
    var l2, s2 := DeqFinish(s1, t);
    Then(s, l1, s1, l2, s2);
    ls, s' := l1 + l2, s2;
    ReachesInv(s, ls, s');
    assert Contents(s) == Contents(s1);
  }

  lemma CountBounds<T>(s: State<T>)
    requires Inv(s)
    ensures s.count < HALF32 && s.head < |s.chain|
  {
  }

  lemma FrontReady<T>(s: State<T>, t: nat)
    requires Inv(s) && t < |s.threads| && KindOf(s.threads[t].frame) == Reserved
    ensures s.front in s.next && 0 < s.next[s.front] < KERNEL_ADDRESS && s.next[s.front] in s.data && s.front in s.owned
    ensures s.head + 1 < |s.chain|
    ensures var nxt: Addr := s.next[s.front]; s.data[nxt] == Contents(s)[0]
  {
    Parts(s, t);
    ReservedMeansBehind(s, t);
    CellAt(s, s.head);
    CellAt(s, s.head + 1);
  }

  // ----- A DeQ that never returns -----

  /** Thread 0 has read the dummy as front; then thread 1 frees it and enqueues it again. */
  lemma Reuse<T>(s: State<T>, d: T, dummy: Addr) returns (ls: seq<Label<T>>, s': State<T>)
    requires Inv(s) && |s.threads| == 2 && s.threads[1].frame.Idle? && s.back + 1 == |s.chain|
    requires s.threads[0].frame.DeqReadNext? && s.threads[0].frame.front == dummy == s.front
    requires IsNode(dummy) && s.count == 1 <= s.maxCount && s.lastMark < HALF64 - 1 && |s.chain| - s.head == 3
    ensures Reaches(s, ls, s') && Inv(s') && |s'.threads| == 2 && s'.threads[0] == s.threads[0]
    ensures s'.threads[1].frame.Idle? && s'.head < |s'.chain| && |Contents(s')| == 2
    ensures dummy in s'.next && s'.next[dummy] >= KERNEL_ADDRESS
  {
    hide Reaches, Inv, Exec, Run;
    var l1, s1 := SoloDeq(s, 1);
    var l2, s2 := SoloEnq(s1, 1, d, dummy);
    Then(s, l1, s1, l2, s2);
    ls, s' := l1 + l2, s2;
    LastHoldsMarker(s');
  }

  lemma LastHoldsMarker<T>(s: State<T>)
    requires Inv(s)
    ensures |s.chain| > 0 && s.chain[|s.chain| - 1].addr in s.next
    ensures s.next[s.chain[|s.chain| - 1].addr] >= KERNEL_ADDRESS
  {
    CellAt(s, |s.chain| - 1);
  }

  /** Two values enqueued by thread 1, and a DeQ by thread 0 that has read the front. */
  lemma Prepare<T>(maxCount: int, zero: T, d: T) returns (ls: seq<Label<T>>, s: State<T>)
    requires maxCount >= 1
    ensures Reaches(Init(2, maxCount, 1, zero), ls, s) && Inv(s) && |s.threads| == 2 && s.threads[1].frame.Idle?
    ensures s.threads[0].frame.DeqReadNext? && s.threads[0].frame.front == 1 == s.front
    ensures s.count == 1 <= s.maxCount && s.lastMark < HALF64 - 1 && |s.chain| - s.head == 3 && s.back + 1 == |s.chain|
  {
    InitInv(2, maxCount, 1, zero);
    hide Reaches, Inv, Exec, Run;
    var s0 := Init(2, maxCount, 1, zero);
    var l1, s1 := SoloEnq(s0, 1, d, 2);
    var l2, s2 := SoloEnq(s1, 1, d, 3);
    Then(s0, l1, s1, l2, s2);
    assert s2.threads[0] == s1.threads[0] == s0.threads[0];
    var l3, s3 := DeqStart(s2, 0);
    Then(s0, l1 + l2, s2, l3, s3);
    ls, s := l1 + l2 + l3, s3;
    ReachesInv(s0, ls, s);
  }

  /**
   * An EnQ and a DeQ by another thread can leave a DeQ spinning for ever on a queue that holds
   * two values, with nobody else inside a call: it never rereads the front.
   */
  lemma DeqCanSpin<T>(maxCount: int, zero: T, d: T) returns (ls: seq<Label<T>>)
    requires maxCount >= 1
    ensures RunWithinWidths(Init(2, maxCount, 1, zero), ls)
    ensures var s := Run(Init(2, maxCount, 1, zero), ls);
      && |s.threads| == 2 && s.threads[0].frame.DeqReadNext? && s.threads[1].frame.Idle?
      && s.head < |s.chain| && |Contents(s)| == 2
      && Stuck(s, 0) && !Returns(s, 0) && forall k: nat :: Run(s, Steps(0, k)) == s
  {
    var l1, s1 := Prepare(maxCount, zero, d);
    var l2, s := Reuse(s1, d, 1);
    Then(Init(2, maxCount, 1, zero), l1, s1, l2, s);
    ls := l1 + l2;
    SpinsExactly(s, 0);
    forall k: nat ensures Run(s, Steps(0, k)) == s && !IdleAfter(s, 0, k) {
      StaysPut(s, 0, k);
      StuckForEver(s, 0, k);
    }
  }
}
