/**
 * The invariant of QueueMachine: the nodes from the front on are the abstract queue, the rear is
 * at the last of them or one behind, markers are unique, and m_Count keeps the front from
 * passing the rear.
 */
module QueueInvariant {
  import opened Common
  import opened Tallies
  import opened QueueMachine

  function KindOf<T>(f: Frame<T>): Kind {
    match f
    case EnqReadMark(_, _, _) | EnqSwing(_, _, _, _) | EnqCount => Uncounted
    case DeqReadFront | DeqReadId(_) | DeqReadNext(_, _) | DeqReadData(_, _, _) | DeqCas(_, _, _, _) => Reserved
    case DeqRestore => Failing
    case _ => Neutral
  }

  function Kinds<T>(ts: seq<Thread<T>>): seq<Kind> {
    seq(|ts|, t requires 0 <= t < |ts| => KindOf(ts[t].frame))
  }

  function Tally<T>(s: State<T>, k: Kind): nat { Count(Kinds(s.threads), k) }

  /** Between the allocation of its node and the CAS that links it. */
  predicate Building<T>(f: Frame<T>) {
    || f.EnqData? || f.EnqDraw? || f.EnqMark? || f.EnqReadRear? || f.EnqReadId?
    || f.EnqLink? || f.EnqHelpNext? || f.EnqHelpMark? || f.EnqHelp?
  }

  /** The node carries its data and its marker. */
  predicate Ready<T>(f: Frame<T>) {
    f.EnqReadRear? || f.EnqReadId? || f.EnqLink? || f.EnqHelpNext? || f.EnqHelpMark? || f.EnqHelp?
  }

  predicate HasMark<T>(f: Frame<T>) { f.EnqMark? || Ready(f) }

  /** The node a thread owns: an EnQ before it is linked, a DeQ after its CAS. */
  function Held<T>(f: Frame<T>): Addr {
    if Building(f) then f.node else if f.DeqFree? then f.front else NULL
  }

  function EnqsBy<T>(ops: seq<Op<T>>, t: nat): seq<T> {
    if ops == [] then [] else
      var e := ops[|ops| - 1];
      EnqsBy(ops[..|ops| - 1], t) + if e.Enqueued? && e.who == t then [e.value] else []
  }

  function DeqsBy<T>(ops: seq<Op<T>>, t: nat): seq<T> {
    if ops == [] then [] else
      var e := ops[|ops| - 1];
      DeqsBy(ops[..|ops| - 1], t) + if e.Dequeued? && e.who == t then [e.value] else []
  }

  /** The sequential specification: the queue after ops, if every dequeue returned the oldest. */
  ghost function Replay<T>(ops: seq<Op<T>>): Option<seq<T>> {
    if ops == [] then Some([]) else
      match (Replay(ops[..|ops| - 1]), ops[|ops| - 1])
      case (Some(q), Enqueued(_, v)) => Some(q + [v])
      case (Some(q), Dequeued(_, v)) => if q != [] && q[0] == v then Some(q[1..]) else None
      case (None, _) => None
  }

  function Values<T>(cells: seq<Cell<T>>): (r: seq<T>)
    ensures |r| == |cells|
  {
    seq(|cells|, i requires 0 <= i < |cells| => cells[i].value)
  }

  /** The values in the queue: those of the nodes after the front. */
  function Contents<T>(s: State<T>): seq<T>
    requires s.head < |s.chain|
  {
    Values(s.chain[s.head + 1..])
  }

  ghost predicate Live<T>(s: State<T>, a: Addr) {
    exists i | s.head <= i < |s.chain| :: s.chain[i].addr == a
  }

  ghost predicate HeldBySome<T>(s: State<T>, a: Addr) {
    exists t | 0 <= t < |s.threads| :: Held(s.threads[t].frame) == a
  }

  /** A node that was linked, or is ready to be: its _Next is an address or a marker. */
  predicate Known<T>(s: State<T>, a: int) {
    a >= 0 && IsNode(a) && a in s.next && s.next[a] != NULL && a in s.data
  }

  ghost predicate EndsInv<T>(s: State<T>) {
    && s.head <= s.back < |s.chain| <= s.back + 2
    && s.front == s.chain[s.head].addr && s.frontId == FrontIdOf(s.head)
    && s.rear == s.chain[s.back].addr && s.rearId == s.chain[s.back].mark
  }

  /** Node i of the chain, from the front on, is linked and carries its value. */
  ghost predicate CellInv<T>(s: State<T>, i: nat)
    requires i < |s.chain|
  {
    var a := s.chain[i].addr;
    && Known(s, a) && a in s.owned && s.data[a] == s.chain[i].value
    && s.next[a] == if i + 1 < |s.chain| then s.chain[i + 1].addr else s.chain[i].mark
  }

  ghost predicate ChainInv<T>(s: State<T>) {
    && (forall i :: s.head <= i < |s.chain| ==> CellInv(s, i))
    && (forall i, j :: s.head <= i < j < |s.chain| ==> s.chain[i].addr != s.chain[j].addr)
  }

  ghost predicate MarksInv<T>(s: State<T>) {
    && KERNEL_ADDRESS <= s.lastMark < HALF64
    && (forall i :: 0 <= i < |s.chain| ==> KERNEL_ADDRESS <= s.chain[i].mark <= s.lastMark)
    && (forall i, j :: 0 <= i < j < |s.chain| ==> s.chain[i].mark != s.chain[j].mark)
    && (forall t :: 0 <= t < |s.threads| && HasMark(s.threads[t].frame) ==> MarkInv(s, t))
    && (forall t, u :: 0 <= t < u < |s.threads| && HasMark(s.threads[t].frame) && HasMark(s.threads[u].frame) ==>
          s.threads[t].hist.mark != s.threads[u].hist.mark)
  }

  /** The marker of a node not linked yet is nobody else's. */
  ghost predicate MarkInv<T>(s: State<T>, t: nat)
    requires t < |s.threads|
  {
    var m := s.threads[t].hist.mark;
    && KERNEL_ADDRESS <= m <= s.lastMark
    && (forall i :: 0 <= i < |s.chain| ==> s.chain[i].mark != m)
  }

  ghost predicate ReadyWith<T>(s: State<T>, a: Addr, m: int) {
    exists t | 0 <= t < |s.threads| :: ReadyThread(s.threads[t], a, m)
  }

  predicate ReadyThread<T>(th: Thread<T>, a: Addr, m: int) {
    Ready(th.frame) && th.frame.node == a && th.hist.mark == m
  }

  /** What _Next of a node can hold: null when new, an address of a node, or its own marker. */
  ghost predicate NextInv<T>(s: State<T>, a: Addr)
    requires a in s.next
  {
    && IsNode(a)
    && (s.next[a] == NULL || s.next[a] >= KERNEL_ADDRESS || Known(s, s.next[a]))
    && (s.next[a] >= KERNEL_ADDRESS ==>
          (|s.chain| > 0 && a == s.chain[|s.chain| - 1].addr && s.next[a] == s.chain[|s.chain| - 1].mark)
          || ReadyWith(s, a, s.next[a]))
  }

  ghost predicate MemoryInv<T>(s: State<T>) { forall a :: a in s.next ==> NextInv(s, a) }

  ghost predicate OwnerInv<T>(s: State<T>) {
    && (forall t :: 0 <= t < |s.threads| && Held(s.threads[t].frame) != NULL ==>
          Held(s.threads[t].frame) in s.owned && !Live(s, Held(s.threads[t].frame)))
    && (forall t, u :: 0 <= t < u < |s.threads| && Held(s.threads[t].frame) != NULL ==>
          Held(s.threads[t].frame) != Held(s.threads[u].frame))
    && (forall a :: a in s.owned ==> IsNode(a) && (Live(s, a) || HeldBySome(s, a)))
  }

  /** A thread that linked the last node and has not tried to swing the rear yet. */
  predicate Swinging<T>(s: State<T>, t: nat)
    requires t < |s.threads|
  {
    (s.threads[t].frame.EnqReadMark? || s.threads[t].frame.EnqSwing?) && s.threads[t].hist.pos == |s.chain| - 1
  }

  /** When the rear lags, the thread that linked the last node is about to swing it. */
  ghost predicate LagInv<T>(s: State<T>) {
    s.back + 1 == |s.chain| || exists t :: 0 <= t < |s.threads| && Swinging(s, t)
  }

  ghost predicate CountInv<T>(s: State<T>) {
    && s.head < |s.chain|
    && s.count == |s.chain| - 1 - s.head - Tally(s, Uncounted) - Tally(s, Reserved) - Tally(s, Failing)
    && s.count + Tally(s, Failing) >= 0
    && |s.threads| <= HALF32
    && |s.chain| - 1 - s.head < HALF32
  }

  ghost predicate OpsInv<T>(s: State<T>) {
    && s.head < |s.chain| && Replay(s.ops) == Some(Contents(s))
    && (forall i :: 0 <= i < |s.ops| ==> s.ops[i].who < |s.threads|)
  }

  /** The node being enqueued carries its data, and from EnqMark on its marker. */
  ghost predicate NodeInv<T>(s: State<T>, th: Thread<T>)
    requires Building(th.frame)
  {
    var n := th.frame.node;
    && IsNode(n) && n in s.next
    && (!th.frame.EnqData? ==> n in s.data && s.data[n] == th.frame.d)
    && (Ready(th.frame) ==> s.next[n] == th.hist.mark)
  }

  /** The ID read from the rear is the marker of a node the rear has reached. */
  ghost predicate RearSeen<T>(s: State<T>, th: Thread<T>, rear: Addr, id: int) {
    Known(s, rear) && th.hist.seen <= s.back < |s.chain| && id == s.chain[th.hist.seen].mark
  }

  /** If the rear is still where it was and rear is its node, nxt is the node after it. */
  ghost predicate HelpSeen<T>(s: State<T>, th: Thread<T>, rear: Addr, nxt: Addr) {
    th.hist.seen == s.back < |s.chain| && rear == s.chain[s.back].addr ==>
      s.back + 1 < |s.chain| && nxt == s.chain[s.back + 1].addr
  }

  /** The node linked by this thread is at pos, after the node the rear was at. */
  ghost predicate LinkedAt<T>(s: State<T>, th: Thread<T>, node: Addr, rear: Addr, id: int) {
    var pos := th.hist.pos;
    && 1 <= pos < |s.chain| && pos - 1 <= s.back && Known(s, node)
    && s.chain[pos].addr == node && s.chain[pos - 1].addr == rear && s.chain[pos - 1].mark == id
  }

  /** The ID read from the front is its ID at place ver. */
  ghost predicate FrontSeen<T>(s: State<T>, th: Thread<T>, front: Addr, id: int) {
    Known(s, front) && th.hist.ver <= s.head && id == FrontIdOf(th.hist.ver)
  }

  /** If the front is still where it was and front is its node, nxt is the node after it. */
  ghost predicate NextSeen<T>(s: State<T>, th: Thread<T>, front: Addr, nxt: Addr) {
    && Known(s, nxt)
    && (th.hist.ver == s.head < |s.chain| && front == s.chain[s.head].addr ==>
          s.head + 1 < |s.chain| && nxt == s.chain[s.head + 1].addr)
  }

  ghost predicate FrameInv<T>(s: State<T>, th: Thread<T>) {
    && (Building(th.frame) ==> NodeInv(s, th))
    && match th.frame
       case EnqMark(_, _, mark) => mark == th.hist.mark
       case EnqReadId(_, node, rear) => Known(s, rear) && rear != node
       case EnqLink(_, _, rear, id) => RearSeen(s, th, rear, id)
       case EnqHelpNext(_, _, rear, id) => RearSeen(s, th, rear, id)
       case EnqHelpMark(_, _, rear, id, nxt) => RearSeen(s, th, rear, id) && Known(s, nxt) && HelpSeen(s, th, rear, nxt)
       case EnqHelp(_, _, rear, id, nxt, newId) =>
         && RearSeen(s, th, rear, id) && Known(s, nxt) && HelpSeen(s, th, rear, nxt)
         && (th.hist.seen == s.back && rear == s.chain[s.back].addr ==> newId == s.chain[s.back + 1].mark)
       case EnqReadMark(node, rear, id) => LinkedAt(s, th, node, rear, id)
       case EnqSwing(node, rear, id, newId) =>
         LinkedAt(s, th, node, rear, id) && (s.back == th.hist.pos - 1 ==> newId == s.chain[th.hist.pos].mark)
       case DeqReadId(front) => Known(s, front)
       case DeqReadNext(front, id) => FrontSeen(s, th, front, id)
       case DeqReadData(front, id, nxt) => FrontSeen(s, th, front, id) && NextSeen(s, th, front, nxt)
       case DeqCas(front, id, nxt, value) =>
         && FrontSeen(s, th, front, id) && NextSeen(s, th, front, nxt)
         && (th.hist.ver == s.head < |s.chain| && front == s.chain[s.head].addr ==> value == s.chain[s.head + 1].value)
       case DeqFree(front, _) => front != NULL
       case Crashed => false
       case _ => true
  }

  /** What a call in progress is about to enqueue, and what one has dequeued but not returned. */
  function Pending<T>(f: Frame<T>): seq<T> {
    if f.EnqCheck? || f.EnqAlloc? || Building(f) then [f.d] else []
  }

  function Giving<T>(f: Frame<T>): seq<T> { if f.DeqFree? then [f.value] else [] }

  /** The calls of thread t and the operations recorded for it agree, but for one in progress. */
  ghost predicate CallsInv<T>(s: State<T>, t: nat)
    requires t < |s.threads|
  {
    var f := s.threads[t].frame;
    var h := s.threads[t].hist;
    && (!f.Full? ==> h.asked == EnqsBy(s.ops, t) + Pending(f))
    && DeqsBy(s.ops, t) == h.got + Giving(f)
  }

  ghost predicate ThreadsInv<T>(s: State<T>) {
    forall t :: 0 <= t < |s.threads| ==> FrameInv(s, s.threads[t]) && CallsInv(s, t)
  }

  ghost predicate Inv<T>(s: State<T>) {
    && EndsInv(s) && ChainInv(s) && MarksInv(s) && MemoryInv(s) && OwnerInv(s) && LagInv(s)
    && CountInv(s) && OpsInv(s) && ThreadsInv(s)
  }

  lemma InitInv<T>(n: nat, maxCount: int, dummy: Addr, zero: T)
    requires n <= HALF32 && IsNode(dummy)
    ensures Inv(Init(n, maxCount, dummy, zero))
  {
    var s := Init(n, maxCount, dummy, zero);
    CountNone(Kinds(s.threads));
    assert s.chain[0].addr == dummy;
    assert Live(s, dummy);
    assert CellInv(s, 0);
    assert Contents(s) == [];
  }
}
