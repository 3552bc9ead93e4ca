/**
 * The shared state of LockFreeQ<T> (built with ENQ_MODE 2) and one step per access to shared
 * memory, for any number of threads in EnQ and DeQ.
 *
 * The last node's _Next holds a marker instead of null: a number from m_RearID, at or above
 * KERNEL_ADDRESS, drawn for that node alone. EnQ links its node by comparing _Next with the
 * marker it read from the rear, and then swings the rear; an EnQ that finds a successor swings
 * the rear for the other first. DeQ reads the successor's data before it swings the front.
 *
 * The fields `chain`, `head`, `back` and `ops` of State and the History of each thread are
 * history variables: they record what happened and no branch of Exec reads them.
 */
module QueueMachine {
  import opened Common

  /** Addresses of nodes lie below this, markers at or above it. */
  const KERNEL_ADDRESS := 0x800_0000_0000

  /** A CAS that linked a node, and one that advanced the front. */
  datatype Op<T> = Enqueued(who: nat, value: T) | Dequeued(who: nat, value: T)

  /** A node when it was linked: where, what it carries and the marker drawn for it. */
  datatype Cell<T> = Cell(addr: Addr, value: T, mark: int)

  datatype Frame<T> =
    | Idle
    | EnqCheck(d: T)
    | EnqAlloc(d: T)
    | EnqData(d: T, node: Addr)
    | EnqDraw(d: T, node: Addr)
    | EnqMark(d: T, node: Addr, mark: int)
    | EnqReadRear(d: T, node: Addr)
    | EnqReadId(d: T, node: Addr, rear: Addr)
    | EnqLink(d: T, node: Addr, rear: Addr, id: int)
    | EnqHelpNext(d: T, node: Addr, rear: Addr, id: int)
    | EnqHelpMark(d: T, node: Addr, rear: Addr, id: int, nxt: Addr)
    | EnqHelp(d: T, node: Addr, rear: Addr, id: int, nxt: Addr, newId: int)
    | EnqReadMark(node: Addr, rear: Addr, id: int)
    | EnqSwing(node: Addr, rear: Addr, id: int, newId: int)
    | EnqCount
    | DeqReserve
    | DeqRestore
    | DeqReadFront
    | DeqReadId(front: Addr)
    | DeqReadNext(front: Addr, id: int)
    | DeqReadData(front: Addr, id: int, nxt: Addr)
    | DeqCas(front: Addr, id: int, nxt: Addr, value: T)
    | DeqFree(front: Addr, value: T)
    | Full
    | Crashed

  /**
   * mark: the marker of the node being enqueued; seen: how far the rear was when EnQ read its
   * ID; pos: where EnQ linked its node; ver: how far the front was when DeQ read its ID; asked:
   * arguments of all EnQ calls so far; got: all that DeQ has handed out; refused: DeQs that
   * returned false.
   */
  datatype History<T> =
    History(mark: int, seen: nat, pos: nat, ver: nat, asked: seq<T>, got: seq<T>, refused: nat)

  datatype Thread<T> = Thread(frame: Frame<T>, hist: History<T>)

  /**
   * next holds addresses and markers. chain lists every node ever linked, the first dummy
   * included; head and back are the places of the front and the rear in it.
   */
  datatype State<T> = State(
    front: Addr, frontId: int, rear: Addr, rearId: int, lastMark: int, count: int, maxCount: int,
    next: map<Addr, int>, data: map<Addr, T>, owned: set<Addr>, threads: seq<Thread<T>>,
    chain: seq<Cell<T>>, head: nat, back: nat, ops: seq<Op<T>>)

  datatype Label<T> =
    | CallEnQ(t: nat, d: T)
    | CallDeQ(t: nat)
    | Alloc(t: nat, a: Addr)
    | Step(t: nat)

  predicate IsNode(a: Addr) { 0 < a < KERNEL_ADDRESS }

  /** The constructor: one dummy node, whose _Next is the first marker. */
  function Init<T>(n: nat, maxCount: int, dummy: Addr, zero: T): State<T> {
    State(dummy, 0, dummy, KERNEL_ADDRESS, KERNEL_ADDRESS, 0, maxCount,
          map[dummy := KERNEL_ADDRESS], map[dummy := zero], {dummy},
          seq(n, _ => Thread(Idle, History(0, 0, 0, 0, [], [], 0))),
          [Cell(dummy, zero, KERNEL_ADDRESS)], 0, 0, [])
  }

  /** m_FrontCheck->_ID after n successful CASs on the front. */
  function FrontIdOf(n: nat): int { Count64(0, n) }

  function Put<T>(s: State<T>, t: nat, f: Frame<T>): State<T>
    requires t < |s.threads|
  {
    s.(threads := s.threads[t := s.threads[t].(frame := f)])
  }

  function PutBoth<T>(s: State<T>, t: nat, f: Frame<T>, h: History<T>): State<T>
    requires t < |s.threads|
  {
    s.(threads := s.threads[t := Thread(f, h)])
  }

  predicate RearHits<T>(s: State<T>, rear: Addr, id: int) { s.rear == rear && s.rearId == id }
  predicate FrontHits<T>(s: State<T>, front: Addr, id: int) { s.front == front && s.frontId == id }

  /** The access of EnQ that the frame of thread t names. */
  function AdvanceEnq<T>(s: State<T>, t: nat): State<T>
    requires t < |s.threads|
  {
    var h := s.threads[t].hist;
    match s.threads[t].frame
    case EnqCheck(d) => Put(s, t, if s.maxCount < s.count then Full else EnqAlloc(d))
    case EnqData(d, node) => Put(s, t, EnqDraw(d, node)).(data := s.data[node := d])
    case EnqDraw(d, node) =>
      PutBoth(s, t, EnqMark(d, node, Inc64(s.lastMark)), h.(mark := Inc64(s.lastMark))).(lastMark := Inc64(s.lastMark))
    case EnqMark(d, node, mark) => Put(s, t, EnqReadRear(d, node)).(next := s.next[node := mark])
    case EnqReadRear(d, node) => Put(s, t, EnqReadId(d, node, s.rear))
    case EnqReadId(d, node, rear) =>
      PutBoth(s, t, if rear == node then Crashed else EnqLink(d, node, rear, s.rearId), h.(seen := s.back))
    case EnqLink(d, node, rear, id) =>
      if rear !in s.next then Put(s, t, Crashed)
      else if s.next[rear] == id then
        PutBoth(s, t, EnqReadMark(node, rear, id), h.(pos := |s.chain|)).(
          next := s.next[rear := node], chain := s.chain + [Cell(node, d, h.mark)], ops := s.ops + [Enqueued(t, d)])
      else Put(s, t, EnqHelpNext(d, node, rear, id))
    case EnqHelpNext(d, node, rear, id) =>
      if rear !in s.next || s.next[rear] < 0 then Put(s, t, Crashed)
      else if s.next[rear] >= KERNEL_ADDRESS then Put(s, t, EnqReadRear(d, node))
      else Put(s, t, EnqHelpMark(d, node, rear, id, s.next[rear]))
    case EnqHelpMark(d, node, rear, id, nxt) =>
      Put(s, t, if nxt !in s.next then Crashed else EnqHelp(d, node, rear, id, nxt, s.next[nxt]))
    case EnqHelp(d, node, rear, id, nxt, newId) =>
      var s' := Put(s, t, EnqReadRear(d, node));
      if RearHits(s, rear, id) then s'.(rear := nxt, rearId := newId, back := s.back + 1) else s'
    case EnqReadMark(node, rear, id) =>
      Put(s, t, if node !in s.next then Crashed else EnqSwing(node, rear, id, s.next[node]))
    case EnqSwing(node, rear, id, newId) =>
      var s' := Put(s, t, EnqCount);
      if RearHits(s, rear, id) then s'.(rear := node, rearId := newId, back := s.back + 1) else s'
    case EnqCount => Put(s, t, Idle).(count := Inc32(s.count))
    case _ => s
  }

  /** The access of DeQ that the frame of thread t names. */
  function AdvanceDeq<T>(s: State<T>, t: nat): State<T>
    requires t < |s.threads|
  {
    var h := s.threads[t].hist;
    match s.threads[t].frame
    case DeqReserve => Put(s, t, if Dec32(s.count) < 0 then DeqRestore else DeqReadFront).(count := Dec32(s.count))
    case DeqRestore => PutBoth(s, t, Idle, h.(refused := h.refused + 1)).(count := Inc32(s.count))
    case DeqReadFront => Put(s, t, DeqReadId(s.front))
    case DeqReadId(front) => PutBoth(s, t, DeqReadNext(front, s.frontId), h.(ver := s.head))
    case DeqReadNext(front, id) =>
      if front !in s.next || s.next[front] < 0 then Put(s, t, Crashed)
      else if s.next[front] >= KERNEL_ADDRESS then s
      else Put(s, t, DeqReadData(front, id, s.next[front]))
    case DeqReadData(front, id, nxt) =>
      Put(s, t, if nxt !in s.data then Crashed else DeqCas(front, id, nxt, s.data[nxt]))
    case DeqCas(front, id, nxt, value) =>
      if FrontHits(s, front, id) then
        Put(s, t, DeqFree(front, value)).(
          front := nxt, frontId := Inc64(id), head := s.head + 1, ops := s.ops + [Dequeued(t, value)])
      else PutBoth(s, t, DeqReadNext(s.front, s.frontId), h.(ver := s.head))
    case DeqFree(front, value) =>
      if front in s.owned then PutBoth(s, t, Idle, h.(got := h.got + [value])).(owned := s.owned - {front})
      else Put(s, t, Crashed)
    case _ => s
  }

  predicate InEnq<T>(f: Frame<T>) {
    || f.EnqCheck? || f.EnqAlloc? || f.EnqData? || f.EnqDraw? || f.EnqMark? || f.EnqReadRear? || f.EnqReadId?
    || f.EnqLink? || f.EnqHelpNext? || f.EnqHelpMark? || f.EnqHelp? || f.EnqReadMark? || f.EnqSwing? || f.EnqCount?
  }

  function Advance<T>(s: State<T>, t: nat): State<T>
    requires t < |s.threads|
  {
    if InEnq(s.threads[t].frame) then AdvanceEnq(s, t) else AdvanceDeq(s, t)
  }

  /**
   * One transition; a label that does not fit the state changes nothing. Alloc hands out any
   * node the pool owns: one that was used before as it is, a new one constructed, with a null
   * _Next.
   */
  function Exec<T>(s: State<T>, l: Label<T>): State<T> {
    match l
    case CallEnQ(t, d) =>
      if t < |s.threads| && s.threads[t].frame.Idle? then
        PutBoth(s, t, EnqCheck(d), s.threads[t].hist.(asked := s.threads[t].hist.asked + [d]))
      else s
    case CallDeQ(t) =>
      if t < |s.threads| && s.threads[t].frame.Idle? then Put(s, t, DeqReserve) else s
    case Alloc(t, a) =>
      if t < |s.threads| && s.threads[t].frame.EnqAlloc? && IsNode(a) && a !in s.owned then
        Put(s, t, EnqData(s.threads[t].frame.d, a)).(
          owned := s.owned + {a}, next := if a in s.next then s.next else s.next[a := NULL])
      else s
    case Step(t) => if t < |s.threads| then Advance(s, t) else s
  }

  function Run<T>(s: State<T>, ls: seq<Label<T>>): State<T>
    decreases |ls|
  {
    if ls == [] then s else Run(Exec(s, ls[0]), ls[1..])
  }

  /**
   * The assumptions on integer widths: no DeQ attempts its CAS when a positive multiple of 2^64
   * CASs have succeeded since its read of the front's ID, markers do not overflow, and the queue
   * never outgrows a 32-bit count.
   */
  predicate WithinWidths<T>(s: State<T>, l: Label<T>) {
    l.Step? && l.t < |s.threads| ==>
      var th := s.threads[l.t];
      && (th.frame.DeqCas? ==> s.head <= th.hist.ver || (s.head - th.hist.ver) % MOD64 != 0)
      && (th.frame.EnqDraw? ==> s.lastMark < HALF64 - 1)
      && (th.frame.EnqLink? ==> |s.chain| - s.head < HALF32)
  }

  predicate RunWithinWidths<T>(s: State<T>, ls: seq<Label<T>>)
    decreases |ls|
  {
    ls == [] || (WithinWidths(s, ls[0]) && RunWithinWidths(Exec(s, ls[0]), ls[1..]))
  }
}
