/**
 * The shared state of LockFreeStack<T> and one step per access to shared memory.
 *
 * Any number of threads run Push and Pop. A Frame is a program point together with the
 * locals that are live there; Exec performs one access, so every interleaving of the
 * source's accesses is a sequence of labels. Addresses are naturals and 0 is nullptr.
 *
 * The fields `stack` and `ops` of State and the History of each thread are history
 * variables: they record what happened and no branch of Exec reads them.
 */
module StackMachine {
  import opened Common

  /** A successful compare-exchange, seen as an operation of an abstract stack. */
  datatype Op<T> = Pushed(who: nat, value: T) | Popped(who: nat, value: T)

  /** An entry of the abstract stack: what was pushed and the node that carries it. */
  datatype Cell<T> = Cell(addr: Addr, value: T)

  datatype Frame<T> =
    | Idle
    | PushAlloc(d: T)
    | PushData(d: T, node: Addr)
    | PushNull(d: T, node: Addr)
    | PushReadTop(d: T, node: Addr)
    | PushReadId(d: T, node: Addr, top: Addr)
    | PushLink(d: T, node: Addr, top: Addr, id: int)
    | PushCas(d: T, node: Addr, top: Addr, id: int)
    | PushCount
    | PopReserve
    | PopRestore
    | PopReadTop
    | PopReadId(top: Addr)
    | PopReadNext(top: Addr, id: int)
    | PopCas(top: Addr, id: int, nxt: Addr)
    | PopReadData(top: Addr)
    | PopFree(top: Addr)
    | Crashed

  /**
   * start: successful CASs before the call read _TopPtr; ver: before it read the _ID it
   * holds; fails: failed CASs of the call; asked: arguments of all Push calls so far;
   * got: everything Pop has written to *outData; refused: Pops that returned false.
   */
  datatype History<T> = History(start: nat, ver: nat, fails: nat, asked: seq<T>, got: seq<T>, refused: nat)

  datatype Thread<T> = Thread(frame: Frame<T>, hist: History<T>)

  datatype State<T> = State(
    top: Addr, id: int, count: int,
    next: map<Addr, Addr>, data: map<Addr, T>, owned: set<Addr>,
    threads: seq<Thread<T>>,
    stack: seq<Cell<T>>, ops: seq<Op<T>>)

  datatype Label<T> =
    | CallPush(t: nat, d: T)
    | CallPop(t: nat)
    | Alloc(t: nat, a: Addr)
    | Step(t: nat)
    | PoolWrite(a: Addr, nxt: Addr, d: T)

  /** The _ID after v successful CASs: it starts at -1 and wraps at 64 bits. */
  function IdOf(v: nat): int { Count64(-1, v) }

  function Init<T>(n: nat): State<T> {
    State(NULL, -1, 0, map[], map[], {}, seq(n, i => Thread(Idle, History(0, 0, 0, [], [], 0))), [], [])
  }

  function NextOf<T>(s: State<T>, a: Addr): Addr { if a in s.next then s.next[a] else NULL }

  function Put<T>(s: State<T>, t: nat, f: Frame<T>): State<T>
    requires t < |s.threads|
  {
    s.(threads := s.threads[t := s.threads[t].(frame := f)])
  }

  function PutBoth<T>(s: State<T>, t: nat, f: Frame<T>, h: History<T>): State<T>
    requires t < |s.threads|
  {
    s.(threads := s.threads[t := Thread(f, h)])
  }

  /** InterlockedCompareExchange128 compares pointer and ID together. */
  predicate CasHits<T>(s: State<T>, top: Addr, id: int) { s.top == top && s.id == id }

  /** One access by thread t, at the program point its frame names. */
  function Advance<T>(s: State<T>, t: nat): State<T>
    requires t < |s.threads|
  {
    var h := s.threads[t].hist;
    var now := |s.ops|;
    match s.threads[t].frame
    case Idle => s
    case PushAlloc(_) => s
    case PushData(d, node) => Put(s, t, PushNull(d, node)).(data := s.data[node := d])
    case PushNull(d, node) => Put(s, t, PushReadTop(d, node)).(next := s.next[node := NULL])
    case PushReadTop(d, node) => PutBoth(s, t, PushReadId(d, node, s.top), h.(start := now, fails := 0))
    case PushReadId(d, node, top) => PutBoth(s, t, PushLink(d, node, top, s.id), h.(ver := now))
    case PushLink(d, node, top, id) => Put(s, t, PushCas(d, node, top, id)).(next := s.next[node := top])
    case PushCas(d, node, top, id) =>
      if CasHits(s, top, id) then
        Put(s, t, PushCount).(top := node, id := Inc64(id),
                              stack := [Cell(node, d)] + s.stack, ops := s.ops + [Pushed(t, d)])
      else
        PutBoth(s, t, PushLink(d, node, s.top, s.id), h.(ver := now, fails := h.fails + 1))
    case PushCount => Put(s, t, Idle).(count := Inc32(s.count))
    case PopReserve =>
      Put(s, t, if Dec32(s.count) < 0 then PopRestore else PopReadTop).(count := Dec32(s.count))
    case PopRestore => PutBoth(s, t, Idle, h.(refused := h.refused + 1)).(count := Inc32(s.count))
    case PopReadTop => PutBoth(s, t, PopReadId(s.top), h.(start := now, fails := 0))
    case PopReadId(top) => PutBoth(s, t, PopReadNext(top, s.id), h.(ver := now))
    case PopReadNext(top, id) =>
      Put(s, t, if top == NULL || top !in s.next then Crashed else PopCas(top, id, s.next[top]))
    case PopCas(top, id, nxt) =>
      if CasHits(s, top, id) then
        var s' := Put(s, t, PopReadData(top)).(top := nxt, id := Inc64(id));
        if s.stack == [] then s'
        else s'.(stack := s.stack[1..], ops := s.ops + [Popped(t, s.stack[0].value)])
      else
        PutBoth(s, t, PopReadNext(s.top, s.id), h.(ver := now, fails := h.fails + 1))
    case PopReadData(top) =>
      if top in s.data then PutBoth(s, t, PopFree(top), h.(got := h.got + [s.data[top]]))
      else Put(s, t, Crashed)
    case PopFree(top) =>
      if top in s.owned then Put(s, t, Idle).(owned := s.owned - {top})
      else Put(s, t, Crashed)
    case Crashed => s
  }

  /**
   * One transition; a label that does not fit the state changes nothing. Alloc hands out
   * any node the pool owns, and PoolWrite lets the pool overwrite a node it owns.
   */
  function Exec<T>(s: State<T>, l: Label<T>): State<T> {
    match l
    case CallPush(t, d) =>
      if t < |s.threads| && s.threads[t].frame.Idle? then
        PutBoth(s, t, PushAlloc(d), s.threads[t].hist.(asked := s.threads[t].hist.asked + [d]))
      else s
    case CallPop(t) =>
      if t < |s.threads| && s.threads[t].frame.Idle? then Put(s, t, PopReserve) else s
    case Alloc(t, a) =>
      if t < |s.threads| && s.threads[t].frame.PushAlloc? && a != NULL && a !in s.owned then
        Put(s, t, PushData(s.threads[t].frame.d, a)).(owned := s.owned + {a})
      else s
    case Step(t) => if t < |s.threads| then Advance(s, t) else s
    case PoolWrite(a, nxt, d) =>
      if a != NULL && a !in s.owned then s.(next := s.next[a := nxt], data := s.data[a := d]) else s
  }

  function Run<T>(s: State<T>, ls: seq<Label<T>>): State<T>
    decreases |ls|
  {
    if ls == [] then s else Run(Exec(s, ls[0]), ls[1..])
  }

  /**
   * The two assumptions on integer widths: no Pop attempts its CAS when a positive multiple of
   * 2^64 CASs have succeeded since its read of _ID, and the list never outgrows a 32-bit count.
   */
  predicate WithinWidths<T>(s: State<T>, l: Label<T>) {
    l.Step? && l.t < |s.threads| ==>
      var th := s.threads[l.t];
      && (th.frame.PopCas? ==> |s.ops| == th.hist.ver || (|s.ops| - th.hist.ver) % MOD64 != 0)
      && (th.frame.PushCas? ==> |s.stack| < HALF32 - 1)
  }

  predicate RunWithinWidths<T>(s: State<T>, ls: seq<Label<T>>)
    decreases |ls|
  {
    ls == [] || (WithinWidths(s, ls[0]) && RunWithinWidths(Exec(s, ls[0]), ls[1..]))
  }

  lemma {:induction false} RunAppend<T>(s: State<T>, a: seq<Label<T>>, b: seq<Label<T>>)
    ensures Run(s, a + b) == Run(Run(s, a), b)
    ensures RunWithinWidths(s, a + b) == (RunWithinWidths(s, a) && RunWithinWidths(Run(s, a), b))
    decreases |a|
  {
    if a == [] {
      assert a + b == b;
    } else {
      assert (a + b)[0] == a[0] && (a + b)[1..] == a[1..] + b;
      RunAppend(Exec(s, a[0]), a[1..], b);
    }
  }
}
