/**
 * The invariant of StackMachine: the nodes reachable from the head are exactly the
 * abstract stack, every node outside the pool has one holder, and m_Count is accounted for.
 */
module StackInvariant {
  import opened Common
  import opened StackMachine
  import opened Tallies

  /** What a thread contributes to the account of m_Count. */
  function KindOf<T>(f: Frame<T>): Kind {
    match f
    case PushCount => Uncounted
    case PopReadTop | PopReadId(_) | PopReadNext(_, _) | PopCas(_, _, _) => Reserved
    case PopRestore => Failing
    case _ => Neutral
  }

  /** The node a thread owns: a Push before its CAS, a Pop after its CAS. */
  function Held<T>(f: Frame<T>): Addr {
    match f
    case PushData(_, n) => n
    case PushNull(_, n) => n
    case PushReadTop(_, n) => n
    case PushReadId(_, n, _) => n
    case PushLink(_, n, _, _) => n
    case PushCas(_, n, _, _) => n
    case PopReadData(n) => n
    case PopFree(n) => n
    case _ => NULL
  }

  function Kinds<T>(ts: seq<Thread<T>>): seq<Kind> {
    seq(|ts|, t requires 0 <= t < |ts| => KindOf(ts[t].frame))
  }

  function Tally<T>(ts: seq<Thread<T>>, k: Kind): nat { Count(Kinds(ts), k) }

  function PushesBy<T>(ops: seq<Op<T>>, t: nat): seq<T> {
    if ops == [] then [] else
      var e := ops[|ops| - 1];
      PushesBy(ops[..|ops| - 1], t) + if e.Pushed? && e.who == t then [e.value] else []
  }

  function PopsBy<T>(ops: seq<Op<T>>, t: nat): seq<T> {
    if ops == [] then [] else
      var e := ops[|ops| - 1];
      PopsBy(ops[..|ops| - 1], t) + if e.Popped? && e.who == t then [e.value] else []
  }

  /** The sequential specification: the stack after ops, if every pop returned the top. */
  ghost function Replay<T>(ops: seq<Op<T>>): Option<seq<T>> {
    if ops == [] then Some([]) else
      match (Replay(ops[..|ops| - 1]), ops[|ops| - 1])
      case (Some(st), Pushed(_, v)) => Some([v] + st)
      case (Some(st), Popped(_, v)) => if st != [] && st[0] == v then Some(st[1..]) else None
      case (None, _) => None
  }

  function Values<T>(st: seq<Cell<T>>): (r: seq<T>)
    ensures |r| == |st|
  {
    seq(|st|, i requires 0 <= i < |st| => st[i].value)
  }

  ghost predicate InStack<T>(s: State<T>, a: Addr) {
    exists i | 0 <= i < |s.stack| :: s.stack[i].addr == a
  }

  ghost predicate HeldBySome<T>(s: State<T>, a: Addr) {
    exists t :: 0 <= t < |s.threads| && Held(s.threads[t].frame) == a
  }

  ghost predicate HeadInv<T>(s: State<T>) {
    && s.top == (if s.stack == [] then NULL else s.stack[0].addr)
    && s.id == IdOf(|s.ops|)
    && Replay(s.ops) == Some(Values(s.stack))
    && (forall i :: 0 <= i < |s.ops| ==> s.ops[i].who < |s.threads|)
  }

  /** Node i of the abstract stack is a linked node carrying its value. */
  ghost predicate CellInv<T>(s: State<T>, i: nat)
    requires i < |s.stack|
  {
    var a := s.stack[i].addr;
    && a != NULL && a in s.owned
    && a in s.next && s.next[a] == (if i + 1 < |s.stack| then s.stack[i + 1].addr else NULL)
    && a in s.data && s.data[a] == s.stack[i].value
  }

  ghost predicate ChainInv<T>(s: State<T>) {
    && (forall i :: 0 <= i < |s.stack| ==> CellInv(s, i))
    && (forall i, j :: 0 <= i < j < |s.stack| ==> s.stack[i].addr != s.stack[j].addr)
  }

  ghost predicate OwnerInv<T>(s: State<T>) {
    && (forall t :: 0 <= t < |s.threads| && Held(s.threads[t].frame) != NULL ==>
          Held(s.threads[t].frame) in s.owned && !InStack(s, Held(s.threads[t].frame)))
    && (forall t, u :: 0 <= t < u < |s.threads| && Held(s.threads[t].frame) != NULL ==>
          Held(s.threads[t].frame) != Held(s.threads[u].frame))
    && (forall a :: a in s.owned ==>
          a != NULL && (InStack(s, a) || HeldBySome(s, a)))
  }

  ghost predicate CountInv<T>(s: State<T>) {
    && s.count == |s.stack| - Tally(s.threads, Uncounted) - Tally(s.threads, Reserved) - Tally(s.threads, Failing)
    && s.count + Tally(s.threads, Failing) >= 0
    && |s.threads| <= HALF32
    && |s.stack| < HALF32
  }

  /** Successful CASs by threads other than t since there were `start` of them. */
  function CasByOthers<T>(ops: seq<Op<T>>, start: nat, t: nat): nat {
    if |ops| <= start then 0
    else CasByOthers(ops[..|ops| - 1], start, t) + if ops[|ops| - 1].who != t then 1 else 0
  }

  /** Thread t, inside its CAS loop, has had no success since the loop began. */
  ghost predicate InLoop<T>(s: State<T>, t: nat, h: History<T>) {
    h.start <= |s.ops| && forall i :: h.start <= i < |s.ops| ==> s.ops[i].who != t
  }

  /** What a thread knows about the (pointer, ID) pair it will compare. */
  ghost predicate Snapshot<T>(s: State<T>, t: nat, h: History<T>, top: Addr, id: int) {
    && InLoop(s, t, h)
    && h.start <= h.ver <= |s.ops|
    && id == IdOf(h.ver)
    && h.fails <= h.ver - h.start
    && (h.ver == |s.ops| ==> top == s.top || (h.fails == 0 && h.start < h.ver))
  }

  /** Between the read of _TopPtr and the read of _ID. */
  ghost predicate TornRead<T>(s: State<T>, t: nat, h: History<T>, top: Addr) {
    InLoop(s, t, h) && h.fails == 0 && (h.start == |s.ops| ==> top == s.top)
  }

  /** The node n carries d. */
  ghost predicate Carries<T>(s: State<T>, n: Addr, d: T) {
    n != NULL && n in s.data && s.data[n] == d
  }

  ghost predicate FrameInv<T>(s: State<T>, t: nat)
    requires t < |s.threads|
  {
    var h := s.threads[t].hist;
    match s.threads[t].frame
    case PushData(_, n) => n != NULL
    case PushNull(d, n) => Carries(s, n, d)
    case PushReadTop(d, n) => Carries(s, n, d)
    case PushReadId(d, n, top) => Carries(s, n, d) && TornRead(s, t, h, top)
    case PushLink(d, n, top, id) => Carries(s, n, d) && Snapshot(s, t, h, top, id)
    case PushCas(d, n, top, id) =>
      Carries(s, n, d) && Snapshot(s, t, h, top, id) && n in s.next && s.next[n] == top
    case PushCount => h.fails <= CasByOthers(s.ops, h.start, t)
    case PopReadId(top) => top != NULL && top in s.next && TornRead(s, t, h, top)
    case PopReadNext(top, id) => top != NULL && top in s.next && Snapshot(s, t, h, top, id)
    case PopCas(top, id, nxt) =>
      && top != NULL && Snapshot(s, t, h, top, id)
      && (h.ver == |s.ops| && top == s.top ==> nxt == NextOf(s, top))
    case PopReadData(top) => top != NULL && h.fails <= CasByOthers(s.ops, h.start, t)
    case PopFree(top) => top != NULL && h.fails <= CasByOthers(s.ops, h.start, t)
    case Crashed => false
    case _ => true
  }

  /** The calls of thread t and the operations recorded for it agree, but for one in progress. */
  ghost predicate CallsInv<T>(s: State<T>, t: nat)
    requires t < |s.threads|
  {
    var f := s.threads[t].frame;
    var h := s.threads[t].hist;
    && h.asked == PushesBy(s.ops, t) +
         (if f.PushAlloc? || f.PushData? || f.PushNull? || f.PushReadTop? || f.PushReadId? || f.PushLink? || f.PushCas?
          then [f.d] else [])
    && (f.PopReadData? ==> f.top in s.data)
    && PopsBy(s.ops, t) == h.got + if f.PopReadData? then [s.data[f.top]] else []
  }

  ghost predicate ThreadsInv<T>(s: State<T>) {
    forall t :: 0 <= t < |s.threads| ==> FrameInv(s, t) && CallsInv(s, t)
  }

  ghost predicate Inv<T>(s: State<T>) {
    HeadInv(s) && ChainInv(s) && OwnerInv(s) && CountInv(s) && ThreadsInv(s)
  }

  lemma TallyUpdate<T>(ts: seq<Thread<T>>, t: nat, th: Thread<T>, k: Kind)
    requires t < |ts|
    ensures Tally(ts[t := th], k) ==
      Tally(ts, k) - (if KindOf(ts[t].frame) == k then 1 else 0) + (if KindOf(th.frame) == k then 1 else 0)
  {
    assert Kinds(ts[t := th]) == Kinds(ts)[t := KindOf(th.frame)];
    CountUpdate(Kinds(ts), t, KindOf(th.frame), k);
  }

  lemma TallyAtLeast<T>(ts: seq<Thread<T>>, t: nat, k: Kind)
    requires t < |ts|
    requires KindOf(ts[t].frame) == k
    ensures Tally(ts, k) >= 1
  {
    CountAtLeast(Kinds(ts), t);
  }

  lemma TallySum<T>(ts: seq<Thread<T>>)
    ensures Tally(ts, Uncounted) + Tally(ts, Reserved) + Tally(ts, Failing) <= |ts|
  {
    CountSum(Kinds(ts));
  }

  lemma TallyAll<T>(s: State<T>, t: nat, th: Thread<T>)
    requires t < |s.threads|
    ensures forall k :: (Tally(s.threads[t := th], k) == Tally(s.threads, k)
      - (if KindOf(s.threads[t].frame) == k then 1 else 0) + (if KindOf(th.frame) == k then 1 else 0))
  {
    forall k { TallyUpdate(s.threads, t, th, k); }
  }

  /** A Pop holding a reservation guarantees a linked node. */
  lemma ReservedMeansLinked<T>(s: State<T>, t: nat)
    requires Inv(s) && t < |s.threads| && KindOf(s.threads[t].frame) == Reserved
    ensures s.stack != [] && s.top != NULL && s.top in s.next
  {
    TallyAtLeast(s.threads, t, Reserved);
    assert CellInv(s, 0);
  }

  lemma InitInv<T>(n: nat)
    requires n <= HALF32
    ensures Inv(Init<T>(n))
  {
    var s := Init<T>(n);
    NoneTallied(s.threads);
    assert Values<T>([]) == [];
  }

  lemma NoneTallied<T>(ts: seq<Thread<T>>)
    requires forall t :: 0 <= t < |ts| ==> KindOf(ts[t].frame) == Neutral
    ensures Tally(ts, Uncounted) == 0 && Tally(ts, Reserved) == 0 && Tally(ts, Failing) == 0
  {
    CountNone(Kinds(ts));
  }

  /** Beside the threads and m_Count, s and s' differ only in the node p. */
  ghost predicate Quiet<T>(s: State<T>, s': State<T>, p: Addr) {
    && s'.top == s.top && s'.id == s.id && s.next.Keys <= s'.next.Keys
    && (forall a :: a != p ==> (a in s'.owned <==> a in s.owned))
    && s'.stack == s.stack && s'.ops == s.ops && |s'.threads| == |s.threads|
    && (forall a :: a in s.owned && a != p ==>
          && (a in s'.next <==> a in s.next) && (a in s.next ==> s'.next[a] == s.next[a])
          && (a in s'.data <==> a in s.data) && (a in s.data ==> s'.data[a] == s.data[a]))
  }

  lemma ChainKept<T>(s: State<T>, s': State<T>, p: Addr)
    requires HeadInv(s) && ChainInv(s) && Quiet(s, s', p) && !InStack(s, p)
    ensures HeadInv(s') && ChainInv(s')
    ensures s.stack != [] ==> NextOf(s', s.top) == NextOf(s, s.top)
  {
    forall i | 0 <= i < |s.stack| ensures s.stack[i].addr != p && CellInv(s', i) {
      assert CellInv(s, i);
      assert InStack(s, s.stack[i].addr);
    }
  }

  lemma NullNotInStack<T>(s: State<T>)
    requires ChainInv(s)
    ensures !InStack(s, NULL)
  {
    forall i | 0 <= i < |s.stack| ensures s.stack[i].addr != NULL { assert CellInv(s, i); }
  }

  lemma ThreadKept<T>(s: State<T>, s': State<T>, p: Addr, u: nat)
    requires HeadInv(s) && ChainInv(s) && OwnerInv(s) && Quiet(s, s', p) && !InStack(s, p)
    requires u < |s.threads| && s'.threads[u] == s.threads[u]
    requires FrameInv(s, u) && CallsInv(s, u)
    requires p != NULL ==> Held(s.threads[u].frame) != p
    ensures FrameInv(s', u) && CallsInv(s', u)
  {
    ChainKept(s, s', p);
    var f := s.threads[u].frame;
    assert Held(f) != NULL ==> Held(f) in s.owned && Held(f) != p;
    match f {
      case PopCas(top, id, nxt) =>
      case PopReadData(top) =>
      case PushCas(d, n, top, id) =>
      case _ =>
    }
  }

  lemma SameHolders<T>(s: State<T>, s': State<T>, t: nat)
    requires OwnerInv(s) && t < |s.threads| == |s'.threads|
    requires s'.stack == s.stack && s'.owned == s.owned
    requires s'.threads == s.threads[t := s'.threads[t]]
    requires Held(s'.threads[t].frame) == Held(s.threads[t].frame)
    ensures OwnerInv(s')
  {
    assert forall u :: 0 <= u < |s.threads| ==> Held(s'.threads[u].frame) == Held(s.threads[u].frame);
    forall a | a in s'.owned && !InStack(s', a)
      ensures a != NULL && HeldBySome(s', a)
    {
      assert !InStack(s, a);
      var u :| 0 <= u < |s.threads| && Held(s.threads[u].frame) == a;
      assert Held(s'.threads[u].frame) == a;
    }
  }

  /** A step that changes one thread, the memory of the node it holds, and perhaps m_Count. */
  lemma OwnStep<T>(s: State<T>, s': State<T>, t: nat)
    requires Inv(s) && t < |s.threads|
    requires Quiet(s, s', Held(s.threads[t].frame)) && s'.owned == s.owned
    requires |s'.threads| == |s.threads| && s'.threads == s.threads[t := s'.threads[t]]
    requires Held(s'.threads[t].frame) == Held(s.threads[t].frame)
    requires FrameInv(s', t) && CallsInv(s', t)
    requires CountInv(s')
    ensures Inv(s')
  {
    var p := Held(s.threads[t].frame);
    NullNotInStack(s);
    ChainKept(s, s', p);
    SameHolders(s, s', t);
    forall u | 0 <= u < |s'.threads| ensures FrameInv(s', u) && CallsInv(s', u) {
      if u != t { ThreadKept(s, s', p, u); }
    }
  }
}
