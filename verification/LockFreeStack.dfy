/**
 * LockFreeStack<T> as an object whose members are updated in place. Push and Pop follow the
 * source statement by statement; between two of their accesses to shared memory any number of
 * transitions of other threads run, as an arbitrary schedule says. Each access is shown to be
 * the transition of StackMachine that its program point names.
 */
module LockFreeStackObject {
  import opened Common
  import opened StackMachine
  import opened StackInvariant
  import opened StackSteps
  import opened Schedules

  datatype PopResult<T> = Refused | Returned(value: T) | Fault

  /** The labels that thread t performs itself. */
  function Mine<T>(t: nat): Label<T> -> bool { (l: Label<T>) => !l.PoolWrite? && l.t == t }

  lemma AdvanceKeeps<T>(s: State<T>, t: nat, u: nat)
    requires t < |s.threads| && u < |s.threads| && u != t
    ensures |Advance(s, u).threads| == |s.threads| && Advance(s, u).threads[t] == s.threads[t]
  {
    match s.threads[u].frame
    case PushCas(_, _, _, _) =>
    case PopCas(_, _, _) =>
    case _ =>
  }

  lemma OtherKeeps<T>(s: State<T>, t: nat, l: Label<T>)
    requires t < |s.threads| && (l.PoolWrite? || l.t != t)
    ensures |Exec(s, l).threads| == |s.threads| && Exec(s, l).threads[t] == s.threads[t]
  {
    if l.Step? && l.t < |s.threads| { AdvanceKeeps(s, t, l.t); }
  }

  /** Other threads never move thread t. */
  lemma {:induction false} ForeignKeeps<T>(s: State<T>, t: nat, ls: seq<Label<T>>)
    requires t < |s.threads|
    ensures var s' := Run(s, Foreign(Mine(t), ls)); |s'.threads| == |s.threads| && s'.threads[t] == s.threads[t]
    decreases |ls|
  {
    if ls != [] {
      if Mine(t)(ls[0]) {
        assert [] + Foreign(Mine(t), ls[1..]) == Foreign(Mine(t), ls[1..]);
        ForeignKeeps(s, t, ls[1..]);
      } else {
        RunCons(s, ls[0], Foreign(Mine(t), ls[1..]));
        OtherKeeps(s, t, ls[0]);
        ForeignKeeps(Exec(s, ls[0]), t, ls[1..]);
      }
    }
  }

  lemma RunCons<T>(s: State<T>, l: Label<T>, ls: seq<Label<T>>)
    ensures Run(s, [l] + ls) == Run(Exec(s, l), ls)
  {
    assert ([l] + ls)[1..] == ls;
  }

  lemma RunSnoc<T>(s: State<T>, ls: seq<Label<T>>, l: Label<T>)
    ensures Run(s, ls + [l]) == Exec(Run(s, ls), l)
  {
    RunAppend(s, ls, [l]);
    assert [l][1..] == [];
  }

  lemma RunNothing<T>(s: State<T>)
    ensures Run(s, []) == s
  {
  }

  lemma NeverFaults<T>(s: State<T>, tr: seq<Label<T>>, t: nat)
    requires t < |Run(s, tr).threads|
    ensures Inv(s) && RunWithinWidths(s, tr) ==> !Run(s, tr).threads[t].frame.Crashed?
  {
    if Inv(s) && RunWithinWidths(s, tr) {
      RunInv(s, tr);
      assert FrameInv(Run(s, tr), t);
    }
  }

  /** What a completed call of thread t adds to the operations, read off the invariant. */
  lemma CallEffect<T>(s: State<T>, tr: seq<Label<T>>, t: nat)
    requires t < |s.threads| && s.threads[t].frame.Idle?
    requires t < |Run(s, tr).threads| && Run(s, tr).threads[t].frame.Idle?
    ensures Inv(s) && RunWithinWidths(s, tr) ==>
      var s' := Run(s, tr);
      && Inv(s')
      && PushesBy(s.ops, t) == s.threads[t].hist.asked && PushesBy(s'.ops, t) == s'.threads[t].hist.asked
      && PopsBy(s.ops, t) == s.threads[t].hist.got && PopsBy(s'.ops, t) == s'.threads[t].hist.got
  {
    if Inv(s) && RunWithinWidths(s, tr) {
      RunInv(s, tr);
      assert CallsInv(s, t) && CallsInv(Run(s, tr), t);
    }
  }

  class LockFreeStack<T> {
    var top: Addr
    var id: int
    var count: int
    var next: map<Addr, Addr>
    var data: map<Addr, T>
    var owned: set<Addr>
    var threads: seq<Thread<T>>
    var stack: seq<Cell<T>>
    var ops: seq<Op<T>>

    function State(): State<T>
      reads this
    {
      StackMachine.State(top, id, count, next, data, owned, threads, stack, ops)
    }

    constructor (n: nat)
      ensures State() == Init(n)
    {
      count := 0;
      top := NULL;
      id := -1;
      next, data, owned := map[], map[], {};
      threads := seq(n, i => Thread(Idle, History(0, 0, 0, [], [], 0)));
      stack, ops := [], [];
    }

    ghost predicate At(t: nat, f: Frame<T>)
      reads this
    {
      t < |threads| && threads[t].frame == f
    }

    /** What thread t was asked to push and has handed out is as before. */
    twostate predicate SameCalls(t: nat)
      reads this
    {
      && t < |old(threads)| && t < |threads|
      && threads[t].hist.asked == old(threads[t].hist.asked)
      && threads[t].hist.got == old(threads[t].hist.got)
    }

    /** Moves thread t to its next program point. */
    method Goto(t: nat, f: Frame<T>, h: History<T>)
      requires t < |threads|
      modifies this`threads
      ensures threads == old(threads)[t := Thread(f, h)]
    {
      threads := threads[t := Thread(f, h)];
    }

    method Enter(t: nat, d: T)
      requires At(t, Idle)
      modifies this
      ensures State() == Exec(old(State()), CallPush(t, d)) && At(t, PushAlloc(d))
      ensures threads[t].hist.got == old(threads[t].hist.got)
      ensures threads[t].hist.asked == old(threads[t].hist.asked) + [d]
    {
      Goto(t, PushAlloc(d), threads[t].hist.(asked := threads[t].hist.asked + [d]));
    }

    method EnterPop(t: nat)
      requires At(t, Idle)
      modifies this
      ensures State() == Exec(old(State()), CallPop(t)) && SameCalls(t) && At(t, PopReserve)
    {
      Goto(t, PopReserve, threads[t].hist);
    }

    /** FreeList::Alloc by its contract: some node that is in nobody's hands. */
    method FreshNode() returns (node: Addr)
      ensures node != NULL && node !in owned
    {
      node := 1;
      var left := owned;
      while node in owned
        invariant node >= 1 && left <= owned
        invariant forall a :: node <= a && a in owned ==> a in left
        decreases left
      {
        left := left - {node};
        node := node + 1;
      }
    }

    method Allocate(t: nat, d: T) returns (node: Addr)
      requires At(t, PushAlloc(d))
      modifies this
      ensures node != NULL && node !in old(owned)
      ensures State() == Exec(old(State()), Alloc(t, node)) && SameCalls(t) && At(t, PushData(d, node))
    {
      node := FreshNode();
      owned := owned + {node};
      Goto(t, PushData(d, node), threads[t].hist);
    }

    method WriteData(t: nat, node: Addr, d: T)
      requires At(t, PushData(d, node))
      modifies this
      ensures State() == Exec(old(State()), Step(t)) && SameCalls(t) && At(t, PushNull(d, node))
    {
      data := data[node := d];
      Goto(t, PushNull(d, node), threads[t].hist);
    }

    method ClearNext(t: nat, node: Addr, d: T)
      requires At(t, PushNull(d, node))
      modifies this
      ensures State() == Exec(old(State()), Step(t)) && SameCalls(t) && At(t, PushReadTop(d, node))
    {
      next := next[node := NULL];
      Goto(t, PushReadTop(d, node), threads[t].hist);
    }

    method WriteNext(t: nat, node: Addr, d: T, tmpTop: Addr, tmpId: int)
      requires At(t, PushLink(d, node, tmpTop, tmpId))
      modifies this
      ensures State() == Exec(old(State()), Step(t)) && SameCalls(t) && At(t, PushCas(d, node, tmpTop, tmpId))
      ensures top == old(top) && id == old(id)
    {
      next := next[node := tmpTop];
      Goto(t, PushCas(d, node, tmpTop, tmpId), threads[t].hist);
    }

    /** The read of _TopPtr, which does not read _ID with it. */
    method ReadTop(t: nat) returns (tmpTop: Addr)
      requires t < |threads| && (threads[t].frame.PushReadTop? || threads[t].frame.PopReadTop?)
      modifies this
      ensures State() == Exec(old(State()), Step(t)) && SameCalls(t)
      ensures threads[t].frame == match old(threads[t].frame)
        case PushReadTop(d, node) => PushReadId(d, node, tmpTop)
        case _ => PopReadId(tmpTop)
    {
      tmpTop := top;
      var h := threads[t].hist.(start := |ops|, fails := 0);
      var f := threads[t].frame;
      Goto(t, if f.PushReadTop? then PushReadId(f.d, f.node, tmpTop) else PopReadId(tmpTop), h);
    }

    method ReadId(t: nat) returns (tmpId: int)
      requires t < |threads| && (threads[t].frame.PushReadId? || threads[t].frame.PopReadId?)
      modifies this
      ensures State() == Exec(old(State()), Step(t)) && SameCalls(t)
      ensures threads[t].frame == match old(threads[t].frame)
        case PushReadId(d, node, tmpTop) => PushLink(d, node, tmpTop, tmpId)
        case PopReadId(tmpTop) => PopReadNext(tmpTop, tmpId)
        case _ => Idle
    {
      tmpId := id;
      var h := threads[t].hist.(ver := |ops|);
      var f := threads[t].frame;
      Goto(t, if f.PushReadId? then PushLink(f.d, f.node, f.top, tmpId) else PopReadNext(f.top, tmpId), h);
    }

    /** InterlockedCompareExchange128 in Push: on failure it reloads both halves together. */
    method PushExchange(t: nat, node: Addr, d: T, tmpTop: Addr, tmpId: int)
        returns (ok: bool, newTop: Addr, newId: int)
      requires At(t, PushCas(d, node, tmpTop, tmpId))
      modifies this
      ensures State() == Exec(old(State()), Step(t)) && SameCalls(t)
      ensures ok <==> old(top) == tmpTop && old(id) == tmpId
      ensures ok ==> At(t, PushCount)
      ensures !ok ==> At(t, PushLink(d, node, newTop, newId)) && newTop == top && newId == id
    {
      newTop, newId := top, id;
      ok := top == tmpTop && id == tmpId;
      if ok {
        top, id := node, Inc64(tmpId);
        stack, ops := [Cell(node, d)] + stack, ops + [Pushed(t, d)];
        Goto(t, PushCount, threads[t].hist);
      } else {
        Goto(t, PushLink(d, node, newTop, newId), threads[t].hist.(ver := |ops|, fails := threads[t].hist.fails + 1));
      }
    }

    /** InterlockedCompareExchange128 in Pop. */
    method PopExchange(t: nat, tmpTop: Addr, tmpId: int, nxt: Addr) returns (ok: bool, newTop: Addr, newId: int)
      requires At(t, PopCas(tmpTop, tmpId, nxt))
      modifies this
      ensures State() == Exec(old(State()), Step(t)) && SameCalls(t)
      ensures ok <==> old(top) == tmpTop && old(id) == tmpId
      ensures ok ==> At(t, PopReadData(tmpTop))
      ensures !ok ==> At(t, PopReadNext(newTop, newId)) && newTop == top && newId == id
    {
      newTop, newId := top, id;
      ok := top == tmpTop && id == tmpId;
      if ok {
        top, id := nxt, Inc64(tmpId);
        Goto(t, PopReadData(tmpTop), threads[t].hist);
        if stack != [] {
          stack, ops := stack[1..], ops + [Popped(t, stack[0].value)];
        }
      } else {
        Goto(t, PopReadNext(newTop, newId), threads[t].hist.(ver := |ops|, fails := threads[t].hist.fails + 1));
      }
    }

    method Increment(t: nat)
      requires At(t, PushCount) || At(t, PopRestore)
      modifies this
      ensures State() == Exec(old(State()), Step(t)) && SameCalls(t) && At(t, Idle)
      ensures count == Inc32(old(count))
    {
      count := Inc32(count);
      var h := threads[t].hist;
      Goto(t, Idle, if threads[t].frame.PopRestore? then h.(refused := h.refused + 1) else h);
    }

    method Decrement(t: nat) returns (now: int)
      requires At(t, PopReserve)
      modifies this
      ensures State() == Exec(old(State()), Step(t)) && SameCalls(t)
      ensures now == count && At(t, if now < 0 then PopRestore else PopReadTop)
    {
      count := Dec32(count);
      now := count;
      Goto(t, if now < 0 then PopRestore else PopReadTop, threads[t].hist);
    }

    /** tempTop._TopPtr->_Next; a pointer to no node ever written faults. */
    method ReadNext(t: nat, tmpTop: Addr, tmpId: int) returns (fault: bool, nxt: Addr)
      requires At(t, PopReadNext(tmpTop, tmpId))
      modifies this
      ensures State() == Exec(old(State()), Step(t)) && SameCalls(t) && top == old(top) && id == old(id)
      ensures fault ==> At(t, Crashed)
      ensures !fault ==> At(t, PopCas(tmpTop, tmpId, nxt))
    {
      fault := tmpTop == NULL || tmpTop !in next;
      nxt := if tmpTop in next then next[tmpTop] else NULL;
      Goto(t, if fault then Crashed else PopCas(tmpTop, tmpId, nxt), threads[t].hist);
    }

    method ReadData(t: nat, tmpTop: Addr) returns (r: PopResult<T>)
      requires At(t, PopReadData(tmpTop))
      modifies this
      ensures State() == Exec(old(State()), Step(t)) && !r.Refused? && t < |threads|
      ensures r.Fault? ==> At(t, Crashed)
      ensures r.Returned? ==>
        && At(t, PopFree(tmpTop)) && threads[t].hist.got == old(threads[t].hist.got) + [r.value]
        && threads[t].hist.asked == old(threads[t].hist.asked)
    {
      var h := threads[t].hist;
      if tmpTop in data {
        r := Returned(data[tmpTop]);
        Goto(t, PopFree(tmpTop), h.(got := h.got + [data[tmpTop]]));
      } else {
        r := Fault;
        Goto(t, Crashed, h);
      }
    }

    /** FreeList::Free; a node that is already in the pool faults. */
    method Free(t: nat, tmpTop: Addr) returns (fault: bool)
      requires At(t, PopFree(tmpTop))
      modifies this
      ensures State() == Exec(old(State()), Step(t)) && SameCalls(t)
      ensures At(t, if fault then Crashed else Idle)
    {
      fault := tmpTop !in owned;
      owned := owned - {tmpTop};
      Goto(t, if fault then Crashed else Idle, threads[t].hist);
    }

    /** One transition of another thread or of the pool. */
    method Transition(l: Label<T>)
      modifies this
      ensures State() == Exec(old(State()), l)
    {
      var s := Exec(State(), l);
      top, id, count, next, data := s.top, s.id, s.count, s.next, s.data;
      owned, threads, stack, ops := s.owned, s.threads, s.stack, s.ops;
    }

    /** After thread t's access l the rest of the system runs gap i of the schedule. */
    method Yield(t: nat, env: Schedule<Label<T>>, i: nat, ghost s0: State<T>, ghost own: seq<Label<T>>,
                 ghost l: Label<T>)
      requires t < |threads| && i == |own| && State() == Exec(Run(s0, Weave(Mine(t), own, env)), l)
      modifies this
      ensures State() == Run(s0, Weave(Mine(t), own + [l], env))
      ensures t < |threads| && threads[t] == old(threads[t])
      ensures i >= |env| ==> State() == old(State())
    {
      ghost var before := Weave(Mine(t), own, env);
      WeaveSnoc(Mine(t), own, l, env);
      RunSnoc(s0, before, l);
      RunAppend(s0, before + [l], Gap(Mine(t), env, i));
      RunNothing(State());
      if i < |env| {
        var ls := Foreign(Mine(t), env[i]);
        ForeignKeeps(State(), t, env[i]);
        var k := 0;
        while k < |ls|
          invariant k <= |ls| && Run(State(), ls[k..]) == Run(old(State()), ls)
        {
          Transition(ls[k]);
          k := k + 1;
        }
      }
    }

    /** The call of Push and its allocation. */
    method PushAllocates(t: nat, d: T, env: Schedule<Label<T>>, ghost s0: State<T>)
        returns (newNode: Addr, ghost own: seq<Label<T>>)
      requires At(t, Idle) && s0 == State()
      modifies this
      ensures State() == Run(s0, Weave(Mine(t), own, env)) && At(t, PushData(d, newNode))
      ensures own == [CallPush(t, d), Alloc(t, newNode)]
      ensures threads[t].hist.asked == old(threads[t].hist.asked) + [d]
      ensures threads[t].hist.got == old(threads[t].hist.got)
    {
      hide Run, Exec, Weave;
      RunNothing(s0);
      WeaveNothing(Mine(t), env);
      own := [];
      Enter(t, d);
      Yield(t, env, 0, s0, own, CallPush(t, d));
      own := own + [CallPush(t, d)];
      newNode := Allocate(t, d);
      Yield(t, env, 1, s0, own, Alloc(t, newNode));
      own := own + [Alloc(t, newNode)];
    }

    /** The writes of Push to its new node. */
    method PushWrites(t: nat, d: T, env: Schedule<Label<T>>, ghost s0: State<T>)
        returns (newNode: Addr, ghost own: seq<Label<T>>)
      requires At(t, Idle) && s0 == State()
      modifies this
      ensures State() == Run(s0, Weave(Mine(t), own, env)) && At(t, PushReadTop(d, newNode))
      ensures |own| == 4 && OneCall(Mine(t), CallPush(t, d), own)
      ensures threads[t].hist.asked == old(threads[t].hist.asked) + [d]
      ensures threads[t].hist.got == old(threads[t].hist.got)
    {
      hide Run, Exec, Weave;
      newNode, own := PushAllocates(t, d, env, s0);
      WriteData(t, newNode, d);
      Yield(t, env, 2, s0, own, Step(t));
      own := own + [Step(t)];
      ClearNext(t, newNode, d);
      Yield(t, env, 3, s0, own, Step(t));
      own := own + [Step(t)];
    }

    /** Push up to the first write of _Next that its CAS loop repeats. */
    method PushBegin(t: nat, d: T, env: Schedule<Label<T>>, ghost s0: State<T>)
        returns (newNode: Addr, tmpTop: Addr, tmpId: int, i: nat, ghost own: seq<Label<T>>)
      requires At(t, Idle) && s0 == State()
      modifies this
      ensures State() == Run(s0, Weave(Mine(t), own, env)) && At(t, PushLink(d, newNode, tmpTop, tmpId))
      ensures i == |own| && OneCall(Mine(t), CallPush(t, d), own)
      ensures threads[t].hist.asked == old(threads[t].hist.asked) + [d]
      ensures threads[t].hist.got == old(threads[t].hist.got)
    {
      hide Run, Exec, Weave;
      newNode, own := PushWrites(t, d, env, s0);
      tmpTop := ReadTop(t);
      Yield(t, env, 4, s0, own, Step(t));
      own := own + [Step(t)];
      tmpId := ReadId(t);
      Yield(t, env, 5, s0, own, Step(t));
      i, own := 6, own + [Step(t)];
    }

    /** The CAS loop of Push: once the schedule is used up, at most one more CAS fails. */
    method PushLoop(t: nat, d: T, newNode: Addr, top0: Addr, id0: int, env: Schedule<Label<T>>, i0: nat,
                    ghost s0: State<T>, ghost own0: seq<Label<T>>)
        returns (ghost own: seq<Label<T>>)
      requires At(t, PushLink(d, newNode, top0, id0)) && State() == Run(s0, Weave(Mine(t), own0, env))
      requires i0 == |own0| && OneCall(Mine(t), CallPush(t, d), own0)
      modifies this
      ensures State() == Run(s0, Weave(Mine(t), own, env)) && SameCalls(t) && At(t, PushCount)
      ensures OneCall(Mine(t), CallPush(t, d), own)
    {
      hide Run, Exec, Weave, OneCall;
      var tmpTop, tmpId, i, done := top0, id0, i0, false;
      own := own0;
      while !done
        invariant State() == Run(s0, Weave(Mine(t), own, env)) && SameCalls(t) && i == |own|
        invariant OneCall(Mine(t), CallPush(t, d), own)
        invariant At(t, if done then PushCount else PushLink(d, newNode, tmpTop, tmpId))
        decreases !done, if i < |env| then |env| - i else 0, if top == tmpTop && id == tmpId then 0 else 1
      {
        OneCallSnoc(Mine(t), CallPush(t, d), own, Step(t));
        WriteNext(t, newNode, d, tmpTop, tmpId);
        Yield(t, env, i, s0, own, Step(t));
        i, own := i + 1, own + [Step(t)];
        OneCallSnoc(Mine(t), CallPush(t, d), own, Step(t));
        done, tmpTop, tmpId := PushExchange(t, newNode, d, tmpTop, tmpId);
        Yield(t, env, i, s0, own, Step(t));
        i, own := i + 1, own + [Step(t)];
      }
    }

    /**
     * Push, with an arbitrary schedule of everyone else in every gap between its accesses. It
     * always returns. The call is a run of StackMachine, so within the integer widths it keeps
     * the invariant and takes effect exactly once.
     */
    method Push(t: nat, d: T, env: Schedule<Label<T>>)
        returns (ok: bool, ghost own: seq<Label<T>>, ghost tr: seq<Label<T>>)
      requires At(t, Idle)
      modifies this
      ensures ok && At(t, Idle) && State() == Run(old(State()), tr)
      ensures Woven(Mine(t), CallPush(t, d), own, env, tr)
      ensures Inv(old(State())) && RunWithinWidths(old(State()), tr) ==>
        Inv(State()) && PushesBy(ops, t) == PushesBy(old(ops), t) + [d] && PopsBy(ops, t) == PopsBy(old(ops), t)
    {
      hide Run, Exec, Inv, Weave;
      ghost var s0 := State();
      var newNode, tmpTop, tmpId, i;
      newNode, tmpTop, tmpId, i, own := PushBegin(t, d, env, s0);
      own := PushLoop(t, d, newNode, tmpTop, tmpId, env, i, s0, own);
      Increment(t);
      RunSnoc(s0, Weave(Mine(t), own, env), Step(t));
      WovenLast(Mine(t), CallPush(t, d), own, Step(t), env);
      tr := Weave(Mine(t), own, env) + [Step(t)];
      own := own + [Step(t)];
      CallEffect(s0, tr, t);
      ok := true;
    }

    /** The two reads of the head, torn apart by a gap. */
    method PopReads(t: nat, env: Schedule<Label<T>>, i0: nat, ghost s0: State<T>, ghost own0: seq<Label<T>>)
        returns (tmpTop: Addr, tmpId: int, ghost own: seq<Label<T>>)
      requires At(t, PopReadTop) && State() == Run(s0, Weave(Mine(t), own0, env)) && i0 == |own0|
      modifies this
      ensures State() == Run(s0, Weave(Mine(t), own, env)) && SameCalls(t)
      ensures own == own0 + [Step(t), Step(t)] && At(t, PopReadNext(tmpTop, tmpId))
    {
      hide Run, Exec, Weave;
      tmpTop := ReadTop(t);
      Yield(t, env, i0, s0, own0, Step(t));
      own := own0 + [Step(t)];
      tmpId := ReadId(t);
      Yield(t, env, i0 + 1, s0, own, Step(t));
      own := own + [Step(t)];
    }

    /** The CAS loop of Pop, from its reservation to its success or a fault. */
    method PopLoop(t: nat, env: Schedule<Label<T>>, i0: nat, ghost s0: State<T>, ghost own0: seq<Label<T>>)
        returns (fault: bool, popped: Addr, i: nat, ghost own: seq<Label<T>>)
      requires At(t, PopReadTop) && State() == Run(s0, Weave(Mine(t), own0, env)) && i0 == |own0|
      requires OneCall(Mine(t), CallPop(t), own0)
      modifies this
      ensures State() == Run(s0, Weave(Mine(t), own, env)) && SameCalls(t) && i == |own|
      ensures OneCall(Mine(t), CallPop(t), own)
      ensures At(t, if fault then Crashed else PopReadData(popped))
    {
      hide Run, Exec, Weave, OneCall;
      var tmpTop, tmpId;
      TwoMore(Mine(t), CallPop(t), own0, Step(t));
      tmpTop, tmpId, own := PopReads(t, env, i0, s0, own0);
      i := i0 + 2;
      var done, nxt := false, NULL;
      fault, popped := false, tmpTop;
      while !done
        invariant State() == Run(s0, Weave(Mine(t), own, env)) && SameCalls(t) && i == |own|
        invariant OneCall(Mine(t), CallPop(t), own)
        invariant fault ==> done
        invariant At(t, if fault then Crashed else if done then PopReadData(popped) else PopReadNext(tmpTop, tmpId))
        decreases !done, if i < |env| then |env| - i else 0, if top == tmpTop && id == tmpId then 0 else 1
      {
        OneCallSnoc(Mine(t), CallPop(t), own, Step(t));
        fault, nxt := ReadNext(t, tmpTop, tmpId);
        Yield(t, env, i, s0, own, Step(t));
        i, own := i + 1, own + [Step(t)];
        if fault {
          done := true;
        } else {
          OneCallSnoc(Mine(t), CallPop(t), own, Step(t));
          popped := tmpTop;
          done, tmpTop, tmpId := PopExchange(t, tmpTop, tmpId, nxt);
          Yield(t, env, i, s0, own, Step(t));
          i, own := i + 1, own + [Step(t)];
        }
      }
    }

    /** Pop after its CAS: hand out the data and give the node back. */
    method PopFinish(t: nat, popped: Addr, env: Schedule<Label<T>>, i: nat, ghost s0: State<T>,
                     ghost own0: seq<Label<T>>)
        returns (r: PopResult<T>, ghost own: seq<Label<T>>, ghost tr: seq<Label<T>>)
      requires At(t, PopReadData(popped)) && State() == Run(s0, Weave(Mine(t), own0, env)) && i == |own0|
      requires OneCall(Mine(t), CallPop(t), own0)
      modifies this
      ensures State() == Run(s0, tr) && !r.Refused? && t < |threads|
      ensures Woven(Mine(t), CallPop(t), own, env, tr)
      ensures r.Fault? ==> At(t, Crashed)
      ensures r.Returned? ==> At(t, Idle) && threads[t].hist.got == old(threads[t].hist.got) + [r.value]
      ensures r.Returned? ==> threads[t].hist.asked == old(threads[t].hist.asked)
    {
      hide Run, Exec, Weave;
      r := ReadData(t, popped);
      Yield(t, env, i, s0, own0, Step(t));
      own := own0 + [Step(t)];
      tr := Weave(Mine(t), own, env);
      if r.Returned? {
        var fault := Free(t, popped);
        RunSnoc(s0, tr, Step(t));
        WovenLast(Mine(t), CallPop(t), own, Step(t), env);
        tr := tr + [Step(t)];
        own := own + [Step(t)];
        r := if fault then Fault else r;
      }
    }

    /** Pop up to what the count says. */
    method PopBegin(t: nat, env: Schedule<Label<T>>, ghost s0: State<T>)
        returns (now: int, ghost own: seq<Label<T>>)
      requires At(t, Idle) && s0 == State()
      modifies this
      ensures State() == Run(s0, Weave(Mine(t), own, env)) && SameCalls(t)
      ensures own == [CallPop(t), Step(t)] && At(t, if now < 0 then PopRestore else PopReadTop)
    {
      hide Run, Exec, Weave;
      RunNothing(s0);
      WeaveNothing(Mine(t), env);
      own := [];
      EnterPop(t);
      Yield(t, env, 0, s0, own, CallPop(t));
      own := own + [CallPop(t)];
      now := Decrement(t);
      Yield(t, env, 1, s0, own, Step(t));
      own := own + [Step(t)];
    }

    /**
     * Pop, with an arbitrary schedule of everyone else in every gap between its accesses. Within
     * the integer widths it never faults, and what it returns is what its own operation took from
     * the abstract stack.
     */
    method Pop(t: nat, env: Schedule<Label<T>>)
        returns (r: PopResult<T>, ghost own: seq<Label<T>>, ghost tr: seq<Label<T>>)
      requires At(t, Idle)
      modifies this
      ensures State() == Run(old(State()), tr) && t < |threads|
      ensures Woven(Mine(t), CallPop(t), own, env, tr)
      ensures !r.Fault? ==> At(t, Idle)
      ensures Inv(old(State())) && RunWithinWidths(old(State()), tr) ==>
        && Inv(State()) && !r.Fault? && PushesBy(ops, t) == PushesBy(old(ops), t)
        && PopsBy(ops, t) == PopsBy(old(ops), t) + if r.Returned? then [r.value] else []
    {
      hide Run, Exec, Inv, Weave;
      ghost var s0 := State();
      var now;
      now, own := PopBegin(t, env, s0);
      if now < 0 {
        Increment(t);
        RunSnoc(s0, Weave(Mine(t), own, env), Step(t));
        WovenLast(Mine(t), CallPop(t), own, Step(t), env);
        tr := Weave(Mine(t), own, env) + [Step(t)];
        own := own + [Step(t)];
        r := Refused;
      } else {
        var fault, popped, i;
        fault, popped, i, own := PopLoop(t, env, 2, s0, own);
        if fault {
          r, tr := Fault, Weave(Mine(t), own, env);
        } else {
          r, own, tr := PopFinish(t, popped, env, i, s0, own);
        }
      }
      if r.Fault? {
        NeverFaults(s0, tr, t);
      } else {
        CallEffect(s0, tr, t);
      }
    }

    /** m_Count, which is the length of the list when nobody is inside a call. */
    method GetStackCount() returns (r: int)
      ensures r == count
      ensures Inv(State()) && (forall t :: 0 <= t < |threads| ==> threads[t].frame.Idle?) ==> r == |stack|
    {
      r := count;
      if Inv(State()) && (forall t :: 0 <= t < |threads| ==> threads[t].frame.Idle?) { NoneTallied(threads); }
    }

    /** FreeList::Free, called on a node the pool does not own. */
    method Release(a: Addr)
      requires a in owned
      modifies this`owned
      ensures owned == old(owned) - {a}
    {
      owned := owned - {a};
    }

    /** The destructor: it walks the list and frees every node once; nothing stays outside the pool. */
    method Destroy() returns (ghost freed: seq<Addr>)
      requires Inv(State()) && forall t :: 0 <= t < |threads| ==> threads[t].frame.Idle?
      modifies this`owned
      ensures owned == {}
      ensures |freed| == |stack| && forall i :: 0 <= i < |freed| ==> freed[i] == stack[i].addr
      ensures forall i, j :: 0 <= i < j < |freed| ==> freed[i] != freed[j]
    {
      var curNode := top;
      ghost var k := 0;
      freed := [];
      assert stack != [] ==> CellInv(State(), 0);
      while curNode != NULL
        invariant k == |freed| <= |stack|
        invariant curNode == (if k < |stack| then stack[k].addr else NULL) && (k < |stack| ==> curNode != NULL)
        invariant forall i :: 0 <= i < k ==> freed[i] == stack[i].addr
        invariant forall a :: a in owned <==> a in old(owned) && a !in freed
        decreases |stack| - k
      {
        assert CellInv(old(State()), k);
        var delNode := curNode;
        curNode := next[curNode];
        Release(delNode);
        freed := freed + [delNode];
        k := k + 1;
        assert k < |stack| ==> CellInv(old(State()), k);
      }
      forall a | a in old(owned) ensures a in freed {
        assert InStack(old(State()), a);
      }
    }
  }
}
