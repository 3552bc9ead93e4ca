/**
 * The ring logs as an object whose buffer is overwritten in place. Between two accesses of a call
 * any number of other calls make theirs, as an arbitrary schedule says, and each access is the
 * transition of RingLog that its program point names.
 */
module MemoryLogObject {
  import opened Common
  import opened RingLog
  import opened Schedules

  /** The labels that thread t performs itself. */
  function Mine(t: nat): Label -> bool { (l: Label) => l.t == t }

  lemma OtherKeeps(s: Log, t: nat, l: Label)
    requires Shape(s) && t < |s.threads| && l.t != t
    ensures |Exec(s, l).threads| == |s.threads| && Exec(s, l).threads[t] == s.threads[t]
  {
  }

  /** Other threads never move thread t. */
  lemma {:induction false} ForeignKeeps(s: Log, t: nat, ls: seq<Label>)
    requires Shape(s) && t < |s.threads|
    ensures var s' := Run(s, Foreign(Mine(t), ls)); |s'.threads| == |s.threads| && s'.threads[t] == s.threads[t]
    decreases |ls|
  {
    if ls != [] {
      var rest := Foreign(Mine(t), ls[1..]);
      if Mine(t)(ls[0]) {
        assert [] + rest == rest;
        ForeignKeeps(s, t, ls[1..]);
      } else {
        assert ([ls[0]] + rest)[1..] == rest;
        OtherKeeps(s, t, ls[0]);
        ForeignKeeps(Exec(s, ls[0]), t, ls[1..]);
      }
    }
  }

  lemma RunSnoc(s: Log, ls: seq<Label>, l: Label)
    requires Shape(s)
    ensures Run(s, ls + [l]) == Exec(Run(s, ls), l)
  {
    RunAppend(s, ls, [l]);
    assert [l][1..] == [];
  }

  lemma RunNothing(s: Log)
    requires Shape(s)
    ensures Run(s, []) == s
  {
  }

  /** Slot of ticket k in s holds e, the entry of that ticket. */
  ghost predicate Logged(s: Log, k: nat, e: Row) {
    && Inv(s) && |e| <= s.width && 1 <= k <= |s.payload| && s.payload[k - 1] == e
    && s.buffer[Slot(k, s.max)] == Padded(e, s.width)
  }

  lemma LastWrite(m: Log, t: nat)
    requires Inv(m) && t < |m.threads| && m.threads[t].Writing? && m.threads[t].j == |m.threads[t].entry|
    requires Inv(Exec(m, Step(t)))
    ensures Logged(Exec(m, Step(t)), m.threads[t].ticket, m.threads[t].entry)
  {
    var p := m.threads[t];
    assert PhaseInv(m, p);
    assert m.buffer[Slot(p.ticket, m.max)] == Padded(p.entry, m.width);
  }

  /** The last access of a call leaves its whole entry in the slot of its own ticket. */
  lemma LastAccess(s: Log, tr: seq<Label>, t: nat)
    requires Shape(s) && t < |Run(s, tr).threads| && Run(s, tr).threads[t].Writing?
    requires Run(s, tr).threads[t].j == |Run(s, tr).threads[t].entry|
    ensures Inv(s) && RunWithinRing(s, tr + [Step(t)]) ==>
      Logged(Run(s, tr + [Step(t)]), Run(s, tr).threads[t].ticket, Run(s, tr).threads[t].entry)
  {
    hide Inv, Exec, Logged;
    if Inv(s) && RunWithinRing(s, tr + [Step(t)]) {
      RunAppend(s, tr, [Step(t)]);
      RunSnoc(s, tr, Step(t));
      RunInv(s, tr);
      RunInv(s, tr + [Step(t)]);
      LastWrite(Run(s, tr), t);
    }
  }

  ghost function RowAt(buffer: array2<int>, q: nat): Row
    requires q < buffer.Length0
    reads buffer
  {
    seq(buffer.Length1, j requires 0 <= j < buffer.Length1 reads buffer => buffer[q, j])
  }

  ghost function Rows(buffer: array2<int>): seq<Row>
    reads buffer
  {
    seq(buffer.Length0, q requires 0 <= q < buffer.Length0 reads buffer => RowAt(buffer, q))
  }

  class MemoryLogging {
    /** MAX_SIZE, the words of a slot, and whether m_Count stamps the entries. */
    const max: nat
    const width: nat
    const stamped: bool
    var buffer: array2<int>
    var index: nat
    var count: nat
    var threads: seq<Phase>
    /** Entries by ticket and tickets by stamp: history variables. */
    ghost var payload: seq<Row>
    ghost var order: seq<nat>

    ghost function Image(): Log
      reads this, buffer
    {
      Log(max, width, stamped, index, count, Rows(buffer), threads, payload, order)
    }

    ghost predicate Valid()
      reads this, buffer
    {
      buffer.Length0 == max && buffer.Length1 == width && Shape(Image())
    }

    constructor (max: nat, width: nat, stamped: bool, n: nat)
      requires max > 0
      ensures Valid() && fresh(buffer) && Image() == Init(max, width, stamped, n)
    {
      this.max, this.width, this.stamped := max, width, stamped;
      index, count, payload, order := 0, 0, [], [];
      threads := seq(n, _ => Idle);
      buffer := new int[max, width]((i, j) => 0);
      new;
      assert forall q :: 0 <= q < max ==> RowAt(buffer, q) == Zeros(width);
    }

    method SetCell(q: nat, j: nat, w: int)
      requires q < buffer.Length0 && j < buffer.Length1
      modifies buffer
      ensures Rows(buffer) == old(Rows(buffer))[q := old(Rows(buffer))[q][j := w]]
    {
      buffer[q, j] := w;
      assert RowAt(buffer, q) == old(RowAt(buffer, q))[j := w];
      assert forall p :: 0 <= p < buffer.Length0 && p != q ==> RowAt(buffer, p) == old(RowAt(buffer, p));
    }

    /** The slot a ticket leads to. */
    function SlotOf(k: nat): (q: nat)
      requires max > 0
      ensures q == Slot(k, max) && q < max
    {
      k % max
    }

    /** InterlockedIncrement on m_Index. */
    method DrawTicket(t: nat, e: Row)
      requires Valid() && t < |threads| && threads[t].Idle? && Fits(Image(), e) && index + 1 < MOD64
      modifies this`index, this`threads, this`payload
      ensures Valid() && Image() == Exec(old(Image()), Call(t, e))
      ensures threads == old(threads)[t := Zeroing(index, e, 0)] && index == old(index) + 1
    {
      index := index + 1;
      threads := threads[t := Zeroing(index, e, 0)];
      payload := payload + [e];
      assert Rows(buffer) == old(Rows(buffer));
    }

    /** One word of ZeroMemory, or the end of it. */
    method ZeroWord(t: nat)
      requires Valid() && t < |threads| && threads[t].Zeroing?
      modifies this`threads, buffer
      ensures Valid() && Image() == Exec(old(Image()), Step(t))
      ensures threads == old(threads)[t :=
        var p := old(threads[t]);
        if p.j < width then Zeroing(p.ticket, p.entry, p.j + 1)
        else if stamped then Counting(p.ticket, p.entry) else Writing(p.ticket, p.entry, 0)]
    {
      var p := threads[t];
      if p.j < width {
        SetCell(SlotOf(p.ticket), p.j, 0);
        threads := threads[t := Zeroing(p.ticket, p.entry, p.j + 1)];
      } else {
        threads := threads[t := if stamped then Counting(p.ticket, p.entry) else Writing(p.ticket, p.entry, 0)];
        assert Rows(buffer) == old(Rows(buffer));
      }
    }

    /** InterlockedIncrement on m_Count: its result is the first word. */
    method DrawStamp(t: nat)
      requires Valid() && t < |threads| && threads[t].Counting?
      requires |threads[t].entry| > 0 && 1 <= threads[t].ticket <= |payload|
      modifies this`threads, this`count, this`payload, this`order
      ensures Valid() && Image() == Exec(old(Image()), Step(t)) && count == old(count) + 1
      ensures threads == old(threads)[t := var p := old(threads[t]); Writing(p.ticket, p.entry[0 := count], 0)]
    {
      var p := threads[t];
      count := count + 1;
      var e := p.entry[0 := count];
      payload, order := payload[p.ticket - 1 := e], order + [p.ticket];
      threads := threads[t := Writing(p.ticket, e, 0)];
      assert Rows(buffer) == old(Rows(buffer));
    }

    /** One word of the assignment of the entry, or the end of the call. */
    method WriteWord(t: nat)
      requires Valid() && t < |threads| && threads[t].Writing?
      modifies this`threads, buffer
      ensures Valid() && Image() == Exec(old(Image()), Step(t))
      ensures threads == old(threads)[t :=
        var p := old(threads[t]);
        if p.j < |p.entry| && p.j < width then Writing(p.ticket, p.entry, p.j + 1) else Idle]
    {
      var p := threads[t];
      if p.j < |p.entry| && p.j < width {
        SetCell(SlotOf(p.ticket), p.j, p.entry[p.j]);
        threads := threads[t := Writing(p.ticket, p.entry, p.j + 1)];
      } else {
        threads := threads[t := Idle];
        assert Rows(buffer) == old(Rows(buffer));
      }
    }

    /** One access of any thread. */
    method Perform(l: Label)
      requires Valid()
      modifies this`index, this`count, this`threads, this`payload, this`order, buffer
      ensures Valid() && Image() == Exec(old(Image()), l) && index >= old(index) && count >= old(count)
    {
      if l.Call? {
        if l.t < |threads| && threads[l.t].Idle? && |l.entry| <= width && (stamped ==> |l.entry| > 0)
          && index + 1 < MOD64 {
          DrawTicket(l.t, l.entry);
        }
      } else if l.t < |threads| {
        match threads[l.t] {
          case Idle =>
          case Zeroing(_, _, _) => ZeroWord(l.t);
          case Counting(k, e) => if |e| > 0 && 1 <= k <= index { DrawStamp(l.t); }
          case Writing(_, _, _) => WriteWord(l.t);
        }
      }
    }

    /** A run of everyone's accesses. */
    method PerformAll(ls: seq<Label>)
      requires Valid()
      modifies this`index, this`count, this`threads, this`payload, this`order, buffer
      ensures Valid() && Image() == Run(old(Image()), ls) && index >= old(index) && count >= old(count)
    {
      ghost var s := Image();
      IsShaped();
      hide Exec, Run, Shape;
      RunNothing(s);
      var k := 0;
      assert ls[..0] == [];
      while k < |ls|
        invariant 0 <= k <= |ls| && Valid() && Image() == Run(s, ls[..k])
        invariant index >= old(index) && count >= old(count)
      {
        RunSnoc(s, ls[..k], ls[k]);
        assert ls[..k + 1] == ls[..k] + [ls[k]];
        Perform(ls[k]);
        k := k + 1;
      }
      assert ls[..k] == ls;
    }

    lemma IsShaped()
      requires Valid()
      ensures Shape(Image())
    {
    }

    /** After thread t's access l the others run gap i of the schedule. */
    method Yield(t: nat, env: Schedule<Label>, i: nat, ghost s0: Log, ghost own: seq<Label>, ghost l: Label)
      requires Valid() && t < |threads| && Shape(s0) && i == |own|
      requires Image() == Exec(Run(s0, Weave(Mine(t), own, env)), l)
      modifies this`index, this`count, this`threads, this`payload, this`order, buffer
      ensures Valid() && Image() == Run(s0, Weave(Mine(t), own + [l], env))
      ensures t < |threads| && threads[t] == old(threads[t]) && index >= old(index) && count >= old(count)
    {
      IsShaped();
      hide Exec, Run, Shape, Weave;
      ghost var before, s := Weave(Mine(t), own, env), Image();
      WeaveSnoc(Mine(t), own, l, env);
      RunSnoc(s0, before, l);
      RunAppend(s0, before + [l], Gap(Mine(t), env, i));
      RunNothing(s);
      if i < |env| {
        ForeignKeeps(s, t, env[i]);
        PerformAll(Foreign(Mine(t), env[i]));
      }
    }

    /** ZeroMemory on the slot of t's ticket, word by word. */
    method ZeroMemory(t: nat, first: Label, env: Schedule<Label>, i0: nat, ghost s0: Log, ghost own0: seq<Label>)
        returns (i: nat, ghost own: seq<Label>)
      requires Valid() && t < |threads| && threads[t].Zeroing? && threads[t].j == 0
      requires Shape(s0) && Image() == Run(s0, Weave(Mine(t), own0, env))
      requires i0 == |own0| && OneCall(Mine(t), first, own0)
      modifies this`index, this`count, this`threads, this`payload, this`order, buffer
      ensures Valid() && Image() == Run(s0, Weave(Mine(t), own, env)) && i == |own| && OneCall(Mine(t), first, own)
      ensures t < |threads| && index >= old(index) && count >= old(count)
      ensures var p := old(threads[t]);
        threads[t] == if stamped then Counting(p.ticket, p.entry) else Writing(p.ticket, p.entry, 0)
    {
      hide Exec, Run, Shape, Weave, OneCall;
      i, own := i0, own0;
      var j := 0;
      while j < width
        invariant 0 <= j <= width && Valid() && Image() == Run(s0, Weave(Mine(t), own, env))
        invariant i == |own| && OneCall(Mine(t), first, own) && index >= old(index) && count >= old(count)
        invariant t < |threads| && threads[t] == Zeroing(old(threads[t]).ticket, old(threads[t]).entry, j)
      {
        OneCallSnoc(Mine(t), first, own, Step(t));
        ZeroWord(t);
        Yield(t, env, i, s0, own, Step(t));
        i, own, j := i + 1, own + [Step(t)], j + 1;
      }
      OneCallSnoc(Mine(t), first, own, Step(t));
      ZeroWord(t);
      Yield(t, env, i, s0, own, Step(t));
      i, own := i + 1, own + [Step(t)];
    }

    /** The assignment of the entry, word by word, and the end of the call. */
    method Assign(t: nat, first: Label, env: Schedule<Label>, i0: nat, ghost s0: Log, ghost own0: seq<Label>)
        returns (ghost own: seq<Label>, ghost tr: seq<Label>)
      requires Valid() && t < |threads| && threads[t].Writing? && threads[t].j == 0 && |threads[t].entry| <= width
      requires Shape(s0) && Image() == Run(s0, Weave(Mine(t), own0, env))
      requires i0 == |own0| && OneCall(Mine(t), first, own0)
      modifies this`index, this`count, this`threads, this`payload, this`order, buffer
      ensures Valid() && Image() == Run(s0, tr) && Woven(Mine(t), first, own, env, tr)
      ensures t < |threads| && threads[t].Idle? && index >= old(index) && count >= old(count)
      ensures Inv(s0) && RunWithinRing(s0, tr) ==> Logged(Image(), old(threads[t].ticket), old(threads[t].entry))
    {
      hide Exec, Run, Shape, Inv, RunWithinRing, Weave, OneCall;
      own := own0;
      var i, k, e, j := i0, threads[t].ticket, threads[t].entry, 0;
      while j < |e|
        invariant Valid() && Image() == Run(s0, Weave(Mine(t), own, env))
        invariant i == |own| && OneCall(Mine(t), first, own) && index >= old(index) && count >= old(count)
        invariant t < |threads| && threads[t] == Writing(k, e, j) && j <= |e|
      {
        OneCallSnoc(Mine(t), first, own, Step(t));
        WriteWord(t);
        Yield(t, env, i, s0, own, Step(t));
        i, own, j := i + 1, own + [Step(t)], j + 1;
      }
      tr := Weave(Mine(t), own, env);
      RunSnoc(s0, tr, Step(t));
      LastAccess(s0, tr, t);
      WovenLast(Mine(t), first, own, Step(t), env);
      WriteWord(t);
      tr, own := tr + [Step(t)], own + [Step(t)];
    }

    /** `m_Buffer[tempIndex][0] = InterlockedIncrement(&m_Count)`, where there is a stamp. */
    method Stamp(t: nat, first: Label, env: Schedule<Label>, i0: nat, ghost s0: Log, ghost own0: seq<Label>)
        returns (i: nat, ghost own: seq<Label>)
      requires Valid() && t < |threads| && Shape(s0) && Image() == Run(s0, Weave(Mine(t), own0, env))
      requires i0 == |own0| && OneCall(Mine(t), first, own0)
      requires if stamped then threads[t].Counting? else threads[t].Writing?
      requires Fits(Image(), threads[t].entry) && 1 <= threads[t].ticket <= index
      modifies this`index, this`count, this`threads, this`payload, this`order, buffer
      ensures Valid() && Image() == Run(s0, Weave(Mine(t), own, env)) && i == |own| && OneCall(Mine(t), first, own)
      ensures t < |threads| && index >= old(index) && count >= old(count)
      ensures var p := old(threads[t]);
        threads[t] == if stamped then Writing(p.ticket, p.entry[0 := old(count) + 1], 0) else p
    {
      hide Exec, Run, Weave, OneCall;
      i, own := i0, own0;
      if stamped {
        OneCallSnoc(Mine(t), first, own, Step(t));
        DrawStamp(t);
        Yield(t, env, i, s0, own, Step(t));
        i, own := i + 1, own + [Step(t)];
      }
    }

    /** The next ticket. */
    method Begin(t: nat, e: Row, env: Schedule<Label>, ghost s0: Log)
      requires Valid() && t < |threads| && threads[t].Idle? && Fits(Image(), e) && index + 1 < MOD64
      requires s0 == Image()
      modifies this`index, this`count, this`threads, this`payload, this`order, buffer
      ensures Valid() && Image() == Run(s0, Weave(Mine(t), [Call(t, e)], env))
      ensures t < |threads| && index > old(index) && count >= old(count)
      ensures threads[t] == Zeroing(old(index) + 1, e, 0)
    {
      hide Exec, Run, Shape, Weave;
      RunNothing(s0);
      WeaveNothing(Mine(t), env);
      DrawTicket(t, e);
      Yield(t, env, 0, s0, [], Call(t, e));
      assert [] + [Call(t, e)] == [Call(t, e)];
    }

    /**
     * MemoryLogging, called by thread t, with an arbitrary schedule of everyone else in every gap
     * between its accesses. It is a run of RingLog that takes the next ticket; within the ring it
     * ends with its entry, stamped by m_Count where there is a stamp, complete in its own slot.
     */
    method Append(t: nat, e: Row, env: Schedule<Label>)
        returns (ghost own: seq<Label>, ghost tr: seq<Label>, ghost logged: Row)
      requires Valid() && t < |threads| && threads[t].Idle? && Fits(Image(), e) && index + 1 < MOD64
      modifies this`index, this`count, this`threads, this`payload, this`order, buffer
      ensures Valid() && Image() == Run(old(Image()), tr) && t < |threads| && threads[t].Idle?
      ensures Woven(Mine(t), Call(t, e), own, env, tr)
      ensures if stamped then |logged| > 0 && logged == e[0 := logged[0]] && logged[0] > old(count) else logged == e
      ensures Inv(old(Image())) && RunWithinRing(old(Image()), tr) ==>
        && Logged(Image(), old(index) + 1, logged) && |logged| <= width
        && forall j :: 0 <= j < width ==>
             buffer[(old(index) + 1) % max, j] == if j < |logged| then logged[j] else 0
    {
      hide Exec, Run, Shape, Inv, RunWithinRing, Logged, Weave;
      ghost var s0 := Image();
      Begin(t, e, env, s0);
      var i;
      i, own := ZeroMemory(t, Call(t, e), env, 1, s0, [Call(t, e)]);
      i, own := Stamp(t, Call(t, e), env, i, s0, own);
      logged := threads[t].entry;
      own, tr := Assign(t, Call(t, e), env, i, s0, own);
      if Inv(s0) && RunWithinRing(s0, tr) { ReadBack(old(index) + 1, logged); }
    }

    /** A logged entry, read word by word. */
    lemma ReadBack(k: nat, e: Row)
      requires Valid() && Logged(Image(), k, e)
      ensures |e| <= width
      ensures forall j :: 0 <= j < width ==> buffer[k % max, j] == if j < |e| then e[j] else 0
    {
      var q := SlotOf(k);
      forall j | 0 <= j < width ensures buffer[q, j] == if j < |e| then e[j] else 0 {
        assert buffer[q, j] == RowAt(buffer, q)[j] == Rows(buffer)[q][j] == Padded(e, width)[j];
      }
    }

    /** `Clear` of MemoryLogging_New, while nobody logs: the buffer and the counters start again. */
    method Clear()
      requires Valid() && forall t :: 0 <= t < |threads| ==> threads[t].Idle?
      modifies this`index, this`count, this`payload, this`order, buffer
      ensures Valid() && Image() == Init(max, width, stamped, |threads|)
    {
      forall q, j | 0 <= q < max && 0 <= j < width {
        buffer[q, j] := 0;
      }
      index, count, payload, order := 0, 0, [], [];
      assert forall q :: 0 <= q < max ==> RowAt(buffer, q) == Zeros(width);
      assert threads == seq(|threads|, _ => Idle);
    }
  }
}
