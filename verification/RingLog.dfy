/**
 * The ring logs of MemoryLog.h under concurrency. A call takes a ticket from m_Index, zeroes
 * the slot `ticket % MAX_SIZE` word by word and then writes its entry word by word. The
 * stamped variant (MyMemoryLog) also draws a number from m_Count, after zeroing, for word 0.
 */
module RingLog {
  import opened Common

  /** The words of a slot of MyMemoryLog. */
  const MAX_PROPERTY := 10

  type Row = seq<int>

  /** Where a call is: its ticket, its entry and the next word to touch. */
  datatype Phase =
    | Idle
    | Zeroing(ticket: nat, entry: Row, j: nat)
    | Counting(ticket: nat, entry: Row)
    | Writing(ticket: nat, entry: Row, j: nat)

  /**
   * max is MAX_SIZE and width the words of a slot. payload[k - 1] is the entry of ticket k and
   * order lists the tickets in the order in which they drew from m_Count: history variables.
   */
  datatype Log = Log(
    max: nat, width: nat, stamped: bool, index: nat, count: nat, buffer: seq<Row>, threads: seq<Phase>,
    payload: seq<Row>, order: seq<nat>)

  datatype Label = Call(t: nat, entry: Row) | Step(t: nat)

  function Slot(k: nat, max: nat): nat
    requires max > 0
  {
    k % max
  }

  function Zeros(n: nat): Row { seq(n, _ => 0) }

  /** What a slot holds once the entry is written: the entry, then zeros. */
  function Padded(e: Row, width: nat): Row
    requires |e| <= width
  {
    e + Zeros(width - |e|)
  }

  predicate Shape(s: Log) {
    && s.max > 0 && |s.buffer| == s.max && s.index < MOD64 && |s.payload| == s.index
    && (forall q :: 0 <= q < s.max ==> |s.buffer[q]| == s.width)
  }

  /** An entry fits a slot; a stamped entry has a first word to stamp. */
  predicate Fits(s: Log, e: Row) { |e| <= s.width && (s.stamped ==> |e| > 0) }

  function Init(max: nat, width: nat, stamped: bool, n: nat): Log
    requires max > 0
  {
    Log(max, width, stamped, 0, 0, seq(max, _ => Zeros(width)), seq(n, _ => Idle), [], [])
  }

  function SetWord(s: Log, k: nat, j: nat, w: int): Log
    requires Shape(s) && j < s.width
  {
    var q := Slot(k, s.max);
    s.(buffer := s.buffer[q := s.buffer[q][j := w]])
  }

  function Put(s: Log, t: nat, p: Phase): Log
    requires t < |s.threads|
  {
    s.(threads := s.threads[t := p])
  }

  /** One shared access of thread t's call. */
  function Advance(s: Log, t: nat): Log
    requires Shape(s) && t < |s.threads|
  {
    match s.threads[t]
    case Idle => s
    case Zeroing(k, e, j) =>
      if j < s.width then Put(SetWord(s, k, j, 0), t, Zeroing(k, e, j + 1))
      else Put(s, t, if s.stamped then Counting(k, e) else Writing(k, e, 0))
    case Counting(k, e) =>
      if |e| > 0 && 1 <= k <= |s.payload| then
        var e' := e[0 := s.count + 1];
        Put(s, t, Writing(k, e', 0)).(count := s.count + 1, payload := s.payload[k - 1 := e'], order := s.order + [k])
      else s
    case Writing(k, e, j) =>
      if j < |e| && j < s.width then Put(SetWord(s, k, j, e[j]), t, Writing(k, e, j + 1))
      else Put(s, t, Idle)
  }

  /** A new call draws its ticket: InterlockedIncrement(&m_Index), without wrapping. */
  function Exec(s: Log, l: Label): Log
    requires Shape(s)
  {
    match l
    case Call(t, e) =>
      if t < |s.threads| && s.threads[t].Idle? && Fits(s, e) && s.index + 1 < MOD64 then
        Put(s, t, Zeroing(s.index + 1, e, 0)).(index := s.index + 1, payload := s.payload + [e])
      else s
    case Step(t) => if t < |s.threads| then Advance(s, t) else s
  }

  predicate Busy(s: Log, k: nat) { exists t | 0 <= t < |s.threads| :: !s.threads[t].Idle? && s.threads[t].ticket == k }

  /** The newest ticket stays less than MAX_SIZE ahead of every unfinished one. */
  predicate WithinRing(s: Log, l: Label) {
    l.Call? ==> forall t :: 0 <= t < |s.threads| && !s.threads[t].Idle? ==> s.index + 1 - s.threads[t].ticket < s.max
  }

  ghost predicate PhaseInv(s: Log, p: Phase)
    requires Shape(s)
  {
    p.Idle? ||
    (&& 1 <= p.ticket <= s.index && s.index - p.ticket < s.max
     && p.entry == s.payload[p.ticket - 1] && Fits(s, p.entry)
     && var row := s.buffer[Slot(p.ticket, s.max)];
        match p
        case Idle => true
        case Zeroing(_, _, j) => j <= s.width && forall i :: 0 <= i < j ==> row[i] == 0
        case Counting(_, _) => s.stamped && row == Zeros(s.width)
        case Writing(_, e, j) =>
          && j <= |e| && (forall i :: 0 <= i < j ==> row[i] == e[i]) && (forall i :: j <= i < s.width ==> row[i] == 0))
  }

  ghost predicate Finished(s: Log, k: nat) { 1 <= k <= s.index && !Busy(s, k) }

  ghost predicate Inv(s: Log) {
    && Shape(s)
    && (forall i :: 0 <= i < |s.payload| ==> Fits(s, s.payload[i]))
    && (forall t :: 0 <= t < |s.threads| ==> PhaseInv(s, s.threads[t]))
    && (forall t, u :: 0 <= t < u < |s.threads| && !s.threads[t].Idle? && !s.threads[u].Idle? ==>
          s.threads[t].ticket != s.threads[u].ticket)
    && (forall k :: Finished(s, k) && s.index - k < s.max ==>
          s.buffer[Slot(k, s.max)] == Padded(s.payload[k - 1], s.width))
    && (forall q :: 0 <= q < s.max && (q > s.index || (q == 0 && s.index < s.max)) ==> s.buffer[q] == Zeros(s.width))
  }

  lemma MultipleBound(max: nat, d: int)
    requires max > 0
    ensures d >= 1 ==> max * d >= max
    ensures d <= 0 ==> max * d <= 0
  {
  }

  /** Within a window of MAX_SIZE tickets every ticket has its own slot. */
  lemma SlotsDiffer(k: nat, m: nat, max: nat)
    requires max > 0 && k < m && m - k < max
    ensures Slot(k, max) != Slot(m, max)
  {
    var a, b := k / max, m / max;
    assert k == max * a + k % max && m == max * b + m % max;
    assert max * b - max * a == max * (b - a);
    MultipleBound(max, b - a);
  }

  /** Two unfinished calls never write the same slot. */
  lemma NoSharing(s: Log, t: nat, u: nat)
    requires Inv(s) && t < |s.threads| && u < |s.threads| && t != u && !s.threads[t].Idle? && !s.threads[u].Idle?
    ensures Slot(s.threads[t].ticket, s.max) != Slot(s.threads[u].ticket, s.max)
  {
    assert PhaseInv(s, s.threads[t]) && PhaseInv(s, s.threads[u]);
    var a, b := s.threads[t].ticket, s.threads[u].ticket;
    if t < u { assert a != b; } else { assert b != a; }
    if a < b { SlotsDiffer(a, b, s.max); } else { SlotsDiffer(b, a, s.max); }
  }

  lemma BusyAfter(s: Log, s': Log, t: nat)
    requires t < |s.threads| == |s'.threads| && s'.threads == s.threads[t := s'.threads[t]]
    ensures forall k :: Busy(s', k) <==>
      (!s'.threads[t].Idle? && s'.threads[t].ticket == k)
      || exists u :: 0 <= u < |s.threads| && u != t && !s.threads[u].Idle? && s.threads[u].ticket == k
    ensures forall k :: Busy(s, k) <==>
      (!s.threads[t].Idle? && s.threads[t].ticket == k)
      || exists u :: 0 <= u < |s.threads| && u != t && !s.threads[u].Idle? && s.threads[u].ticket == k
  {
    assert forall u :: 0 <= u < |s.threads| && u != t ==> s'.threads[u] == s.threads[u];
  }

  lemma SlotBound(k: nat, max: nat)
    requires max > 0
    ensures Slot(k, max) <= k && (k < max ==> Slot(k, max) == k)
  {
    assert k == max * (k / max) + k % max;
    assert max * (k / max) >= 0;
  }

  /** The slot of an unfinished call is nobody else's, holds no finished entry and is not unused. */
  lemma SlotIsMine(s: Log, t: nat)
    requires Inv(s) && t < |s.threads| && !s.threads[t].Idle?
    ensures var q := Slot(s.threads[t].ticket, s.max);
      && (forall u :: 0 <= u < |s.threads| && u != t && !s.threads[u].Idle? ==> Slot(s.threads[u].ticket, s.max) != q)
      && (forall k :: Finished(s, k) && s.index - k < s.max ==> Slot(k, s.max) != q)
      && q <= s.index && (s.index < s.max ==> q != 0)
  {
    assert PhaseInv(s, s.threads[t]);
    var m := s.threads[t].ticket;
    SlotBound(m, s.max);
    forall u | 0 <= u < |s.threads| && u != t && !s.threads[u].Idle?
      ensures Slot(s.threads[u].ticket, s.max) != Slot(m, s.max)
    {
      NoSharing(s, t, u);
    }
    forall k | Finished(s, k) && s.index - k < s.max ensures Slot(k, s.max) != Slot(m, s.max) {
      assert Busy(s, m);
      if k < m { SlotsDiffer(k, m, s.max); } else { SlotsDiffer(m, k, s.max); }
    }
  }

  /** A step of thread t that touches no more than the slot and the entry of its call. */
  ghost predicate OwnSlotOnly(s: Log, s': Log, t: nat)
    requires Shape(s) && t < |s.threads| && !s.threads[t].Idle?
  {
    var k := s.threads[t].ticket;
    && Shape(s') && s'.threads == s.threads[t := if t < |s'.threads| then s'.threads[t] else Idle]
    && s'.max == s.max && s'.width == s.width && s'.stamped == s.stamped && s'.index == s.index
    && (forall q :: 0 <= q < s.max && q != Slot(k, s.max) ==> s'.buffer[q] == s.buffer[q])
    && (forall i :: 0 <= i < |s.payload| && i != k - 1 ==> s'.payload[i] == s.payload[i])
  }

  lemma OtherPhases(s: Log, s': Log, t: nat)
    requires Inv(s) && t < |s.threads| && !s.threads[t].Idle? && OwnSlotOnly(s, s', t)
    ensures forall u :: 0 <= u < |s'.threads| && u != t ==> PhaseInv(s', s'.threads[u])
  {
    SlotIsMine(s, t);
    forall u | 0 <= u < |s'.threads| && u != t ensures PhaseInv(s', s'.threads[u]) {
      assert PhaseInv(s, s.threads[u]);
      if t < u && !s.threads[u].Idle? { assert s.threads[t].ticket != s.threads[u].ticket; }
    }
  }

  lemma OtherEntries(s: Log, s': Log, t: nat)
    requires Inv(s) && t < |s.threads| && !s.threads[t].Idle? && OwnSlotOnly(s, s', t)
    ensures var k := s.threads[t].ticket;
      forall m :: Finished(s', m) && s'.index - m < s.max && m != k ==>
        |s'.payload[m - 1]| <= s.width && s'.buffer[Slot(m, s.max)] == Padded(s'.payload[m - 1], s.width)
  {
    SlotIsMine(s, t);
    BusyAfter(s, s', t);
    forall m | Finished(s', m) && s'.index - m < s.max && m != s.threads[t].ticket
      ensures |s'.payload[m - 1]| <= s.width && s'.buffer[Slot(m, s.max)] == Padded(s'.payload[m - 1], s.width)
    {
      assert Finished(s, m);
      assert Fits(s, s.payload[m - 1]);
    }
  }

  lemma OwnSlotStep(s: Log, s': Log, t: nat)
    requires Inv(s) && t < |s.threads| && !s.threads[t].Idle? && OwnSlotOnly(s, s', t)
    requires Fits(s', s'.payload[s.threads[t].ticket - 1])
    requires PhaseInv(s', s'.threads[t])
    requires if s'.threads[t].Idle?
      then var k := s.threads[t].ticket; s'.buffer[Slot(k, s.max)] == Padded(s'.payload[k - 1], s.width)
      else s'.threads[t].ticket == s.threads[t].ticket
    ensures Inv(s')
  {
    hide PhaseInv;
    OtherPhases(s, s', t);
    OtherEntries(s, s', t);
    SlotIsMine(s, t);
    if !s'.threads[t].Idle? { assert Busy(s', s.threads[t].ticket); }
  }

  lemma ZeroStep(s: Log, t: nat)
    requires Inv(s) && t < |s.threads| && s.threads[t].Zeroing?
    ensures Inv(Advance(s, t))
  {
    assert PhaseInv(s, s.threads[t]);
    var p := s.threads[t];
    assert p.j == s.width ==> s.buffer[Slot(p.ticket, s.max)] == Zeros(s.width);
    OwnSlotStep(s, Advance(s, t), t);
  }

  lemma DrawStep(s: Log, t: nat)
    requires Inv(s) && t < |s.threads| && s.threads[t].Counting?
    ensures Inv(Advance(s, t))
  {
    assert PhaseInv(s, s.threads[t]);
    OwnSlotStep(s, Advance(s, t), t);
  }

  lemma WriteStep(s: Log, t: nat)
    requires Inv(s) && t < |s.threads| && s.threads[t].Writing?
    ensures Inv(Advance(s, t))
  {
    assert PhaseInv(s, s.threads[t]);
    var p := s.threads[t];
    assert p.j == |p.entry| ==> s.buffer[Slot(p.ticket, s.max)] == Padded(p.entry, s.width);
    OwnSlotStep(s, Advance(s, t), t);
  }

  lemma StepInv(s: Log, t: nat)
    requires Inv(s) && t < |s.threads|
    ensures Inv(Advance(s, t))
  {
    match s.threads[t] {
      case Idle =>
      case Zeroing(_, _, _) => ZeroStep(s, t);
      case Counting(_, _) => DrawStep(s, t);
      case Writing(_, _, _) => WriteStep(s, t);
    }
  }

  lemma CallInv(s: Log, l: Label)
    requires Inv(s) && l.Call? && WithinRing(s, l)
    ensures Inv(Exec(s, l))
  {
    var s' := Exec(s, l);
    if s' != s {
      BusyAfter(s, s', l.t);
      forall u | 0 <= u < |s'.threads| ensures PhaseInv(s', s'.threads[u]) {
        if u != l.t { assert PhaseInv(s, s.threads[u]); }
      }
      forall t, u | 0 <= t < u < |s'.threads| && !s'.threads[t].Idle? && !s'.threads[u].Idle?
        ensures s'.threads[t].ticket != s'.threads[u].ticket
      {
        assert PhaseInv(s, s.threads[t]) && PhaseInv(s, s.threads[u]);
      }
      forall m | Finished(s', m) && s'.index - m < s.max
        ensures s'.buffer[Slot(m, s.max)] == Padded(s'.payload[m - 1], s.width)
      {
        assert m != s'.index && Finished(s, m);
      }
    }
  }

  function Run(s: Log, ls: seq<Label>): (r: Log)
    requires Shape(s)
    ensures Shape(r) && r.max == s.max && r.width == s.width && r.stamped == s.stamped
    decreases |ls|
  {
    if ls == [] then s else ExecShape(s, ls[0]); Run(Exec(s, ls[0]), ls[1..])
  }

  lemma ExecShape(s: Log, l: Label)
    requires Shape(s)
    ensures var r := Exec(s, l); Shape(r) && r.max == s.max && r.width == s.width && r.stamped == s.stamped
  {
  }

  predicate RunWithinRing(s: Log, ls: seq<Label>)
    requires Shape(s)
    decreases |ls|
  {
    ExecShape(s, if ls == [] then Step(0) else ls[0]);
    ls == [] || (WithinRing(s, ls[0]) && RunWithinRing(Exec(s, ls[0]), ls[1..]))
  }

  lemma InitInv(max: nat, width: nat, stamped: bool, n: nat)
    requires max > 0
    ensures Inv(Init(max, width, stamped, n))
  {
  }

  lemma ExecInv(s: Log, l: Label)
    requires Inv(s) && WithinRing(s, l)
    ensures Inv(Exec(s, l))
  {
    if l.Call? { CallInv(s, l); } else if l.t < |s.threads| { StepInv(s, l.t); }
  }

  lemma {:induction false} RunInv(s: Log, ls: seq<Label>)
    requires Inv(s) && RunWithinRing(s, ls)
    ensures Inv(Run(s, ls))
    decreases |ls|
  {
    if ls != [] {
      ExecInv(s, ls[0]);
      RunInv(Exec(s, ls[0]), ls[1..]);
    }
  }

  ghost predicate AllIdle(s: Log) { forall t :: 0 <= t < |s.threads| ==> s.threads[t].Idle? }

  /** The buffer holds exactly the last min(n, MAX_SIZE) entries, and zeros where none was logged. */
  ghost predicate HoldsLast(s: Log)
    requires Shape(s)
  {
    && (forall k :: 1 <= k <= s.index && s.index - k < s.max ==>
          |s.payload[k - 1]| <= s.width && s.buffer[Slot(k, s.max)] == Padded(s.payload[k - 1], s.width))
    && (forall q :: 0 <= q < s.max && (forall k | 1 <= k <= s.index :: Slot(k, s.max) != q) ==>
          s.buffer[q] == Zeros(s.width))
  }

  lemma SlotUsed(s: Log, q: nat)
    requires Shape(s) && q < s.max && !(q > s.index || (q == 0 && s.index < s.max))
    ensures exists k | 1 <= k <= s.index :: Slot(k, s.max) == q
  {
    if q == 0 { assert Slot(s.max, s.max) == q; } else { assert Slot(q, s.max) == q; }
  }

  lemma Quiescent(s: Log)
    requires Inv(s) && AllIdle(s)
    ensures HoldsLast(s)
  {
    forall k | 1 <= k <= s.index && s.index - k < s.max
      ensures |s.payload[k - 1]| <= s.width && s.buffer[Slot(k, s.max)] == Padded(s.payload[k - 1], s.width)
    {
      assert Finished(s, k);
      assert Fits(s, s.payload[k - 1]);
    }
    forall q | 0 <= q < s.max && (forall k | 1 <= k <= s.index :: Slot(k, s.max) != q)
      ensures s.buffer[q] == Zeros(s.width)
    {
      if !(q > s.index || (q == 0 && s.index < s.max)) { SlotUsed(s, q); }
    }
  }

  /** A call draws a ticket exactly when its thread is free, its entry fits and tickets are left. */
  lemma TicketIsDrawn(s: Log, t: nat, e: Row)
    requires Shape(s)
    ensures Exec(s, Call(t, e)).index == s.index + if t < |s.threads| && s.threads[t].Idle?
      && |e| <= s.width && (s.stamped ==> |e| > 0) && s.index + 1 < MOD64 then 1 else 0
  {
  }

  /** The entries of the calls that drew a ticket, in the order in which they drew. */
  function Entries(s: Log, ls: seq<Label>): seq<Row>
    requires Shape(s)
    decreases |ls|
  {
    if ls == [] then []
    else
      var s' := Exec(s, ls[0]);
      (if ls[0].Call? && s'.index > s.index then [ls[0].entry] else []) + Entries(s', ls[1..])
  }

  /** The same entry but, in a stamped log, for its first word. */
  predicate SameEntry(stamped: bool, a: Row, b: Row) { a == b || (stamped && |a| == |b| > 0 && a[1..] == b[1..]) }

  ghost predicate SameEntries(stamped: bool, a: seq<Row>, b: seq<Row>) {
    |a| == |b| && forall i :: 0 <= i < |a| ==> SameEntry(stamped, a[i], b[i])
  }

  lemma PayloadStep(s: Log, l: Label)
    requires Inv(s) && WithinRing(s, l)
    ensures var s' := Exec(s, l);
      s'.stamped == s.stamped
      && SameEntries(s.stamped, s.payload + (if l.Call? && s'.index > s.index then [l.entry] else []), s'.payload)
  {
    if l.Step? && l.t < |s.threads| { assert PhaseInv(s, s.threads[l.t]); }
    assert s.payload + [] == s.payload;
  }

  lemma SameThrough(stamped: bool, a: seq<Row>, b: seq<Row>, more: seq<Row>, c: seq<Row>)
    requires SameEntries(stamped, a, b) && SameEntries(stamped, b + more, c)
    ensures SameEntries(stamped, a + more, c)
  {
    forall i | 0 <= i < |a + more| ensures SameEntry(stamped, (a + more)[i], c[i]) {
      assert SameEntry(stamped, (b + more)[i], c[i]);
      if i < |a| { assert SameEntry(stamped, a[i], b[i]); }
    }
  }

  lemma {:induction false} PayloadIsKept(s: Log, ls: seq<Label>)
    requires Inv(s) && RunWithinRing(s, ls)
    ensures SameEntries(s.stamped, s.payload + Entries(s, ls), Run(s, ls).payload)
    decreases |ls|
  {
    hide SameEntries, Exec;
    if ls == [] {
      SameAsItself(s.stamped, s.payload);
      assert s.payload + [] == s.payload;
    } else {
      var s' := Exec(s, ls[0]);
      PayloadStep(s, ls[0]);
      ExecInv(s, ls[0]);
      PayloadIsKept(s', ls[1..]);
      var drawn := if ls[0].Call? && s'.index > s.index then [ls[0].entry] else [];
      SameThrough(s.stamped, s.payload + drawn, s'.payload, Entries(s', ls[1..]), Run(s, ls).payload);
      assert s.payload + drawn + Entries(s', ls[1..]) == s.payload + Entries(s, ls);
    }
  }

  lemma SameAsItself(stamped: bool, a: seq<Row>)
    ensures SameEntries(stamped, a, a)
  {
  }

  /**
   * When nobody is logging, the buffer holds exactly the last min(n, MAX_SIZE) entries: the k-th
   * entry logged, word for word, in slot k mod MAX_SIZE, but for the stamp in its first word.
   */
  lemma LastEntriesSurvive(max: nat, width: nat, stamped: bool, n: nat, ls: seq<Label>)
    requires max > 0 && RunWithinRing(Init(max, width, stamped, n), ls)
    requires AllIdle(Run(Init(max, width, stamped, n), ls))
    ensures HoldsLast(Run(Init(max, width, stamped, n), ls))
    ensures var s := Run(Init(max, width, stamped, n), ls);
      var es := Entries(Init(max, width, stamped, n), ls);
      && |es| == s.index
      && forall k, j :: 1 <= k <= s.index && s.index - k < max && 0 <= j < width && (stamped ==> j > 0) ==>
           s.buffer[k % max][j] == if j < |es[k - 1]| then es[k - 1][j] else 0
  {
    InitInv(max, width, stamped, n);
    var s0 := Init(max, width, stamped, n);
    RunInv(s0, ls);
    var s := Run(s0, ls);
    Quiescent(s);
    PayloadIsKept(s0, ls);
    var es := Entries(s0, ls);
    assert [] + es == es;
    forall k, j | 1 <= k <= s.index && s.index - k < max && 0 <= j < width && (stamped ==> j > 0)
      ensures s.buffer[k % max][j] == if j < |es[k - 1]| then es[k - 1][j] else 0
    {
      assert s.buffer[Slot(k, max)] == Padded(s.payload[k - 1], width);
      assert SameEntry(stamped, es[k - 1], s.payload[k - 1]);
      if es[k - 1] != s.payload[k - 1] && j < |es[k - 1]| {
        assert es[k - 1][1..][j - 1] == s.payload[k - 1][1..][j - 1];
      }
    }
  }

  /** The window is exact: the next ticket shares a slot with an unfinished call iff it is MAX_SIZE ahead. */
  lemma SharesExactly(s: Log, t: nat)
    requires Inv(s) && t < |s.threads| && !s.threads[t].Idle?
    ensures Slot(s.index + 1, s.max) == Slot(s.threads[t].ticket, s.max) <==>
      s.index + 1 - s.threads[t].ticket == s.max
  {
    assert PhaseInv(s, s.threads[t]);
    var k := s.threads[t].ticket;
    if s.index + 1 - k < s.max {
      SlotsDiffer(k, s.index + 1, s.max);
    } else {
      assert s.index + 1 == k + s.max;
      assert (k + s.max) % s.max == k % s.max by { SlotPeriod(k, s.max); }
    }
  }

  lemma SlotPeriod(k: nat, max: nat)
    requires max > 0
    ensures (k + max) % max == k % max
  {
    var a := k / max;
    assert k == max * a + k % max;
    assert k + max == max * (a + 1) + k % max by { assert max * (a + 1) == max * a + max; }
    ModUnique(k + max, a + 1, k % max, max);
  }

  lemma ModUnique(n: nat, q: int, r: nat, max: nat)
    requires max > 0 && r < max && n == max * q + r
    ensures n % max == r
  {
    var d := n / max - q;
    assert n == max * (n / max) + n % max;
    assert max * (n / max) - max * q == max * d;
    MultipleBound(max, d);
    MultipleBound(max, -d);
    assert max * (-d) == -(max * d);
  }

  // ----- Runs in which one thread works alone -----

  lemma {:induction false} RunAppend(s: Log, a: seq<Label>, b: seq<Label>)
    requires Shape(s)
    ensures Run(s, a + b) == Run(Run(s, a), b)
    ensures RunWithinRing(s, a + b) == (RunWithinRing(s, a) && RunWithinRing(Run(s, a), b))
    decreases |a|
  {
    if a == [] {
      assert a + b == b;
    } else {
      assert (a + b)[0] == a[0] && (a + b)[1..] == a[1..] + b;
      RunAppend(Exec(s, a[0]), a[1..], b);
    }
  }

  /** The labels lead from s to s' within the ring. */
  ghost predicate Leads(s: Log, ls: seq<Label>, s': Log)
    requires Shape(s)
  {
    s' == Run(s, ls) && RunWithinRing(s, ls)
  }

  lemma Then(s: Log, a: seq<Label>, m: Log, b: seq<Label>, e: Log)
    requires Shape(s) && Shape(m) && Leads(s, a, m) && Leads(m, b, e)
    ensures Leads(s, a + b, e)
  {
    RunAppend(s, a, b);
  }

  lemma One(s: Log, l: Label)
    requires Shape(s) && WithinRing(s, l)
    ensures Leads(s, [l], Exec(s, l))
  {
    assert [l][1..] == [];
  }

  /** The row of a slot whose first j words are rewritten and whose others are zero. */
  predicate RowIs(s: Log, k: nat, e: Row, j: nat)
    requires Shape(s)
  {
    j <= |e| <= s.width && s.buffer[Slot(k, s.max)] == e[..j] + Zeros(s.width - j)
  }

  lemma {:induction false} FinishZeroing(s: Log, t: nat) returns (ls: seq<Label>, s': Log)
    requires Shape(s) && t < |s.threads| && s.threads[t].Zeroing?
    requires s.threads[t].j <= s.width
    requires forall i :: 0 <= i < s.threads[t].j ==> s.buffer[Slot(s.threads[t].ticket, s.max)][i] == 0
    ensures Leads(s, ls, s')
    ensures var p := s.threads[t];
      s' == Put(s, t, if s.stamped then Counting(p.ticket, p.entry) else Writing(p.ticket, p.entry, 0)).(
        buffer := s.buffer[Slot(p.ticket, s.max) := Zeros(s.width)])
    decreases s.width - s.threads[t].j
  {
    var m := Exec(s, Step(t));
    One(s, Step(t));
    var q := Slot(s.threads[t].ticket, s.max);
    if s.threads[t].j < s.width {
      var rest;
      rest, s' := FinishZeroing(m, t);
      Then(s, [Step(t)], m, rest, s');
      ls := [Step(t)] + rest;
      assert m.threads[t := s'.threads[t]] == s.threads[t := s'.threads[t]];
      assert m.buffer[q := Zeros(s.width)] == s.buffer[q := Zeros(s.width)];
    } else {
      ls, s' := [Step(t)], m;
      assert s.buffer[q] == Zeros(s.width);
      assert s.buffer == s.buffer[q := Zeros(s.width)];
    }
  }

  lemma {:induction false} FinishWriting(s: Log, t: nat) returns (ls: seq<Label>, s': Log)
    requires Shape(s) && t < |s.threads| && s.threads[t].Writing?
    requires RowIs(s, s.threads[t].ticket, s.threads[t].entry, s.threads[t].j)
    ensures Leads(s, ls, s')
    ensures var p := s.threads[t];
      s' == Put(s, t, Idle).(buffer := s.buffer[Slot(p.ticket, s.max) := Padded(p.entry, s.width)])
    decreases |s.threads[t].entry| - s.threads[t].j
  {
    var m := Exec(s, Step(t));
    One(s, Step(t));
    var p := s.threads[t];
    var q := Slot(p.ticket, s.max);
    if p.j < |p.entry| {
      assert m.buffer[q] == p.entry[..p.j + 1] + Zeros(s.width - (p.j + 1));
      var rest;
      rest, s' := FinishWriting(m, t);
      Then(s, [Step(t)], m, rest, s');
      ls := [Step(t)] + rest;
      assert m.threads[t := Idle] == s.threads[t := Idle];
      assert m.buffer[q := Padded(p.entry, s.width)] == s.buffer[q := Padded(p.entry, s.width)];
    } else {
      ls, s' := [Step(t)], m;
      assert p.entry[..p.j] == p.entry;
      assert s.buffer == s.buffer[q := Padded(p.entry, s.width)];
    }
  }

  /** A thread that has its ticket runs alone to the end of its call. */
  lemma FinishCall(s: Log, t: nat) returns (ls: seq<Label>, s': Log)
    requires Shape(s) && t < |s.threads| && s.threads[t].Zeroing? && s.threads[t].j == 0
    requires Fits(s, s.threads[t].entry) && 1 <= s.threads[t].ticket <= s.index
    ensures Leads(s, ls, s') && Shape(s')
    ensures s'.threads == s.threads[t := Idle] && s'.index == s.index
    ensures var p := s.threads[t];
      var e := if s.stamped then p.entry[0 := s.count + 1] else p.entry;
      && s'.buffer == s.buffer[Slot(p.ticket, s.max) := Padded(e, s.width)]
      && s'.payload == (if s.stamped then s.payload[p.ticket - 1 := e] else s.payload)
      && s'.count == (if s.stamped then s.count + 1 else s.count)
  {
    var p := s.threads[t];
    var q := Slot(p.ticket, s.max);
    var m;
    ls, m := FinishZeroing(s, t);
    assert m.buffer[q] == Zeros(s.width);
    if s.stamped {
      var m' := Exec(m, Step(t));
      One(m, Step(t));
      Then(s, ls, m, [Step(t)], m');
      ls, m := ls + [Step(t)], m';
    }
    var e := m.threads[t].entry;
    assert e[..0] + Zeros(s.width) == Zeros(s.width);
    var rest;
    rest, s' := FinishWriting(m, t);
    Then(s, ls, m, rest, s');
    ls := ls + rest;
    assert m.threads[t := Idle] == s.threads[t := Idle];
    assert m.buffer[q := Padded(e, s.width)] == s.buffer[q := Padded(e, s.width)];
  }

  /** One whole call by a thread alone. */
  lemma LogAlone(s: Log, t: nat, e: Row) returns (ls: seq<Label>, s': Log)
    requires Shape(s) && t < |s.threads| && s.threads[t].Idle? && Fits(s, e) && s.index + 1 < MOD64
    requires WithinRing(s, Call(t, e)) && !s.stamped
    ensures Leads(s, ls, s') && Shape(s') && s'.threads == s.threads && s'.index == s.index + 1
    ensures s'.payload == s.payload + [e]
  {
    var m := Exec(s, Call(t, e));
    One(s, Call(t, e));
    var rest;
    rest, s' := FinishCall(m, t);
    Then(s, [Call(t, e)], m, rest, s');
    ls := [Call(t, e)] + rest;
    assert m.threads[t := Idle] == s.threads;
  }

  /** m calls by thread 1 while thread 0 is stalled on ticket 1. */
  lemma {:induction false} LogMany(s: Log, f: Row, m: nat) returns (ls: seq<Label>, s': Log)
    requires Shape(s) && !s.stamped && Fits(s, f) && s.index >= 1 && s.index + m < MOD64 && s.index + m <= s.max
    requires |s.threads| == 2 && s.threads[1].Idle? && s.threads[0].Zeroing? && s.threads[0].ticket == 1
    ensures Leads(s, ls, s') && Shape(s') && s'.threads == s.threads && s'.index == s.index + m
    ensures |s'.payload| == s'.index && s'.payload[..s.index] == s.payload
    decreases m
  {
    if m == 0 {
      ls, s' := [], s;
    } else {
      var a, s1 := LogAlone(s, 1, f);
      var b;
      b, s' := LogMany(s1, f, m - 1);
      Then(s, a, s1, b, s');
      ls := a + b;
      assert s'.payload[..s.index] == s'.payload[..s1.index][..s.index];
    }
  }

  /** Thread 0 draws ticket 1 and stalls while thread 1 fills the rest of the ring. */
  lemma Stall(max: nat, width: nat, e: Row, f: Row) returns (a: seq<Label>, s: Log)
    requires 0 < max < MOD64 - 1 && |e| <= width && |f| <= width
    ensures Leads(Init(max, width, false, 2), a, s) && Shape(s) && s.index == max
    ensures s.max == max && s.width == width && !s.stamped && s.threads == [Zeroing(1, e, 0), Idle]
  {
    var s0 := Init(max, width, false, 2);
    var s1 := Exec(s0, Call(0, e));
    One(s0, Call(0, e));
    var many;
    many, s := LogMany(s1, f, max - 1);
    Then(s0, [Call(0, e)], s1, many, s);
    a := [Call(0, e)] + many;
  }

  /**
   * A writer lapped by exactly MAX_SIZE tickets overwrites the newer entry: the run stays within
   * the ring up to the one call that draws the ticket MAX_SIZE ahead.
   */
  lemma LappedWriterOverwrites(max: nat, width: nat, e: Row, f: Row)
      returns (a: seq<Label>, b: seq<Label>)
    requires 0 < max < MOD64 - 1 && |e| <= width && |f| <= width
    ensures var s0 := Init(max, width, false, 2);
      var s, r := Run(s0, a), Run(s0, a + [Call(1, f)] + b);
      && RunWithinRing(s0, a) && |s.threads| == 2 && s.threads[0].Zeroing? && s.threads[1].Idle?
      && s.index + 1 - s.threads[0].ticket == max
      && AllIdle(r) && r.index == max + 1 && r.payload[max] == f
      && r.buffer[Slot(max + 1, max)] == Padded(e, width)
      && (HoldsLast(r) ==> Padded(e, width) == Padded(f, width))
  {
    var s0 := Init(max, width, false, 2);
    var s;
    a, s := Stall(max, width, e, f);
    var c := Exec(s, Call(1, f));
    var r;
    b, r := Overwrite(c, e, f);
    RunAppend(s0, a, [Call(1, f)]);
    assert [Call(1, f)][1..] == [];
    RunAppend(s0, a + [Call(1, f)], b);
    SlotPeriod(1, max);
  }

  /** Both threads have drawn tickets of one slot; the newer one finishes first. */
  lemma Overwrite(s: Log, e: Row, f: Row) returns (b: seq<Label>, r: Log)
    requires Shape(s) && !s.stamped && Fits(s, e) && Fits(s, f) && s.index > 0
    requires s.threads == [Zeroing(1, e, 0), Zeroing(s.index, f, 0)]
    ensures Leads(s, b, r) && Shape(r) && AllIdle(r) && r.index == s.index && r.payload == s.payload
    ensures r.buffer[Slot(1, s.max)] == Padded(e, s.width)
  {
    var b1, m := FinishCall(s, 1);
    var b2;
    b2, r := FinishCall(m, 0);
    Then(s, b1, m, b2, r);
    b := b1 + b2;
  }

  // ----- The numbers drawn from m_Count -----

  predicate Drawn(s: Log, k: nat) { k in s.order }

  /** Some call holds ticket k and has not drawn its number yet. */
  ghost predicate Undrawn(s: Log, k: nat) {
    exists t | 0 <= t < |s.threads| :: BeforeDraw(s.threads[t], k)
  }

  predicate BeforeDraw(p: Phase, k: nat) { (p.Zeroing? || p.Counting?) && p.ticket == k }

  lemma SameUndrawn(s: Log, s': Log, k: nat)
    requires |s'.threads| == |s.threads|
    requires forall u :: 0 <= u < |s.threads| ==> (BeforeDraw(s'.threads[u], k) <==> BeforeDraw(s.threads[u], k))
    ensures Undrawn(s', k) <==> Undrawn(s, k)
  {
  }

  /** What holds of tickets in every run, however far apart they are. */
  ghost predicate TicketInv(s: Log) {
    && Shape(s) && s.stamped
    && (forall i :: 0 <= i < |s.payload| ==> Fits(s, s.payload[i]))
    && (forall t :: 0 <= t < |s.threads| && !s.threads[t].Idle? ==>
          1 <= s.threads[t].ticket <= s.index && Fits(s, s.threads[t].entry))
    && (forall t, u :: 0 <= t < u < |s.threads| && !s.threads[t].Idle? && !s.threads[u].Idle? ==>
          s.threads[t].ticket != s.threads[u].ticket)
  }

  lemma TicketCall(s: Log, l: Label)
    requires TicketInv(s) && l.Call?
    ensures TicketInv(Exec(s, l))
  {
  }

  lemma TicketAdvance(s: Log, t: nat)
    requires TicketInv(s) && t < |s.threads|
    ensures TicketInv(Advance(s, t))
  {
    var s' := Advance(s, t);
    assert s'.threads == s.threads[t := s'.threads[t]];
    assert s'.threads[t].Idle? || (s'.threads[t].ticket == s.threads[t].ticket && Fits(s, s'.threads[t].entry));
  }

  ghost predicate StampInv(s: Log) {
    && s.count == |s.order|
    && (forall c :: 0 <= c < |s.order| ==> 1 <= s.order[c] <= |s.payload| && |s.payload[s.order[c] - 1]| > 0)
    && (forall c :: 0 <= c < |s.order| ==> s.payload[s.order[c] - 1][0] == c + 1)
    && (forall k :: 1 <= k <= |s.payload| ==> (Drawn(s, k) <==> !Undrawn(s, k)))
  }

  lemma StampCall(s: Log, l: Label)
    requires TicketInv(s) && StampInv(s) && l.Call?
    ensures StampInv(Exec(s, l))
  {
    var s' := Exec(s, l);
    if s' != s {
      assert forall u :: 0 <= u < |s.threads| && u != l.t ==> s'.threads[u] == s.threads[u];
      forall k | 1 <= k <= |s'.payload| ensures Drawn(s', k) <==> !Undrawn(s', k) {
        if k == s'.index {
          assert s'.threads[l.t].ticket == k;
        } else {
          assert Drawn(s', k) <==> Drawn(s, k);
          assert Undrawn(s', k) <==> Undrawn(s, k);
        }
      }
    }
  }

  /** The step that draws a number gives it to a ticket that had none. */
  lemma StampDraw(s: Log, t: nat)
    requires TicketInv(s) && StampInv(s) && t < |s.threads| && s.threads[t].Counting?
    ensures StampInv(Advance(s, t))
  {
    var s' := Advance(s, t);
    var k := s.threads[t].ticket;
    assert BeforeDraw(s.threads[t], k);
    assert Undrawn(s, k) && !Drawn(s, k);
    assert forall u :: 0 <= u < |s.threads| && u != t ==> s'.threads[u] == s.threads[u];
    assert forall c :: 0 <= c < |s.order| ==> s'.order[c] == s.order[c] && s.order[c] != k;
    assert s'.order[|s.order|] == k;
    forall m | 1 <= m <= |s'.payload| ensures Drawn(s', m) <==> !Undrawn(s', m) {
      if m == k {
        forall u | 0 <= u < |s.threads| && u != t && !s.threads[u].Idle? ensures s.threads[u].ticket != k {
          if t < u { assert s.threads[t].ticket != s.threads[u].ticket; }
        }
      } else {
        assert Drawn(s', m) <==> Drawn(s, m);
        assert Undrawn(s', m) <==> Undrawn(s, m);
      }
    }
  }

  lemma StampOther(s: Log, t: nat)
    requires TicketInv(s) && StampInv(s) && t < |s.threads| && !s.threads[t].Counting?
    ensures StampInv(Advance(s, t))
  {
    var s' := Advance(s, t);
    assert s'.order == s.order && s'.payload == s.payload && s'.count == s.count;
    forall k | 1 <= k <= |s'.payload| ensures Drawn(s', k) <==> !Undrawn(s', k) {
      SameUndrawn(s, s', k);
    }
  }

  /** Every call draws its number when it holds the ticket of that number. */
  predicate DrawsInOrder(s: Log, ls: seq<Label>)
    requires Shape(s)
    decreases |ls|
  {
    ls == [] ||
    (&& (ls[0].Step? && ls[0].t < |s.threads| && s.threads[ls[0].t].Counting? ==>
           s.threads[ls[0].t].ticket == |s.order| + 1)
     && DrawsInOrder(Exec(s, ls[0]), ls[1..]))
  }

  lemma StampStep(s: Log, l: Label)
    requires TicketInv(s) && StampInv(s)
    ensures TicketInv(Exec(s, l)) && StampInv(Exec(s, l))
  {
    if l.Call? {
      TicketCall(s, l);
      StampCall(s, l);
    } else if l.t < |s.threads| {
      TicketAdvance(s, l.t);
      if s.threads[l.t].Counting? { StampDraw(s, l.t); } else { StampOther(s, l.t); }
    }
  }

  /** Numbers already drawn stay, and those to come are in order exactly when DrawsInOrder says so. */
  lemma {:induction false} RunStamps(s: Log, ls: seq<Label>)
    requires TicketInv(s) && StampInv(s)
    ensures TicketInv(Run(s, ls)) && StampInv(Run(s, ls)) && s.order <= Run(s, ls).order
    ensures DrawsInOrder(s, ls) <==>
      forall c :: |s.order| <= c < |Run(s, ls).order| ==> Run(s, ls).order[c] == c + 1
    decreases |ls|
  {
    if ls != [] {
      var s' := Exec(s, ls[0]);
      StampStep(s, ls[0]);
      RunStamps(s', ls[1..]);
      OrderGrows(s, ls[0]);
      var order := Run(s, ls).order;
      assert forall c :: 0 <= c < |s'.order| ==> order[c] == s'.order[c];
      if |s'.order| > |s.order| {
        assert order[|s.order|] == s.threads[ls[0].t].ticket;
      }
    }
  }

  lemma OrderGrows(s: Log, l: Label)
    requires TicketInv(s)
    ensures Exec(s, l).order == s.order +
      if l.Step? && l.t < |s.threads| && s.threads[l.t].Counting? then [s.threads[l.t].ticket] else []
  {
  }

  /** Ticket i + 1 carries a stamp, and the stamp leads back to it. */
  ghost predicate Stamped(s: Log, i: nat)
    requires i < |s.payload|
  {
    && |s.payload[i]| > 0 && 1 <= s.payload[i][0] <= |s.order|
    && s.order[s.payload[i][0] - 1] == i + 1
  }

  /** Every ticket has one of the stamps 1..n, and no two have the same. */
  ghost predicate StampsDealt(s: Log) {
    && s.count == |s.order| == |s.payload|
    && (forall i :: 0 <= i < |s.payload| ==> Stamped(s, i))
    && (forall i, j :: 0 <= i < j < |s.payload| ==> !SameStamp(s.payload[i], s.payload[j]))
  }

  predicate SameStamp(a: Row, b: Row) { |a| > 0 && |b| > 0 && a[0] == b[0] }

  lemma StampsOfIdle(s: Log)
    requires StampInv(s) && AllIdle(s)
    ensures StampsDealt(s)
  {
    hide SameStamp;
    forall i | 0 <= i < |s.payload| ensures Stamped(s, i) {
      assert Drawn(s, i + 1);
      StampOf(s, i);
    }
    forall i, j | 0 <= i < j < |s.payload| ensures !SameStamp(s.payload[i], s.payload[j]) {
      DifferentStamps(s, i, j);
    }
    AllDrawn(s);
  }

  lemma DifferentStamps(s: Log, i: nat, j: nat)
    requires i < |s.payload| && j < |s.payload| && i != j && Stamped(s, i) && Stamped(s, j)
    ensures !SameStamp(s.payload[i], s.payload[j])
  {
  }

  lemma AllDrawn(s: Log)
    requires StampInv(s) && AllIdle(s)
    ensures |s.order| == |s.payload|
  {
    Distinct(s);
    forall k | 1 <= k <= |s.payload| ensures k in s.order { assert Drawn(s, k); }
    OrderLength(s.order, |s.payload|);
  }

  lemma StampOf(s: Log, i: nat)
    requires StampInv(s) && i < |s.payload| && Drawn(s, i + 1)
    ensures Stamped(s, i)
  {
    var c :| 0 <= c < |s.order| && s.order[c] == i + 1;
    assert s.payload[s.order[c] - 1][0] == c + 1;
  }

  lemma Distinct(s: Log)
    requires StampInv(s)
    ensures forall c, d :: 0 <= c < d < |s.order| ==> s.order[c] != s.order[d]
  {
    forall c, d | 0 <= c < d < |s.order| ensures s.order[c] != s.order[d] {
      assert s.payload[s.order[c] - 1][0] == c + 1 && s.payload[s.order[d] - 1][0] == d + 1;
    }
  }

  /** A sequence without repetitions that lists exactly 1..n has length n. */
  lemma {:induction false} OrderLength(order: seq<nat>, n: nat)
    requires forall i, j :: 0 <= i < j < |order| ==> order[i] != order[j]
    requires forall i :: 0 <= i < |order| ==> 1 <= order[i] <= n
    requires forall k :: 1 <= k <= n ==> k in order
    ensures |order| == n
  {
    if n > 0 {
      assert n in order;
      var i :| 0 <= i < |order| && order[i] == n;
      var rest := order[..i] + order[i + 1..];
      forall k | 1 <= k <= n - 1 ensures k in rest {
        assert k in order;
        assert order == order[..i] + [n] + order[i + 1..];
      }
      OrderLength(rest, n - 1);
    }
  }

  /** When nobody is logging, the stamps 1..n are dealt to the n tickets one to one. */
  lemma StampsAreDistinct(max: nat, width: nat, n: nat, ls: seq<Label>)
    requires max > 0 && AllIdle(Run(Init(max, width, true, n), ls))
    ensures StampsDealt(Run(Init(max, width, true, n), ls))
  {
    RunStamps(Init(max, width, true, n), ls);
    StampsOfIdle(Run(Init(max, width, true, n), ls));
  }

  /** Ticket k carries stamp k, for every k. */
  ghost predicate StampsAgree(s: Log) {
    forall i :: 0 <= i < |s.payload| ==> |s.payload[i]| > 0 && s.payload[i][0] == i + 1
  }

  /** Stamps follow the tickets exactly when every number was drawn by the ticket of that number. */
  lemma StampsAgreeExactly(max: nat, width: nat, n: nat, ls: seq<Label>)
    requires max > 0 && AllIdle(Run(Init(max, width, true, n), ls))
    ensures StampsAgree(Run(Init(max, width, true, n), ls)) <==> DrawsInOrder(Init(max, width, true, n), ls)
  {
    var s := Run(Init(max, width, true, n), ls);
    RunStamps(Init(max, width, true, n), ls);
    StampsOfIdle(s);
    if forall c :: 0 <= c < |s.order| ==> s.order[c] == c + 1 {
      forall i | 0 <= i < |s.payload| ensures |s.payload[i]| > 0 && s.payload[i][0] == i + 1 {
        assert s.order[i] == i + 1 && s.payload[s.order[i] - 1][0] == i + 1;
      }
    }
    if StampsAgree(s) {
      forall c | 0 <= c < |s.order| ensures s.order[c] == c + 1 {
        assert Stamped(s, c) && s.payload[c][0] == c + 1;
      }
    }
  }

  /**
   * m_Index and m_Count are drawn separately: of two overlapping calls the one with the later
   * ticket can get the earlier stamp, whatever the size of the log and the entries.
   */
  lemma StampsCanDisagree(max: nat, e: Row, f: Row) returns (ls: seq<Label>)
    requires max >= 2 && 4 <= |e| <= MAX_PROPERTY && 4 <= |f| <= MAX_PROPERTY
    ensures var s0 := Init(max, MAX_PROPERTY, true, 2);
      && RunWithinRing(s0, ls) && AllIdle(Run(s0, ls)) && !DrawsInOrder(s0, ls)
      && Run(s0, ls).payload == [e[0 := 2], f[0 := 1]]
  {
    var s0 := Init(max, MAX_PROPERTY, true, 2);
    var s1 := Exec(s0, Call(0, e));
    One(s0, Call(0, e));
    var s2 := Exec(s1, Call(1, f));
    One(s1, Call(1, f));
    Then(s0, [Call(0, e)], s1, [Call(1, f)], s2);
    var a, s3 := FinishCall(s2, 1);
    Then(s0, [Call(0, e)] + [Call(1, f)], s2, a, s3);
    var b, s4 := FinishCall(s3, 0);
    Then(s0, [Call(0, e)] + [Call(1, f)] + a, s3, b, s4);
    ls := [Call(0, e)] + [Call(1, f)] + a + b;
    assert s4.payload[0][0] == 2;
    StampsAgreeExactly(max, MAX_PROPERTY, 2, ls);
  }
}
