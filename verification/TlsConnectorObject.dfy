/**
 * TLSRedisConnector as an object: its array, its thread-local values and its destructor. Between
 * two accesses of a call any number of other threads make theirs, as an arbitrary schedule says,
 * and each access is the transition of TlsConnectorModel that its program point names.
 */
module TlsConnectorObject {
  import opened TlsConnectorModel
  import opened Schedules

  class RedisConnector {
    var connected: bool
    /** Set by delete; no member may be used afterwards. */
    ghost var deleted: bool

    constructor ()
      ensures !connected && !deleted
    {
      connected, deleted := false, false;
    }

    /** One attempt; the server decides whether it succeeds. */
    method Connect(answer: bool) returns (ok: bool)
      requires !deleted
      modifies this`connected
      ensures ok == connected == answer
    {
      connected := answer;
      ok := answer;
    }

    method Disconnect()
      requires !deleted
      modifies this`connected
      ensures !connected
    {
      connected := false;
    }

    method Delete()
      requires !deleted && !connected
      modifies this`deleted
      ensures deleted
    {
      deleted := true;
    }
  }

  /** The labels that thread t performs itself. */
  function Mine(t: Tid): Label -> bool { (l: Label) => l.t == t }

  /** Where thread t is, what it remembers and what it created. */
  ghost predicate SameThread(s: State, s': State, t: Tid) {
    && (t in s'.phases <==> t in s.phases) && (t in s.phases ==> s'.phases[t] == s.phases[t])
    && (t in s'.tls <==> t in s.tls) && (t in s.tls ==> s'.tls[t] == s.tls[t])
  }

  lemma OtherCallKeeps(s: State, t: Tid, u: Tid)
    requires u != t
    ensures SameThread(s, Exec(s, Call(u)), t)
  {
  }

  lemma OtherStepKeeps(s: State, t: Tid, u: Tid, connects: bool)
    requires u != t && u in s.phases
    ensures SameThread(s, Exec(s, Step(u, connects)), t)
  {
    match s.phases[u] {
      case Outside =>
      case Creating =>
      case Created(_) =>
      case Indexed(_, _) =>
      case Connecting(_) =>
      case Connected(_) =>
    }
  }

  lemma OtherKeeps(s: State, t: Tid, l: Label)
    requires l.t != t
    ensures SameThread(s, Exec(s, l), t)
  {
    if l.Call? { OtherCallKeeps(s, t, l.t); } else if l.t in s.phases { OtherStepKeeps(s, t, l.t, l.connects); }
  }

  /** Other threads never move thread t. */
  lemma {:induction false} ForeignKeeps(s: State, t: Tid, ls: seq<Label>)
    ensures SameThread(s, Run(s, Foreign(Mine(t), ls)), t)
    decreases |ls|
  {
    if ls != [] {
      var rest := Foreign(Mine(t), ls[1..]);
      if Mine(t)(ls[0]) {
        assert [] + rest == rest;
        ForeignKeeps(s, t, ls[1..]);
      } else {
        assert ([ls[0]] + rest)[1..] == rest;
        OtherKeeps(s, t, ls[0]);
        ForeignKeeps(Exec(s, ls[0]), t, ls[1..]);
      }
    }
  }

  lemma RunSnoc(s: State, ls: seq<Label>, l: Label)
    ensures Run(s, ls + [l]) == Exec(Run(s, ls), l)
  {
    RunAppend(s, ls, [l]);
    assert [l][1..] == [];
  }

  /**
   * The fields of the object as a value: m_RedisConArray, m_RedisConIndex, the thread-local
   * values, the program points of threads inside GetPointerTLS, and every connector on the heap
   * in order of creation, by whose positions Phase names them. overrun: a store went outside
   * the array.
   */
  datatype Fields = Fields(
    connectors: seq<RedisConnector?>, index: int, tls: map<Tid, RedisConnector>, phases: map<Tid, Phase>,
    heap: seq<RedisConnector>, overrun: bool)

  ghost predicate Numbered(f: Fields, s: State, t: Tid)
    requires t in f.tls
  {
    t in s.tls && s.tls[t] < |f.heap| && f.tls[t] == f.heap[s.tls[t]]
  }

  ghost predicate Placed(f: Fields, s: State, i: nat) {
    i < |f.connectors| && i < |s.slots| && s.slots[i] < |f.heap| && f.connectors[i] == f.heap[s.slots[i]]
  }

  /** The fields are those of the model's state. */
  ghost predicate Represents(f: Fields, s: State) {
    && |f.connectors| == |s.slots| && f.index == s.index && f.phases == s.phases && f.overrun == s.overrun
    && |f.heap| == s.nextCon && (forall i, j :: 0 <= i < j < |f.heap| ==> f.heap[i] != f.heap[j])
    && (forall t :: t in s.tls ==> t in f.tls) && (forall t :: t in f.tls ==> Numbered(f, s, t))
    && (forall i :: i in s.stored ==> Placed(f, s, i))
  }

  ghost predicate Fits(f: Fields, s: State) {
    Inv(s) && Represents(f, s)
  }

  lemma BeginFits(f: Fields, s: State, t: Tid)
    requires Fits(f, s)
    ensures Fits(
      if t in f.phases && !f.phases[t].Outside? then f
      else f.(phases := f.phases[t := if t in f.tls then Outside else Creating]), Exec(s, Call(t)))
  {
    var s' := Exec(s, Call(t));
    StepInv(s, Call(t));
    hide Inv;
    if !(t in f.phases && !f.phases[t].Outside?) {
      var f' := f.(phases := f.phases[t := if t in f.tls then Outside else Creating]);
      SameRest(f, f', s, s');
    }
  }

  /** Steps that leave connectors, the thread-local values and the array alone. */
  lemma SameRest(f: Fields, f': Fields, s: State, s': State)
    requires Represents(f, s) && f'.phases == s'.phases && f'.index == s'.index
    requires f' == f.(phases := f'.phases, index := f'.index, overrun := s'.overrun)
    requires s'.slots == s.slots && s'.nextCon == s.nextCon && s'.tls == s.tls && s'.stored == s.stored
    ensures Represents(f', s')
  {
    assert forall t :: t in f.tls ==> Numbered(f, s, t) && Numbered(f', s', t);
    assert forall i :: i in s.stored ==> Placed(f, s, i) && Placed(f', s', i);
  }

  lemma CreateRepresents(f: Fields, s: State, t: Tid, c: RedisConnector)
    requires Represents(f, s) && t in f.phases && f.phases[t].Creating? && c !in f.heap
    ensures Represents(f.(heap := f.heap + [c], phases := f.phases[t := Created(|f.heap|)]), Exec(s, Step(t, true)))
  {
    var f' := f.(heap := f.heap + [c], phases := f.phases[t := Created(|f.heap|)]);
    var s' := Exec(s, Step(t, true));
    assert s'.tls == s.tls && s'.slots == s.slots && s'.stored == s.stored && s'.nextCon == s.nextCon + 1;
    hide Exec;
    forall u | u in f.tls ensures Numbered(f', s', u) { assert Numbered(f, s, u); }
    forall i | i in s.stored ensures Placed(f', s', i) { assert Placed(f, s, i); }
  }

  lemma CreateFits(f: Fields, s: State, t: Tid, c: RedisConnector)
    requires Fits(f, s) && t in f.phases && f.phases[t].Creating? && c !in f.heap
    ensures Fits(f.(heap := f.heap + [c], phases := f.phases[t := Created(|f.heap|)]), Exec(s, Step(t, true)))
  {
    hide Inv, Represents, Exec;
    StepInv(s, Step(t, true));
    CreateRepresents(f, s, t, c);
  }

  lemma TakeIndexFits(f: Fields, s: State, t: Tid)
    requires Fits(f, s) && t in f.phases && f.phases[t].Created?
    ensures f.index + 1 >= 0
    ensures Fits(
      f.(index := f.index + 1, phases := f.phases[t := Indexed(f.phases[t].con, f.index + 1)]), Exec(s, Step(t, true)))
  {
    StepInv(s, Step(t, true));
    IndexStarted(s);
    hide Inv;
    var f' := f.(index := f.index + 1, phases := f.phases[t := Indexed(f.phases[t].con, f.index + 1)]);
    SameRest(f, f', s, Exec(s, Step(t, true)));
  }

  /** A connector in a call's hands has a number. */
  lemma InHand(s: State, t: Tid)
    requires Inv(s) && t in s.phases && (s.phases[t].Indexed? || s.phases[t].Connecting? || s.phases[t].Connected?)
    ensures s.phases[t].con < s.nextCon && t !in s.tls
  {
    assert PhaseInv(s, t);
  }

  lemma StoreRepresents(f: Fields, s: State, t: Tid)
    requires Represents(f, s) && t in f.phases && f.phases[t].Indexed? && f.phases[t].con < |f.heap|
    requires f.phases[t].i < |f.connectors|
    ensures var p := f.phases[t];
      Represents(f.(phases := f.phases[t := Connecting(p.con)], connectors := f.connectors[p.i := f.heap[p.con]]),
        Exec(s, Step(t, true)))
  {
    var p, s' := f.phases[t], Exec(s, Step(t, true));
    var f' := f.(phases := f.phases[t := Connecting(p.con)], connectors := f.connectors[p.i := f.heap[p.con]]);
    assert s' == Goto(s, t, Connecting(p.con)).(slots := s.slots[p.i := p.con], stored := s.stored + {p.i});
    hide Exec;
    forall u | u in f.tls ensures Numbered(f', s', u) { assert Numbered(f, s, u); }
    forall i | i in s'.stored ensures Placed(f', s', i) {
      if i != p.i { assert Placed(f, s, i); }
    }
  }

  lemma StoreFits(f: Fields, s: State, t: Tid)
    requires Fits(f, s) && t in f.phases && f.phases[t].Indexed?
    ensures f.phases[t].con < |f.heap|
    ensures var p := f.phases[t];
      var g := f.(phases := f.phases[t := Connecting(p.con)]);
      Fits(
        if p.i < |f.connectors| then g.(connectors := f.connectors[p.i := f.heap[p.con]]) else g.(overrun := true),
        Exec(s, Step(t, true)))
  {
    StepInv(s, Step(t, true));
    InHand(s, t);
    hide Inv;
    if f.phases[t].i < |f.connectors| {
      StoreRepresents(f, s, t);
    } else {
      SameRest(f, f.(phases := f.phases[t := Connecting(f.phases[t].con)], overrun := true), s, Exec(s, Step(t, true)));
    }
  }

  lemma TryConnectFits(f: Fields, s: State, t: Tid, answer: bool)
    requires Fits(f, s) && t in f.phases && f.phases[t].Connecting?
    ensures Fits(
      if answer then f.(phases := f.phases[t := Connected(f.phases[t].con)]) else f, Exec(s, Step(t, answer)))
  {
    StepInv(s, Step(t, answer));
    hide Inv;
    if answer {
      SameRest(f, f.(phases := f.phases[t := Connected(f.phases[t].con)]), s, Exec(s, Step(t, true)));
    }
  }

  lemma RememberRepresents(f: Fields, s: State, t: Tid)
    requires Represents(f, s) && t in f.phases && f.phases[t].Connected? && f.phases[t].con < |f.heap|
    ensures Represents(
      f.(tls := f.tls[t := f.heap[f.phases[t].con]], phases := f.phases[t := Outside]), Exec(s, Step(t, true)))
  {
    var f' := f.(tls := f.tls[t := f.heap[f.phases[t].con]], phases := f.phases[t := Outside]);
    var s' := Exec(s, Step(t, true));
    assert s'.tls == s.tls[t := f.phases[t].con] && s'.slots == s.slots && s'.stored == s.stored;
    assert s'.nextCon == s.nextCon && s'.phases == f'.phases && s'.overrun == s.overrun && s'.index == s.index;
    hide Exec;
    forall u | u in f'.tls ensures Numbered(f', s', u) { if u != t { assert Numbered(f, s, u); } }
    forall i | i in s.stored ensures Placed(f', s', i) { assert Placed(f, s, i); }
  }

  lemma RememberFits(f: Fields, s: State, t: Tid)
    requires Fits(f, s) && t in f.phases && f.phases[t].Connected?
    ensures f.phases[t].con < |f.heap|
    ensures Fits(
      f.(tls := f.tls[t := f.heap[f.phases[t].con]], phases := f.phases[t := Outside]), Exec(s, Step(t, true)))
  {
    InHand(s, t);
    StepInv(s, Step(t, true));
    hide Inv, Exec;
    RememberRepresents(f, s, t);
  }

  /** A connector that a thread is still connecting is in no other thread's hands. */
  lemma Unshared(f: Fields, s: State, t: Tid)
    requires Fits(f, s) && t in f.phases && f.phases[t].Connecting?
    ensures f.phases[t].con < |f.heap|
    ensures forall u :: u in f.tls ==> f.tls[u] != f.heap[f.phases[t].con]
    ensures forall u :: u in f.phases && f.phases[u].Connected? ==>
      f.phases[u].con < |f.heap| && f.heap[f.phases[u].con] != f.heap[f.phases[t].con]
  {
    InHand(s, t);
    assert PhaseInv(s, t);
    forall u | u in f.tls ensures f.tls[u] != f.heap[s.phases[t].con] { assert Numbered(f, s, u); }
    forall u | u in s.phases && s.phases[u].Connected?
      ensures s.phases[u].con < |f.heap| && f.heap[s.phases[u].con] != f.heap[s.phases[t].con]
    {
      InHand(s, u);
      assert PhaseInv(s, u);
    }
  }

  /** Only an attempt to connect depends on an answer, and a thread outside makes no step. */
  lemma AnswerIsForConnect(f: Fields, s: State, t: Tid, answer: bool)
    requires Fits(f, s)
    ensures t !in f.phases || f.phases[t].Outside? ==> Exec(s, Step(t, answer)) == s
    ensures t in f.phases && !f.phases[t].Connecting? ==> Exec(s, Step(t, answer)) == Exec(s, Step(t, true))
  {
  }

  /** A thread's connector, as long as it keeps its number and its place on the heap. */
  lemma SameConnector(f: Fields, s: State, f': Fields, s': State, t: Tid)
    requires Fits(f, s) && Fits(f', s') && SameThread(s, s', t) && f.heap <= f'.heap
    ensures (t in f'.tls <==> t in f.tls) && (t in f.tls ==> f'.tls[t] == f.tls[t])
    ensures (t in f'.phases <==> t in f.phases) && (t in f.phases ==> f'.phases[t] == f.phases[t])
  {
    if t in f.tls { assert Numbered(f, s, t); }
    if t in f'.tls { assert Numbered(f', s', t); }
  }

  /** Every connector on the heap is at an index the destructor visits. */
  lemma AllReached(f: Fields, s: State, c: RedisConnector)
    requires Represents(f, s) && Filed(s) && c in f.heap
    ensures exists i | 0 <= i <= f.index && i < |f.connectors| :: f.connectors[i] == c
  {
    var k :| 0 <= k < |f.heap| && f.heap[k] == c;
    assert InSomeSlot(s, k);
    var i :| 0 <= i <= s.index && i < |s.slots| && s.slots[i] == k;
    assert Placed(f, s, i);
  }

  /** Every index the destructor visits holds a connector, and no two the same. */
  lemma NoneTwice(f: Fields, s: State)
    requires Represents(f, s) && Filed(s)
    ensures -1 <= f.index < |f.connectors|
    ensures forall i :: 0 <= i <= f.index ==> f.connectors[i] in f.heap
    ensures forall i, j :: 0 <= i < j <= f.index ==> f.connectors[i] != f.connectors[j]
  {
    forall i | 0 <= i <= f.index ensures f.connectors[i] in f.heap { assert i in s.stored && Placed(f, s, i); }
    forall i, j | 0 <= i < j <= f.index ensures f.connectors[i] != f.connectors[j] {
      assert Placed(f, s, i) && Placed(f, s, j) && s.slots[i] != s.slots[j];
    }
  }

  lemma FiledFields(f: Fields, s: State)
    requires Fits(f, s) && AllOutside(s) && !f.overrun
    ensures Filed(s)
  {
    FiledWhenOutside(s);
  }

  /** After all calls the destructor visits every connector on the heap, once. */
  lemma AllVisited(f: Fields, s: State)
    requires Fits(f, s) && AllOutside(s) && !f.overrun
    ensures -1 <= f.index < |f.connectors|
    ensures forall i :: 0 <= i <= f.index ==> f.connectors[i] in f.heap
    ensures forall i, j :: 0 <= i < j <= f.index ==> f.connectors[i] != f.connectors[j]
    ensures forall c :: c in f.heap ==> exists i | 0 <= i <= f.index :: f.connectors[i] == c
  {
    hide Inv, Represents, Filed, AllOutside;
    FiledFields(f, s);
    NoneTwice(f, s);
    forall c | c in f.heap ensures exists i | 0 <= i <= f.index :: f.connectors[i] == c { AllReached(f, s, c); }
  }

  lemma RunNothing(s: State)
    ensures Run(s, []) == s
  {
  }

  class TLSRedisConnector {
    var connectors: array<RedisConnector?>
    var index: int
    var tls: map<Tid, RedisConnector>
    var phases: map<Tid, Phase>
    var heap: seq<RedisConnector>
    var overrun: bool
    /** The state of TlsConnectorModel that the object is in. */
    ghost var now: State

    ghost function Image(): Fields
      reads this, connectors
    {
      Fields(connectors[..], index, tls, phases, heap, overrun)
    }

    /** Nothing is deleted, and what a call has obtained or will return is connected. */
    ghost predicate Live()
      reads this, heap
    {
      && (forall c :: c in heap ==> !c.deleted)
      && (forall t :: t in tls ==> tls[t] in heap && tls[t].connected)
      && (forall t :: t in phases && phases[t].Connected? ==>
            phases[t].con < |heap| && heap[phases[t].con].connected)
    }

    ghost predicate Valid()
      reads this, connectors, heap
    {
      Fits(Image(), now) && Live()
    }

    constructor (threadCount: nat)
      ensures Valid() && now == Init(threadCount) && fresh(connectors)
    {
      index, tls, phases, heap, overrun := -1, map[], map[], [], false;
      connectors := new RedisConnector?[threadCount](_ => null);
      now := Init(threadCount);
      new;
      InitialInv(threadCount);
    }

    /** A call begins: it returns at once if the thread has its connector. */
    method Begin(t: Tid)
      requires Valid()
      modifies this`phases, this`now
      ensures Valid() && now == Exec(old(now), Call(t))
      ensures phases == if t in old(phases) && !old(phases)[t].Outside? then old(phases)
        else old(phases)[t := if t in tls then Outside else Creating]
    {
      hide Fits, Exec;
      BeginFits(Image(), now, t);
      now := Exec(now, Call(t));
      if t !in phases || phases[t].Outside? {
        phases := phases[t := if t in tls then Outside else Creating];
      }
    }

    /** `new RedisConnector()`. */
    method Create(t: Tid)
      requires Valid() && t in phases && phases[t].Creating?
      modifies this`phases, this`heap, this`now
      ensures Valid() && now == Exec(old(now), Step(t, true))
      ensures |heap| > 0 && heap[..|heap| - 1] == old(heap) && fresh(heap[|heap| - 1])
      ensures phases == old(phases)[t := Created(|old(heap)|)]
    {
      hide Fits, Exec;
      var c := new RedisConnector();
      CreateFits(Image(), now, t, c);
      now := Exec(now, Step(t, true));
      phases := phases[t := Created(|heap|)];
      heap := heap + [c];
    }

    /** InterlockedIncrement on m_RedisConIndex. */
    method TakeIndex(t: Tid)
      requires Valid() && t in phases && phases[t].Created?
      modifies this`phases, this`index, this`now
      ensures Valid() && now == Exec(old(now), Step(t, true))
      ensures index >= 0 && phases == old(phases)[t := Indexed(old(phases[t].con), index)]
    {
      hide Fits, Exec;
      TakeIndexFits(Image(), now, t);
      now := Exec(now, Step(t, true));
      index := index + 1;
      phases := phases[t := Indexed(phases[t].con, index)];
    }

    /** The store into the array, or past its end. */
    method Store(t: Tid)
      requires Valid() && t in phases && phases[t].Indexed?
      modifies this`phases, this`overrun, this`now, connectors
      ensures Valid() && now == Exec(old(now), Step(t, true))
      ensures phases == old(phases)[t := Connecting(old(phases[t].con))]
    {
      hide Fits, Exec;
      StoreFits(Image(), now, t);
      now := Exec(now, Step(t, true));
      var p := phases[t];
      ghost var stored := if p.i < connectors.Length then connectors[..][p.i := heap[p.con]] else connectors[..];
      if p.i < connectors.Length {
        connectors[p.i] := heap[p.con];
      } else {
        overrun := true;
      }
      assert connectors[..] == stored;
      phases := phases[t := Connecting(p.con)];
    }

    /** One turn of the loop around Connect. */
    method TryConnect(t: Tid, answer: bool) returns (ok: bool)
      requires Valid() && t in phases && phases[t].Connecting?
      modifies this`phases, this`now, heap
      ensures Valid() && now == Exec(old(now), Step(t, answer)) && ok == answer
      ensures phases == if ok then old(phases)[t := Connected(old(phases[t].con))] else old(phases)
    {
      hide Fits, Exec;
      TryConnectFits(Image(), now, t, answer);
      Unshared(Image(), now, t);
      now := Exec(now, Step(t, answer));
      var c := phases[t].con;
      ok := heap[c].Connect(answer);
      if ok {
        phases := phases[t := Connected(c)];
      }
    }

    /** TlsSetValue, and the return. */
    method Remember(t: Tid)
      requires Valid() && t in phases && phases[t].Connected?
      modifies this`phases, this`tls, this`now
      ensures Valid() && now == Exec(old(now), Step(t, true))
      ensures phases == old(phases)[t := Outside]
      ensures old(phases[t].con) < |heap| && tls == old(tls)[t := heap[old(phases[t].con)]]
    {
      hide Fits, Exec;
      RememberFits(Image(), now, t);
      now := Exec(now, Step(t, true));
      tls := tls[t := heap[phases[t].con]];
      phases := phases[t := Outside];
    }

    /** The heap only grows, by new objects. */
    twostate predicate HeapGrows()
      reads this
    {
      old(heap) <= heap && forall i :: |old(heap)| <= i < |heap| ==> fresh(heap[i])
    }

    /** One access of any thread. */
    method Perform(l: Label)
      requires Valid()
      modifies this, connectors, heap
      ensures Valid() && now == Exec(old(now), l) && connectors == old(connectors) && HeapGrows()
    {
      hide Fits, Exec;
      if l.Call? {
        Begin(l.t);
      } else {
        AnswerIsForConnect(Image(), now, l.t, l.connects);
        if l.t in phases {
          match phases[l.t] {
            case Outside =>
            case Creating => Create(l.t);
            case Created(_) => TakeIndex(l.t);
            case Indexed(_, _) => Store(l.t);
            case Connecting(_) => var ok := TryConnect(l.t, l.connects);
            case Connected(_) => Remember(l.t);
          }
        }
      }
    }

    /** A run of everyone's accesses. */
    method PerformAll(ls: seq<Label>)
      requires Valid()
      modifies this, connectors, heap
      ensures Valid() && now == Run(old(now), ls) && connectors == old(connectors) && HeapGrows()
    {
      hide Fits, Exec, Run;
      ghost var s := now;
      RunNothing(s);
      var k := 0;
      assert ls[..0] == [];
      while k < |ls|
        invariant 0 <= k <= |ls| && Valid() && now == Run(s, ls[..k])
        invariant connectors == old(connectors) && HeapGrows()
      {
        RunSnoc(s, ls[..k], ls[k]);
        assert ls[..k + 1] == ls[..k] + [ls[k]];
        Perform(ls[k]);
        k := k + 1;
      }
      assert ls[..k] == ls;
    }

    /** After thread t's access l the others run gap i of the schedule. */
    method Yield(t: Tid, env: Schedule<Label>, i: nat, ghost s0: State, ghost own: seq<Label>, ghost l: Label)
      requires Valid() && i == |own| && now == Exec(Run(s0, Weave(Mine(t), own, env)), l)
      modifies this, connectors, heap
      ensures Valid() && now == Run(s0, Weave(Mine(t), own + [l], env))
      ensures connectors == old(connectors) && HeapGrows()
      ensures (t in tls <==> t in old(tls)) && (t in tls ==> tls[t] == old(tls[t]))
      ensures (t in phases <==> t in old(phases)) && (t in phases ==> phases[t] == old(phases[t]))
    {
      hide Fits, Exec, Run, Weave;
      ghost var before, f, s := Weave(Mine(t), own, env), Image(), now;
      WeaveSnoc(Mine(t), own, l, env);
      RunSnoc(s0, before, l);
      RunAppend(s0, before + [l], Gap(Mine(t), env, i));
      RunNothing(s);
      if i < |env| {
        ForeignKeeps(s, t, env[i]);
        PerformAll(Foreign(Mine(t), env[i]));
        SameConnector(f, s, Image(), now, t);
      }
    }

    /** The retry loop around Connect, whose first `failures` answers are no. */
    method ConnectUntilItSucceeds(t: Tid, failures: nat, env: Schedule<Label>, i0: nat, ghost s0: State,
                                  ghost own0: seq<Label>)
        returns (i: nat, ghost own: seq<Label>)
      requires Valid() && now == Run(s0, Weave(Mine(t), own0, env)) && t in phases && phases[t].Connecting?
      requires i0 == |own0| && OneCall(Mine(t), Call(t), own0)
      modifies this, connectors, heap
      ensures Valid() && now == Run(s0, Weave(Mine(t), own, env)) && connectors == old(connectors) && HeapGrows()
      ensures i == |own| && OneCall(Mine(t), Call(t), own)
      ensures t in phases && phases[t] == Connected(old(phases[t].con))
    {
      hide Fits, Exec, Run, Weave, OneCall;
      i, own := i0, own0;
      var left := failures;
      OneCallSnoc(Mine(t), Call(t), own, Step(t, left == 0));
      var ok := TryConnect(t, left == 0);
      Yield(t, env, i, s0, own, Step(t, ok));
      i, own := i + 1, own + [Step(t, ok)];
      while !ok
        invariant Valid() && now == Run(s0, Weave(Mine(t), own, env)) && connectors == old(connectors) && HeapGrows()
        invariant i == |own| && OneCall(Mine(t), Call(t), own) && (ok <==> left == 0)
        invariant t in phases && phases[t] == if ok then Connected(old(phases[t].con)) else old(phases[t])
        decreases left
      {
        left := left - 1;
        OneCallSnoc(Mine(t), Call(t), own, Step(t, left == 0));
        ok := TryConnect(t, left == 0);
        Yield(t, env, i, s0, own, Step(t, ok));
        i, own := i + 1, own + [Step(t, ok)];
      }
    }

    /** `m_RedisConArray[InterlockedIncrement(&m_RedisConIndex)] = redisConnector`. */
    method TakeAndStore(t: Tid, env: Schedule<Label>, i: nat, ghost s0: State, ghost own: seq<Label>)
      requires Valid() && now == Run(s0, Weave(Mine(t), own, env)) && t in phases && phases[t].Created? && i == |own|
      modifies this, connectors, heap
      ensures Valid() && now == Run(s0, Weave(Mine(t), own + [Step(t, true)] + [Step(t, true)], env))
      ensures connectors == old(connectors) && HeapGrows()
      ensures t in phases && phases[t] == Connecting(old(phases[t].con))
    {
      hide Fits, Exec, Run, Weave;
      TakeIndex(t);
      Yield(t, env, i, s0, own, Step(t, true));
      Store(t);
      Yield(t, env, i + 1, s0, own + [Step(t, true)], Step(t, true));
    }

    /** A new connector, entered at the next index. */
    method CreateAndStore(t: Tid, env: Schedule<Label>, ghost s0: State) returns (ghost own: seq<Label>)
      requires Valid() && now == Run(s0, Weave(Mine(t), [Call(t)], env)) && t in phases && phases[t].Creating?
      modifies this, connectors, heap
      ensures Valid() && now == Run(s0, Weave(Mine(t), own, env)) && connectors == old(connectors) && HeapGrows()
      ensures |own| == 4 && OneCall(Mine(t), Call(t), own)
      ensures t in phases && phases[t] == Connecting(|old(heap)|)
    {
      hide Fits, Exec, Run, Weave;
      own := [Call(t)];
      Create(t);
      Yield(t, env, 1, s0, own, Step(t, true));
      own := own + [Step(t, true)];
      TakeAndStore(t, env, 2, s0, own);
      own := own + [Step(t, true)] + [Step(t, true)];
    }

    /** The first call of a thread, from the creation of its connector on. */
    method FirstCall(t: Tid, failures: nat, env: Schedule<Label>, ghost s0: State)
        returns (ghost own: seq<Label>, ghost tr: seq<Label>)
      requires Valid() && now == Run(s0, Weave(Mine(t), [Call(t)], env)) && t in phases && phases[t].Creating?
      modifies this, connectors, heap
      ensures Valid() && now == Run(s0, tr) && connectors == old(connectors) && HeapGrows()
      ensures Woven(Mine(t), Call(t), own, env, tr)
      ensures t in phases && phases[t].Outside? && t in tls && fresh(tls[t])
    {
      hide Fits, Exec, Run, Weave, OneCall;
      var i;
      own := CreateAndStore(t, env, s0);
      i, own := ConnectUntilItSucceeds(t, failures, env, 4, s0, own);
      tr := Weave(Mine(t), own, env);
      RunSnoc(s0, tr, Step(t, true));
      WovenLast(Mine(t), Call(t), own, Step(t, true), env);
      Remember(t);
      tr, own := tr + [Step(t, true)], own + [Step(t, true)];
    }

    /** The call itself, and the gap after it. */
    method Enter(t: Tid, env: Schedule<Label>, ghost s0: State)
      requires Valid() && s0 == now && (t in phases ==> phases[t].Outside?)
      modifies this, connectors, heap
      ensures Valid() && now == Run(s0, Weave(Mine(t), [Call(t)], env)) && connectors == old(connectors) && HeapGrows()
      ensures t in phases && phases[t] == if t in old(tls) then Outside else Creating
      ensures (t in tls <==> t in old(tls)) && (t in tls ==> tls[t] == old(tls[t]))
    {
      hide Fits, Exec, Run, Weave;
      RunNothing(s0);
      WeaveNothing(Mine(t), env);
      Begin(t);
      Yield(t, env, 0, s0, [], Call(t));
      assert [] + [Call(t)] == [Call(t)];
    }

    /**
     * GetPointerTLS by thread t, with an arbitrary schedule of everyone else in every gap between
     * its accesses. It is a run of TlsConnectorModel and returns t's own connector, new at its
     * first call and the same after.
     */
    method GetPointerTLS(t: Tid, failures: nat, env: Schedule<Label>)
        returns (c: RedisConnector, ghost own: seq<Label>, ghost tr: seq<Label>)
      requires Valid() && (t in phases ==> phases[t].Outside?)
      modifies this, connectors, heap
      ensures Valid() && now == Run(old(now), tr) && connectors == old(connectors) && HeapGrows()
      ensures Woven(Mine(t), Call(t), own, env, tr)
      ensures t in phases && phases[t].Outside? && t in tls && c == tls[t] && c.connected
      ensures if t in old(tls) then c == old(tls[t]) else fresh(c)
    {
      hide Fits, Exec, Run, Weave;
      ghost var s0 := now;
      Enter(t, env, s0);
      own := [Call(t)];
      tr := Weave(Mine(t), own, env);
      if t !in tls {
        own, tr := FirstCall(t, failures, env, s0);
      }
      c := tls[t];
    }

    /**
     * The destructor, once every call has returned: it disconnects and deletes each connector
     * ever created, and none twice, as a second Delete would violate its precondition.
     */
    method Destroy()
      requires Valid() && AllOutside(now) && !overrun
      modifies heap
      ensures forall c :: c in heap ==> c.deleted && !c.connected
    {
      hide Fits, AllOutside;
      AllVisited(Image(), now);
      var i := 0;
      while i <= index
        invariant 0 <= i <= index + 1
        invariant forall c :: c in heap && (forall k :: 0 <= k < i ==> connectors[k] != c) ==> !c.deleted
        invariant forall k :: 0 <= k < i ==> connectors[k] in heap
        invariant forall c :: c in heap && (exists k :: 0 <= k < i && connectors[k] == c) ==> c.deleted && !c.connected
      {
        assert connectors[..][i] == connectors[i] && connectors[i] in heap;
        assert forall k :: 0 <= k < i ==> connectors[..][k] != connectors[..][i];
        var c := connectors[i];
        c.Disconnect();
        c.Delete();
        i := i + 1;
      }
      forall c | c in heap ensures c.deleted && !c.connected {
        var k :| 0 <= k <= index && connectors[..][k] == c;
        assert connectors[k] == c;
      }
    }
  }
}
