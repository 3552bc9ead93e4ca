/**
 * TLSRedisConnector::GetPointerTLS by any number of threads. A thread's first call creates a
 * connector, takes the next index of the shared array, stores the connector there, connects
 * until that succeeds and remembers the connector in its thread-local slot.
 */
module TlsConnectorModel {
  type Tid = nat
  type Con = nat

  datatype Phase =
    | Outside
    | Creating
    | Created(con: Con)
    | Indexed(con: Con, i: nat)
    | Connecting(con: Con)
    | Connected(con: Con)

  /**
   * slots is m_RedisConArray, index m_RedisConIndex, tls the thread-local values; overrun records
   * a store outside the array. made[t] is the connector thread t created, owners[i] the thread
   * that took index i, stored the indices written and returned[t] what t's calls gave it: these
   * are history variables.
   */
  datatype State = State(
    threadCount: nat, index: int, slots: seq<Con>, tls: map<Tid, Con>, phases: map<Tid, Phase>, nextCon: Con,
    overrun: bool, made: map<Tid, Con>, owners: seq<Tid>, stored: set<nat>, returned: map<Tid, seq<Con>>)

  /** A thread enters GetPointerTLS, or makes its next access; Connect may answer either way. */
  datatype Label = Call(t: Tid) | Step(t: Tid, connects: bool)

  function Init(threadCount: nat): State {
    State(threadCount, -1, seq(threadCount, _ => 0), map[], map[], 0, false, map[], [], {}, map[])
  }

  function Goto(s: State, t: Tid, p: Phase): State { s.(phases := s.phases[t := p]) }

  function Return(s: State, t: Tid, c: Con): State {
    Goto(s, t, Outside).(returned := s.returned[t := (if t in s.returned then s.returned[t] else []) + [c]])
  }

  function Exec(s: State, l: Label): State {
    match l
    case Call(t) =>
      if t in s.phases && !s.phases[t].Outside? then s
      else if t in s.tls then Return(s, t, s.tls[t])
      else Goto(s, t, Creating)
    case Step(t, connects) =>
      if t !in s.phases then s else
      match s.phases[t]
      case Outside => s
      case Creating => Goto(s, t, Created(s.nextCon)).(nextCon := s.nextCon + 1, made := s.made[t := s.nextCon])
      case Created(c) =>
        if s.index + 1 < 0 then s
        else Goto(s, t, Indexed(c, s.index + 1)).(index := s.index + 1, owners := s.owners + [t])
      case Indexed(c, i) =>
        if i < |s.slots| then Goto(s, t, Connecting(c)).(slots := s.slots[i := c], stored := s.stored + {i})
        else Goto(s, t, Connecting(c)).(overrun := true)
      case Connecting(c) => if connects then Goto(s, t, Connected(c)) else s
      case Connected(c) => Return(s, t, c).(tls := s.tls[t := c])
  }

  function Run(s: State, ls: seq<Label>): (r: State)
    ensures r.threadCount == s.threadCount
    decreases |ls|
  {
    if ls == [] then s else Run(Exec(s, ls[0]), ls[1..])
  }

  ghost predicate PhaseInv(s: State, t: Tid)
    requires t in s.phases
  {
    match s.phases[t]
    case Outside => t in s.tls
    case Creating => t !in s.made && t !in s.owners && t !in s.tls
    case Created(c) => t in s.made && s.made[t] == c && t !in s.owners && t !in s.tls
    case Indexed(c, i) =>
      t in s.made && s.made[t] == c && i < |s.owners| && s.owners[i] == t && i !in s.stored && t !in s.tls
    case Connecting(c) => t in s.made && s.made[t] == c && t in s.owners && t !in s.tls
    case Connected(c) => t in s.made && s.made[t] == c && t in s.owners && t !in s.tls
  }

  /** Index i has been used: inside the array it holds its owner's connector. */
  ghost predicate SlotInv(s: State, i: nat)
    requires i < |s.owners|
  {
    var t := s.owners[i];
    && t in s.made && t in s.phases
    && (s.phases[t] == Indexed(s.made[t], i) || (if i < s.threadCount then i in s.stored else s.overrun))
  }

  /** Every connector belongs to the one thread that created it. */
  ghost predicate MadeInv(s: State) {
    && (forall t :: t in s.made ==> s.made[t] < s.nextCon && t in s.phases)
    && (forall t, u :: t in s.made && u in s.made && t != u ==> s.made[t] != s.made[u])
    && (forall t :: t in s.tls ==> t in s.phases && t in s.made && s.tls[t] == s.made[t] && t in s.owners)
  }

  ghost predicate IndexInv(s: State) {
    && |s.slots| == s.threadCount && s.index + 1 == |s.owners|
    && (forall i, j :: 0 <= i < j < |s.owners| ==> s.owners[i] != s.owners[j])
    && (forall i :: 0 <= i < |s.owners| ==> SlotInv(s, i))
    && (forall i :: i in s.stored ==>
          i < |s.owners| && i < s.threadCount && s.owners[i] in s.made && s.slots[i] == s.made[s.owners[i]])
    && (s.overrun ==> |s.owners| > s.threadCount)
  }

  ghost predicate ReturnedInv(s: State) {
    forall t :: t in s.returned ==> t in s.tls && AllAre(s.returned[t], s.tls[t])
  }

  predicate AllAre(cs: seq<Con>, c: Con) { forall k :: 0 <= k < |cs| ==> cs[k] == c }

  ghost predicate PhasesInv(s: State) { forall t :: t in s.phases ==> PhaseInv(s, t) }

  /** Every connector ever created was created by some thread. */
  ghost predicate AllMade(s: State) { forall c: Con :: c < s.nextCon ==> c in s.made.Values }

  ghost predicate Inv(s: State) { MadeInv(s) && AllMade(s) && IndexInv(s) && ReturnedInv(s) && PhasesInv(s) }

  /** A step of thread t: the phases of the others still fit. */
  lemma OthersKept(s: State, s': State, t: Tid)
    requires PhasesInv(s) && t in s'.phases && PhaseInv(s', t) && s'.phases == s.phases[t := s'.phases[t]]
    requires forall u :: u != t ==> (u in s'.made <==> u in s.made) && (u in s.made ==> s'.made[u] == s.made[u])
    requires forall u :: u != t ==> (u in s'.tls <==> u in s.tls) && (u in s'.owners <==> u in s.owners)
    requires |s.owners| <= |s'.owners| && s'.owners[..|s.owners|] == s.owners
    requires forall i :: i in s'.stored && i !in s.stored ==> i < |s.owners| && s.owners[i] == t
    ensures PhasesInv(s')
  {
    forall u | u in s'.phases ensures PhaseInv(s', u) {
      if u != t {
        assert PhaseInv(s, u);
        assert forall i :: 0 <= i < |s.owners| ==> s'.owners[i] == s.owners[i];
      }
    }
  }

  lemma SlotsKept(s: State, s': State, t: Tid)
    requires IndexInv(s) && t in s'.phases && s'.phases == s.phases[t := s'.phases[t]]
    requires s'.owners == s.owners && s'.made == s.made && s'.threadCount == s.threadCount
    requires s.stored <= s'.stored && (s.overrun ==> s'.overrun)
    requires t in s.phases && s.phases[t].Indexed? ==>
      if s.phases[t].i < s.threadCount then s.phases[t].i in s'.stored else s'.overrun
    ensures forall i :: 0 <= i < |s'.owners| ==> SlotInv(s', i)
  {
    forall i | 0 <= i < |s'.owners| ensures SlotInv(s', i) { assert SlotInv(s, i); }
  }

  lemma NotAnOwner(s: State, t: Tid)
    requires IndexInv(s) && t !in s.phases
    ensures t !in s.owners
  {
    forall i | 0 <= i < |s.owners| ensures s.owners[i] != t { assert SlotInv(s, i); }
  }

  lemma FirstCallInv(s: State, t: Tid)
    requires Inv(s) && t !in s.phases
    ensures Inv(Exec(s, Call(t)))
  {
    var s' := Exec(s, Call(t));
    NotAnOwner(s, t);
    OthersKept(s, s', t);
    SlotsKept(s, s', t);
  }

  /** Steps that leave array, index and owners alone. */
  lemma IndexKept(s: State, s': State, t: Tid)
    requires IndexInv(s) && t in s.phases && !s.phases[t].Indexed?
    requires t in s'.phases && s'.phases == s.phases[t := s'.phases[t]]
    requires s'.owners == s.owners && s'.made == s.made && s'.threadCount == s.threadCount && s'.index == s.index
    requires s'.slots == s.slots && s'.stored == s.stored && s'.overrun == s.overrun
    ensures IndexInv(s')
  {
    SlotsKept(s, s', t);
  }

  lemma MadeKept(s: State, s': State, t: Tid)
    requires MadeInv(s) && t in s.phases && t in s'.phases && s'.phases == s.phases[t := s'.phases[t]]
    requires s'.made == s.made && s'.nextCon == s.nextCon && s'.owners == s.owners
    requires s'.tls == s.tls || (t in s.made && t in s.owners && s'.tls == s.tls[t := s.made[t]])
    ensures MadeInv(s')
  {
  }

  lemma ReturnedKept(s: State, s': State, t: Tid, c: Con)
    requires ReturnedInv(s) && t in s'.tls && s'.tls[t] == c
    requires t in s.returned ==> t in s.tls && s.tls[t] == c
    requires s'.tls == s.tls || s'.tls == s.tls[t := c]
    requires s'.returned == s.returned[t := (if t in s.returned then s.returned[t] else []) + [c]]
    ensures ReturnedInv(s')
  {
  }

  /** A call of a thread that already has its connector. */
  lemma LaterCallInv(s: State, t: Tid)
    requires Inv(s) && t in s.phases && s.phases[t].Outside? && t in s.tls
    ensures Inv(Return(s, t, s.tls[t]))
  {
    var s' := Return(s, t, s.tls[t]);
    MadeKept(s, s', t);
    IndexKept(s, s', t);
    OthersKept(s, s', t);
    ReturnedKept(s, s', t, s.tls[t]);
  }

  lemma CreatedIsMade(s: State, t: Tid)
    requires AllMade(s) && t !in s.made
    ensures AllMade(s.(nextCon := s.nextCon + 1, made := s.made[t := s.nextCon]))
  {
    var made := s.made[t := s.nextCon];
    forall c: Con | c < s.nextCon + 1 ensures c in made.Values {
      if c < s.nextCon {
        assert c in s.made.Values;
        var u :| u in s.made && s.made[u] == c;
        assert made[u] == c;
      } else {
        assert made[t] == c;
      }
    }
  }

  lemma CreateInv(s: State, l: Label)
    requires Inv(s) && l.Step? && l.t in s.phases && s.phases[l.t].Creating?
    ensures Inv(Exec(s, l))
  {
    var s' := Exec(s, l);
    assert PhaseInv(s, l.t);
    OthersKept(s, s', l.t);
    CreatedIsMade(s, l.t);
    forall i | 0 <= i < |s'.owners| ensures SlotInv(s', i) { assert SlotInv(s, i) && s.owners[i] in s.owners; }
    assert forall i :: i in s.stored ==> s.owners[i] in s.owners;
  }

  lemma TakeIndexInv(s: State, l: Label)
    requires Inv(s) && l.Step? && l.t in s.phases && s.phases[l.t].Created?
    ensures Inv(Exec(s, l))
  {
    var s' := Exec(s, l);
    assert PhaseInv(s, l.t);
    OthersKept(s, s', l.t);
    forall i | 0 <= i < |s'.owners| ensures SlotInv(s', i) {
      if i < |s.owners| { assert SlotInv(s, i) && s.owners[i] in s.owners; }
    }
  }

  lemma StoreIndex(s: State, l: Label)
    requires IndexInv(s) && l.Step? && l.t in s.phases && s.phases[l.t].Indexed? && PhaseInv(s, l.t)
    ensures IndexInv(Exec(s, l))
  {
    var s' := Exec(s, l);
    SlotsKept(s, s', l.t);
    forall i | i in s'.stored
      ensures i < |s'.owners| && i < s'.threadCount && s'.owners[i] in s'.made && s'.slots[i] == s'.made[s'.owners[i]]
    {
      if i != s.phases[l.t].i { assert i in s.stored; }
    }
  }

  lemma StoreInv(s: State, l: Label)
    requires Inv(s) && l.Step? && l.t in s.phases && s.phases[l.t].Indexed?
    ensures Inv(Exec(s, l))
  {
    hide MadeInv, IndexInv, ReturnedInv, SlotInv;
    assert PhaseInv(s, l.t);
    StoreIndex(s, l);
    StoreMade(s, l);
    StorePhases(s, l);
  }

  lemma StoreMade(s: State, l: Label)
    requires MadeInv(s) && ReturnedInv(s) && l.Step? && l.t in s.phases && s.phases[l.t].Indexed?
    ensures MadeInv(Exec(s, l)) && ReturnedInv(Exec(s, l))
  {
    MadeKept(s, Exec(s, l), l.t);
  }

  lemma StorePhases(s: State, l: Label)
    requires PhasesInv(s) && l.Step? && l.t in s.phases && s.phases[l.t].Indexed?
    ensures PhasesInv(Exec(s, l))
  {
    assert PhaseInv(s, l.t);
    assert s.owners[s.phases[l.t].i] == l.t;
    OthersKept(s, Exec(s, l), l.t);
  }

  lemma ConnectInv(s: State, t: Tid, connects: bool)
    requires Inv(s) && t in s.phases && s.phases[t].Connecting?
    ensures Inv(Exec(s, Step(t, connects)))
  {
    if connects {
      var s' := Goto(s, t, Connected(s.phases[t].con));
      assert PhaseInv(s, t);
      MadeKept(s, s', t);
      OthersKept(s, s', t);
      IndexKept(s, s', t);
    }
  }

  lemma FinishInv(s: State, t: Tid)
    requires Inv(s) && t in s.phases && s.phases[t].Connected?
    ensures Inv(Exec(s, Step(t, true)))
  {
    var c := s.phases[t].con;
    var s' := Return(s, t, c).(tls := s.tls[t := c]);
    assert PhaseInv(s, t);
    MadeKept(s, s', t);
    ReturnedKept(s, s', t, c);
    OthersKept(s, s', t);
    IndexKept(s, s', t);
    assert Inv(s');
  }

  lemma StepInv(s: State, l: Label)
    requires Inv(s)
    ensures Inv(Exec(s, l))
  {
    if l.Call? {
      if l.t !in s.phases {
        FirstCallInv(s, l.t);
      } else {
        assert PhaseInv(s, l.t);
        if s.phases[l.t].Outside? { LaterCallInv(s, l.t); }
      }
    } else if l.t in s.phases {
      match s.phases[l.t] {
        case Creating => CreateInv(s, l);
        case Created(_) => TakeIndexInv(s, l);
        case Indexed(_, _) => StoreInv(s, l);
        case Connecting(_) => ConnectInv(s, l.t, l.connects);
        case Connected(_) => FinishInv(s, l.t);
        case Outside =>
      }
    }
  }

  lemma {:induction false} RunInv(s: State, ls: seq<Label>)
    requires Inv(s)
    ensures Inv(Run(s, ls))
    decreases |ls|
  {
    if ls != [] {
      StepInv(s, ls[0]);
      RunInv(Exec(s, ls[0]), ls[1..]);
    }
  }

  /** As many indices are taken as there are threads that own one. */
  lemma {:induction false} DistinctCount(owners: seq<Tid>, callers: set<Tid>)
    requires forall i, j :: 0 <= i < j < |owners| ==> owners[i] != owners[j]
    requires forall i :: 0 <= i < |owners| ==> owners[i] in callers
    ensures |owners| <= |callers|
    ensures (forall t :: t in callers ==> t in owners) ==> |owners| == |callers|
  {
    if owners == [] {
      if forall t :: t in callers ==> t in owners { assert callers == {}; }
    } else {
      var init, last := owners[..|owners| - 1], owners[|owners| - 1];
      assert owners == init + [last];
      DistinctCount(init, callers - {last});
    }
  }

  /** With at most threadCount distinct callers no index leaves the array, at any moment of any run. */
  lemma IndicesInBounds(threadCount: nat, ls: seq<Label>)
    requires var s := Run(Init(threadCount), ls); |s.phases.Keys| <= threadCount
    ensures var s := Run(Init(threadCount), ls);
      !s.overrun && forall t :: t in s.phases && s.phases[t].Indexed? ==> s.phases[t].i < |s.slots|
  {
    RunInv(Init(threadCount), ls);
    var s := Run(Init(threadCount), ls);
    forall i | 0 <= i < |s.owners| ensures s.owners[i] in s.phases.Keys { assert SlotInv(s, i); }
    DistinctCount(s.owners, s.phases.Keys);
    forall t | t in s.phases && s.phases[t].Indexed? ensures s.phases[t].i < |s.slots| { assert PhaseInv(s, t); }
  }

  /** Each thread always gets the one connector it created, and no two threads get the same. */
  lemma OneConnectorPerThread(threadCount: nat, ls: seq<Label>)
    ensures var s := Run(Init(threadCount), ls);
      && (forall t :: t in s.returned ==> t in s.made && AllAre(s.returned[t], s.made[t]))
      && (forall t, u :: t in s.returned && u in s.returned && t != u ==> s.made[t] != s.made[u])
  {
    RunInv(Init(threadCount), ls);
  }

  /** What the calls of thread t have returned. */
  function Results(s: State, t: Tid): seq<Con> { if t in s.returned then s.returned[t] else [] }

  /** A call that finds the connector returns it; one that does not returns nothing yet. */
  lemma CallIsRecorded(s: State, t: Tid)
    ensures var s' := Exec(s, Call(t));
      && Results(s', t) == Results(s, t)
           + (if (t in s.phases ==> s.phases[t].Outside?) && t in s.tls then [s.tls[t]] else [])
      && forall u :: u != t ==> Results(s', u) == Results(s, u)
  {
  }

  /** A first call returns the connector that it enters as the thread's, and no other step returns anything. */
  lemma StepIsRecorded(s: State, t: Tid, connects: bool)
    requires t in s.phases
    ensures var s' := Exec(s, Step(t, connects));
      && Results(s', t) == Results(s, t) + (if s.phases[t].Connected? then [s.phases[t].con] else [])
      && (s.phases[t].Connected? ==> t in s'.tls && s'.tls[t] == s.phases[t].con)
      && forall u :: u != t ==> Results(s', u) == Results(s, u)
  {
    match s.phases[t] {
      case Outside =>
      case Creating =>
      case Created(_) =>
      case Indexed(_, _) =>
      case Connecting(_) =>
      case Connected(_) =>
    }
  }

  ghost predicate AllOutside(s: State) { forall t :: t in s.phases ==> s.phases[t].Outside? }

  /** Once every caller has returned, a store overran the array exactly when there were too many of them. */
  lemma OverrunExactly(threadCount: nat, ls: seq<Label>)
    requires AllOutside(Run(Init(threadCount), ls))
    ensures var s := Run(Init(threadCount), ls);
      && (s.overrun <==> |s.phases.Keys| > threadCount)
      && s.index + 1 == |s.phases.Keys|
      && (!s.overrun ==> forall i :: 0 <= i < |s.owners| ==>
            i < |s.slots| && s.owners[i] in s.made && s.slots[i] == s.made[s.owners[i]])
  {
    RunInv(Init(threadCount), ls);
    var s := Run(Init(threadCount), ls);
    forall i | 0 <= i < |s.owners| ensures s.owners[i] in s.phases.Keys { assert SlotInv(s, i); }
    forall t | t in s.phases.Keys ensures t in s.owners { assert PhaseInv(s, t); }
    DistinctCount(s.owners, s.phases.Keys);
    if |s.owners| > threadCount { assert SlotInv(s, threadCount); }
    forall i | 0 <= i < |s.owners| && !s.overrun
      ensures i < |s.slots| && s.owners[i] in s.made && s.slots[i] == s.made[s.owners[i]]
    {
      assert SlotInv(s, i);
    }
  }

  ghost predicate InSomeSlot(s: State, c: Con) {
    exists i | 0 <= i <= s.index && i < |s.slots| :: s.slots[i] == c
  }

  /** What the destructor needs of the array: the connectors created, each in one slot. */
  ghost predicate Filed(s: State) {
    && -1 <= s.index < |s.slots|
    && (forall i, j :: 0 <= i < j <= s.index ==> s.slots[i] != s.slots[j])
    && (forall i :: 0 <= i <= s.index ==> i in s.stored && s.slots[i] in s.made.Values)
    && (forall c: Con :: c < s.nextCon ==> InSomeSlot(s, c))
  }

  /** Once all callers are back, if they fit, every connector created is in exactly one slot. */
  lemma ConnectorsAreFiled(threadCount: nat, ls: seq<Label>)
    requires var s := Run(Init(threadCount), ls); AllOutside(s) && |s.phases.Keys| <= threadCount
    ensures Filed(Run(Init(threadCount), ls))
    ensures forall t :: t in Run(Init(threadCount), ls).made ==>
      InSomeSlot(Run(Init(threadCount), ls), Run(Init(threadCount), ls).made[t])
  {
    RunInv(Init(threadCount), ls);
    OverrunExactly(threadCount, ls);
    FiledWhenOutside(Run(Init(threadCount), ls));
  }

  lemma FiledWhenOutside(s: State)
    requires Inv(s) && AllOutside(s) && !s.overrun
    ensures Filed(s)
  {
    assert |s.owners| > s.threadCount ==> SlotInv(s, s.threadCount);
    forall i | 0 <= i <= s.index ensures i in s.stored && s.slots[i] in s.made.Values { assert SlotInv(s, i); }
    forall c: Con | c < s.nextCon ensures InSomeSlot(s, c) {
      assert c in s.made.Values;
      var t :| t in s.made && s.made[t] == c;
      SlotOf(s, t);
    }
  }

  lemma SlotOf(s: State, t: Tid)
    requires Inv(s) && AllOutside(s) && |s.owners| <= s.threadCount && t in s.made
    ensures InSomeSlot(s, s.made[t])
  {
    assert PhaseInv(s, t);
    var i :| 0 <= i < |s.owners| && s.owners[i] == t;
    assert SlotInv(s, i);
  }

  lemma {:induction false} RunAppend(s: State, a: seq<Label>, b: seq<Label>)
    ensures Run(s, a + b) == Run(Run(s, a), b)
    decreases |a|
  {
    if a == [] {
      assert a + b == b;
    } else {
      assert (a + b)[0] == a[0] && (a + b)[1..] == a[1..] + b;
      RunAppend(Exec(s, a[0]), a[1..], b);
    }
  }

  /** How many accesses are left of a call whose next attempt to connect succeeds. */
  function Left(p: Phase): nat {
    match p
    case Outside => 0
    case Creating => 5
    case Created(_) => 4
    case Indexed(_, _) => 3
    case Connecting(_) => 2
    case Connected(_) => 1
  }

  function Steps(t: Tid, n: nat): seq<Label> { if n == 0 then [] else [Step(t, true)] + Steps(t, n - 1) }

  lemma IndexStarted(s: State)
    requires Inv(s)
    ensures s.index + 1 >= 0
  {
  }

  lemma StepShape(s: State, t: Tid)
    requires s.index + 1 >= 0 && t in s.phases && !s.phases[t].Outside?
    ensures var s' := Exec(s, Step(t, true));
      && s'.threadCount == s.threadCount && t in s'.phases && s'.phases == s.phases[t := s'.phases[t]]
      && Left(s'.phases[t]) == Left(s.phases[t]) - 1
  {
    var p :=
      match s.phases[t]
      case Creating => Created(s.nextCon)
      case Created(c) => Indexed(c, s.index + 1)
      case Indexed(c, _) => Connecting(c)
      case Connecting(c) => Connected(c)
      case _ => Outside;
    assert Exec(s, Step(t, true)).phases == s.phases[t := p];
  }

  lemma OneStep(s: State, t: Tid)
    requires Inv(s) && t in s.phases && !s.phases[t].Outside?
    ensures var s' := Exec(s, Step(t, true));
      && Inv(s') && t in s'.phases && Left(s'.phases[t]) == Left(s.phases[t]) - 1
      && s'.phases == s.phases[t := s'.phases[t]] && s'.threadCount == s.threadCount
  {
    hide Inv, Exec;
    IndexStarted(s);
    StepShape(s, t);
    StepInv(s, Step(t, true));
  }

  lemma {:induction false} FinishAlone(s: State, t: Tid)
    requires Inv(s) && t in s.phases
    ensures var s' := Run(s, Steps(t, Left(s.phases[t])));
      Inv(s') && s'.phases == s.phases[t := Outside] && s'.threadCount == s.threadCount
    decreases Left(s.phases[t])
  {
    hide Inv, Exec;
    if s.phases[t].Outside? {
      assert s.phases == s.phases[t := Outside];
    } else {
      OneStep(s, t);
      var s' := Exec(s, Step(t, true));
      FinishAlone(s', t);
      assert s.phases[t := s'.phases[t]][t := Outside] == s.phases[t := Outside];
    }
  }

  /** The accesses of a first call whose first attempt to connect succeeds. */
  function FirstCall(t: Tid): seq<Label> { [Call(t)] + Steps(t, 5) }

  lemma CallShape(s: State, t: Tid)
    requires Inv(s) && t !in s.phases
    ensures Exec(s, Call(t)) == Goto(s, t, Creating)
  {
  }

  lemma FirstCallAlone(s: State, t: Tid)
    requires Inv(s) && AllOutside(s) && t !in s.phases
    ensures var s' := Run(s, FirstCall(t));
      Inv(s') && AllOutside(s') && s'.phases.Keys == s.phases.Keys + {t} && s'.threadCount == s.threadCount
  {
    hide Inv, Exec;
    var m := Exec(s, Call(t));
    CallShape(s, t);
    StepInv(s, Call(t));
    FinishAlone(m, t);
    assert FirstCall(t)[1..] == Steps(t, 5);
  }

  /** The first calls of threads 0, ..., n - 1, one after another. */
  function FirstCalls(n: nat): seq<Label> { if n == 0 then [] else FirstCalls(n - 1) + FirstCall(n - 1) }

  /** Threads 0, ..., n - 1 have made their first calls and nobody is inside one. */
  ghost predicate AfterFirst(s: State, threadCount: nat, n: nat) {
    && Inv(s) && AllOutside(s) && s.threadCount == threadCount && |s.phases.Keys| == n
    && (forall t :: t in s.phases.Keys ==> t < n)
  }

  lemma InitialInv(threadCount: nat)
    ensures Inv(Init(threadCount))
  {
  }

  lemma NextFirst(s: State, threadCount: nat, n: nat)
    requires AfterFirst(s, threadCount, n)
    ensures AfterFirst(Run(s, FirstCall(n)), threadCount, n + 1)
  {
    hide Inv, AllOutside, FirstCall, Run;
    assert n !in s.phases.Keys;
    FirstCallAlone(s, n);
  }

  lemma {:induction false} FirstCallsAlone(threadCount: nat, n: nat)
    ensures AfterFirst(Run(Init(threadCount), FirstCalls(n)), threadCount, n)
  {
    if n == 0 {
      InitialInv(threadCount);
    } else {
      FirstCallsAlone(threadCount, n - 1);
      NextFirst(Run(Init(threadCount), FirstCalls(n - 1)), threadCount, n - 1);
      RunAppend(Init(threadCount), FirstCalls(n - 1), FirstCall(n - 1));
    }
  }

  /** One caller too many, even one after another, stores outside the array. */
  lemma OneTooManyOverruns(threadCount: nat)
    ensures var s := Run(Init(threadCount), FirstCalls(threadCount + 1));
      AllOutside(s) && |s.phases.Keys| == threadCount + 1 && s.overrun && s.index == |s.slots|
  {
    FirstCallsAlone(threadCount, threadCount + 1);
    OverrunExactly(threadCount, FirstCalls(threadCount + 1));
  }
}
