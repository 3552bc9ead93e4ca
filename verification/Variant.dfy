/**
 * sql::Variant: a handle that owns one BaseVariantImpl, which owns one heap value. Memory is
 * explicit: `new` takes an address that was never used, `delete` removes it, and both a second
 * delete and a read of a deleted address are excluded by preconditions.
 */
module VariantModel {
  import opened Common

  type Loc = nat
  type VarId = nat

  /** The C++ types a Variant is built from or asked for. */
  datatype CppType = Void | Int | Double | Bool | StdString | SqlString | StdList | SqlList | StdMap | SqlMap

  datatype Content =
    | IntV(i: int) | DoubleV(d: real) | BoolV(b: bool) | TextV(s: string)
    | ListV(l: seq<string>) | MapV(m: map<string, string>)

  datatype Impl = Impl(cvptr: Loc, vTypeName: CppType)

  /** A Variant as its user sees it. */
  datatype Typed = Typed(t: CppType, c: Content)

  /** Which values a Variant constructor can store under a type name. */
  predicate WellTyped(v: Typed) {
    match v.t
    case Void => false
    case Int => v.c.IntV?
    case Double => v.c.DoubleV?
    case Bool => v.c.BoolV?
    case StdString => false
    case SqlString => v.c.TextV?
    case StdList => v.c.ListV?
    case SqlList => v.c.ListV?
    case StdMap => v.c.MapV?
    case SqlMap => v.c.MapV?
  }

  /** The tests of BaseVariantImpl::get<T>, in the source's order. */
  predicate Gets(vTypeName: CppType, t: CppType) {
    t == Void
    || ((vTypeName == StdString && t == SqlString) || (vTypeName == SqlString && t == StdString)
        || (vTypeName == StdMap && t == SqlMap) || (vTypeName == SqlMap && t == StdMap)
        || (vTypeName == StdList && t == SqlList) || (vTypeName == SqlList && t == StdList))
    || t == vTypeName
  }

  /** What the constructors build, and nothing else: one kind of value for each type name. */
  lemma ConstructibleExactly(v: Typed)
    ensures WellTyped(v) <==>
      || (v.t == Int && v.c.IntV?) || (v.t == Double && v.c.DoubleV?) || (v.t == Bool && v.c.BoolV?)
      || (v.t == SqlString && v.c.TextV?) || ((v.t == StdList || v.t == SqlList) && v.c.ListV?)
      || ((v.t == StdMap || v.t == SqlMap) && v.c.MapV?)
  {
  }

  /** The two string types, and containers of them, are interchangeable. */
  function Family(t: CppType): CppType {
    match t
    case StdString => SqlString
    case StdList => SqlList
    case StdMap => SqlMap
    case _ => t
  }

  /** get<T> accepts exactly void and the types of the stored type's family. */
  lemma GetsByFamily(vTypeName: CppType, t: CppType)
    ensures Gets(vTypeName, t) <==> t == Void || Family(t) == Family(vTypeName)
    ensures Gets(vTypeName, t) <==>
      || t == Void || t == vTypeName || {t, vTypeName} == {StdString, SqlString}
      || {t, vTypeName} == {StdList, SqlList} || {t, vTypeName} == {StdMap, SqlMap}
  {
    assert StdString in {t, vTypeName} && SqlString in {t, vTypeName} ==> {t, vTypeName} == {StdString, SqlString};
    assert StdList in {t, vTypeName} && SqlList in {t, vTypeName} ==> {t, vTypeName} == {StdList, SqlList};
    assert StdMap in {t, vTypeName} && SqlMap in {t, vTypeName} ==> {t, vTypeName} == {StdMap, SqlMap};
  }

  /**
   * What is live. owner[p] is the Variant whose impl is at p, holder[c] the address of the impl
   * whose value is at c, news and deletes say how often new and delete have run: history variables.
   */
  datatype Live = Live(
    contents: map<Loc, Content>, impls: map<Loc, Impl>, variants: map<VarId, Loc>, next: Loc,
    owner: map<Loc, VarId>, holder: map<Loc, Loc>, news: nat, deletes: nat)

  ghost predicate VariantInv(m: Live, v: VarId)
    requires v in m.variants
  {
    m.variants[v] in m.impls && m.variants[v] in m.owner && m.owner[m.variants[v]] == v
  }

  ghost predicate ImplInv(m: Live, p: Loc)
    requires p in m.impls
  {
    var c := m.impls[p].cvptr;
    && p in m.owner && m.owner[p] in m.variants && m.variants[m.owner[p]] == p
    && c in m.contents && c in m.holder && m.holder[c] == p
    && WellTyped(Typed(m.impls[p].vTypeName, m.contents[c]))
  }

  ghost predicate ContentInv(m: Live, c: Loc) {
    c in m.holder && m.holder[c] in m.impls && m.impls[m.holder[c]].cvptr == c
  }

  /** Variants, impls and values correspond one to one. */
  ghost predicate Exclusive(m: Live) {
    && (forall v :: v in m.variants ==> VariantInv(m, v))
    && (forall p :: p in m.impls ==> ImplInv(m, p))
    && (forall c :: c in m.contents ==> ContentInv(m, c))
  }

  /** Addresses from `next` on were never used; what was allocated is live or was deleted, once. */
  ghost predicate Accounted(m: Live) {
    && (forall p :: p in m.impls ==> p < m.next)
    && (forall c :: c in m.contents ==> c < m.next)
    && m.news == m.deletes + |m.impls| + |m.contents|
  }

  ghost predicate Sound(m: Live) {
    Exclusive(m) && Accounted(m)
  }

  /** No two Variants share an impl, no two impls share a value, and nothing is live without an owner. */
  lemma ExclusiveMeans(m: Live)
    requires Exclusive(m)
    ensures forall v, w :: v in m.variants && w in m.variants && v != w ==> m.variants[v] != m.variants[w]
    ensures forall p, q :: p in m.impls && q in m.impls && p != q ==> m.impls[p].cvptr != m.impls[q].cvptr
    ensures m.variants.Values == m.impls.Keys
    ensures (set p | p in m.impls :: m.impls[p].cvptr) == m.contents.Keys
  {
    forall v, w | v in m.variants && w in m.variants && v != w ensures m.variants[v] != m.variants[w] {
      assert VariantInv(m, v) && VariantInv(m, w);
    }
    forall p, q | p in m.impls && q in m.impls && p != q ensures m.impls[p].cvptr != m.impls[q].cvptr {
      assert ImplInv(m, p) && ImplInv(m, q);
    }
    forall p ensures p in m.variants.Values <==> p in m.impls.Keys {
      if p in m.impls.Keys { assert ImplInv(m, p); }
      if p in m.variants.Values {
        var v :| v in m.variants && m.variants[v] == p;
        assert VariantInv(m, v);
      }
    }
    forall c ensures c in (set p | p in m.impls :: m.impls[p].cvptr) <==> c in m.contents.Keys {
      if c in m.contents.Keys { assert ContentInv(m, c); }
      if c in (set p | p in m.impls :: m.impls[p].cvptr) {
        var p :| p in m.impls && m.impls[p].cvptr == c;
        assert ImplInv(m, p);
      }
    }
  }

  /** What Variant v holds. */
  ghost function Held(m: Live, v: VarId): Typed
    requires Sound(m) && v in m.variants
  {
    assert VariantInv(m, v) && ImplInv(m, m.variants[v]);
    var i := m.impls[m.variants[v]];
    Typed(i.vTypeName, m.contents[i.cvptr])
  }

  ghost function View(m: Live): map<VarId, Typed>
    requires Sound(m)
  {
    map v | v in m.variants :: Held(m, v)
  }

  lemma HeldIsLive(m: Live, v: VarId)
    requires Sound(m) && v in m.variants
    ensures m.variants[v] in m.impls && m.impls[m.variants[v]].cvptr in m.contents
    ensures var i := m.impls[m.variants[v]]; Held(m, v) == Typed(i.vTypeName, m.contents[i.cvptr])
    ensures WellTyped(Held(m, v)) && View(m)[v] == Held(m, v)
  {
    assert VariantInv(m, v) && ImplInv(m, m.variants[v]);
  }

  ghost function Add(m: Live, v: VarId, p: Loc, c: Loc, x: Typed): Live {
    Live(m.contents[c := x.c], m.impls[p := Impl(c, x.t)], m.variants[v := p], m.next + 2,
      m.owner[p := v], m.holder[c := p], m.news + 2, m.deletes)
  }

  ghost function Drop(m: Live, v: VarId): Live
    requires v in m.variants && m.variants[v] in m.impls
  {
    m.(contents := m.contents - {m.impls[m.variants[v]].cvptr}, impls := m.impls - {m.variants[v]},
       variants := m.variants - {v}, deletes := m.deletes + 2)
  }

  lemma InUse(m: Live)
    requires Sound(m)
    ensures (forall p :: p in m.impls ==> p < m.next) && (forall c :: c in m.contents ==> c < m.next)
  {
  }

  /** A new Variant on a new impl on a new value, the latter two at unused addresses. */
  lemma Added(m: Live, v: VarId, p: Loc, c: Loc, x: Typed)
    requires Sound(m) && WellTyped(x) && v !in m.variants
    requires m.next <= p < m.next + 2 && m.next <= c < m.next + 2
    ensures Sound(Add(m, v, p, c, x)) && View(Add(m, v, p, c, x)) == View(m)[v := x]
  {
    hide Sound, Held, WellTyped;
    AddedSound(m, v, p, c, x);
    var m' := Add(m, v, p, c, x);
    forall w | w in m'.variants ensures Held(m', w) == if w == v then x else Held(m, w) {
      AddedHeld(m, v, p, c, x, w);
    }
  }

  lemma AddedSound(m: Live, v: VarId, p: Loc, c: Loc, x: Typed)
    requires Sound(m) && WellTyped(x) && v !in m.variants
    requires m.next <= p < m.next + 2 && m.next <= c < m.next + 2
    ensures Sound(Add(m, v, p, c, x)) && p !in m.impls && c !in m.contents
  {
    AddedAccounted(m, v, p, c, x);
    AddedExclusive(m, v, p, c, x);
  }

  lemma AddedHeld(m: Live, v: VarId, p: Loc, c: Loc, x: Typed, w: VarId)
    requires Sound(m) && v !in m.variants && p !in m.impls && c !in m.contents
    requires Sound(Add(m, v, p, c, x)) && w in Add(m, v, p, c, x).variants
    ensures Held(Add(m, v, p, c, x), w) == if w == v then x else Held(m, w)
  {
    if w != v { assert VariantInv(m, w) && ImplInv(m, m.variants[w]); }
  }

  lemma AddedExclusive(m: Live, v: VarId, p: Loc, c: Loc, x: Typed)
    requires Exclusive(m) && WellTyped(x) && v !in m.variants && p !in m.impls && c !in m.contents
    ensures Exclusive(Add(m, v, p, c, x))
  {
    var m' := Add(m, v, p, c, x);
    forall w | w in m'.variants ensures VariantInv(m', w) { if w != v { assert VariantInv(m, w); } }
    forall q | q in m'.impls ensures ImplInv(m', q) { if q != p { assert ImplInv(m, q); } }
    forall d | d in m'.contents ensures ContentInv(m', d) { if d != c { assert ContentInv(m, d); } }
  }

  lemma AddedAccounted(m: Live, v: VarId, p: Loc, c: Loc, x: Typed)
    requires Accounted(m) && m.next <= p < m.next + 2 && m.next <= c < m.next + 2
    ensures Accounted(Add(m, v, p, c, x)) && p !in m.impls && c !in m.contents
  {
    SizeAfterAdd(m.contents, c, x.c);
    SizeAfterAdd(m.impls, p, Impl(c, x.t));
  }

  /** Deleting a Variant with its impl and its value touches no other Variant. */
  lemma Dropped(m: Live, v: VarId)
    requires Sound(m) && v in m.variants
    ensures m.variants[v] in m.impls && m.impls[m.variants[v]].cvptr in m.contents
    ensures Sound(Drop(m, v)) && View(Drop(m, v)) == View(m) - {v}
  {
    hide Sound, Held;
    DroppedSound(m, v);
    var m' := Drop(m, v);
    forall w | w in m'.variants ensures Held(m', w) == Held(m, w) { DroppedHeld(m, v, w); }
  }

  lemma DroppedSound(m: Live, v: VarId)
    requires Sound(m) && v in m.variants
    ensures m.variants[v] in m.impls && m.impls[m.variants[v]].cvptr in m.contents
    ensures Sound(Drop(m, v))
  {
    assert VariantInv(m, v) && ImplInv(m, m.variants[v]);
    DroppedExclusive(m, v);
    DroppedAccounted(m, v);
  }

  lemma DroppedHeld(m: Live, v: VarId, w: VarId)
    requires Sound(m) && v in m.variants && m.variants[v] in m.impls
    requires Sound(Drop(m, v)) && w in Drop(m, v).variants
    ensures Held(Drop(m, v), w) == Held(m, w)
  {
    assert VariantInv(m, w) && ImplInv(m, m.variants[w]);
  }

  lemma DroppedExclusive(m: Live, v: VarId)
    requires Exclusive(m) && v in m.variants
    ensures m.variants[v] in m.impls && Exclusive(Drop(m, v))
  {
    assert VariantInv(m, v) && ImplInv(m, m.variants[v]);
    var m' := Drop(m, v);
    forall w | w in m'.variants ensures VariantInv(m', w) { assert VariantInv(m, w); }
    forall q | q in m'.impls ensures ImplInv(m', q) { assert ImplInv(m, q); }
    forall d | d in m'.contents ensures ContentInv(m', d) { assert ContentInv(m, d); }
  }

  lemma DroppedAccounted(m: Live, v: VarId)
    requires Accounted(m) && v in m.variants
    requires m.variants[v] in m.impls && m.impls[m.variants[v]].cvptr in m.contents
    ensures Accounted(Drop(m, v))
  {
    SizeAfterDrop(m.contents, m.impls[m.variants[v]].cvptr);
    SizeAfterDrop(m.impls, m.variants[v]);
  }

  /** A store through the pointer that get returned changes that Variant and no other. */
  lemma Written(m: Live, v: VarId, x: Content)
    requires Sound(m) && v in m.variants && WellTyped(Typed(Held(m, v).t, x))
    ensures m.variants[v] in m.impls && m.impls[m.variants[v]].cvptr in m.contents
    ensures var m' := m.(contents := m.contents[m.impls[m.variants[v]].cvptr := x]);
      Sound(m') && View(m') == View(m)[v := Typed(Held(m, v).t, x)]
  {
    assert VariantInv(m, v) && ImplInv(m, m.variants[v]);
    var m' := m.(contents := m.contents[m.impls[m.variants[v]].cvptr := x]);
    forall w | w in m'.variants ensures VariantInv(m', w) { assert VariantInv(m, w); }
    forall q | q in m'.impls ensures ImplInv(m', q) { assert ImplInv(m, q); }
    forall d | d in m'.contents ensures ContentInv(m', d) { assert ContentInv(m, d); }
    forall w | w in m.variants && w != v ensures Held(m', w) == Held(m, w) {
      assert VariantInv(m, w) && ImplInv(m, m.variants[w]);
    }
  }

  /** Once no Variant is left, no impl and no value is, and all that was allocated has been deleted. */
  lemma NothingLeft(m: Live)
    requires Sound(m) && m.variants == map[]
    ensures m.contents == map[] && m.impls == map[] && m.news == m.deletes
  {
    assert forall p :: p in m.impls ==> ImplInv(m, p);
    assert m.impls == map[];
    assert forall c :: c in m.contents ==> ContentInv(m, c);
    assert m.contents == map[];
  }

  lemma SizeAfterAdd<X>(m: map<Loc, X>, k: Loc, x: X)
    requires k !in m
    ensures |m[k := x]| == |m| + 1
  {
    assert m[k := x].Keys == m.Keys + {k};
  }

  lemma SizeAfterDrop<X>(m: map<Loc, X>, k: Loc)
    requires k in m
    ensures |m - {k}| == |m| - 1
  {
    assert (m - {k}).Keys == m.Keys - {k};
  }

  /** A step of a program that uses Variants; one that names a Variant that is not there is skipped. */
  datatype Command =
    | Construct(v: VarId, x: Typed)
    | CopyConstruct(v: VarId, from: VarId)
    | Assign(v: VarId, from: VarId)
    | Write(v: VarId, t: CppType, c: Content)
    | Destroy(v: VarId)

  /** The meaning of a step when Variants are plain values. */
  function Effect(h: map<VarId, Typed>, cmd: Command): map<VarId, Typed> {
    match cmd
    case Construct(v, x) => if v !in h && WellTyped(x) then h[v := x] else h
    case CopyConstruct(v, w) => if v !in h && w in h then h[v := h[w]] else h
    case Assign(v, w) => if v in h && w in h then h[v := h[w]] else h
    case Write(v, t, c) =>
      if v in h && t != Void && Gets(h[v].t, t) && WellTyped(Typed(h[v].t, c)) then h[v := Typed(h[v].t, c)] else h
    case Destroy(v) => h - {v}
  }

  function Effects(h: map<VarId, Typed>, cmds: seq<Command>): map<VarId, Typed> {
    if cmds == [] then h else Effect(Effects(h, cmds[..|cmds| - 1]), cmds[|cmds| - 1])
  }

  /**
   * What a step does, said of the Variant it names: a copy or an assignment takes the source's
   * value, a construction the given one, a store the stored one under the old type; a step that
   * names a Variant that is not there, or a refused type, changes nothing.
   */
  lemma EffectIs(h: map<VarId, Typed>, cmd: Command)
    ensures var g := Effect(h, cmd);
      && (forall w :: w != cmd.v ==> (w in g <==> w in h) && (w in g ==> g[w] == h[w]))
      && match cmd
         case Construct(v, x) =>
           (v !in h && WellTyped(x) ==> v in g && g[v] == x) && (v in h || !WellTyped(x) ==> g == h)
         case CopyConstruct(v, w) =>
           (v !in h && w in h ==> v in g && g[v] == h[w]) && (v in h || w !in h ==> g == h)
         case Assign(v, w) =>
           (v in h && w in h ==> v in g && g[v] == h[w]) && (v !in h || w !in h ==> g == h)
         case Write(v, t, c) =>
           && (v in h && t != Void && Gets(h[v].t, t) && WellTyped(Typed(h[v].t, c)) ==>
                 v in g && g[v] == Typed(h[v].t, c))
           && (v !in h || t == Void || !Gets(h[v].t, t) || !WellTyped(Typed(h[v].t, c)) ==> g == h)
         case Destroy(v) => v !in g
  {
  }

  /** A program takes effect step by step: its last command on what the others left. */
  lemma LastCommand(h: map<VarId, Typed>, cmds: seq<Command>, cmd: Command)
    ensures Effects(h, []) == h
    ensures Effects(h, cmds + [cmd]) == Effect(Effects(h, cmds), cmd)
  {
    assert (cmds + [cmd])[..|cmds|] == cmds;
  }

  /** A Variant and its copy are independent: what is done to other Variants does not show in this one. */
  lemma {:induction false} OthersDoNotShow(h: map<VarId, Typed>, cmds: seq<Command>, v: VarId)
    requires v in h && forall k :: 0 <= k < |cmds| ==> cmds[k].v != v
    ensures v in Effects(h, cmds) && Effects(h, cmds)[v] == h[v]
  {
    if cmds != [] {
      OthersDoNotShow(h, cmds[..|cmds| - 1], v);
    }
  }

  lemma Known(m: Live, v: VarId)
    requires Sound(m)
    ensures v in View(m) <==> v in m.variants
    ensures v in View(m) ==> View(m)[v] == Held(m, v)
  {
  }

  lemma Replaced(h: map<VarId, Typed>, v: VarId, x: Typed)
    ensures (h - {v})[v := x] == h[v := x]
  {
  }

  lemma ViewKeys(m: Live)
    requires Sound(m)
    ensures View(m).Keys == m.variants.Keys
    ensures forall v :: v in m.variants ==> View(m)[v] == Held(m, v)
  {
  }

  class Memory {
    var contents: map<Loc, Content>
    var impls: map<Loc, Impl>
    /** The `variant` member of every live Variant. */
    var variants: map<VarId, Loc>
    var next: Loc
    /** How many times new and delete have run: history variables. */
    ghost var news: nat
    ghost var deletes: nat

    ghost var owner: map<Loc, VarId>
    ghost var holder: map<Loc, Loc>

    ghost function Image(): Live
      reads this
    {
      Live(contents, impls, variants, next, owner, holder, news, deletes)
    }

    ghost predicate Owned()
      reads this
    {
      Sound(Image())
    }

    ghost function Holds(): map<VarId, Typed>
      reads this
      requires Owned()
    {
      View(Image())
    }

    constructor ()
      ensures Owned() && Holds() == map[]
    {
      contents, impls, variants := map[], map[], map[];
      next, news, deletes, owner, holder := 1, 0, 0, map[], map[];
    }

    method NewContent(c: Content) returns (p: Loc)
      requires forall x :: x in contents ==> x < next
      modifies this`contents, this`next, this`news
      ensures p == old(next) && next == p + 1 && contents == old(contents)[p := c] && news == old(news) + 1
    {
      p := next;
      next := next + 1;
      contents := contents[p := c];
      news := news + 1;
    }

    method DeleteContent(p: Loc)
      requires p in contents
      modifies this`contents, this`deletes
      ensures contents == old(contents) - {p} && deletes == old(deletes) + 1
    {
      contents := contents - {p};
      deletes := deletes + 1;
    }

    method NewImpl(i: Impl) returns (p: Loc)
      modifies this`impls, this`next, this`news
      ensures p == old(next) && next == p + 1 && impls == old(impls)[p := i] && news == old(news) + 1
    {
      p := next;
      next := next + 1;
      impls := impls[p := i];
      news := news + 1;
    }

    /** The virtual destructor, which destroys the content, and then the object itself. */
    method DeleteImpl(p: Loc)
      requires p in impls && impls[p].cvptr in contents
      modifies this`contents, this`impls, this`deletes
      ensures contents == old(contents) - {old(impls[p].cvptr)} && impls == old(impls) - {p}
      ensures deletes == old(deletes) + 2
    {
      DeleteContent(impls[p].cvptr);
      impls := impls - {p};
      deletes := deletes + 1;
    }

    /** VariantMap::copy_content: an empty map, then one insert per entry of the source. */
    method CopyMap(src: Loc) returns (p: Loc)
      requires src in contents && contents[src].MapV? && forall x :: x in contents ==> x < next
      modifies this`contents, this`next, this`news
      ensures p == old(next) && next == p + 1 && news == old(news) + 1
      ensures contents == old(contents)[p := old(contents[src])]
    {
      p := NewContent(MapV(map[]));
      var todo := contents[src].m.Keys;
      while todo != {}
        invariant p == old(next) && next == p + 1 && news == old(news) + 1 && src != p && src in contents
        invariant p in contents && contents[p].MapV? && contents == old(contents)[p := contents[p]]
        invariant todo <= contents[src].m.Keys
        invariant contents[p].m == map k | k in contents[src].m.Keys - todo :: contents[src].m[k]
        decreases todo
      {
        var k :| k in todo;
        contents := contents[p := MapV(contents[p].m[k := contents[src].m[k]])];
        todo := todo - {k};
      }
      assert contents[p].m == contents[src].m;
    }

    /** VariantList::copy_content: an empty list, then one push_back per element of the source. */
    method CopyList(src: Loc) returns (p: Loc)
      requires src in contents && contents[src].ListV? && forall x :: x in contents ==> x < next
      modifies this`contents, this`next, this`news
      ensures p == old(next) && next == p + 1 && news == old(news) + 1
      ensures contents == old(contents)[p := old(contents[src])]
    {
      p := NewContent(ListV([]));
      var i := 0;
      while i < |contents[src].l|
        invariant p == old(next) && next == p + 1 && news == old(news) + 1 && src != p && src in contents
        invariant p in contents && contents == old(contents)[p := contents[p]]
        invariant 0 <= i <= |contents[src].l| && contents[p] == ListV(contents[src].l[..i])
      {
        contents := contents[p := ListV(contents[p].l + [contents[src].l[i]])];
        i := i + 1;
      }
      assert contents[src].l[..i] == contents[src].l;
    }

    /** `copy_content` of the three impl templates. */
    method CopyContent(t: CppType, src: Loc) returns (p: Loc)
      requires src in contents && WellTyped(Typed(t, contents[src])) && forall x :: x in contents ==> x < next
      modifies this`contents, this`next, this`news
      ensures p == old(next) && next == p + 1 && news == old(news) + 1
      ensures contents == old(contents)[p := old(contents[src])]
    {
      if t == StdMap || t == SqlMap {
        p := CopyMap(src);
      } else if t == StdList || t == SqlList {
        p := CopyList(src);
      } else {
        p := NewContent(contents[src]);
      }
    }

    /** `Clone`: the base copy constructor copies the pointer, then copy_content replaces it. */
    method Clone(src: Loc) returns (p: Loc)
      requires src in impls && impls[src].cvptr in contents
      requires WellTyped(Typed(impls[src].vTypeName, contents[impls[src].cvptr]))
      requires (forall x :: x in contents ==> x < next) && (forall x :: x in impls ==> x < next)
      modifies this`contents, this`impls, this`next, this`news
      ensures p == old(next) && next == p + 2 && news == old(news) + 2
      ensures contents == old(contents)[p + 1 := old(contents[impls[src].cvptr])]
      ensures impls == old(impls)[p := Impl(p + 1, old(impls[src].vTypeName))]
    {
      p := NewImpl(impls[src]);
      var c := CopyContent(impls[p].vTypeName, impls[src].cvptr);
      impls := impls[p := impls[p].(cvptr := c)];
    }

    /** `new VariantImpl<T>(i)`: the impl, then in its constructor the value. */
    method NewVariantImpl(x: Typed) returns (p: Loc)
      requires (forall y :: y in contents ==> y < next) && (forall y :: y in impls ==> y < next)
      modifies this`contents, this`impls, this`next, this`news
      ensures p == old(next) && next == p + 2 && news == old(news) + 2
      ensures contents == old(contents)[p + 1 := x.c] && impls == old(impls)[p := Impl(p + 1, x.t)]
    {
      p := NewImpl(Impl(0, x.t));
      var c := NewContent(x.c);
      impls := impls[p := impls[p].(cvptr := c)];
    }

    /** `variant(new VariantImpl<T>(i))`. */
    method Build(v: VarId, x: Typed)
      requires Owned()
      modifies this
      ensures Image() == Add(old(Image()), v, old(next), old(next) + 1, x)
    {
      hide Sound;
      InUse(Image());
      var p := NewVariantImpl(x);
      variants := variants[v := p];
      owner, holder := owner[p := v], holder[p + 1 := p];
    }

    /** `variant = that.variant->Clone()`. */
    method CloneFrom(v: VarId, from: VarId, ghost x: Typed)
      requires Owned() && from in variants && x == Held(Image(), from)
      modifies this
      ensures Image() == Add(old(Image()), v, old(next), old(next) + 1, x)
    {
      hide Sound, View, Held, WellTyped;
      HeldIsLive(Image(), from);
      InUse(Image());
      var p := Clone(variants[from]);
      variants := variants[v := p];
      owner, holder := owner[p := v], holder[p + 1 := p];
    }

    /** `delete variant; variant = 0`. */
    method Release(v: VarId)
      requires v in variants && variants[v] in impls && impls[variants[v]].cvptr in contents
      modifies this
      ensures Image() == Drop(old(Image()), v)
    {
      DeleteImpl(variants[v]);
      variants := variants - {v};
    }

    /** A Variant constructor: new impl around a new copy of the argument. */
    method New(v: VarId, x: Typed)
      requires Owned() && v !in variants && WellTyped(x)
      modifies this
      ensures Owned() && Holds() == old(Holds())[v := x]
    {
      hide Sound, View, Add, WellTyped;
      Added(Image(), v, next, next + 1, x);
      Build(v, x);
    }

    /** The clone of what `from` points to becomes Variant v; x is what `from` holds. */
    method CloneInto(v: VarId, from: VarId, ghost x: Typed)
      requires Owned() && v !in variants && from in variants && x == Held(Image(), from)
      modifies this
      ensures Owned() && Holds() == old(Holds())[v := x]
    {
      hide Sound, View, Add, Held, WellTyped;
      HeldIsLive(Image(), from);
      Added(Image(), v, next, next + 1, x);
      CloneFrom(v, from, x);
    }

    /** The copy constructor. */
    method Copy(v: VarId, from: VarId)
      requires Owned() && v !in variants && from in variants
      modifies this
      ensures Owned() && Holds() == old(Holds())[v := old(Holds())[from]]
    {
      hide Sound, View, Held;
      Known(Image(), from);
      CloneInto(v, from, Held(Image(), from));
    }

    /** The destructor. */
    method Delete(v: VarId)
      requires Owned() && v in variants
      modifies this
      ensures Owned() && Holds() == old(Holds()) - {v}
    {
      hide Sound, View, Drop;
      Dropped(Image(), v);
      Release(v);
    }

    /** operator=: nothing on self-assignment, otherwise delete the old impl and clone the other's. */
    method AssignFrom(v: VarId, from: VarId)
      requires Owned() && v in variants && from in variants
      modifies this
      ensures Owned() && Holds() == old(Holds())[v := old(Holds())[from]]
    {
      hide Sound, View, Held;
      if v != from {
        ghost var h := Holds();
        Known(Image(), from);
        Delete(v);
        Known(Image(), from);
        Known(Image(), v);
        CloneInto(v, from, h[from]);
        Replaced(h, v, h[from]);
      } else {
        Known(Image(), v);
        assert Holds()[v := Holds()[v]] == Holds();
      }
    }

    /** get<T>: the address of the value, or the exception. */
    method Get(v: VarId, t: CppType) returns (r: Option<Loc>)
      requires Owned() && v in variants
      ensures r.Some? <==> Gets(Held(Image(), v).t, t)
      ensures r.Some? <==> t == Void || Family(t) == Family(Held(Image(), v).t)
      ensures r.Some? ==> r.value in contents && contents[r.value] == Held(Image(), v).c
    {
      assert VariantInv(Image(), v) && ImplInv(Image(), variants[v]);
      var i := impls[variants[v]];
      GetsByFamily(i.vTypeName, t);
      r := if Gets(i.vTypeName, t) then Some(i.cvptr) else None;
    }

    /** A store through the pointer get<T> returned; void* and a refused type give no such store. */
    method WriteThrough(v: VarId, t: CppType, c: Content) returns (ok: bool)
      requires Owned() && v in variants && WellTyped(Typed(Held(Image(), v).t, c))
      modifies this`contents
      ensures ok <==> t != Void && Gets(old(Held(Image(), v)).t, t)
      ensures Owned() && Holds() ==
        if ok then old(Holds())[v := Typed(old(Held(Image(), v)).t, c)] else old(Holds())
    {
      Written(Image(), v, c);
      var i := impls[variants[v]];
      assert i.vTypeName == Held(Image(), v).t;
      hide Sound, View;
      ok := t != Void && Gets(i.vTypeName, t);
      if ok {
        assert contents[i.cvptr := c].Keys == contents.Keys;
        contents := contents[i.cvptr := c];
      }
    }

    method TypeOf(v: VarId) returns (t: CppType)
      requires Owned() && v in variants
      ensures t == Held(Image(), v).t
    {
      assert VariantInv(Image(), v);
      t := impls[variants[v]].vTypeName;
    }

    method ExecuteOne(cmd: Command)
      requires Owned()
      modifies this
      ensures Owned() && Holds() == Effect(old(Holds()), cmd)
      ensures forall w :: w != cmd.v ==>
        (w in Holds() <==> w in old(Holds())) && (w in Holds() ==> Holds()[w] == old(Holds())[w])
      ensures cmd.Assign? && cmd.v in old(Holds()) && cmd.from in old(Holds()) ==>
        cmd.v in Holds() && Holds()[cmd.v] == old(Holds())[cmd.from]
      ensures cmd.CopyConstruct? && cmd.v !in old(Holds()) && cmd.from in old(Holds()) ==>
        cmd.v in Holds() && Holds()[cmd.v] == old(Holds())[cmd.from]
      ensures cmd.Construct? && cmd.v !in old(Holds()) && WellTyped(cmd.x) ==>
        cmd.v in Holds() && Holds()[cmd.v] == cmd.x
      ensures cmd.Write? && cmd.v in old(Holds()) ==>
        var t := old(Holds())[cmd.v].t;
        cmd.t != Void && Gets(t, cmd.t) && WellTyped(Typed(t, cmd.c)) ==>
          cmd.v in Holds() && Holds()[cmd.v] == Typed(t, cmd.c)
      ensures cmd.Destroy? ==> cmd.v !in Holds()
    {
      EffectIs(Holds(), cmd);
      Known(Image(), cmd.v);
      hide Sound, View, Held, WellTyped, Gets;
      match cmd {
        case Construct(v, x) =>
          if v !in variants && WellTyped(x) { New(v, x); }
        case CopyConstruct(v, w) =>
          Known(Image(), w);
          if v !in variants && w in variants { Copy(v, w); }
        case Assign(v, w) =>
          Known(Image(), w);
          if v in variants && w in variants { AssignFrom(v, w); }
        case Write(v, t, c) =>
          if v in variants {
            var i := TypeOf(v);
            if WellTyped(Typed(i, c)) { var ok := WriteThrough(v, t, c); }
          }
        case Destroy(v) =>
          if v in variants { Delete(v); } else { assert Holds() - {v} == Holds(); }
      }
    }

    /** Any program over Variants behaves as if they were values, and leaks and double-deletes nothing. */
    method Execute(cmds: seq<Command>)
      requires Owned()
      modifies this
      ensures Owned() && Holds() == Effects(old(Holds()), cmds)
      ensures cmds == [] ==> Holds() == old(Holds())
      ensures cmds != [] ==>
        Holds() == Effect(Effects(old(Holds()), cmds[..|cmds| - 1]), cmds[|cmds| - 1])
      ensures Holds() == map[] ==> contents == map[] && impls == map[] && news == deletes
    {
      hide Sound, View;
      ghost var h0 := Holds();
      var k := 0;
      while k < |cmds|
        invariant 0 <= k <= |cmds| && Owned() && Holds() == Effects(h0, cmds[..k])
      {
        assert cmds[..k + 1][..k] == cmds[..k];
        ExecuteOne(cmds[k]);
        k := k + 1;
      }
      assert cmds[..k] == cmds;
      ViewKeys(Image());
      if variants.Keys == {} {
        NothingLeft(Image());
      }
    }
  }
}
