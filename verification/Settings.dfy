/**
 * Settings_impl of the connector: an option vector in which the last value of an option wins,
 * flags derived from the options, and erasure of options by in-place compaction.
 */
module SettingsModel {
  import opened Common

  datatype SslMode = DISABLED | REQUIRED | VERIFY_CA | VERIFY_IDENTITY | SSL_LAST

  /** Session_option_impl; client options are the negative numbers. */
  const HOST := 2
  const PORT := 3
  const PRIORITY := 4
  const SSL_MODE := 8
  const SSL_CA := 9
  const SOCKET := 11
  const CONNECTION_ATTRIBUTES := 13
  const TLS_VERSIONS := 14
  const TLS_CIPHERSUITES := 15
  const COMPRESSION_ALGORITHMS := 18

  datatype Entry<V> = Entry(opt: int, value: V)

  datatype Flags = Flags(
    hostCnt: nat, userPriorities: bool, sslCa: bool, sslMode: SslMode, tcpip: bool, sock: bool,
    tlsVers: bool, tlsCiphers: bool, compressionAlgorithms: bool, connectionAttr: map<string, string>)

  /** The elements of s whose option is not erased, in order. */
  function Without<V>(s: seq<Entry<V>>, erased: set<int>): seq<Entry<V>> {
    if s == [] then [] else (if s[0].opt in erased then [] else [s[0]]) + Without(s[1..], erased)
  }

  function EraseFlags(f: Flags, opt: int): Flags {
    if opt == HOST then f.(hostCnt := 0, tcpip := false)
    else if opt == PORT then if f.hostCnt == 0 then f.(tcpip := false) else f
    else if opt == SOCKET then f.(sock := false)
    else if opt == PRIORITY then f.(userPriorities := false)
    else if opt == SSL_CA then f.(sslCa := false)
    else if opt == SSL_MODE then f.(sslMode := SSL_LAST)
    else if opt == CONNECTION_ATTRIBUTES then f.(connectionAttr := map[])
    else f
  }

  /** The value of an option is the last one stored. */
  function Lookup<V>(s: seq<Entry<V>>, opt: int): Option<V> {
    if s == [] then None
    else if s[|s| - 1].opt == opt then Some(s[|s| - 1].value)
    else Lookup(s[..|s| - 1], opt)
  }

  predicate Occurs<V>(s: seq<Entry<V>>, opt: int) { exists i | 0 <= i < |s| :: s[i].opt == opt }

  predicate ListFlag(f: Flags, opt: int) {
    (opt == TLS_VERSIONS && f.tlsVers) || (opt == TLS_CIPHERSUITES && f.tlsCiphers)
    || (opt == COMPRESSION_ALGORITHMS && f.compressionAlgorithms)
  }

  function Elements(opts: seq<int>): set<int> { set o | o in opts }

  /** The flags after erasing a set of options, in whatever order and however often. */
  function FlagsWithout(f: Flags, erased: set<int>): Flags {
    Cleared(f, HOST in erased, PORT in erased, SOCKET in erased, PRIORITY in erased, SSL_CA in erased,
            SSL_MODE in erased, CONNECTION_ATTRIBUTES in erased)
  }

  function Cleared(f: Flags, host: bool, port: bool, socket: bool, priority: bool, ca: bool, mode: bool, attr: bool)
    : Flags
  {
    f.(hostCnt := if host then 0 else f.hostCnt,
       tcpip := f.tcpip && !host && !(port && f.hostCnt == 0),
       sock := f.sock && !socket,
       userPriorities := f.userPriorities && !priority,
       sslCa := f.sslCa && !ca,
       sslMode := if mode then SSL_LAST else f.sslMode,
       connectionAttr := if attr then map[] else f.connectionAttr)
  }

  lemma {:induction false} WithoutAppend<V>(a: seq<Entry<V>>, b: seq<Entry<V>>, erased: set<int>)
    ensures Without(a + b, erased) == Without(a, erased) + Without(b, erased)
  {
    if a == [] {
      assert a + b == b;
    } else {
      assert (a + b)[0] == a[0] && (a + b)[1..] == a[1..] + b;
      WithoutAppend(a[1..], b, erased);
    }
  }

  lemma WithoutLast<V>(s: seq<Entry<V>>, erased: set<int>)
    requires s != []
    ensures Without(s, erased) ==
      Without(s[..|s| - 1], erased) + if s[|s| - 1].opt in erased then [] else [s[|s| - 1]]
  {
    var init, last := s[..|s| - 1], s[|s| - 1];
    assert s == init + [last];
    WithoutAppend(init, [last], erased);
    assert [last][1..] == [] && Without([last], erased) == if last.opt in erased then [] else [last];
  }

  lemma {:induction false} WithoutNothing<V>(s: seq<Entry<V>>)
    ensures Without(s, {}) == s
  {
    if s != [] { WithoutNothing(s[1..]); }
  }

  lemma {:induction false} WithoutTwice<V>(s: seq<Entry<V>>, e: set<int>, e': set<int>)
    ensures Without(Without(s, e), e') == Without(s, e + e')
  {
    if s != [] {
      WithoutTwice(s[1..], e, e');
      if s[0].opt !in e {
        var rest := Without(s[1..], e);
        assert ([s[0]] + rest)[1..] == rest;
      } else {
        assert [] + Without(s[1..], e) == Without(s[1..], e);
        assert [] + Without(s[1..], e + e') == Without(s[1..], e + e');
      }
    }
  }

  /** Folds of erasures, as the calls perform them. */
  function Erased<V>(s: seq<Entry<V>>, opts: seq<int>): seq<Entry<V>> {
    if opts == [] then s else Without(Erased(s, opts[..|opts| - 1]), {opts[|opts| - 1]})
  }

  function ErasedFlags(f: Flags, opts: seq<int>): Flags {
    if opts == [] then f else EraseFlags(ErasedFlags(f, opts[..|opts| - 1]), opts[|opts| - 1])
  }

  lemma ElementsStep(opts: seq<int>)
    requires opts != []
    ensures Elements(opts) == Elements(opts[..|opts| - 1]) + {opts[|opts| - 1]}
  {
    assert opts == opts[..|opts| - 1] + [opts[|opts| - 1]];
  }

  lemma {:induction false} OptionsAfterErasures<V>(s: seq<Entry<V>>, opts: seq<int>)
    ensures Erased(s, opts) == Without(s, Elements(opts))
  {
    if opts == [] {
      WithoutNothing(s);
      assert Elements(opts) == {};
    } else {
      OptionsAfterErasures(s, opts[..|opts| - 1]);
      ElementsStep(opts);
      WithoutTwice(s, Elements(opts[..|opts| - 1]), {opts[|opts| - 1]});
    }
  }

  lemma ClearedStep(f: Flags, h: bool, p: bool, s: bool, y: bool, c: bool, m: bool, a: bool, opt: int)
    ensures EraseFlags(Cleared(f, h, p, s, y, c, m, a), opt) ==
      Cleared(f, h || opt == HOST, p || opt == PORT, s || opt == SOCKET, y || opt == PRIORITY, c || opt == SSL_CA,
              m || opt == SSL_MODE, a || opt == CONNECTION_ATTRIBUTES)
  {
  }

  lemma FlagsStep(f: Flags, erased: set<int>, opt: int)
    ensures EraseFlags(FlagsWithout(f, erased), opt) == FlagsWithout(f, erased + {opt})
  {
    ClearedStep(f, HOST in erased, PORT in erased, SOCKET in erased, PRIORITY in erased, SSL_CA in erased,
                SSL_MODE in erased, CONNECTION_ATTRIBUTES in erased, opt);
  }

  lemma {:induction false} FlagsAfterErasures(f: Flags, opts: seq<int>)
    ensures ErasedFlags(f, opts) == FlagsWithout(f, Elements(opts))
  {
    if opts != [] {
      FlagsAfterErasures(f, opts[..|opts| - 1]);
      ElementsStep(opts);
      FlagsStep(f, Elements(opts[..|opts| - 1]), opts[|opts| - 1]);
    }
  }

  /** After any sequence of erasures everything depends only on the set of options erased. */
  lemma ErasureIsASet<V>(s: seq<Entry<V>>, f: Flags, opts: seq<int>)
    ensures Erased(s, opts) == Without(s, Elements(opts)) && ErasedFlags(f, opts) == FlagsWithout(f, Elements(opts))
  {
    OptionsAfterErasures(s, opts);
    FlagsAfterErasures(f, opts);
  }

  /** Hence erasing is idempotent and the order of erasures does not matter. */
  lemma OrderAndRepetitionAreIrrelevant<V>(s: seq<Entry<V>>, f: Flags, a: seq<int>, b: seq<int>)
    requires Elements(a) == Elements(b)
    ensures Erased(s, a) == Erased(s, b) && ErasedFlags(f, a) == ErasedFlags(f, b)
  {
    ErasureIsASet(s, f, a);
    ErasureIsASet(s, f, b);
  }

  lemma {:induction false} LookupOccurs<V>(s: seq<Entry<V>>, opt: int)
    ensures Lookup(s, opt).Some? <==> Occurs(s, opt)
  {
    if s != [] && s[|s| - 1].opt != opt {
      LookupOccurs(s[..|s| - 1], opt);
      assert forall i :: 0 <= i < |s| - 1 ==> s[i] == s[..|s| - 1][i];
    }
  }

  /** v is the value of the last entry for opt. */
  ghost predicate IsLast<V>(s: seq<Entry<V>>, opt: int, v: V) {
    exists i | 0 <= i < |s| :: s[i] == Entry(opt, v) && forall j :: i < j < |s| ==> s[j].opt != opt
  }

  /** What is looked up is the last value stored, and nothing only where nothing is stored. */
  lemma {:induction false} LookupIsLast<V>(s: seq<Entry<V>>, opt: int)
    ensures Lookup(s, opt).None? <==> forall i :: 0 <= i < |s| ==> s[i].opt != opt
    ensures Lookup(s, opt).Some? ==> IsLast(s, opt, Lookup(s, opt).value)
  {
    LookupOccurs(s, opt);
    if s != [] {
      var n := |s| - 1;
      if s[n].opt == opt {
        assert s[n] == Entry(opt, s[n].value);
      } else {
        LookupIsLast(s[..n], opt);
        if Lookup(s, opt).Some? {
          var i :| 0 <= i < n && s[..n][i] == Entry(opt, Lookup(s, opt).value)
            && forall j :: i < j < n ==> s[..n][j].opt != opt;
          assert forall j :: i < j < |s| ==> s[j].opt != opt by {
            assert forall j :: i < j < n ==> s[j] == s[..n][j];
          }
        }
      }
    }
  }

  /** Any other option keeps its last value; an erased one has none. */
  lemma {:induction false} LookupWithout<V>(s: seq<Entry<V>>, erased: set<int>, opt: int)
    ensures Lookup(Without(s, erased), opt) == if opt in erased then None else Lookup(s, opt)
    ensures opt !in erased ==> forall v :: IsLast(Without(s, erased), opt, v) <==> IsLast(s, opt, v)
    ensures opt in erased ==> !Occurs(Without(s, erased), opt)
  {
    LookupOfWithout(s, erased, opt);
    LookupIsLast(s, opt);
    LookupIsLast(Without(s, erased), opt);
    LookupOccurs(Without(s, erased), opt);
    forall v ensures IsLast(s, opt, v) <==> Lookup(s, opt) == Some(v) { LastIsUnique(s, opt, v); }
    forall v ensures IsLast(Without(s, erased), opt, v) <==> Lookup(Without(s, erased), opt) == Some(v) {
      LastIsUnique(Without(s, erased), opt, v);
    }
  }

  lemma LastIsUnique<V>(s: seq<Entry<V>>, opt: int, v: V)
    ensures IsLast(s, opt, v) <==> Lookup(s, opt) == Some(v)
  {
    LookupIsLast(s, opt);
    if IsLast(s, opt, v) {
      var i :| 0 <= i < |s| && s[i] == Entry(opt, v) && forall j :: i < j < |s| ==> s[j].opt != opt;
      var w := Lookup(s, opt).value;
      var k :| 0 <= k < |s| && s[k] == Entry(opt, w) && forall j :: k < j < |s| ==> s[j].opt != opt;
      assert i == k;
    }
  }

  lemma {:induction false} LookupOfWithout<V>(s: seq<Entry<V>>, erased: set<int>, opt: int)
    ensures Lookup(Without(s, erased), opt) == if opt in erased then None else Lookup(s, opt)
  {
    if s != [] {
      LookupOfWithout(s[..|s| - 1], erased, opt);
      WithoutLast(s, erased);
      var kept := Without(s[..|s| - 1], erased);
      assert kept + [] == kept && (kept + [s[|s| - 1]])[..|kept|] == kept;
    }
  }

  /** has_option after erasures: false of what was erased, but for the three was-set flags. */
  lemma HasOptionAfterErase<V>(s: seq<Entry<V>>, f: Flags, opts: seq<int>, opt: int)
    ensures (ListFlag(ErasedFlags(f, opts), opt) || Occurs(Erased(s, opts), opt)) <==>
      || (opt == TLS_VERSIONS && f.tlsVers) || (opt == TLS_CIPHERSUITES && f.tlsCiphers)
      || (opt == COMPRESSION_ALGORITHMS && f.compressionAlgorithms) || (opt !in opts && Occurs(s, opt))
    ensures Lookup(Erased(s, opts), opt) == if opt in opts then None else Lookup(s, opt)
  {
    ErasureIsASet(s, f, opts);
    LookupWithout(s, Elements(opts), opt);
    LookupOccurs(Erased(s, opts), opt);
    LookupOccurs(s, opt);
  }

  lemma ConnectionErased(f: Flags, opt: int)
    ensures var g := EraseFlags(f, opt);
      && g.hostCnt == (if opt == HOST then 0 else f.hostCnt)
      && (g.tcpip <==> f.tcpip && opt != HOST && (opt == PORT ==> f.hostCnt > 0))
      && (g.sock <==> f.sock && opt != SOCKET) && (g.userPriorities <==> f.userPriorities && opt != PRIORITY)
  {
    if opt == HOST {
    } else if opt == PORT {
    } else if opt == SOCKET {
    } else if opt == PRIORITY {
    } else if opt == SSL_CA {
    } else if opt == SSL_MODE {
    } else if opt == CONNECTION_ATTRIBUTES {
    } else {
      assert EraseFlags(f, opt) == f;
    }
  }

  lemma SecurityErased(f: Flags, opt: int)
    ensures var g := EraseFlags(f, opt);
      && (g.sslCa <==> f.sslCa && opt != SSL_CA) && g.sslMode == (if opt == SSL_MODE then SSL_LAST else f.sslMode)
      && g.connectionAttr == (if opt == CONNECTION_ATTRIBUTES then map[] else f.connectionAttr)
      && g.tlsVers == f.tlsVers && g.tlsCiphers == f.tlsCiphers && g.compressionAlgorithms == f.compressionAlgorithms
  {
    if opt == HOST {
    } else if opt == PORT {
    } else if opt == SOCKET {
    } else if opt == PRIORITY {
    } else if opt == SSL_CA {
    } else if opt == SSL_MODE {
    } else if opt == CONNECTION_ATTRIBUTES {
    } else {
      assert EraseFlags(f, opt) == f;
    }
  }

  /** Flag by flag, what any sequence of erasures leaves; the three was-set flags stay. */
  lemma ErasedFlagsAre(f: Flags, opts: seq<int>)
    ensures var g := ErasedFlags(f, opts);
      && g.hostCnt == (if HOST in opts then 0 else f.hostCnt)
      && (g.tcpip <==> f.tcpip && HOST !in opts && (PORT in opts ==> f.hostCnt > 0))
      && (g.sock <==> f.sock && SOCKET !in opts)
      && (g.userPriorities <==> f.userPriorities && PRIORITY !in opts)
      && (g.sslCa <==> f.sslCa && SSL_CA !in opts)
      && g.sslMode == (if SSL_MODE in opts then SSL_LAST else f.sslMode)
      && g.connectionAttr == (if CONNECTION_ATTRIBUTES in opts then map[] else f.connectionAttr)
      && g.tlsVers == f.tlsVers && g.tlsCiphers == f.tlsCiphers && g.compressionAlgorithms == f.compressionAlgorithms
  {
    FlagsAfterErasures(f, opts);
  }

  /** Without keeps the other options in order: of one entry all or nothing, of two lists both parts. */
  lemma WithoutIs<V>(e: Entry<V>, a: seq<Entry<V>>, b: seq<Entry<V>>, erased: set<int>)
    ensures Without<V>([], erased) == []
    ensures Without([e], erased) == if e.opt in erased then [] else [e]
    ensures Without(a + b, erased) == Without(a, erased) + Without(b, erased)
  {
    assert [e][1..] == [];
    WithoutAppend(a, b, erased);
  }

  class Settings<V(0)> {
    /** m_options: a vector is a buffer and the number of elements in use. */
    var buffer: array<Entry<V>>
    var size: nat
    var flags: Flags

    ghost predicate Valid()
      reads this
    {
      size <= buffer.Length
    }

    function Options(): seq<Entry<V>>
      reads this, buffer
      requires Valid()
    {
      buffer[..size]
    }

    constructor (options: seq<Entry<V>>, f: Flags)
      ensures Valid() && fresh(buffer) && Options() == options && flags == f
    {
      size := |options|;
      flags := f;
      buffer := new Entry<V>[|options|](i requires 0 <= i < |options| => options[i]);
    }

    /** `get`: searches from the back. */
    method Get(opt: int) returns (r: Option<V>)
      requires Valid()
      ensures r == Lookup(Options(), opt)
      ensures r.None? <==> !Occurs(Options(), opt)
      ensures r.Some? ==> exists i | 0 <= i < |Options()| ::
        Options()[i] == Entry(opt, r.value) && forall j :: i < j < |Options()| ==> Options()[j].opt != opt
    {
      LookupIsLast(Options(), opt);
      var i := size;
      while i > 0
        invariant 0 <= i <= size && Lookup(Options(), opt) == Lookup(buffer[..i], opt)
      {
        assert buffer[..i][..i - 1] == buffer[..i - 1];
        i := i - 1;
        if buffer[i].opt == opt {
          return Some(buffer[i].value);
        }
      }
      return None;
    }

    /** `has_option`: a list option also counts as present when it was set to an empty list. */
    method HasOption(opt: int) returns (r: bool)
      requires Valid()
      ensures opt == TLS_VERSIONS ==> (r <==> flags.tlsVers || Occurs(Options(), opt))
      ensures opt == TLS_CIPHERSUITES ==> (r <==> flags.tlsCiphers || Occurs(Options(), opt))
      ensures opt == COMPRESSION_ALGORITHMS ==> (r <==> flags.compressionAlgorithms || Occurs(Options(), opt))
      ensures opt != TLS_VERSIONS && opt != TLS_CIPHERSUITES && opt != COMPRESSION_ALGORITHMS ==>
        (r <==> Occurs(Options(), opt))
      ensures r <==> ListFlag(flags, opt) || Occurs(Options(), opt)
    {
      if ListFlag(flags, opt) {
        return true;
      }
      var i := 0;
      while i < size
        invariant 0 <= i <= size && forall j :: 0 <= j < i ==> buffer[j].opt != opt
      {
        if buffer[i].opt == opt {
          assert Options()[i].opt == opt;
          return true;
        }
        i := i + 1;
      }
      return false;
    }

    /** `remove_from`: std::remove_if moves the kept elements down in place, then the tail is cut off. */
    method RemoveFrom(opt: int)
      requires Valid()
      modifies this`size, buffer
      ensures Valid() && Options() == Without(old(Options()), {opt})
    {
      ghost var was := Options();
      var end, i := 0, 0;
      while i < size
        invariant 0 <= end <= i <= size <= buffer.Length && |was| == size
        invariant buffer[..end] == Without(was[..i], {opt})
        invariant forall j :: i <= j < size ==> buffer[j] == was[j]
      {
        WithoutLast(was[..i + 1], {opt});
        assert was[..i + 1][..i] == was[..i];
        if buffer[i].opt != opt {
          buffer[end] := buffer[i];
          end := end + 1;
        }
        i := i + 1;
      }
      assert was[..i] == was;
      size := end;
    }

    /** The switch of `Data::erase`. */
    method EraseContext(opt: int)
      modifies this`flags
      ensures flags == EraseFlags(old(flags), opt)
    {
      if opt == HOST {
        flags := flags.(hostCnt := 0);
      }
      if opt == HOST || opt == PORT {
        if flags.hostCnt == 0 {
          flags := flags.(tcpip := false);
        }
      } else if opt == SOCKET {
        flags := flags.(sock := false);
      } else if opt == PRIORITY {
        flags := flags.(userPriorities := false);
      } else if opt == SSL_CA {
        flags := flags.(sslCa := false);
      } else if opt == SSL_MODE {
        flags := flags.(sslMode := SSL_LAST);
      } else if opt == CONNECTION_ATTRIBUTES {
        flags := flags.(connectionAttr := map[]);
      }
    }

    /** `Data::erase`: every occurrence goes, and the consistency flags follow. */
    method Erase(opt: int)
      requires Valid()
      modifies this`size, this`flags, buffer
      ensures Valid() && Options() == Without(old(Options()), {opt})
      ensures flags == EraseFlags(old(flags), opt)
      ensures flags.hostCnt == (if opt == HOST then 0 else old(flags).hostCnt)
      ensures flags.tcpip <==> old(flags).tcpip && opt != HOST && (opt == PORT ==> flags.hostCnt > 0)
      ensures flags.sock <==> old(flags).sock && opt != SOCKET
      ensures flags.userPriorities <==> old(flags).userPriorities && opt != PRIORITY
      ensures flags.sslCa <==> old(flags).sslCa && opt != SSL_CA
      ensures flags.sslMode == if opt == SSL_MODE then SSL_LAST else old(flags).sslMode
      ensures flags.connectionAttr == if opt == CONNECTION_ATTRIBUTES then map[] else old(flags).connectionAttr
      ensures flags.tlsVers == old(flags).tlsVers && flags.tlsCiphers == old(flags).tlsCiphers
      ensures flags.compressionAlgorithms == old(flags).compressionAlgorithms
    {
      hide Without, EraseFlags;
      ConnectionErased(flags, opt);
      SecurityErased(flags, opt);
      RemoveFrom(opt);
      EraseContext(opt);
    }

    /** Any sequence of erasures. */
    method EraseAll(opts: seq<int>)
      requires Valid()
      modifies this`size, this`flags, buffer
      ensures Valid() && Options() == Without(old(Options()), Elements(opts))
      ensures flags == FlagsWithout(old(flags), Elements(opts))
      ensures Options() == Erased(old(Options()), opts) && flags == ErasedFlags(old(flags), opts)
    {
      var k := 0;
      WithoutNothing(Options());
      assert Elements(opts[..k]) == {};
      while k < |opts|
        invariant 0 <= k <= |opts| && Valid()
        invariant Options() == Without(old(Options()), Elements(opts[..k]))
        invariant flags == FlagsWithout(old(flags), Elements(opts[..k]))
      {
        ghost var done := Elements(opts[..k]);
        WithoutTwice(old(Options()), done, {opts[k]});
        FlagsStep(old(flags), done, opts[k]);
        assert opts[..k + 1][..k] == opts[..k];
        ElementsStep(opts[..k + 1]);
        Erase(opts[k]);
        k := k + 1;
      }
      assert opts[..k] == opts;
      ErasureIsASet(old(Options()), old(flags), opts);
    }
  }
}
