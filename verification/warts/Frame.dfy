/** Every reader depends only on the bytes it consumes: whatever follows them may be replaced. */
module WartsFrame {
  import Seqs
  import opened Common
  import opened WartsWire
  import opened WartsFlags
  import opened WartsAddress
  import opened WartsFields

  /** s1 is what is left of s. */
  predicate Behind(s: Bytes, s1: Bytes) {
    |s1| <= |s| && s[|s| - |s1|..] == s1
  }

  function Used(s: Bytes, s1: Bytes): Bytes
    requires |s1| <= |s|
  {
    s[..|s| - |s1|]
  }

  lemma UsedThen(s: Bytes, s1: Bytes, s2: Bytes)
    requires Behind(s, s1) && Behind(s1, s2)
    ensures Behind(s, s2) && Used(s, s2) == Used(s, s1) + Used(s1, s2)
  {
    assert s == Used(s, s1) + s1;
    assert s1 == Used(s1, s2) + s2;
  }

  /** Two reads in a row on the bytes they use. */
  lemma UsedOnce(s: Bytes, s1: Bytes, s2: Bytes, u: Bytes)
    requires Behind(s, s1) && Behind(s1, s2)
    ensures Behind(s, s2) && Used(s, s2) + u == Used(s, s1) + (Used(s1, s2) + u)
  {
    UsedThen(s, s1, s2);
    Seqs.Assoc(Used(s, s1), Used(s1, s2), u);
  }

  lemma UsedAll(s: Bytes, s1: Bytes, t: Bytes)
    requires Behind(s, s1)
    ensures Used(s, s1) + (s1 + t) == s + t
  {
    assert s == Used(s, s1) + s1;
    Seqs.Assoc(Used(s, s1), s1, t);
  }

  lemma UsedNone(s: Bytes, u: Bytes)
    ensures Behind(s, s) && Used(s, s) + u == u
  {
    assert Used(s, s) == [];
    Seqs.NoneLeft(u);
  }

  // ---------- numbers, strings, flags ----------

  lemma BytesFrame(s: Bytes, n: nat, u: Bytes)
    requires ReadBytes(s, n).Ok?
    ensures var (b, s1) := ReadBytes(s, n).value; Behind(s, s1) && ReadBytes(Used(s, s1) + u, n) == Ok((b, u))
  {
    if n == 0 {
      UsedNone(s, u);
    } else {
      assert Used(s, s[n..]) == s[..n];
      Seqs.Front(s[..n], u);
    }
  }

  lemma OneFrame(s: Bytes, u: Bytes)
    requires ReadOne(s).Ok?
    ensures var (b, s1) := ReadOne(s).value; Behind(s, s1) && ReadOne(Used(s, s1) + u) == Ok((b, u))
  {
    assert Used(s, s[1..]) == [s[0]];
    Seqs.Cons(s[0], u);
  }

  lemma Uint8Frame(s: Bytes, u: Bytes)
    requires ReadUint8(s).Ok?
    ensures var (b, s1) := ReadUint8(s).value; Behind(s, s1) && ReadUint8(Used(s, s1) + u) == Ok((b, u))
  {
    OneFrame(s, u);
  }

  lemma Uint16Frame(s: Bytes, u: Bytes)
    requires ReadUint16(s).Ok?
    ensures var (n, s1) := ReadUint16(s).value; Behind(s, s1) && ReadUint16(Used(s, s1) + u) == Ok((n, u))
  {
    BytesFrame(s, 2, u);
  }

  lemma Uint32Frame(s: Bytes, u: Bytes)
    requires ReadUint32(s).Ok?
    ensures var (n, s1) := ReadUint32(s).value; Behind(s, s1) && ReadUint32(Used(s, s1) + u) == Ok((n, u))
  {
    BytesFrame(s, 4, u);
  }

  lemma TimeValFrame(s: Bytes, u: Bytes)
    requires ReadTimeVal(s).Ok?
    ensures var (v, s1) := ReadTimeVal(s).value; Behind(s, s1) && ReadTimeVal(Used(s, s1) + u) == Ok((v, u))
  {
    var s1 := ReadUint32(s).value.1;
    var s2 := ReadUint32(s1).value.1;
    Uint32Frame(s1, u);
    Uint32Frame(s, Used(s1, s2) + u);
    UsedOnce(s, s1, s2, u);
  }

  lemma {:induction false} StringFrame(s: Bytes, buf: Bytes, u: Bytes)
    requires GetString(s, buf).Ok?
    ensures var (b, s1) := GetString(s, buf).value; Behind(s, s1) && GetString(Used(s, s1) + u, buf) == Ok((b, u))
    decreases |s|
  {
    var s1 := GetString(s, buf).value.1;
    OneFrame(s, u);
    if s[0] != 0 {
      StringFrame(s[1..], buf + [s[0]], u);
      UsedOnce(s, s[1..], s1, u);
      OneFrame(s, Used(s[1..], s1) + u);
    }
  }

  lemma {:induction false} FlagsFrame(check: uint8, byteNum: nat, ret: seq<nat>, s: Bytes, u: Bytes)
    requires 1 <= byteNum && GetFlags(check, byteNum, ret, s).Ok?
    ensures var (f, s1) := GetFlags(check, byteNum, ret, s).value;
      Behind(s, s1) && GetFlags(check, byteNum, ret, Used(s, s1) + u) == Ok((f, u))
    decreases |s|
  {
    if !IsSet(check as nat, 8) {
      UsedNone(s, u);
    } else {
      var found := ret + BitsFrom(check as nat, byteNum, 1);
      var (next, s1) := ReadOne(s).value;
      var s2 := GetFlags(next, byteNum + 1, found, s1).value.1;
      FlagsFrame(next, byteNum + 1, found, s1, u);
      OneFrame(s, Used(s1, s2) + u);
      UsedOnce(s, s1, s2, u);
    }
  }

  // ---------- addresses and lists ----------

  /** The bytes used between two states, in front of other bytes. */
  function Ahead(st: State, st1: State, u: Bytes): State
    requires |st1.rest| <= |st.rest|
  {
    State(Used(st.rest, st1.rest) + u, st.refs)
  }

  ghost predicate Framed<T>(read: State -> Res<(T, State)>, st: State, u: Bytes)
    requires read(st).Ok?
  {
    var (v, st1) := read(st).value;
    Behind(st.rest, st1.rest) && read(Ahead(st, st1, u)) == Ok((v, State(u, st1.refs)))
  }

  lemma ReferencedFrame(st: State, u: Bytes)
    requires ReadReferencedAddress(st).Ok?
    ensures Framed(ReadReferencedAddress, st, u)
  {
    Uint32Frame(st.rest, u);
  }

  lemma AddressFrame(st: State, u: Bytes)
    requires ReadAddress(st).Ok?
    ensures Framed(ReadAddress, st, u)
  {
    var (length, s1) := ReadUint8(st.rest).value;
    if length == 0 {
      var s2 := ReadUint32(s1).value.1;
      Uint32Frame(s1, u);
      Uint8Frame(st.rest, Used(s1, s2) + u);
      UsedOnce(st.rest, s1, s2, u);
    } else {
      InlineFrame(st, u);
    }
  }

  lemma InlineFrame(st: State, u: Bytes)
    requires ReadAddress(st).Ok? && ReadUint8(st.rest).value.0 != 0
    ensures Framed(ReadAddress, st, u)
  {
    var (length, s1) := ReadUint8(st.rest).value;
    var s2 := ReadUint8(s1).value.1;
    var s3 := ReadBytes(s2, length as nat).value.1;
    BytesFrame(s2, length as nat, u);
    Uint8Frame(s1, Used(s2, s3) + u);
    UsedOnce(s1, s2, s3, u);
    Uint8Frame(st.rest, Used(s1, s3) + u);
    UsedOnce(st.rest, s1, s3, u);
  }

  lemma {:induction false} ManyFrame<T>(read: State -> Res<(T, State)>, n: nat, acc: seq<T>, st: State, u: Bytes)
    requires forall s, t :: read(s).Ok? ==> Framed(read, s, t)
    requires ReadMany(read, n, acc, st).Ok?
    ensures var (v, st1) := ReadMany(read, n, acc, st).value;
      && Behind(st.rest, st1.rest)
      && ReadMany(read, n, acc, Ahead(st, st1, u)) == Ok((v, State(u, st1.refs)))
    decreases n
  {
    if n == 0 {
      UsedNone(st.rest, u);
    } else {
      var (x, st1) := read(st).value;
      var st2 := ReadMany(read, n - 1, acc + [x], st1).value.1;
      ManyFrame(read, n - 1, acc + [x], st1, u);
      assert Framed(read, st, Used(st1.rest, st2.rest) + u);
      UsedOnce(st.rest, st1.rest, st2.rest, u);
    }
  }

  lemma AddressesFrame(n: nat, st: State, u: Bytes)
    requires ReadAddresses(n, st).Ok?
    ensures var (v, st1) := ReadAddresses(n, st).value;
      && Behind(st.rest, st1.rest)
      && ReadAddresses(n, Ahead(st, st1, u)) == Ok((v, State(u, st1.refs)))
  {
    forall s, t | ReadAddress(s).Ok? ensures Framed(ReadAddress, s, t) {
      AddressFrame(s, t);
    }
    ManyFrame(ReadAddress, n, [], st, u);
  }

  // ---------- fields ----------

  lemma {:induction false} Uint32sFrame(n: nat, acc: seq<uint32>, s: Bytes, u: Bytes)
    requires ReadUint32s(n, acc, s).Ok?
    ensures var (v, s1) := ReadUint32s(n, acc, s).value;
      Behind(s, s1) && ReadUint32s(n, acc, Used(s, s1) + u) == Ok((v, u))
    decreases n
  {
    if n == 0 {
      UsedNone(s, u);
    } else {
      var (x, s1) := ReadUint32(s).value;
      var s2 := ReadUint32s(n - 1, acc + [x], s1).value.1;
      Uint32sFrame(n - 1, acc + [x], s1, u);
      Uint32Frame(s, Used(s1, s2) + u);
      UsedOnce(s, s1, s2, u);
    }
  }

  lemma TripleFrame(s: Bytes, u: Bytes)
    requires ReadTriple(s).Ok?
    ensures var (v, s1) := ReadTriple(s).value; Behind(s, s1) && ReadTriple(Used(s, s1) + u) == Ok((v, u))
  {
    var s1 := ReadUint32(s).value.1;
    var s2 := ReadUint32(s1).value.1;
    var s3 := ReadUint32(s2).value.1;
    Uint32Frame(s2, u);
    Uint32Frame(s1, Used(s2, s3) + u);
    UsedOnce(s1, s2, s3, u);
    Uint32Frame(s, Used(s1, s3) + u);
    UsedOnce(s, s1, s3, u);
  }

  lemma ExtensionFrame(s: Bytes, u: Bytes)
    requires ReadExtension(s).Ok?
    ensures var (v, s1) := ReadExtension(s).value; Behind(s, s1) && ReadExtension(Used(s, s1) + u) == Ok((v, u))
  {
    var (length, s1) := ReadUint16(s).value;
    var s2 := ReadUint8(s1).value.1;
    var s3 := ReadUint8(s2).value.1;
    var s4 := ReadBytes(s3, length).value.1;
    BytesFrame(s3, length, u);
    Uint8Frame(s2, Used(s3, s4) + u);
    UsedOnce(s2, s3, s4, u);
    Uint8Frame(s1, Used(s2, s4) + u);
    UsedOnce(s1, s2, s4, u);
    Uint16Frame(s, Used(s1, s4) + u);
    UsedOnce(s, s1, s4, u);
  }

  /** One round of the loop. */
  lemma ExtensionsRound(i: uint16, length: uint16, acc: seq<Extension>, s: Bytes, e: Extension, s1: Bytes)
    requires i < length && ReadExtension(s) == Ok((e, s1))
    ensures ReadExtensionsFrom(i, length, acc, s) == ReadExtensionsFrom(Wrap16(i + e.length + 4), length, acc + [e], s1)
  {
  }

  lemma {:induction false} ExtensionsFromFrame(i: uint16, length: uint16, acc: seq<Extension>, s: Bytes, u: Bytes)
    requires ReadExtensionsFrom(i, length, acc, s).Ok?
    ensures var (v, s1) := ReadExtensionsFrom(i, length, acc, s).value;
      Behind(s, s1) && ReadExtensionsFrom(i, length, acc, Used(s, s1) + u) == Ok((v, u))
    decreases |s|
  {
    if i >= length {
      UsedNone(s, u);
    } else {
      var (e, s1) := ReadExtension(s).value;
      var j := Wrap16(i + e.length + 4);
      ExtensionsRound(i, length, acc, s, e, s1);
      ExtensionsFromFrame(j, length, acc + [e], s1, u);
      var s2 := ReadExtensionsFrom(j, length, acc + [e], s1).value.1;
      var t := Used(s1, s2) + u;
      ExtensionFrame(s, t);
      ExtensionsRound(i, length, acc, Used(s, s1) + t, e, t);
      UsedOnce(s, s1, s2, u);
    }
  }

  lemma ExtensionsFrame(s: Bytes, u: Bytes)
    requires ReadExtensions(s).Ok?
    ensures var (v, s1) := ReadExtensions(s).value; Behind(s, s1) && ReadExtensions(Used(s, s1) + u) == Ok((v, u))
  {
    var (length, s1) := ReadUint16(s).value;
    var s2 := ReadExtensionsFrom(0, length, [], s1).value.1;
    ExtensionsFromFrame(0, length, [], s1, u);
    Uint16Frame(s, Used(s1, s2) + u);
    UsedOnce(s, s1, s2, u);
  }

  lemma StampsFrame(st: State, u: Bytes)
    requires ReadStamps(st).Ok?
    ensures Framed(ReadStamps, st, u)
  {
    var (tsc, s1) := ReadUint8(st.rest).value;
    var (ipc, s2) := ReadUint8(s1).value;
    var s3 := ReadUint32s(tsc as nat, [], s2).value.1;
    var st4 := ReadAddresses(ipc as nat, st.(rest := s3)).value.1;
    AddressesFrame(ipc as nat, st.(rest := s3), u);
    Uint32sFrame(tsc as nat, [], s2, Used(s3, st4.rest) + u);
    UsedOnce(s2, s3, st4.rest, u);
    Uint8Frame(s1, Used(s2, st4.rest) + u);
    UsedOnce(s1, s2, st4.rest, u);
    Uint8Frame(st.rest, Used(s1, st4.rest) + u);
    UsedOnce(st.rest, s1, st4.rest, u);
  }

  lemma AddrListFrame(fields: Fields, st: State, u: Bytes)
    requires ReadValue(AddrList, fields, st).Ok?
    ensures var (v, st1) := ReadValue(AddrList, fields, st).value;
      && Behind(st.rest, st1.rest)
      && ReadValue(AddrList, fields, Ahead(st, st1, u)) == Ok((v, State(u, st1.refs)))
  {
    var (n, s1) := ReadUint8(st.rest).value;
    var st2 := ReadAddresses(n as nat, st.(rest := s1)).value.1;
    AddressesFrame(n as nat, st.(rest := s1), u);
    Uint8Frame(st.rest, Used(s1, st2.rest) + u);
    UsedOnce(st.rest, s1, st2.rest, u);
  }

  predicate IsPlain(k: Kind) {
    !k.Reference? && !k.Addr? && !k.AddrList? && !k.Stamps?
  }

  lemma PlainFrame(k: Kind, fields: Fields, s: Bytes, u: Bytes)
    requires IsPlain(k) && ReadPlain(k, fields, s).Ok?
    ensures var (v, s1) := ReadPlain(k, fields, s).value; Behind(s, s1) && ReadPlain(k, fields, Used(s, s1) + u) == Ok((v, u))
  {
    match k
    case U8 => Uint8Frame(s, u);
    case U16 => Uint16Frame(s, u);
    case U32 => Uint32Frame(s, u);
    case TimeVal => TimeValFrame(s, u);
    case Micros => Uint32Frame(s, u);
    case Triple => TripleFrame(s, u);
    case Data(flag) => BytesFrame(s, DataLength(flag, fields), u);
    case Extensions => ExtensionsFrame(s, u);
    case Ignored => TimeValFrame(s, u);
  }

  lemma OneAddressFrame(k: Kind, fields: Fields, st: State, u: Bytes)
    requires k.Reference? || k.Addr?
    requires ReadValue(k, fields, st).Ok?
    ensures var (v, st1) := ReadValue(k, fields, st).value;
      && Behind(st.rest, st1.rest)
      && ReadValue(k, fields, Ahead(st, st1, u)) == Ok((v, State(u, st1.refs)))
  {
    if k.Addr? {
      AddressFrame(st, u);
    } else {
      ReferencedFrame(st, u);
    }
  }

  lemma PlainValueFrame(k: Kind, fields: Fields, st: State, u: Bytes)
    requires IsPlain(k) && ReadValue(k, fields, st).Ok?
    ensures var (v, st1) := ReadValue(k, fields, st).value;
      && Behind(st.rest, st1.rest)
      && ReadValue(k, fields, Ahead(st, st1, u)) == Ok((v, State(u, st1.refs)))
  {
    PlainFrame(k, fields, st.rest, u);
  }

  lemma ValueFrame(k: Kind, fields: Fields, st: State, u: Bytes)
    requires ReadValue(k, fields, st).Ok?
    ensures var (v, st1) := ReadValue(k, fields, st).value;
      && Behind(st.rest, st1.rest)
      && ReadValue(k, fields, Ahead(st, st1, u)) == Ok((v, State(u, st1.refs)))
  {
    if IsPlain(k) {
      PlainValueFrame(k, fields, st, u);
    } else if k.AddrList? {
      AddrListFrame(fields, st, u);
    } else if k.Stamps? {
      StampsFrame(st, u);
    } else {
      OneAddressFrame(k, fields, st, u);
    }
  }

  lemma {:induction false} FieldsFrame(t: Table, flags: seq<nat>, fields: Fields, st: State, u: Bytes)
    requires ReadFields(t, flags, fields, st).Ok?
    ensures var (v, st1) := ReadFields(t, flags, fields, st).value;
      && Behind(st.rest, st1.rest)
      && ReadFields(t, flags, fields, Ahead(st, st1, u)) == Ok((v, State(u, st1.refs)))
    decreases |flags|
  {
    if flags == [] {
      UsedNone(st.rest, u);
    } else {
      var k := t(flags[0]).value;
      var (v, st1) := ReadValue(k, fields, st).value;
      var fields1 := fields[flags[0] := v];
      var st2 := ReadFields(t, flags[1..], fields1, st1).value.1;
      FieldsFrame(t, flags[1..], fields1, st1, u);
      ValueFrame(k, fields, st, Used(st1.rest, st2.rest) + u);
      UsedOnce(st.rest, st1.rest, st2.rest, u);
    }
  }

  lemma BitmapFrame(s: Bytes, u: Bytes)
    requires ReadBitmap(s).Ok?
    ensures var (flags, s1) := ReadBitmap(s).value;
      |s1| < |s| && Behind(s, s1) && ReadBitmap(Used(s, s1) + u) == Ok((flags, u))
  {
    var (first, s1) := ReadOne(s).value;
    var s2 := GetFlags(first, 1, [], s1).value.1;
    FlagsFrame(first, 1, [], s1, u);
    OneFrame(s, Used(s1, s2) + u);
    UsedOnce(s, s1, s2, u);
  }

  lemma FrontFrame(s: Bytes, u: Bytes)
    requires ReadFront(s).Ok?
    ensures var (flags, s1) := ReadFront(s).value;
      |s1| < |s| && Behind(s, s1) && ReadFront(Used(s, s1) + u) == Ok((flags, u))
  {
    var (flags, s1) := ReadBitmap(s).value;
    if flags == [] {
      BitmapFrame(s, u);
    } else {
      var s2 := ReadUint16(s1).value.1;
      Uint16Frame(s1, u);
      BitmapFrame(s, Used(s1, s2) + u);
      UsedOnce(s, s1, s2, u);
    }
  }

  lemma StructFrame(t: Table, st: State, u: Bytes)
    requires ReadStruct(t, st).Ok?
    ensures var (x, st1) := ReadStruct(t, st).value;
      && |st1.rest| < |st.rest| && Behind(st.rest, st1.rest)
      && ReadStruct(t, Ahead(st, st1, u)) == Ok((x, State(u, st1.refs)))
  {
    var (flags, s1) := ReadFront(st.rest).value;
    var (fields, st2) := ReadFields(t, flags, map[], State(s1, st.refs)).value;
    FieldsFrame(t, flags, map[], State(s1, st.refs), u);
    FrontFrame(st.rest, Used(s1, st2.rest) + u);
    UsedOnce(st.rest, s1, st2.rest, u);
  }

  lemma StructsFrame(t: Table, n: nat, st: State, u: Bytes)
    requires ReadStructs(t, n, st).Ok?
    ensures var (xs, st1) := ReadStructs(t, n, st).value;
      && Behind(st.rest, st1.rest)
      && ReadStructs(t, n, Ahead(st, st1, u)) == Ok((xs, State(u, st1.refs)))
  {
    var read := (st': State) => ReadStruct(t, st');
    forall s, v | read(s).Ok? ensures Framed(read, s, v) {
      StructFrame(t, s, v);
    }
    ManyFrame(read, n, [], st, u);
  }
}
