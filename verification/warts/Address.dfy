/** Addresses of a warts record: inline, or by reference to the inline addresses read before. */
module WartsAddress {
  import Seqs
  import opened Common
  import opened WartsWire

  datatype Address = Address(kind: uint8, address: uint64)

  /** What a lookup of an unknown id gives. */
  const NO_ADDRESS := Address(0, 0)

  /** The table of AddressRefs: `id` is the next id, counted in 32 bits. */
  datatype Refs = Refs(id: uint32, addrs: map<uint32, Address>) {
    function Add(a: Address): Refs {
      Refs((id + 1) % 0x1_0000_0000, addrs[id := a])
    }

    function Get(i: uint32): Address {
      if i in addrs then addrs[i] else NO_ADDRESS
    }
  }

  const NEW_REFS := Refs(0, map[])

  /** What a record reader works on: the unread bytes and the table of its record. */
  datatype State = State(rest: Bytes, refs: Refs)

  /** The big-endian value of a byte string. */
  function BigEndian(b: Bytes): nat {
    if b == [] then 0 else BigEndian(b[..|b| - 1]) * 0x100 + b[|b| - 1] as nat
  }

  function Pow256(n: nat): nat {
    if n == 0 then 1 else 0x100 * Pow256(n - 1)
  }

  lemma {:induction false} BigEndianBound(b: Bytes)
    ensures BigEndian(b) < Pow256(|b|)
  {
    if b != [] {
      BigEndianBound(b[..|b| - 1]);
    }
  }

  lemma {:induction false} Pow256Up(n: nat)
    requires n <= 8
    ensures 1 <= Pow256(n) <= 0x1_0000_0000_0000_0000
  {
    assert Pow256(2) == 0x1_0000 && Pow256(4) == 0x1_0000_0000;
    assert Pow256(6) == 0x1_0000_0000_0000 && Pow256(8) == 0x1_0000_0000_0000_0000;
  }

  /** sliceToUint64: more than eight bytes count as zero. */
  function SliceToUint64(b: Bytes): uint64 {
    BigEndianBound(b);
    if |b| > 8 then 0 else Pow256Up(|b|); BigEndian(b)
  }

  function ReadReferencedAddress(st: State): Res<(Address, State)> {
    var (id, s1) :- ReadUint32(st.rest);
    Ok((st.refs.Get(id), st.(rest := s1)))
  }

  function ReadAddress(st: State): Res<(Address, State)> {
    var (length, s1) :- ReadUint8(st.rest);
    if length == 0 then ReadReferencedAddress(st.(rest := s1))
    else
      var (t, s2) :- ReadUint8(s1);
      var (b, s3) :- ReadBytes(s2, length as nat);
      var a := Address(t, SliceToUint64(b));
      Ok((a, State(s3, st.refs.Add(a))))
  }

  /** n items in a row, after those in `acc`. */
  function ReadMany<T>(read: State -> Res<(T, State)>, n: nat, acc: seq<T>, st: State): Res<(seq<T>, State)> {
    if n == 0 then Ok((acc, st))
    else
      var (x, st1) :- read(st);
      ReadMany(read, n - 1, acc + [x], st1)
  }

  function ReadAddresses(n: nat, st: State): Res<(seq<Address>, State)> {
    ReadMany(ReadAddress, n, [], st)
  }

  // ---------- writing ----------

  /** A file can be written in many ways. At every place where the format leaves a choice the writer takes the next
      entry of its plan: the bytes, id or number given there are used if they stand for what is written, and the
      form chosen by default otherwise. */
  datatype Choice = Choice(bytes: Bytes, number: uint32, other: uint32)
  type Plan = seq<Choice>

  /** The table of the record being written, and the rest of the plan. */
  datatype Pen = Pen(refs: Refs, plan: Plan) {
    function Next(): Choice {
      if plan == [] then Choice([], 0, 0) else plan[0]
    }

    /** After one choice. */
    function Then(after: Refs): Pen {
      Pen(after, if plan == [] then [] else plan[1..])
    }

    /** A length that no reader looks at. */
    function Length(n: nat): uint32 {
      if plan == [] then n % 0x1_0000_0000 else plan[0].other
    }
  }

  /** By default an address already in the table is written as a reference to it. */
  ghost function IdOf(a: Address, refs: Refs): uint32
    requires a in refs.addrs.Values
  {
    var id :| id in refs.addrs && refs.addrs[id] == a; id
  }

  /** The id written for an address that must be a reference; an unknown id stands for the zero address. */
  ghost predicate Referable(a: Address, refs: Refs) {
    exists id: uint32 :: refs.Get(id) == a
  }

  ghost function RefTo(a: Address, pen: Pen): uint32 {
    if pen.refs.Get(pen.Next().number) == a then pen.Next().number
    else if Referable(a, pen.refs) then var id: uint32 :| pen.refs.Get(id) == a; id
    else 0
  }

  /** Bytes that may stand for an address inline. */
  predicate Spells(b: Bytes, a: Address) {
    1 <= |b| < 0x100 && SliceToUint64(b) == a.address
  }

  /** By default IPv4-sized addresses take four bytes, others eight. */
  function PutInline(a: Address, rest: Bytes): Bytes {
    if a.address < 0x1_0000_0000 then [4, a.kind] + PutUint32(a.address, rest)
    else [8, a.kind] + PutUint32(a.address / 0x1_0000_0000, PutUint32(a.address % 0x1_0000_0000, rest))
  }

  ghost function PutAddress(a: Address, pen: Pen, rest: Bytes): Bytes {
    var c := pen.Next();
    if Spells(c.bytes, a) then [|c.bytes| as uint8, a.kind] + (c.bytes + rest)
    else if pen.refs.Get(c.number) == a then [0] + PutUint32(c.number, rest)
    else if a in pen.refs.addrs.Values then [0] + PutUint32(IdOf(a, pen.refs), rest)
    else PutInline(a, rest)
  }

  ghost function PenAfter(a: Address, pen: Pen): Pen {
    var c := pen.Next();
    var inline := Spells(c.bytes, a) || (pen.refs.Get(c.number) != a && a !in pen.refs.addrs.Values);
    pen.Then(if inline then pen.refs.Add(a) else pen.refs)
  }

  /** Items one after the other; each is written with the pen that the ones before it leave behind. */
  ghost function PutMany<T>(put: (T, Pen, Bytes) -> Bytes, after: (T, Pen) -> Pen, xs: seq<T>, pen: Pen, rest: Bytes): Bytes {
    if xs == [] then rest else put(xs[0], pen, PutMany(put, after, xs[1..], after(xs[0], pen), rest))
  }

  ghost function AfterMany<T>(after: (T, Pen) -> Pen, xs: seq<T>, pen: Pen): Pen {
    if xs == [] then pen else AfterMany(after, xs[1..], after(xs[0], pen))
  }

  ghost predicate FitMany<T>(fits: (T, Pen) -> bool, after: (T, Pen) -> Pen, xs: seq<T>, pen: Pen) {
    xs == [] || (fits(xs[0], pen) && FitMany(fits, after, xs[1..], after(xs[0], pen)))
  }

  ghost function PutAddresses(addrs: seq<Address>, pen: Pen, rest: Bytes): Bytes {
    PutMany(PutAddress, PenAfter, addrs, pen, rest)
  }

  ghost function PenAfterAll(addrs: seq<Address>, pen: Pen): Pen {
    AfterMany(PenAfter, addrs, pen)
  }

  // ---------- the writer is undone ----------

  lemma BigEndian4(b: Bytes)
    requires |b| == 4
    ensures BigEndian(b) == GetUint32(b)
  {
    assert b[..3][..2] == b[..2] && b[..2][..1] == b[..1] && b[..1][..0] == [];
    assert BigEndian(b[..1]) == b[0] as nat;
    assert BigEndian(b[..2]) == b[0] as nat * 0x100 + b[1] as nat;
    assert BigEndian(b[..3]) == BigEndian(b[..2]) * 0x100 + b[2] as nat;
  }

  lemma {:induction false} BigEndianConcat(b: Bytes, c: Bytes)
    ensures BigEndian(b + c) == BigEndian(b) * Pow256(|c|) + BigEndian(c)
  {
    if c == [] {
      assert b + c == b;
    } else {
      var c' := c[..|c| - 1];
      BigEndianConcat(b, c');
      assert (b + c)[..|b + c| - 1] == b + c';
      assert BigEndian(b) * Pow256(|c'|) * 0x100 == BigEndian(b) * Pow256(|c|);
    }
  }

  lemma PutUint32Splits(n: uint32, rest: Bytes)
    ensures var s := PutUint32(n, rest);
      |s| == 4 + |rest| && s[4..] == rest && GetUint32(s[..4]) == n && BigEndian(s[..4]) == n
  {
    var s := PutUint32(n, rest);
    Uint32RoundTrip(n, rest);
    BigEndian4(s[..4]);
  }

  lemma ReadInline(n: uint8, t: uint8, b: Bytes, rest: Bytes, refs: Refs)
    requires 1 <= n as nat == |b|
    ensures var a := Address(t, SliceToUint64(b));
      ReadAddress(State([n, t] + (b + rest), refs)) == Ok((a, State(rest, refs.Add(a))))
  {
    var s := [n, t] + (b + rest);
    assert s[1..][1..] == b + rest;
    Seqs.Front(b, rest);
  }

  lemma EightBytes(hi: uint32, lo: uint32, rest: Bytes)
    ensures var s := PutUint32(hi, PutUint32(lo, rest));
      |s| == 8 + |rest| && s == s[..8] + rest && BigEndian(s[..8]) == hi * 0x1_0000_0000 + lo
  {
    var s1 := PutUint32(lo, rest);
    var s := PutUint32(hi, s1);
    PutUint32Splits(lo, rest);
    PutUint32Splits(hi, s1);
    assert s[..8] == s[..4] + s1[..4];
    BigEndianConcat(s[..4], s1[..4]);
    assert Pow256(4) == 0x1_0000_0000;
  }

  lemma InlineRoundTrip(a: Address, rest: Bytes, refs: Refs)
    ensures ReadAddress(State(PutInline(a, rest), refs)) == Ok((a, State(rest, refs.Add(a))))
  {
    if a.address < 0x1_0000_0000 {
      var s := PutUint32(a.address, rest);
      PutUint32Splits(a.address, rest);
      assert s == s[..4] + rest;
      ReadInline(4, a.kind, s[..4], rest, refs);
    } else {
      var hi, lo := a.address / 0x1_0000_0000, a.address % 0x1_0000_0000;
      var s := PutUint32(hi, PutUint32(lo, rest));
      EightBytes(hi, lo, rest);
      ReadInline(8, a.kind, s[..8], rest, refs);
    }
  }

  lemma ReferenceRoundTrip(a: Address, pen: Pen, rest: Bytes)
    requires Referable(a, pen.refs)
    ensures ReadReferencedAddress(State(PutUint32(RefTo(a, pen), rest), pen.refs)) == Ok((a, State(rest, pen.refs)))
  {
    Uint32RoundTrip(RefTo(a, pen), rest);
  }

  lemma IdRoundTrip(id: uint32, refs: Refs, rest: Bytes)
    ensures ReadAddress(State([0] + PutUint32(id, rest), refs)) == Ok((refs.Get(id), State(rest, refs)))
  {
    Uint32RoundTrip(id, rest);
    Seqs.Cons(0, PutUint32(id, rest));
  }

  /** Inline in any bytes that spell it, by any id that holds it, or by default: the address is read back. */
  lemma AddressRoundTrip(a: Address, pen: Pen, rest: Bytes)
    ensures ReadAddress(State(PutAddress(a, pen, rest), pen.refs)) == Ok((a, State(rest, PenAfter(a, pen).refs)))
  {
    var c := pen.Next();
    if Spells(c.bytes, a) {
      ReadInline(|c.bytes| as uint8, a.kind, c.bytes, rest, pen.refs);
    } else if pen.refs.Get(c.number) == a {
      IdRoundTrip(c.number, pen.refs, rest);
    } else if a in pen.refs.addrs.Values {
      IdRoundTrip(IdOf(a, pen.refs), pen.refs, rest);
    } else {
      InlineRoundTrip(a, rest, pen.refs);
    }
  }

  /** One item read back exactly makes any list of items read back exactly. */
  lemma {:induction false} ManyRoundTrip<T(!new)>(read: State -> Res<(T, State)>, put: (T, Pen, Bytes) -> Bytes,
      after: (T, Pen) -> Pen, fits: (T, Pen) -> bool, xs: seq<T>, acc: seq<T>, pen: Pen, rest: Bytes)
    requires forall x, p, s :: fits(x, p) ==> read(State(put(x, p, s), p.refs)) == Ok((x, State(s, after(x, p).refs)))
    requires FitMany(fits, after, xs, pen)
    ensures ReadMany(read, |xs|, acc, State(PutMany(put, after, xs, pen, rest), pen.refs))
         == Ok((acc + xs, State(rest, AfterMany(after, xs, pen).refs)))
    decreases |xs|
  {
    if xs == [] {
      Seqs.NoneLeft(acc);
    } else {
      ManyRoundTrip(read, put, after, fits, xs[1..], acc + [xs[0]], after(xs[0], pen), rest);
      Seqs.Shift(acc, xs);
    }
  }

  lemma {:induction false} AllFit<T>(fits: (T, Pen) -> bool, after: (T, Pen) -> Pen, xs: seq<T>, pen: Pen)
    requires forall x, p :: fits(x, p)
    ensures FitMany(fits, after, xs, pen)
  {
    if xs != [] {
      AllFit(fits, after, xs[1..], after(xs[0], pen));
    }
  }

  /** Any list of addresses written by any plan is read back, from any table. */
  lemma AddressesRoundTrip(addrs: seq<Address>, pen: Pen, rest: Bytes)
    ensures ReadAddresses(|addrs|, State(PutAddresses(addrs, pen, rest), pen.refs))
         == Ok((addrs, State(rest, PenAfterAll(addrs, pen).refs)))
  {
    var fits := (a: Address, p: Pen) => true;
    forall a, p, s ensures ReadAddress(State(PutAddress(a, p, s), p.refs)) == Ok((a, State(s, PenAfter(a, p).refs))) {
      AddressRoundTrip(a, p, s);
    }
    AllFit(fits, PenAfter, addrs, pen);
    ManyRoundTrip(ReadAddress, PutAddress, PenAfter, fits, addrs, [], pen, rest);
    Seqs.NoneLeft(addrs);
  }

  // ---------- the table is the log of inline addresses ----------

  /** The addresses of `log` under the ids 0, 1, 2, ... */
  ghost predicate IsLog(refs: Refs, log: seq<Address>) {
    && |log| <= 0x1_0000_0000
    && refs.id == |log| % 0x1_0000_0000
    && refs.addrs == map i: uint32 | 0 <= i < |log| :: log[i]
  }

  /** An address is inline when its length byte is not zero. */
  predicate ReadsInline(st: State) {
    ReadAddress(st).Ok? && st.rest != [] && st.rest[0] != 0
  }

  /** The inline addresses among the next n, in the order read. */
  function InlineLog(n: nat, st: State): seq<Address> {
    if n == 0 || ReadAddress(st).Err? then []
    else
      var (a, st1) := ReadAddress(st).value;
      if ReadsInline(st) then [a] + InlineLog(n - 1, st1) else InlineLog(n - 1, st1)
  }

  lemma LogStep(st: State, log: seq<Address>)
    requires IsLog(st.refs, log) && ReadAddress(st).Ok?
    requires |log| < 0x1_0000_0000
    ensures var (a, st1) := ReadAddress(st).value;
      IsLog(st1.refs, if ReadsInline(st) then log + [a] else log)
  {
  }

  /** After any reads the table holds exactly the inline addresses, in order, under the ids 0..n-1. */
  lemma {:induction false} TableIsInlineLog(n: nat, acc: seq<Address>, st: State, log: seq<Address>)
    requires IsLog(st.refs, log) && ReadMany(ReadAddress, n, acc, st).Ok?
    requires |log| + |InlineLog(n, st)| < 0x1_0000_0000
    ensures IsLog(ReadMany(ReadAddress, n, acc, st).value.1.refs, log + InlineLog(n, st))
    decreases n
  {
    if n == 0 {
      assert log + InlineLog(n, st) == log;
    } else {
      var (a, st1) := ReadAddress(st).value;
      LogStep(st, log);
      var log1 := if ReadsInline(st) then log + [a] else log;
      TableIsInlineLog(n - 1, acc + [a], st1, log1);
      if ReadsInline(st) {
        Seqs.Assoc(log, [a], InlineLog(n - 1, st1));
      }
    }
  }

  /** An inline address keeps its value exactly when it has at most eight bytes or its value is zero;
      all sixteen-byte (IPv6) addresses are read as address 0. */
  lemma InlineValueIff(b: Bytes)
    ensures SliceToUint64(b) == BigEndian(b) <==> |b| <= 8 || BigEndian(b) == 0
  {
  }
}
