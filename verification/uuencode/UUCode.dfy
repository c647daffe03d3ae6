/** The text encoding of bytes in lines of at most 45, with backquote for zero (the historical algorithm of the
    uuencode utility in POSIX.1-2017). */
module UUCode {
  import Seqs

  type Bytes = seq<bv8>

  const NEWLINE: bv8 := 10
  const BACKQUOTE: bv8 := 96

  /** `Crash` is an index out of range in the decoder. */
  datatype Decoded = Ok(bytes: Bytes) | InvalidByte | Crash

  // ---------- encoding ----------

  function Enc(b: bv8): bv8 {
    if b == 0 then BACKQUOTE else b + 32
  }

  /** uuencodeBytes */
  function EncodeGroup(b0: bv8, b1: bv8, b2: bv8): Bytes {
    [Enc(b0 >> 2), Enc(((b0 & 0x3) << 4) | (b1 >> 4)), Enc(((b1 & 0x0F) << 2) | (b2 >> 6)), Enc(b2 & 0x3F)]
  }

  function EncodeGroups(b: Bytes): Bytes {
    if |b| < 3 then [] else EncodeGroup(b[0], b[1], b[2]) + EncodeGroups(b[3..])
  }

  function Zeros(n: nat): Bytes {
    seq(n, _ => 0)
  }

  function Missing(n: nat): (m: nat)
    ensures m < 3 && (n + m) % 3 == 0
  {
    if n % 3 == 0 then 0 else 3 - n % 3
  }

  /** The line with zeros up to a multiple of three. */
  function Padded(e: Bytes): (r: Bytes)
    ensures |r| % 3 == 0
  {
    e + Zeros(Missing(|e|))
  }

  /** uuencodeLine */
  function EncodeLine(e: Bytes): Bytes
    requires |e| <= 45
  {
    [Enc(|e| as bv8)] + EncodeGroups(Padded(e))
  }

  function LineLength(p: Bytes): nat {
    if |p| < 45 then |p| else 45
  }

  /** UUEncode: lines of 45 bytes, a shorter last one, and the line of a single backquote. */
  function Encode(p: Bytes): Bytes {
    if p == [] then [BACKQUOTE, NEWLINE]
    else EncodeLine(p[..LineLength(p)]) + [NEWLINE] + Encode(p[LineLength(p)..])
  }

  // ---------- decoding ----------

  predicate InRange(b: bv8) {
    32 <= b <= 96
  }

  /** uudecodeBytes after its range check */
  function DecodeGroup(b0: bv8, b1: bv8, b2: bv8, b3: bv8): Bytes {
    [((((b0 - 32) & 0x3F) << 2) & 0xFC) | ((((b1 - 32) & 0x3F) >> 4) & 0x3),
     ((((b1 - 32) & 0x3F) << 4) & 0xF0) | ((((b2 - 32) & 0x3F) >> 2) & 0xF),
     ((((b2 - 32) & 0x3F) << 6) & 0xC0) | ((b3 - 32) & 0x3F)]
  }

  /** The loop of uudecodeLine: a group cut short is an index out of range. */
  function DecodeGroups(e: Bytes, result: Bytes): Decoded
    decreases |e|
  {
    if e == [] then Ok(result)
    else if |e| < 4 then Crash
    else if !InRange(e[0]) || !InRange(e[1]) || !InRange(e[2]) || !InRange(e[3]) then InvalidByte
    else DecodeGroups(e[4..], result + DecodeGroup(e[0], e[1], e[2], e[3]))
  }

  /** result[:lenB]: longer results are cut; a shorter one shows the zeros of its buffer. */
  function Resliced(b: Bytes, n: nat): Bytes {
    if n <= |b| then b[..n] else b + Zeros(n - |b|)
  }

  /** uudecodeLine; the terminator line adds nothing. */
  function DecodeLine(e: Bytes): Decoded
    requires e != []
  {
    if e == [BACKQUOTE] then Ok([])
    else
      var d := DecodeGroups(e[1..], []);
      if d.Ok? then Ok(Resliced(d.bytes, (e[0] - 32) as nat)) else d
  }

  /** bytes.Split at newlines, with the bytes of the current line so far. */
  function Split(e: Bytes, line: Bytes): (r: seq<Bytes>)
    ensures r != []
    decreases |e|
  {
    if e == [] then [line]
    else if e[0] == NEWLINE then [line] + Split(e[1..], [])
    else Split(e[1..], line + [e[0]])
  }

  /** The loop of UUDecode: an empty line or a line with a bad length byte ends it without an error. */
  function DecodeLines(lines: seq<Bytes>, result: Bytes): Decoded {
    if lines == [] || lines[0] == [] || !InRange(lines[0][0]) then Ok(result)
    else
      var d := DecodeLine(lines[0]);
      if d.Ok? then DecodeLines(lines[1..], result + d.bytes) else d
  }

  function Decode(e: Bytes): Decoded {
    DecodeLines(Split(e, []), [])
  }

  // ---------- one group, one line ----------

  predicate Printable(b: bv8) {
    33 <= b <= 96
  }

  predicate AllPrintable(b: Bytes) {
    forall i :: 0 <= i < |b| ==> Printable(b[i])
  }

  lemma GroupRoundTrip(b0: bv8, b1: bv8, b2: bv8)
    ensures var g := EncodeGroup(b0, b1, b2);
      AllPrintable(g) && DecodeGroup(g[0], g[1], g[2], g[3]) == [b0, b1, b2]
  {
  }

  /** The six bits a character stands for. */
  function Six(c: bv8): bv24 {
    if c == BACKQUOTE then 0 else (c - 32) as bv24
  }

  /** The four characters spell the 24 bits of the three bytes, the first ones first. */
  lemma GroupSpells(b0: bv8, b1: bv8, b2: bv8)
    ensures var g := EncodeGroup(b0, b1, b2);
      (Six(g[0]) << 18) | (Six(g[1]) << 12) | (Six(g[2]) << 6) | Six(g[3])
      == ((b0 as bv24) << 16) | ((b1 as bv24) << 8) | (b2 as bv24)
  {
  }

  /** Decoding a group reads its 24 bits in the same order; space and backquote are both zero. */
  lemma GroupReads(c0: bv8, c1: bv8, c2: bv8, c3: bv8)
    requires InRange(c0) && InRange(c1) && InRange(c2) && InRange(c3)
    ensures var b := DecodeGroup(c0, c1, c2, c3);
      |b| == 3 && ((b[0] as bv24) << 16) | ((b[1] as bv24) << 8) | (b[2] as bv24)
        == (Six(c0) << 18) | (Six(c1) << 12) | (Six(c2) << 6) | Six(c3)
  {
  }

  ghost predicate AllIn(e: Bytes, n: nat)
    requires n <= |e|
  {
    forall i :: 0 <= i < n ==> InRange(e[i])
  }

  lemma AllInGroup(e: Bytes, n: nat)
    requires 4 <= n <= |e|
    ensures AllIn(e, n) <==> InRange(e[0]) && InRange(e[1]) && InRange(e[2]) && InRange(e[3]) && AllIn(e[4..], n - 4)
  {
    assert forall i :: 4 <= i < n ==> e[i] == e[4..][i - 4];
  }

  /** Groups decode exactly when they are whole and every byte is in 32..96; the first whole group with another byte is
      an error, and without one a group cut short is an index out of range. */
  lemma {:induction false} GroupsDecodeIff(e: Bytes, result: Bytes)
    ensures var d, whole := DecodeGroups(e, result), |e| - |e| % 4;
      && (d.Ok? <==> AllIn(e, whole) && whole == |e|)
      && (d.InvalidByte? <==> !AllIn(e, whole))
      && (d.Ok? ==> |d.bytes| == |result| + |e| / 4 * 3)
    decreases |e|
  {
    if |e| >= 4 {
      AllInGroup(e, |e| - |e| % 4);
      GroupsDecodeIff(e[4..], result + DecodeGroup(e[0], e[1], e[2], e[3]));
    }
  }

  /** What follows the first empty line or bad length byte is ignored. */
  lemma {:induction false} LinesStop(lines: seq<Bytes>, k: nat, result: Bytes)
    requires k < |lines| && (lines[k] == [] || !(32 <= lines[k][0] <= 96))
    ensures DecodeLines(lines, result) == DecodeLines(lines[..k], result)
    decreases |lines|
  {
    if k > 0 && lines[0] != [] && InRange(lines[0][0]) {
      var d := DecodeLine(lines[0]);
      assert lines[..k][1..] == lines[1..][..k - 1];
      if d.Ok? {
        LinesStop(lines[1..], k - 1, result + d.bytes);
      }
    }
  }

  lemma {:induction false} GroupsRoundTrip(b: Bytes, result: Bytes)
    requires |b| % 3 == 0
    ensures DecodeGroups(EncodeGroups(b), result) == Ok(result + b)
    ensures AllPrintable(EncodeGroups(b)) && |EncodeGroups(b)| == |b| / 3 * 4
    decreases |b|
  {
    if b == [] {
      Seqs.NoneLeft(result);
    } else {
      var g, t := EncodeGroup(b[0], b[1], b[2]), EncodeGroups(b[3..]);
      GroupRoundTrip(b[0], b[1], b[2]);
      Seqs.Front(g, t);
      GroupsRoundTrip(b[3..], result + [b[0], b[1], b[2]]);
      assert result + [b[0], b[1], b[2]] + b[3..] == result + b;
    }
  }

  lemma LengthByte(n: nat)
    requires 1 <= n <= 45
    ensures Printable(Enc(n as bv8)) && Enc(n as bv8) != BACKQUOTE && (Enc(n as bv8) - 32) as nat == n
  {
  }

  lemma PaddedFacts(e: Bytes)
    ensures |Padded(e)| / 3 == (|e| + 2) / 3 && |e| <= |Padded(e)| && Padded(e)[..|e|] == e
  {
    Seqs.Front(e, Zeros(Missing(|e|)));
  }

  lemma LineOfGroups(first: bv8, groups: Bytes, b: Bytes, n: nat)
    requires Printable(first) && first != BACKQUOTE && (first - 32) as nat == n <= |b|
    requires DecodeGroups(groups, []) == Ok(b)
    ensures DecodeLine([first] + groups) == Ok(b[..n])
  {
    Seqs.Cons(first, groups);
  }

  lemma LineSize(e: Bytes)
    requires 1 <= |e| <= 45
    ensures AllPrintable(EncodeLine(e)) && |EncodeLine(e)| == (|e| + 2) / 3 * 4 + 1
  {
    LengthByte(|e|);
    PaddedFacts(e);
    GroupsRoundTrip(Padded(e), []);
  }

  lemma LineRoundTrip(e: Bytes)
    requires 1 <= |e| <= 45
    ensures DecodeLine(EncodeLine(e)) == Ok(e)
  {
    LengthByte(|e|);
    PaddedFacts(e);
    GroupsRoundTrip(Padded(e), []);
    Seqs.NoneLeft(Padded(e));
    LineOfGroups(Enc(|e| as bv8), EncodeGroups(Padded(e)), Padded(e), |e|);
  }

  // ---------- all lines ----------

  lemma {:induction false} SplitLine(b: Bytes, line: Bytes, rest: Bytes)
    requires forall i :: 0 <= i < |b| ==> b[i] != NEWLINE
    ensures Split(b + ([NEWLINE] + rest), line) == [line + b] + Split(rest, [])
    decreases |b|
  {
    if b == [] {
      assert b + ([NEWLINE] + rest) == [NEWLINE] + rest && line + b == line;
      Seqs.Cons(NEWLINE, rest);
    } else {
      assert (b + ([NEWLINE] + rest))[1..] == b[1..] + ([NEWLINE] + rest);
      SplitLine(b[1..], line + [b[0]], rest);
      Seqs.Shift(line, b);
    }
  }

  lemma LineStep(l: Bytes, rest: Bytes, b: Bytes, result: Bytes)
    requires l != [] && AllPrintable(l) && DecodeLine(l) == Ok(b)
    ensures DecodeLines(Split(l + [NEWLINE] + rest, []), result) == DecodeLines(Split(rest, []), result + b)
  {
    Seqs.Assoc(l, [NEWLINE], rest);
    SplitLine(l, [], rest);
    Seqs.NoneLeft(l);
    Seqs.Cons(l, Split(rest, []));
  }

  lemma FirstLine(p: Bytes, rest: Bytes, result: Bytes)
    requires p != []
    ensures var n := LineLength(p);
      DecodeLines(Split(Encode(p) + rest, []), result) == DecodeLines(Split(Encode(p[n..]) + rest, []), result + p[..n])
  {
    var n := LineLength(p);
    var l, t := EncodeLine(p[..n]), Encode(p[n..]);
    LineRoundTrip(p[..n]);
    LineSize(p[..n]);
    Seqs.Assoc(l + [NEWLINE], t, rest);
    LineStep(l, t + rest, p[..n], result);
  }

  /** Decoding goes on behind the encoding of p, whatever follows it, with p appended to the result. */
  lemma {:induction false} DecodeFrom(p: Bytes, rest: Bytes, result: Bytes)
    ensures DecodeLines(Split(Encode(p) + rest, []), result) == DecodeLines(Split(rest, []), result + p)
    decreases |p|
  {
    if p == [] {
      Seqs.Assoc([BACKQUOTE], [NEWLINE], rest);
      SplitLine([BACKQUOTE], [], rest);
      Seqs.NoneLeft(result);
      Seqs.Cons([BACKQUOTE], Split(rest, []));
    } else {
      var n := LineLength(p);
      FirstLine(p, rest, result);
      DecodeFrom(p[n..], rest, result + p[..n]);
      Seqs.Cut(result, p, n);
    }
  }

  /** Every byte string is recovered from its encoding. */
  lemma RoundTrip(p: Bytes)
    ensures Decode(Encode(p)) == Ok(p)
  {
    DecodeFrom(p, [], []);
    Seqs.NoneLeft(Encode(p));
    Seqs.NoneLeft(p);
  }

  /** Encodings written one after the other decode to the bytes written one after the other:
      the terminator line does not end the decoding. */
  lemma RoundTripConcat(p: Bytes, q: Bytes)
    ensures Decode(Encode(p) + Encode(q)) == Ok(p + q)
  {
    DecodeFrom(p, Encode(q), []);
    DecodeFrom(q, [], [] + p);
    Seqs.NoneLeft(Encode(q));
    Seqs.NoneLeft(p);
  }

  /** Only newlines and the 64 characters from '!' to '`' are written. */
  lemma {:induction false} EncodedBytes(p: Bytes)
    ensures forall i :: 0 <= i < |Encode(p)| ==> Encode(p)[i] == NEWLINE || Printable(Encode(p)[i])
    decreases |p|
  {
    if p != [] {
      var n := LineLength(p);
      LineSize(p[..n]);
      EncodedBytes(p[n..]);
    }
  }

  /** The text of one line of n bytes: its groups, the length byte and the newline. */
  function LineText(n: nat): nat {
    (n + 2) / 3 * 4 + 2
  }

  /** The length of the text for n bytes, line by line. */
  function TextLength(n: nat): nat {
    if n == 0 then 2 else if n < 45 then LineText(n) + 2 else 62 + TextLength(n - 45)
  }

  /** 62 bytes for every full line, 4 for every started group of three in the last line and 2 around them, 2 to end. */
  function ClosedLength(n: nat): nat {
    n / 45 * 62 + (if n % 45 == 0 then 0 else (n % 45 + 2) / 3 * 4 + 2) + 2
  }

  lemma OneLineLess(n: nat)
    requires n >= 45
    ensures ClosedLength(n) == 62 + ClosedLength(n - 45)
  {
    assert n / 45 == (n - 45) / 45 + 1 && n % 45 == (n - 45) % 45;
  }

  lemma LastLine(n: nat)
    requires 0 < n < 45
    ensures ClosedLength(n) == LineText(n) + 2
  {
    assert n / 45 == 0 && n % 45 == n;
  }

  /** Whatever grows by 62 every 45 bytes and is right below 45 is the length. */
  lemma {:induction false} TextLengthIs(f: nat -> nat, n: nat)
    requires forall m :: m < 45 ==> f(m) == TextLength(m)
    requires forall m :: m >= 45 ==> f(m) == 62 + f(m - 45)
    ensures TextLength(n) == f(n)
  {
    if n >= 45 {
      TextLengthIs(f, n - 45);
    }
  }

  lemma TextLengthClosed(n: nat)
    ensures TextLength(n) == ClosedLength(n)
  {
    forall m: nat | m < 45 ensures ClosedLength(m) == TextLength(m) {
      if m > 0 {
        LastLine(m);
      }
    }
    forall m: nat | m >= 45 ensures ClosedLength(m) == 62 + ClosedLength(m - 45) {
      OneLineLess(m);
    }
    TextLengthIs(ClosedLength, n);
  }

  lemma FirstLineSize(p: Bytes)
    requires p != []
    ensures |Encode(p)| == LineText(LineLength(p)) + |Encode(p[LineLength(p)..])|
  {
    LineSize(p[..LineLength(p)]);
  }

  lemma {:induction false} LineByLine(p: Bytes)
    ensures |Encode(p)| == TextLength(|p|)
    decreases |p|
  {
    if |p| >= 45 {
      FirstLineSize(p);
      LineByLine(p[45..]);
    } else if p != [] {
      FirstLineSize(p);
      assert p[|p|..] == [];
    }
  }

  /** The length of the encoding. */
  lemma EncodedLength(p: Bytes)
    ensures |Encode(p)| == ClosedLength(|p|)
  {
    LineByLine(p);
    TextLengthClosed(|p|);
  }

  /** "Cat", and one byte, which is padded. */
  lemma EncodeExamples()
    ensures Encode([67, 97, 116]) == [35, 48, 86, 37, 84, 10, 96, 10]
    ensures Encode([67]) == [33, 48, 80, 96, 96, 10, 96, 10]
  {
    var cat: Bytes := [67, 97, 116];
    assert Zeros(0) == [] && cat + [] == cat && cat[..3] == cat && cat[3..] == [];
    assert EncodeGroups(cat) == EncodeGroup(67, 97, 116) + EncodeGroups(cat[3..]);
    var c: Bytes := [67];
    assert Zeros(2) == [0, 0] && c + [0, 0] == [67, 0, 0] && c[..1] == c && c[1..] == [];
    assert EncodeGroups([67, 0, 0]) == EncodeGroup(67, 0, 0) + EncodeGroups([67, 0, 0][3..]);
  }
}

/** The encoder and decoder as the package has them. */
module UUWriter {
  import Seqs
  import opened UUCode

  lemma {:induction false} GroupsConcat(a: Bytes, b: Bytes)
    requires |a| % 3 == 0
    ensures EncodeGroups(a + b) == EncodeGroups(a) + EncodeGroups(b)
    decreases |a|
  {
    if a == [] {
      assert a + b == b;
    } else {
      GroupsConcat(a[3..], b);
      assert (a + b)[3..] == a[3..] + b;
      Seqs.Assoc(EncodeGroup(a[0], a[1], a[2]), EncodeGroups(a[3..]), EncodeGroups(b));
    }
  }

  /** copy(ret[at:at+4], g) */
  method CopyGroup(ret: array<bv8>, at: nat, g: Bytes)
    requires |g| == 4 && at + 4 <= ret.Length
    modifies ret
    ensures ret[..at + 4] == old(ret[..at]) + g
  {
    ret[at], ret[at + 1], ret[at + 2], ret[at + 3] := g[0], g[1], g[2], g[3];
  }

  /** The loop of uuencodeLine: group i of the input goes behind the length byte and the groups before it. */
  method FillGroups(ret: array<bv8>, local: Bytes, groups: nat)
    requires |local| == 3 * groups && ret.Length == 4 * groups + 1
    modifies ret
    ensures ret[..] == [old(ret[0])] + EncodeGroups(local)
  {
    ghost var first := ret[0];
    ghost var done: Bytes := [];
    for i := 0 to groups
      invariant ret[..4 * i + 1] == [first] + done && done == EncodeGroups(local[..3 * i])
    {
      var g := EncodeGroup(local[3 * i], local[3 * i + 1], local[3 * i + 2]);
      AppendGroup(local, i);
      CopyGroup(ret, 4 * i + 1, g);
      Seqs.Assoc([first], done, g);
      done := done + g;
    }
    assert local[..3 * groups] == local;
    assert ret[..] == ret[..4 * groups + 1];
  }

  /** uuencodeLine */
  method EncodeLineInto(e: Bytes) returns (ret: array<bv8>)
    requires |e| <= 45
    ensures fresh(ret) && ret[..] == EncodeLine(e)
  {
    var local := Padded(e);
    var groups := |local| / 3;
    ret := new bv8[groups * 4 + 1];
    ret[0] := Enc(|e| as bv8);
    FillGroups(ret, local, groups);
  }

  lemma AppendGroup(local: Bytes, i: nat)
    requires 3 * i + 3 <= |local|
    ensures EncodeGroups(local[..3 * i + 3])
         == EncodeGroups(local[..3 * i]) + EncodeGroup(local[3 * i], local[3 * i + 1], local[3 * i + 2])
  {
    var g := [local[3 * i], local[3 * i + 1], local[3 * i + 2]];
    assert local[..3 * i + 3] == local[..3 * i] + g;
    GroupsConcat(local[..3 * i], g);
    assert EncodeGroups(g) == EncodeGroup(g[0], g[1], g[2]) + EncodeGroups(g[3..]);
    Seqs.NoneLeft(EncodeGroup(g[0], g[1], g[2]));
  }

  /** UUEncode: what it writes decodes to what it was given. */
  method UUEncode(p: Bytes) returns (results: Bytes)
    ensures results == Encode(p) && Decode(results) == Ok(p)
  {
    results := [];
    var i := 0;
    assert p[0..] == p;
    Seqs.NoneLeft(Encode(p));
    while i < |p|
      invariant 0 <= i <= |p| && results + Encode(p[i..]) == Encode(p)
    {
      var n := if |p| - i < 45 then |p| - i else 45;
      ghost var q := p[i..];
      assert q[..n] == p[i..i + n] && q[n..] == p[i + n..] && LineLength(q) == n;
      var line := EncodeLineInto(p[i..i + n]);
      Seqs.Assoc(results, line[..] + [NEWLINE], Encode(q[n..]));
      Seqs.Assoc(results, line[..], [NEWLINE]);
      results := results + line[..] + [NEWLINE];
      i := i + n;
    }
    assert p[i..] == [];
    results := results + [BACKQUOTE, NEWLINE];
    RoundTrip(p);
  }

  /** The loop of uudecodeLine. */
  method DecodeLineInto(e: Bytes) returns (d: Decoded)
    requires e != []
    ensures d == DecodeLine(e)
  {
    if e == [BACKQUOTE] { return Ok([]); }
    var body := e[1..];
    var result: Bytes := [];
    var i := 0;
    while i < |body|
      invariant 0 <= i <= |body| && DecodeGroups(body[i..], result) == DecodeGroups(body, [])
    {
      if |body| < i + 4 { return Crash; }
      if !InRange(body[i]) || !InRange(body[i + 1]) || !InRange(body[i + 2]) || !InRange(body[i + 3]) {
        return InvalidByte;
      }
      assert body[i..][4..] == body[i + 4..];
      result := result + DecodeGroup(body[i], body[i + 1], body[i + 2], body[i + 3]);
      i := i + 4;
    }
    d := Ok(Resliced(result, (e[0] - 32) as nat));
  }

  /** UUDecode: any number of encodings one after the other give back what was encoded. */
  method UUDecode(e: Bytes) returns (d: Decoded)
    ensures d == Decode(e)
    ensures forall p, q {:trigger Encode(p), Encode(q)} :: e == Encode(p) + Encode(q) ==> d == Ok(p + q)
  {
    forall p, q {:trigger Encode(p), Encode(q)} | e == Encode(p) + Encode(q) ensures Decode(e) == Ok(p + q) {
      RoundTripConcat(p, q);
    }
    var lines := Split(e, []);
    var result: Bytes := [];
    for i := 0 to |lines|
      invariant DecodeLines(lines[i..], result) == Decode(e)
    {
      assert lines[i..][1..] == lines[i + 1..];
      var line := lines[i];
      if line == [] || !InRange(line[0]) { return Ok(result); }
      var ue := DecodeLineInto(line);
      if !ue.Ok? { return ue; }
      result := result + ue.bytes;
    }
    d := Ok(result);
  }

  class UUDecodingWriter {
    var b: Bytes

    constructor ()
      ensures b == []
    {
      b := [];
    }

    /** Write decodes first: a failed write leaves the buffer as it was. */
    method Write(p: Bytes) returns (n: nat, d: Decoded)
      modifies this
      ensures d == Decode(p)
      ensures b == if d.Ok? then old(b) + d.bytes else old(b)
      ensures n == if d.Ok? then |d.bytes| else 0
    {
      d := UUDecode(p);
      n := 0;
      if d.Ok? {
        b := b + d.bytes;
        n := |d.bytes|;
      }
    }
  }
}
