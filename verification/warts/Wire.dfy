/** Fixed-width integers, strings and the basic reads of the warts package.
    A reader is first written as a function from the unread bytes to a value and the bytes after it;
    its partner `Put...` writes the value in front of whatever follows. */
module WartsWire {
  import opened Common

  newtype uint8 = x: int | 0 <= x < 0x100
  type uint16 = x: int | 0 <= x < 0x1_0000
  type uint64 = x: int | 0 <= x < 0x1_0000_0000_0000_0000

  type Bytes = seq<uint8>

  /** `Eof` is io.EOF passed on unchanged; every other error is `Malformed`. */
  datatype Error = Eof | Malformed

  datatype Res<+T> = Ok(value: T) | Err(error: Error) {
    predicate IsFailure() { Err? }
    function PropagateFailure<U>(): Res<U>
      requires Err?
    { Err(error) }
    function Extract(): T
      requires Ok?
    { value }
  }

  // ---------- reading ----------

  /** bytes.Buffer.Read of n bytes, as readBytes uses it. */
  function ReadBytes(s: Bytes, n: nat): Res<(Bytes, Bytes)> {
    if n == 0 then Ok(([], s))
    else if s == [] then Err(Eof)
    else if |s| < n then Err(Malformed)
    else Ok((s[..n], s[n..]))
  }

  /** readUint8, readUint16 and readUint32 hide io.EOF behind an error of their own. */
  function Wrapped<T>(r: Res<T>): Res<T> {
    if r.Err? then Err(Malformed) else r
  }

  function GetUint16(b: Bytes): uint16
    requires |b| == 2
  {
    b[0] as int * 0x100 + b[1] as int
  }

  function GetUint32(b: Bytes): uint32
    requires |b| == 4
  {
    b[0] as int * 0x100_0000 + b[1] as int * 0x1_0000 + b[2] as int * 0x100 + b[3] as int
  }

  function ReadOne(s: Bytes): Res<(uint8, Bytes)> {
    if s == [] then Err(Eof) else Ok((s[0], s[1..]))
  }

  function ReadUint8(s: Bytes): Res<(uint8, Bytes)> {
    Wrapped(ReadOne(s))
  }

  function ReadUint16(s: Bytes): Res<(uint16, Bytes)> {
    var (b, s1) :- Wrapped(ReadBytes(s, 2));
    Ok((GetUint16(b), s1))
  }

  function ReadUint32(s: Bytes): Res<(uint32, Bytes)> {
    var (b, s1) :- Wrapped(ReadBytes(s, 4));
    Ok((GetUint32(b), s1))
  }

  /** Microseconds are converted to a signed 32-bit value. */
  function AsInt32(n: uint32): int {
    if n < 0x8000_0000 then n else n - 0x1_0000_0000
  }

  function ReadTimeVal(s: Bytes): Res<((uint32, int), Bytes)> {
    var (sec, s1) :- ReadUint32(s);
    var (usec, s2) :- ReadUint32(s1);
    Ok(((sec, AsInt32(usec)), s2))
  }

  /** The bytes before the first zero; all input is gone when there is none. */
  function GetString(s: Bytes, buf: Bytes): Res<(Bytes, Bytes)> {
    if s == [] then Err(Eof)
    else if s[0] == 0 then Ok((buf, s[1..]))
    else GetString(s[1..], buf + [s[0]])
  }

  // ---------- writing ----------

  function PutUint16(n: uint16, rest: Bytes): Bytes {
    [(n / 0x100) as uint8, (n % 0x100) as uint8] + rest
  }

  function PutUint32(n: uint32, rest: Bytes): Bytes {
    [(n / 0x100_0000) as uint8, (n / 0x1_0000 % 0x100) as uint8, (n / 0x100 % 0x100) as uint8, (n % 0x100) as uint8] + rest
  }

  // The writers are total: a number that does not fit its field is written as zero.

  function ToUint8(n: int): uint8 {
    if 0 <= n < 0x100 then n as uint8 else 0
  }

  function ToUint16(n: int): uint16 {
    if 0 <= n < 0x1_0000 then n else 0
  }

  function ToUint32(n: int): uint32 {
    if 0 <= n < 0x1_0000_0000 then n else 0
  }

  function PutTimeVal(sec: nat, usec: int, rest: Bytes): Bytes {
    PutUint32(ToUint32(sec), PutUint32(ToUint32(if usec < 0 then usec + 0x1_0000_0000 else usec), rest))
  }

  predicate ZeroFree(b: Bytes) {
    forall i :: 0 <= i < |b| ==> b[i] != 0
  }

  function PutString(b: Bytes, rest: Bytes): Bytes {
    b + [0] + rest
  }

  // ---------- what is written is read back ----------

  lemma Uint16RoundTrip(n: uint16, rest: Bytes)
    ensures ReadUint16(PutUint16(n, rest)) == Ok((n, rest))
  {
    var s := PutUint16(n, rest);
    assert s[..2] == [(n / 0x100) as uint8, (n % 0x100) as uint8] && s[2..] == rest;
  }

  lemma Uint32Digits(n: uint32)
    ensures n / 0x100_0000 < 0x100
    ensures n == n / 0x100_0000 * 0x100_0000 + n / 0x1_0000 % 0x100 * 0x1_0000 + n / 0x100 % 0x100 * 0x100 + n % 0x100
  {
    var h := n / 0x1_0000;
    assert n / 0x100 / 0x100 == h && h / 0x100 == n / 0x100_0000;
  }

  lemma Uint32RoundTrip(n: uint32, rest: Bytes)
    ensures ReadUint32(PutUint32(n, rest)) == Ok((n, rest))
  {
    Uint32Digits(n);
    var s := PutUint32(n, rest);
    assert s[..4] == s[..1] + s[1..2] + s[2..3] + s[3..4] && s[4..] == rest;
  }

  lemma TimeValRoundTrip(sec: uint32, usec: int, rest: Bytes)
    requires -0x8000_0000 <= usec < 0x8000_0000
    ensures ReadTimeVal(PutTimeVal(sec, usec, rest)) == Ok(((sec, usec), rest))
  {
    var u: uint32 := if usec < 0 then usec + 0x1_0000_0000 else usec;
    Uint32RoundTrip(sec, PutUint32(u, rest));
    Uint32RoundTrip(u, rest);
  }

  lemma {:induction false} StringRoundTrip(b: Bytes, buf: Bytes, rest: Bytes)
    requires ZeroFree(b)
    ensures GetString(PutString(b, rest), buf) == Ok((buf + b, rest))
  {
    var s := PutString(b, rest);
    if b == [] {
      assert s[1..] == rest && buf + b == buf;
    } else {
      assert s[1..] == PutString(b[1..], rest);
      StringRoundTrip(b[1..], buf + [b[0]], rest);
      assert buf + [b[0]] + b[1..] == buf + b;
    }
  }

  /** A string read stops right after the first zero byte, wherever that is, and fails exactly when there is none. */
  lemma {:induction false} GetStringExact(s: Bytes, buf: Bytes)
    ensures GetString(s, buf).Err? <==> ZeroFree(s)
    ensures GetString(s, buf).Err? ==> GetString(s, buf).error == Eof
    ensures GetString(s, buf).Ok? ==>
      var (b, rest) := GetString(s, buf).value;
      |buf| <= |b| && b[..|buf|] == buf && ZeroFree(b[|buf|..]) && s == PutString(b[|buf|..], rest)
    decreases |s|
  {
    if s != [] && s[0] != 0 {
      GetStringExact(s[1..], buf + [s[0]]);
      if GetString(s, buf).Ok? {
        var (b, rest) := GetString(s, buf).value;
        assert b[|buf|..] == [s[0]] + b[|buf| + 1..] by { assert b[|buf|] == b[..|buf| + 1][|buf|]; }
        assert b[..|buf|] == b[..|buf| + 1][..|buf|] == buf;
      }
    }
  }
}
