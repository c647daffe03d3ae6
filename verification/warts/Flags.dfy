/** The flag bitmap: seven flags a byte, bit 8 announcing one more byte. Flag numbers are naturals here;
    the eight-bit arithmetic of the reader is written out. */
module WartsFlags {
  import Seqs
  import opened Common
  import opened WartsWire

  /** isset: bit `pos` of the binary form, counted from 1. */
  predicate IsSet(val: nat, pos: nat)
    requires 1 <= pos
  {
    if pos == 1 then val % 2 == 1 else IsSet(val / 2, pos - 1)
  }

  /** The flag numbers of the bits i..7 of byte number `byteNum`. */
  function BitsFrom(check: nat, byteNum: nat, i: nat): seq<nat>
    requires 1 <= i <= 8 && 1 <= byteNum
    decreases check, 8 - i
  {
    if i == 8 then []
    else if IsSet(check, i) then [(7 * (byteNum - 1) + i) % 0x100] + BitsFrom(check, byteNum, i + 1)
    else BitsFrom(check, byteNum, i + 1)
  }

  /** getFlags, with the flags found so far in `ret`. */
  function GetFlags(check: uint8, byteNum: nat, ret: seq<nat>, s: Bytes): Res<(seq<nat>, Bytes)>
    requires 1 <= byteNum
    decreases |s|
  {
    var found := ret + BitsFrom(check as nat, byteNum, 1);
    if !IsSet(check as nat, 8) then Ok((found, s))
    else
      var (next, s1) :- ReadOne(s);
      GetFlags(next, byteNum + 1, found, s1)
  }

  // ---------- what a bitmap says, without eight-bit arithmetic ----------

  /** A run of bytes that ends with its first byte whose bit 8 is clear. */
  predicate IsBitmap(bytes: Bytes) {
    && bytes != []
    && if IsSet(bytes[0] as nat, 8) then IsBitmap(bytes[1..]) else |bytes| == 1
  }

  /** Flag f is bit (f-1)%7+1 of byte (f-1)/7. */
  predicate HasFlag(bytes: Bytes, f: int) {
    1 <= f <= 7 * |bytes| && IsSet(bytes[(f - 1) / 7] as nat, (f - 1) % 7 + 1)
  }

  function OneByte(b: nat, base: nat, i: nat): seq<nat>
    requires 1 <= i <= 8
    decreases b, 8 - i
  {
    if i == 8 then []
    else if IsSet(b, i) then [base + i] + OneByte(b, base, i + 1)
    else OneByte(b, base, i + 1)
  }

  /** The flags of a bitmap in ascending order, each raised by `base`. */
  function Positions(bytes: Bytes, base: nat): seq<nat> {
    if bytes == [] then [] else OneByte(bytes[0] as nat, base, 1) + Positions(bytes[1..], base + 7)
  }

  predicate Increasing(fs: seq<nat>) {
    forall i, j :: 0 <= i < j < |fs| ==> fs[i] < fs[j]
  }

  function Wrap(fs: seq<nat>): seq<nat> {
    if fs == [] then [] else [fs[0] % 0x100] + Wrap(fs[1..])
  }

  lemma {:induction false} WrapConcat(a: seq<nat>, b: seq<nat>)
    ensures Wrap(a + b) == Wrap(a) + Wrap(b)
  {
    if a == [] {
      assert a + b == b;
    } else {
      WrapConcat(a[1..], b);
      assert (a + b)[1..] == a[1..] + b;
      Seqs.Assoc([a[0] % 0x100], Wrap(a[1..]), Wrap(b));
    }
  }

  lemma {:induction false} BitsWrap(b: nat, byteNum: nat, i: nat)
    requires 1 <= i <= 8 && 1 <= byteNum
    ensures BitsFrom(b, byteNum, i) == Wrap(OneByte(b, 7 * (byteNum - 1), i))
    decreases 8 - i
  {
    if i < 8 {
      BitsWrap(b, byteNum, i + 1);
      if IsSet(b, i) {
        Seqs.Cons(7 * (byteNum - 1) + i, OneByte(b, 7 * (byteNum - 1), i + 1));
      }
    }
  }

  lemma {:induction false} GetFlagsFrom(bytes: Bytes, byteNum: nat, ret: seq<nat>, rest: Bytes)
    requires IsBitmap(bytes) && 1 <= byteNum
    ensures GetFlags(bytes[0], byteNum, ret, bytes[1..] + rest)
         == Ok((ret + Wrap(Positions(bytes, 7 * (byteNum - 1))), rest))
  {
    var here := OneByte(bytes[0] as nat, 7 * (byteNum - 1), 1);
    var later := Positions(bytes[1..], 7 * byteNum);
    BitsWrap(bytes[0] as nat, byteNum, 1);
    WrapConcat(here, later);
    Seqs.Assoc(ret, Wrap(here), Wrap(later));
    var s := bytes[1..] + rest;
    if |bytes| == 1 {
      assert s == rest && later == [] && here + later == here;
    } else {
      assert s[0] == bytes[1..][0] && s[1..] == bytes[1..][1..] + rest;
      GetFlagsFrom(bytes[1..], byteNum + 1, ret + Wrap(here), rest);
    }
  }

  /** getFlags on any bitmap, whatever follows it: the flags set in it, ascending, each reduced to eight bits,
      and the input behind the first byte whose bit 8 is clear. */
  lemma GetFlagsReadsBitmap(bytes: Bytes, rest: Bytes)
    requires IsBitmap(bytes)
    ensures GetFlags(bytes[0], 1, [], bytes[1..] + rest) == Ok((Wrap(Positions(bytes, 0)), rest))
  {
    GetFlagsFrom(bytes, 1, [], rest);
    assert [] + Wrap(Positions(bytes, 0)) == Wrap(Positions(bytes, 0));
  }

  /** getFlags fails exactly when no byte ends the bitmap, and then with io.EOF. */
  lemma {:induction false} GetFlagsFails(check: uint8, byteNum: nat, ret: seq<nat>, s: Bytes)
    requires 1 <= byteNum
    ensures GetFlags(check, byteNum, ret, s).Err? <==> !exists n :: 0 <= n <= |s| && IsBitmap([check] + s[..n])
    ensures GetFlags(check, byteNum, ret, s).Err? ==> GetFlags(check, byteNum, ret, s).error == Eof
    ensures GetFlags(check, byteNum, ret, s).Ok? ==> |GetFlags(check, byteNum, ret, s).value.1| <= |s|
    decreases |s|
  {
    if !IsSet(check as nat, 8) {
      assert IsBitmap([check] + s[..0]);
    } else {
      forall n | 1 <= n <= |s| ensures IsBitmap([check] + s[..n]) <==> IsBitmap([s[0]] + s[1..][..n - 1]) {
        assert ([check] + s[..n])[1..] == [s[0]] + s[1..][..n - 1];
      }
      if s != [] {
        GetFlagsFails(s[0], byteNum + 1, ret + BitsFrom(check as nat, byteNum, 1), s[1..]);
        if m :| 0 <= m <= |s[1..]| && IsBitmap([s[0]] + s[1..][..m]) {
          assert IsBitmap([check] + s[..m + 1]);
        }
      }
    }
  }

  lemma {:induction false} OneByteIs(b: nat, base: nat, i: nat)
    requires 1 <= i <= 8
    ensures Increasing(OneByte(b, base, i))
    ensures forall f :: f in OneByte(b, base, i) <==> base + i <= f < base + 8 && IsSet(b, f - base)
    decreases 8 - i
  {
    if i < 8 {
      OneByteIs(b, base, i + 1);
      var t := OneByte(b, base, i + 1);
      if IsSet(b, i) {
        forall j | 0 <= j < |t| ensures base + i < t[j] { assert t[j] in t; }
      }
    }
  }

  /** The positions are exactly the set bits, in ascending order. */
  lemma {:induction false} PositionsAre(bytes: Bytes, base: nat)
    ensures Increasing(Positions(bytes, base))
    ensures forall f :: f in Positions(bytes, base) <==> HasFlag(bytes, f - base)
  {
    if bytes != [] {
      var here, later := OneByte(bytes[0] as nat, base, 1), Positions(bytes[1..], base + 7);
      OneByteIs(bytes[0] as nat, base, 1);
      PositionsAre(bytes[1..], base + 7);
      forall j | 0 <= j < |later| ensures base + 7 < later[j] { assert later[j] in later; }
      forall j | 0 <= j < |here| ensures here[j] < base + 8 { assert here[j] in here; }
      forall f ensures f in here + later <==> HasFlag(bytes, f - base) {
        HasFlagStep(bytes, f - base);
      }
    }
  }

  lemma HasFlagStep(bytes: Bytes, f: int)
    requires bytes != []
    ensures HasFlag(bytes, f) <==> if f < 8 then 1 <= f && IsSet(bytes[0] as nat, f) else HasFlag(bytes[1..], f - 7)
  {
    if 8 <= f <= 7 * |bytes| {
      assert (f - 1) / 7 == (f - 8) / 7 + 1 && (f - 1) % 7 == (f - 8) % 7;
    }
  }

  predicate Small(fs: seq<nat>) {
    forall f :: f in fs ==> f < 0x100
  }

  lemma SmallCons(f: nat, fs: seq<nat>)
    ensures Small([f] + fs) <==> f < 0x100 && Small(fs)
  {
    assert ([f] + fs)[0] == f && f in [f] + fs;
    assert forall g :: g in fs ==> g in [f] + fs;
    assert forall g :: g in [f] + fs ==> g == f || g in fs;
    if Small([f] + fs) {
      assert forall g :: g in fs ==> g < 0x100;
    }
  }

  lemma ConsSame(x: nat, a: seq<nat>, y: nat, b: seq<nat>)
    ensures [x] + a == [y] + b <==> x == y && a == b
  {
    Seqs.Cons(x, a);
    Seqs.Cons(y, b);
  }

  lemma {:induction false} WrapExactIff(fs: seq<nat>)
    ensures Wrap(fs) == fs <==> Small(fs)
  {
    if fs != [] {
      WrapExactIff(fs[1..]);
      assert fs == [fs[0]] + fs[1..];
      SmallCons(fs[0], fs[1..]);
      ConsSame(fs[0] % 0x100, Wrap(fs[1..]), fs[0], fs[1..]);
    }
  }

  /** The flag numbers come out exact precisely when every flag of the bitmap is below 256;
      36 bytes hold no others. */
  lemma FlagsExactIff(bytes: Bytes)
    ensures Wrap(Positions(bytes, 0)) == Positions(bytes, 0) <==> forall f :: HasFlag(bytes, f) ==> f < 0x100
    ensures |bytes| <= 36 ==> forall f :: HasFlag(bytes, f) ==> f < 0x100
  {
    WrapExactIff(Positions(bytes, 0));
    SmallPositions(bytes);
  }

  lemma SmallPositions(bytes: Bytes)
    ensures Small(Positions(bytes, 0)) <==> forall f :: HasFlag(bytes, f) ==> f < 0x100
  {
    PositionsAre(bytes, 0);
    forall f | HasFlag(bytes, f) ensures f in Positions(bytes, 0) { assert f == f - 0; }
  }

  // ---------- writing a bitmap ----------

  /** n flags from f on as bits, with `more` as the bit above them. */
  function Mask(keys: set<nat>, f: nat, n: nat, more: bool): (m: nat)
    ensures m < 2 * Pow2(n)
    decreases keys, n
  {
    if n == 0 then (if more then 1 else 0)
    else (if f in keys then 1 else 0) + 2 * Mask(keys, f + 1, n - 1, more)
  }

  /** The bitmap of the flags above `base`, in n bytes. */
  function Bitmap(keys: set<nat>, base: nat, n: nat): (b: Bytes)
    requires 1 <= n
    ensures |b| == n
    decreases n
  {
    assert Pow2(7) == 128;
    var b := Mask(keys, base + 1, 7, n > 1) as uint8;
    if n == 1 then [b] else [b] + Bitmap(keys, base + 7, n - 1)
  }

  /** The numbers of `keys` in lo..hi-1, ascending. */
  function Ascending(keys: set<nat>, lo: nat, hi: nat): seq<nat>
    decreases keys, hi - lo
  {
    if lo >= hi then []
    else if lo in keys then [lo] + Ascending(keys, lo + 1, hi)
    else Ascending(keys, lo + 1, hi)
  }

  lemma {:induction false} AscendingSplit(keys: set<nat>, lo: nat, mid: nat, hi: nat)
    requires lo <= mid <= hi
    ensures Ascending(keys, lo, hi) == Ascending(keys, lo, mid) + Ascending(keys, mid, hi)
    decreases mid - lo
  {
    if lo < mid {
      AscendingSplit(keys, lo + 1, mid, hi);
    }
  }

  lemma {:induction false} AscendingIs(keys: set<nat>, lo: nat, hi: nat)
    ensures Increasing(Ascending(keys, lo, hi))
    ensures forall f :: f in Ascending(keys, lo, hi) <==> f in keys && lo <= f < hi
    decreases hi - lo
  {
    if lo < hi {
      AscendingIs(keys, lo + 1, hi);
      var t := Ascending(keys, lo + 1, hi);
      forall j | 0 <= j < |t| ensures lo < t[j] { assert t[j] in t; }
    }
  }

  lemma {:induction false} MaskBits(keys: set<nat>, f: nat, n: nat, more: bool, i: nat)
    requires 1 <= i <= n + 1
    ensures IsSet(Mask(keys, f, n, more), i) <==> if i <= n then f + i - 1 in keys else more
    decreases n
  {
    if n > 0 && i > 1 {
      assert Mask(keys, f, n, more) / 2 == Mask(keys, f + 1, n - 1, more);
      MaskBits(keys, f + 1, n - 1, more, i - 1);
    }
  }

  lemma {:induction false} MaskPositions(keys: set<nat>, base: nat, more: bool, i: nat)
    requires 1 <= i <= 8
    ensures OneByte(Mask(keys, base + 1, 7, more), base, i) == Ascending(keys, base + i, base + 8)
    decreases 8 - i
  {
    if i < 8 {
      MaskPositions(keys, base, more, i + 1);
      MaskBits(keys, base + 1, 7, more, i);
    }
  }

  lemma {:induction false} BitmapPositions(keys: set<nat>, base: nat, n: nat)
    requires 1 <= n
    ensures IsBitmap(Bitmap(keys, base, n))
    ensures Positions(Bitmap(keys, base, n), base) == Ascending(keys, base + 1, base + 7 * n + 1)
    decreases n
  {
    var b := Bitmap(keys, base, n);
    MaskBits(keys, base + 1, 7, n > 1, 8);
    MaskPositions(keys, base, n > 1, 1);
    AscendingSplit(keys, base + 1, base + 8, base + 7 * n + 1);
    if n > 1 {
      assert b[1..] == Bitmap(keys, base + 7, n - 1);
      BitmapPositions(keys, base + 7, n - 1);
    }
  }

  /** The bytes needed for flags up to n. */
  function Span(keys: set<nat>, n: nat): (r: nat)
    ensures 1 <= r <= n / 7 + 1
    ensures forall f :: f in keys && f <= n ==> f <= 7 * r
    decreases keys, n
  {
    if n == 0 then 1 else if n in keys then (n - 1) / 7 + 1 else Span(keys, n - 1)
  }

  predicate SmallFlags(keys: set<nat>) {
    forall f :: f in keys ==> 1 <= f <= 34
  }

  /** The shortest bitmap of a set of flags. */
  function ShortBitmap(keys: set<nat>): (b: Bytes)
    ensures b != []
  {
    Bitmap(keys, 0, Span(keys, 34))
  }

  function FlagsOf(keys: set<nat>): seq<nat> {
    Ascending(keys, 1, 36)
  }

  lemma {:induction false} AscendingEmpty(keys: set<nat>, lo: nat, hi: nat)
    requires forall f :: f in keys ==> !(lo <= f < hi)
    ensures Ascending(keys, lo, hi) == []
    decreases hi - lo
  {
    if lo < hi {
      AscendingEmpty(keys, lo + 1, hi);
    }
  }

  lemma SmallFlagsAscending(keys: set<nat>, n: nat)
    requires SmallFlags(keys) && 1 <= n <= 5 && forall f :: f in keys ==> f <= 7 * n
    ensures Ascending(keys, 1, 7 * n + 1) == FlagsOf(keys) == Wrap(FlagsOf(keys))
  {
    AscendingSplit(keys, 1, 7 * n + 1, 36);
    AscendingEmpty(keys, 7 * n + 1, 36);
    AscendingIs(keys, 1, 36);
    WrapExactIff(FlagsOf(keys));
  }

  /** The shortest bitmap is read back as its flags in ascending order. */
  lemma BitmapRoundTrip(keys: set<nat>, rest: Bytes)
    requires SmallFlags(keys)
    ensures var b := ShortBitmap(keys); GetFlags(b[0], 1, [], b[1..] + rest) == Ok((FlagsOf(keys), rest))
  {
    var n := Span(keys, 34);
    BitmapPositions(keys, 0, n);
    GetFlagsReadsBitmap(ShortBitmap(keys), rest);
    SmallFlagsAscending(keys, n);
  }

  /** Flag 256 needs a 37th byte, and comes out as flag 0. */
  lemma FlagsWrapExample(keys: set<nat>, n: nat)
    requires keys == {256} && n == 37
    ensures var b := Bitmap(keys, 0, n); IsBitmap(b) && GetFlags(b[0], 1, [], b[1..] + []) == Ok(([0], []))
  {
    BitmapPositions(keys, 0, n);
    GetFlagsReadsBitmap(Bitmap(keys, 0, n), []);
    AscendingSplit(keys, 1, 256, 7 * n + 1);
    AscendingEmpty(keys, 1, 256);
    AscendingEmpty(keys, 257, 7 * n + 1);
    var p := Ascending(keys, 1, 7 * n + 1);
    assert p == [256] && p[1..] == [];
    assert Wrap(p) == [p[0] % 0x100] + Wrap(p[1..]) == [0];
  }
}
