/** Cache keys: fields joined by underscores, the last two of them decimal numbers. */
module CacheKeys {
  import opened Common

  function Digit(d: nat): char
    requires d < 10
  {
    ['0', '1', '2', '3', '4', '5', '6', '7', '8', '9'][d]
  }

  /** Decimal notation without leading zeros. */
  function Decimal(n: nat): (s: string)
    ensures |s| >= 1
  {
    if n < 10 then [Digit(n)] else Decimal(n / 10) + [Digit(n % 10)]
  }

  function Key(prefix: string, site: string, a: nat, b: nat): string {
    prefix + "_" + site + "_" + Decimal(a) + "_" + Decimal(b)
  }

  /** The traceroute key has no site. */
  function PairKey(prefix: string, a: nat, b: nat): string {
    prefix + "_" + Decimal(a) + "_" + Decimal(b)
  }

  /** The number a string of decimal digits stands for. */
  ghost function Denoted(s: string): int {
    if s == [] then 0 else 10 * Denoted(s[..|s| - 1]) + (s[|s| - 1] as int - '0' as int)
  }

  lemma DigitDenotes(d: nat)
    requires d < 10
    ensures Digit(d) as int - '0' as int == d
  {
  }

  /** Decimal notation consists of digits, stands for the number, and starts with zero only for zero itself. */
  lemma {:induction false} DecimalDenotes(n: nat)
    ensures Denoted(Decimal(n)) == n && (forall c :: c in Decimal(n) ==> '0' <= c <= '9')
    ensures Decimal(n)[0] == '0' <==> n == 0
  {
    DigitDenotes(n % 10);
    if n >= 10 {
      DecimalDenotes(n / 10);
      assert Decimal(n)[..|Decimal(n)| - 1] == Decimal(n / 10);
    }
  }

  /** What the keys look like. */
  lemma KeyExamples()
    ensures Key("XRRP", "mia", 10, 7) == "XRRP_mia_10_7" && PairKey("XXTR", 10, 7) == "XXTR_10_7"
  {
    assert Decimal(10) == "10" && Decimal(7) == "7";
  }

  lemma DigitIs(d: nat, e: nat)
    requires d < 10 && e < 10
    ensures Digit(d) != '_' && (Digit(d) == Digit(e) ==> d == e)
  {
  }

  lemma {:induction false} NoUnderscore(n: nat)
    ensures '_' !in Decimal(n)
  {
    DigitIs(n % 10, 0);
    if n >= 10 {
      NoUnderscore(n / 10);
    }
  }

  lemma LastSame(u: string, x: char, v: string, y: char)
    requires u + [x] == v + [y]
    ensures u == v && x == y
  {
    assert |u| == |v|;
    assert u == (u + [x])[..|u|] && v == (v + [y])[..|v|];
    assert (u + [x])[|u|] == x && (v + [y])[|v|] == y;
  }

  lemma DivSame(m: nat, n: nat)
    requires m / 10 == n / 10 && m % 10 == n % 10
    ensures m == n
  {
  }

  lemma {:induction false} DecimalLonger(n: nat)
    requires n >= 10
    ensures |Decimal(n)| >= 2
  {
  }

  lemma {:induction false} DecimalUnique(m: nat, n: nat)
    requires Decimal(m) == Decimal(n)
    ensures m == n
    decreases m
  {
    DigitIs(m % 10, n % 10);
    if m < 10 && n < 10 {
      assert Decimal(m)[0] == Decimal(n)[0];
    } else if m >= 10 && n >= 10 {
      LastSame(Decimal(m / 10), Digit(m % 10), Decimal(n / 10), Digit(n % 10));
      DecimalUnique(m / 10, n / 10);
      DivSame(m, n);
    } else if m >= 10 {
      DecimalLonger(m);
    } else {
      DecimalLonger(n);
    }
  }

  /** A last field without underscores is determined by the whole. */
  lemma {:induction false} LastField(u: string, d: string, v: string, e: string)
    requires u + "_" + d == v + "_" + e && '_' !in d && '_' !in e
    ensures u == v && d == e
    decreases |d|
  {
    if d == [] || e == [] {
      LastFieldEmpty(u, d, v, e);
    } else {
      var d', x, e', y := d[..|d| - 1], d[|d| - 1], e[..|e| - 1], e[|e| - 1];
      assert d == d' + [x] && e == e' + [y];
      assert u + "_" + d == (u + "_" + d') + [x] && v + "_" + e == (v + "_" + e') + [y];
      LastSame(u + "_" + d', x, v + "_" + e', y);
      LastField(u, d', v, e');
    }
  }

  lemma LastFieldEmpty(u: string, d: string, v: string, e: string)
    requires u + "_" + d == v + "_" + e && '_' !in d && '_' !in e && (d == [] || e == [])
    ensures u == v && d == e
  {
    LastChar(u, d);
    LastChar(v, e);
    if d == [] && e == [] {
      assert u + "_" + d == u + ['_'] && v + "_" + e == v + ['_'];
      LastSame(u, '_', v, '_');
    }
  }

  lemma LastChar(u: string, d: string)
    ensures var s := u + "_" + d; s[|s| - 1] == if d == [] then '_' else d[|d| - 1]
  {
  }

  lemma FrontSame(p: string, u: string, v: string)
    requires p + u == p + v
    ensures u == v
  {
    assert u == (p + u)[|p|..] && v == (p + v)[|p|..];
  }

  /** Distinct triples have distinct keys, whatever the sites contain. */
  lemma KeyUnique(prefix: string, site: string, a: nat, b: nat, site': string, a': nat, b': nat)
    requires Key(prefix, site, a, b) == Key(prefix, site', a', b')
    ensures site == site' && a == a' && b == b'
  {
    NoUnderscore(a);
    NoUnderscore(b);
    NoUnderscore(a');
    NoUnderscore(b');
    LastField(prefix + "_" + site + "_" + Decimal(a), Decimal(b), prefix + "_" + site' + "_" + Decimal(a'), Decimal(b'));
    LastField(prefix + "_" + site, Decimal(a), prefix + "_" + site', Decimal(a'));
    FrontSame(prefix + "_", site, site');
    DecimalUnique(a, a');
    DecimalUnique(b, b');
  }

  lemma PairKeyUnique(prefix: string, a: nat, b: nat, a': nat, b': nat)
    requires PairKey(prefix, a, b) == PairKey(prefix, a', b')
    ensures a == a' && b == b'
  {
    NoUnderscore(a);
    NoUnderscore(b);
    NoUnderscore(a');
    NoUnderscore(b');
    LastField(prefix + "_" + Decimal(a), Decimal(b), prefix + "_" + Decimal(a'), Decimal(b'));
    LastField(prefix, Decimal(a), prefix, Decimal(a'));
    DecimalUnique(a, a');
    DecimalUnique(b, b');
  }
}
