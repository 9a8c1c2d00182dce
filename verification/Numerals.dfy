/** Decimal and hexadecimal text, and Python's `bytes.fromhex`. */
module Numerals {
  import opened Bytes

  type Base = b: nat | b == 10 || b == 16 witness 10

  /** What a character stands for as a digit, if anything. */
  function DigitValue(c: char): Option<nat> {
    if '0' <= c <= '9' then Some((c - '0') as nat)
    else if 'a' <= c <= 'f' then Some((c - 'a') as nat + 10)
    else if 'A' <= c <= 'F' then Some((c - 'A') as nat + 10)
    else None
  }

  predicate IsDigit(c: char, base: Base) {
    DigitValue(c).Some? && DigitValue(c).value < base
  }

  predicate AllDigits(s: string, base: Base) {
    forall i :: 0 <= i < |s| ==> IsDigit(s[i], base)
  }

  function Digit(n: nat): char
    requires n < 16
  {
    if n < 10 then '0' + n as char else 'a' + (n - 10) as char
  }

  function Value(s: string, base: Base): nat
    requires AllDigits(s, base)
  {
    if s == [] then 0 else base * Value(s[..|s| - 1], base) + DigitValue(s[|s| - 1]).value
  }

  /** The numeral without leading zeros. */
  function Digits(n: nat, base: Base): (s: string)
    ensures AllDigits(s, base) && |s| >= 1
  {
    if n < base then [Digit(n)] else Digits(n / base, base) + [Digit(n % base)]
  }

  function Zeroes(n: nat): (s: string)
    ensures |s| == n && forall base: Base :: AllDigits(s, base)
  {
    seq(n, _ => '0')
  }

  /** `padStart(width, '0')`: it never cuts. */
  function PadStart(s: string, width: nat): string {
    if |s| >= width then s else Zeroes(width - |s|) + s
  }

  function Pow(base: Base, k: nat): (p: nat)
    ensures p >= 1
  {
    if k == 0 then 1 else base * Pow(base, k - 1)
  }

  /** A numeral without leading zeros. */
  predicate IsWhole(s: string, base: Base) {
    s != [] && AllDigits(s, base) && (s[0] == '0' ==> |s| == 1)
  }

  lemma DigitReads(n: nat, base: Base)
    requires n < base
    ensures IsDigit(Digit(n), base) && DigitValue(Digit(n)) == Some(n) && (Digit(n) == '0' <==> n == 0)
  {
  }

  /** The sixteen digits, in either case ... */
  lemma DigitTable(v: nat)
    requires v < 16
    ensures Digit(v) == "0123456789abcdef"[v]
    ensures DigitValue("0123456789abcdef"[v]) == DigitValue("0123456789ABCDEF"[v]) == Some(v)
  {
  }

  /** ... and nothing else is one. */
  lemma DigitsInTable(c: char)
    ensures match DigitValue(c)
            case Some(v) => v < 16 && (c == "0123456789abcdef"[v] || c == "0123456789ABCDEF"[v])
            case None => c !in "0123456789abcdefABCDEF"
  {
  }

  /** A numeral is worth its digits, the later the less. */
  lemma {:induction false} ValueConcat(a: string, b: string, base: Base)
    requires AllDigits(a, base) && AllDigits(b, base)
    ensures AllDigits(a + b, base) && Value(a + b, base) == Value(a, base) * Pow(base, |b|) + Value(b, base)
  {
    hide DigitValue;
    if b == [] {
      assert a + b == a;
    } else {
      var front, c := b[..|b| - 1], b[|b| - 1];
      SplitAtLast(b, base);
      ValueAppends(front, c, base);
      ValueConcat(a, front, base);
      ValueAppends(a + front, c, base);
      assert (a + front) + [c] == a + b;
      Scaled(base, Value(a, base), Pow(base, |front|), Value(front, base), DigitValue(c).value);
    }
  }

  lemma Scaled(base: Base, x: nat, p: nat, y: nat, d: nat)
    ensures base * (x * p + y) + d == x * (base * p) + (base * y + d)
  {
    if base == 10 {
      assert 10 * (x * p + y) + d == x * (10 * p) + (10 * y + d);
    } else {
      assert 16 * (x * p + y) + d == x * (16 * p) + (16 * y + d);
    }
  }

  lemma ValueAppends(front: string, c: char, base: Base)
    requires AllDigits(front, base) && IsDigit(c, base)
    ensures AllDigits(front + [c], base) && Value(front + [c], base) == base * Value(front, base) + DigitValue(c).value
  {
    hide DigitValue;
    assert (front + [c])[..|front|] == front;
  }

  lemma Division(n: nat, base: Base)
    ensures base * (n / base) + n % base == n && n % base < base
  {
  }

  lemma {:induction false} DigitsRoundTrip(n: nat, base: Base)
    ensures Value(Digits(n, base), base) == n && IsWhole(Digits(n, base), base) && (n > 0 ==> Digits(n, base)[0] != '0')
  {
    hide Value, DigitValue, Digit;
    DigitReads(n % base, base);
    Division(n, base);
    if n < base {
      ValueAppends([], Digit(n), base);
      assert [] + [Digit(n)] == [Digit(n)];
      NoValue(base);
    } else {
      DigitsRoundTrip(n / base, base);
      ValueAppends(Digits(n / base, base), Digit(n % base), base);
    }
  }

  lemma NoValue(base: Base)
    ensures Value([], base) == 0
  {
  }

  lemma DigitsAppend(v: nat, d: nat, base: Base)
    requires d < base
    ensures Digits(base * v + d, base) == if v == 0 then [Digit(d)] else Digits(v, base) + [Digit(d)]
  {
    hide Digit, DigitValue, AllDigits;
    DivideExactly(v, d, base);
  }

  lemma DivideExactly(v: nat, d: nat, base: Base)
    requires d < base
    ensures (base * v + d) / base == v && (base * v + d) % base == d && (base * v + d < base <==> v == 0)
  {
    if base == 10 {
      assert (10 * v + d) / 10 == v;
    } else {
      assert (16 * v + d) / 16 == v;
    }
  }

  lemma {:induction false} ValueBound(s: string, base: Base)
    requires AllDigits(s, base)
    ensures Value(s, base) < Pow(base, |s|)
  {
    hide DigitValue;
    if s != [] {
      ValueBound(s[..|s| - 1], base);
      var v, p := Value(s[..|s| - 1], base), Pow(base, |s| - 1);
      assert if base == 10 then 10 * v + 10 <= 10 * p else 16 * v + 16 <= 16 * p;
    }
  }

  /** A number needs at most `k` digits exactly when it is below the base to the `k`. */
  lemma {:induction false} DigitsFit(n: nat, k: nat, base: Base)
    requires k >= 1
    ensures |Digits(n, base)| <= k <==> n < Pow(base, k)
  {
    if k == 1 {
      assert Pow(base, 1) == base * Pow(base, 0);
    } else if n >= base {
      DigitsFit(n / base, k - 1, base);
    } else {
      assert Pow(base, k - 1) >= 1;
    }
  }

  lemma {:induction false} ValueOfPadded(z: nat, s: string, base: Base)
    requires AllDigits(s, base)
    ensures AllDigits(Zeroes(z) + s, base) && Value(Zeroes(z) + s, base) == Value(s, base)
  {
    if s == [] {
      if z > 0 {
        ValueOfPadded(z - 1, [], base);
        assert (Zeroes(z) + [])[..z - 1] == Zeroes(z - 1) + [];
      }
    } else {
      var front := s[..|s| - 1];
      ValueOfPadded(z, front, base);
      assert (Zeroes(z) + s)[..z + |s| - 1] == Zeroes(z) + front;
    }
  }

  // ----- Decimal text is recovered -----

  lemma DigitOfValue(c: char)
    requires IsDigit(c, 10)
    ensures Digit(DigitValue(c).value) == c && (DigitValue(c).value == 0 <==> c == '0')
  {
  }

  lemma SplitAtLast(s: string, base: Base)
    requires AllDigits(s, base) && s != []
    ensures var front, c := s[..|s| - 1], s[|s| - 1];
      AllDigits(front, base) && IsDigit(c, base) && s == front + [c]
  {
    hide IsDigit;
  }

  lemma ValueSplits(s: string)
    requires AllDigits(s, 10) && s != []
    ensures var front, c := s[..|s| - 1], s[|s| - 1];
      && AllDigits(front, 10) && IsDigit(c, 10) && s == front + [c]
      && Value(s, 10) == 10 * Value(front, 10) + DigitValue(c).value
  {
    hide AllDigits, Value, DigitValue;
    SplitAtLast(s, 10);
    ValueAppends(s[..|s| - 1], s[|s| - 1], 10);
  }

  /** A numeral without leading zeros is what its value is written as. */
  lemma {:induction false} WholeRoundTrip(s: string)
    requires IsWhole(s, 10)
    ensures Digits(Value(s, 10), 10) == s && (s[0] != '0' ==> Value(s, 10) > 0)
  {
    hide Value, Digits, Digit, DigitValue;
    ValueSplits(s);
    DigitOfValue(s[|s| - 1]);
    var front, d := s[..|s| - 1], DigitValue(s[|s| - 1]).value;
    if front != [] {
      assert front[0] == s[0];
      WholeRoundTrip(front);
    } else {
      NoValue(10);
    }
    DigitsAppend(Value(front, 10), d, 10);
  }

  /** Digits of a fixed width are recovered by padding. */
  lemma {:induction false} PaddedRoundTrip(s: string)
    requires AllDigits(s, 10) && s != []
    ensures PadStart(Digits(Value(s, 10), 10), |s|) == s
  {
    hide Value, Digits, Digit, DigitValue, PadStart, Pow;
    ValueSplits(s);
    DigitOfValue(s[|s| - 1]);
    var front, c := s[..|s| - 1], s[|s| - 1];
    var d := DigitValue(c).value;
    DigitsAppend(Value(front, 10), d, 10);
    if front == [] {
      NoValue(10);
      PadsNothing([c]);
    } else {
      PaddedRoundTrip(front);
      ValueBound(front, 10);
      DigitsFit(Value(front, 10), |front|, 10);
      ZeroDigits(10);
      PadOneMore(Digits(Value(front, 10), 10), front, c, Digits(Value(s, 10), 10));
    }
  }

  lemma ZeroDigits(base: Base)
    ensures Digits(0, base) == ['0']
  {
  }

  lemma PadsNothing(s: string)
    ensures PadStart(s, |s|) == s
  {
  }

  lemma PadOneMore(d: string, front: string, c: char, longer: string)
    requires front != [] && 1 <= |d| <= |front| && PadStart(d, |front|) == front
    requires longer == d + [c] || (d == ['0'] && longer == [c])
    ensures PadStart(longer, |front| + 1) == front + [c]
  {
    if longer == d + [c] {
      assert PadStart(longer, |front| + 1) == Zeroes(|front| - |d|) + d + [c];
    } else {
      assert front == Zeroes(|front| - 1) + ['0'] == Zeroes(|front|);
      assert PadStart(longer, |front| + 1) == Zeroes(|front|) + [c];
    }
  }

  /** A number written with at least `width` digits keeps its value. */
  lemma PaddedValue(n: nat, width: nat, base: Base)
    ensures var s := PadStart(Digits(n, base), width);
      && AllDigits(s, base) && Value(s, base) == n
      && |s| == if |Digits(n, base)| <= width then width else |Digits(n, base)|
  {
    hide Digits, Value, DigitValue;
    DigitsRoundTrip(n, base);
    if |Digits(n, base)| < width {
      ValueOfPadded(width - |Digits(n, base)|, Digits(n, base), base);
    }
  }

  // ----- Bytes -----

  predicate IsBlank(c: char) {
    c == ' ' || '\t' <= c <= '\r'
  }

  /** `bytes.fromhex`: pairs of hex digits, with blanks allowed between them. */
  function FromHex(s: string): Option<bytes> {
    if s == [] then Some([])
    else if IsBlank(s[0]) then FromHex(s[1..])
    else if |s| < 2 then None
    else
      match (DigitValue(s[0]), DigitValue(s[1]), FromHex(s[2..]))
      case (Some(high), Some(low), Some(rest)) => Some([Octet(high, low)] + rest)
      case _ => None
  }

  function Octet(high: nat, low: nat): byte {
    (16 * high + low) % 256
  }

  lemma HexPair(x: char, y: char, rest: string)
    requires DigitValue(x).Some? && DigitValue(y).Some? && FromHex(rest).Some?
    ensures FromHex([x, y] + rest) == Some([Octet(DigitValue(x).value, DigitValue(y).value)] + FromHex(rest).value)
  {
    assert ([x, y] + rest)[2..] == rest;
  }

  lemma OctetIs(high: nat, low: nat)
    requires high < 16 && low < 16
    ensures Octet(high, low) as int == 16 * high + low
  {
  }

  lemma BlankSkipped(s: string)
    requires s != [] && IsBlank(s[0])
    ensures FromHex(s) == FromHex(s[1..])
  {
    hide DigitValue, IsBlank;
  }

  /** `bytes.fromhex` exactly: blanks are skipped before a pair and at the end, two digits make a byte,
      the first worth sixteen, and anything else is refused. */
  lemma FromHexReads(s: string)
    requires s != [] && !IsBlank(s[0])
    ensures |s| < 2 || DigitValue(s[0]).None? || DigitValue(s[1]).None? ==> FromHex(s) == None
    ensures |s| >= 2 && DigitValue(s[0]).Some? && DigitValue(s[1]).Some? ==>
              && (FromHex(s).Some? <==> FromHex(s[2..]).Some?)
              && (FromHex(s).Some? ==>
                    && FromHex(s).value != [] && FromHex(s).value[1..] == FromHex(s[2..]).value
                    && FromHex(s).value[0] as int == 16 * DigitValue(s[0]).value + DigitValue(s[1]).value)
  {
    if |s| >= 2 {
      DigitsInTable(s[0]);
      DigitsInTable(s[1]);
      if DigitValue(s[0]).Some? && DigitValue(s[1]).Some? {
        OctetIs(DigitValue(s[0]).value, DigitValue(s[1]).value);
      }
    }
    hide DigitValue, IsBlank, Octet;
  }

  lemma BlankExactly(c: char)
    ensures IsBlank(c) <==> c as int in {0x20, 0x09, 0x0A, 0x0B, 0x0C, 0x0D}
  {
  }
}
