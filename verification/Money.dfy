/**
 Exact amounts in the mandate editor (apps/dashboard/mandate-editor.js:8-21): decimal text as a
 person writes it, and the whole minor units the ledger keeps. Text is taken already trimmed.
 */
module Money {
  import opened Bytes
  import opened Numerals

  function PadEnd(s: string, width: nat): string {
    if |s| >= width then s else s + Zeroes(width - |s|)
  }

  // ----- Amounts -----

  /** A currency without a known number of decimals is refused like an amount that is not one. */
  datatype Fault = InvalidAmount | TooLarge

  function Places(currency: string): Option<nat> {
    if currency == "USD" then Some(2) else if currency == "USDC" then Some(6) else None
  }

  function Point(s: string): (dot: nat)
    ensures dot <= |s| && (dot < |s| ==> s[dot] == '.') && forall i :: 0 <= i < dot ==> s[i] != '.'
  {
    if s == [] || s[0] == '.' then 0 else 1 + Point(s[1..])
  }

  function Whole(text: string): string {
    text[..Point(text)]
  }

  function Fraction(text: string): string {
    if Point(text) == |text| then [] else text[Point(text) + 1..]
  }

  /** A whole number, and at most `places` digits after a point if there is one. */
  predicate IsAmount(text: string, places: nat) {
    && IsWhole(Whole(text), 10) && AllDigits(Fraction(text), 10) && |Fraction(text)| <= places
    && (Point(text) < |text| ==> Fraction(text) != [])
  }

  const LIMIT: nat := 78

  function Compose(w: nat, f: nat, base: nat): nat {
    w * base + f
  }

  /** The minor units of an amount with `places` decimals. */
  function ReadAmount(text: string, places: nat): Result<string, Fault> {
    if !IsAmount(text, places) then Err(InvalidAmount)
    else
      var minor := Compose(Value(Whole(text), 10), Value(PadEnd(Fraction(text), places), 10), Pow(10, places));
      if minor >= Pow(10, LIMIT) then Err(TooLarge) else Ok(Digits(minor, 10))
  }

  /** Minor units written out with `places` decimals. */
  function WriteAmount(minor: string, places: nat): Result<string, Fault> {
    if !IsWhole(minor, 10) then Err(InvalidAmount) else Ok(Written(Value(minor, 10), places))
  }

  /** `decimalToMinor` */
  function DecimalToMinor(text: string, currency: string): Result<string, Fault> {
    match Places(currency)
    case None => Err(InvalidAmount)
    case Some(places) => ReadAmount(text, places)
  }

  /** `minorToDecimal` */
  function MinorToDecimal(minor: string, currency: string): Result<string, Fault> {
    match Places(currency)
    case None => Err(InvalidAmount)
    case Some(places) => WriteAmount(minor, places)
  }

  function Quotient(n: nat, d: nat): nat
    requires d > 0
  {
    n / d
  }

  function Remainder(n: nat, d: nat): (r: nat)
    requires d > 0
    ensures r < d
  {
    n % d
  }

  function Written(minor: nat, places: nat): string {
    var base := Pow(10, places);
    Digits(Quotient(minor, base), 10) + (['.'] + PadStart(Digits(Remainder(minor, base), 10), places))
  }

  lemma Parts(whole: string, fraction: string)
    requires AllDigits(whole, 10)
    ensures Point(whole + (['.'] + fraction)) == |whole|
    ensures Whole(whole + (['.'] + fraction)) == whole && Fraction(whole + (['.'] + fraction)) == fraction
  {
    var text := whole + (['.'] + fraction);
    PointAfter(whole, fraction);
    hide Point;
    assert text[..|whole|] == whole && text[|whole| + 1..] == fraction;
  }

  lemma {:induction false} PointAfter(whole: string, fraction: string)
    requires AllDigits(whole, 10)
    ensures Point(whole + (['.'] + fraction)) == |whole|
  {
    var text := whole + (['.'] + fraction);
    if whole == [] {
      assert text == ['.'] + fraction;
    } else {
      PointAfter(whole[1..], fraction);
      assert text[1..] == whole[1..] + (['.'] + fraction) && text[0] == whole[0];
    }
  }

  lemma PaddedDigits(n: nat, places: nat)
    requires places >= 1 && n < Pow(10, places)
    ensures var f := PadStart(Digits(n, 10), places); |f| == places && AllDigits(f, 10) && Value(f, 10) == n
  {
    hide *;
    DigitsFit(n, places, 10);
    PaddedValue(n, places, 10);
  }

  lemma Distributes(a: int, b: int, c: int)
    ensures (a + b) * c == a * c + b * c
  {
  }

  lemma AtLeast(d: int, base: nat)
    requires d >= 1
    ensures d * base >= base
  {
    Distributes(d - 1, 1, base);
    assert (d - 1) * base >= 0;
  }

  lemma QuotientUnique(q: nat, r: nat, w: nat, f: nat, base: nat)
    requires r < base && f < base && Compose(q, r, base) == Compose(w, f, base)
    ensures q == w && r == f
  {
    Distributes(w, q - w, base);
    Distributes(q, w - q, base);
    if q > w {
      AtLeast(q - w, base);
    } else if w > q {
      AtLeast(w - q, base);
    }
  }

  lemma Divides(w: nat, f: nat, base: nat)
    requires f < base
    ensures Quotient(Compose(w, f, base), base) == w && Remainder(Compose(w, f, base), base) == f
  {
    var n := Compose(w, f, base);
    Divided(n, base);
    hide Quotient, Remainder, Compose;
    QuotientUnique(Quotient(n, base), Remainder(n, base), w, f, base);
  }

  lemma Divided(n: nat, base: nat)
    requires base > 0
    ensures Compose(Quotient(n, base), Remainder(n, base), base) == n
  {
  }

  lemma WrittenReads(minor: string, places: nat)
    requires IsWhole(minor, 10) && places >= 1
    ensures ReadAmount(WriteAmount(minor, places).value, places)
         == if Value(minor, 10) < Pow(10, LIMIT) then Ok(minor) else Err(TooLarge)
  {
    var n, base := Value(minor, 10), Pow(10, places);
    var whole, fraction := Digits(Quotient(n, base), 10), PadStart(Digits(Remainder(n, base), 10), places);
    DigitsRoundTrip(Quotient(n, base), 10);
    PaddedDigits(Remainder(n, base), places);
    Parts(whole, fraction);
    WholeRoundTrip(minor);
    Divided(n, base);
    hide *;
    ReadBack(whole, fraction, places);
    assert WriteAmount(minor, places) == Ok(whole + (['.'] + fraction)) by { WrittenParts(minor, places); }
  }

  lemma WrittenParts(minor: string, places: nat)
    requires IsWhole(minor, 10)
    ensures var n, base := Value(minor, 10), Pow(10, places);
      WriteAmount(minor, places)
      == Ok(Digits(Quotient(n, base), 10) + (['.'] + PadStart(Digits(Remainder(n, base), 10), places)))
  {
    hide Digits, Value, Pow, PadStart, Quotient, Remainder;
  }

  lemma ReadBack(whole: string, fraction: string, places: nat)
    requires IsWhole(whole, 10) && AllDigits(fraction, 10) && |fraction| == places >= 1
    ensures var minor := Compose(Value(whole, 10), Value(fraction, 10), Pow(10, places));
      ReadAmount(whole + (['.'] + fraction), places)
      == if minor >= Pow(10, LIMIT) then Err(TooLarge) else Ok(Digits(minor, 10))
  {
    hide Digits, Value, Pow, Point, Compose;
    Parts(whole, fraction);
    hide Whole, Fraction;
  }

  lemma ReadWrites(text: string, places: nat)
    requires places >= 1 && ReadAmount(text, places).Ok?
    ensures WriteAmount(ReadAmount(text, places).value, places)
         == Ok(Whole(text) + (['.'] + PadEnd(Fraction(text), places)))
  {
    var whole, fraction := Whole(text), PadEnd(Fraction(text), places);
    var minor := Compose(Value(whole, 10), Value(fraction, 10), Pow(10, places));
    ValueBound(fraction, 10);
    Divides(Value(whole, 10), Value(fraction, 10), Pow(10, places));
    WholeRoundTrip(whole);
    PaddedRoundTrip(fraction);
    DigitsRoundTrip(minor, 10);
    hide Digits, Value, Pow, PadStart, Point, Quotient, Remainder, Compose;
  }

  // ----- Currencies -----

  /** A stored amount of a known currency is written out, and read back it is the same amount exactly
      when it is within the ledger's range; beyond it the form refuses its own text. */
  lemma MinorRoundTrip(minor: string, currency: string)
    ensures var text := MinorToDecimal(minor, currency);
      && (text.Ok? <==> Places(currency).Some? && IsWhole(minor, 10))
      && (text.Ok? ==>
            DecimalToMinor(text.value, currency)
            == if Value(minor, 10) < Pow(10, 78) then Ok(minor) else Err(TooLarge))
  {
    hide ReadAmount, Value, Pow, Written;
    if Places(currency).Some? && IsWhole(minor, 10) {
      WrittenReads(minor, Places(currency).value);
    }
  }

  /** Text that is accepted is read exactly: writing the amount gives the text back, with its fraction
      filled up to the decimals of its currency. */
  lemma DecimalRoundTrip(text: string, currency: string)
    requires DecimalToMinor(text, currency).Ok?
    ensures Places(currency).Some?
    ensures MinorToDecimal(DecimalToMinor(text, currency).value, currency)
         == Ok(Whole(text) + (['.'] + PadEnd(Fraction(text), Places(currency).value)))
  {
    hide ReadAmount, WriteAmount, Whole, Fraction, PadEnd;
    ReadWrites(text, Places(currency).value);
  }

  // ----- What an amount is -----

  /** A whole number, or one with a point and a fraction of at most `places` digits. */
  ghost predicate Spells(text: string, whole: string, fraction: string, places: nat) {
    && IsWhole(whole, 10) && AllDigits(fraction, 10) && |fraction| <= places
    && text == if fraction == [] then whole else whole + (['.'] + fraction)
  }

  lemma {:induction false} PowAdds(a: nat, b: nat)
    ensures Pow(10, a + b) == Pow(10, a) * Pow(10, b)
  {
    if a > 0 {
      PowAdds(a - 1, b);
      var x, y := Pow(10, a - 1), Pow(10, b);
      assert 10 * (x * y) == (10 * x) * y;
    }
  }

  lemma ValueOfZeroes(n: nat)
    ensures AllDigits(Zeroes(n), 10) && Value(Zeroes(n), 10) == 0
  {
    ValueOfPadded(n, [], 10);
    assert Zeroes(n) + [] == Zeroes(n);
  }

  /** The minor units times ten to the length of the fraction are all the digits read as one number,
      times ten to the number of decimals: nothing is rounded. */
  lemma ComposeExact(whole: string, fraction: string, places: nat)
    requires AllDigits(whole, 10) && AllDigits(fraction, 10) && |fraction| <= places
    ensures AllDigits(PadEnd(fraction, places), 10) && AllDigits(whole + fraction, 10)
    ensures Compose(Value(whole, 10), Value(PadEnd(fraction, places), 10), Pow(10, places)) * Pow(10, |fraction|)
         == Value(whole + fraction, 10) * Pow(10, places)
  {
    var rest := places - |fraction|;
    ValueConcat(whole, fraction, 10);
    ValueConcat(fraction, Zeroes(rest), 10);
    ValueOfZeroes(rest);
    PowAdds(|fraction|, rest);
    assert PadEnd(fraction, places) == fraction + Zeroes(rest);
    hide Value, Pow, PadEnd, AllDigits;
    Rescaled(Value(whole, 10), Value(fraction, 10), Pow(10, |fraction|), Pow(10, rest));
  }

  lemma Rescaled(w: nat, f: nat, p: nat, r: nat)
    ensures (w * (p * r) + f * r) * p == (w * p + f) * (p * r)
  {
    assert (w * (p * r)) * p == (w * p) * (p * r);
    assert (f * r) * p == f * (p * r);
  }

  lemma SpelledParts(text: string, whole: string, fraction: string, places: nat)
    requires Spells(text, whole, fraction, places)
    ensures IsAmount(text, places) && Whole(text) == whole && Fraction(text) == fraction
  {
    if fraction == [] {
      NoPoint(whole);
    } else {
      Parts(whole, fraction);
      assert text[|whole|] == '.';
    }
  }

  lemma {:induction false} NoPoint(whole: string)
    requires AllDigits(whole, 10)
    ensures Point(whole) == |whole|
  {
    if whole != [] {
      NoPoint(whole[1..]);
    }
  }

  lemma AmountSpells(text: string, places: nat)
    requires IsAmount(text, places)
    ensures Spells(text, Whole(text), Fraction(text), places)
  {
    var dot := Point(text);
    if dot < |text| {
      assert text == text[..dot] + ([text[dot]] + text[dot + 1..]);
    } else {
      assert text[..dot] == text;
    }
  }

  lemma SpelledDigits(text: string, whole: string, fraction: string, places: nat)
    requires Spells(text, whole, fraction, places)
    ensures AllDigits(whole, 10) && AllDigits(fraction, 10) && |fraction| <= places && AllDigits(whole + fraction, 10)
  {
  }

  /** Dollars are read with two decimals and USDC with six: text in that form, and no other, is an
      amount. */
  lemma AmountExactly(text: string, currency: string, places: nat)
    requires (currency == "USD" && places == 2) || (currency == "USDC" && places == 6)
    ensures DecimalToMinor(text, currency) != Err(InvalidAmount) <==>
            exists whole, fraction :: Spells(text, whole, fraction, places)
  {
    hide Pow, Value, Digits, Spells, IsAmount, Whole, Fraction, PadEnd, Compose;
    if IsAmount(text, places) {
      AmountSpells(text, places);
    }
    if whole, fraction :| Spells(text, whole, fraction, places) {
      SpelledParts(text, whole, fraction, places);
    }
  }

  /** An amount is exactly its digits scaled: the minor units times ten to the length of the fraction
      are all its digits as one number times a hundred, or a million for USDC. It is refused only
      from ten to the 78 on. */
  lemma AmountReads(text: string, currency: string, places: nat, whole: string, fraction: string) returns (minor: nat)
    requires (currency == "USD" && places == 2) || (currency == "USDC" && places == 6)
    requires Spells(text, whole, fraction, places)
    ensures AllDigits(whole + fraction, 10)
    ensures minor * Pow(10, |fraction|) == Value(whole + fraction, 10) * Pow(10, places)
    ensures DecimalToMinor(text, currency) == if minor < Pow(10, 78) then Ok(Digits(minor, 10)) else Err(TooLarge)
  {
    SpelledParts(text, whole, fraction, places);
    SpelledDigits(text, whole, fraction, places);
    hide Pow, Value, Digits, Spells, IsAmount, Whole, Fraction, PadEnd, Compose;
    ComposeExact(whole, fraction, places);
    minor := Compose(Value(whole, 10), Value(PadEnd(fraction, places), 10), Pow(10, places));
  }

  /** No other currency is known. */
  lemma OtherCurrencies(text: string, currency: string)
    requires currency != "USD" && currency != "USDC"
    ensures DecimalToMinor(text, currency) == MinorToDecimal(text, currency) == Err(InvalidAmount)
  {
  }
}
