/**
 The one-batch checkout (apps/dashboard/atomic-cart.js:17-33): a cart of prepared payments becomes
 one approval of the exact total, the payments, and an approval of nothing. The batch is run
 against the repository's two tokens (contracts/src/ThotToken.sol, contracts/src/TestPayment.sol).
 */
module Cart {
  import opened Bytes
  import opened Numerals

  // ----- Text -----

  function Lower(c: char): char {
    if 'A' <= c <= 'Z' then c + ' ' else c
  }

  /** `toLowerCase`, on the ASCII text that addresses and calldata are made of. */
  function LowerAll(s: string): (t: string)
    ensures |t| == |s| && forall i :: 0 <= i < |s| ==> t[i] == Lower(s[i])
  {
    seq(|s|, i requires 0 <= i < |s| => Lower(s[i]))
  }

  // ----- Approvals -----

  /** `/^0x[0-9a-f]{40}$/i` */
  predicate IsAddress(s: string) {
    |s| == 42 && s[0] == '0' && (s[1] == 'x' || s[1] == 'X') && AllDigits(s[2..], 16)
  }

  predicate Same(a: string, b: string) {
    LowerAll(a) == LowerAll(b)
  }

  /** "0x095ea7b3", the selector of `approve`. */
  function Selector(): (s: string)
    ensures |s| == 10
  {
    ['0', 'x', '0', '9', '5', 'e', 'a', '7', 'b', '3']
  }

  const WORD: nat := 64

  function Approval(market: string, amount: nat): string
    requires |market| >= 2
  {
    Selector() + (PadStart(LowerAll(market[2..]), WORD) + PadStart(Digits(amount, 16), WORD))
  }

  /** What a contract makes of calldata: whole bytes, the selector, an address and a 256-bit number;
      bytes past those are ignored. */
  function Decode(data: string): Option<(string, nat)> {
    if |data| < 138 || |data| % 2 != 0 || data[..10] != Selector() || !AllDigits(data[10..], 16) then None
    else Some((data[34..74], Value(data[74..138], 16)))
  }

  lemma HexParts(a: string, b: string)
    ensures AllDigits(a + b, 16) <==> AllDigits(a, 16) && AllDigits(b, 16)
  {
    if AllDigits(a + b, 16) {
      assert forall i :: 0 <= i < |a| ==> a[i] == (a + b)[i];
      assert forall i :: 0 <= i < |b| ==> b[i] == (a + b)[|a| + i];
    }
  }

  lemma ApprovalShape(market: string, amount: nat)
    requires IsAddress(market)
    ensures var data, low, high := Approval(market, amount), LowerAll(market[2..]), PadStart(Digits(amount, 16), WORD);
      && |low| == 40 && AllDigits(low, 16) && AllDigits(high, 16) && |high| >= WORD
      && |data| == 74 + |high| && data[..10] == Selector() && AllDigits(data[10..], 16)
      && data[34..74] == low && data[74..] == high
  {
    var low, high := LowerAll(market[2..]), PadStart(Digits(amount, 16), WORD);
    var data, word := Approval(market, amount), Zeroes(24) + low;
    assert PadStart(low, WORD) == word;
    if |Digits(amount, 16)| < WORD {
      HexParts(Zeroes(WORD - |Digits(amount, 16)|), Digits(amount, 16));
    }
    HexParts(word, high);
    assert data == Selector() + (word + high) && data[10..] == word + high;
    assert data[34..74] == low && data[74..] == high;
  }

  lemma {:induction false} PrefixIsSmaller(s: string, k: nat)
    requires AllDigits(s, 16) && k < |s|
    ensures 16 * Value(s[..k], 16) <= Value(s, 16)
  {
    var front := s[..|s| - 1];
    if k < |front| {
      PrefixIsSmaller(front, k);
      assert front[..k] == s[..k];
    } else {
      assert s[..k] == front;
    }
  }

  lemma PaddedHex(n: nat)
    ensures AllDigits(PadStart(Digits(n, 16), WORD), 16) && |PadStart(Digits(n, 16), WORD)| >= WORD
    ensures AllDigits(PadStart(Digits(n, 16), WORD)[..WORD], 16)
  {
    PaddedValue(n, WORD, 16);
  }

  /** What the contract reads: the market, and the first word of the amount if the data is whole bytes. */
  lemma DecodeReads(market: string, amount: nat)
    requires IsAddress(market)
    ensures var high := PadStart(Digits(amount, 16), WORD);
      && AllDigits(high, 16) && |high| >= WORD && AllDigits(high[..WORD], 16)
      && Decode(Approval(market, amount))
         == if |high| % 2 != 0 then None else Some((LowerAll(market[2..]), Value(high[..WORD], 16)))
  {
    var data, high := Approval(market, amount), PadStart(Digits(amount, 16), WORD);
    ApprovalShape(market, amount);
    PaddedHex(amount);
    hide Value, Digits, PadStart, Approval;
    assert data[74..138] == high[..WORD];
  }

  lemma ApprovalDecodes(market: string, amount: nat)
    requires IsAddress(market)
    ensures Decode(Approval(market, amount)) == Some((LowerAll(market[2..]), amount)) <==> amount < Pow(16, WORD)
  {
    hide Decode, Approval, PadStart, Digits, Pow, Value, AllDigits;
    DecodeReads(market, amount);
    WordReads(amount);
  }

  /** The contract reads back the market and the amount exactly when the amount is below 2 to the
      256; the code does not check that of a total. */
  lemma ApprovalDecodesExactly(market: string, amount: nat)
    requires HexText(market, 40)
    ensures Decode(Approval(market, amount)) == Some((LowerAll(market[2..]), amount)) <==> amount < Pow(16, 64)
  {
    assert WORD == 64;
    AddressExactly(market);
    hide *;
    ApprovalDecodes(market, amount);
  }

  /** An approval that fits is the selector, the market's address in small letters behind twenty-four
      zeros, and the amount in sixty-four digits. */
  lemma ApprovalSpelled(market: string, amount: nat)
    requires HexText(market, 40) && amount < Pow(16, 64)
    ensures var data := Approval(market, amount);
      && |data| == 138 && data[..10] == "0x095ea7b3" && (forall i :: 10 <= i < 34 ==> data[i] == '0')
      && (forall i :: 34 <= i < 74 ==> Alike(data[i], market[i - 32]) && !('A' <= data[i] <= 'Z'))
      && AllDigits(data[74..], 16) && Value(data[74..], 16) == amount
  {
    assert WORD == 64;
    AddressExactly(market);
    SelectorSpelled();
    ApprovalShape(market, amount);
    hide Pow, Value, Digits, HexText, AllDigits;
    WordReads(amount);
    ApprovalZeroes(market, amount);
    var data, high := Approval(market, amount), PadStart(Digits(amount, 16), WORD);
    assert high[..WORD] == high;
    hide Approval, PadStart;
    forall i | 34 <= i < 74
      ensures Alike(data[i], market[i - 32]) && !('A' <= data[i] <= 'Z')
    {
      assert data[i] == data[34..74][i - 34] == Lower(market[2..][i - 34]);
    }
  }

  lemma ApprovalZeroes(market: string, amount: nat)
    requires IsAddress(market)
    ensures var data := Approval(market, amount);
      |data| >= 138 && forall i :: 10 <= i < 34 ==> data[i] == '0'
  {
    ApprovalShape(market, amount);
    hide Digits;
  }

  /** A number that fits in a word is its padded digits; of a longer one the first word is far less. */
  lemma WordReads(amount: nat)
    ensures var high := PadStart(Digits(amount, 16), WORD);
      && AllDigits(high, 16) && |high| >= WORD && AllDigits(high[..WORD], 16)
      && (amount < Pow(16, WORD) ==> |high| == WORD && Value(high[..WORD], 16) == amount)
      && (amount >= Pow(16, WORD) && |high| % 2 == 0 ==> 256 * Value(high[..WORD], 16) <= amount && amount > 0)
  {
    assert WORD == 64;
    hide *;
    LeadingDigits(amount, WORD);
  }

  lemma LeadingDigits(amount: nat, width: nat)
    requires width >= 1 && width % 2 == 0
    ensures var high := PadStart(Digits(amount, 16), width);
      && AllDigits(high, 16) && |high| >= width && AllDigits(high[..width], 16)
      && (amount < Pow(16, width) ==> |high| == width && Value(high[..width], 16) == amount)
      && (amount >= Pow(16, width) && |high| % 2 == 0 ==> 256 * Value(high[..width], 16) <= amount && amount > 0)
  {
    hide Digits, PadStart, Pow, Value, DigitValue;
    var high := PadStart(Digits(amount, 16), width);
    PaddedValue(amount, width, 16);
    DigitsFit(amount, width, 16);
    if amount < Pow(16, width) {
      assert high[..width] == high;
    } else if |high| % 2 == 0 {
      FirstDigits(high, width);
    }
  }

  lemma FirstDigits(s: string, width: nat)
    requires AllDigits(s, 16) && |s| >= width + 2
    ensures AllDigits(s[..width], 16) && 256 * Value(s[..width], 16) <= Value(s, 16)
  {
    hide Value, DigitValue;
    PrefixIsSmaller(s, width + 1);
    assert s[..width + 1][..width] == s[..width];
    PrefixIsSmaller(s[..width + 1], width);
  }

  // ----- What the patterns match -----

  /** "0x" and so many hexadecimal digits, in either case. */
  ghost predicate HexText(s: string, digits: nat) {
    && |s| == 2 + digits && s[0] == '0' && (s[1] == 'x' || s[1] == 'X')
    && forall i :: 2 <= i < |s| ==> s[i] in "0123456789abcdefABCDEF"
  }

  lemma HexDigitIn(c: char)
    ensures IsDigit(c, 16) <==> c in "0123456789abcdefABCDEF"
  {
    DigitsInTable(c);
    if IsDigit(c, 16) {
      var v := DigitValue(c).value;
      assert c == "0123456789abcdefABCDEF"[v] || (v >= 10 && c == "0123456789abcdefABCDEF"[v + 6]) || v < 10;
    }
  }

  lemma DigitsFrom(s: string, k: nat)
    requires k <= |s|
    ensures AllDigits(s[k..], 16) <==> forall i :: k <= i < |s| ==> s[i] in "0123456789abcdefABCDEF"
  {
    hide IsDigit;
    forall c: char
      ensures IsDigit(c, 16) <==> c in "0123456789abcdefABCDEF"
    {
      HexDigitIn(c);
    }
    assert forall i :: k <= i < |s| ==> s[i] == s[k..][i - k];
  }

  lemma AddressExactly(s: string)
    ensures IsAddress(s) <==> HexText(s, 40)
    ensures IsAddress(s) ==> |s| == 42
  {
    if |s| == 42 {
      DigitsFrom(s, 2);
    }
    hide AllDigits;
  }

  lemma HashExactly(s: string)
    ensures IsHash(s) <==> HexText(s, 64)
  {
    if |s| == 66 {
      DigitsFrom(s, 2);
    }
    hide AllDigits;
  }

  lemma CalldataExactly(s: string)
    ensures IsCalldata(s) <==> |s| > 2 && HexText(s, |s| - 2)
  {
    if |s| > 2 {
      DigitsFrom(s, 2);
    }
    hide AllDigits;
  }

  /** The same character, or the capital and the small form of a letter. */
  ghost predicate Alike(c: char, d: char) {
    || c == d
    || ('A' <= c <= 'Z' && d as int == c as int + 32)
    || ('A' <= d <= 'Z' && c as int == d as int + 32)
  }

  lemma LowerExactly(c: char, d: char)
    ensures Lower(c) == Lower(d) <==> Alike(c, d)
  {
  }

  lemma SameExactly(a: string, b: string)
    ensures Same(a, b) <==> |a| == |b| && forall i :: 0 <= i < |a| ==> Alike(a[i], b[i])
  {
    hide Lower, Alike;
    if |a| == |b| {
      forall i | 0 <= i < |a|
        ensures Lower(a[i]) == Lower(b[i]) <==> Alike(a[i], b[i])
      {
        LowerExactly(a[i], b[i]);
      }
      assert (forall i :: 0 <= i < |a| ==> LowerAll(a)[i] == LowerAll(b)[i]) <==> LowerAll(a) == LowerAll(b);
    }
  }

  lemma SelectorSpelled()
    ensures Selector() == "0x095ea7b3"
  {
  }

  /** Calldata is read as an approval exactly when it is whole bytes, in hex, behind the selector, and
      long enough for an address and a number. */
  lemma DecodeExactly(data: string)
    ensures Decode(data).Some? <==>
            && |data| >= 138 && |data| % 2 == 0 && data[..10] == "0x095ea7b3"
            && forall i :: 10 <= i < |data| ==> data[i] in "0123456789abcdefABCDEF"
  {
    SelectorSpelled();
    if |data| >= 138 {
      DigitsFrom(data, 10);
    }
    hide AllDigits, Value;
  }

  // ----- The batch -----

  datatype Tx = Tx(to: string, data: string, value: int, chainId: int)

  datatype Item = Item(id: string, buyerTotal: int, transactions: seq<Tx>)

  datatype Call = Call(to: string, data: string, value: int)

  datatype Batch = Batch(total: nat, chainId: int, calls: seq<Call>)

  datatype Fault = Unavailable | Mismatch

  predicate IsHash(s: string) {
    |s| == 66 && s[0] == '0' && (s[1] == 'x' || s[1] == 'X') && AllDigits(s[2..], 16)
  }

  predicate IsApproval(data: string) {
    |data| == 138 && LowerAll(data[..10]) == Selector() && AllDigits(data[10..], 16)
  }

  predicate IsCalldata(data: string) {
    |data| >= 3 && data[0] == '0' && (data[1] == 'x' || data[1] == 'X') && AllDigits(data[2..], 16)
  }

  /** A prepared item pays this market with this token on this chain, exactly its own total. */
  predicate Fits(i: Item, token: string, market: string, chainId: int) {
    && |i.transactions| == 2 && i.buyerTotal > 0 && IsHash(i.id)
    && var (approve, pay) := (i.transactions[0], i.transactions[1]);
       && Same(approve.to, token) && Same(pay.to, market)
       && IsApproval(approve.data) && Same(['0', 'x'] + approve.data[34..74], market)
       && Amount(approve.data) == i.buyerTotal
       && IsCalldata(pay.data)
       && approve.value == 0 && pay.value == 0 && approve.chainId == chainId && pay.chainId == chainId
  }

  function Amount(data: string): nat
    requires IsApproval(data)
  {
    HexParts(data[10..74], data[74..]);
    assert data[10..] == data[10..74] + data[74..];
    Value(data[74..], 16)
  }

  predicate AllFit(items: seq<Item>, token: string, market: string, chainId: int) {
    forall k :: 0 <= k < |items| ==> Fits(items[k], token, market, chainId)
  }

  // What a prepared item must be, spelled out.

  ghost predicate AlikeAll(a: string, b: string) {
    |a| == |b| && forall i :: 0 <= i < |a| ==> Alike(a[i], b[i])
  }

  /** The item is an approval of its own total for this market, by this token, and then some call of
      the market, both on this chain and without value. */
  ghost predicate Pays(i: Item, token: string, market: string, chainId: int) {
    && |i.transactions| == 2 && i.buyerTotal > 0 && HexText(i.id, 64)
    && var (approve, pay) := (i.transactions[0], i.transactions[1]);
       && AlikeAll(approve.to, token) && AlikeAll(pay.to, market)
       && HexText(approve.data, 136) && AlikeAll(approve.data[..10], "0x095ea7b3")
       && AlikeAll("0x" + approve.data[34..74], market)
       && AllDigits(approve.data[74..138], 16) && Value(approve.data[74..138], 16) == i.buyerTotal
       && |pay.data| > 2 && HexText(pay.data, |pay.data| - 2)
       && approve.value == 0 && pay.value == 0 && approve.chainId == chainId == pay.chainId
  }

  lemma ApprovalTextExactly(data: string)
    ensures IsApproval(data) <==> HexText(data, 136) && AlikeAll(data[..10], "0x095ea7b3")
    ensures IsApproval(data) ==> AllDigits(data[74..138], 16) && Amount(data) == Value(data[74..138], 16)
  {
    if |data| == 138 {
      SelectorSpelled();
      assert LowerAll("0x095ea7b3") == "0x095ea7b3";
      SameExactly(data[..10], "0x095ea7b3");
      DigitsFrom(data, 10);
      assert data[74..138] == data[74..];
      hide AllDigits, Value, Selector, Alike, LowerAll;
      if AlikeAll(data[..10], "0x095ea7b3") {
        PrefixIsHex(data);
      }
    }
  }

  lemma PrefixIsHex(data: string)
    requires |data| == 138 && AlikeAll(data[..10], "0x095ea7b3")
    ensures data[0] == '0' && (data[1] == 'x' || data[1] == 'X')
    ensures forall i :: 2 <= i < 10 ==> data[i] in "0123456789abcdefABCDEF"
  {
    forall i | 2 <= i < 10
      ensures data[i] in "0123456789abcdefABCDEF"
    {
      assert Alike(data[..10][i], "0x095ea7b3"[i]);
      HexDigitIn(data[i]);
    }
    assert Alike(data[..10][0], "0x095ea7b3"[0]) && Alike(data[..10][1], "0x095ea7b3"[1]);
  }

  lemma FitsExactly(i: Item, token: string, market: string, chainId: int)
    ensures Fits(i, token, market, chainId) <==> Pays(i, token, market, chainId)
  {
    if |i.transactions| == 2 {
      var (approve, pay) := (i.transactions[0], i.transactions[1]);
      HashExactly(i.id);
      SameExactly(approve.to, token);
      SameExactly(pay.to, market);
      ApprovalTextExactly(approve.data);
      CalldataExactly(pay.data);
      if IsApproval(approve.data) {
        SameExactly("0x" + approve.data[34..74], market);
      }
    }
    hide IsHash, IsApproval, IsCalldata, Same, HexText, Value, AllDigits, Amount, Alike;
  }

  ghost predicate AllPay(items: seq<Item>, token: string, market: string, chainId: int) {
    forall k :: 0 <= k < |items| ==> Pays(items[k], token, market, chainId)
  }

  lemma AllFitExactly(items: seq<Item>, token: string, market: string, chainId: int)
    ensures AllFit(items, token, market, chainId) <==> AllPay(items, token, market, chainId)
  {
    hide Fits, Pays;
    forall k | 0 <= k < |items|
      ensures Fits(items[k], token, market, chainId) <==> Pays(items[k], token, market, chainId)
    {
      FitsExactly(items[k], token, market, chainId);
    }
  }

  function Total(items: seq<Item>): int {
    if items == [] then 0 else items[0].buyerTotal + Total(items[1..])
  }

  function Payments(items: seq<Item>, market: string): seq<Call>
    requires forall k :: 0 <= k < |items| ==> |items[k].transactions| == 2
  {
    seq(|items|, k requires 0 <= k < |items| => Call(market, items[k].transactions[1].data, 0))
  }

  /** One approval of the total, the payments in order, and an approval of nothing. */
  function Calls(items: seq<Item>, token: string, market: string, total: nat): seq<Call>
    requires |market| >= 2 && forall k :: 0 <= k < |items| ==> |items[k].transactions| == 2
  {
    [Call(token, Approval(market, total), 0)] + (Payments(items, market) + [Call(token, Approval(market, 0), 0)])
  }

  method AtomicCartCalls(items: seq<Item>, token: string, market: string, chainId: int)
    returns (r: Result<Batch, Fault>)
    ensures r.Ok? <==>
                HexText(token, 40) && HexText(market, 40) && 1 <= |items| <= 20 && AllPay(items, token, market, chainId)
    ensures r == Err(Unavailable) <==> !HexText(token, 40) || !HexText(market, 40) || !(1 <= |items| <= 20)
    ensures r.Ok? ==>
              && r.value.total == Total(items) && r.value.chainId == chainId
              && r.value.calls == Calls(items, token, market, r.value.total)
  {
    AllFitExactly(items, token, market, chainId);
    AddressExactly(token);
    AddressExactly(market);
    hide Fits, Pays, AllPay, IsAddress, HexText, Approval;
    if !IsAddress(token) || !IsAddress(market) || |items| < 1 || |items| > 20 {
      return Err(Unavailable);
    }
    var total: int, payments: seq<Call> := 0, [];
    var k := 0;
    while k < |items|
      invariant k <= |items| && AllFit(items[..k], token, market, chainId)
      invariant total == Total(items[..k]) >= 0
      invariant |payments| == k
      invariant forall j :: 0 <= j < k ==>
                    |items[j].transactions| == 2 && payments[j] == Call(market, items[j].transactions[1].data, 0)
    {
      if !Fits(items[k], token, market, chainId) {
        return Err(Mismatch);
      }
      FitsPays(items[k], token, market, chainId);
      TotalAppends(items, k);
      total := total + items[k].buyerTotal;
      payments := payments + [Call(market, items[k].transactions[1].data, 0)];
      k := k + 1;
    }
    assert items[..k] == items;
    assert payments == Payments(items, market);
    var front, back := Call(token, Approval(market, total), 0), Call(token, Approval(market, 0), 0);
    r := Ok(Batch(total, chainId, [front] + (payments + [back])));
  }

  lemma FitsPays(i: Item, token: string, market: string, chainId: int)
    requires Fits(i, token, market, chainId)
    ensures |i.transactions| == 2 && i.buyerTotal > 0
  {
  }

  lemma {:induction false} TotalAppends(items: seq<Item>, k: nat)
    requires k < |items|
    ensures Total(items[..k + 1]) == Total(items[..k]) + items[k].buyerTotal
    decreases k
  {
    if k == 0 {
      assert items[..1][1..] == [];
    } else {
      TotalAppends(items[1..], k - 1);
      assert items[..k + 1][1..] == items[1..][..k] && items[..k][1..] == items[1..][..k - 1];
    }
  }

  // ----- Running the batch -----

  /** The two tokens differ only in that an allowance of all ones is never used up in the first,
      and that it refuses to approve the zero address. */
  datatype Token = Thot | Test

  /** What the market may still take from the buyer, and what it has taken. */
  datatype Ledger = Ledger(allowance: nat, taken: nat)

  function Unlimited(): nat {
    Pow(16, WORD) - 1
  }

  lemma UnlimitedIs()
    ensures Unlimited() == Pow(16, 64) - 1
  {
    hide Pow;
  }

  function Take(kind: Token, l: Ledger, amount: nat): Option<Ledger> {
    if kind == Thot && l.allowance == Unlimited() then Some(l.(taken := l.taken + amount))
    else if l.allowance < amount then None
    else Some(Ledger(l.allowance - amount, l.taken + amount))
  }

  /** `takes` is what the market takes for a payment's calldata. A failing call undoes the batch. */
  function Step(kind: Token, token: string, market: string, takes: string -> nat, l: Ledger, c: Call): Option<Ledger>
    requires |market| >= 2
  {
    if Same(c.to, token) then
      match Decode(c.data)
      case None => None
      case Some((spender, amount)) =>
        if kind == Thot && spender == Zeroes(40) then None
        else if spender == LowerAll(market[2..]) then Some(l.(allowance := amount))
        else Some(l)
    else if Same(c.to, market) then Take(kind, l, takes(c.data))
    else Some(l)
  }

  function Run(kind: Token, token: string, market: string, takes: string -> nat, l: Ledger,
               calls: seq<Call>): Option<Ledger>
    requires |market| >= 2
    decreases |calls|
  {
    if calls == [] then Some(l)
    else
      match Step(kind, token, market, takes, l, calls[0])
      case None => None
      case Some(next) => Run(kind, token, market, takes, next, calls[1..])
  }

  /** The market takes each item's own total. */
  predicate Honours(items: seq<Item>, takes: string -> nat) {
    forall k :: 0 <= k < |items| ==> Honoured(items[k], takes)
  }

  predicate Honoured(i: Item, takes: string -> nat) {
    |i.transactions| == 2 && i.buyerTotal > 0 && takes(i.transactions[1].data) == i.buyerTotal
  }

  /** The payments alone, from an allowance: they all go through exactly when it covers them. */
  lemma {:induction false} PaymentsTake(kind: Token, token: string, market: string, takes: string -> nat, l: Ledger,
                                        items: seq<Item>, rest: seq<Call>)
    requires |market| >= 2 && !Same(token, market) && Honours(items, takes) && l.allowance <= Pow(16, 64) - 1
    ensures Total(items) >= 0
    ensures var run := Run(kind, token, market, takes, l, Payments(items, market) + rest);
      if kind == Thot && l.allowance == Pow(16, 64) - 1 then
        run == Run(kind, token, market, takes, l.(taken := l.taken + Total(items)), rest)
      else if l.allowance >= Total(items) then
        run == Run(kind, token, market, takes, Ledger(l.allowance - Total(items), l.taken + Total(items)), rest)
      else run == None
    decreases |items|
  {
    UnlimitedIs();
    hide Same, Step, Run, Unlimited, Honoured, Pow;
    if items == [] {
      assert Payments(items, market) + rest == rest;
    } else {
      hide Payments;
      assert Honoured(items[0], takes);
      ItemPays(items[0], takes);
      PaymentRun(kind, token, market, takes, l, items, rest);
      var next := Take(kind, l, items[0].buyerTotal);
      PaymentsTake(kind, token, market, takes, if next.Some? then next.value else l, items[1..], rest);
    }
  }

  lemma ItemPays(i: Item, takes: string -> nat)
    requires Honoured(i, takes)
    ensures i.buyerTotal > 0
  {
  }

  lemma PaymentRun(kind: Token, token: string, market: string, takes: string -> nat, l: Ledger, items: seq<Item>,
                   rest: seq<Call>)
    requires |market| >= 2 && !Same(token, market) && Honours(items, takes) && items != []
    ensures var next := Take(kind, l, items[0].buyerTotal);
      Run(kind, token, market, takes, l, Payments(items, market) + rest)
      == if next == None then None else Run(kind, token, market, takes, next.value, Payments(items[1..], market) + rest)
  {
    hide Same, Step, Take;
    var calls := Payments(items, market) + rest;
    assert calls[0] == Call(market, items[0].transactions[1].data, 0)
        && calls[1..] == Payments(items[1..], market) + rest;
    PaymentStep(kind, token, market, takes, l, items[0]);
  }

  lemma PaymentStep(kind: Token, token: string, market: string, takes: string -> nat, l: Ledger, i: Item)
    requires |market| >= 2 && !Same(token, market) && Honoured(i, takes)
    ensures Step(kind, token, market, takes, l, Call(market, i.transactions[1].data, 0)) == Take(kind, l, i.buyerTotal)
  {
    assert Same(market, token) ==> Same(token, market);
  }

  lemma {:induction false} TotalBound(items: seq<Item>, token: string, market: string, chainId: int)
    requires AllFit(items, token, market, chainId)
    ensures 0 <= Total(items) <= |items| * Pow(16, WORD)
    ensures items != [] ==> Total(items) > 0
  {
    hide Pow;
    if items != [] {
      TotalBound(items[1..], token, market, chainId);
      ItemBound(items[0], token, market, chainId);
      assert |items| * Pow(16, WORD) == Pow(16, WORD) + (|items| - 1) * Pow(16, WORD);
    }
  }

  lemma ItemBound(i: Item, token: string, market: string, chainId: int)
    requires Fits(i, token, market, chainId)
    ensures 0 < i.buyerTotal < Pow(16, WORD) && |i.transactions| == 2
  {
    hide Pow;
    var data := i.transactions[0].data;
    HexParts(data[10..74], data[74..]);
    assert data[10..] == data[10..74] + data[74..];
    ValueBound(data[74..], 16);
  }

  /** What the token makes of an approval: exactly the amount if it fits in a word, otherwise a
      failure or far too little. */
  lemma ApprovalStep(kind: Token, token: string, market: string, takes: string -> nat, l: Ledger, amount: nat)
    requires IsAddress(market) && (kind == Thot ==> LowerAll(market[2..]) != Zeroes(40))
    ensures var step := Step(kind, token, market, takes, l, Call(token, Approval(market, amount), 0));
      if amount < Pow(16, WORD) then step == Some(l.(allowance := amount))
      else step == None || (step.Some? && step.value == l.(allowance := step.value.allowance)
                            && 256 * step.value.allowance <= amount && amount > 0)
  {
    hide Decode, Approval, PadStart, Digits, Pow, Value, AllDigits, Zeroes;
    DecodeReads(market, amount);
    WordReads(amount);
  }

  /** The batch takes exactly the total and leaves no allowance, from any allowance before, if the
      total is below 2 to the 256; otherwise it fails as a whole. */
  lemma CartRunsExactly(kind: Token, items: seq<Item>, token: string, market: string, chainId: int,
                        takes: string -> nat, l: Ledger)
    requires IsAddress(token) && IsAddress(market) && !Same(token, market)
    requires 1 <= |items| <= 20 && AllPay(items, token, market, chainId) && Honours(items, takes)
    requires kind == Thot ==> LowerAll(market[2..]) != Zeroes(40)
    ensures Total(items) >= 0 && forall k :: 0 <= k < |items| ==> |items[k].transactions| == 2
    ensures Run(kind, token, market, takes, l, Calls(items, token, market, Total(items)))
         == if Total(items) < Pow(16, 64) then Some(Ledger(0, l.taken + Total(items))) else None
  {
    assert WORD == 64;
    hide *;
    AllFitExactly(items, token, market, chainId);
    CartTotal(items, token, market, chainId);
    if Total(items) < Pow(16, WORD) {
      CoveredCart(kind, items, token, market, takes, l);
    } else {
      OverflowingCart(kind, items, token, market, takes, l);
    }
  }

  lemma CartTotal(items: seq<Item>, token: string, market: string, chainId: int)
    requires |items| <= 20 && AllFit(items, token, market, chainId) && IsAddress(market)
    ensures 0 <= Total(items) <= 20 * Pow(16, WORD) && |market| >= 2
    ensures forall k :: 0 <= k < |items| ==> |items[k].transactions| == 2
  {
    hide Pow, Total, Fits;
    TotalBound(items, token, market, chainId);
    Scaled(|items|, Pow(16, WORD));
    forall k | 0 <= k < |items|
      ensures |items[k].transactions| == 2
    {
      FitsPays(items[k], token, market, chainId);
    }
  }

  lemma Scaled(n: nat, p: nat)
    requires n <= 20
    ensures n * p <= 20 * p
  {
    assert (20 - n) * p >= 0;
  }

  lemma RunFirst(kind: Token, items: seq<Item>, token: string, market: string, takes: string -> nat, l: Ledger,
                 total: nat)
    requires IsAddress(market) && Honours(items, takes)
    ensures var step := Step(kind, token, market, takes, l, Call(token, Approval(market, total), 0));
      Run(kind, token, market, takes, l, Calls(items, token, market, total))
      == if step == None then None
         else Run(kind, token, market, takes, step.value,
                  Payments(items, market) + [Call(token, Approval(market, 0), 0)])
  {
    hide Step, Approval, Payments;
    var calls := Calls(items, token, market, total);
    assert calls[0] == Call(token, Approval(market, total), 0)
        && calls[1..] == Payments(items, market) + [Call(token, Approval(market, 0), 0)];
  }

  lemma CoveredCart(kind: Token, items: seq<Item>, token: string, market: string, takes: string -> nat, l: Ledger)
    requires IsAddress(market) && !Same(token, market) && Honours(items, takes)
    requires 0 <= Total(items) < Pow(16, WORD) && (kind == Thot ==> LowerAll(market[2..]) != Zeroes(40))
    ensures Run(kind, token, market, takes, l, Calls(items, token, market, Total(items)))
         == Some(Ledger(0, l.taken + Total(items)))
  {
    hide Step, Approval, Payments, Pow, Calls, Run, Zeroes, Total;
    var total := Total(items);
    UnlimitedIs();
    ApprovalStep(kind, token, market, takes, l, total);
    RunFirst(kind, items, token, market, takes, l, total);
    PaymentsTake(kind, token, market, takes, l.(allowance := total), items, [Call(token, Approval(market, 0), 0)]);
    RunLast(kind, token, market, takes,
            Ledger(if kind == Thot && total == Unlimited() then total else 0, l.taken + total));
  }

  lemma OverflowingCart(kind: Token, items: seq<Item>, token: string, market: string, takes: string -> nat, l: Ledger)
    requires IsAddress(market) && !Same(token, market) && Honours(items, takes)
    requires Pow(16, WORD) <= Total(items) <= 20 * Pow(16, WORD)
    requires kind == Thot ==> LowerAll(market[2..]) != Zeroes(40)
    ensures Run(kind, token, market, takes, l, Calls(items, token, market, Total(items))) == None
  {
    assert Pow(16, WORD) >= 256;
    hide Step, Approval, Payments, Pow, Calls, Run, Zeroes, Total;
    ApprovalStep(kind, token, market, takes, l, Total(items));
    RunFirst(kind, items, token, market, takes, l, Total(items));
    var step := Step(kind, token, market, takes, l, Call(token, Approval(market, Total(items)), 0));
    if step.Some? {
      PaymentsTake(kind, token, market, takes, step.value, items, [Call(token, Approval(market, 0), 0)]);
    }
  }

  lemma RunLast(kind: Token, token: string, market: string, takes: string -> nat, l: Ledger)
    requires IsAddress(market) && (kind == Thot ==> LowerAll(market[2..]) != Zeroes(40))
    ensures Run(kind, token, market, takes, l, [Call(token, Approval(market, 0), 0)]) == Some(Ledger(0, l.taken))
  {
    hide Step, Approval, Pow;
    ApprovalStep(kind, token, market, takes, l, 0);
    assert [Call(token, Approval(market, 0), 0)][1..] == [];
  }
}
