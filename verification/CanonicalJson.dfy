/**
 The canonical JSON text of apps/dashboard/agent-capture-ui.js (line 10): `JSON.stringify`
 at the leaves, keys sorted by UTF-16 code unit. Two values have the same text exactly when
 they are equal up to the order of object members.
 */
module CanonicalJson {

  type Unit = x: int | 0 <= x < 0x10000   // a UTF-16 code unit

  type Str = seq<Unit>

  /** A number is identified with the text that JavaScript prints for it. `Undefined` stands
      for a missing member of an object literal, which the concatenation spells out. */
  datatype Json =
    | Null
    | Undefined
    | Bool(b: bool)
    | Number(token: Str)
    | String(s: Str)
    | Array(items: seq<Json>)
    | Object(members: seq<Member>)

  datatype Member = Member(key: Str, value: Json)

  /** A text of ASCII characters, as code units. */
  function Ascii(s: string): (t: Str)
    ensures |t| == |s|
  {
    seq(|s|, i requires 0 <= i < |s| => if s[i] <= '~' then s[i] as Unit else 0xFFFD)
  }

  const QUOTE: Unit := 34
  const BACKSLASH: Unit := 92
  const COMMA: Unit := 44
  const COLON: Unit := 58
  const OPEN_BRACKET: Unit := 91
  const CLOSE_BRACKET: Unit := 93
  const OPEN_BRACE: Unit := 123
  const CLOSE_BRACE: Unit := 125

  const NULL_TEXT: Str := [110, 117, 108, 108]
  const UNDEFINED_TEXT: Str := [117, 110, 100, 101, 102, 105, 110, 101, 100]
  const TRUE_TEXT: Str := [116, 114, 117, 101]
  const FALSE_TEXT: Str := [102, 97, 108, 115, 101]

  predicate NumberStart(c: Unit) { c == 45 || 48 <= c <= 57 }

  predicate NumberUnit(c: Unit) { NumberStart(c) || c in {43, 46, 69, 101} }

  predicate NumberToken(t: Str) {
    t != [] && NumberStart(t[0]) && forall i :: 0 <= i < |t| ==> NumberUnit(t[i])
  }

  /** What `JSON.parse` can produce, plus undefined members: keys are distinct. */
  ghost predicate WellFormed(v: Json) {
    match v
    case Number(t) => NumberToken(t)
    case Array(items) => forall i :: 0 <= i < |items| ==> items[i] != Undefined && WellFormed(items[i])
    case Object(ms) => DistinctKeys(ms) && forall i :: 0 <= i < |ms| ==> WellFormed(ms[i].value)
    case _ => true
  }

  ghost predicate DistinctKeys(ms: seq<Member>) {
    forall i, j :: 0 <= i < j < |ms| ==> ms[i].key != ms[j].key
  }

  // ----- JSON.stringify on strings (ECMA-262, QuoteJSONString) -----

  predicate High(c: Unit) { 0xD800 <= c <= 0xDBFF }

  predicate Low(c: Unit) { 0xDC00 <= c <= 0xDFFF }

  predicate Pair(s: Str) { |s| >= 2 && High(s[0]) && Low(s[1]) }

  function HexUnit(d: nat): Unit
    requires d < 16
  {
    if d < 10 then 48 + d else 87 + d
  }

  /** One code unit that is not half of a pair. */
  function Escaped(c: Unit): Str {
    if c == QUOTE || c == BACKSLASH then [BACKSLASH, c]
    else if c == 8 then [BACKSLASH, 98]
    else if c == 9 then [BACKSLASH, 116]
    else if c == 10 then [BACKSLASH, 110]
    else if c == 12 then [BACKSLASH, 102]
    else if c == 13 then [BACKSLASH, 114]
    else if c < 32 || High(c) || Low(c) then
      [BACKSLASH, 117, HexUnit(c / 4096), HexUnit(c / 256 % 16), HexUnit(c / 16 % 16), HexUnit(c % 16)]
    else [c]
  }

  /** How many units the first token stands for, and its text. */
  function First(s: Str): (r: (nat, Str))
    requires s != []
    ensures 0 < r.0 <= |s|
  {
    if Pair(s) then (2, s[..2]) else (1, Escaped(s[0]))
  }

  function EscapedAll(s: Str): Str {
    if s == [] then [] else First(s).1 + EscapedAll(s[First(s).0..])
  }

  function Quoted(s: Str): Str {
    [QUOTE] + EscapedAll(s) + [QUOTE]
  }

  // ----- Sorted keys -----

  /** Code-unit order, as `Array.prototype.sort` compares strings. */
  predicate Less(a: Str, b: Str) {
    if a == [] then b != []
    else b != [] && (a[0] < b[0] || (a[0] == b[0] && Less(a[1..], b[1..])))
  }

  function Insert(k: Str, ks: seq<Str>): (r: seq<Str>)
    ensures forall x :: x in r <==> x == k || x in ks
    ensures |r| == |ks| + 1
  {
    if ks == [] || !Less(ks[0], k) then [k] + ks
    else
      var r := [ks[0]] + Insert(k, ks[1..]);
      assert forall x :: x in ks <==> x == ks[0] || x in ks[1..];
      r
  }

  function Sorted(ks: seq<Str>): (r: seq<Str>)
    ensures forall x :: x in r <==> x in ks
    ensures |r| == |ks|
  {
    if ks == [] then [] else Insert(ks[0], Sorted(ks[1..]))
  }

  function Keys(ms: seq<Member>): (ks: seq<Str>)
    ensures |ks| == |ms| && forall i :: 0 <= i < |ms| ==> ks[i] == ms[i].key
  {
    seq(|ms|, i requires 0 <= i < |ms| => ms[i].key)
  }

  /** The position of key `k`. */
  function At(ms: seq<Member>, k: Str): (i: nat)
    requires k in Keys(ms)
    ensures i < |ms| && ms[i].key == k
  {
    if ms[0].key == k then 0
    else
      assert Keys(ms)[1..] == Keys(ms[1..]);
      1 + At(ms[1..], k)
  }

  // ----- The text -----

  function Canonical(v: Json): Str
    decreases v, 1
  {
    match v
    case Null => NULL_TEXT
    case Undefined => UNDEFINED_TEXT
    case Bool(b) => if b then TRUE_TEXT else FALSE_TEXT
    case Number(t) => t
    case String(s) => Quoted(s)
    case Array(items) => [OPEN_BRACKET] + Items(items) + [CLOSE_BRACKET]
    case Object(ms) => [OPEN_BRACE] + Members(ms, Sorted(Keys(ms))) + [CLOSE_BRACE]
  }

  function Items(items: seq<Json>): Str
    decreases items, 0
  {
    if items == [] then []
    else if |items| == 1 then Canonical(items[0])
    else Canonical(items[0]) + [COMMA] + Items(items[1..])
  }

  function Members(ms: seq<Member>, ks: seq<Str>): Str
    requires forall k :: k in ks ==> k in Keys(ms)
    decreases ms, 0, |ks|
  {
    if ks == [] then []
    else
      var one := Quoted(ks[0]) + [COLON] + Canonical(ms[At(ms, ks[0])].value);
      if |ks| == 1 then one else one + [COMMA] + Members(ms, ks[1..])
  }

  // ----- Equality up to member order -----

  ghost predicate Same(a: Json, b: Json)
    decreases a
  {
    match (a, b)
    case (Array(x), Array(y)) =>
      |x| == |y| && forall i :: 0 <= i < |x| ==> Same(x[i], y[i])
    case (Object(m), Object(n)) =>
      && (forall k :: k in Keys(m) <==> k in Keys(n))
      && (forall i, j :: 0 <= i < |m| && 0 <= j < |n| && m[i].key == n[j].key ==> Same(m[i].value, n[j].value))
    case _ => a == b
  }

  // ----- Quoted strings are prefix-free -----

  lemma FourDigits(c: Unit)
    ensures c == 16 * (16 * (16 * (c / 4096) + c / 256 % 16) + c / 16 % 16) + c % 16
  {
    var a, b := c / 16, c / 256;
    assert c == 16 * a + c % 16;
    assert a == 16 * b + a % 16;
    assert b == 16 * (c / 4096) + b % 16;
  }

  lemma HexInjective(c: Unit, d: Unit)
    requires c / 4096 == d / 4096 && c / 256 % 16 == d / 256 % 16 && c / 16 % 16 == d / 16 % 16 && c % 16 == d % 16
    ensures c == d
  {
    FourDigits(c);
    FourDigits(d);
  }

  /** Two tokens that agree as far as they go are the same token. */
  lemma FirstIsPrefixFree(s: Str, t: Str, x: Str, y: Str)
    requires s != [] && t != []
    requires First(s).1 + x == First(t).1 + y
    ensures First(s) == First(t) && s[..First(s).0] == t[..First(t).0] && x == y
  {
    var a, b := First(s).1, First(t).1;
    var u, w := a + x, b + y;
    assert u[0] == a[0] && w[0] == b[0];
    if |a| > 1 { assert u[1] == a[1]; }
    if |b| > 1 { assert w[1] == b[1]; }
    assert |a| == |b|;
    assert a == u[..|a|] && b == w[..|b|];
    assert x == u[|a|..] && y == w[|b|..];
    if |a| == 6 {
      HexUnitInjective(s[0] / 4096, t[0] / 4096);
      HexUnitInjective(s[0] / 256 % 16, t[0] / 256 % 16);
      HexUnitInjective(s[0] / 16 % 16, t[0] / 16 % 16);
      HexUnitInjective(s[0] % 16, t[0] % 16);
      HexInjective(s[0], t[0]);
    }
  }

  lemma HexUnitInjective(c: nat, d: nat)
    requires c < 16 && d < 16
    ensures HexUnit(c) == HexUnit(d) ==> c == d
  {
  }

  lemma TokenIsNoQuote(s: Str)
    requires s != []
    ensures First(s).1 != [] && First(s).1[0] != QUOTE
  {
  }

  /** The rest of a quoted string, and what follows it. */
  function Closing(s: Str, x: Str): Str {
    EscapedAll(s) + [QUOTE] + x
  }

  lemma ClosingStarts(s: Str, x: Str)
    ensures s == [] ==> Closing(s, x) == [QUOTE] + x
    ensures s != [] ==>
              Closing(s, x) == First(s).1 + Closing(s[First(s).0..], x) && First(s).1 != [] && First(s).1[0] != QUOTE
  {
    if s != [] {
      TokenIsNoQuote(s);
      hide First;
      assert Closing(s, x) == First(s).1 + Closing(s[First(s).0..], x);
    }
  }

  lemma {:induction false} EscapedIsPrefixFree(s: Str, t: Str, x: Str, y: Str)
    requires Closing(s, x) == Closing(t, y)
    ensures s == t && x == y
    decreases |s| + |t|
  {
    hide First, Closing;
    ClosingStarts(s, x);
    ClosingStarts(t, y);
    if s == [] || t == [] {
      assert Closing(s, x)[0] == QUOTE && Closing(s, x)[1..] == x;
      assert Closing(t, y)[1..] == y;
    } else {
      var m, n := First(s).0, First(t).0;
      FirstIsPrefixFree(s, t, Closing(s[m..], x), Closing(t[n..], y));
      EscapedIsPrefixFree(s[m..], t[n..], x, y);
      assert s == s[..m] + s[m..] && t == t[..n] + t[n..];
    }
  }

  lemma QuotedIsPrefixFree(s: Str, t: Str, x: Str, y: Str)
    requires Quoted(s) + x == Quoted(t) + y
    ensures s == t && x == y
  {
    hide EscapedAll;
    assert Quoted(s) + x == [QUOTE] + Closing(s, x);
    assert Quoted(t) + y == [QUOTE] + Closing(t, y);
    assert (Quoted(s) + x)[1..] == (Quoted(t) + y)[1..];
    EscapedIsPrefixFree(s, t, x, y);
  }

  // ----- Sorting is canonical -----

  lemma {:induction false} LessIsStrict(a: Str, b: Str, c: Str)
    ensures Less(a, b) && Less(b, c) ==> Less(a, c)
    ensures !(Less(a, b) && Less(b, a))
    ensures a != b ==> Less(a, b) || Less(b, a)
    decreases |a| + |b| + |c|
  {
    if a != [] && b != [] {
      if c != [] {
        LessIsStrict(a[1..], b[1..], c[1..]);
      } else {
        LessIsStrict(a[1..], b[1..], c);
      }
      assert a == [a[0]] + a[1..] && b == [b[0]] + b[1..];
    }
  }

  ghost predicate Ascending(ks: seq<Str>) {
    forall i, j :: 0 <= i < j < |ks| ==> Less(ks[i], ks[j])
  }

  lemma {:induction false} InsertKeepsOrder(k: Str, ks: seq<Str>)
    requires Ascending(ks) && k !in ks
    ensures Ascending(Insert(k, ks))
  {
    if ks != [] {
      LessIsStrict(ks[0], k, k);
      if !Less(ks[0], k) {
        forall j | 1 <= j < |ks|
          ensures Less(k, ks[j])
        {
          LessIsStrict(k, ks[0], ks[j]);
        }
      } else {
        InsertKeepsOrder(k, ks[1..]);
        var rest := Insert(k, ks[1..]);
        forall j | 0 <= j < |rest|
          ensures Less(ks[0], rest[j])
        {
          assert rest[j] in rest;
        }
      }
    }
  }

  lemma {:induction false} SortedIsAscending(ks: seq<Str>)
    requires forall i, j :: 0 <= i < j < |ks| ==> ks[i] != ks[j]
    ensures Ascending(Sorted(ks))
  {
    if ks != [] {
      SortedIsAscending(ks[1..]);
      InsertKeepsOrder(ks[0], Sorted(ks[1..]));
    }
  }

  /** An ascending list is determined by its elements. */
  lemma {:induction false} AscendingIsUnique(a: seq<Str>, b: seq<Str>)
    requires Ascending(a) && Ascending(b)
    requires forall k :: k in a <==> k in b
    ensures a == b
    decreases |a|
  {
    assert b != [] ==> b[0] in b;
    if a != [] {
      assert a[0] in b && b[0] in a;
      LessIsStrict(a[0], b[0], b[0]);
      assert a[0] == b[0];
      forall k
        ensures k in a[1..] <==> k in b[1..]
      {
        LessIsStrict(a[0], a[0], a[0]);
        assert k in a <==> k == a[0] || k in a[1..];
        assert k in b <==> k == b[0] || k in b[1..];
      }
      AscendingIsUnique(a[1..], b[1..]);
      assert a == [a[0]] + a[1..] && b == [b[0]] + b[1..];
    }
  }

  // ----- Values are prefix-free before a delimiter -----

  predicate Delimited(x: Str) {
    x == [] || x[0] in {COMMA, CLOSE_BRACKET, CLOSE_BRACE}
  }

  /** The first unit of a value's text tells what kind of value it is. */
  predicate StartsLike(v: Json, c: Unit) {
    match v
    case Null => c == 110
    case Undefined => c == 117
    case Bool(b) => c == if b then 116 else 102
    case Number(_) => NumberStart(c)
    case String(_) => c == QUOTE
    case Array(_) => c == OPEN_BRACKET
    case Object(_) => c == OPEN_BRACE
  }

  lemma CanonicalStarts(v: Json)
    requires WellFormed(v)
    ensures Canonical(v) != [] && StartsLike(v, Canonical(v)[0])
  {
  }

  lemma NumbersArePrefixFree(s: Str, t: Str, x: Str, y: Str)
    requires NumberToken(s) && NumberToken(t) && Delimited(x) && Delimited(y)
    requires s + x == t + y
    ensures s == t && x == y
  {
    var u, w := s + x, t + y;
    assert x != [] ==> u[|s|] == x[0];
    assert y != [] ==> w[|t|] == y[0];
    assert |s| == |t|;
    assert s == u[..|s|] && t == w[..|t|] && x == u[|s|..] && y == w[|t|..];
  }

  lemma SameHead(a: Str, b: Str, x: Str, y: Str)
    requires a + x == b + y && a != [] && b != []
    ensures a[0] == b[0]
    ensures |a| == |b| ==> a == b && x == y
  {
    var u, w := a + x, b + y;
    assert u[0] == a[0] && w[0] == b[0];
    if |a| == |b| {
      assert a == u[..|a|] && b == w[..|b|] && x == u[|a|..] && y == w[|b|..];
    }
  }

  /** What follows one item: a comma and more items, or the end. */
  function ItemTail(items: seq<Json>, x: Str): Str
    requires items != []
  {
    if |items| == 1 then [CLOSE_BRACKET] + x else [COMMA] + (Items(items[1..]) + [CLOSE_BRACKET] + x)
  }

  lemma ItemsSplit(items: seq<Json>, x: Str)
    requires items != []
    ensures Items(items) + [CLOSE_BRACKET] + x == Canonical(items[0]) + ItemTail(items, x)
    ensures Delimited(ItemTail(items, x))
  {
  }

  function MemberTail(ms: seq<Member>, ks: seq<Str>, x: Str): Str
    requires ks != [] && forall k :: k in ks ==> k in Keys(ms)
  {
    if |ks| == 1 then [CLOSE_BRACE] + x else [COMMA] + (Members(ms, ks[1..]) + [CLOSE_BRACE] + x)
  }

  function ValueOf(ms: seq<Member>, k: Str): Json
    requires k in Keys(ms)
  {
    ms[At(ms, k)].value
  }

  lemma MembersSplit(ms: seq<Member>, ks: seq<Str>, x: Str)
    requires ks != [] && forall k :: k in ks ==> k in Keys(ms)
    ensures Members(ms, ks) + [CLOSE_BRACE] + x
         == Quoted(ks[0]) + ([COLON] + (Canonical(ValueOf(ms, ks[0])) + MemberTail(ms, ks, x)))
    ensures Delimited(MemberTail(ms, ks, x))
  {
    hide Quoted, Canonical, Keys;
    var q, c := Quoted(ks[0]), Canonical(ValueOf(ms, ks[0]));
    if |ks| == 1 {
      assert Members(ms, ks) == q + [COLON] + c;
      Regroup(q, [COLON], c, [CLOSE_BRACE], x);
    } else {
      var rest := Members(ms, ks[1..]);
      assert Members(ms, ks) == (q + [COLON] + c) + [COMMA] + rest;
      AppendThree(q + [COLON] + c, [COMMA], rest, [CLOSE_BRACE], x);
      Regroup(q, [COLON], c, [COMMA], rest + [CLOSE_BRACE] + x);
    }
  }

  lemma AppendThree(a: Str, b: Str, c: Str, d: Str, e: Str)
    ensures a + b + c + d + e == a + b + (c + d + e)
  {
  }

  lemma Regroup(a: Str, b: Str, c: Str, d: Str, e: Str)
    ensures a + b + c + d + e == a + (b + (c + (d + e)))
  {
  }

  ghost predicate AllWellFormed(items: seq<Json>) {
    forall i :: 0 <= i < |items| ==> WellFormed(items[i])
  }

  ghost predicate MembersWellFormed(ms: seq<Member>) {
    forall i :: 0 <= i < |ms| ==> WellFormed(ms[i].value)
  }

  lemma {:induction false} ValueIsPrefixFree(a: Json, b: Json, x: Str, y: Str)
    requires WellFormed(a) && WellFormed(b) && Delimited(x) && Delimited(y)
    requires Canonical(a) + x == Canonical(b) + y
    ensures Same(a, b) && x == y
    decreases a, 1
  {
    hide Canonical, Items, Members, Quoted, Sorted, Keys, Delimited;
    CanonicalStarts(a);
    CanonicalStarts(b);
    SameHead(Canonical(a), Canonical(b), x, y);
    match a
    case Null => LeafText(a, b, x, y);
    case Undefined => LeafText(a, b, x, y);
    case Bool(_) => LeafText(a, b, x, y);
    case Number(s) => LeafText(a, b, x, y);
    case String(s) => LeafText(a, b, x, y);
    case Array(m) =>
      var n := b.items;
      ArrayText(a, x);
      ArrayText(b, y);
      SameHead([OPEN_BRACKET], [OPEN_BRACKET], Items(m) + [CLOSE_BRACKET] + x, Items(n) + [CLOSE_BRACKET] + y);
      ItemsArePrefixFree(m, n, x, y);
    case Object(m) =>
      var n := b.members;
      ObjectText(a, x);
      ObjectText(b, y);
      var ks, ls := Sorted(Keys(m)), Sorted(Keys(n));
      SameHead([OPEN_BRACE], [OPEN_BRACE], Members(m, ks) + [CLOSE_BRACE] + x, Members(n, ls) + [CLOSE_BRACE] + y);
      MembersArePrefixFree(m, ks, n, ls, x, y);
      SameMembers(m, n, ks);
  }

  /** Values without parts. */
  lemma LeafText(a: Json, b: Json, x: Str, y: Str)
    requires WellFormed(a) && WellFormed(b) && Delimited(x) && Delimited(y)
    requires !a.Array? && !a.Object? && StartsLike(b, Canonical(a)[0])
    requires Canonical(a) != [] && StartsLike(a, Canonical(a)[0])
    requires Canonical(a) + x == Canonical(b) + y
    ensures Same(a, b) && x == y
  {
    hide Quoted;
    match a
    case Number(s) => NumbersArePrefixFree(s, b.token, x, y);
    case String(s) => QuotedIsPrefixFree(s, b.s, x, y);
    case _ => SameHead(Canonical(a), Canonical(b), x, y);
  }

  lemma ArrayText(v: Json, x: Str)
    requires v.Array?
    ensures Canonical(v) + x == [OPEN_BRACKET] + (Items(v.items) + [CLOSE_BRACKET] + x)
  {
    hide Items;
  }

  lemma ObjectText(v: Json, x: Str)
    requires v.Object?
    ensures Canonical(v) + x == [OPEN_BRACE] + (Members(v.members, Sorted(Keys(v.members))) + [CLOSE_BRACE] + x)
  {
    hide Members, Sorted, Keys;
  }

  lemma {:induction false} ItemsArePrefixFree(m: seq<Json>, n: seq<Json>, x: Str, y: Str)
    requires AllWellFormed(m) && AllWellFormed(n)
    requires Items(m) + [CLOSE_BRACKET] + x == Items(n) + [CLOSE_BRACKET] + y
    ensures |m| == |n| && x == y
    ensures forall i :: 0 <= i < |m| ==> Same(m[i], n[i])
    decreases m, 0
  {
    hide Items, Canonical, Same;
    if m == [] || n == [] {
      EmptyItems(m, n, x, y);
    } else {
      ItemsSplit(m, x);
      ItemsSplit(n, y);
      ValueIsPrefixFree(m[0], n[0], ItemTail(m, x), ItemTail(n, y));
      SameHead(ItemTail(m, x)[..1], ItemTail(n, y)[..1], ItemTail(m, x)[1..], ItemTail(n, y)[1..]);
      if |m| > 1 {
        ItemsArePrefixFree(m[1..], n[1..], x, y);
        forall i | 0 <= i < |m|
          ensures Same(m[i], n[i])
        {
          if i > 0 { assert Same(m[1..][i - 1], n[1..][i - 1]); }
        }
      }
    }
  }

  lemma EmptyItems(m: seq<Json>, n: seq<Json>, x: Str, y: Str)
    requires AllWellFormed(m) && AllWellFormed(n) && (m == [] || n == [])
    requires Items(m) + [CLOSE_BRACKET] + x == Items(n) + [CLOSE_BRACKET] + y
    ensures m == n == [] && x == y
  {
    hide Canonical;
    if m != [] {
      CanonicalStarts(m[0]);
      ItemsSplit(m, x);
      SameHead(Canonical(m[0]), [CLOSE_BRACKET], ItemTail(m, x), y);
    } else if n != [] {
      CanonicalStarts(n[0]);
      ItemsSplit(n, y);
      SameHead(Canonical(n[0]), [CLOSE_BRACKET], ItemTail(n, y), x);
    } else {
      assert [] + [CLOSE_BRACKET] == [CLOSE_BRACKET];
      SameHead([CLOSE_BRACKET], [CLOSE_BRACKET], x, y);
    }
  }

  ghost predicate SameValues(ms: seq<Member>, ns: seq<Member>, ks: seq<Str>) {
    forall k :: k in ks ==> k in Keys(ms) && k in Keys(ns) && Same(ValueOf(ms, k), ValueOf(ns, k))
  }

  lemma SameValuesGrow(ms: seq<Member>, ns: seq<Member>, ks: seq<Str>)
    requires ks != [] && ks[0] in Keys(ms) && ks[0] in Keys(ns) && Same(ValueOf(ms, ks[0]), ValueOf(ns, ks[0]))
    requires |ks| > 1 ==> SameValues(ms, ns, ks[1..])
    ensures SameValues(ms, ns, ks)
  {
    hide Keys, Same, ValueOf;
    forall k | k in ks
      ensures k in Keys(ms) && k in Keys(ns) && Same(ValueOf(ms, k), ValueOf(ns, k))
    {
      assert k == ks[0] || k in ks[1..];
    }
  }

  lemma {:induction false} MembersArePrefixFree(ms: seq<Member>, ks: seq<Str>, ns: seq<Member>, ls: seq<Str>, x: Str,
                                                y: Str)
    requires forall k :: k in ks ==> k in Keys(ms)
    requires forall k :: k in ls ==> k in Keys(ns)
    requires MembersWellFormed(ms) && MembersWellFormed(ns)
    requires Members(ms, ks) + [CLOSE_BRACE] + x == Members(ns, ls) + [CLOSE_BRACE] + y
    ensures ks == ls && x == y && SameValues(ms, ns, ks)
    decreases ms, 0, |ks|
  {
    hide Members, Canonical, Same, Quoted, Keys, MemberTail, Delimited;
    if ks == [] || ls == [] {
      EmptyMembers(ms, ks, ns, ls, x, y);
    } else {
      var v, w := ValueOf(ms, ks[0]), ValueOf(ns, ls[0]);
      var vTail, wTail := MemberTail(ms, ks, x), MemberTail(ns, ls, y);
      SameFirstKey(ms, ks, ns, ls, x, y);
      ValueIsPrefixFree(v, w, vTail, wTail);
      SameMemberTails(ms, ks, ns, ls, x, y);
      hide SameValues;
      if |ks| > 1 {
        MembersArePrefixFree(ms, ks[1..], ns, ls[1..], x, y);
      }
      SameValuesGrow(ms, ns, ks);
      assert ks == [ks[0]] + ks[1..] && ls == [ls[0]] + ls[1..];
    }
  }

  lemma SameFirstKey(ms: seq<Member>, ks: seq<Str>, ns: seq<Member>, ls: seq<Str>, x: Str, y: Str)
    requires forall k :: k in ks ==> k in Keys(ms)
    requires forall k :: k in ls ==> k in Keys(ns)
    requires ks != [] && ls != []
    requires Members(ms, ks) + [CLOSE_BRACE] + x == Members(ns, ls) + [CLOSE_BRACE] + y
    ensures ks[0] == ls[0]
    ensures Canonical(ValueOf(ms, ks[0])) + MemberTail(ms, ks, x)
         == Canonical(ValueOf(ns, ls[0])) + MemberTail(ns, ls, y)
    ensures Delimited(MemberTail(ms, ks, x)) && Delimited(MemberTail(ns, ls, y))
  {
    MembersSplit(ms, ks, x);
    MembersSplit(ns, ls, y);
    hide Members, MemberTail, Canonical, Quoted, Keys, ValueOf, Delimited;
    var vRest := Canonical(ValueOf(ms, ks[0])) + MemberTail(ms, ks, x);
    var wRest := Canonical(ValueOf(ns, ls[0])) + MemberTail(ns, ls, y);
    QuotedIsPrefixFree(ks[0], ls[0], [COLON] + vRest, [COLON] + wRest);
    SameHead([COLON], [COLON], vRest, wRest);
  }

  /** Two tails that agree both end here, or both go on with more members. */
  lemma SameMemberTails(ms: seq<Member>, ks: seq<Str>, ns: seq<Member>, ls: seq<Str>, x: Str, y: Str)
    requires ks != [] && forall k :: k in ks ==> k in Keys(ms)
    requires ls != [] && forall k :: k in ls ==> k in Keys(ns)
    requires MemberTail(ms, ks, x) == MemberTail(ns, ls, y)
    ensures |ks| > 1 <==> |ls| > 1
    ensures if |ks| > 1
            then Members(ms, ks[1..]) + [CLOSE_BRACE] + x == Members(ns, ls[1..]) + [CLOSE_BRACE] + y
            else x == y
  {
    hide Members, Keys;
    var tail, other := MemberTail(ms, ks, x), MemberTail(ns, ls, y);
    assert tail[0] == (if |ks| > 1 then COMMA else CLOSE_BRACE) && other[0] == if |ls| > 1 then COMMA else CLOSE_BRACE;
    assert tail[1..] == if |ks| > 1 then Members(ms, ks[1..]) + [CLOSE_BRACE] + x else x;
    assert other[1..] == if |ls| > 1 then Members(ns, ls[1..]) + [CLOSE_BRACE] + y else y;
  }

  lemma EmptyMembers(ms: seq<Member>, ks: seq<Str>, ns: seq<Member>, ls: seq<Str>, x: Str, y: Str)
    requires forall k :: k in ks ==> k in Keys(ms)
    requires forall k :: k in ls ==> k in Keys(ns)
    requires ks == [] || ls == []
    requires Members(ms, ks) + [CLOSE_BRACE] + x == Members(ns, ls) + [CLOSE_BRACE] + y
    ensures ks == ls == [] && x == y
  {
    hide Canonical, EscapedAll, Keys;
    if ks != [] {
      MembersSplit(ms, ks, x);
      SameHead(Quoted(ks[0]), [CLOSE_BRACE], [COLON] + (Canonical(ValueOf(ms, ks[0])) + MemberTail(ms, ks, x)), y);
    } else if ls != [] {
      MembersSplit(ns, ls, y);
      SameHead(Quoted(ls[0]), [CLOSE_BRACE], [COLON] + (Canonical(ValueOf(ns, ls[0])) + MemberTail(ns, ls, y)), x);
    } else {
      assert [] + [CLOSE_BRACE] == [CLOSE_BRACE];
      SameHead([CLOSE_BRACE], [CLOSE_BRACE], x, y);
    }
  }

  lemma KeyInKeys(ms: seq<Member>, i: nat)
    requires i < |ms|
    ensures ms[i].key in Keys(ms)
    ensures DistinctKeys(ms) ==> At(ms, ms[i].key) == i
  {
    assert Keys(ms)[i] == ms[i].key;
  }

  lemma SameMembers(m: seq<Member>, n: seq<Member>, ks: seq<Str>)
    requires DistinctKeys(m) && DistinctKeys(n)
    requires ks == Sorted(Keys(m)) == Sorted(Keys(n))
    requires forall k :: k in ks ==> Same(ValueOf(m, k), ValueOf(n, k))
    ensures Same(Object(m), Object(n))
  {
    hide Sorted;
    forall i, j | 0 <= i < |m| && 0 <= j < |n| && m[i].key == n[j].key
      ensures Same(m[i].value, n[j].value)
    {
      KeyInKeys(m, i);
      KeyInKeys(n, j);
    }
  }

  /** The canonical text determines a value up to member order ... */
  lemma CanonicalIsInjective(a: Json, b: Json)
    requires WellFormed(a) && WellFormed(b) && Canonical(a) == Canonical(b)
    ensures Same(a, b)
  {
    assert Canonical(a) + [] == Canonical(b) + [];
    ValueIsPrefixFree(a, b, [], []);
  }

  // ----- Member order does not matter -----

  /** ... and does not depend on that order. */
  lemma {:induction false} SameHasOneText(a: Json, b: Json)
    requires WellFormed(a) && WellFormed(b) && Same(a, b)
    ensures Canonical(a) == Canonical(b)
    decreases a, 1
  {
    match (a, b)
    case (Array(m), Array(n)) =>
      SameItemsHaveOneText(m, n);
    case (Object(m), Object(n)) =>
      SortedIsAscending(Keys(m));
      SortedIsAscending(Keys(n));
      AscendingIsUnique(Sorted(Keys(m)), Sorted(Keys(n)));
      SameMembersHaveOneText(m, n, Sorted(Keys(m)));
    case _ =>
  }

  lemma {:induction false} SameItemsHaveOneText(m: seq<Json>, n: seq<Json>)
    requires AllWellFormed(m) && AllWellFormed(n)
    requires |m| == |n| && forall i :: 0 <= i < |m| ==> Same(m[i], n[i])
    ensures Items(m) == Items(n)
    decreases m, 0
  {
    hide Canonical, Same;
    if m != [] {
      SameHasOneText(m[0], n[0]);
      SameItemsHaveOneText(m[1..], n[1..]);
    }
  }

  lemma {:induction false} SameMembersHaveOneText(m: seq<Member>, n: seq<Member>, ks: seq<Str>)
    requires MembersWellFormed(m) && MembersWellFormed(n)
    requires forall k :: k in ks ==> k in Keys(m) && k in Keys(n)
    requires forall i, j :: 0 <= i < |m| && 0 <= j < |n| && m[i].key == n[j].key ==> Same(m[i].value, n[j].value)
    ensures Members(m, ks) == Members(n, ks)
    decreases m, 0, |ks|
  {
    hide Canonical, Same, Quoted, Keys;
    if ks != [] {
      SameHasOneText(m[At(m, ks[0])].value, n[At(n, ks[0])].value);
      SameMembersHaveOneText(m, n, ks[1..]);
    }
  }

  lemma CanonicalExactly(a: Json, b: Json)
    requires WellFormed(a) && WellFormed(b)
    ensures Canonical(a) == Canonical(b) <==> Same(a, b)
  {
    hide Canonical, Same;
    if Canonical(a) == Canonical(b) {
      CanonicalIsInjective(a, b);
    }
    if Same(a, b) {
      SameHasOneText(a, b);
    }
  }
}
