/**
 A reader of JSON text (ECMA-404, without blanks), written apart from the canonical form of
 apps/dashboard/agent-capture-ui.js (line 10), and what it reads there: the value that was written,
 with the keys of every object in ascending order.
 */
module JsonReader {
  import opened Bytes
  import opened CanonicalJson

  // ----- Strings -----

  function HexDigit(c: Unit): Option<nat> {
    if '0' as Unit <= c <= '9' as Unit then Some(c - '0' as Unit)
    else if 'a' as Unit <= c <= 'f' as Unit then Some(c - 'a' as Unit + 10)
    else if 'A' as Unit <= c <= 'F' as Unit then Some(c - 'A' as Unit + 10)
    else None
  }

  /** The unit that four hex digits stand for. */
  function HexFour(t: Str): Option<Unit>
    requires |t| >= 4
  {
    match (HexDigit(t[0]), HexDigit(t[1]), HexDigit(t[2]), HexDigit(t[3]))
    case (Some(a), Some(b), Some(c), Some(d)) =>
      var n := 4096 * a + 256 * b + 16 * c + d;
      if n < 0x10000 then Some(n) else None
    case _ => None
  }

  /** What follows a backslash. */
  function ReadEscape(t: Str): (r: Option<(Unit, Str)>)
    ensures r.Some? ==> |r.value.1| < |t|
  {
    if t == [] then None
    else if t[0] == '"' as Unit || t[0] == '\\' as Unit || t[0] == '/' as Unit then Some((t[0], t[1..]))
    else if t[0] == 'b' as Unit then Some((0x08, t[1..]))
    else if t[0] == 't' as Unit then Some((0x09, t[1..]))
    else if t[0] == 'n' as Unit then Some((0x0A, t[1..]))
    else if t[0] == 'f' as Unit then Some((0x0C, t[1..]))
    else if t[0] == 'r' as Unit then Some((0x0D, t[1..]))
    else if t[0] == 'u' as Unit && |t| >= 5 then
      match HexFour(t[1..])
      case None => None
      case Some(c) => Some((c, t[5..]))
    else None
  }

  /** One unit of a string; control characters must be escaped. */
  function ReadUnit(t: Str): (r: Option<(Unit, Str)>)
    requires t != []
    ensures r.Some? ==> |r.value.1| < |t|
  {
    if t[0] == '\\' as Unit then ReadEscape(t[1..])
    else if t[0] < ' ' as Unit then None
    else Some((t[0], t[1..]))
  }

  /** A string, from behind its opening quote to behind its closing quote. */
  function ReadText(t: Str): (r: Option<(Str, Str)>)
    ensures r.Some? ==> |r.value.1| < |t|
    decreases |t|
  {
    if t == [] then None
    else if t[0] == '"' as Unit then Some(([], t[1..]))
    else
      match ReadUnit(t)
      case None => None
      case Some((c, rest)) =>
        match ReadText(rest)
        case None => None
        case Some((s, after)) => Some(([c] + s, after))
  }

  // ----- Values -----

  function NumberLength(t: Str): (n: nat)
    ensures n <= |t|
  {
    if t != [] && t[0] in Ascii("0123456789+-.eE") then 1 + NumberLength(t[1..]) else 0
  }

  predicate Opens(t: Str, c: char)
    requires c <= '~'
  {
    t != [] && t[0] == c as Unit
  }

  /** The value at the front of a text, and what follows it. A missing member, which the
      canonical form spells `undefined`, is read as one. */
  function ReadValue(t: Str): (r: Option<(Json, Str)>)
    ensures r.Some? ==> |r.value.1| < |t|
    decreases |t|, 0
  {
    if Opens(t, '"') then
      match ReadText(t[1..])
      case None => None
      case Some((s, rest)) => Some((String(s), rest))
    else if Opens(t, '[') then
      if Opens(t[1..], ']') then Some((Array([]), t[2..]))
      else
        match ReadItems(t[1..])
        case None => None
        case Some((items, rest)) => Some((Array(items), rest))
    else if Opens(t, '{') then
      if Opens(t[1..], '}') then Some((Object([]), t[2..]))
      else
        match ReadMembers(t[1..])
        case None => None
        case Some((ms, rest)) => Some((Object(ms), rest))
    else if Ascii("null") <= t then Some((Null, t[4..]))
    else if Ascii("true") <= t then Some((Bool(true), t[4..]))
    else if Ascii("false") <= t then Some((Bool(false), t[5..]))
    else if Ascii("undefined") <= t then Some((Undefined, t[9..]))
    else
      var n := NumberLength(t);
      if n == 0 then None else Some((Number(t[..n]), t[n..]))
  }

  /** Items up to the closing bracket. */
  function ReadItems(t: Str): (r: Option<(seq<Json>, Str)>)
    ensures r.Some? ==> |r.value.1| < |t|
    decreases |t|, 1
  {
    match ReadValue(t)
    case None => None
    case Some((v, rest)) =>
      if Opens(rest, ']') then Some(([v], rest[1..]))
      else if !Opens(rest, ',') then None
      else
        match ReadItems(rest[1..])
        case None => None
        case Some((items, after)) => Some(([v] + items, after))
  }

  /** Members up to the closing brace. */
  function ReadMembers(t: Str): (r: Option<(seq<Member>, Str)>)
    ensures r.Some? ==> |r.value.1| < |t|
    decreases |t|, 1
  {
    match ReadMember(t)
    case None => None
    case Some((m, rest)) =>
      if Opens(rest, '}') then Some(([m], rest[1..]))
      else if !Opens(rest, ',') then None
      else
        match ReadMembers(rest[1..])
        case None => None
        case Some((ms, after)) => Some(([m] + ms, after))
  }

  function ReadMember(t: Str): (r: Option<(Member, Str)>)
    ensures r.Some? ==> |r.value.1| < |t|
    decreases |t|, 0
  {
    if !Opens(t, '"') then None
    else
      match ReadText(t[1..])
      case None => None
      case Some((key, rest)) =>
        if !Opens(rest, ':') then None
        else
          match ReadValue(rest[1..])
          case None => None
          case Some((v, after)) => Some((Member(key, v), after))
  }

  // ----- Ascending keys -----

  /** A proper prefix comes first; otherwise the string with the smaller unit where they first differ. */
  ghost predicate Before(a: Str, b: Str) {
    exists n: nat :: BeforeAt(a, b, n)
  }

  ghost predicate BeforeAt(a: Str, b: Str, n: nat) {
    && n <= |a| && n < |b| && (forall i :: 0 <= i < n ==> a[i] == b[i])
    && (n == |a| || a[n] < b[n])
  }

  lemma {:induction false} LessIsBefore(a: Str, b: Str)
    ensures Less(a, b) <==> Before(a, b)
  {
    if a != [] && b != [] && a[0] == b[0] {
      LessIsBefore(a[1..], b[1..]);
      if n: nat :| BeforeAt(a[1..], b[1..], n) {
        assert BeforeAt(a, b, n + 1);
      }
      if n: nat :| BeforeAt(a, b, n) {
        assert BeforeAt(a[1..], b[1..], n - 1);
      }
    } else if b != [] && (a == [] || a[0] < b[0]) {
      assert BeforeAt(a, b, 0);
    }
  }

  /** The keys of every object in the value ascend. */
  ghost predicate Arranged(v: Json) {
    match v
    case Array(items) => forall i :: 0 <= i < |items| ==> Arranged(items[i])
    case Object(ms) =>
      && (forall i, j :: 0 <= i < j < |ms| ==> Before(ms[i].key, ms[j].key))
      && forall i :: 0 <= i < |ms| ==> Arranged(ms[i].value)
    case _ => true
  }

  // ----- Reading back what was written -----

  lemma HexDigitReads(d: nat)
    requires d < 16
    ensures HexDigit(HexUnit(d)) == Some(d)
  {
  }

  lemma HexFourReads(c: Unit, rest: Str)
    ensures HexFour([HexUnit(c / 4096), HexUnit(c / 256 % 16), HexUnit(c / 16 % 16), HexUnit(c % 16)] + rest) == Some(c)
  {
    FourDigits(c);
    HexDigitReads(c / 4096);
    HexDigitReads(c / 256 % 16);
    HexDigitReads(c / 16 % 16);
    HexDigitReads(c % 16);
    hide HexDigit, HexUnit;
  }

  lemma UnitReads(c: Unit, rest: Str)
    ensures var t := Escaped(c) + rest; t != [] && t[0] != '"' as Unit && ReadUnit(t) == Some((c, rest))
  {
    var t := Escaped(c) + rest;
    if |Escaped(c)| == 6 {
      HexFourReads(c, rest);
      hide HexFour, HexUnit;
      assert t[1..][1..] == [HexUnit(c / 4096), HexUnit(c / 256 % 16), HexUnit(c / 16 % 16), HexUnit(c % 16)] + rest;
      assert t[1..][5..] == rest;
    } else if |Escaped(c)| == 2 {
      hide HexFour, HexUnit;
      assert t[1..][1..] == rest;
    } else {
      assert t[1..] == rest;
    }
  }

  lemma OneMoreUnit(t: Str, c: Unit, rest: Str)
    requires t != [] && t[0] != '"' as Unit && ReadUnit(t) == Some((c, rest))
    ensures ReadText(t) == match ReadText(rest)
                           case None => None
                           case Some((s, after)) => Some(([c] + s, after))
  {
    hide ReadUnit;
  }

  lemma {:induction false} TextReads(s: Str, x: Str)
    ensures ReadText(Closing(s, x)) == Some((s, x))
    decreases |s|
  {
    ClosingStarts(s, x);
    hide Closing, ReadUnit, Escaped, EscapedAll;
    if s == [] {
      assert ([QUOTE] + x)[1..] == x;
    } else {
      var rest := Closing(s[First(s).0..], x);
      TextReads(s[First(s).0..], x);
      if Pair(s) {
        PlainUnit(s[1], rest);
        PlainUnit(s[0], [s[1]] + rest);
        assert s[..2] + rest == [s[0]] + ([s[1]] + rest);
        OneMoreUnit([s[1]] + rest, s[1], rest);
        OneMoreUnit([s[0]] + ([s[1]] + rest), s[0], [s[1]] + rest);
        assert s == [s[0]] + ([s[1]] + s[2..]);
      } else {
        UnitReads(s[0], rest);
        OneMoreUnit(Escaped(s[0]) + rest, s[0], rest);
        assert s == [s[0]] + s[1..];
      }
    }
  }

  lemma PlainUnit(c: Unit, rest: Str)
    requires High(c) || Low(c)
    ensures var t := [c] + rest; t != [] && t[0] != '"' as Unit && ReadUnit(t) == Some((c, rest))
  {
    assert ([c] + rest)[1..] == rest;
  }

  lemma QuotedReads(s: Str, x: Str)
    ensures var t := Quoted(s) + x; Opens(t, '"') && ReadText(t[1..]) == Some((s, x))
  {
    TextReads(s, x);
    hide EscapedAll, ReadText;
    assert (Quoted(s) + x)[1..] == Closing(s, x);
  }

  lemma {:induction false} NumberReads(t: Str, x: Str)
    requires (forall i :: 0 <= i < |t| ==> NumberUnit(t[i])) && Delimited(x)
    ensures NumberLength(t + x) == |t|
  {
    NumberUnits();
    hide NumberUnit, Ascii;
    if t == [] {
      assert t + x == x;
    } else {
      assert (t + x)[1..] == t[1..] + x;
      NumberReads(t[1..], x);
    }
  }

  lemma NumberUnits()
    ensures forall c: Unit :: c in Ascii("0123456789+-.eE") <==> NumberUnit(c)
    ensures forall c: Unit :: c in {COMMA, CLOSE_BRACKET, CLOSE_BRACE} ==> !NumberUnit(c)
  {
    var t := Ascii("0123456789+-.eE");
    forall c: Unit
      ensures c in t <==> NumberUnit(c)
    {
      if NumberUnit(c) {
        var i := if c == 43 then 10 else if c == 45 then 11 else if c == 46 then 12 else if c == 101 then 13
                 else if c == 69 then 14 else c - 48;
        assert t[i] == c;
      }
    }
  }

  lemma WordsSpelled()
    ensures Ascii("null") == NULL_TEXT && Ascii("true") == TRUE_TEXT && Ascii("false") == FALSE_TEXT
    ensures Ascii("undefined") == UNDEFINED_TEXT
  {
  }

  lemma WordReads(v: Json, x: Str)
    requires v.Null? || v.Undefined? || v.Bool?
    ensures ReadValue(Canonical(v) + x) == Some((v, x))
  {
    WordsSpelled();
    hide Ascii, ReadText, ReadItems, ReadMembers, NumberLength;
    var word := Canonical(v);
    assert word <= word + x && (word + x)[0] == word[0] && (word + x)[|word|..] == x;
  }

  lemma NumberValueReads(t: Str, x: Str)
    requires NumberToken(t) && Delimited(x)
    ensures ReadValue(t + x) == Some((Number(t), x))
  {
    NumberReads(t, x);
    WordsSpelled();
    hide Ascii, ReadText, ReadItems, ReadMembers, NumberLength;
    assert (t + x)[0] == t[0];
  }

  lemma LeafReads(v: Json, x: Str)
    requires WellFormed(v) && Delimited(x) && !v.Array? && !v.Object?
    ensures ReadValue(Canonical(v) + x) == Some((v, x))
  {
    hide ReadValue, Quoted;
    match v
    case Number(t) => NumberValueReads(t, x);
    case String(s) => StringReads(s, x);
    case _ => WordReads(v, x);
  }

  lemma StringReads(s: Str, x: Str)
    ensures ReadValue(Quoted(s) + x) == Some((String(s), x))
  {
    QuotedReads(s, x);
    hide Quoted, ReadText;
  }

  /** A value that follows an opening bracket, or a comma, is no closing bracket. */
  lemma NoEnd(v: Json, x: Str)
    requires WellFormed(v)
    ensures !Opens(Canonical(v) + x, ']') && !Opens(Canonical(v) + x, '}')
  {
    CanonicalStarts(v);
    hide Canonical;
    assert (Canonical(v) + x)[0] == Canonical(v)[0];
  }

  ghost predicate AllSame(items: seq<Json>, read: seq<Json>) {
    |read| == |items| && forall i :: 0 <= i < |items| ==> Same(items[i], read[i]) && Arranged(read[i])
  }

  /** The text of a value, before any delimiter, is read as that value with its keys arranged. */
  lemma {:induction false} ValueReads(v: Json, x: Str) returns (w: Json)
    requires WellFormed(v) && Delimited(x)
    ensures ReadValue(Canonical(v) + x) == Some((w, x)) && Same(v, w) && Arranged(w)
    decreases v, 1
  {
    hide ReadValue, Canonical, Delimited, Items, Members, Keys, Sorted;
    match v
    case Array(items) =>
      var read := [];
      if items != [] {
        read := ItemsRead(items, x);
      }
      w := Array(read);
      ArrayReads(items, x, read);
    case Object(ms) =>
      var read, ks := [], Sorted(Keys(ms));
      if ks != [] {
        read := MembersRead(ms, ks, x);
      }
      w := Object(read);
      ObjectReads(ms, x, read);
      SortedSame(ms, read);
    case _ =>
      w := v;
      LeafReads(v, x);
  }

  lemma ArrayReads(items: seq<Json>, x: Str, read: seq<Json>)
    requires AllWellFormed(items)
    requires if items == [] then read == [] else ReadItems(Items(items) + [CLOSE_BRACKET] + x) == Some((read, x))
    ensures ReadValue(Canonical(Array(items)) + x) == Some((Array(read), x))
  {
    ArrayText(Array(items), x);
    var t := Items(items) + [CLOSE_BRACKET] + x;
    assert ([OPEN_BRACKET] + t)[1..] == t;
    if items == [] {
      assert t == [CLOSE_BRACKET] + x;
    } else {
      ItemsSplit(items, x);
      NoEnd(items[0], ItemTail(items, x));
    }
    hide Items, Canonical, ReadItems, ReadText, ReadMembers, Ascii;
  }

  lemma {:induction false} ItemsRead(items: seq<Json>, x: Str) returns (read: seq<Json>)
    requires AllWellFormed(items) && items != []
    ensures ReadItems(Items(items) + [CLOSE_BRACKET] + x) == Some((read, x)) && AllSame(items, read)
    decreases items, 0
  {
    hide ReadValue, Canonical, Same, Arranged, Items, ReadItems, Delimited;
    ItemsSplit(items, x);
    var tail := ItemTail(items, x);
    var w := ValueReads(items[0], tail);
    if |items| == 1 {
      read := [w];
      ItemsEnd(Canonical(items[0]) + tail, w, x);
    } else {
      var rest := ItemsRead(items[1..], x);
      read := [w] + rest;
      ItemsGoOn(Canonical(items[0]) + tail, w, Items(items[1..]) + [CLOSE_BRACKET] + x, rest, x);
    }
  }

  lemma ItemsEnd(t: Str, w: Json, x: Str)
    requires ReadValue(t) == Some((w, [CLOSE_BRACKET] + x))
    ensures ReadItems(t) == Some(([w], x))
  {
    hide ReadValue;
    assert ([CLOSE_BRACKET] + x)[1..] == x;
  }

  lemma ItemsGoOn(t: Str, w: Json, more: Str, read: seq<Json>, x: Str)
    requires ReadValue(t) == Some((w, [COMMA] + more)) && ReadItems(more) == Some((read, x))
    ensures ReadItems(t) == Some(([w] + read, x))
  {
    hide ReadValue;
    assert ([COMMA] + more)[1..] == more;
  }

  /** What is read for the keys `ks` of an object. */
  ghost predicate AllRead(ms: seq<Member>, ks: seq<Str>, read: seq<Member>)
    requires forall k :: k in ks ==> k in Keys(ms)
  {
    |read| == |ks|
    && forall i :: 0 <= i < |ks| ==>
         read[i].key == ks[i] && Same(ValueOf(ms, ks[i]), read[i].value) && Arranged(read[i].value)
  }

  lemma {:induction false} MembersRead(ms: seq<Member>, ks: seq<Str>, x: Str) returns (read: seq<Member>)
    requires MembersWellFormed(ms) && ks != [] && forall k :: k in ks ==> k in Keys(ms)
    ensures ReadMembers(Members(ms, ks) + [CLOSE_BRACE] + x) == Some((read, x)) && AllRead(ms, ks, read)
    decreases ms, 0, |ks|
  {
    hide ReadValue, Canonical, Same, Arranged, Members, ReadMembers, ReadMember, Keys, Quoted, Delimited;
    MembersSplit(ms, ks, x);
    var k, tail := ks[0], MemberTail(ms, ks, x);
    var w := ValueReads(ValueOf(ms, k), tail);
    var t := Quoted(k) + ([COLON] + (Canonical(ValueOf(ms, k)) + tail));
    MemberReads(k, Canonical(ValueOf(ms, k)) + tail, w, tail);
    if |ks| == 1 {
      read := [Member(k, w)];
      MembersEnd(t, Member(k, w), x);
    } else {
      var rest := MembersRead(ms, ks[1..], x);
      read := [Member(k, w)] + rest;
      MembersGoOn(t, Member(k, w), Members(ms, ks[1..]) + [CLOSE_BRACE] + x, rest, x);
    }
  }

  lemma MemberReads(k: Str, text: Str, w: Json, tail: Str)
    requires ReadValue(text) == Some((w, tail))
    ensures ReadMember(Quoted(k) + ([COLON] + text)) == Some((Member(k, w), tail))
  {
    hide ReadValue, ReadText, Quoted;
    QuotedReads(k, [COLON] + text);
    assert ([COLON] + text)[1..] == text;
  }

  lemma MembersEnd(t: Str, m: Member, x: Str)
    requires ReadMember(t) == Some((m, [CLOSE_BRACE] + x))
    ensures ReadMembers(t) == Some(([m], x))
  {
    hide ReadMember;
    assert ([CLOSE_BRACE] + x)[1..] == x;
  }

  lemma MembersGoOn(t: Str, m: Member, more: Str, read: seq<Member>, x: Str)
    requires ReadMember(t) == Some((m, [COMMA] + more)) && ReadMembers(more) == Some((read, x))
    ensures ReadMembers(t) == Some(([m] + read, x))
  {
    hide ReadMember;
    assert ([COMMA] + more)[1..] == more;
  }

  lemma ObjectReads(ms: seq<Member>, x: Str, read: seq<Member>)
    requires var ks := Sorted(Keys(ms));
             if ks == [] then read == [] else ReadMembers(Members(ms, ks) + [CLOSE_BRACE] + x) == Some((read, x))
    ensures ReadValue(Canonical(Object(ms)) + x) == Some((Object(read), x))
  {
    ObjectText(Object(ms), x);
    var ks := Sorted(Keys(ms));
    var t := Members(ms, ks) + [CLOSE_BRACE] + x;
    assert ([OPEN_BRACE] + t)[1..] == t;
    hide Canonical, Keys, Sorted, ReadItems, ReadText, ReadMembers, Ascii;
    if ks == [] {
      assert t == [CLOSE_BRACE] + x;
    } else {
      MembersSplit(ms, ks, x);
      hide Members;
      assert Opens(t, '"');
    }
  }

  lemma SortedSame(ms: seq<Member>, read: seq<Member>)
    requires DistinctKeys(ms)
    requires AllRead(ms, Sorted(Keys(ms)), read)
    ensures Same(Object(ms), Object(read)) && Arranged(Object(read))
  {
    var ks := Sorted(Keys(ms));
    SortedIsAscending(Keys(ms));
    hide Sorted;
    forall i, j | 0 <= i < |ms| && 0 <= j < |read| && ms[i].key == read[j].key
      ensures Same(ms[i].value, read[j].value)
    {
      KeyInKeys(ms, i);
    }
    assert forall k :: k in Keys(read) <==> k in ks;
    forall i, j | 0 <= i < j < |read|
      ensures Before(read[i].key, read[j].key)
    {
      LessIsBefore(ks[i], ks[j]);
    }
  }

  /** The canonical text is JSON for the value: a reader that knows nothing of it gets the value
      back, up to the order of members, and finds the keys of every object in ascending order. */
  lemma CanonicalReads(v: Json) returns (w: Json)
    requires WellFormed(v)
    ensures ReadValue(Canonical(v)) == Some((w, [])) && Same(v, w) && Arranged(w)
  {
    w := ValueReads(v, []);
    hide ReadValue, Canonical;
    assert Canonical(v) + [] == Canonical(v);
  }

  // ----- The spelling of strings -----

  /** Two characters for the quote, the backslash and the five controls that have a letter, six with
      lower-case digits for the other controls and for half a pair, and any other unit as it is. */
  lemma SpelledAsStringify(c: Unit)
    ensures Escaped(0x22) == Ascii("\\\"") && Escaped(0x5C) == Ascii("\\\\")
    ensures Escaped(0x08) == Ascii("\\b") && Escaped(0x09) == Ascii("\\t") && Escaped(0x0A) == Ascii("\\n")
    ensures Escaped(0x0C) == Ascii("\\f") && Escaped(0x0D) == Ascii("\\r")
    ensures c !in {0x22, 0x5C, 0x08, 0x09, 0x0A, 0x0C, 0x0D} ==>
              if c < 0x20 || 0xD800 <= c <= 0xDFFF then
                && |Escaped(c)| == 6 && Escaped(c)[..2] == Ascii("\\u") && HexFour(Escaped(c)[2..]) == Some(c)
                && forall i :: 2 <= i < 6 ==> Escaped(c)[i] in Ascii("0123456789abcdef")
              else Escaped(c) == [c]
  {
    if |Escaped(c)| == 6 {
      HexFourReads(c, []);
      assert Escaped(c)[2..]
          == [HexUnit(c / 4096), HexUnit(c / 256 % 16), HexUnit(c / 16 % 16), HexUnit(c % 16)] + [];
      LowerHex(c / 4096);
      LowerHex(c / 256 % 16);
      LowerHex(c / 16 % 16);
      LowerHex(c % 16);
      hide HexFour, HexUnit;
    }
  }

  lemma LowerHex(d: nat)
    requires d < 16
    ensures HexUnit(d) in Ascii("0123456789abcdef")
  {
    assert Ascii("0123456789abcdef")[d] == HexUnit(d);
  }

  /** A string is spelled unit by unit, except that a high and a low half in a row stay as they are. */
  lemma PairsStay(c: Unit, d: Unit, rest: Str)
    ensures 0xD800 <= c <= 0xDBFF && 0xDC00 <= d <= 0xDFFF ==>
              EscapedAll([c, d] + rest) == [c, d] + EscapedAll(rest)
    ensures !(0xD800 <= c <= 0xDBFF && 0xDC00 <= d <= 0xDFFF) ==>
              EscapedAll([c, d] + rest) == Escaped(c) + EscapedAll([d] + rest)
    ensures EscapedAll([c]) == Escaped(c)
  {
    hide Escaped;
    var s := [c, d] + rest;
    assert s[..2] == [c, d] && s[2..] == rest && s[1..] == [d] + rest;
    assert [c][1..] == [] && EscapedAll([]) == [];
  }
}
