/**
 The chunked transfer decoder of trace-vault/robinhood_link.py (`_chunked`), with Python's
 own reading of the size line: `int(line, 16)` takes surrounding whitespace, a sign, an
 `0x` prefix and single underscores between digits, and slices take negative bounds.
 */
module Chunked {
  import opened Bytes

  const MAX_BODY: nat := 8 * 1024 * 1024
  const CRLF: bytes := [13, 10]
  const SEMICOLON: byte := 59
  const MINUS: byte := 45
  const PLUS: byte := 43
  const UNDERSCORE: byte := 95
  const ZERO: byte := 48

  datatype Failure =
    | InvalidChunkFraming
    | ChunkTrailersOrExtraData
    | BodyTooLargeOrTruncated

  // ----- int(line, 16) -----

  predicate Space(b: byte) { b == 32 || 9 <= b <= 13 }

  predicate HexDigit(b: byte) { 48 <= b <= 57 || 65 <= b <= 70 || 97 <= b <= 102 }

  function DigitValue(b: byte): (v: nat)
    requires HexDigit(b)
    ensures v < 16
  {
    if b <= 57 then b - 48 else if b <= 70 then b - 55 else b - 87
  }

  function LeftStripped(s: bytes): (r: bytes)
    ensures r != [] ==> !Space(r[0]) && r[0] in s
    ensures |r| <= |s|
  {
    if s == [] || !Space(s[0]) then s else LeftStripped(s[1..])
  }

  function RightStripped(s: bytes): (r: bytes)
    ensures r == [] || !Space(r[|r| - 1])
    ensures |r| <= |s|
  {
    if s == [] || !Space(s[|s| - 1]) then s else RightStripped(s[..|s| - 1])
  }

  /** Hex digits with single underscores between them. */
  function Digits(s: bytes): (r: Option<int>)
    ensures r.Some? ==> r.value >= 0
  {
    if s == [] || !HexDigit(s[|s| - 1]) then None
    else if |s| == 1 then Some(DigitValue(s[0]))
    else
      var front := if s[|s| - 2] == UNDERSCORE then s[..|s| - 2] else s[..|s| - 1];
      match Digits(front)
      case None => None
      case Some(high) => Some(16 * high + DigitValue(s[|s| - 1]))
  }

  function Unprefixed(s: bytes): bytes {
    if |s| >= 2 && s[0] == ZERO && s[1] in {88, 120} then
      if |s| >= 3 && s[2] == UNDERSCORE then s[3..] else s[2..]
    else s
  }

  function ReadInt16(line: bytes): Option<int> {
    var s := LeftStripped(line);
    var signed := s != [] && s[0] in {MINUS, PLUS};
    match Digits(RightStripped(Unprefixed(if signed then s[1..] else s)))
    case None => None
    case Some(n) =>
      if signed && s[0] == MINUS then Some(-n) else Some(n)
  }

  // What it reads, spelled out.

  /** A character of the text, as a byte. */
  function Letter(text: string, k: nat): byte
    requires k < |text| && text[k] <= '~'
  {
    text[k] as byte
  }

  /** The value of a hexadecimal digit, in either case. */
  ghost predicate Stands(b: byte, v: nat) {
    v < 16 && (b == Letter("0123456789abcdef", v) || b == Letter("0123456789ABCDEF", v))
  }

  lemma LettersStand(v: nat)
    requires v < 16
    ensures var low, high := Letter("0123456789abcdef", v), Letter("0123456789ABCDEF", v);
      HexDigit(low) && DigitValue(low) == v && HexDigit(high) && DigitValue(high) == v
  {
  }

  lemma DigitIsLetter(b: byte)
    requires HexDigit(b)
    ensures Stands(b, DigitValue(b))
  {
  }

  lemma DigitStands(b: byte)
    ensures HexDigit(b) <==> exists v: nat :: Stands(b, v)
    ensures forall v: nat :: Stands(b, v) ==> HexDigit(b) && DigitValue(b) == v
  {
    if HexDigit(b) {
      DigitIsLetter(b);
    }
    forall v: nat | Stands(b, v)
      ensures HexDigit(b) && DigitValue(b) == v
    {
      LettersStand(v);
    }
    hide HexDigit, DigitValue, Letter;
  }

  ghost predicate Blank(s: bytes) {
    forall i :: 0 <= i < |s| ==> s[i] in {32, 9, 10, 11, 12, 13}
  }

  /** Hexadecimal digits, with single underscores between them. */
  ghost predicate Grouped(s: bytes) {
    && s != [] && s[0] != 95 && s[|s| - 1] != 95
    && (forall i :: 0 <= i < |s| ==> s[i] == 95 || HexDigit(s[i]))
    && forall i :: 0 < i < |s| ==> s[i] != 95 || s[i - 1] != 95
  }

  /** The digits as a number in base sixteen. */
  ghost function Worth(s: bytes): nat {
    if s == [] then 0
    else if HexDigit(s[|s| - 1]) then 16 * Worth(s[..|s| - 1]) + DigitValue(s[|s| - 1])
    else Worth(s[..|s| - 1])
  }

  ghost function Signed(sign: bytes, body: bytes): int {
    if sign == [45] then -(Worth(body) as int) else Worth(body)
  }

  /** The line is blanks, a sign, a prefix, digits and blanks; all but the digits may be missing. */
  ghost predicate IntText(line: bytes, left: bytes, sign: bytes, prefix: bytes, body: bytes, right: bytes) {
    && line == left + (sign + (prefix + (body + right)))
    && Blank(left) && Blank(right) && Grouped(body)
    && sign in {[], [43], [45]} && prefix in {[], [48, 88], [48, 120], [48, 88, 95], [48, 120, 95]}
  }

  /** The text before the last digit, and before an underscore in front of it. */
  function Front(s: bytes): bytes
    requires |s| > 1
  {
    if s[|s| - 2] == 95 then s[..|s| - 2] else s[..|s| - 1]
  }

  lemma GroupedShrinks(s: bytes)
    requires |s| > 1 && Grouped(s)
    ensures HexDigit(s[|s| - 1]) && Grouped(Front(s))
  {
    hide HexDigit;
    assert s[|s| - 2] != 95 || s[|s| - 3] != 95;
  }

  lemma GroupedGrows(s: bytes)
    requires |s| > 1 && HexDigit(s[|s| - 1]) && Grouped(Front(s))
    ensures Grouped(s)
  {
    UnderscoreIsNoDigit();
    hide HexDigit;
    var front := Front(s);
    assert forall i :: 0 <= i < |front| ==> front[i] == s[i];
  }

  lemma WorthGrows(s: bytes)
    requires |s| > 1 && HexDigit(s[|s| - 1])
    ensures Worth(s) == 16 * Worth(Front(s)) + DigitValue(s[|s| - 1])
  {
    UnderscoreIsNoDigit();
    hide HexDigit, DigitValue;
    assert s[|s| - 2] == 95 ==> s[..|s| - 1][..|s| - 2] == s[..|s| - 2];
  }

  lemma UnderscoreIsNoDigit()
    ensures !HexDigit(95)
  {
  }

  lemma {:induction false} DigitsExactly(s: bytes)
    ensures Digits(s).Some? <==> Grouped(s)
    ensures Grouped(s) ==> Digits(s) == Some(Worth(s))
    decreases |s|
  {
    UnderscoreIsNoDigit();
    if |s| > 1 {
      DigitsExactly(Front(s));
      hide HexDigit, DigitValue, Grouped, Worth;
      if Grouped(s) {
        GroupedShrinks(s);
        WorthGrows(s);
      } else if HexDigit(s[|s| - 1]) && Grouped(Front(s)) {
        GroupedGrows(s);
      }
    } else if s != [] {
      assert s[..0] == [];
      hide HexDigit, DigitValue;
    }
  }

  lemma {:induction false} StripsLeft(left: bytes, rest: bytes)
    requires Blank(left) && rest != [] && !Space(rest[0])
    ensures LeftStripped(left + rest) == rest
  {
    if left == [] {
      assert left + rest == rest;
    } else {
      assert (left + rest)[1..] == left[1..] + rest;
      StripsLeft(left[1..], rest);
    }
  }

  lemma {:induction false} StripsRight(rest: bytes, right: bytes)
    requires Blank(right) && rest != [] && !Space(rest[|rest| - 1])
    ensures RightStripped(rest + right) == rest
  {
    if right == [] {
      assert rest + right == rest;
    } else {
      assert (rest + right)[..|rest + right| - 1] == rest + right[..|right| - 1];
      StripsRight(rest, right[..|right| - 1]);
    }
  }

  lemma {:induction false} LeftBlanks(s: bytes) returns (left: bytes)
    ensures s == left + LeftStripped(s) && Blank(left)
  {
    hide HexDigit;
    if s == [] || !Space(s[0]) {
      left := [];
    } else {
      var more := LeftBlanks(s[1..]);
      left := [s[0]] + more;
      assert s == [s[0]] + s[1..];
    }
  }

  lemma {:induction false} RightBlanks(s: bytes) returns (right: bytes)
    ensures s == RightStripped(s) + right && Blank(right)
  {
    if s == [] || !Space(s[|s| - 1]) {
      right := [];
    } else {
      var more := RightBlanks(s[..|s| - 1]);
      right := more + [s[|s| - 1]];
      assert s == s[..|s| - 1] + [s[|s| - 1]];
    }
  }

  lemma GroupedEnds(body: bytes)
    requires Grouped(body)
    ensures HexDigit(body[0]) && HexDigit(body[|body| - 1]) && !Space(body[0]) && !Space(body[|body| - 1])
    ensures |body| > 1 ==> body[1] !in {88, 120}
  {
  }

  lemma PrefixGoes(prefix: bytes, body: bytes, right: bytes)
    requires Grouped(body) && Blank(right) && prefix in {[], [48, 88], [48, 120], [48, 88, 95], [48, 120, 95]}
    ensures Unprefixed(prefix + (body + right)) == body + right
  {
    GroupedEnds(body);
    UnderscoreIsNoDigit();
    hide HexDigit;
    var t := prefix + (body + right);
    assert |prefix| >= 2 ==> t[0] == prefix[0] && t[1] == prefix[1] && t[|prefix|..] == body + right;
    assert |prefix| == 2 ==> t[2] == body[0];
    assert |prefix| == 3 ==> t[2] == prefix[2];
    if prefix == [] {
      assert t == body + right;
      assert |t| > 1 ==> t[1] == if |body| > 1 then body[1] else right[0];
    }
  }

  /** What is left of a text without blanks in front, after its sign. */
  lemma SignGoes(sign: bytes, t: bytes)
    requires sign in {[], [43], [45]} && t != [] && HexDigit(t[0])
    ensures var s := sign + t;
      && s != [] && !Space(s[0]) && (s[0] in {MINUS, PLUS} <==> sign != []) && (s[0] == MINUS <==> sign == [45])
      && (if s[0] in {MINUS, PLUS} then s[1..] else s) == t
  {
    if sign == [] {
      assert sign + t == t;
    } else {
      assert (sign + t)[0] == sign[0] && (sign + t)[1..] == t;
    }
  }

  lemma PrefixStarts(prefix: bytes, body: bytes, right: bytes)
    requires Grouped(body) && prefix in {[], [48, 88], [48, 120], [48, 88, 95], [48, 120, 95]}
    ensures var t := prefix + (body + right); t != [] && HexDigit(t[0])
  {
    GroupedEnds(body);
    var t := prefix + (body + right);
    assert t[0] == if prefix == [] then body[0] else prefix[0];
  }

  lemma ReadInParts(line: bytes, s: bytes, t: bytes, u: bytes, body: bytes, n: nat)
    requires LeftStripped(line) == s && Unprefixed(t) == u && RightStripped(u) == body && Digits(body) == Some(n)
    requires t == if s != [] && s[0] in {MINUS, PLUS} then s[1..] else s
    ensures ReadInt16(line) == Some(if s != [] && s[0] == MINUS then -(n as int) else n)
  {
    hide LeftStripped, RightStripped, Unprefixed, Digits;
  }

  lemma BodyIsRead(line: bytes, left: bytes, sign: bytes, t: bytes, body: bytes, right: bytes)
    requires line == left + (sign + t) && Blank(left) && Blank(right) && Grouped(body)
    requires sign in {[], [43], [45]} && t != [] && HexDigit(t[0]) && Unprefixed(t) == body + right
    ensures ReadInt16(line) == Some(Signed(sign, body))
  {
    GroupedEnds(body);
    hide LeftStripped, RightStripped, Unprefixed, Digits, Worth, Grouped, Blank, ReadInt16;
    SignGoes(sign, t);
    hide HexDigit, Space;
    var s := sign + t;
    StripsLeft(left, s);
    StripsRight(body, right);
    DigitsExactly(body);
    ReadInParts(line, s, t, body + right, body, Worth(body));
  }

  lemma IntIsRead(line: bytes, left: bytes, sign: bytes, prefix: bytes, body: bytes, right: bytes)
    requires IntText(line, left, sign, prefix, body, right)
    ensures ReadInt16(line) == Some(Signed(sign, body))
  {
    hide Unprefixed, Grouped, Blank, HexDigit, ReadInt16, Signed;
    PrefixStarts(prefix, body, right);
    PrefixGoes(prefix, body, right);
    BodyIsRead(line, left, sign, prefix + (body + right), body, right);
  }

  lemma SignFound(s: bytes) returns (sign: bytes, t: bytes)
    ensures s == sign + t && sign in {[], [43], [45]}
    ensures var signed := s != [] && s[0] in {MINUS, PLUS};
      && t == (if signed then s[1..] else s) && (signed && s[0] == MINUS <==> sign == [45])
  {
    sign := if s != [] && s[0] in {MINUS, PLUS} then [s[0]] else [];
    t := s[|sign|..];
  }

  lemma PrefixFound(t: bytes) returns (prefix: bytes)
    ensures t == prefix + Unprefixed(t) && prefix in {[], [48, 88], [48, 120], [48, 88, 95], [48, 120, 95]}
  {
    prefix := t[..|t| - |Unprefixed(t)|];
    assert t == prefix + Unprefixed(t);
    assert |prefix| == 2 ==> prefix == [t[0], t[1]];
    assert |prefix| == 3 ==> prefix == [t[0], t[1], t[2]];
  }

  lemma IntIsFound(line: bytes)
    returns (left: bytes, sign: bytes, prefix: bytes, body: bytes, right: bytes)
    requires ReadInt16(line).Some?
    ensures IntText(line, left, sign, prefix, body, right) && ReadInt16(line) == Some(Signed(sign, body))
  {
    hide Digits, Worth, Grouped, Blank, LeftStripped, RightStripped, Unprefixed;
    left := LeftBlanks(line);
    var t;
    sign, t := SignFound(LeftStripped(line));
    prefix := PrefixFound(t);
    right := RightBlanks(Unprefixed(t));
    body := RightStripped(Unprefixed(t));
    DigitsExactly(body);
  }

  /** `int(line, 16)`: a line is read exactly when it is blanks, at most one sign, at most one prefix
      with at most one underscore behind it, digits with single underscores between them, and blanks;
      and then as those digits with that sign. */
  lemma ReadsInt16Exactly(line: bytes, n: int)
    ensures ReadInt16(line) == Some(n) <==>
            exists left, sign, prefix, body, right ::
              IntText(line, left, sign, prefix, body, right) && n == Signed(sign, body)
  {
    hide ReadInt16, IntText, Signed;
    if ReadInt16(line) == Some(n) {
      var left, sign, prefix, body, right := IntIsFound(line);
    }
    forall left, sign, prefix, body, right | IntText(line, left, sign, prefix, body, right)
      ensures ReadInt16(line) == Some(Signed(sign, body))
    {
      IntIsRead(line, left, sign, prefix, body, right);
    }
  }

  // ----- Python slices -----

  function Index(s: bytes, i: int): (k: nat)
    ensures k <= |s|
  {
    if i < 0 then (if |s| + i < 0 then 0 else |s| + i)
    else if i > |s| then |s| else i
  }

  function PySlice(s: bytes, lo: int, hi: int): bytes {
    if Index(s, lo) <= Index(s, hi) then s[Index(s, lo)..Index(s, hi)] else []
  }

  // ----- The decoder -----

  /** The offset of the first CRLF. */
  function FindCrlf(data: bytes): (r: Option<nat>)
    ensures r.Some? ==> r.value + 2 <= |data| && data[r.value..r.value + 2] == CRLF
    ensures r.Some? ==> forall i :: 0 <= i < r.value ==> data[i] != 13 || data[i + 1] != 10
  {
    if |data| < 2 then None
    else if data[0] == 13 && data[1] == 10 then Some(0)
    else
      match FindCrlf(data[1..])
      case None => None
      case Some(n) => assert data[1..][n..n + 2] == data[n + 1..n + 3]; Some(n + 1)
  }

  /** The size line, its value and what follows it. */
  datatype Head = Head(line: bytes, size: int, rest: bytes)

  function ReadHead(data: bytes): (r: Option<Head>)
    ensures r.Some? ==> data == r.value.line + CRLF + r.value.rest && ReadInt16(r.value.line) == Some(r.value.size)
    ensures r.Some? ==> SEMICOLON !in r.value.line && FindCrlf(data) == Some(|r.value.line|)
  {
    match FindCrlf(data)
    case None => None
    case Some(n) =>
      var line := data[..n];
      assert data == line + data[n..n + 2] + data[n + 2..];
      if SEMICOLON in line || ReadInt16(line) == None then None
      else Some(Head(line, ReadInt16(line).value, data[n + 2..]))
  }

  predicate TooLarge(h: Head, out: nat) {
    h.size > MAX_BODY || out + h.size > MAX_BODY || |h.rest| < h.size + 2
  }

  function Decoded(data: bytes, out: bytes): Result<bytes, Failure>
    decreases |data|
  {
    match ReadHead(data)
    case None => Err(InvalidChunkFraming)
    case Some(h) =>
      if h.size == 0 then
        if h.rest != CRLF then Err(ChunkTrailersOrExtraData) else Ok(out)
      else if TooLarge(h, |out|) then Err(BodyTooLargeOrTruncated)
      else if PySlice(h.rest, h.size, h.size + 2) != CRLF then Err(InvalidChunkFraming)
      else Decoded(h.rest[Index(h.rest, h.size + 2)..], out + PySlice(h.rest, 0, h.size))
  }

  method Decode(input: bytes) returns (r: Result<bytes, Failure>)
    ensures r == Decoded(input, [])
  {
    hide ReadInt16, FindCrlf;
    var data, out := input, [];
    while true
      invariant Decoded(input, []) == Decoded(data, out)
      decreases |data|
    {
      var at := FindCrlf(data);
      if at == None {
        return Err(InvalidChunkFraming);
      }
      var line := data[..at.value];
      if SEMICOLON in line {
        return Err(InvalidChunkFraming);
      }
      var size := ReadInt16(line);
      if size == None {
        return Err(InvalidChunkFraming);
      }
      var n := size.value;
      data := data[at.value + 2..];
      if n == 0 {
        if data != CRLF {
          return Err(ChunkTrailersOrExtraData);
        }
        return Ok(out);
      }
      if n > MAX_BODY || |out| + n > MAX_BODY || |data| < n + 2 {
        return Err(BodyTooLargeOrTruncated);
      }
      out := out + PySlice(data, 0, n);
      if PySlice(data, n, n + 2) != CRLF {
        return Err(InvalidChunkFraming);
      }
      data := data[Index(data, n + 2)..];
    }
  }

  // ----- Plain size lines -----

  predicate Plain(line: bytes) {
    line != [] && forall i :: 0 <= i < |line| ==> HexDigit(line[i])
  }

  lemma {:induction false} PlainHasValue(line: bytes)
    requires Plain(line)
    ensures Digits(line).Some?
  {
    if |line| > 1 {
      assert HexDigit(line[|line| - 1]) && HexDigit(line[|line| - 2]);
      PlainHasValue(line[..|line| - 1]);
    }
  }

  /** On plain hexadecimal, `int(line, 16)` is the ordinary positional value. */
  lemma PlainReads(line: bytes)
    requires Plain(line)
    ensures Digits(line).Some? && ReadInt16(line) == Some(Digits(line).value)
  {
    PlainHasValue(line);
    assert HexDigit(line[0]) && HexDigit(line[|line| - 1]);
    assert |line| >= 2 ==> HexDigit(line[1]);
    hide Digits;
  }

  /** Every size has a plain line. */
  function HexLine(n: nat): (line: bytes)
    ensures Plain(line) && Digits(line) == Some(n)
  {
    var last := if n % 16 < 10 then 48 + n % 16 else 87 + n % 16;
    if n < 16 then [last]
    else
      var front := HexLine(n / 16);
      assert HexDigit(front[|front| - 1]);
      assert (front + [last])[..|front|] == front;
      front + [last]
  }

  lemma MinusMeansMinus(line: bytes)
    requires ReadInt16(line).Some? && ReadInt16(line).value < 0
    ensures MINUS in line && |line| >= 2
  {
    assert MINUS in line;
  }

  // ----- The grammar (RFC 9112 section 7.1, without extensions or trailers) -----

  datatype Piece = Piece(line: bytes, chunk: bytes)

  /** A line without a semicolon that the decoder reads as a whole. */
  ghost predicate Line(line: bytes) {
    59 !in line && FindCrlf(line + CRLF) == Some(|line|)
  }

  ghost predicate Framed(p: Piece) {
    Line(p.line) && p.chunk != [] && ReadInt16(p.line) == Some(|p.chunk|)
  }

  ghost function Rendered(ps: seq<Piece>, last: bytes): bytes {
    if ps == [] then last + CRLF + CRLF
    else ps[0].line + CRLF + (ps[0].chunk + CRLF + Rendered(ps[1..], last))
  }

  function Body(ps: seq<Piece>): bytes {
    if ps == [] then [] else ps[0].chunk + Body(ps[1..])
  }

  lemma {:induction false} CrlfStays(line: bytes, rest: bytes)
    requires FindCrlf(line + CRLF) == Some(|line|)
    ensures FindCrlf(line + CRLF + rest) == Some(|line|)
    decreases |line|
  {
    if line != [] {
      var s, t := line + CRLF, line + CRLF + rest;
      assert s[1..] == line[1..] + CRLF && t[1..] == line[1..] + CRLF + rest;
      assert s[0] == t[0] && s[1] == t[1];
      CrlfStays(line[1..], rest);
    }
  }

  lemma ReadsLine(line: bytes, rest: bytes)
    requires Line(line) && ReadInt16(line).Some?
    ensures ReadHead(line + CRLF + rest) == Some(Head(line, ReadInt16(line).value, rest))
  {
    hide ReadInt16, FindCrlf;
    CrlfStays(line, rest);
    var data := line + CRLF + rest;
    assert data[..|line|] == line && data[|line| + 2..] == rest;
  }

  lemma {:induction false} PlainIsLine(line: bytes)
    requires Plain(line)
    ensures Line(line)
  {
    assert forall i :: 0 <= i < |line| ==> HexDigit(line[i]) && line[i] != 59;
    PlainFindsCrlf(line);
  }

  lemma {:induction false} PlainFindsCrlf(line: bytes)
    requires forall i :: 0 <= i < |line| ==> HexDigit(line[i])
    ensures FindCrlf(line + CRLF) == Some(|line|)
  {
    if line != [] {
      assert HexDigit(line[0]) && (line + CRLF)[0] == line[0];
      assert (line + CRLF)[1..] == line[1..] + CRLF;
      PlainFindsCrlf(line[1..]);
    }
  }

  lemma TakesChunk(chunk: bytes, next: bytes)
    ensures var rest := chunk + CRLF + next;
      && PySlice(rest, 0, |chunk|) == chunk
      && PySlice(rest, |chunk|, |chunk| + 2) == CRLF
      && rest[Index(rest, |chunk| + 2)..] == next
  {
  }

  lemma TakesPiece(p: Piece, next: bytes, out: bytes)
    requires Framed(p)
    ensures Decoded(p.line + CRLF + (p.chunk + CRLF + next), out)
         == if |out| + |p.chunk| <= 8_388_608 then Decoded(next, out + p.chunk) else Err(BodyTooLargeOrTruncated)
  {
    hide ReadInt16, FindCrlf, ReadHead, PySlice, Index, Line;
    ReadsLine(p.line, p.chunk + CRLF + next);
    TakesChunk(p.chunk, next);
  }

  lemma TakesLast(last: bytes, out: bytes)
    requires Line(last) && ReadInt16(last) == Some(0)
    ensures Decoded(last + CRLF + CRLF, out) == Ok(out)
  {
    hide ReadInt16, FindCrlf, ReadHead, PySlice, Index, Line;
    ReadsLine(last, CRLF);
  }

  /** Whatever the framing, the decoder returns the chunks joined together, unless that would take
      it beyond the bound: then it fails. */
  lemma {:induction false} DecodesRendered(ps: seq<Piece>, last: bytes, out: bytes)
    requires forall i :: 0 <= i < |ps| ==> Framed(ps[i])
    requires Line(last) && ReadInt16(last) == Some(0) && |out| <= 8_388_608
    ensures Decoded(Rendered(ps, last), out)
         == if |out| + |Body(ps)| <= 8_388_608 then Ok(out + Body(ps)) else Err(BodyTooLargeOrTruncated)
    decreases |ps|
  {
    hide Decoded, ReadInt16, Line;
    if ps == [] {
      TakesLast(last, out);
      assert out + Body(ps) == out;
    } else {
      var p := ps[0];
      assert Framed(p);
      TakesPiece(p, Rendered(ps[1..], last), out);
      AppendAssociates(out, p.chunk, Body(ps[1..]));
      if |out| + |p.chunk| <= MAX_BODY {
        DecodesRendered(ps[1..], last, out + p.chunk);
      }
    }
  }

  /** Round trip: every way of cutting a body of at most `MAX_BODY` bytes into nonempty chunks,
      with any plain size lines, decodes to that body, and every longer body is refused. */
  lemma RoundTrip(ps: seq<Piece>, last: bytes)
    requires forall i :: 0 <= i < |ps| ==>
                 ps[i].chunk != [] && Plain(ps[i].line) && Digits(ps[i].line) == Some(|ps[i].chunk|)
    requires Plain(last) && Digits(last) == Some(0)
    ensures Decoded(Rendered(ps, last), [])
         == if |Body(ps)| <= 8_388_608 then Ok(Body(ps)) else Err(BodyTooLargeOrTruncated)
  {
    hide ReadInt16, FindCrlf, ReadHead, Decoded, Rendered, Body, Digits, HexDigit;
    forall i | 0 <= i < |ps|
      ensures Framed(ps[i])
    {
      PlainReads(ps[i].line);
      PlainIsLine(ps[i].line);
    }
    PlainReads(last);
    PlainIsLine(last);
    DecodesRendered(ps, last, []);
    assert [] + Body(ps) == Body(ps);
  }

  // ----- What is accepted -----

  /** The size lines that the decoder meets. */
  function Lines(data: bytes): seq<bytes>
    decreases |data|
  {
    match ReadHead(data)
    case None => []
    case Some(h) => [h.line] + (if h.size == 0 then [] else Lines(h.rest[Index(h.rest, h.size + 2)..]))
  }

  ghost predicate NoSigns(data: bytes) {
    forall i :: 0 <= i < |Lines(data)| ==> MINUS !in Lines(data)[i]
  }

  lemma {:induction false} CrlfWithin(line: bytes, rest: bytes)
    requires FindCrlf(line + CRLF + rest) == Some(|line|)
    ensures FindCrlf(line + CRLF) == Some(|line|)
    decreases |line|
  {
    if line != [] {
      var s, t := line + CRLF, line + CRLF + rest;
      assert s[1..] == line[1..] + CRLF && t[1..] == line[1..] + CRLF + rest;
      assert s[0] == t[0] && s[1] == t[1];
      CrlfWithin(line[1..], rest);
    }
  }

  lemma ChunkTaken(rest: bytes, n: nat)
    requires |rest| >= n + 2 && PySlice(rest, n, n + 2) == CRLF
    ensures rest == PySlice(rest, 0, n) + CRLF + rest[Index(rest, n + 2)..] && |PySlice(rest, 0, n)| == n
    ensures |rest| == n + 2 + |rest[Index(rest, n + 2)..]|
  {
    assert rest == rest[..n] + rest[n..n + 2] + rest[n + 2..];
  }

  lemma HeadReads(data: bytes) returns (h: Head)
    requires ReadHead(data).Some?
    ensures ReadHead(data) == Some(h) && data == h.line + CRLF + h.rest
    ensures Line(h.line) && ReadInt16(h.line) == Some(h.size)
    ensures |data| == |h.line| + 2 + |h.rest| && |h.line| > 0
  {
    hide ReadInt16, FindCrlf;
    EmptyLineHasNoValue();
    h := ReadHead(data).value;
    CrlfWithin(h.line, h.rest);
  }

  lemma PieceTaken(data: bytes, out: bytes) returns (p: Piece, next: bytes)
    requires Decoded(data, out).Ok? && ReadHead(data).value.size > 0
    ensures Framed(p) && data == p.line + CRLF + (p.chunk + CRLF + next)
    ensures |data| == |p.line| + |p.chunk| + 4 + |next|
    ensures Decoded(data, out) == Decoded(next, out + p.chunk) && |out + p.chunk| <= 8_388_608
    ensures Lines(data) == [p.line] + Lines(next)
  {
    hide ReadInt16, FindCrlf, PySlice, Index, ReadHead;
    var h := HeadReads(data);
    ChunkTaken(h.rest, h.size);
    p, next := Piece(h.line, PySlice(h.rest, 0, h.size)), h.rest[Index(h.rest, h.size + 2)..];
  }

  lemma NoSignNoMinus(data: bytes)
    requires ReadHead(data).Some? && NoSigns(data)
    ensures ReadHead(data).value.size >= 0
  {
    hide ReadInt16, FindCrlf, Index;
    var h := ReadHead(data).value;
    assert Lines(data)[0] == h.line;
    if h.size < 0 {
      MinusMeansMinus(h.line);
    }
  }

  lemma RestHasNoSigns(data: bytes, line: bytes, next: bytes)
    requires NoSigns(data) && Lines(data) == [line] + Lines(next)
    ensures NoSigns(next)
  {
    hide Lines;
    assert forall i :: 0 <= i < |Lines(next)| ==> Lines(next)[i] == Lines(data)[i + 1];
  }

  /** Without a minus sign in a size line, the accepted inputs are exactly the rendered ones
      (`DecodesRendered` is the other half) and the result never exceeds `MAX_BODY`. */
  lemma {:induction false} AcceptsOnlyRendered(data: bytes, out: bytes) returns (ps: seq<Piece>, last: bytes)
    requires Decoded(data, out).Ok? && NoSigns(data) && |out| <= 8_388_608
    ensures forall i :: 0 <= i < |ps| ==> Framed(ps[i])
    ensures Line(last) && ReadInt16(last) == Some(0)
    ensures data == Rendered(ps, last)
    ensures Decoded(data, out) == Ok(out + Body(ps)) && |out + Body(ps)| <= 8_388_608
    decreases |data|
  {
    hide ReadInt16, FindCrlf, PySlice, Index, ReadHead, Lines, NoSigns, Line, Framed;
    var h := HeadReads(data);
    NoSignNoMinus(data);
    if h.size == 0 {
      ps, last := [], h.line;
      assert out + Body([]) == out;
    } else {
      var p, next := PieceTaken(data, out);
      RestHasNoSigns(data, p.line, next);
      var more, end := AcceptsOnlyRendered(next, out + p.chunk);
      ps, last := [p] + more, end;
      assert ps[1..] == more;
      AppendAssociates(out, p.chunk, Body(more));
    }
  }

  // ----- Exactly when the body bound holds -----

  lemma NegativeChunk(rest: bytes, n: int)
    requires n < 0 && PySlice(rest, n, n + 2) == CRLF
    ensures |PySlice(rest, 0, n)| + 2 + |rest[Index(rest, n + 2)..]| == |rest|
  {
  }

  /** What one chunk adds to the output and takes from the input. */
  lemma ChunkCosts(data: bytes, out: bytes) returns (out': bytes, next: bytes)
    requires Decoded(data, out).Ok? && ReadHead(data).value.size != 0
    ensures Decoded(data, out) == Decoded(next, out') && |next| < |data|
    ensures |out'| + |next| <= |out| + |data|
    ensures |out'| <= 8_388_608 || |out'| + |next| + 6 <= |out| + |data|
  {
    hide ReadInt16, FindCrlf, PySlice, Index, ReadHead, Lines, Line;
    var h := HeadReads(data);
    if h.size < 0 {
      out', next := NegativePieceTaken(data, out);
    } else {
      var p;
      p, next := PieceTaken(data, out);
      out' := out + p.chunk;
    }
  }

  lemma NegativePieceTaken(data: bytes, out: bytes) returns (out': bytes, next: bytes)
    requires Decoded(data, out).Ok? && ReadHead(data).value.size < 0
    ensures Decoded(data, out) == Decoded(next, out') && |next| < |data|
    ensures |out'| + |next| + 6 <= |out| + |data|
  {
    hide ReadInt16, FindCrlf, PySlice, Index, ReadHead, Line;
    var h := HeadReads(data);
    MinusMeansMinus(h.line);
    NegativeChunk(h.rest, h.size);
    out', next := out + PySlice(h.rest, 0, h.size), h.rest[Index(h.rest, h.size + 2)..];
  }

  /** The result is within the bound, or nothing was added, or the framing cost eleven bytes. */
  lemma {:induction false} Accounting(data: bytes, out: bytes)
    requires Decoded(data, out).Ok?
    ensures var n := |Decoded(data, out).value|;
      n + 5 <= |out| + |data| && (n <= 8_388_608 || n == |out| || n + 11 <= |out| + |data|)
    decreases |data|
  {
    hide ReadInt16, FindCrlf, PySlice, Index, ReadHead;
    var h := HeadReads(data);
    if h.size != 0 {
      var out', next := ChunkCosts(data, out);
      Accounting(next, out');
    }
  }

  lemma EmptyLineHasNoValue()
    ensures ReadInt16([]) == None
  {
    assert RightStripped([]) == [];
  }

  lemma MinusSevenIsALine()
    ensures Line([MINUS, 55]) && ReadInt16([MINUS, 55]) == Some(-7)
  {
    var line := [MINUS, 55];
    assert LeftStripped(line) == line && line[1..] == [55];
    assert RightStripped([55]) == [55];
    assert (line + CRLF)[1..] == [55] + CRLF;
    assert ([55] + CRLF)[1..] == CRLF;
    assert FindCrlf(CRLF) == Some(0) && FindCrlf([55] + CRLF) == Some(1);
  }

  lemma TakesAllButSeven(a: bytes, tail: bytes)
    requires |tail| == 5
    ensures var rest := a + CRLF + tail;
      PySlice(rest, 0, -7) == a && PySlice(rest, -7, -5) == CRLF && rest[Index(rest, -5)..] == tail
  {
  }

  /** A size line of "-7" makes the decoder return everything but the last seven bytes, with
      no regard to `MAX_BODY`. */
  lemma NegativeSizeLine(a: bytes)
    ensures Decoded([MINUS, 55] + CRLF + (a + CRLF + ([ZERO] + CRLF + CRLF)), []) == Ok(a)
  {
    hide ReadInt16, FindCrlf, PySlice, Index, ReadHead, Line, Digits;
    var tail := [ZERO] + CRLF + CRLF;
    MinusSevenIsALine();
    ReadsLine([MINUS, 55], a + CRLF + tail);
    TakesAllButSeven(a, tail);
    ZeroIsALine();
    ReadsLine([ZERO], CRLF);
    assert [] + a == a;
  }

  lemma ZeroIsALine()
    ensures Line([ZERO]) && ReadInt16([ZERO]) == Some(0)
  {
    PlainReads([ZERO]);
    PlainIsLine([ZERO]);
  }

  /** `MAX_BODY` bounds the result of every accepted input of at most `n` bytes if and only if
      `n` does not exceed `MAX_BODY` by more than eleven. */
  lemma BodyBoundExactly(n: nat)
    ensures (forall data: bytes :: |data| <= n && Decoded(data, []).Ok? ==> |Decoded(data, []).value| <= 8_388_608)
            <==> n <= 8_388_608 + 11
  {
    hide Decoded;
    if n <= MAX_BODY + 11 {
      forall data: bytes | |data| <= n && Decoded(data, []).Ok?
        ensures |Decoded(data, []).value| <= MAX_BODY
      {
        Accounting(data, []);
      }
    } else {
      var a := Zeros(MAX_BODY + 1);
      var data := [MINUS, 55] + CRLF + (a + CRLF + ([ZERO] + CRLF + CRLF));
      NegativeSizeLine(a);
      assert |data| == MAX_BODY + 12;
    }
  }
}
