/**
 The two ClientHello walkers of trace-vault/witness.py: `_parse_sni`, which reads the host
 name and gives up quietly on anything odd, and `_offered_alpn`, which insists on an exact
 sequence of extensions.
 */
module ClientHello {
  import opened Bytes

  const CLIENT_HELLO: byte := 1
  const HANDSHAKE_RECORD: byte := 0x16
  const SERVER_NAME: nat := 0
  const ALPN: nat := 16

  // ----- Well-formed messages (RFC 8446 section 4.1.2) -----

  datatype Extension = Extension(kind: nat, data: bytes)

  ghost predicate Sized(e: Extension) { e.kind < Pow256(2) && |e.data| < Pow256(2) }

  ghost predicate AllSized(es: seq<Extension>) {
    forall i :: 0 <= i < |es| ==> Sized(es[i])
  }

  ghost predicate DistinctKinds(es: seq<Extension>) {
    forall i, j :: 0 <= i < j < |es| ==> es[i].kind != es[j].kind
  }

  ghost function ExtensionThen(e: Extension, rest: bytes): bytes
    requires Sized(e)
  {
    ToBE(e.kind, 2) + (ToBE(|e.data|, 2) + (e.data + rest))
  }

  ghost function ExtensionBytes(es: seq<Extension>): bytes
    requires AllSized(es)
  {
    if es == [] then []
    else
      assert Sized(es[0]);
      ExtensionThen(es[0], ExtensionBytes(es[1..]))
  }

  /** The protocol names of an ALPN extension (RFC 7301 section 3.1). */
  ghost predicate ProperNames(names: seq<bytes>) {
    forall i :: 0 <= i < |names| ==> 0 < |names[i]| < 256 && Ascii(names[i])
  }

  predicate Ascii(s: bytes) {
    forall i :: 0 <= i < |s| ==> s[i] < 128
  }

  ghost function NameBytes(names: seq<bytes>): bytes
    requires ProperNames(names)
  {
    if names == [] then [] else [|names[0]|] + (names[0] + NameBytes(names[1..]))
  }

  // ----- Reading one extension -----

  function KindOf(rest: bytes): nat { BE(Slice(rest, 0, 2)) }

  function SizeOf(rest: bytes): nat { BE(Slice(rest, 2, 4)) }

  lemma ReadsFirstExtension(e: Extension, rest: bytes)
    requires Sized(e)
    ensures var bs := ExtensionThen(e, rest);
      |bs| >= 4 + |e.data| && KindOf(bs) == e.kind && SizeOf(bs) == |e.data|
      && bs[4..4 + |e.data|] == e.data && bs[4 + |e.data|..] == rest
  {
    hide BE;
    var bs := ExtensionThen(e, rest);
    assert Slice(bs, 0, 2) == ToBE(e.kind, 2);
    assert Slice(bs, 2, 4) == ToBE(|e.data|, 2);
    assert bs[4..] == e.data + rest;
    assert bs[4..4 + |e.data|] == bs[4..][..|e.data|] == e.data;
    assert bs[4 + |e.data|..] == bs[4..][|e.data|..] == rest;
  }

  /** Four header bytes and a body of the announced size are one extension. */
  lemma FirstExtensionReads(bs: bytes) returns (e: Extension)
    requires 4 + SizeOf(bs) <= |bs|
    ensures e == Extension(KindOf(bs), bs[4..4 + SizeOf(bs)])
    ensures Sized(e) && bs == ExtensionThen(e, bs[4 + SizeOf(bs)..])
  {
    HeaderFields(bs);
    hide BE, ToBE, Slice, Pow256, KindOf, SizeOf;
    var n := 4 + SizeOf(bs);
    e := Extension(KindOf(bs), bs[4..n]);
    FourParts(bs, n);
  }

  lemma HeaderFields(bs: bytes)
    requires |bs| >= 4
    ensures KindOf(bs) < Pow256(2) && ToBE(KindOf(bs), 2) == bs[..2]
    ensures SizeOf(bs) < Pow256(2) && ToBE(SizeOf(bs), 2) == bs[2..4]
  {
    assert Slice(bs, 0, 2) == bs[..2] && Slice(bs, 2, 4) == bs[2..4];
    hide BE, ToBE, Pow256, Slice;
    ToBEInverts(bs[..2]);
    ToBEInverts(bs[2..4]);
  }

  lemma FourParts(bs: bytes, n: nat)
    requires 4 <= n <= |bs|
    ensures bs == bs[..2] + (bs[2..4] + (bs[4..n] + bs[n..]))
  {
    assert bs[4..] == bs[4..n] + bs[n..];
    assert bs[2..] == bs[2..4] + bs[4..];
  }

  // ----- The ALPN walker -----

  /** The names in an ALPN list; an empty, overlong or non-ASCII name raises. */
  function Names(bs: bytes): Option<seq<bytes>>
    decreases |bs|
  {
    if bs == [] then Some([])
    else if bs[0] == 0 || 1 + bs[0] as int > |bs| || !Ascii(bs[1..1 + bs[0] as int]) then None
    else Prefixed([bs[1..1 + bs[0] as int]], Names(bs[1 + bs[0] as int..]))
  }

  function Protocols(data: bytes): Option<seq<bytes>> {
    if |data| < 2 || BE(data[..2]) != |data| - 2 then None else Names(data[2..])
  }

  /** What one extension adds to the offer. */
  function Contribution(kind: nat, data: bytes): Option<seq<bytes>> {
    if kind == ALPN then Protocols(data) else Some([])
  }

  /** The protocols offered by a run of extensions whose kinds are new. */
  function Offered(bs: bytes, seen: set<nat>): Option<seq<bytes>>
    decreases |bs|
  {
    if bs == [] then Some([])
    else if |bs| < 4 || KindOf(bs) in seen || 4 + SizeOf(bs) > |bs| then None
    else
      match Contribution(KindOf(bs), bs[4..4 + SizeOf(bs)])
      case None => None
      case Some(mine) => Prefixed(mine, Offered(bs[4 + SizeOf(bs)..], seen + {KindOf(bs)}))
  }

  /** Where the extensions start, and where their announced size ends; None is an index error. */
  function ExtensionRange(hs: bytes): Option<(nat, nat)> {
    if |hs| <= 38 then None else
    var p := 38 + 1 + hs[38] as int;
    var q := p + 2 + BE(Slice(hs, p, p + 2));
    if q >= |hs| then None else
    var r := q + 1 + hs[q] as int;
    Some((r + 2, r + 2 + BE(Slice(hs, r, r + 2))))
  }

  function AlpnOffer(rec: bytes): Option<seq<bytes>> {
    if |rec| < 44 || rec[0] != HANDSHAKE_RECORD || rec[5] != CLIENT_HELLO || BE(rec[3..5]) != |rec| - 5 then None else
    var hs := rec[5..];
    if BE(hs[1..4]) != |hs| - 4 then None else
    match ExtensionRange(hs)
    case None => None
    case Some((start, end)) => if end != |hs| then None else Offered(hs[start..], {})
  }

  method NamesIn(data: bytes) returns (r: Option<seq<bytes>>)
    ensures r == Protocols(data)
  {
    if |data| < 2 || BE(data[..2]) != |data| - 2 {
      return None;
    }
    var i, names := 2, [];
    PrefixedTwice([], [], Names(data[2..]));
    while i < |data|
      invariant 2 <= i <= |data|
      invariant Protocols(data) == Prefixed(names, Names(data[i..]))
    {
      var n := data[i] as int;
      ghost var rest := data[i..];
      assert rest[0] == data[i];
      i := i + 1;
      if n == 0 || i + n > |data| {
        return None;
      }
      assert rest[1..1 + n] == data[i..i + n] && rest[1 + n..] == data[i + n..];
      if !Ascii(data[i..i + n]) {
        return None;
      }
      PrefixedTwice(names, [data[i..i + n]], Names(data[i + n..]));
      names := names + [data[i..i + n]];
      i := i + n;
    }
    assert names + [] == names;
    r := Some(names);
  }

  method OfferedAlpn(rec: bytes) returns (r: Option<seq<bytes>>)
    ensures r == AlpnOffer(rec)
  {
    hide BE, Protocols, Slice, Offered;
    if |rec| < 44 || rec[0] != HANDSHAKE_RECORD || rec[5] != CLIENT_HELLO || BE(rec[3..5]) != |rec| - 5 {
      return None;
    }
    var hs := rec[5..];
    if BE(hs[1..4]) != |hs| - 4 {
      return None;
    }
    var p: nat := 38;
    p := p + 1 + hs[p] as int;
    p := p + 2 + BE(Slice(hs, p, p + 2));
    if p >= |hs| {
      return None;
    }
    p := p + 1 + hs[p] as int;
    var end := p + 2 + BE(Slice(hs, p, p + 2));
    p := p + 2;
    if end != |hs| {
      return None;
    }
    r := OfferedFrom(hs, p);
  }

  /** One round of the walk, at offset `p` of a hello. */
  lemma OfferedStep(hs: bytes, p: nat, seen: set<nat>)
    requires p < |hs|
    ensures var kind, size := BE(Slice(hs, p, p + 2)), BE(Slice(hs, p + 2, p + 4));
      var q := p + 4;
      Offered(hs[p..], seen)
      == if q > |hs| || kind in seen || q + size > |hs| then None
         else
           match Contribution(kind, hs[q..q + size])
           case None => None
           case Some(mine) => Prefixed(mine, Offered(hs[q + size..], seen + {kind}))
  {
    hide BE, Contribution;
    var rest := hs[p..];
    if p + 4 <= |hs| {
      assert Slice(rest, 0, 2) == Slice(hs, p, p + 2) && Slice(rest, 2, 4) == Slice(hs, p + 2, p + 4);
      hide Slice;
      var q, size := p + 4, SizeOf(rest);
      if q + size <= |hs| {
        assert rest[4..4 + size] == hs[q..q + size] && rest[4 + size..] == hs[q + size..];
      }
    }
  }

  method OfferedFrom(hs: bytes, start: nat) returns (r: Option<seq<bytes>>)
    requires start <= |hs|
    ensures r == Offered(hs[start..], {})
  {
    hide BE, Protocols, Slice;
    var p, end := start, |hs|;
    var protocols, seen := [], {};
    PrefixedTwice([], [], Offered(hs[p..], {}));
    while p < end
      invariant start <= p <= end
      invariant Offered(hs[start..], {}) == Prefixed(protocols, Offered(hs[p..], seen))
    {
      hide Offered;
      OfferedStep(hs, p, seen);
      if p + 4 > end {
        return None;
      }
      var kind, size := BE(Slice(hs, p, p + 2)), BE(Slice(hs, p + 2, p + 4));
      p := p + 4;
      if kind in seen || p + size > end {
        return None;
      }
      if kind == ALPN {
        var more := NamesIn(hs[p..p + size]);
        if more == None {
          return None;
        }
        PrefixedTwice(protocols, more.value, Offered(hs[p + size..], seen + {kind}));
        protocols := protocols + more.value;
      } else {
        PrefixedTwice([], [], Offered(hs[p + size..], seen + {kind}));
      }
      seen := seen + {kind};
      p := p + size;
    }
    assert protocols + [] == protocols;
    r := Some(protocols);
  }

  // ----- The SNI walker -----

  /** The first server name from offset `p` on. Reading past the end raises, which counts as
      no name; slices are clamped as in Python. `decodes` is the UTF-8 decoder's verdict. */
  function SniFrom(hs: bytes, p: nat, end: nat, decodes: bytes -> bool): Option<bytes>
    decreases end - p
  {
    if p >= end then None
    else
      var kind, size := BE(Slice(hs, p, p + 2)), BE(Slice(hs, p + 2, p + 4));
      var q := p + 4;
      if kind == SERVER_NAME && q + 2 >= |hs| then None
      else if kind == SERVER_NAME && hs[q + 2] == 0 then HostAt(hs, q, decodes)
      else SniFrom(hs, q + size, end, decodes)
  }

  function HostAt(hs: bytes, q: nat, decodes: bytes -> bool): Option<bytes> {
    var host := Slice(hs, q + 5, q + 5 + BE(Slice(hs, q + 3, q + 5)));
    if decodes(host) then Some(host) else None
  }

  function Sni(rec: bytes, decodes: bytes -> bool): Option<bytes> {
    if |rec| <= 5 || rec[0] != HANDSHAKE_RECORD || rec[5] != CLIENT_HELLO then None
    else
      match ExtensionRange(rec[5..])
      case None => None
      case Some((start, end)) => SniFrom(rec[5..], start, end, decodes)
  }

  method ParseSni(rec: bytes, decodes: bytes -> bool) returns (r: Option<bytes>)
    ensures r == Sni(rec, decodes)
  {
    hide BE, Slice, SniFrom;
    if |rec| == 0 || (rec[0] == HANDSHAKE_RECORD && |rec| <= 5) {
      return None;
    }
    if rec[0] != HANDSHAKE_RECORD || rec[5] != CLIENT_HELLO {
      return None;
    }
    var hs := rec[5..];
    var p: nat := 4 + 2 + 32;
    if p >= |hs| {
      return None;
    }
    p := p + 1 + hs[p] as int;
    p := p + 2 + BE(Slice(hs, p, p + 2));
    if p >= |hs| {
      return None;
    }
    p := p + 1 + hs[p] as int;
    var end := p + 2 + BE(Slice(hs, p, p + 2));
    p := p + 2;
    r := SniIn(hs, p, end, decodes);
  }

  method SniIn(hs: bytes, start: nat, end: nat, decodes: bytes -> bool) returns (r: Option<bytes>)
    ensures r == SniFrom(hs, start, end, decodes)
  {
    hide BE, Slice, HostAt;
    var p := start;
    while p < end
      invariant SniFrom(hs, start, end, decodes) == SniFrom(hs, p, end, decodes)
      decreases end - p
    {
      var kind, size := BE(Slice(hs, p, p + 2)), BE(Slice(hs, p + 2, p + 4));
      p := p + 4;
      if kind == SERVER_NAME {
        if p + 2 >= |hs| {
          return None;
        }
        if hs[p + 2] == 0 {
          return HostAt(hs, p, decodes);
        }
      }
      p := p + size;
    }
    r := None;
  }

  // ----- What the ALPN walker accepts -----

  lemma {:induction false} NamesAreExact(bs: bytes)
    ensures match Names(bs)
            case Some(names) => ProperNames(names) && bs == NameBytes(names)
            case None => forall names :: ProperNames(names) ==> bs != NameBytes(names)
    decreases |bs|
  {
    if bs != [] {
      var n := bs[0] as int;
      if n > 0 && 1 + n <= |bs| {
        var name, rest := bs[1..1 + n], bs[1 + n..];
        NamesAreExact(rest);
        assert bs == [n] + (name + rest);
        if Names(bs).Some? {
          var names := Names(bs).value;
          assert names[1..] == Names(rest).value;
        }
      }
      forall names | ProperNames(names) && bs == NameBytes(names)
        ensures Names(bs).Some?
      {
        NamesRead(names);
      }
    }
  }

  lemma {:induction false} NamesRead(names: seq<bytes>)
    requires ProperNames(names)
    ensures Names(NameBytes(names)) == Some(names)
  {
    if names != [] {
      var bs, rest := NameBytes(names), NameBytes(names[1..]);
      assert bs[1..1 + |names[0]|] == names[0] && bs[1 + |names[0]|..] == rest;
      NamesRead(names[1..]);
      assert names == [names[0]] + names[1..];
    }
  }

  /** What a list of extensions offers, read off the list itself. */
  ghost function OfferOf(es: seq<Extension>): Option<seq<bytes>> {
    if es == [] then Some([])
    else
      match Contribution(es[0].kind, es[0].data)
      case None => None
      case Some(mine) => Prefixed(mine, OfferOf(es[1..]))
  }

  lemma {:induction false} OfferedReads(es: seq<Extension>, seen: set<nat>)
    requires AllSized(es) && DistinctKinds(es)
    requires forall i :: 0 <= i < |es| ==> es[i].kind !in seen
    ensures Offered(ExtensionBytes(es), seen) == OfferOf(es)
    decreases |es|
  {
    hide BE, Contribution, ExtensionThen, KindOf, SizeOf;
    if es != [] {
      assert Sized(es[0]);
      ReadsFirstExtension(es[0], ExtensionBytes(es[1..]));
      OfferedReads(es[1..], seen + {es[0].kind});
    }
  }

  lemma {:induction false} OfferedAccepts(bs: bytes, seen: set<nat>) returns (es: seq<Extension>)
    requires Offered(bs, seen).Some?
    ensures AllSized(es) && DistinctKinds(es) && bs == ExtensionBytes(es)
    ensures forall i :: 0 <= i < |es| ==> es[i].kind !in seen
    ensures Offered(bs, seen) == OfferOf(es)
    decreases |bs|
  {
    hide BE, Contribution, ExtensionThen, KindOf, SizeOf;
    if bs == [] {
      es := [];
    } else {
      var e := FirstExtensionReads(bs);
      var more := OfferedAccepts(bs[4 + SizeOf(bs)..], seen + {e.kind});
      es := [e] + more;
      assert es[1..] == more;
    }
  }

  // ----- Both walkers read the same extensions -----

  /** The first host name in a list of extensions that starts at offset `p`. */
  ghost function SniOver(hs: bytes, p: nat, es: seq<Extension>, decodes: bytes -> bool): Option<bytes>
    decreases |es|
  {
    if es == [] then None
    else if es[0].kind == SERVER_NAME && p + 6 >= |hs| then None
    else if es[0].kind == SERVER_NAME && hs[p + 6] == 0 then HostAt(hs, p + 4, decodes)
    else SniOver(hs, p + 4 + |es[0].data|, es[1..], decodes)
  }

  /** Where the first of some extensions stands in a hello. */
  lemma FirstExtensionAt(hs: bytes, p: nat, es: seq<Extension>)
    requires AllSized(es) && es != [] && p <= |hs| && hs[p..] == ExtensionBytes(es)
    ensures BE(Slice(hs, p, p + 2)) == es[0].kind && BE(Slice(hs, p + 2, p + 4)) == |es[0].data|
    ensures p + 4 + |es[0].data| <= |hs| && hs[p + 4..p + 4 + |es[0].data|] == es[0].data
    ensures hs[p + 4 + |es[0].data|..] == ExtensionBytes(es[1..])
  {
    hide BE, ExtensionThen, Pow256;
    assert Sized(es[0]);
    var rest := hs[p..];
    ReadsFirstExtension(es[0], ExtensionBytes(es[1..]));
    hide ExtensionBytes;
    var n := |es[0].data|;
    assert Slice(rest, 0, 2) == Slice(hs, p, p + 2) && Slice(rest, 2, 4) == Slice(hs, p + 2, p + 4);
    assert hs[p + 4..p + 4 + n] == rest[4..4 + n] && hs[p + 4 + n..] == rest[4 + n..];
  }

  lemma {:induction false} SniWalksExtensions(hs: bytes, p: nat, es: seq<Extension>, decodes: bytes -> bool)
    requires AllSized(es) && p <= |hs| && hs[p..] == ExtensionBytes(es)
    ensures SniFrom(hs, p, |hs|, decodes) == SniOver(hs, p, es, decodes)
    decreases |es|
  {
    hide BE, ExtensionThen, HostAt, Pow256, Slice;
    if es != [] {
      FirstExtensionAt(hs, p, es);
      hide ExtensionBytes;
      SniWalksExtensions(hs, p + 4 + |es[0].data|, es[1..], decodes);
    }
  }

  /** Whenever the ALPN walker accepts, the hello ends in an exact run of extensions of distinct
      kinds, the offer is what those extensions say, and the SNI walker stops at the same offsets. */
  lemma WalkersAgree(rec: bytes, decodes: bytes -> bool) returns (start: nat, es: seq<Extension>)
    requires AlpnOffer(rec).Some?
    ensures AllSized(es) && DistinctKinds(es)
    ensures |rec| > 5 && start <= |rec[5..]| && rec[5..][start..] == ExtensionBytes(es)
    ensures AlpnOffer(rec) == OfferOf(es)
    ensures Sni(rec, decodes) == SniOver(rec[5..], start, es, decodes)
  {
    hide BE, Offered, SniFrom, SniOver, OfferOf, ExtensionBytes;
    start := ExtensionRange(rec[5..]).value.0;
    es := OfferedAccepts(rec[5..][start..], {});
    SniWalksExtensions(rec[5..], start, es, decodes);
  }

  // ----- Round trip -----

  datatype Hello = Hello(version: bytes, random: bytes, session: bytes, suites: bytes, compression: bytes,
                         extensions: seq<Extension>)

  ghost predicate Proper(h: Hello) {
    && |h.version| == 2 && |h.random| == 32 && |h.session| < 256 && |h.suites| < Pow256(2) && |h.compression| < 256
    && AllSized(h.extensions) && DistinctKinds(h.extensions)
    && |ExtensionBytes(h.extensions)| < Pow256(2)
  }

  ghost function AfterCompression(h: Hello): bytes
    requires Proper(h)
  {
    ToBE(|ExtensionBytes(h.extensions)|, 2) + ExtensionBytes(h.extensions)
  }

  ghost function AfterSuites(h: Hello): bytes
    requires Proper(h)
  {
    [|h.compression|] + (h.compression + AfterCompression(h))
  }

  ghost function AfterSession(h: Hello): bytes
    requires Proper(h)
  {
    ToBE(|h.suites|, 2) + (h.suites + AfterSuites(h))
  }

  ghost function AfterRandom(h: Hello): bytes
    requires Proper(h)
  {
    [|h.session|] + (h.session + AfterSession(h))
  }

  ghost function Head(h: Hello): (front: bytes)
    requires Proper(h)
    ensures |front| == 38 && front[0] == 0x01 && front[1..4] == ToBE(34 + |AfterRandom(h)|, 3)
  {
    [0x01] + ToBE(34 + |AfterRandom(h)|, 3) + h.version + h.random
  }

  ghost function Body(h: Hello): (hs: bytes)
    requires Proper(h)
    ensures |hs| == 38 + |AfterRandom(h)| && |hs| >= 39
  {
    Head(h) + AfterRandom(h)
  }

  /** One record holding the whole hello, under any record version. */
  ghost function RecordOf(h: Hello, version: bytes): (rec: bytes)
    requires Proper(h) && |version| == 2 && |Body(h)| < Pow256(2)
    ensures |rec| == 5 + |Body(h)|
  {
    [0x16] + version + ToBE(|Body(h)|, 2) + Body(h)
  }

  lemma DropPrefix(front: bytes, rest: bytes)
    ensures Drop(front + rest, |front|) == rest
  {
  }

  /** A length field, its contents and the rest, read at offset `p`. */
  lemma FieldThen(hs: bytes, p: nat, size: bytes, body: bytes, rest: bytes)
    requires Drop(hs, p) == size + (body + rest) && |size| > 0
    ensures p + |size| + |body| + |rest| == |hs| && hs[p] == size[0] && Slice(hs, p, p + |size|) == size
    ensures Drop(hs, p + |size| + |body|) == rest
  {
    var s := Drop(hs, p);
    assert s == hs[p..] && hs[p] == s[0];
    assert hs[p..p + |size|] == s[..|size|] == size;
    assert s[|size|..] == body + rest;
    assert hs[p + |size| + |body|..] == s[|size|..][|body|..] == rest;
  }

  lemma ShortField(hs: bytes, p: nat, body: bytes, rest: bytes)
    requires |body| < 256 && Drop(hs, p) == [|body|] + (body + rest)
    ensures p < |hs| && hs[p] == |body| && Drop(hs, p + 1 + |body|) == rest
  {
    hide *;
    FieldThen(hs, p, [|body|], body, rest);
  }

  lemma LongField(hs: bytes, p: nat, size: bytes, body: bytes, rest: bytes)
    requires |size| == 2 && BE(size) == |body| && Drop(hs, p) == size + (body + rest)
    ensures BE(Slice(hs, p, p + 2)) == |body| && p + 2 + |body| + |rest| == |hs|
    ensures Drop(hs, p + 2 + |body|) == rest
  {
    hide *;
    FieldThen(hs, p, size, body, rest);
  }

  lemma RangeReads(hs: bytes, p: nat, q: nat, r: nat, n: nat)
    requires |hs| > 38 && p == 39 + hs[38] as int && q == p + 2 + BE(Slice(hs, p, p + 2)) && q < |hs|
    requires r == q + 1 + hs[q] as int && n == BE(Slice(hs, r, r + 2))
    ensures ExtensionRange(hs) == Some((r + 2, r + 2 + n))
  {
    hide BE, Slice;
  }

  /** The fields of a hello, one after another. */
  lemma FieldsFollow(h: Hello)
    requires Proper(h)
    ensures Drop(Body(h), 38) == [|h.session|] + (h.session + AfterSession(h))
    ensures AfterSession(h) == ToBE(|h.suites|, 2) + (h.suites + AfterSuites(h))
    ensures AfterSuites(h) == [|h.compression|] + (h.compression + AfterCompression(h))
    ensures AfterCompression(h) == ToBE(|ExtensionBytes(h.extensions)|, 2) + (ExtensionBytes(h.extensions) + [])
  {
    hide BE, ToBE, ExtensionBytes, Pow256, AllSized, DistinctKinds, Head, AfterRandom, AfterSession, AfterSuites,
      AfterCompression;
    DropPrefix(Head(h), AfterRandom(h));
    LayersUnfold(h);
    assert ExtensionBytes(h.extensions) + [] == ExtensionBytes(h.extensions);
  }

  lemma LayersUnfold(h: Hello)
    requires Proper(h)
    ensures AfterRandom(h) == [|h.session|] + (h.session + AfterSession(h))
    ensures AfterSession(h) == ToBE(|h.suites|, 2) + (h.suites + AfterSuites(h))
    ensures AfterSuites(h) == [|h.compression|] + (h.compression + AfterCompression(h))
    ensures AfterCompression(h) == ToBE(|ExtensionBytes(h.extensions)|, 2) + ExtensionBytes(h.extensions)
  {
    hide BE, ToBE, ExtensionBytes, Pow256, AllSized, DistinctKinds;
  }

  lemma ExtensionsStand(h: Hello) returns (start: nat)
    requires Proper(h)
    ensures ExtensionRange(Body(h)) == Some((start, |Body(h)|))
    ensures start <= |Body(h)| && Body(h)[start..] == ExtensionBytes(h.extensions)
  {
    FieldsFollow(h);
    hide BE, ToBE, ExtensionBytes, Pow256, AllSized, DistinctKinds, Slice, Body, AfterSession, AfterSuites,
      AfterCompression, ExtensionRange, Drop;
    var exts := ExtensionBytes(h.extensions);
    var suitesSize, extsSize := ToBE(|h.suites|, 2), ToBE(|exts|, 2);
    var p := SuitesStand(Body(h), h.session, suitesSize, h.suites, AfterSession(h), AfterSuites(h));
    start := TailStands(Body(h), p, h.suites, h.compression, extsSize, exts, AfterSuites(h),
                        AfterCompression(h));
  }

  lemma SuitesStand(hs: bytes, session: bytes, size: bytes, suites: bytes, afterSession: bytes, rest: bytes)
    returns (p: nat)
    requires |session| < 256 && |size| == 2 && BE(size) == |suites|
    requires Drop(hs, 38) == [|session|] + (session + afterSession) && afterSession == size + (suites + rest)
    ensures |hs| > 38 && p == 39 + hs[38] as int
    ensures BE(Slice(hs, p, p + 2)) == |suites| && Drop(hs, p + 2 + |suites|) == rest
  {
    hide *;
    p := 39 + |session|;
    ShortField(hs, 38, session, afterSession);
    LongField(hs, p, size, suites, rest);
  }

  lemma TailStands(hs: bytes, p: nat, suites: bytes, compression: bytes, size: bytes, exts: bytes,
                   afterSuites: bytes, rest: bytes) returns (start: nat)
    requires |hs| > 38 && p == 39 + hs[38] as int && BE(Slice(hs, p, p + 2)) == |suites|
    requires |compression| < 256 && |size| == 2 && BE(size) == |exts| && Drop(hs, p + 2 + |suites|) == afterSuites
    requires afterSuites == [|compression|] + (compression + rest) && rest == size + (exts + [])
    ensures ExtensionRange(hs) == Some((start, |hs|)) && start <= |hs| && hs[start..] == exts
  {
    hide *;
    var q := p + 2 + |suites|;
    var r := q + 1 + |compression|;
    ShortField(hs, q, compression, rest);
    LongField(hs, r, size, exts, []);
    RangeReads(hs, p, q, r, |exts|);
    start := r + 2;
    LastPart(hs, r, size, exts);
  }

  lemma LastPart(hs: bytes, p: nat, size: bytes, exts: bytes)
    requires |size| == 2 && Drop(hs, p) == size + (exts + []) && p + 2 + |exts| == |hs|
    ensures hs[p + 2..] == exts
  {
    assert exts + [] == exts;
    assert hs[p + 2..] == Drop(hs, p)[2..];
  }

  /** Both walkers see through every well-formed hello to its extensions. */
  lemma HelloIsRead(h: Hello, version: bytes, decodes: bytes -> bool) returns (start: nat)
    requires Proper(h) && |version| == 2 && |Body(h)| < Pow256(2)
    ensures start <= |Body(h)| && Body(h)[start..] == ExtensionBytes(h.extensions)
    ensures AlpnOffer(RecordOf(h, version)) == OfferOf(h.extensions)
    ensures Sni(RecordOf(h, version), decodes) == SniOver(Body(h), start, h.extensions, decodes)
  {
    hide BE, ExtensionBytes, Offered, OfferOf, SniFrom, SniOver, ExtensionRange;
    var rec, hs := RecordOf(h, version), Body(h);
    assert rec[5..] == hs && rec[3..5] == ToBE(|hs|, 2);
    assert hs[1..4] == ToBE(34 + |AfterRandom(h)|, 3);
    start := ExtensionsStand(h);
    assert |hs| >= 39 + |AfterSession(h)|;
    OfferedReads(h.extensions, {});
    SniWalksExtensions(hs, start, h.extensions, decodes);
  }

  /** A server_name extension whose first entry is a host name (RFC 6066 section 3). */
  ghost function ServerName(host: bytes, listSize: bytes, more: bytes): Extension
    requires |host| < Pow256(2)
  {
    Extension(0, listSize + ([0] + (ToBE(|host|, 2) + (host + more))))
  }

  lemma {:induction false} FindsHost(hs: bytes, p: nat, before: seq<Extension>, host: bytes, listSize: bytes,
                                     more: bytes, after: seq<Extension>, decodes: bytes -> bool)
    requires |host| < Pow256(2) && |listSize| == 2 && decodes(host)
    requires forall i :: 0 <= i < |before| ==> before[i].kind != 0
    requires var es := before + [ServerName(host, listSize, more)] + after;
      AllSized(es) && p <= |hs| && hs[p..] == ExtensionBytes(es)
    ensures SniOver(hs, p, before + [ServerName(host, listSize, more)] + after, decodes) == Some(host)
    decreases |before|
  {
    hide BE, Slice, HostAt, ExtensionBytes, Pow256;
    var e := ServerName(host, listSize, more);
    var es := before + [e] + after;
    FirstExtensionAt(hs, p, es);
    if before == [] {
      assert es[0] == e;
      HostStands(hs, p + 4, host, listSize, more);
      HostReads(hs, p + 4, host, decodes);
    } else {
      hide ServerName;
      assert es[0] == before[0] && es[1..] == before[1..] + [e] + after;
      FindsHost(hs, p + 4 + |es[0].data|, before[1..], host, listSize, more, after, decodes);
    }
  }

  lemma HostReads(hs: bytes, q: nat, host: bytes, decodes: bytes -> bool)
    requires |host| < Pow256(2) && decodes(host)
    requires Slice(hs, q + 3, q + 5) == ToBE(|host|, 2) && Slice(hs, q + 5, q + 5 + |host|) == host
    ensures HostAt(hs, q, decodes) == Some(host)
  {
    hide BE, Slice;
  }

  lemma HostStands(hs: bytes, q: nat, host: bytes, listSize: bytes, more: bytes)
    requires |host| < Pow256(2) && |listSize| == 2
    requires q + |ServerName(host, listSize, more).data| <= |hs|
    requires hs[q..q + |ServerName(host, listSize, more).data|] == ServerName(host, listSize, more).data
    ensures q + 5 <= |hs| && hs[q + 2] == 0
    ensures Slice(hs, q + 3, q + 5) == ToBE(|host|, 2) && Slice(hs, q + 5, q + 5 + |host|) == host
  {
    HostInData(host, listSize, more);
    hide BE, Slice, ToBE, ServerName, Pow256;
    var data := ServerName(host, listSize, more).data;
    SamePart(hs, q, data, 2, 3);
    SamePart(hs, q, data, 3, 5);
    SamePart(hs, q, data, 5, 5 + |host|);
  }

  lemma HostInData(host: bytes, listSize: bytes, more: bytes)
    requires |host| < Pow256(2) && |listSize| == 2
    ensures var data := ServerName(host, listSize, more).data;
      |data| >= 5 + |host| && data[2] == 0 && data[3..5] == ToBE(|host|, 2) && data[5..5 + |host|] == host
  {
    hide BE, ToBE, Pow256;
    var size := ToBE(|host|, 2);
    var data, named := ServerName(host, listSize, more).data, size + (host + more);
    assert data == listSize + ([0] + named);
    assert data[3..] == named;
    assert data[3..5] == named[..2] == size && data[5..] == named[2..] == host + more;
    assert data[5..5 + |host|] == (host + more)[..|host|] == host;
  }

  lemma SamePart(hs: bytes, q: nat, data: bytes, a: nat, b: nat)
    requires q + |data| <= |hs| && hs[q..q + |data|] == data && a <= b <= |data|
    ensures Slice(hs, q + a, q + b) == data[a..b]
    ensures a < |data| ==> hs[q + a] == data[a]
  {
    var part, same := hs[q + a..q + b], data[a..b];
    forall i | 0 <= i < b - a
      ensures part[i] == same[i]
    {
      assert hs[q + a + i] == hs[q..q + |data|][a + i];
    }
    assert part == same;
    if a < |data| {
      assert hs[q + a] == hs[q..q + |data|][a];
    }
  }

  /** Round trip: the encoded host name and the encoded protocol list come back. */
  lemma HelloRoundTrip(h: Hello, version: bytes, before: seq<Extension>, host: bytes, listSize: bytes, more: bytes,
                       after: seq<Extension>, decodes: bytes -> bool)
    requires Proper(h) && |version| == 2 && |Body(h)| < Pow256(2)
    requires |host| < Pow256(2) && |listSize| == 2 && decodes(host)
    requires forall i :: 0 <= i < |before| ==> before[i].kind != 0
    requires h.extensions == before + [ServerName(host, listSize, more)] + after
    ensures Sni(RecordOf(h, version), decodes) == Some(host)
    ensures AlpnOffer(RecordOf(h, version)) == OfferOf(h.extensions)
  {
    hide Sni, AlpnOffer, RecordOf, Body, OfferOf, ExtensionBytes, SniOver;
    var start := HelloIsRead(h, version, decodes);
    FindsHost(Body(h), start, before, host, listSize, more, after, decodes);
  }

  /** An ALPN extension of these names (RFC 7301 section 3.1). */
  ghost function Alpn(names: seq<bytes>): Extension
    requires ProperNames(names) && |NameBytes(names)| < Pow256(2)
  {
    Extension(16, ToBE(|NameBytes(names)|, 2) + NameBytes(names))
  }

  /** An ALPN extension offers exactly its names. */
  lemma AlpnOffersNames(names: seq<bytes>)
    requires ProperNames(names) && |NameBytes(names)| < Pow256(2)
    ensures Contribution(16, Alpn(names).data) == Some(names)
  {
    hide NameBytes, Names;
    var data := Alpn(names).data;
    assert data[..2] == ToBE(|NameBytes(names)|, 2) && data[2..] == NameBytes(names);
    NamesRead(names);
  }

  ghost predicate NoAlpn(es: seq<Extension>) {
    forall i :: 0 <= i < |es| ==> es[i].kind != 16
  }

  lemma {:induction false} OthersOfferNothing(es: seq<Extension>)
    requires NoAlpn(es)
    ensures OfferOf(es) == Some([])
  {
    if es != [] {
      OthersOfferNothing(es[1..]);
      var none: seq<bytes> := [];
      assert none + none == none;
    }
  }

  lemma {:induction false} OffersItsNames(before: seq<Extension>, names: seq<bytes>, after: seq<Extension>)
    requires ProperNames(names) && |NameBytes(names)| < Pow256(2) && NoAlpn(before) && NoAlpn(after)
    ensures OfferOf(before + ([Alpn(names)] + after)) == Some(names)
  {
    hide Alpn, NameBytes, Protocols;
    var es := before + ([Alpn(names)] + after);
    if before == [] {
      assert es[0] == Alpn(names) && es[1..] == after;
      assert Alpn(names).kind == 16 by { AlpnKind(names); }
      AlpnOffersNames(names);
      OthersOfferNothing(after);
      assert names + [] == names;
    } else {
      assert es[0] == before[0] && es[1..] == before[1..] + ([Alpn(names)] + after);
      OffersItsNames(before[1..], names, after);
      assert [] + names == names;
    }
  }

  lemma AlpnKind(names: seq<bytes>)
    requires ProperNames(names) && |NameBytes(names)| < Pow256(2)
    ensures Alpn(names).kind == 16
  {
  }

  /** Round trip: of every well-formed hello the ALPN parser returns the encoded protocol list, and
      the empty one if there is no such extension. */
  lemma AlpnRoundTrip(h: Hello, version: bytes, before: seq<Extension>, names: seq<bytes>, after: seq<Extension>)
    requires Proper(h) && |version| == 2 && |Body(h)| < Pow256(2)
    requires ProperNames(names) && |NameBytes(names)| < Pow256(2)
    requires h.extensions == before + ([Alpn(names)] + after) || (names == [] && NoAlpn(h.extensions))
    ensures AlpnOffer(RecordOf(h, version)) == Some(names)
  {
    hide AlpnOffer, RecordOf, Body, OfferOf, ExtensionBytes, Sni, SniOver, NameBytes, Alpn;
    var _ := HelloIsRead(h, version, (s: bytes) => true);
    if NoAlpn(h.extensions) && names == [] {
      OthersOfferNothing(h.extensions);
    } else {
      OthersHaveNoAlpn(h.extensions, before, names, after);
      OffersItsNames(before, names, after);
    }
  }

  lemma OthersHaveNoAlpn(es: seq<Extension>, before: seq<Extension>, names: seq<bytes>, after: seq<Extension>)
    requires ProperNames(names) && |NameBytes(names)| < Pow256(2)
    requires DistinctKinds(es) && es == before + ([Alpn(names)] + after)
    ensures NoAlpn(before) && NoAlpn(after)
  {
    AlpnKind(names);
    hide Alpn, NameBytes, ProperNames, Pow256;
    var n := |before|;
    assert es[n] == Alpn(names);
    forall i | 0 <= i < n
      ensures before[i].kind != 16
    {
      assert before[i] == es[i];
    }
    forall i | 0 <= i < |after|
      ensures after[i].kind != 16
    {
      assert after[i] == es[n + 1 + i];
    }
  }
}
