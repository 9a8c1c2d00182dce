/**
 Reading the server's handshake flight (trace-vault/reveal.py, `_hs_messages` and the
 certificate list of `verify_cert_chain`): reassembly of handshake messages from however
 many records they were cut into, and the walk over Certificate entries.
 */
module Handshake {
  import opened Bytes
  import opened Reveal

  /** A handshake message (RFC 8446 section 4). */
  datatype Message = Message(kind: byte, payload: bytes)

  ghost predicate Sized(m: Message) { |m.payload| < Pow256(3) }

  function Encoded(m: Message): bytes
    requires Sized(m)
  {
    [m.kind] + ToBE(|m.payload|, 3) + m.payload
  }

  function FlightBytes(ms: seq<Message>): bytes
    requires forall i :: 0 <= i < |ms| ==> Sized(ms[i])
  {
    if ms == [] then [] else Encoded(ms[0]) + FlightBytes(ms[1..])
  }

  /** The last message of each type. */
  function Indexed(index: map<byte, bytes>, ms: seq<Message>): map<byte, bytes>
    requires forall i :: 0 <= i < |ms| ==> Sized(ms[i])
    decreases |ms|
  {
    if ms == [] then index else Indexed(index[ms[0].kind := Encoded(ms[0])], ms[1..])
  }

  // ----- The receiver -----

  function ServerHello(sh: Option<bytes>, r: Record): Option<bytes> {
    if r.kind == HANDSHAKE && sh == None then Some(r.body) else sh
  }

  /** The first plaintext handshake record and the concatenated handshake contents. */
  function Reassembled(suite: Suite, secret: Secret, rs: seq<Record>, sh: Option<bytes>, blob: bytes, n: nat)
    : Result<(Option<bytes>, bytes), Failure>
    decreases |rs|
  {
    if rs == [] then Ok((sh, blob))
    else if rs[0].kind != APPLICATION_DATA then
      Reassembled(suite, secret, rs[1..], ServerHello(sh, rs[0]), blob, n)
    else
      match suite.decrypt(secret, n, rs[0])
      case None => Ok((sh, blob))
      case Some(pt) =>
        match Unpadded(pt)
        case Err(e) => Err(e)
        case Ok(inner) =>
          if inner.1 == HANDSHAKE then Reassembled(suite, secret, rs[1..], sh, blob + inner.0, n + 1)
          else Ok((sh, blob))
  }

  /** Splitting the reassembled bytes; a message cut short by the end is kept as it is. */
  function Split(index: map<byte, bytes>, blob: bytes): map<byte, bytes>
    decreases |blob|
  {
    if |blob| < 4 then index
    else
      var size := 4 + BE(blob[1..4]);
      var m := Slice(blob, 0, size);
      Split(index[blob[0] := m], blob[|m|..])
  }

  method HsMessages(down: bytes, secret: Secret, suite: Suite)
    returns (r: Result<(Option<bytes>, map<byte, bytes>), Failure>)
    ensures r == match Reassembled(suite, secret, ParseRecords(down), None, [], 0)
                 case Err(e) => Err(e)
                 case Ok((sh, blob)) => Ok((sh, Split(map[], blob)))
  {
    var rs := Records(down);
    var sh, blob, n := None, [], 0;
    var i := 0;
    assert rs[0..] == rs;
    while i < |rs|
      invariant 0 <= i <= |rs|
      invariant Reassembled(suite, secret, rs, None, [], 0) == Reassembled(suite, secret, rs[i..], sh, blob, n)
    {
      var rec := rs[i];
      assert rs[i..][0] == rec && rs[i..][1..] == rs[i + 1..];
      if rec.kind == HANDSHAKE && sh == None {
        sh := Some(rec.body);
        i := i + 1;
        continue;
      }
      if rec.kind == CHANGE_CIPHER_SPEC || rec.kind != APPLICATION_DATA {
        i := i + 1;
        continue;
      }
      var pt := suite.decrypt(secret, n, rec);
      if pt.None? {
        break;
      }
      var inner := Unpad(pt.value);
      if inner.Err? {
        return Err(inner.error);
      }
      if inner.value.1 != HANDSHAKE {
        break;
      }
      blob, n, i := blob + inner.value.0, n + 1, i + 1;
    }
    var msgs := SplitMessages(blob);
    r := Ok((sh, msgs));
  }

  method SplitMessages(blob: bytes) returns (msgs: map<byte, bytes>)
    ensures msgs == Split(map[], blob)
  {
    hide BE, Split, Slice;
    var p := 0;
    msgs := map[];
    assert blob[0..] == blob;
    while p + 4 <= |blob|
      invariant 0 <= p
      invariant p <= |blob| ==> Split(map[], blob) == Split(msgs, blob[p..])
      invariant p > |blob| ==> Split(map[], blob) == msgs
      decreases |blob| - p
    {
      SplitStep(msgs, blob, p);
      var t, n := blob[p], BE(blob[p + 1..p + 4]);
      msgs := msgs[t := Slice(blob, p, p + 4 + n)];
      p := p + 4 + n;
    }
    if p <= |blob| {
      SplitEnds(msgs, blob[p..]);
    }
  }

  lemma SplitEnds(msgs: map<byte, bytes>, blob: bytes)
    requires |blob| < 4
    ensures Split(msgs, blob) == msgs
  {
  }

  lemma SplitStep(msgs: map<byte, bytes>, blob: bytes, p: nat)
    requires p + 4 <= |blob|
    ensures var next := p + 4 + BE(blob[p + 1..p + 4]);
      Split(msgs, blob[p..])
      == if next <= |blob| then Split(msgs[blob[p] := Slice(blob, p, next)], blob[next..])
         else msgs[blob[p] := Slice(blob, p, next)]
  {
    hide BE;
    var n := BE(blob[p + 1..p + 4]);
    var m := Slice(blob, p, p + 4 + n);
    assert blob[p..][1..4] == blob[p + 1..p + 4];
    assert Slice(blob[p..], 0, 4 + n) == m;
    assert blob[p..][|m|..] == blob[p + |m|..];
  }

  // ----- The result does not depend on fragmentation -----

  lemma {:induction false} SplitInvertsFlight(index: map<byte, bytes>, ms: seq<Message>)
    requires forall i :: 0 <= i < |ms| ==> Sized(ms[i])
    ensures Split(index, FlightBytes(ms)) == Indexed(index, ms)
    decreases |ms|
  {
    if ms != [] {
      var m, blob := Encoded(ms[0]), FlightBytes(ms);
      assert blob == m + FlightBytes(ms[1..]);
      assert blob[1..4] == ToBE(|ms[0].payload|, 3);
      assert blob[..|m|] == m && blob[|m|..] == FlightBytes(ms[1..]);
      SplitInvertsFlight(index[ms[0].kind := m], ms[1..]);
    }
  }

  /** `enc` carries the fragments in order under the handshake secret, from number `n` on. */
  ghost predicate Carries(suite: Suite, secret: Secret, enc: seq<Record>, frags: seq<bytes>, pads: seq<nat>, n: nat) {
    && |enc| == |frags| == |pads|
    && (forall i :: 0 <= i < |enc| ==>
          enc[i].kind == APPLICATION_DATA
          && suite.decrypt(secret, n + i, enc[i]) == Some(Padded(frags[i], HANDSHAKE, pads[i])))
  }

  /** Nothing more to read: no protected record is left, or the next one belongs to another
      key, or it is not handshake data. */
  ghost predicate FlightEnds(suite: Suite, secret: Secret, rest: seq<Record>, n: nat) {
    rest != [] ==>
      rest[0].kind == APPLICATION_DATA
      && (suite.decrypt(secret, n, rest[0]) == None
          || exists content, kind, pad ::
            kind != 0 && kind != HANDSHAKE && suite.decrypt(secret, n, rest[0]) == Some(Padded(content, kind, pad)))
  }

  lemma {:induction false} ReassemblesFragments(suite: Suite, secret: Secret, enc: seq<Record>, frags: seq<bytes>,
                                                pads: seq<nat>, rest: seq<Record>, sh: Option<bytes>, blob: bytes,
                                                n: nat)
    requires Carries(suite, secret, enc, frags, pads, n)
    requires FlightEnds(suite, secret, rest, n + |enc|)
    ensures Reassembled(suite, secret, enc + rest, sh, blob, n) == Ok((sh, blob + Concat(frags)))
    decreases |enc|
  {
    if enc == [] {
      assert enc + rest == rest && blob + Concat(frags) == blob;
      if rest != [] && suite.decrypt(secret, n, rest[0]) != None {
        var content, kind, pad :| kind != 0 && kind != HANDSHAKE
          && suite.decrypt(secret, n, rest[0]) == Some(Padded(content, kind, pad));
        UnpadInvertsPad(content, kind, pad);
      }
    } else {
      UnpadInvertsPad(frags[0], HANDSHAKE, pads[0]);
      assert suite.decrypt(secret, n + 0, enc[0]) == Some(Padded(frags[0], HANDSHAKE, pads[0]));
      assert (enc + rest)[0] == enc[0] && (enc + rest)[1..] == enc[1..] + rest;
      assert Carries(suite, secret, enc[1..], frags[1..], pads[1..], n + 1) by {
        forall i | 0 <= i < |enc[1..]|
          ensures suite.decrypt(secret, n + 1 + i, enc[1..][i]) == Some(Padded(frags[1..][i], HANDSHAKE, pads[1..][i]))
        {
          assert suite.decrypt(secret, n + (i + 1), enc[i + 1]) == Some(Padded(frags[i + 1], HANDSHAKE, pads[i + 1]));
        }
      }
      ReassemblesFragments(suite, secret, enc[1..], frags[1..], pads[1..], rest, sh, blob + frags[0], n + 1);
      AppendAssociates(blob, frags[0], Concat(frags[1..]));
    }
  }

  lemma {:induction false} SkipsUnprotected(suite: Suite, secret: Secret, plain: seq<Record>, rest: seq<Record>,
                                            sh: bytes)
    requires forall i :: 0 <= i < |plain| ==> plain[i].kind != APPLICATION_DATA
    ensures Reassembled(suite, secret, plain + rest, Some(sh), [], 0)
             == Reassembled(suite, secret, rest, Some(sh), [], 0)
  {
    if plain == [] {
      assert plain + rest == rest;
    } else {
      assert (plain + rest)[0] == plain[0] && (plain + rest)[1..] == plain[1..] + rest;
      SkipsUnprotected(suite, secret, plain[1..], rest, sh);
    }
  }

  lemma ReadsServerHello(suite: Suite, secret: Secret, hello: Record, rest: seq<Record>)
    requires hello.kind == HANDSHAKE
    ensures Reassembled(suite, secret, [hello] + rest, None, [], 0)
         == Reassembled(suite, secret, rest, Some(hello.body), [], 0)
  {
    assert ([hello] + rest)[1..] == rest;
  }

  /** However the flight is cut into padded records, the receiver finds the ServerHello and
      the same message of every type. */
  lemma FragmentationIsInvisible(suite: Suite, secret: Secret, hello: Record, plain: seq<Record>, enc: seq<Record>,
                                 frags: seq<bytes>, pads: seq<nat>, rest: seq<Record>, ms: seq<Message>)
    requires hello.kind == HANDSHAKE
    requires forall i :: 0 <= i < |plain| ==> plain[i].kind != APPLICATION_DATA
    requires Carries(suite, secret, enc, frags, pads, 0) && FlightEnds(suite, secret, rest, |enc|)
    requires forall i :: 0 <= i < |ms| ==> Sized(ms[i])
    requires Concat(frags) == FlightBytes(ms)
    ensures var r := Reassembled(suite, secret, [hello] + plain + enc + rest, None, [], 0);
      r == Ok((Some(hello.body), FlightBytes(ms))) && Split(map[], r.value.1) == Indexed(map[], ms)
  {
    hide *;
    ReadsServerHello(suite, secret, hello, plain + (enc + rest));
    assert [hello] + plain + enc + rest == [hello] + (plain + (enc + rest));
    SkipsUnprotected(suite, secret, plain, enc + rest, hello.body);
    ReassemblesFragments(suite, secret, enc, frags, pads, rest, Some(hello.body), [], 0);
    assert [] + Concat(frags) == Concat(frags);
    SplitInvertsFlight(map[], ms);
  }

  // ----- Certificate entries (RFC 8446 section 4.4.2) -----

  datatype Entry = Entry(der: bytes, extensions: bytes)

  ghost predicate EntrySized(e: Entry) { |e.der| < Pow256(3) && |e.extensions| < Pow256(2) }

  function EntryBytes(es: seq<Entry>): bytes
    requires forall i :: 0 <= i < |es| ==> EntrySized(es[i])
  {
    if es == [] then []
    else
      assert EntrySized(es[0]);
      EntryThen(es[0], EntryBytes(es[1..]))
  }

  function EntryThen(e: Entry, rest: bytes): bytes
    requires EntrySized(e)
  {
    ToBE(|e.der|, 3) + (e.der + (ToBE(|e.extensions|, 2) + (e.extensions + rest)))
  }

  function Ders(es: seq<Entry>): seq<bytes> {
    if es == [] then [] else [es[0].der] + Ders(es[1..])
  }

  /** One certificate and what follows its extensions. */
  function FirstDer(list: bytes): (bytes, bytes)
    requires |list| >= 3
  {
    var afterSize := Drop(list, 3);
    var n := BE(Slice(list, 0, 3));
    var afterDer := Drop(afterSize, n);
    (Slice(afterSize, 0, n), Drop(afterDer, 2 + BE(Slice(afterDer, 0, 2))))
  }

  function DersOf(list: bytes): seq<bytes>
    decreases |list|
  {
    if |list| < 3 then []
    else [FirstDer(list).0] + DersOf(FirstDer(list).1)
  }

  /** The certificates of a Certificate message; a message without a body raises. */
  method CertificateDers(msg: bytes) returns (r: Option<seq<bytes>>)
    ensures r == if |msg| <= 4 then None else Some(DersOf(Drop(msg, msg[4] as int + 8)))
  {
    hide DersOf, FirstDer, BE, Drop, Slice;
    if |msg| <= 4 {
      return None;
    }
    var p: nat := 4 + 1 + msg[4] as int;
    p := p + 3;
    var ders := [];
    ghost var all := DersOf(Drop(msg, p));
    assert [] + all == all;
    while p + 3 <= |msg|
      invariant all == ders + DersOf(Drop(msg, p))
      decreases |msg| - p
    {
      ghost var (der', p') := EntryAt(msg, p);
      WalkStep(msg, p);
      AppendAssociates(ders, [der'], DersOf(Drop(msg, p')));
      assert all == ders + [der'] + DersOf(Drop(msg, p'));
      var n := BE(Slice(msg, p, p + 3));
      p := p + 3;
      ders := ders + [Slice(msg, p, p + n)];
      p := p + n;
      p := p + 2 + BE(Slice(msg, p, p + 2));
      assert p == p';
    }
    WalkEnds(msg, p);
    assert ders + [] == ders;
    r := Some(ders);
  }

  /** The certificate at offset `p` and the offset of the next entry. */
  function EntryAt(msg: bytes, p: nat): (bytes, nat) {
    var q := p + 3 + BE(Slice(msg, p, p + 3));
    (Slice(msg, p + 3, q), q + 2 + BE(Slice(msg, q, q + 2)))
  }

  lemma EntryShape(msg: bytes, p: nat, n: nat, m: nat)
    ensures var afterSize, afterDer := Drop(Drop(msg, p), 3), Drop(msg, p + 3 + n);
      && Slice(Drop(msg, p), 0, 3) == Slice(msg, p, p + 3)
      && Slice(afterSize, 0, n) == Slice(msg, p + 3, p + 3 + n)
      && Drop(afterSize, n) == afterDer
      && Slice(afterDer, 0, 2) == Slice(msg, p + 3 + n, p + 3 + n + 2)
      && Drop(afterDer, 2 + m) == Drop(msg, p + 3 + n + 2 + m)
  {
    hide *;
    DropDrop(msg, p, 3);
    DropDrop(msg, p + 3, n);
    DropDrop(msg, p + 3 + n, 2);
    DropDrop(msg, p + 3 + n, 2 + m);
  }

  lemma EntryAtIsFirstDer(msg: bytes, p: nat)
    requires p + 3 <= |msg|
    ensures FirstDer(Drop(msg, p)) == (EntryAt(msg, p).0, Drop(msg, EntryAt(msg, p).1))
  {
    hide BE;
    var n := BE(Slice(msg, p, p + 3));
    EntryShape(msg, p, n, BE(Slice(msg, p + 3 + n, p + 3 + n + 2)));
  }

  lemma WalkStep(msg: bytes, p: nat)
    requires p + 3 <= |msg|
    ensures DersOf(Drop(msg, p)) == [EntryAt(msg, p).0] + DersOf(Drop(msg, EntryAt(msg, p).1))
  {
    EntryAtIsFirstDer(msg, p);
  }

  lemma WalkEnds(msg: bytes, p: nat)
    requires p + 3 > |msg|
    ensures DersOf(Drop(msg, p)) == []
  {
  }

  lemma ReadsFirstEntry(e: Entry, rest: bytes)
    requires EntrySized(e)
    ensures FirstDer(EntryThen(e, rest)) == (e.der, rest)
  {
    var extended := e.extensions + rest;
    var afterDer := ToBE(|e.extensions|, 2) + extended;
    assert Slice(afterDer, 0, 2) == ToBE(|e.extensions|, 2);
    assert Drop(afterDer, 2 + |e.extensions|) == rest;
    assert Drop(e.der + afterDer, |e.der|) == afterDer;
    assert Slice(e.der + afterDer, 0, |e.der|) == e.der;
    assert Slice(EntryThen(e, rest), 0, 3) == ToBE(|e.der|, 3);
    assert Drop(EntryThen(e, rest), 3) == e.der + afterDer;
  }

  lemma {:induction false} DersInvertEntries(es: seq<Entry>)
    requires forall i :: 0 <= i < |es| ==> EntrySized(es[i])
    ensures DersOf(EntryBytes(es)) == Ders(es)
  {
    if es != [] {
      assert EntrySized(es[0]);
      ReadsFirstEntry(es[0], EntryBytes(es[1..]));
      DersInvertEntries(es[1..]);
    }
  }

  /** A well-formed Certificate message yields its certificates, in order, whatever its request
      context and entry extensions are. */
  lemma CertificateRoundTrip(header: bytes, context: bytes, es: seq<Entry>)
    requires |header| == 4 && |context| < 256
    requires forall i :: 0 <= i < |es| ==> EntrySized(es[i])
    requires |EntryBytes(es)| < Pow256(3)
    ensures var msg := header + [|context|] + context + ToBE(|EntryBytes(es)|, 3) + EntryBytes(es);
      |msg| > 4 && DersOf(Drop(msg, msg[4] as int + 8)) == Ders(es)
  {
    hide BE, DersOf, EntryBytes;
    var body := EntryBytes(es);
    var front := header + [|context|] + context + ToBE(|body|, 3);
    Middle(front, body, [], front + body);
    assert front[4] == |context| as byte;
    DersInvertEntries(es);
  }
}
