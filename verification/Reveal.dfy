/**
 The TLS 1.3 reveal of trace-vault/reveal.py: record framing, inner plaintext, and the
 application-data receiver with its skip-then-fail-closed start and its key ratchet.

 Cryptography is a parameter (`Suite`): decryption and key derivation are arbitrary
 deterministic functions. What an ideal AEAD promises is stated as a hypothesis about
 them (`Authentic`, `OpensAll`) exactly where a theorem needs it.
 */
module Reveal {
  import opened Bytes

  type Secret = bytes

  /** What the receiver needs of a cipher suite: open record number `n` under a traffic secret,
      and move to the next secret (RFC 8446 section 7.2). */
  datatype Suite = Suite(
    decrypt: (Secret, nat, Record) -> Option<bytes>,
    update: Secret -> Secret)

  datatype Failure =
    | AllZeroInnerPlaintext
    | UnexpectedRecord
    | AeadFailed

  // ----- Record framing (RFC 8446 section 5.1) -----

  datatype Record = Record(kind: byte, header: bytes, body: bytes)

  ghost predicate Framed(r: Record) {
    |r.header| == 5 && r.header[0] == r.kind && |r.body| == 256 * (r.header[3] as int) + r.header[4] as int
  }

  ghost predicate AllFramed(rs: seq<Record>) {
    forall i :: 0 <= i < |rs| ==> Framed(rs[i])
  }

  function Wire(rs: seq<Record>): bytes {
    if rs == [] then [] else rs[0].header + rs[0].body + Wire(rs[1..])
  }

  function BodyLength(header: bytes): nat
    requires |header| == 5
  {
    BE(header[3..5])
  }

  /** The record at the front of `ct`, if all of it is there. */
  function FirstRecord(ct: bytes): (r: Option<Record>)
    ensures r.Some? ==>
                Framed(r.value) && Size(r.value) <= |ct| && ct == r.value.header + r.value.body + ct[Size(r.value)..]
  {
    if |ct| < 5 || |ct| < 5 + BodyLength(ct[..5]) then None
    else
      ReadsTwoBytes(ct[..5][3..5]);
      Some(Record(ct[0], ct[..5], ct[5..5 + BodyLength(ct[..5])]))
  }

  function Size(r: Record): nat { |r.header| + |r.body| }

  function ParseRecords(ct: bytes): seq<Record> {
    match FirstRecord(ct)
    case None => []
    case Some(r) => [r] + ParseRecords(ct[Size(r)..])
  }

  lemma ParseStep(ct: bytes, i: nat)
    requires i + 5 <= |ct|
    ensures var hdr := ct[i..i + 5];
      var next := i + 5 + BodyLength(hdr);
      ParseRecords(ct[i..]) ==
      if next > |ct| then [] else [Record(hdr[0], hdr, ct[i + 5..next])] + ParseRecords(ct[next..])
  {
    hide BodyLength, BE, Framed, FirstRecord;
    FirstRecordAt(ct, i);
  }

  lemma FirstRecordAt(ct: bytes, i: nat)
    requires i + 5 <= |ct|
    ensures var hdr := ct[i..i + 5];
      var next := i + 5 + BodyLength(hdr);
      if next > |ct| then FirstRecord(ct[i..]) == None
      else
        var r := Record(hdr[0], hdr, ct[i + 5..next]);
        FirstRecord(ct[i..]) == Some(r) && Size(r) == next - i && ct[i..][Size(r)..] == ct[next..]
  {
    hide BodyLength, BE, Framed;
    var hdr, rest := ct[i..i + 5], ct[i..];
    assert rest[..5] == hdr;
    var n := BodyLength(hdr);
    if i + 5 + n <= |ct| {
      assert rest[5..5 + n] == ct[i + 5..i + 5 + n] && rest[5 + n..] == ct[i + 5 + n..];
    }
  }

  method Records(ct: bytes) returns (rs: seq<Record>)
    ensures rs == ParseRecords(ct)
  {
    hide ParseRecords, FirstRecord, BodyLength, BE;
    var i := 0;
    rs := [];
    assert ct[0..] == ct;
    assert [] + ParseRecords(ct) == ParseRecords(ct);
    while i + 5 <= |ct|
      invariant 0 <= i <= |ct|
      invariant ParseRecords(ct) == rs + ParseRecords(ct[i..])
    {
      ParseStep(ct, i);
      var hdr := ct[i..i + 5];
      var n := BodyLength(hdr);
      var body := Slice(ct, i + 5, i + 5 + n);
      if |body| != n {
        assert rs + [] == rs;
        return;
      }
      AppendAssociates(rs, [Record(hdr[0], hdr, body)], ParseRecords(ct[i + 5 + n..]));
      rs := rs + [Record(hdr[0], hdr, body)];
      i := i + 5 + n;
    }
    ParseEnds(ct[i..]);
    assert rs + [] == rs;
  }

  lemma ParseEnds(ct: bytes)
    requires |ct| < 5
    ensures ParseRecords(ct) == []
  {
  }

  lemma ParseFirst(r: Record, rest: bytes)
    requires Framed(r)
    ensures FirstRecord(r.header + r.body + rest) == Some(r)
    ensures (r.header + r.body + rest)[Size(r)..] == rest
  {
    var ct := r.header + r.body + rest;
    assert ct[..5] == r.header;
    ReadsTwoBytes(ct[..5][3..5]);
    assert ct[5..5 + |r.body|] == r.body;
  }

  /** The two length bytes of a record are its length in network order: whatever kind,
      version and body are sent, the receiver finds that record at the front of the stream. */
  lemma RecordIsFound(kind: byte, version: bytes, body: bytes, rest: bytes)
    requires |version| == 2 && |body| < Pow256(2)
    ensures var header := [kind] + version + ToBE(|body|, 2);
      && FirstRecord(header + body + rest) == Some(Record(kind, header, body))
  {
    hide ToBE, FirstRecord, Pow256;
    var length := ToBE(|body|, 2);
    ReadsTwoBytes(length);
    var header := [kind] + version + length;
    assert header[3] == length[0] && header[4] == length[1];
    ParseFirst(Record(kind, header, body), rest);
  }

  /** Whatever follows, framing recovers the records that were sent. */
  lemma {:induction false} ParseInvertsWire(rs: seq<Record>, tail: bytes)
    requires AllFramed(rs)
    ensures ParseRecords(Wire(rs) + tail) == rs + ParseRecords(tail)
  {
    if rs == [] {
      assert Wire(rs) + tail == tail;
    } else {
      var r, rest := rs[0], Wire(rs[1..]) + tail;
      ParseInvertsWire(rs[1..], tail);
      AppendAssociates(r.header + r.body, Wire(rs[1..]), tail);
      ParseFirst(r, rest);
      AppendAssociates([r], rs[1..], ParseRecords(tail));
      assert rs == [r] + rs[1..];
    }
  }

  /** Framing loses and invents nothing: the parsed records re-serialize to a prefix of
      the input, and what is left over holds no complete record. */
  lemma {:induction false} WireInvertsParse(ct: bytes) returns (tail: bytes)
    ensures ct == Wire(ParseRecords(ct)) + tail
    ensures FirstRecord(tail) == None
    ensures AllFramed(ParseRecords(ct))
  {
    match FirstRecord(ct)
    case None =>
      tail := ct;
    case Some(r) =>
      var rest := ct[Size(r)..];
      tail := WireInvertsParse(rest);
      assert ParseRecords(ct)[1..] == ParseRecords(rest);
      AppendAssociates(r.header + r.body, Wire(ParseRecords(rest)), tail);
  }

  // ----- Inner plaintext (RFC 8446 sections 5.2 and 5.4) -----

  function Padded(content: bytes, kind: byte, padding: nat): bytes {
    content + [kind] + Zeros(padding)
  }

  function Unpadded(pt: bytes): Result<(bytes, byte), Failure> {
    if pt == [] then Err(AllZeroInnerPlaintext)
    else if pt[|pt| - 1] == 0 then Unpadded(pt[..|pt| - 1])
    else Ok((pt[..|pt| - 1], pt[|pt| - 1]))
  }

  method Unpad(pt: bytes) returns (r: Result<(bytes, byte), Failure>)
    ensures r == Unpadded(pt)
  {
    var j := |pt| - 1;
    assert pt[..j + 1] == pt;
    while j >= 0 && pt[j] == 0
      invariant -1 <= j < |pt|
      invariant Unpadded(pt[..j + 1]) == Unpadded(pt)
    {
      assert pt[..j + 1][..j] == pt[..j];
      j := j - 1;
    }
    if j < 0 {
      return Err(AllZeroInnerPlaintext);
    }
    assert pt[..j + 1][..j] == pt[..j];
    return Ok((pt[..j], pt[j]));
  }

  lemma {:induction false} UnpadInvertsPad(content: bytes, kind: byte, padding: nat)
    requires kind != 0
    ensures Unpadded(Padded(content, kind, padding)) == Ok((content, kind))
  {
    var pt := Padded(content, kind, padding);
    if padding == 0 {
      assert pt == content + [kind];
      assert pt[..|pt| - 1] == content;
    } else {
      assert pt[..|pt| - 1] == Padded(content, kind, padding - 1);
      UnpadInvertsPad(content, kind, padding - 1);
    }
  }

  /** Unpadding accepts nothing but padded contents, and rejects only all-zero strings. */
  lemma {:induction false} UnpadIsExact(pt: bytes)
    ensures match Unpadded(pt)
            case Ok(inner) => inner.1 != 0 && exists n: nat :: pt == Padded(inner.0, inner.1, n)
            case Err(_) => pt == Zeros(|pt|)
  {
    if pt == [] {
    } else if pt[|pt| - 1] == 0 {
      UnpadIsExact(pt[..|pt| - 1]);
      match Unpadded(pt)
      case Ok(inner) =>
        var n: nat :| pt[..|pt| - 1] == Padded(inner.0, inner.1, n);
        assert pt == pt[..|pt| - 1] + [0] == Padded(inner.0, inner.1, n + 1);
      case Err(_) =>
    } else {
      assert pt == Padded(pt[..|pt| - 1], pt[|pt| - 1], 0);
    }
  }

  // ----- The application-data receiver -----

  const APPLICATION_DATA: byte := 0x17
  const HANDSHAKE: byte := 0x16
  const CHANGE_CIPHER_SPEC: byte := 0x14
  const KEY_UPDATE: byte := 0x18

  datatype Receiver = Receiver(secret: Secret, seqNo: nat, started: bool, out: bytes)

  predicate Candidate(r: Record) {
    r.kind == APPLICATION_DATA && |r.body| >= 16
  }

  /** An inner handshake record whose first message is a KeyUpdate. */
  predicate AnnouncesKeyUpdate(content: bytes, kind: byte) {
    kind == HANDSHAKE && Slice(content, 0, 1) == [KEY_UPDATE]
  }

  function Accept(suite: Suite, st: Receiver, content: bytes, kind: byte): Receiver {
    if kind == APPLICATION_DATA then
      Receiver(st.secret, st.seqNo + 1, true, st.out + content)
    else if AnnouncesKeyUpdate(content, kind) then
      Receiver(suite.update(st.secret), 0, true, st.out)
    else
      Receiver(st.secret, st.seqNo + 1, true, st.out)
  }

  function Receive(suite: Suite, st: Receiver, r: Record): Result<Receiver, Failure> {
    if !Candidate(r) then
      if st.started then Err(UnexpectedRecord) else Ok(st)
    else
      match suite.decrypt(st.secret, st.seqNo, r)
      case None => if st.started then Err(AeadFailed) else Ok(st)
      case Some(pt) =>
        match Unpadded(pt)
        case Err(e) => Err(e)
        case Ok(inner) => Ok(Accept(suite, st, inner.0, inner.1))
  }

  function ReceiveAll(suite: Suite, st: Receiver, rs: seq<Record>): Result<Receiver, Failure>
    decreases |rs|
  {
    if rs == [] then Ok(st)
    else
      match Receive(suite, st, rs[0])
      case Err(e) => Err(e)
      case Ok(next) => ReceiveAll(suite, next, rs[1..])
  }

  function Start(app: Secret): Receiver {
    Receiver(app, 0, false, [])
  }

  function Decrypted(suite: Suite, app: Secret, rs: seq<Record>): Result<bytes, Failure> {
    match ReceiveAll(suite, Start(app), rs)
    case Err(e) => Err(e)
    case Ok(st) => Ok(st.out)
  }

  method DecryptDir(ct: bytes, app: Secret, suite: Suite) returns (r: Result<bytes, Failure>)
    ensures r == Decrypted(suite, app, ParseRecords(ct))
  {
    var rs := Records(ct);
    var secret, seqNo, started, out := app, 0, false, [];
    var i := 0;
    assert rs[0..] == rs;
    while i < |rs|
      invariant 0 <= i <= |rs|
      invariant ReceiveAll(suite, Start(app), rs) ==
                ReceiveAll(suite, Receiver(secret, seqNo, started, out), rs[i..])
    {
      var rec := rs[i];
      assert rs[i..][0] == rec && rs[i..][1..] == rs[i + 1..];
      i := i + 1;
      if rec.kind != APPLICATION_DATA || |rec.body| < 16 {
        if started {
          return Err(UnexpectedRecord);
        }
        continue;
      }
      var pt := suite.decrypt(secret, seqNo, rec);
      if pt.None? {
        if started {
          return Err(AeadFailed);
        }
        continue;
      }
      started := true;
      seqNo := seqNo + 1;
      var inner := Unpad(pt.value);
      if inner.Err? {
        return Err(inner.error);
      }
      var (content, kind) := inner.value;
      if kind == APPLICATION_DATA {
        out := out + content;
      } else if kind == HANDSHAKE && Slice(content, 0, 1) == [KEY_UPDATE] {
        secret, seqNo := suite.update(secret), 0;
      }
    }
    r := Ok(out);
  }

  // ----- The sender -----

  /** One protected record as its sender sees it; `rekeys` says whether the sender moved to
      the next key after it. */
  datatype Sent = Sent(content: bytes, kind: byte, padding: nat, rekeys: bool)

  function Plain(s: Sent): bytes {
    Padded(s.content, s.kind, s.padding)
  }

  /** The key in use for record `i`, and how many keys came before it. */
  function SecretAt(suite: Suite, app: Secret, sent: seq<Sent>, i: nat): Secret
    requires i <= |sent|
  {
    if i == 0 then app
    else if sent[i - 1].rekeys then suite.update(SecretAt(suite, app, sent, i - 1))
    else SecretAt(suite, app, sent, i - 1)
  }

  function GenerationAt(sent: seq<Sent>, i: nat): nat
    requires i <= |sent|
  {
    if i == 0 then 0 else GenerationAt(sent, i - 1) + (if sent[i - 1].rekeys then 1 else 0)
  }

  /** The sequence number of record `i` under its key. */
  function SeqAt(sent: seq<Sent>, i: nat): (n: nat)
    requires i <= |sent|
    ensures n <= i
  {
    if i == 0 || sent[i - 1].rekeys then 0 else SeqAt(sent, i - 1) + 1
  }

  function AppData(sent: seq<Sent>): bytes {
    if sent == [] then []
    else
      var last := sent[|sent| - 1];
      AppData(sent[..|sent| - 1]) + (if last.kind == 0x17 then last.content else [])
  }

  function KeyAfter(suite: Suite, app: Secret, g: nat): Secret {
    if g == 0 then app else suite.update(KeyAfter(suite, app, g - 1))
  }

  lemma {:induction false} SecretIsKeyOfGeneration(suite: Suite, app: Secret, sent: seq<Sent>, i: nat)
    requires i <= |sent|
    ensures SecretAt(suite, app, sent, i) == KeyAfter(suite, app, GenerationAt(sent, i))
  {
    if i > 0 {
      SecretIsKeyOfGeneration(suite, app, sent, i - 1);
    }
  }

  /** The sender's records are well typed: the inner type is never the padding byte. */
  ghost predicate WellTyped(sent: seq<Sent>) {
    forall i :: 0 <= i < |sent| ==> sent[i].kind != 0
  }

  /** Every inner record that looks like a KeyUpdate to the receiver is one. */
  ghost predicate OnlyRealKeyUpdates(sent: seq<Sent>) {
    forall i :: 0 <= i < |sent| && AnnouncesKeyUpdate(sent[i].content, sent[i].kind) ==> sent[i].rekeys
  }

  /** `wire[i]` carries `sent[i]`, and it opens under its own key and number. */
  ghost predicate OpensAt(suite: Suite, app: Secret, sent: seq<Sent>, wire: seq<Record>, i: nat)
    requires i < |sent| == |wire|
  {
    && Framed(wire[i]) && wire[i].kind == 0x17 && |wire[i].body| >= 16
    && suite.decrypt(SecretAt(suite, app, sent, i), SeqAt(sent, i), wire[i]) == Some(Plain(sent[i]))
  }

  ghost predicate OpensAll(suite: Suite, app: Secret, sent: seq<Sent>, wire: seq<Record>) {
    && |wire| == |sent|
    && (forall i :: 0 <= i < |sent| ==> OpensAt(suite, app, sent, wire, i))
  }

  /** Ideal AEAD and key schedule: whatever opens under the n-th key and a given number is the
      record that the sender sealed with exactly that key and number. */
  ghost predicate Authentic(suite: Suite, app: Secret, sent: seq<Sent>, wire: seq<Record>) {
    && |wire| == |sent|
    && (forall g: nat, n: nat, r: Record :: suite.decrypt(KeyAfter(suite, app, g), n, r).Some? ==>
          exists i :: 0 <= i < |sent| && SealedAs(sent, wire, i, g, n, r)
            && suite.decrypt(KeyAfter(suite, app, g), n, r) == Some(Plain(sent[i])))
  }

  ghost predicate SealedAs(sent: seq<Sent>, wire: seq<Record>, i: nat, g: nat, n: nat, r: Record)
    requires i < |sent| == |wire|
  {
    GenerationAt(sent, i) == g && SeqAt(sent, i) == n && r.header == wire[i].header && r.body == wire[i].body
  }

  // ----- Fail-closed prefix safety -----

  /** Key generation, then number within it. */
  predicate Earlier(g: nat, n: nat, g': nat, n': nat) {
    g < g' || (g == g' && n < n')
  }

  lemma {:induction false} PositionsIncrease(sent: seq<Sent>, i: nat, j: nat)
    requires i < j <= |sent|
    ensures Earlier(GenerationAt(sent, i), SeqAt(sent, i), GenerationAt(sent, j), SeqAt(sent, j))
  {
    if i < j - 1 {
      PositionsIncrease(sent, i, j - 1);
    }
  }

  /** The receiver's reading of this record as a KeyUpdate or not agrees with the sender's. */
  predicate ReadAlike(s: Sent) {
    AnnouncesKeyUpdate(s.content, s.kind) <==> s.rekeys
  }

  predicate InStepBefore(sent: seq<Sent>, k: nat)
    requires k <= |sent|
  {
    forall i :: 0 <= i < k ==> ReadAlike(sent[i])
  }

  /** Record `i` passes for a KeyUpdate that it is not, and record `j` is the first one under
      the key that the receiver then moves to. */
  predicate Gap(sent: seq<Sent>, i: nat, j: nat) {
    && i < j < |sent|
    && InStepBefore(sent, i)
    && AnnouncesKeyUpdate(sent[i].content, sent[i].kind) && !sent[i].rekeys
    && GenerationAt(sent, j) == GenerationAt(sent, i) + 1 && SeqAt(sent, j) == 0
  }

  ghost predicate GapFree(sent: seq<Sent>) {
    forall i: nat, j: nat :: !Gap(sent, i, j)
  }

  /** There are gaps: a handshake record that starts with 0x18 without being a KeyUpdate, a real
      KeyUpdate, and application data under the next key. */
  lemma GapsExist()
    ensures var sent := [Sent([0x18], 0x16, 0, false), Sent([0x18], 0x16, 0, true), Sent([1], 0x17, 0, false)];
      Gap(sent, 0, 2) && WellTyped(sent) && !GapFree(sent)
  {
    var sent := [Sent([0x18], 0x16, 0, false), Sent([0x18], 0x16, 0, true), Sent([1], 0x17, 0, false)];
    assert Gap(sent, 0, 2);
  }

  lemma RealKeyUpdatesLeaveNoGap(sent: seq<Sent>)
    requires OnlyRealKeyUpdates(sent)
    ensures GapFree(sent)
  {
  }

  /** The receiver holds the first `k` records' data and either waits where the k-th record
      was sealed or at a position where nothing will ever open. */
  ghost predicate Follows(suite: Suite, app: Secret, sent: seq<Sent>, st: Receiver, g: nat, k: nat) {
    && k <= |sent|
    && st.secret == KeyAfter(suite, app, g)
    && st.out == AppData(sent[..k])
    && (st.started <==> k > 0)
    && ((InStepBefore(sent, k) && GenerationAt(sent, k) == g && SeqAt(sent, k) == st.seqNo)
        || Deserted(sent, g, st.seqNo))
  }

  ghost predicate Deserted(sent: seq<Sent>, g: nat, n: nat) {
    forall i :: 0 <= i < |sent| ==> GenerationAt(sent, i) != g || SeqAt(sent, i) != n
  }

  lemma OnlyTheNextRecordOpens(suite: Suite, app: Secret, sent: seq<Sent>, wire: seq<Record>, st: Receiver, g: nat,
                               k: nat, r: Record)
    requires Authentic(suite, app, sent, wire) && Follows(suite, app, sent, st, g, k)
    requires suite.decrypt(st.secret, st.seqNo, r).Some?
    ensures k < |sent| && r.header == wire[k].header && r.body == wire[k].body
    ensures GenerationAt(sent, k) == g && SeqAt(sent, k) == st.seqNo && InStepBefore(sent, k)
    ensures suite.decrypt(st.secret, st.seqNo, r) == Some(Plain(sent[k]))
  {
    var i :| 0 <= i < |sent| && SealedAs(sent, wire, i, g, st.seqNo, r)
      && suite.decrypt(KeyAfter(suite, app, g), st.seqNo, r) == Some(Plain(sent[i]));
    forall a, b | 0 <= a < b <= |sent|
      ensures Earlier(GenerationAt(sent, a), SeqAt(sent, a), GenerationAt(sent, b), SeqAt(sent, b))
    {
      PositionsIncrease(sent, a, b);
    }
  }

  lemma AppDataGrows(sent: seq<Sent>, k: nat)
    requires k < |sent|
    ensures AppData(sent[..k + 1]) ==
            AppData(sent[..k]) + (if sent[k].kind == APPLICATION_DATA then sent[k].content else [])
  {
    assert sent[..k + 1][..k] == sent[..k];
  }

  lemma AcceptingFollows(suite: Suite, app: Secret, sent: seq<Sent>, st: Receiver, g: nat, k: nat) returns (g': nat)
    requires WellTyped(sent) && GapFree(sent)
    requires Follows(suite, app, sent, st, g, k) && k < |sent|
    requires GenerationAt(sent, k) == g && SeqAt(sent, k) == st.seqNo && InStepBefore(sent, k)
    ensures Follows(suite, app, sent, Accept(suite, st, sent[k].content, sent[k].kind), g', k + 1)
  {
    AppDataGrows(sent, k);
    forall a, b | 0 <= a < b <= |sent|
      ensures Earlier(GenerationAt(sent, a), SeqAt(sent, a), GenerationAt(sent, b), SeqAt(sent, b))
    {
      PositionsIncrease(sent, a, b);
    }
    var s := sent[k];
    if AnnouncesKeyUpdate(s.content, s.kind) {
      g' := g + 1;
      forall i | 0 <= i < |sent| && !s.rekeys
        ensures GenerationAt(sent, i) != g + 1 || SeqAt(sent, i) != 0
      {
        assert !Gap(sent, k, i);
      }
    } else {
      g' := g;
      forall i | 0 <= i < |sent| && s.rekeys
        ensures GenerationAt(sent, i) != g || SeqAt(sent, i) != st.seqNo + 1
      {
        if i > k + 1 {
          assert Earlier(GenerationAt(sent, k + 1), SeqAt(sent, k + 1), GenerationAt(sent, i), SeqAt(sent, i));
        }
      }
    }
  }

  /** A record that opens is the sender's next one, and receiving it moves on by one. */
  lemma ReceivesNextRecord(suite: Suite, app: Secret, sent: seq<Sent>, wire: seq<Record>, st: Receiver, g: nat,
                           k: nat, r: Record) returns (next: Receiver, g': nat)
    requires Authentic(suite, app, sent, wire) && WellTyped(sent) && GapFree(sent)
    requires AllFramed(wire)
    requires Follows(suite, app, sent, st, g, k) && Framed(r)
    requires Candidate(r) && suite.decrypt(st.secret, st.seqNo, r).Some?
    ensures k < |sent| && r == wire[k]
    ensures Receive(suite, st, r) == Ok(next) && next.started
    ensures Follows(suite, app, sent, next, g', k + 1)
  {
    OnlyTheNextRecordOpens(suite, app, sent, wire, st, g, k, r);
    UnpadInvertsPad(sent[k].content, sent[k].kind, sent[k].padding);
    next := Accept(suite, st, sent[k].content, sent[k].kind);
    g' := AcceptingFollows(suite, app, sent, st, g, k);
    assert Framed(wire[k]);
  }

  lemma ReceiveAllStep(suite: Suite, st: Receiver, rs: seq<Record>, next: Receiver)
    requires rs != [] && Receive(suite, st, rs[0]) == Ok(next)
    ensures ReceiveAll(suite, st, rs) == ReceiveAll(suite, next, rs[1..])
  {
  }

  lemma StartedReceiverTakesNextRecord(suite: Suite, app: Secret, sent: seq<Sent>, wire: seq<Record>, st: Receiver,
                                       g: nat, k: nat, rs: seq<Record>)
    returns (next: Receiver, g': nat)
    requires Authentic(suite, app, sent, wire) && WellTyped(sent) && GapFree(sent)
    requires AllFramed(wire) && AllFramed(rs)
    requires Follows(suite, app, sent, st, g, k) && st.started
    requires rs != [] && ReceiveAll(suite, st, rs).Ok?
    ensures k < |sent| && rs[0] == wire[k]
    ensures ReceiveAll(suite, st, rs) == ReceiveAll(suite, next, rs[1..])
    ensures Follows(suite, app, sent, next, g', k + 1) && next.started
  {
    next, g' := ReceivesNextRecord(suite, app, sent, wire, st, g, k, rs[0]);
    ReceiveAllStep(suite, st, rs, next);
  }

  /** Once application data has begun, every further record is the sender's next one. */
  lemma {:induction false} StartedReceiverTakesNextRecords(suite: Suite, app: Secret, sent: seq<Sent>,
                                                           wire: seq<Record>, st: Receiver, g: nat, k: nat,
                                                           rs: seq<Record>)
    returns (n: nat)
    requires Authentic(suite, app, sent, wire) && WellTyped(sent) && GapFree(sent)
    requires AllFramed(wire) && AllFramed(rs)
    requires Follows(suite, app, sent, st, g, k) && st.started
    requires ReceiveAll(suite, st, rs).Ok?
    ensures n == k + |rs| <= |sent| && rs == wire[k..n]
    ensures ReceiveAll(suite, st, rs).value.out == AppData(sent[..n])
    decreases |rs|
  {
    if rs == [] {
      n := k;
    } else {
      var next, g' := StartedReceiverTakesNextRecord(suite, app, sent, wire, st, g, k, rs);
      n := StartedReceiverTakesNextRecords(suite, app, sent, wire, next, g', k + 1, rs[1..]);
      SliceFromFirst(wire, k, n, rs);
    }
  }

  /** A record that the receiver passes over before application data has begun. */
  ghost predicate Skippable(suite: Suite, app: Secret, r: Record) {
    r.kind != 0x17 || |r.body| < 16 || suite.decrypt(app, 0, r).None?
  }

  /** Fail-closed prefix safety: whatever records arrive, in whatever order, if the receiver
      does not fail then, after some skipped records, they are exactly the sender's first `k`
      records and the output is exactly those records' application data. */
  lemma {:induction false} PrefixSafety(suite: Suite, app: Secret, sent: seq<Sent>, wire: seq<Record>, rs: seq<Record>)
    returns (j: nat, k: nat)
    requires Authentic(suite, app, sent, wire) && WellTyped(sent) && GapFree(sent)
    requires AllFramed(wire) && AllFramed(rs)
    requires Decrypted(suite, app, rs).Ok?
    ensures j + k == |rs| && k <= |sent|
    ensures forall i :: 0 <= i < j ==> Skippable(suite, app, rs[i])
    ensures rs[j..] == wire[..k]
    ensures Decrypted(suite, app, rs) == Ok(AppData(sent[..k]))
    decreases |rs|
  {
    if rs == [] {
      j, k := 0, 0;
    } else if Skippable(suite, app, rs[0]) {
      hide Skippable, AppData, Authentic, WellTyped, GapFree, Framed;
      SkipsFirst(suite, app, rs);
      var j', k' := PrefixSafety(suite, app, sent, wire, rs[1..]);
      j, k := j' + 1, k';
      assert rs[1..][j'..] == rs[j..];
      assert forall i :: 0 < i < j ==> rs[i] == rs[1..][i - 1];
    } else {
      j := 0;
      k := SafeFromFirst(suite, app, sent, wire, rs);
    }
  }

  lemma SkipsFirst(suite: Suite, app: Secret, rs: seq<Record>)
    requires rs != [] && Skippable(suite, app, rs[0])
    ensures Decrypted(suite, app, rs) == Decrypted(suite, app, rs[1..])
  {
  }

  /** If the first record is not passed over, the records are the sender's from the first on. */
  lemma SafeFromFirst(suite: Suite, app: Secret, sent: seq<Sent>, wire: seq<Record>, rs: seq<Record>) returns (k: nat)
    requires Authentic(suite, app, sent, wire) && WellTyped(sent) && GapFree(sent)
    requires AllFramed(wire) && AllFramed(rs) && rs != [] && !Skippable(suite, app, rs[0])
    requires Decrypted(suite, app, rs).Ok?
    ensures k <= |sent| && rs == wire[..k] && Decrypted(suite, app, rs) == Ok(AppData(sent[..k]))
  {
    var next, g := ReceivesNextRecord(suite, app, sent, wire, Start(app), 0, 0, rs[0]);
    ReceiveAllStep(suite, Start(app), rs, next);
    k := StartedReceiverTakesNextRecords(suite, app, sent, wire, next, g, 1, rs[1..]);
    assert wire[..k] == [wire[0]] + wire[1..k];
  }

  /** In particular the output is a prefix of what the sender sent. */
  lemma {:induction false} AppDataPrefix(sent: seq<Sent>, k: nat)
    requires k <= |sent|
    ensures AppData(sent[..k]) <= AppData(sent)
  {
    if k < |sent| {
      AppDataPrefix(sent[..|sent| - 1], k);
      assert sent[..|sent| - 1][..k] == sent[..k];
    } else {
      assert sent[..k] == sent;
    }
  }

  lemma DeliveredDataIsPrefix(suite: Suite, app: Secret, sent: seq<Sent>, wire: seq<Record>, ct: bytes)
    requires Authentic(suite, app, sent, wire) && WellTyped(sent) && GapFree(sent)
    requires AllFramed(wire)
    ensures var r := Decrypted(suite, app, ParseRecords(ct));
      r.Ok? ==> r.value <= AppData(sent)
  {
    var _ := WireInvertsParse(ct);
    if Decrypted(suite, app, ParseRecords(ct)).Ok? {
      var j, k := PrefixSafety(suite, app, sent, wire, ParseRecords(ct));
      AppDataPrefix(sent, k);
    }
  }

  // ----- Record-layer round trip -----

  lemma {:induction false} SkipsForeignRecords(suite: Suite, app: Secret, junk: seq<Record>, rs: seq<Record>)
    requires forall r :: r in junk ==> Skippable(suite, app, r)
    ensures ReceiveAll(suite, Start(app), junk + rs) == ReceiveAll(suite, Start(app), rs)
  {
    if junk == [] {
      assert junk + rs == rs;
    } else {
      assert junk[0] in junk;
      assert Receive(suite, Start(app), junk[0]) == Ok(Start(app));
      assert (junk + rs)[0] == junk[0] && (junk + rs)[1..] == junk[1..] + rs;
      SkipsForeignRecords(suite, app, junk[1..], rs);
    }
  }

  /** The receiver in the sender's own position before record `k`. */
  function InStep(suite: Suite, app: Secret, sent: seq<Sent>, k: nat): Receiver
    requires k <= |sent|
  {
    Receiver(SecretAt(suite, app, sent, k), SeqAt(sent, k), k > 0, AppData(sent[..k]))
  }

  /** Accepting one of the sender's records moves the receiver as the sender moved. */
  lemma AcceptsLikeInStep(suite: Suite, app: Secret, sent: seq<Sent>, k: nat)
    requires k < |sent| && ReadAlike(sent[k])
    ensures Accept(suite, InStep(suite, app, sent, k), sent[k].content, sent[k].kind) == InStep(suite, app, sent, k + 1)
  {
    AppDataGrows(sent, k);
  }

  lemma {:induction false} ReceivesUpTo(suite: Suite, app: Secret, sent: seq<Sent>, wire: seq<Record>, k: nat, n: nat,
                                        rest: seq<Record>)
    requires OpensAll(suite, app, sent, wire) && WellTyped(sent)
    requires k <= n <= |sent| && InStepBefore(sent, n)
    ensures ReceiveAll(suite, InStep(suite, app, sent, k), wire[k..n] + rest)
            == ReceiveAll(suite, InStep(suite, app, sent, n), rest)
    decreases n - k
  {
    if k == n {
      assert wire[k..n] + rest == rest;
    } else {
      assert OpensAt(suite, app, sent, wire, k);
      UnpadInvertsPad(sent[k].content, sent[k].kind, sent[k].padding);
      AcceptsLikeInStep(suite, app, sent, k);
      assert wire[k..n] + rest == [wire[k]] + (wire[k + 1..n] + rest);
      ReceiveAllStep(suite, InStep(suite, app, sent, k), wire[k..n] + rest, InStep(suite, app, sent, k + 1));
      ReceivesUpTo(suite, app, sent, wire, k + 1, n, rest);
    }
  }

  /** The byte stream made of foreign records, then the sender's first `n` records, then an
      incomplete record decrypts to those records' application data, across every key update. */
  lemma RoundTrip(suite: Suite, app: Secret, sent: seq<Sent>, wire: seq<Record>, junk: seq<Record>, n: nat, tail: bytes)
    requires OpensAll(suite, app, sent, wire) && WellTyped(sent)
    requires InStepBefore(sent, |sent|)
    requires AllFramed(junk) && forall r :: r in junk ==> Skippable(suite, app, r)
    requires n <= |sent| && FirstRecord(tail) == None
    ensures Decrypted(suite, app, ParseRecords(Wire(junk + wire[..n]) + tail)) == Ok(AppData(sent[..n]))
  {
    forall i | 0 <= i < n
      ensures Framed(wire[i])
    {
      assert OpensAt(suite, app, sent, wire, i);
    }
    ParseInvertsWire(junk + wire[..n], tail);
    assert junk + wire[..n] + ParseRecords(tail) == junk + wire[..n];
    SkipsForeignRecords(suite, app, junk, wire[..n]);
    ReceivesUpTo(suite, app, sent, wire, 0, n, []);
    assert wire[0..n] + [] == wire[..n];
    assert InStep(suite, app, sent, 0) == Start(app);
  }

  /** Both directions at once: the receiver succeeds exactly on skippable records followed by
      an unbroken run of the sender's records from the first on. */
  lemma AcceptsExactlyPrefixes(suite: Suite, app: Secret, sent: seq<Sent>, wire: seq<Record>, rs: seq<Record>)
    requires Authentic(suite, app, sent, wire) && OpensAll(suite, app, sent, wire) && WellTyped(sent)
    requires InStepBefore(sent, |sent|)
    requires AllFramed(rs)
    ensures Decrypted(suite, app, rs).Ok? <==>
            exists j: nat, k: nat :: j <= |rs| && k <= |sent| && SkippedThenPrefix(suite, app, wire, rs, j, k)
  {
    forall i | 0 <= i < |wire|
      ensures Framed(wire[i])
    {
      assert OpensAt(suite, app, sent, wire, i);
    }
    if Decrypted(suite, app, rs).Ok? {
      var j, k := PrefixSafety(suite, app, sent, wire, rs);
      assert SkippedThenPrefix(suite, app, wire, rs, j, k);
    }
    if j: nat, k: nat :| j <= |rs| && k <= |sent| && SkippedThenPrefix(suite, app, wire, rs, j, k) {
      assert rs == rs[..j] + wire[..k];
      SkipsForeignRecords(suite, app, rs[..j], wire[..k]);
      ReceivesUpTo(suite, app, sent, wire, 0, k, []);
      assert wire[0..k] + [] == wire[..k];
    }
  }

  ghost predicate SkippedThenPrefix(suite: Suite, app: Secret, wire: seq<Record>, rs: seq<Record>, j: nat, k: nat)
    requires j <= |rs| && k <= |wire|
  {
    rs[j..] == wire[..k] && forall r :: r in rs[..j] ==> Skippable(suite, app, r)
  }

  // ----- Exactly when prefix safety holds -----

  ghost predicate PrefixSafe(suite: Suite, app: Secret, sent: seq<Sent>, wire: seq<Record>)
    requires |wire| == |sent|
  {
    forall rs: seq<Record> :: AllFramed(rs) && Decrypted(suite, app, rs).Ok? ==>
      exists j: nat, k: nat :: j <= |rs| && k <= |sent| && SkippedThenPrefix(suite, app, wire, rs, j, k)
  }

  /** Across a gap the receiver joins record `j` to record `i` and never notices what was
      sent between them. */
  lemma GapSkipsData(suite: Suite, app: Secret, sent: seq<Sent>, wire: seq<Record>, i: nat, j: nat)
    requires OpensAll(suite, app, sent, wire) && WellTyped(sent) && Gap(sent, i, j)
    ensures Decrypted(suite, app, wire[..i + 1] + [wire[j]]) ==
            Ok(AppData(sent[..i + 1]) + (if sent[j].kind == APPLICATION_DATA then sent[j].content else []))
  {
    var before := InStep(suite, app, sent, i);
    var after := Accept(suite, before, sent[i].content, sent[i].kind);
    assert OpensAt(suite, app, sent, wire, i) && OpensAt(suite, app, sent, wire, j);
    UnpadInvertsPad(sent[i].content, sent[i].kind, sent[i].padding);
    UnpadInvertsPad(sent[j].content, sent[j].kind, sent[j].padding);
    AppDataGrows(sent, i);
    SecretIsKeyOfGeneration(suite, app, sent, i);
    SecretIsKeyOfGeneration(suite, app, sent, j);
    assert wire[..i + 1] + [wire[j]] == wire[0..i] + [wire[i], wire[j]];
    ReceivesUpTo(suite, app, sent, wire, 0, i, [wire[i], wire[j]]);
    ReceiveAllStep(suite, before, [wire[i], wire[j]], after);
    assert [wire[i], wire[j]][1..] == [wire[j]];
    ReceiveAllStep(suite, after, [wire[j]], Accept(suite, after, sent[j].content, sent[j].kind));
    assert [wire[j]][1..] == [];
    assert InStep(suite, app, sent, 0) == Start(app);
    assert after == Receiver(SecretAt(suite, app, sent, j), SeqAt(sent, j), true, AppData(sent[..i + 1]));
  }

  /** Prefix safety holds of every delivery if and only if the sender leaves no gap. */
  lemma PrefixSafeExactlyWhenGapFree(suite: Suite, app: Secret, sent: seq<Sent>, wire: seq<Record>)
    requires Authentic(suite, app, sent, wire) && OpensAll(suite, app, sent, wire) && WellTyped(sent)
    requires forall a, b :: 0 <= a < b < |wire| ==> wire[a] != wire[b]
    ensures PrefixSafe(suite, app, sent, wire) <==> GapFree(sent)
  {
    hide ReceiveAll, GenerationAt, SeqAt, AppData, Skippable;
    forall a | 0 <= a < |wire|
      ensures Framed(wire[a])
    {
      assert OpensAt(suite, app, sent, wire, a);
    }
    if GapFree(sent) {
      forall rs: seq<Record> | AllFramed(rs) && Decrypted(suite, app, rs).Ok?
        ensures exists j: nat, k: nat ::
                  j <= |rs| && k <= |sent| && SkippedThenPrefix(suite, app, wire, rs, j, k)
      {
        var j, k := PrefixSafety(suite, app, sent, wire, rs);
        assert SkippedThenPrefix(suite, app, wire, rs, j, k);
      }
    } else {
      var i: nat, j: nat :| Gap(sent, i, j);
      var rs := wire[..i + 1] + [wire[j]];
      GapSkipsData(suite, app, sent, wire, i, j);
      if a: nat, k: nat :| a <= |rs| && k <= |sent| && SkippedThenPrefix(suite, app, wire, rs, a, k) {
        GapIsNoPrefix(suite, app, sent, wire, i, j, a, k);
      }
    }
  }

  lemma GapIsNoPrefix(suite: Suite, app: Secret, sent: seq<Sent>, wire: seq<Record>, i: nat, j: nat, a: nat, k: nat)
    requires OpensAll(suite, app, sent, wire) && Gap(sent, i, j)
    requires forall a, b :: 0 <= a < b < |wire| ==> wire[a] != wire[b]
    requires a <= i + 2 && k <= |sent|
    ensures !SkippedThenPrefix(suite, app, wire, wire[..i + 1] + [wire[j]], a, k)
  {
    var rs := wire[..i + 1] + [wire[j]];
    assert OpensAt(suite, app, sent, wire, 0);
    assert !Skippable(suite, app, wire[0]);
    assert a > 0 ==> rs[..a][0] == wire[0] && rs[..a][0] in rs[..a];
    assert GenerationAt(sent, i + 1) == GenerationAt(sent, i);
    assert wire[j] != wire[i + 1];
    assert rs[0..] == rs && rs[i + 1] == wire[j];
    assert k == i + 2 ==> wire[..k][i + 1] == wire[i + 1];
  }

  // ----- Per-record nonce (RFC 8446 section 5.3) -----

  function Pow2(k: nat): nat {
    if k == 0 then 1 else 2 * Pow2(k - 1)
  }

  /** Exclusive or of the low `width` bits. */
  function XorBits(a: nat, b: nat, width: nat): (r: nat)
    ensures r < Pow2(width)
    decreases width
  {
    if width == 0 then 0
    else 2 * XorBits(a / 2, b / 2, width - 1) + (if a % 2 == b % 2 then 0 else 1)
  }

  /** The bit of `n` that stands for two to the `k`. */
  ghost function Bit(n: nat, k: nat): nat {
    if k == 0 then n % 2 else Bit(n / 2, k - 1)
  }

  /** Each bit is set exactly where the two numbers differ. */
  lemma {:induction false} XorIsBitwise(a: nat, b: nat, width: nat, k: nat)
    requires k < width
    ensures Bit(XorBits(a, b, width), k) == if Bit(a, k) == Bit(b, k) then 0 else 1
    decreases width
  {
    var r := XorBits(a / 2, b / 2, width - 1);
    assert XorBits(a, b, width) / 2 == r && XorBits(a, b, width) % 2 == if a % 2 == b % 2 then 0 else 1;
    if k > 0 {
      XorIsBitwise(a / 2, b / 2, width - 1, k - 1);
    }
  }

  const SEQ_LIMIT: nat := 0x1_0000_0000_0000_0000

  function Nonce(iv: bytes, seqNo: nat): (r: bytes)
    requires |iv| == 12 && seqNo < SEQ_LIMIT
    ensures |r| == 12
  {
    var counter := Zeros(4) + ToBE(seqNo, 8);
    seq(12, i requires 0 <= i < 12 => XorBits(iv[i], counter[i], 8))
  }

  /** The nonce is the IV with the bits flipped that are set in the sequence number, written in twelve
      bytes in network order. */
  lemma NonceFlips(iv: bytes, seqNo: nat, i: nat, k: nat) returns (counter: bytes)
    requires |iv| == 12 && seqNo < 0x1_0000_0000_0000_0000 && i < 12 && k < 8
    ensures |counter| == 12 && BE(counter) == seqNo
    ensures Bit(Nonce(iv, seqNo)[i], k) == if Bit(iv[i], k) == Bit(counter[i], k) then 0 else 1
  {
    counter := Zeros(4) + ToBE(seqNo, 8);
    ZerosInFront(4, ToBE(seqNo, 8));
    XorIsBitwise(iv[i], counter[i], 8, k);
    hide XorBits, Bit, BE, ToBE;
  }

  lemma {:induction false} ZerosInFront(n: nat, bs: bytes)
    ensures BE(Zeros(n) + bs) == BE(bs)
    decreases n
  {
    BEJoins(Zeros(n), bs);
    NoNumber(n);
    hide BE, Pow256;
  }

  lemma {:induction false} NoNumber(n: nat)
    ensures BE(Zeros(n)) == 0
  {
    if n > 0 {
      NoNumber(n - 1);
      assert Zeros(n)[..n - 1] == Zeros(n - 1);
    }
  }

  lemma {:induction false} XorCancels(a: nat, b: nat, c: nat, width: nat)
    requires b < Pow2(width) && c < Pow2(width)
    requires XorBits(a, b, width) == XorBits(a, c, width)
    ensures b == c
    decreases width
  {
    if width > 0 {
      XorCancels(a / 2, b / 2, c / 2, width - 1);
    }
  }

  /** No nonce is reused under one key. */
  lemma NonceInjective(iv: bytes, m: nat, n: nat)
    requires |iv| == 12 && m < SEQ_LIMIT && n < SEQ_LIMIT
    requires Nonce(iv, m) == Nonce(iv, n)
    ensures m == n
  {
    var a, b := Zeros(4) + ToBE(m, 8), Zeros(4) + ToBE(n, 8);
    forall i | 0 <= i < 12
      ensures a[i] == b[i]
    {
      assert Nonce(iv, m)[i] == Nonce(iv, n)[i];
      XorCancels(iv[i], a[i], b[i], 8);
    }
    assert a == b;
    assert ToBE(m, 8) == a[4..] && ToBE(n, 8) == b[4..];
  }

  // ----- From an ideal AEAD to the receiver's view of it -----

  /** A traffic secret's IV, the AEAD of RFC 8446 section 5.2 and the key update. */
  datatype Aead = Aead(
    iv: Secret -> bytes,
    open: (Secret, bytes, bytes, bytes) -> Option<bytes>,   // secret, nonce, header, body
    update: Secret -> Secret)

  /** The record protection of one suite. A counter whose eight-byte encoding overflows
      raises like any other decryption failure. */
  function Protection(aead: Aead): Suite {
    Suite(
      (secret: Secret, n: nat, r: Record) =>
        var iv := aead.iv(secret);
        if |iv| != 12 || n >= SEQ_LIMIT then None
        else aead.open(secret, Nonce(iv, n), r.header, r.body),
      aead.update)
  }

  /** The AEAD opens nothing but what was sealed under the same key, nonce and header, and none of
      the keys the sender used comes up at another place of the key schedule. */
  ghost predicate IdealAead(aead: Aead, app: Secret, sent: seq<Sent>, wire: seq<Record>) {
    && |wire| == |sent| < SEQ_LIMIT
    && (forall s :: |aead.iv(s)| == 12)
    && (forall g: nat, h: nat ::
          h <= GenerationAt(sent, |sent|) && KeyAfter(Protection(aead), app, g) == KeyAfter(Protection(aead), app, h)
          ==> g == h)
    && (forall g: nat, nonce, header, body ::
          aead.open(KeyAfter(Protection(aead), app, g), nonce, header, body).Some? ==>
            exists i :: 0 <= i < |sent| && SealedUnder(aead, app, sent, wire, i, g, nonce, header, body)
              && aead.open(KeyAfter(Protection(aead), app, g), nonce, header, body) == Some(Plain(sent[i])))
  }

  ghost predicate SealedUnder(aead: Aead, app: Secret, sent: seq<Sent>, wire: seq<Record>, i: nat, g: nat,
                              nonce: bytes, header: bytes, body: bytes)
    requires i < |sent| == |wire| < SEQ_LIMIT && forall s :: |aead.iv(s)| == 12
  {
    var key := SecretAt(Protection(aead), app, sent, i);
    && key == KeyAfter(Protection(aead), app, g)
    && nonce == Nonce(aead.iv(key), SeqAt(sent, i))
    && header == wire[i].header && body == wire[i].body
  }

  /** Because nonces never repeat under a key, an ideal AEAD lets a record open only at the
      position at which it was sent. */
  lemma IdealAeadIsAuthentic(aead: Aead, app: Secret, sent: seq<Sent>, wire: seq<Record>)
    requires IdealAead(aead, app, sent, wire)
    ensures Authentic(Protection(aead), app, sent, wire)
  {
    var suite := Protection(aead);
    forall g: nat, n: nat, r: Record | suite.decrypt(KeyAfter(suite, app, g), n, r).Some?
      ensures exists i ::
                0 <= i < |sent| && SealedAs(sent, wire, i, g, n, r)
                && suite.decrypt(KeyAfter(suite, app, g), n, r) == Some(Plain(sent[i]))
    {
      var key := KeyAfter(suite, app, g);
      var nonce := Nonce(aead.iv(key), n);
      assert suite.decrypt(key, n, r) == aead.open(key, nonce, r.header, r.body);
      var i :| 0 <= i < |sent| && SealedUnder(aead, app, sent, wire, i, g, nonce, r.header, r.body)
        && aead.open(key, nonce, r.header, r.body) == Some(Plain(sent[i]));
      SecretIsKeyOfGeneration(suite, app, sent, i);
      PositionsIncrease(sent, i, |sent|);
      NonceInjective(aead.iv(key), n, SeqAt(sent, i));
      assert SealedAs(sent, wire, i, g, n, r);
    }
  }
}
