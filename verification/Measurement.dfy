/**
 Replaying an attested event log (trace-vault/attestation_verify.py:28-69): each event extends a
 hash chain that must end in the quoted register, and the runtime events of register 3 name the
 identity that is compared with the pinned measurements. What is proved is how far the quoted
 register pins that identity down, whatever log is presented for it. The hash is a parameter; it is
 only assumed not to collide on the inputs that the booted and the presented log hash.
 */
module Measurement {
  import opened Bytes
  import opened Numerals

  const RUNTIME: int := 0x0800_0001
  const WIDTH: nat := 48

  /** One event; a missing or empty name or digest is the empty string. */
  datatype Event = Event(imr: int, kind: int, name: bytes, payload: Option<string>, digest: string)

  type Hash = bytes -> bytes

  function Text(payload: Option<string>): string {
    if payload.Some? then payload.value else ""
  }

  // ----- Digests and registers -----

  /** What a runtime event hashes: its type, name and payload, with colons between them. */
  function Message(name: bytes, payload: bytes): bytes {
    [0x01, 0x00, 0x00, 0x08] + ([58] + (name + ([58] + payload)))
  }

  datatype Digest = Unreadable | Nothing | Extends(value: bytes)

  function DigestOf(h: Hash, e: Event): Digest {
    if e.kind == RUNTIME then
      match FromHex(Text(e.payload))
      case None => Unreadable
      case Some(payload) => Extends(h(Message(e.name, payload)))
    else if e.digest == "" then Nothing
    else
      match FromHex(e.digest)
      case None => Unreadable
      case Some(value) => Extends(value)
  }

  function Block(value: bytes): (block: bytes)
    ensures |block| == WIDTH
  {
    (value + Zeros(WIDTH))[..WIDTH]
  }

  predicate Readable(h: Hash, log: seq<Event>) {
    forall k :: 0 <= k < |log| ==> DigestOf(h, log[k]) != Unreadable
  }

  /** The blocks that the log extends into register `i`, in order. */
  function Extensions(h: Hash, log: seq<Event>, i: int): seq<bytes> {
    if log == [] then []
    else
      var e := log[|log| - 1];
      var d := DigestOf(h, e);
      Extensions(h, log[..|log| - 1], i) + if e.imr == i && d.Extends? then [Block(d.value)] else []
  }

  /** A register after extending it with `blocks`. */
  function Chain(h: Hash, blocks: seq<bytes>): bytes {
    if blocks == [] then Zeros(WIDTH) else h(Chain(h, blocks[..|blocks| - 1]) + blocks[|blocks| - 1])
  }

  function Registers(h: Hash, log: seq<Event>): map<int, bytes> {
    map i | 0 <= i < 4 :: Chain(h, Extensions(h, log, i))
  }

  method Replay(h: Hash, log: seq<Event>) returns (r: Option<map<int, bytes>>)
    ensures r == if Readable(h, log) then Some(Registers(h, log)) else None
  {
    hide DigestOf, Registers;
    var zero := Zeros(WIDTH);
    var replay: map<int, bytes> := map[0 := zero, 1 := zero, 2 := zero, 3 := zero];
    EmptyRegisters(h);
    var k := 0;
    while k < |log|
      invariant k <= |log| && Readable(h, log[..k])
      invariant replay.Keys == {0, 1, 2, 3} && replay == Registers(h, log[..k])
    {
      var index, digest := log[k].imr, DigestOf(h, log[k]);
      assert log[..k + 1] == log[..k] + [log[k]];
      if digest == Unreadable {
        return None;
      }
      RegistersGrow(h, log[..k], log[k]);
      if index in replay && digest.Extends? {
        replay := replay[index := h(replay[index] + Block(digest.value))];
      }
      k := k + 1;
    }
    assert log[..k] == log;
    r := Some(replay);
  }

  lemma EmptyRegisters(h: Hash)
    ensures var zero := Zeros(WIDTH); Registers(h, []) == map[0 := zero, 1 := zero, 2 := zero, 3 := zero]
  {
    hide Zeros;
    assert forall i :: Extensions(h, [], i) == [];
  }

  /** What the loop does to the registers for one more event. */
  lemma RegistersGrow(h: Hash, log: seq<Event>, e: Event)
    ensures var d, replay := DigestOf(h, e), Registers(h, log);
      && replay.Keys == {0, 1, 2, 3}
      && Registers(h, log + [e])
         == if e.imr in replay && d.Extends? then replay[e.imr := h(replay[e.imr] + Block(d.value))] else replay
  {
    hide DigestOf, Chain, Block, Extensions;
    var d := DigestOf(h, e);
    forall i | 0 <= i < 4
      ensures Chain(h, Extensions(h, log + [e], i))
           == if e.imr == i && d.Extends? then h(Chain(h, Extensions(h, log, i)) + Block(d.value))
              else Chain(h, Extensions(h, log, i))
    {
      ExtensionsGrow(h, log, e, i);
      if e.imr == i && d.Extends? {
        ChainExtends(h, Extensions(h, log, i), Block(d.value));
      }
    }
  }

  lemma ExtensionsGrow(h: Hash, log: seq<Event>, e: Event, i: int)
    ensures var d := DigestOf(h, e);
      Extensions(h, log + [e], i)
      == if e.imr == i && d.Extends? then Extensions(h, log, i) + [Block(d.value)] else Extensions(h, log, i)
  {
    hide DigestOf, Block;
    assert (log + [e])[..|log|] == log;
  }

  lemma ChainExtends(h: Hash, blocks: seq<bytes>, block: bytes)
    ensures Chain(h, blocks + [block]) == h(Chain(h, blocks) + block)
  {
    assert (blocks + [block])[..|blocks|] == blocks;
  }

  // What is hashed, spelled out.

  /** ASCII characters as the bytes that stand for them. */
  ghost predicate Spells(bs: bytes, text: string) {
    |bs| == |text| && forall i :: 0 <= i < |bs| ==> bs[i] as int == text[i] as int
  }

  /** A runtime event hashes its type in little-endian order, its name and its payload, with colons
      between them; another event extends its digest as it stands, and nothing without one. */
  lemma DigestIsSpelled(h: Hash, e: Event)
    ensures DigestOf(h, e).Extends? <==>
              if e.kind == 0x0800_0001 then FromHex(Text(e.payload)).Some?
              else e.digest != "" && FromHex(e.digest).Some?
    ensures DigestOf(h, e) == Nothing <==> e.kind != 0x0800_0001 && e.digest == ""
    ensures DigestOf(h, e).Extends? && e.kind != 0x0800_0001 ==> DigestOf(h, e).value == FromHex(e.digest).value
    ensures DigestOf(h, e).Extends? && e.kind == 0x0800_0001 ==>
              exists kind, colon, payload ::
                && |kind| == 4 && Spells(colon, ":")
                && FromHex(if e.payload == None then "" else e.payload.value) == Some(payload)
                && kind[0] + 0x100 * kind[1] as int + 0x1_0000 * kind[2] as int + 0x100_0000 * kind[3] as int == e.kind
                && DigestOf(h, e).value == h(kind + colon + e.name + colon + payload)
  {
    hide FromHex;
    if DigestOf(h, e).Extends? && e.kind == 0x0800_0001 {
      var payload := FromHex(Text(e.payload)).value;
      var kind: bytes, colon: bytes := [0x01, 0x00, 0x00, 0x08], [0x3A];
      assert Message(e.name, payload) == kind + colon + e.name + colon + payload;
      assert Spells(colon, ":");
    }
  }

  /** A register starts as 48 zero bytes; each event replaces it by the hash of itself and the event's
      digest, cut or filled with zeros to 48 bytes. */
  lemma RegisterIsSpelled(h: Hash, blocks: seq<bytes>, value: bytes)
    ensures |Chain(h, [])| == 48 && forall k :: 0 <= k < 48 ==> Chain(h, [])[k] == 0
    ensures |Block(value)| == 48
    ensures forall k :: 0 <= k < 48 ==> Block(value)[k] == if k < |value| then value[k] else 0
    ensures Chain(h, blocks + [Block(value)]) == h(Chain(h, blocks) + Block(value))
  {
    ChainExtends(h, blocks, Block(value));
  }

  // ----- The chain -----

  /** Everything hashed while extending a register with `blocks`. */
  function ChainInputs(h: Hash, blocks: seq<bytes>): set<bytes> {
    if blocks == [] then {}
    else
      var front := blocks[..|blocks| - 1];
      ChainInputs(h, front) + {Chain(h, front) + blocks[|blocks| - 1]}
  }

  /** No two of these inputs collide, and none of them hashes to the empty register. */
  predicate CollisionFree(h: Hash, inputs: set<bytes>) {
    && (forall x, y :: x in inputs && y in inputs && h(x) == h(y) ==> x == y)
    && forall x :: x in inputs ==> h(x) != Zeros(WIDTH)
  }

  predicate Blocks(blocks: seq<bytes>) {
    forall k :: 0 <= k < |blocks| ==> |blocks[k]| == WIDTH
  }

  /** A register determines the blocks it was extended with, however many there were. */
  lemma {:induction false} ChainDetermines(h: Hash, a: seq<bytes>, b: seq<bytes>, inputs: set<bytes>)
    requires Blocks(a) && Blocks(b) && ChainInputs(h, a) <= inputs && ChainInputs(h, b) <= inputs
    requires CollisionFree(h, inputs)
    requires Chain(h, a) == Chain(h, b)
    ensures a == b
    decreases |a|
  {
    hide CollisionFree;
    if a == [] {
      if b != [] {
        LastInput(h, b, inputs);
      }
    } else if b == [] {
      LastInput(h, a, inputs);
    } else {
      var x, y := a[..|a| - 1], b[..|b| - 1];
      SameInput(h, a, b, inputs);
      SplitAtEnd(Chain(h, x), a[|a| - 1], Chain(h, y), b[|b| - 1]);
      ChainDetermines(h, x, y, inputs);
      assert a == x + [a[|a| - 1]] && b == y + [b[|b| - 1]];
    }
  }

  lemma LastInput(h: Hash, a: seq<bytes>, inputs: set<bytes>)
    requires a != [] && ChainInputs(h, a) <= inputs && CollisionFree(h, inputs)
    ensures Chain(h, a) != Zeros(WIDTH)
  {
    assert Chain(h, a[..|a| - 1]) + a[|a| - 1] in inputs;
  }

  lemma SameInput(h: Hash, a: seq<bytes>, b: seq<bytes>, inputs: set<bytes>)
    requires a != [] && b != [] && ChainInputs(h, a) <= inputs && ChainInputs(h, b) <= inputs
    requires CollisionFree(h, inputs)
    requires Chain(h, a) == Chain(h, b)
    ensures Chain(h, a[..|a| - 1]) + a[|a| - 1] == Chain(h, b[..|b| - 1]) + b[|b| - 1]
  {
    assert Chain(h, a[..|a| - 1]) + a[|a| - 1] in inputs && Chain(h, b[..|b| - 1]) + b[|b| - 1] in inputs;
  }

  lemma SplitAtEnd(p: bytes, x: bytes, q: bytes, y: bytes)
    requires p + x == q + y && |x| == |y|
    ensures p == q && x == y
  {
    assert (p + x)[..|p|] == p && (q + y)[..|q|] == q;
    assert (p + x)[|p|..] == x && (q + y)[|q|..] == y;
  }

  // ----- Messages -----

  predicate ColonFree(name: bytes) {
    58 !in name
  }

  /** A colon-free name and its payload can be read back from the message. */
  lemma MessageDetermines(name: bytes, payload: bytes, name': bytes, payload': bytes)
    requires ColonFree(name) && ColonFree(name') && Message(name, payload) == Message(name', payload')
    ensures name == name' && payload == payload'
  {
    var m, m' := Message(name, payload)[5..], Message(name', payload')[5..];
    assert m == name + ([58] + payload) && m' == name' + ([58] + payload');
    CutAtName(name, payload);
    CutAtName(name', payload');
    assert m[..|name|] == name && m'[..|name'|] == name';
    assert m[|name| + 1..] == payload && m'[|name'| + 1..] == payload';
  }

  /** Where the first colon is. */
  function Cut(m: bytes): nat {
    if m == [] || m[0] == 58 then 0 else 1 + Cut(m[1..])
  }

  lemma {:induction false} CutAtName(name: bytes, payload: bytes)
    requires ColonFree(name)
    ensures Cut(name + ([58] + payload)) == |name|
  {
    if name == [] {
      assert name + ([58] + payload) == [58] + payload;
    } else {
      CutAtName(name[1..], payload);
      assert (name + ([58] + payload))[1..] == name[1..] + ([58] + payload);
    }
  }

  // ----- What register 3 is extended with -----

  /** The runtime events extended into register 3, with their payloads decoded. */
  function Entries(log: seq<Event>): seq<(bytes, bytes)> {
    if log == [] then []
    else
      var e := log[|log| - 1];
      Entries(log[..|log| - 1])
      + if e.imr == 3 && e.kind == RUNTIME && FromHex(Text(e.payload)).Some?
        then [(e.name, FromHex(Text(e.payload)).value)] else []
  }

  /** What an honest boot extends into register 3: runtime events with nonempty colon-free names. */
  predicate Plain(log: seq<Event>) {
    forall k :: 0 <= k < |log| && log[k].imr == 3 ==>
      log[k].kind == RUNTIME && log[k].name != [] && ColonFree(log[k].name) && FromHex(Text(log[k].payload)).Some?
  }

  /** Nothing is hidden in register 3: what extends it are runtime events with colon-free names. */
  predicate Open(log: seq<Event>) {
    forall k :: 0 <= k < |log| && log[k].imr == 3 ==> OpenEvent(log[k])
  }

  predicate OpenEvent(e: Event) {
    if e.kind == RUNTIME then ColonFree(e.name) else e.digest == ""
  }

  function Messages(entries: seq<(bytes, bytes)>): (messages: seq<bytes>)
    ensures |messages| == |entries|
    ensures forall k :: 0 <= k < |entries| ==> messages[k] == Message(entries[k].0, entries[k].1)
  {
    seq(|entries|, k requires 0 <= k < |entries| => Message(entries[k].0, entries[k].1))
  }

  /** Everything hashed to compute register 3. */
  function Inputs(h: Hash, log: seq<Event>): set<bytes> {
    ChainInputs(h, Extensions(h, log, 3)) + set k | 0 <= k < |Entries(log)| :: Messages(Entries(log))[k]
  }

  /** The honest log `a` and the log `b` that is presented leave the same register 3. */
  ghost predicate SameRegister(h: Hash, a: seq<Event>, b: seq<Event>) {
    && Plain(a) && Readable(h, b) && (forall x :: |h(x)| == WIDTH)
    && CollisionFree(h, Inputs(h, a) + Inputs(h, b)) && Registers(h, a)[3] == Registers(h, b)[3]
  }

  lemma WholeBlock(value: bytes)
    requires |value| == WIDTH
    ensures Block(value) == value
  {
  }

  lemma {:induction false} ExtensionsAreBlocks(h: Hash, log: seq<Event>)
    ensures Blocks(Extensions(h, log, 3))
  {
    hide Block, DigestOf;
    if log != [] {
      ExtensionsAreBlocks(h, log[..|log| - 1]);
    }
  }

  lemma PlainIsOpen(h: Hash, log: seq<Event>)
    requires Plain(log)
    ensures Open(log) && forall k :: 0 <= k < |log| && log[k].imr == 3 ==> DigestOf(h, log[k]) != Unreadable
  {
    hide FromHex, ColonFree, Message;
  }

  predicate RuntimeOnly(log: seq<Event>) {
    forall k :: 0 <= k < |log| && log[k].imr == 3 && log[k].kind != RUNTIME ==> log[k].digest == ""
  }

  /** Register 3 is extended by the runtime events, and by nothing else exactly when no event of
      another type carries a digest. */
  lemma {:induction false} EntriesCount(h: Hash, log: seq<Event>)
    requires Readable(h, log)
    ensures |Entries(log)| <= |Extensions(h, log, 3)|
    ensures |Entries(log)| == |Extensions(h, log, 3)| <==> RuntimeOnly(log)
  {
    hide FromHex, Message, Block;
    if log != [] {
      var front := log[..|log| - 1];
      assert forall k :: 0 <= k < |front| ==> front[k] == log[k];
      EntriesCount(h, front);
      LastExtends(h, log[|log| - 1]);
      hide DigestOf;
    }
  }

  lemma LastExtends(h: Hash, e: Event)
    requires DigestOf(h, e) != Unreadable
    ensures DigestOf(h, e).Extends? <==> e.kind == RUNTIME || e.digest != ""
    ensures e.kind == RUNTIME ==> FromHex(Text(e.payload)).Some?
    ensures e.kind == RUNTIME ==> DigestOf(h, e) == Extends(h(Message(e.name, FromHex(Text(e.payload)).value)))
  {
    hide FromHex, Message;
  }

  /** With nothing hidden, the blocks of register 3 are the hashed messages of its entries, in order. */
  lemma {:induction false} OpenExtensions(h: Hash, log: seq<Event>)
    requires Open(log) && (forall k :: 0 <= k < |log| && log[k].imr == 3 ==> DigestOf(h, log[k]) != Unreadable)
    requires forall x :: |h(x)| == WIDTH
    ensures var blocks, entries := Extensions(h, log, 3), Entries(log);
      && |blocks| == |entries|
      && (forall k :: 0 <= k < |entries| ==> blocks[k] == h(Message(entries[k].0, entries[k].1)))
      && forall k :: 0 <= k < |entries| ==> ColonFree(entries[k].0)
  {
    hide FromHex, Message, ColonFree, Block;
    if log != [] {
      var front, e := log[..|log| - 1], log[|log| - 1];
      assert forall k :: 0 <= k < |front| ==> front[k] == log[k];
      OpenExtensions(h, front);
      if e.imr == 3 {
        assert OpenEvent(log[|log| - 1]);
        LastExtends(h, e);
      }
      hide DigestOf;
      if e.imr == 3 && e.kind == RUNTIME {
        WholeBlock(h(Message(e.name, FromHex(Text(e.payload)).value)));
      }
    }
  }

  lemma NoCollision(h: Hash, inputs: set<bytes>, x: bytes, y: bytes)
    requires CollisionFree(h, inputs) && x in inputs && y in inputs && h(x) == h(y)
    ensures x == y
  {
  }

  lemma SameExtensions(h: Hash, a: seq<Event>, b: seq<Event>)
    requires SameRegister(h, a, b)
    ensures Extensions(h, a, 3) == Extensions(h, b, 3)
  {
    hide Extensions, Chain, CollisionFree, ChainInputs, Plain, Readable, Entries;
    ExtensionsAreBlocks(h, a);
    ExtensionsAreBlocks(h, b);
    ChainDetermines(h, Extensions(h, a, 3), Extensions(h, b, 3), Inputs(h, a) + Inputs(h, b));
  }

  /** Entries of the two logs that extend the register alike are the same, if their names are colon-free. */
  lemma SameEntry(h: Hash, a: seq<Event>, b: seq<Event>, i: nat, j: nat)
    requires SameRegister(h, a, b) && i < |Entries(a)| && j < |Entries(b)|
    requires ColonFree(Entries(a)[i].0) && ColonFree(Entries(b)[j].0)
    requires h(Message(Entries(a)[i].0, Entries(a)[i].1)) == h(Message(Entries(b)[j].0, Entries(b)[j].1))
    ensures Entries(a)[i] == Entries(b)[j]
  {
    hide Entries, Extensions, Chain, Message, ColonFree, Plain, Readable, CollisionFree, ChainInputs;
    var inputs := Inputs(h, a) + Inputs(h, b);
    assert Messages(Entries(a))[i] in inputs && Messages(Entries(b))[j] in inputs;
    var (name, payload) := Entries(a)[i];
    var (name', payload') := Entries(b)[j];
    NoCollision(h, inputs, Message(name, payload), Message(name', payload'));
    MessageDetermines(name, payload, name', payload');
  }

  /** The presented log has the runtime events of the honest one, in the same order and with the same
      payloads, exactly when it hides nothing in register 3. */
  lemma EntriesExactly(h: Hash, a: seq<Event>, b: seq<Event>)
    requires SameRegister(h, a, b)
    ensures Entries(a) == Entries(b) <==> Open(b)
  {
    PlainIsOpen(h, a);
    OpenExtensions(h, a);
    SameExtensions(h, a, b);
    EntriesCount(h, b);
    hide Extensions, Entries, Message, ColonFree, CollisionFree, ChainInputs, Plain, FromHex, DigestOf, Chain;
    if Entries(a) == Entries(b) {
      forall k | 0 <= k < |b| && b[k].imr == 3
        ensures OpenEvent(b[k])
      {
        if b[k].kind == RUNTIME {
          LastExtends(h, b[k]);
          EventEntered(h, b, k);
        }
      }
    }
    if Open(b) {
      OpenExtensions(h, b);
      forall k | 0 <= k < |Entries(a)|
        ensures Entries(a)[k] == Entries(b)[k]
      {
        SameEntry(h, a, b, k, k);
      }
    }
  }

  /** A runtime event of register 3 is an entry and extends the register with its hashed message. */
  lemma {:induction false} EventEntered(h: Hash, log: seq<Event>, k: nat)
    requires k < |log| && log[k].imr == 3 && log[k].kind == RUNTIME && FromHex(Text(log[k].payload)).Some?
    ensures var entry := (log[k].name, FromHex(Text(log[k].payload)).value);
      entry in Entries(log) && Block(h(Message(entry.0, entry.1))) in Extensions(h, log, 3)
  {
    hide FromHex, Message, Block;
    if k < |log| - 1 {
      EventEntered(h, log[..|log| - 1], k);
    } else {
      hide ColonFree;
    }
  }

  // ----- The identity map -----

  /** Adds a name to an identity; a name that comes twice spoils it. */
  function Put<T>(payloads: Option<map<bytes, T>>, name: bytes, payload: T): Option<map<bytes, T>> {
    if payloads == None || name in payloads.value then None else Some(payloads.value[name := payload])
  }

  /** The names and payloads of register 3, as text; nothing when a name comes twice. */
  function Identity(log: seq<Event>): Option<map<bytes, Option<string>>> {
    if log == [] then Some(map[])
    else
      var e := log[|log| - 1];
      var payloads := Identity(log[..|log| - 1]);
      if e.imr != 3 || e.kind != RUNTIME || e.name == [] then payloads else Put(payloads, e.name, e.payload)
  }

  method Identify(log: seq<Event>) returns (r: Option<map<bytes, Option<string>>>)
    ensures r == Identity(log)
  {
    var payloads: map<bytes, Option<string>> := map[];
    var k := 0;
    while k < |log|
      invariant k <= |log| && Identity(log[..k]) == Some(payloads)
    {
      assert log[..k + 1][..k] == log[..k];
      var e := log[k];
      if e.imr == 3 && e.kind == RUNTIME && e.name != [] {
        if e.name in payloads {
          RepeatSticks(log, k + 1);
          return None;
        }
        payloads := payloads[e.name := e.payload];
      }
      k := k + 1;
    }
    assert log[..k] == log;
    r := Some(payloads);
  }

  lemma {:induction false} RepeatSticks(log: seq<Event>, k: nat)
    requires k <= |log| && Identity(log[..k]) == None
    ensures Identity(log) == None
    decreases |log|
  {
    if k == |log| {
      assert log[..k] == log;
    } else {
      assert log[..|log| - 1][..k] == log[..k];
      RepeatSticks(log[..|log| - 1], k);
    }
  }

  /** The identity that a list of entries gives. */
  function Named(entries: seq<(bytes, bytes)>): Option<map<bytes, bytes>> {
    if entries == [] then Some(map[])
    else
      var (name, payload) := entries[|entries| - 1];
      Put(Named(entries[..|entries| - 1]), name, payload)
  }

  /** Two identity maps agree once their payloads are decoded. */
  predicate Decodes(text: Option<map<bytes, Option<string>>>, decoded: Option<map<bytes, bytes>>) {
    && text.Some? == decoded.Some?
    && (text.Some? ==>
          && text.value.Keys == decoded.value.Keys
          && forall name :: name in text.value ==> FromHex(Text(text.value[name])) == Some(decoded.value[name]))
  }

  lemma DecodesOneMore(text: Option<map<bytes, Option<string>>>, decoded: Option<map<bytes, bytes>>, name: bytes,
                       payload: Option<string>, value: bytes)
    requires Decodes(text, decoded) && FromHex(Text(payload)) == Some(value)
    ensures Decodes(Put(text, name, payload), Put(decoded, name, value))
  {
    hide FromHex;
  }

  /** A log whose runtime events in register 3 are named and readable gives the identity of its entries. */
  lemma {:induction false} IdentityIsNamed(log: seq<Event>)
    requires forall k :: 0 <= k < |log| && log[k].imr == 3 && log[k].kind == RUNTIME ==>
               log[k].name != [] && FromHex(Text(log[k].payload)).Some?
    ensures Decodes(Identity(log), Named(Entries(log)))
  {
    hide FromHex;
    if log != [] {
      var front, e := log[..|log| - 1], log[|log| - 1];
      assert forall k :: 0 <= k < |front| ==> front[k] == log[k];
      IdentityIsNamed(front);
      hide Put, Decodes;
      if e.imr == 3 && e.kind == RUNTIME {
        var entry := (e.name, FromHex(Text(e.payload)).value);
        assert (Entries(front) + [entry])[..|Entries(front)|] == Entries(front);
        DecodesOneMore(Identity(front), Named(Entries(front)), e.name, e.payload, entry.1);
      } else {
        assert Entries(front) + [] == Entries(front);
      }
    }
  }

  /** Each name of an identity comes from an event of the log. */
  lemma {:induction false} NameHasEvent(log: seq<Event>, name: bytes) returns (k: nat)
    requires Identity(log).Some? && name in Identity(log).value
    ensures k < |log| && log[k].imr == 3 && log[k].kind == RUNTIME
    ensures log[k].name == name && log[k].payload == Identity(log).value[name]
  {
    var e := log[|log| - 1];
    if e.imr == 3 && e.kind == RUNTIME && e.name == name && name != [] {
      k := |log| - 1;
    } else {
      k := NameHasEvent(log[..|log| - 1], name);
    }
  }

  /** Nothing is forged: whatever log is presented, a colon-free name in its identity was booted, with
      the payload it shows. */
  lemma NothingForged(h: Hash, a: seq<Event>, b: seq<Event>, name: bytes)
    requires SameRegister(h, a, b) && Identity(b).Some? && name in Identity(b).value && ColonFree(name)
    ensures exists payload ::
      FromHex(Text(Identity(b).value[name])) == Some(payload) && (name, payload) in Entries(a)
  {
    var k := NameHasEvent(b, name);
    LastExtends(h, b[k]);
    EventEntered(h, b, k);
    PlainIsOpen(h, a);
    OpenExtensions(h, a);
    SameExtensions(h, a, b);
    hide Extensions, Entries, Message, ColonFree, CollisionFree, ChainInputs, Plain, FromHex, DigestOf, Chain, Identity;
    var payload := FromHex(Text(b[k].payload)).value;
    WholeBlock(h(Message(name, payload)));
    var i :| 0 <= i < |Extensions(h, a, 3)| && Extensions(h, a, 3)[i] == h(Message(name, payload));
    var j :| 0 <= j < |Entries(b)| && Entries(b)[j] == (name, payload);
    SameEntry(h, a, b, i, j);
  }

  lemma {:induction false} NamedSize(entries: seq<(bytes, bytes)>)
    requires Named(entries).Some?
    ensures |Named(entries).value| == |entries|
    ensures forall name :: name in Named(entries).value ==> exists k :: 0 <= k < |entries| && entries[k].0 == name
  {
    if entries != [] {
      var front := entries[..|entries| - 1];
      NamedSize(front);
      forall name | name in Named(entries).value
        ensures exists k :: 0 <= k < |entries| && entries[k].0 == name
      {
        if name in Named(front).value {
          var k :| 0 <= k < |front| && front[k].0 == name;
          assert entries[k].0 == name;
        } else {
          assert entries[|entries| - 1].0 == name;
        }
      }
    }
  }

  /** Every name takes an extension; a hidden event takes one without giving a colon-free name. */
  lemma {:induction false} NamesCount(h: Hash, log: seq<Event>)
    requires Readable(h, log) && Identity(log).Some? && forall name :: name in Identity(log).value ==> ColonFree(name)
    ensures |Identity(log).value| <= |Extensions(h, log, 3)|
    ensures !Open(log) ==> |Identity(log).value| < |Extensions(h, log, 3)|
  {
    hide FromHex, Message, ColonFree, Block;
    if log != [] {
      var front := log[..|log| - 1];
      assert forall k :: 0 <= k < |front| ==> front[k] == log[k];
      NamesCount(h, front);
      LastExtends(h, log[|log| - 1]);
      hide DigestOf;
    }
  }

  /** The presented log gives the identity that was booted exactly when it hides nothing in register 3. */
  lemma IdentityExactly(h: Hash, a: seq<Event>, b: seq<Event>)
    requires SameRegister(h, a, b) && Identity(a).Some?
    ensures Decodes(Identity(b), Named(Entries(a))) <==> Open(b)
  {
    PlainIsNamed(a);
    IdentityIsNamed(a);
    if Decodes(Identity(b), Named(Entries(a))) {
      IdentityShows(h, a, b);
    }
    if Open(b) {
      hide *;
      OpenIsNamed(h, a, b);
      EntriesExactly(h, a, b);
      IdentityIsNamed(b);
    }
  }

  lemma PlainIsNamed(log: seq<Event>)
    requires Plain(log)
    ensures forall k :: 0 <= k < |log| && log[k].imr == 3 && log[k].kind == RUNTIME ==>
              log[k].name != [] && FromHex(Text(log[k].payload)).Some?
    ensures forall k :: 0 <= k < |Entries(log)| ==> Entries(log)[k].0 != [] && ColonFree(Entries(log)[k].0)
    decreases |log|
  {
    hide FromHex, ColonFree;
    if log != [] {
      PlainIsNamed(log[..|log| - 1]);
    }
  }

  lemma OpenIsNamed(h: Hash, a: seq<Event>, b: seq<Event>)
    requires SameRegister(h, a, b) && Open(b)
    ensures forall k :: 0 <= k < |b| && b[k].imr == 3 && b[k].kind == RUNTIME ==>
              b[k].name != [] && FromHex(Text(b[k].payload)).Some?
  {
    PlainIsNamed(a);
    EntriesExactly(h, a, b);
    hide Entries, Message, FromHex, Open;
    forall k | 0 <= k < |b| && b[k].imr == 3 && b[k].kind == RUNTIME
      ensures b[k].name != [] && FromHex(Text(b[k].payload)).Some?
    {
      LastExtends(h, b[k]);
      EventEntered(h, b, k);
    }
  }

  lemma IdentityShows(h: Hash, a: seq<Event>, b: seq<Event>)
    requires SameRegister(h, a, b) && Named(Entries(a)).Some? && Decodes(Identity(b), Named(Entries(a)))
    ensures Open(b)
  {
    PlainIsNamed(a);
    PlainIsOpen(h, a);
    OpenExtensions(h, a);
    SameExtensions(h, a, b);
    NamedSize(Entries(a));
    hide Entries, Message, FromHex, Open, Extensions, Identity, Named, ColonFree;
    assert Identity(b).value.Keys == Named(Entries(a)).value.Keys;
    NamesCount(h, b);
  }

  // ----- Approval -----

  /** What is pinned for an instance; a hash that is left out is not in the pin. */
  datatype Pin = Pin(role: string, compose: Option<string>, image: Option<string>)

  /** "app-id", "compose-hash" and "os-image-hash" */
  function AppId(): bytes { [97, 112, 112, 45, 105, 100] }

  function ComposeHash(): bytes { [99, 111, 109, 112, 111, 115, 101, 45, 104, 97, 115, 104] }

  function ImageHash(): bytes { [111, 115, 45, 105, 109, 97, 103, 101, 45, 104, 97, 115, 104] }

  function Shown(payloads: map<bytes, Option<string>>, name: bytes): Option<string> {
    if name in payloads then payloads[name] else None
  }

  /** The instance is pinned for the role, and its two hashes are what the pin says. */
  predicate Approved(payloads: map<bytes, Option<string>>, pins: map<string, Pin>, role: string) {
    match Shown(payloads, AppId())
    case None => false
    case Some(app) =>
      && app in pins && role <= pins[app].role
      && Shown(payloads, ComposeHash()) == pins[app].compose && Shown(payloads, ImageHash()) == pins[app].image
  }

  /** An identity is approved for a role exactly when its instance is pinned for a role that starts
      with it, and each of its two hashes is what the pin says, or neither is there. */
  lemma ApprovedExactly(payloads: map<bytes, Option<string>>, pins: map<string, Pin>, role: string, id: bytes,
                        compose: bytes, image: bytes)
    requires Spells(id, "app-id") && Spells(compose, "compose-hash") && Spells(image, "os-image-hash")
    ensures Approved(payloads, pins, role) <==>
            && id in payloads && payloads[id].Some? && payloads[id].value in pins
            && var pin := pins[payloads[id].value];
               && |role| <= |pin.role| && pin.role[..|role|] == role
               && pin.compose == (if compose in payloads then payloads[compose] else None)
               && pin.image == (if image in payloads then payloads[image] else None)
  {
    NamesAreSpelled(id, compose, image);
    hide AppId, ComposeHash, ImageHash, Spells;
  }

  lemma NamesAreSpelled(id: bytes, compose: bytes, image: bytes)
    requires Spells(id, "app-id") && Spells(compose, "compose-hash") && Spells(image, "os-image-hash")
    ensures id == AppId() && compose == ComposeHash() && image == ImageHash()
  {
  }

  /** The event `name` was extended into register 3, with the bytes that `text` stands for. */
  predicate Booted(log: seq<Event>, name: bytes, text: string) {
    FromHex(text).Some? && (name, FromHex(text).value) in Entries(log)
  }

  lemma ShownWasBooted(h: Hash, a: seq<Event>, b: seq<Event>, name: bytes)
    requires SameRegister(h, a, b) && Identity(b).Some? && ColonFree(name)
    ensures var shown := Shown(Identity(b).value, name); shown.Some? ==> Booted(a, name, shown.value)
  {
    hide SameRegister, Identity, FromHex, ColonFree, Entries;
    if name in Identity(b).value {
      NothingForged(h, a, b, name);
    }
  }

  lemma PinnedNames()
    ensures ColonFree(AppId()) && ColonFree(ComposeHash()) && ColonFree(ImageHash())
  {
  }

  /** An approved log was booted: the pinned instance, and each hash that its pin names, are in what
      the honest log extended into register 3, whatever else the presented log hides. */
  lemma ApprovedWasBooted(h: Hash, a: seq<Event>, b: seq<Event>, pins: map<string, Pin>, role: string)
    requires SameRegister(h, a, b) && Identity(b).Some? && Approved(Identity(b).value, pins, role)
    ensures var app := Shown(Identity(b).value, AppId());
      && app.Some? && app.value in pins && role <= pins[app.value].role && Booted(a, AppId(), app.value)
      && (pins[app.value].compose.Some? ==> Booted(a, ComposeHash(), pins[app.value].compose.value))
      && (pins[app.value].image.Some? ==> Booted(a, ImageHash(), pins[app.value].image.value))
  {
    PinnedNames();
    hide SameRegister, Identity, ColonFree, Booted, AppId, ComposeHash, ImageHash;
    ShownWasBooted(h, a, b, AppId());
    ShownWasBooted(h, a, b, ComposeHash());
    ShownWasBooted(h, a, b, ImageHash());
  }

  // ----- Where it fails -----

  /** A name with a colon in it: whatever the hash, the event "a:b" with payload "c" and the event
      "a" with payload "b:c" leave the same registers and give different identities. */
  lemma ColonsHideNames(h: Hash)
    ensures var a := [Event(3, RUNTIME, [97, 58, 98], Some("63"), "")];
      var b := [Event(3, RUNTIME, [97], Some("623a63"), "")];
      && Registers(h, a) == Registers(h, b) && Readable(h, a) && Readable(h, b)
      && Identity(a) == Some(map[[97, 58, 98] := Some("63")]) && Identity(b) == Some(map[[97] := Some("623a63")])
  {
    var e, f := Event(3, RUNTIME, [97, 58, 98], Some("63"), ""), Event(3, RUNTIME, [97], Some("623a63"), "");
    ShortPayloads();
    assert [97, 58, 98] + ([58] + [99]) == [97] + ([58] + [98, 58, 99]);
    SameMessage(h, e, f, [99], [98, 58, 99]);
    OneEvent(h, e);
    OneEvent(h, f);
  }

  lemma ShortPayloads()
    ensures FromHex("63") == Some([99]) && FromHex("623a63") == Some([98, 58, 99])
  {
    assert FromHex("") == Some([]);
    hide FromHex;
    HexPair('6', '3', "");
    assert "63" == ['6', '3'] + "" && [Octet(6, 3)] + [] == [99];
    HexPair('3', 'a', "63");
    assert "3a63" == ['3', 'a'] + "63" && [Octet(3, 10)] + [99] == [58, 99];
    HexPair('6', '2', "3a63");
    assert "623a63" == ['6', '2'] + "3a63" && [Octet(6, 2)] + [58, 99] == [98, 58, 99];
  }

  /** Two runtime events of register 3 with the same message leave the same registers. */
  lemma SameMessage(h: Hash, e: Event, f: Event, p: bytes, q: bytes)
    requires e.kind == f.kind == RUNTIME && e.imr == f.imr == 3 && FromHex(Text(e.payload)) == Some(p)
    requires FromHex(Text(f.payload)) == Some(q)
    requires e.name + ([58] + p) == f.name + ([58] + q)
    ensures Registers(h, [e]) == Registers(h, [f]) && Readable(h, [e]) && Readable(h, [f])
  {
    hide FromHex, Block, Chain;
    assert Extensions(h, [], 0) == [] && [e][..0] == [] && [f][..0] == [];
    assert forall i :: Extensions(h, [e], i) == Extensions(h, [f], i);
  }

  lemma OneEvent(h: Hash, e: Event)
    requires e.imr == 3 && e.kind == RUNTIME && e.name != []
    ensures Identity([e]) == Some(map[e.name := e.payload])
  {
    assert [e][..0] == [] && Identity([]) == Some(map[]);
  }

  /** An event of another type may extend register 3 with any digest, even that of a runtime event:
      the register is the same and the name is gone. */
  lemma DigestsHideNames(h: Hash, name: bytes, payload: string, digest: string)
    requires name != [] && FromHex(payload).Some? && digest != ""
    requires FromHex(digest) == Some(h(Message(name, FromHex(payload).value)))
    ensures var a, b := [Event(3, RUNTIME, name, Some(payload), "")], [Event(3, 0, [], None, digest)];
      && Registers(h, a) == Registers(h, b) && Identity(a) == Some(map[name := Some(payload)])
      && Identity(b) == Some(map[])
  {
    hide FromHex, Block, Chain;
    var e, f := Event(3, RUNTIME, name, Some(payload), ""), Event(3, 0, [], None, digest);
    assert Extensions(h, [], 0) == [] && [e][..0] == [] && [f][..0] == [] && Identity([]) == Some(map[]);
    assert forall i :: Extensions(h, [e], i) == Extensions(h, [f], i);
    OneEvent(h, e);
  }
}
