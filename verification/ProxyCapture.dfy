/**
 The browser's recheck of a downloaded capture bundle (apps/dashboard/agent-capture-ui.js,
 `verifyProxyCapture`), in both bundle formats. The digest is any function of the canonical
 text; the binding theorems ask only that the texts hashed for the bundles at hand do not collide.
 Checking an Ed25519 signature is a parameter.
 */
module ProxyCapture {
  import opened Bytes
  import opened CanonicalJson
  import opened Numerals

  // Names and texts, as UTF-16 code units.

  /** "commitment" */
  function CommitmentKey(): Str { [99, 111, 109, 109, 105, 116, 109, 101, 110, 116] }

  /** "format" */
  function FormatKey(): Str { [102, 111, 114, 109, 97, 116] }

  /** "capture_id" */
  function CaptureIdKey(): Str { [99, 97, 112, 116, 117, 114, 101, 95, 105, 100] }

  /** "client" */
  function ClientKey(): Str { [99, 108, 105, 101, 110, 116] }

  /** "started_at" */
  function StartedAtKey(): Str { [115, 116, 97, 114, 116, 101, 100, 95, 97, 116] }

  /** "finished_at" */
  function FinishedAtKey(): Str { [102, 105, 110, 105, 115, 104, 101, 100, 95, 97, 116] }

  /** "parts" */
  function PartsKey(): Str { [112, 97, 114, 116, 115] }

  /** "commitments" */
  function CommitmentsKey(): Str { [99, 111, 109, 109, 105, 116, 109, 101, 110, 116, 115] }

  /** "sequence" */
  function SequenceKey(): Str { [115, 101, 113, 117, 101, 110, 99, 101] }

  /** "complete" */
  function CompleteKey(): Str { [99, 111, 109, 112, 108, 101, 116, 101] }

  /** "root" */
  function RootKey(): Str { [114, 111, 111, 116] }

  /** "exchanges" */
  function ExchangesKey(): Str { [101, 120, 99, 104, 97, 110, 103, 101, 115] }

  /** "tee_evidence" */
  function TeeEvidenceKey(): Str { [116, 101, 101, 95, 101, 118, 105, 100, 101, 110, 99, 101] }

  /** "statement" */
  function StatementKey(): Str { [115, 116, 97, 116, 101, 109, 101, 110, 116] }

  /** "purpose" */
  function PurposeKey(): Str { [112, 117, 114, 112, 111, 115, 101] }

  /** "bundle_hash" */
  function BundleHashKey(): Str { [98, 117, 110, 100, 108, 101, 95, 104, 97, 115, 104] }

  /** "session_root" */
  function SessionRootKey(): Str { [115, 101, 115, 115, 105, 111, 110, 95, 114, 111, 111, 116] }

  /** "attestation" */
  function AttestationKey(): Str { [97, 116, 116, 101, 115, 116, 97, 116, 105, 111, 110] }

  /** "signing_key" */
  function SigningKeyKey(): Str { [115, 105, 103, 110, 105, 110, 103, 95, 107, 101, 121] }

  /** "signature" */
  function SignatureKey(): Str { [115, 105, 103, 110, 97, 116, 117, 114, 101] }

  /** "thot.tee-capture-seal/1" */
  function SealPurpose(): Str {
    [116, 104, 111, 116, 46, 116, 101, 101, 45, 99, 97, 112, 116, 117, 114, 101, 45, 115, 101, 97, 108, 47, 49]
  }

  /** "thot.proxy-capture/1" */
  function Version1Text(): Str {
    [116, 104, 111, 116, 46, 112, 114, 111, 120, 121, 45, 99, 97, 112, 116, 117, 114, 101, 47, 49]
  }

  /** "thot.proxy-capture/2" */
  function Version2Text(): Str {
    [116, 104, 111, 116, 46, 112, 114, 111, 120, 121, 45, 99, 97, 112, 116, 117, 114, 101, 47, 50]
  }

  /** "0" */
  function ZeroToken(): Str { [48] }

  lemma MetadataSpelled()
    ensures FormatKey() == Ascii("format") && CaptureIdKey() == Ascii("capture_id") && ClientKey() == Ascii("client")
    ensures StartedAtKey() == Ascii("started_at") && FinishedAtKey() == Ascii("finished_at")
    ensures PartsKey() == Ascii("parts") && CommitmentsKey() == Ascii("commitments")
  {
  }

  lemma VersionsSpelled()
    ensures Version1Text() == Ascii("thot.proxy-capture/1") && Version2Text() == Ascii("thot.proxy-capture/2")
  {
  }

  lemma RecordsSpelled()
    ensures CommitmentKey() == Ascii("commitment") && SequenceKey() == Ascii("sequence")
    ensures CompleteKey() == Ascii("complete") && RootKey() == Ascii("root") && ExchangesKey() == Ascii("exchanges")
  {
  }

  lemma SealSpelled()
    ensures TeeEvidenceKey() == Ascii("tee_evidence") && StatementKey() == Ascii("statement")
    ensures PurposeKey() == Ascii("purpose") && BundleHashKey() == Ascii("bundle_hash")
  {
  }

  lemma SealFieldsSpelled()
    ensures SessionRootKey() == Ascii("session_root") && AttestationKey() == Ascii("attestation")
  {
  }

  lemma SealKeysSpelled()
    ensures SigningKeyKey() == Ascii("signing_key") && SignatureKey() == Ascii("signature")
    ensures SealPurpose() == Ascii("thot.tee-capture-seal/1")
  {
  }

  datatype Failure =
    | PartsRequired
    | ManifestIntegrity
    | PartOrder
    | PartIntegrity
    | InvalidBundle
    | ExchangeIntegrity
    | SealBinding
    | SealSignature
    | KeyUnreadable
    | TypeErrorThrown

  datatype Report = Report(exchanges: nat, interrupted: nat, root: Json, tee: bool)

  // ----- JavaScript on JSON values -----

  function Field(v: Json, k: Str): Json {
    if v.Object? && k in Keys(v.members) then ValueOf(v.members, k) else Undefined
  }

  predicate Truthy(v: Json) {
    match v
    case Null => false
    case Undefined => false
    case Bool(b) => b
    case Number(t) => t != ZeroToken()
    case String(s) => s != []
    case _ => true
  }

  /** `===`; two separately parsed objects are never identical. */
  predicate StrictlyEqual(a: Json, b: Json) {
    !a.Array? && !a.Object? && a == b
  }

  /** The decimal text of a positive index. */
  function Decimal(n: nat): Str {
    if n < 10 then [48 + n] else Decimal(n / 10) + [48 + n % 10]
  }

  /** `const {commitment, ...record} = v` */
  function Record(v: Json): Json {
    if v.Object? then Object(Without(v.members, CommitmentKey())) else v
  }

  function Without(ms: seq<Member>, k: Str): seq<Member> {
    if ms == [] then []
    else if ms[0].key == k then Without(ms[1..], k)
    else [ms[0]] + Without(ms[1..], k)
  }

  function Digest(hash: Str -> Str, v: Json): Json {
    String(hash(Canonical(v)))
  }

  // ----- Version 2: a manifest of part commitments -----

  function Metadata(b: Json): seq<Member> {
    [Member(FormatKey(), Field(b, FormatKey())),
     Member(CaptureIdKey(), Field(b, CaptureIdKey())),
     Member(ClientKey(), Field(b, ClientKey())),
     Member(StartedAtKey(), Field(b, StartedAtKey())),
     Member(FinishedAtKey(), Field(b, FinishedAtKey()))]
  }

  /** The commitment object: the metadata and one more member under `key`. */
  function Bound(b: Json, key: Str, value: Json): Json {
    Object(Metadata(b) + [Member(key, value)])
  }

  function Manifest(b: Json): Json {
    Bound(b, PartsKey(), Field(b, PartsKey()))
  }

  function CheckPart(hash: Str -> Str, descriptor: Json, part: Json, n: nat): Option<Failure> {
    if descriptor == Null then Some(TypeErrorThrown)
    else if Field(descriptor, SequenceKey()) != Number(Decimal(n)) then Some(PartOrder)
    else if part == Null || part == Undefined then Some(TypeErrorThrown)
    else if !StrictlyEqual(Field(part, SequenceKey()), Field(descriptor, SequenceKey()))
      || !StrictlyEqual(Field(part, CommitmentKey()), Field(descriptor, CommitmentKey()))
      || Digest(hash, Record(part)) != Field(part, CommitmentKey())
    then Some(PartIntegrity)
    else None
  }

  function CheckParts(hash: Str -> Str, parts: seq<Json>, load: nat -> Json, i: nat,
                      interrupted: nat): Result<nat, Failure>
    requires i <= |parts|
    decreases |parts| - i
  {
    if i == |parts| then Ok(interrupted)
    else
      match CheckPart(hash, parts[i], load(i + 1), i + 1)
      case Some(e) => Err(e)
      case None =>
        CheckParts(hash, parts, load, i + 1, interrupted + (if Truthy(Field(load(i + 1), CompleteKey())) then 0 else 1))
  }

  // ----- Version 1: the exchanges themselves -----

  function CheckExchange(hash: Str -> Str, e: Json, n: nat): Option<Failure> {
    if e == Null then Some(TypeErrorThrown)
    else if !StrictlyEqual(Field(e, SequenceKey()), Number(Decimal(n)))
      || Digest(hash, Record(e)) != Field(e, CommitmentKey())
    then Some(ExchangeIntegrity)
    else None
  }

  function CheckExchanges(hash: Str -> Str, es: seq<Json>, i: nat, interrupted: nat): Result<nat, Failure>
    requires i <= |es|
    decreases |es| - i
  {
    if i == |es| then Ok(interrupted)
    else
      match CheckExchange(hash, es[i], i + 1)
      case Some(e) => Err(e)
      case None =>
        CheckExchanges(hash, es, i + 1, interrupted + (if Truthy(Field(es[i], CompleteKey())) then 0 else 1))
  }

  function Commitments(es: seq<Json>): (cs: seq<Json>)
    ensures |cs| == |es| && forall i :: 0 <= i < |es| ==> cs[i] == Field(es[i], CommitmentKey())
  {
    seq(|es|, i requires 0 <= i < |es| => Field(es[i], CommitmentKey()))
  }

  function Summary(b: Json, es: seq<Json>): Json {
    Bound(b, CommitmentsKey(), Array(Commitments(es)))
  }

  // ----- The verifier -----

  function Version1(): Json { String(Version1Text()) }

  function Version2(): Json { String(Version2Text()) }

  function Checked(b: Json, load: nat -> Json, hash: Str -> Str): Result<(nat, nat), Failure> {
    if Field(b, FormatKey()) == Version2() then
      match Field(b, PartsKey())
      case Array(parts) =>
        if parts == [] || |parts| > 4096 then Err(PartsRequired)
        else if Digest(hash, Manifest(b)) != Field(b, RootKey()) then Err(ManifestIntegrity)
        else
          (match CheckParts(hash, parts, load, 0, 0)
           case Err(e) => Err(e)
           case Ok(n) => Ok((|parts|, n)))
      case _ => Err(PartsRequired)
    else if Field(b, FormatKey()) != Version1() then Err(InvalidBundle)
    else
      match Field(b, ExchangesKey())
      case Array(es) =>
        if es == [] || |es| > 100 then Err(InvalidBundle)
        else
          (match CheckExchanges(hash, es, 0, 0)
           case Err(e) => Err(e)
           case Ok(n) =>
             if Digest(hash, Summary(b, es)) != Field(b, RootKey()) then Err(ExchangeIntegrity) else Ok((|es|, n)))
      case _ => Err(InvalidBundle)
  }

  // ----- The enclave's seal -----

  /** Checks a signature of a text under a key; nothing if the key or the signature cannot be read. */
  type Ed25519 = (Json, Json, Str) -> Option<bool>

  /** The bundle without its seal. */
  function Original(b: Json): Json {
    if b.Object? then Object(Without(b.members, TeeEvidenceKey())) else b
  }

  function StatementOf(b: Json): Json {
    Field(Field(b, TeeEvidenceKey()), StatementKey())
  }

  function AttestedKey(b: Json): Json {
    Field(Field(Field(Field(b, TeeEvidenceKey()), AttestationKey()), StatementKey()), SigningKeyKey())
  }

  /** The statement names this bundle: its digest, its capture and its root. */
  predicate StatementFits(b: Json, hash: Str -> Str) {
    var statement := StatementOf(b);
    && Field(statement, PurposeKey()) == String(SealPurpose())
    && Field(statement, BundleHashKey()) == Digest(hash, Original(b))
    && StrictlyEqual(Field(statement, CaptureIdKey()), Field(b, CaptureIdKey()))
    && StrictlyEqual(Field(statement, SessionRootKey()), Field(b, RootKey()))
  }

  predicate Nullish(v: Json) {
    v == Null || v == Undefined
  }

  function CheckSeal(b: Json, hash: Str -> Str, verify: Ed25519): Option<Failure> {
    var evidence := Field(b, TeeEvidenceKey());
    var attestation := Field(evidence, AttestationKey());
    if !StatementFits(b, hash) then Some(SealBinding)
    else if Nullish(attestation) || Nullish(Field(attestation, StatementKey())) then Some(TypeErrorThrown)
    else
      match verify(AttestedKey(b), Field(evidence, SignatureKey()), Canonical(StatementOf(b)))
      case None => Some(KeyUnreadable)
      case Some(good) => if good then None else Some(SealSignature)
  }

  /** Stands in for a loader that was not given; a version-1 bundle needs none. */
  function NoParts(): nat -> Json {
    (n: nat) => Undefined
  }

  function Verified(b: Json, load: Option<nat -> Json>, hash: Str -> Str, verify: Ed25519): Result<Report, Failure> {
    if Field(b, FormatKey()) == Version2() && load.None? then Err(PartsRequired)
    else
      match Checked(b, if load.Some? then load.value else NoParts(), hash)
      case Err(e) => Err(e)
      case Ok((exchanges, interrupted)) =>
        var tee := Truthy(Field(b, TeeEvidenceKey()));
        var fault := if tee then CheckSeal(b, hash, verify) else None;
        if fault.Some? then Err(fault.value) else Ok(Report(exchanges, interrupted, Field(b, RootKey()), tee))
  }

  lemma PartsStep(hash: Str -> Str, parts: seq<Json>, load: nat -> Json, i: nat, n: nat)
    requires i < |parts|
    ensures CheckParts(hash, parts, load, i, n)
         == match CheckPart(hash, parts[i], load(i + 1), i + 1)
            case Some(e) => Err(e)
            case None =>
              CheckParts(hash, parts, load, i + 1, n + if Truthy(Field(load(i + 1), CompleteKey())) then 0 else 1)
  {
    hide CheckPart, Truthy, Field;
  }

  method VerifyParts(hash: Str -> Str, parts: seq<Json>, load: nat -> Json) returns (r: Result<nat, Failure>)
    ensures r == CheckParts(hash, parts, load, 0, 0)
  {
    var interrupted, i := 0, 0;
    while i < |parts|
      invariant 0 <= i <= |parts|
      invariant CheckParts(hash, parts, load, 0, 0) == CheckParts(hash, parts, load, i, interrupted)
    {
      hide CheckPart, Truthy, Field, CheckParts;
      PartsStep(hash, parts, load, i, interrupted);
      var part := load(i + 1);
      var failure := CheckPart(hash, parts[i], part, i + 1);
      if failure.Some? {
        return Err(failure.value);
      }
      if !Truthy(Field(part, CompleteKey())) {
        interrupted := interrupted + 1;
      }
      i := i + 1;
    }
    r := Ok(interrupted);
  }

  method VerifyExchanges(hash: Str -> Str, es: seq<Json>) returns (r: Result<nat, Failure>)
    ensures r == CheckExchanges(hash, es, 0, 0)
  {
    var interrupted, i := 0, 0;
    while i < |es|
      invariant 0 <= i <= |es|
      invariant CheckExchanges(hash, es, 0, 0) == CheckExchanges(hash, es, i, interrupted)
    {
      hide CheckExchange, Truthy, Field;
      var failure := CheckExchange(hash, es[i], i + 1);
      if failure.Some? {
        return Err(failure.value);
      }
      if !Truthy(Field(es[i], CompleteKey())) {
        interrupted := interrupted + 1;
      }
      i := i + 1;
    }
    r := Ok(interrupted);
  }

  method VerifyProxyCapture(b: Json, load: Option<nat -> Json>, hash: Str -> Str, verify: Ed25519)
    returns (r: Result<Report, Failure>)
    ensures r == Verified(b, load, hash, verify)
  {
    hide Field, CheckSeal, NoParts, Digest, Manifest, Summary, Truthy, CheckParts, CheckExchanges;
    var exchanges, counted;
    if Field(b, FormatKey()) == Version2() {
      var parts := Field(b, PartsKey());
      if !parts.Array? || parts.items == [] || |parts.items| > 4096 || load.None? {
        return Err(PartsRequired);
      }
      if Digest(hash, Manifest(b)) != Field(b, RootKey()) {
        return Err(ManifestIntegrity);
      }
      exchanges := |parts.items|;
      counted := VerifyParts(hash, parts.items, load.value);
      if counted.Err? {
        return Err(counted.error);
      }
    } else {
      var es := Field(b, ExchangesKey());
      if Field(b, FormatKey()) != Version1() || !es.Array? || es.items == [] || |es.items| > 100 {
        return Err(InvalidBundle);
      }
      exchanges := |es.items|;
      counted := VerifyExchanges(hash, es.items);
      if counted.Err? {
        return Err(counted.error);
      }
      if Digest(hash, Summary(b, es.items)) != Field(b, RootKey()) {
        return Err(ExchangeIntegrity);
      }
    }
    var tee := Truthy(Field(b, TeeEvidenceKey()));
    if tee {
      var fault := CheckSeal(b, hash, verify);
      if fault.Some? {
        return Err(fault.value);
      }
    }
    r := Ok(Report(exchanges, counted.value, Field(b, RootKey()), tee));
  }

  // ----- What acceptance means, part by part -----

  /** Part `j` matches its descriptor and its own digest. */
  ghost predicate Committed(hash: Str -> Str, v: Json, commitment: Json) {
    && v.Object?
    && Digest(hash, Record(v)) == commitment
    && Field(v, CommitmentKey()) == commitment
  }

  lemma PartIsCommitted(hash: Str -> Str, descriptor: Json, part: Json, n: nat)
    requires CheckPart(hash, descriptor, part, n) == None
    ensures Committed(hash, part, Field(descriptor, CommitmentKey()))
  {
    hide Digest, Record, Decimal, Keys, ValueOf, CommitmentKey, SequenceKey;
    assert Field(part, SequenceKey()) != Undefined;
  }

  lemma {:induction false} AcceptedPartsAreCommitted(hash: Str -> Str, parts: seq<Json>, load: nat -> Json, i: nat,
                                                     n: nat)
    requires i <= |parts| && CheckParts(hash, parts, load, i, n).Ok?
    ensures forall j :: i <= j < |parts| ==> Committed(hash, load(j + 1), Field(parts[j], CommitmentKey()))
    decreases |parts| - i
  {
    hide Truthy, CheckPart, Committed, Field;
    if i < |parts| {
      var part := load(i + 1);
      PartIsCommitted(hash, parts[i], part, i + 1);
      AcceptedPartsAreCommitted(hash, parts, load, i + 1, n + (if Truthy(Field(part, CompleteKey())) then 0 else 1));
    }
  }

  lemma ExchangeIsCommitted(hash: Str -> Str, e: Json, n: nat)
    requires CheckExchange(hash, e, n) == None
    ensures Committed(hash, e, Field(e, CommitmentKey()))
  {
    hide Digest, Record, Decimal, Keys, ValueOf, CommitmentKey, SequenceKey;
    assert Field(e, SequenceKey()) != Undefined;
  }

  lemma {:induction false} AcceptedExchangesAreCommitted(hash: Str -> Str, es: seq<Json>, i: nat, n: nat)
    requires i <= |es| && CheckExchanges(hash, es, i, n).Ok?
    ensures forall j :: i <= j < |es| ==> Committed(hash, es[j], Field(es[j], CommitmentKey()))
    decreases |es| - i
  {
    hide Truthy, CheckExchange, Committed, Field;
    if i < |es| {
      ExchangeIsCommitted(hash, es[i], i + 1);
      AcceptedExchangesAreCommitted(hash, es, i + 1, n + (if Truthy(Field(es[i], CompleteKey())) then 0 else 1));
    }
  }

  // ----- Root binding -----

  /** No two of these texts have one hash. */
  ghost predicate CollisionFree(hash: Str -> Str, texts: set<Str>) {
    forall s, t :: s in texts && t in texts && hash(s) == hash(t) ==> s == t
  }

  lemma DigestBinds(hash: Str -> Str, texts: set<Str>, a: Json, b: Json)
    requires CollisionFree(hash, texts) && Canonical(a) in texts && Canonical(b) in texts
    requires WellFormed(a) && WellFormed(b) && Digest(hash, a) == Digest(hash, b)
    ensures Same(a, b)
  {
    hide Canonical, Same;
    CanonicalIsInjective(a, b);
  }

  lemma SameFields(a: Json, b: Json, k: Str)
    requires WellFormed(a) && WellFormed(b) && Same(a, b)
    ensures Same(Field(a, k), Field(b, k))
  {
    if a.Object? && k in Keys(a.members) {
      assert Same(a.members[At(a.members, k)].value, b.members[At(b.members, k)].value);
    }
  }

  lemma {:induction false} WithoutExactly(ms: seq<Member>, k: Str)
    ensures forall m :: m in Without(ms, k) <==> m in ms && m.key != k
    ensures DistinctKeys(ms) ==> DistinctKeys(Without(ms, k))
  {
    if ms != [] {
      WithoutExactly(ms[1..], k);
      assert forall m :: m in ms <==> m == ms[0] || m in ms[1..];
      var rest := Without(ms[1..], k);
      forall j | 0 <= j < |rest| && DistinctKeys(ms)
        ensures rest[j].key != ms[0].key
      {
        assert rest[j] in ms[1..];
      }
    }
  }

  lemma WithoutIsWellFormed(ms: seq<Member>, k: Str)
    requires WellFormed(Object(ms))
    ensures WellFormed(Object(Without(ms, k)))
  {
    WithoutExactly(ms, k);
    var rest := Without(ms, k);
    forall i | 0 <= i < |rest|
      ensures WellFormed(rest[i].value)
    {
      assert rest[i] in ms;
    }
  }

  lemma RecordIsWellFormed(v: Json)
    requires WellFormed(v)
    ensures WellFormed(Record(v))
  {
    if v.Object? {
      WithoutIsWellFormed(v.members, CommitmentKey());
    }
  }

  /** The same record under the same commitment is the same value. */
  lemma SameRecords(a: Json, b: Json)
    requires a.Object? && b.Object? && WellFormed(a) && WellFormed(b)
    requires Same(Record(a), Record(b))
    requires Field(a, CommitmentKey()) == Field(b, CommitmentKey()) && Field(a, CommitmentKey()).String?
    ensures Same(a, b)
  {
    var k, m, n := CommitmentKey(), a.members, b.members;
    WithoutExactly(m, k);
    WithoutExactly(n, k);
    KeysOfRecord(m, n, k);
    forall i, j | 0 <= i < |m| && 0 <= j < |n| && m[i].key == n[j].key
      ensures Same(m[i].value, n[j].value)
    {
      KeyInKeys(m, i);
      KeyInKeys(n, j);
      if m[i].key != k {
        assert m[i] in Without(m, k) && n[j] in Without(n, k);
        var i', j' :| 0 <= i' < |Without(m, k)| && Without(m, k)[i'] == m[i]
          && 0 <= j' < |Without(n, k)| && Without(n, k)[j'] == n[j];
      }
    }
  }

  lemma KeysOfRecord(m: seq<Member>, n: seq<Member>, k: Str)
    requires k in Keys(m) && k in Keys(n)
    requires forall x :: x in Keys(Without(m, k)) <==> x in Keys(Without(n, k))
    ensures forall x :: x in Keys(m) <==> x in Keys(n)
  {
    forall x
      ensures x in Keys(m) <==> x in Keys(n)
    {
      OtherKeys(m, k, x);
      OtherKeys(n, k, x);
    }
  }

  lemma {:induction false} OtherKeys(m: seq<Member>, k: Str, x: Str)
    ensures x in Keys(Without(m, k)) <==> x in Keys(m) && x != k
  {
    if m != [] {
      OtherKeys(m[1..], k, x);
      assert Keys(m) == [m[0].key] + Keys(m[1..]);
      if m[0].key != k {
        assert Keys(Without(m, k)) == [m[0].key] + Keys(Without(m[1..], k));
      }
    }
  }

  /** Two committed values with one commitment are the same value. */
  lemma CommitmentBinds(hash: Str -> Str, texts: set<Str>, a: Json, b: Json, commitment: Json)
    requires CollisionFree(hash, texts) && Canonical(Record(a)) in texts && Canonical(Record(b)) in texts
    requires WellFormed(a) && WellFormed(b)
    requires Committed(hash, a, commitment) && Committed(hash, b, commitment)
    ensures Same(a, b)
  {
    hide Canonical, Same, Record, Field, CollisionFree;
    RecordIsWellFormed(a);
    RecordIsWellFormed(b);
    DigestBinds(hash, texts, Record(a), Record(b));
    SameRecords(a, b);
  }

  lemma FieldIsWellFormed(v: Json, k: Str)
    requires WellFormed(v)
    ensures WellFormed(Field(v, k))
  {
  }

  lemma MetadataKeys()
    ensures |FormatKey()| == |ClientKey()| == 6 && FormatKey()[0] != ClientKey()[0]
    ensures |CaptureIdKey()| == |StartedAtKey()| == 10 && CaptureIdKey()[0] != StartedAtKey()[0]
    ensures |FinishedAtKey()| == |CommitmentsKey()| == 11 && FinishedAtKey()[0] != CommitmentsKey()[0]
    ensures |PartsKey()| == 5
  {
  }

  lemma MetadataKeysDiffer(b: Json, key: Str, value: Json)
    requires key in {PartsKey(), CommitmentsKey()}
    ensures DistinctKeys(Metadata(b) + [Member(key, value)])
  {
    var ms := Metadata(b) + [Member(key, value)];
    MetadataKeys();
    hide FormatKey, CaptureIdKey, ClientKey, StartedAtKey, FinishedAtKey, PartsKey, CommitmentsKey, Field;
    assert ms[0].key == FormatKey() && ms[1].key == CaptureIdKey() && ms[2].key == ClientKey();
    assert ms[3].key == StartedAtKey() && ms[4].key == FinishedAtKey() && ms[5].key == key && |ms| == 6;
  }

  lemma BoundFields(b: Json, key: Str, value: Json)
    requires WellFormed(b) && WellFormed(value) && key in {PartsKey(), CommitmentsKey()}
    ensures WellFormed(Bound(b, key, value))
    ensures forall k :: k in {FormatKey(), CaptureIdKey(), ClientKey(), StartedAtKey(), FinishedAtKey()} ==>
              Field(Bound(b, key, value), k) == Field(b, k)
    ensures Field(Bound(b, key, value), key) == value
  {
    hide FormatKey, CaptureIdKey, ClientKey, StartedAtKey, FinishedAtKey, PartsKey, CommitmentsKey, Keys, Field;
    MetadataKeysDiffer(b, key, value);
    var ms := Metadata(b) + [Member(key, value)];
    forall i | 0 <= i < |ms|
      ensures Field(Object(ms), ms[i].key) == ms[i].value && WellFormed(ms[i].value)
    {
      FieldAt(ms, i);
      FieldIsWellFormed(b, ms[i].key);
    }
    assert ms[0].key == FormatKey() && ms[1].key == CaptureIdKey() && ms[2].key == ClientKey();
    assert ms[3].key == StartedAtKey() && ms[4].key == FinishedAtKey() && ms[5].key == key;
  }

  lemma FieldAt(ms: seq<Member>, i: nat)
    requires DistinctKeys(ms) && i < |ms|
    ensures Field(Object(ms), ms[i].key) == ms[i].value
  {
    KeyInKeys(ms, i);
  }

  ghost predicate SameMetadata(a: Json, b: Json) {
    forall k :: k in {FormatKey(), CaptureIdKey(), ClientKey(), StartedAtKey(), FinishedAtKey()} ==>
      Same(Field(a, k), Field(b, k))
  }

  /** Equal digests of commitment objects: the same metadata and the same bound value. */
  lemma BoundBinds(hash: Str -> Str, texts: set<Str>, a: Json, b: Json, key: Str, x: Json, y: Json)
    requires CollisionFree(hash, texts) && Canonical(Bound(a, key, x)) in texts && Canonical(Bound(b, key, y)) in texts
    requires WellFormed(a) && WellFormed(b) && WellFormed(x) && WellFormed(y)
    requires key in {PartsKey(), CommitmentsKey()}
    requires Digest(hash, Bound(a, key, x)) == Digest(hash, Bound(b, key, y))
    ensures SameMetadata(a, b) && Same(x, y)
  {
    hide Same, Digest, Bound, Field, FormatKey, CaptureIdKey, ClientKey, StartedAtKey, FinishedAtKey, PartsKey,
      CommitmentsKey;
    BoundFields(a, key, x);
    BoundFields(b, key, y);
    DigestBinds(hash, texts, Bound(a, key, x), Bound(b, key, y));
    forall k | k in {FormatKey(), CaptureIdKey(), ClientKey(), StartedAtKey(), FinishedAtKey()}
      ensures Same(Field(a, k), Field(b, k))
    {
      SameFields(Bound(a, key, x), Bound(b, key, y), k);
    }
    SameFields(Bound(a, key, x), Bound(b, key, y), key);
  }

  ghost predicate Accepted2(b: Json, load: nat -> Json, hash: Str -> Str) {
    Field(b, FormatKey()) == Version2() && Checked(b, load, hash).Ok?
  }

  ghost predicate Accepted1(b: Json, load: nat -> Json, hash: Str -> Str) {
    Field(b, FormatKey()) == Version1() && Checked(b, load, hash).Ok?
  }

  function PartsOf(b: Json): seq<Json> {
    var v := Field(b, PartsKey());
    if v.Array? then v.items else []
  }

  function ExchangesOf(b: Json): seq<Json> {
    var v := Field(b, ExchangesKey());
    if v.Array? then v.items else []
  }

  lemma Accepted2Facts(b: Json, load: nat -> Json, hash: Str -> Str)
    requires Accepted2(b, load, hash)
    ensures Field(b, PartsKey()) == Array(PartsOf(b))
    ensures Field(b, RootKey()) == Digest(hash, Bound(b, PartsKey(), Array(PartsOf(b))))
    ensures forall j :: 0 <= j < |PartsOf(b)| ==> Committed(hash, load(j + 1), Field(PartsOf(b)[j], CommitmentKey()))
  {
    hide Field, Digest, Metadata, FormatKey, PartsKey, RootKey, CommitmentKey, Version1, Version2, CheckPart,
      CheckExchanges, Committed;
    AcceptedPartsAreCommitted(hash, PartsOf(b), load, 0, 0);
  }

  /** The texts hashed to check a version-2 bundle: its manifest and its parts. */
  ghost function PartTexts(b: Json, load: nat -> Json): set<Str> {
    {Canonical(Manifest(b))} + set i | 1 <= i <= |PartsOf(b)| :: Canonical(Record(load(i)))
  }

  /** The texts hashed to check a version-1 bundle: its summary and its exchanges. */
  ghost function ExchangeTexts(b: Json): set<Str> {
    {Canonical(Summary(b, ExchangesOf(b)))} + set i | 0 <= i < |ExchangesOf(b)| :: Canonical(Record(ExchangesOf(b)[i]))
  }

  ghost predicate LoadsWellFormed(b: Json, load: nat -> Json) {
    forall i :: 1 <= i <= |PartsOf(b)| ==> WellFormed(load(i))
  }

  /** Root binding: two version-2 captures accepted with one root have the same metadata, the
      same number of parts, and the same part contents in the same order. */
  lemma RootBindsParts(hash: Str -> Str, a: Json, b: Json, loadA: nat -> Json, loadB: nat -> Json)
    requires CollisionFree(hash, PartTexts(a, loadA) + PartTexts(b, loadB)) && WellFormed(a) && WellFormed(b)
    requires LoadsWellFormed(a, loadA) && LoadsWellFormed(b, loadB)
    requires Accepted2(a, loadA, hash) && Accepted2(b, loadB, hash)
    requires Field(a, RootKey()) == Field(b, RootKey())
    ensures SameMetadata(a, b)
    ensures |PartsOf(a)| == |PartsOf(b)|
    ensures forall i :: 1 <= i <= |PartsOf(a)| ==> Same(loadA(i), loadB(i))
  {
    hide Field, Digest, Bound, Accepted2, PartsOf, Committed, SameMetadata, RootKey, CommitmentKey, WellFormed,
      CollisionFree, Canonical, Record;
    var texts := PartTexts(a, loadA) + PartTexts(b, loadB);
    Accepted2Facts(a, loadA, hash);
    Accepted2Facts(b, loadB, hash);
    var x, y := PartsOf(a), PartsOf(b);
    FieldIsWellFormed(a, PartsKey());
    FieldIsWellFormed(b, PartsKey());
    BoundBinds(hash, texts, a, b, PartsKey(), Array(x), Array(y));
    SameArrays(x, y);
    forall i | 1 <= i <= |x|
      ensures Same(loadA(i), loadB(i))
    {
      var j := i - 1;
      ItemsWellFormed(x, j);
      ItemsWellFormed(y, j);
      assert Committed(hash, loadA(j + 1), Field(x[j], CommitmentKey()));
      assert Committed(hash, loadB(j + 1), Field(y[j], CommitmentKey()));
      SameFields(x[j], y[j], CommitmentKey());
      CommittedIsString(hash, loadA(i), Field(x[j], CommitmentKey()));
      SameStrings(Field(x[j], CommitmentKey()), Field(y[j], CommitmentKey()));
      CommitmentBinds(hash, texts, loadA(i), loadB(i), Field(x[j], CommitmentKey()));
    }
  }

  lemma SameArrays(x: seq<Json>, y: seq<Json>)
    requires Same(Array(x), Array(y))
    ensures |x| == |y| && forall i :: 0 <= i < |x| ==> Same(x[i], y[i])
  {
  }

  lemma ItemsWellFormed(x: seq<Json>, j: nat)
    requires WellFormed(Array(x)) && j < |x|
    ensures WellFormed(x[j])
  {
  }

  lemma CommittedIsString(hash: Str -> Str, v: Json, commitment: Json)
    requires Committed(hash, v, commitment)
    ensures commitment.String?
  {
  }

  lemma SameStrings(a: Json, b: Json)
    requires a.String? && Same(a, b)
    ensures a == b
  {
  }

  lemma Accepted1Facts(b: Json, load: nat -> Json, hash: Str -> Str)
    requires Accepted1(b, load, hash)
    ensures Field(b, ExchangesKey()) == Array(ExchangesOf(b))
    ensures Field(b, RootKey()) == Digest(hash, Bound(b, CommitmentsKey(), Array(Commitments(ExchangesOf(b)))))
    ensures forall j :: 0 <= j < |ExchangesOf(b)| ==>
                Committed(hash, ExchangesOf(b)[j], Field(ExchangesOf(b)[j], CommitmentKey()))
  {
    VersionsDiffer();
    hide Field, Digest, Metadata, FormatKey, ExchangesKey, RootKey, CommitmentKey, CommitmentsKey, Version1,
      Version2, CheckExchange, CheckParts, Committed;
    AcceptedExchangesAreCommitted(hash, ExchangesOf(b), 0, 0);
  }

  lemma VersionsDiffer()
    ensures Version1() != Version2()
  {
    assert Version1Text()[19] != Version2Text()[19];
  }

  /** The same for version 1, where the root covers the list of commitments. */
  lemma RootBindsExchanges(hash: Str -> Str, a: Json, b: Json, loadA: nat -> Json, loadB: nat -> Json)
    requires CollisionFree(hash, ExchangeTexts(a) + ExchangeTexts(b)) && WellFormed(a) && WellFormed(b)
    requires Accepted1(a, loadA, hash) && Accepted1(b, loadB, hash)
    requires Field(a, RootKey()) == Field(b, RootKey())
    ensures SameMetadata(a, b)
    ensures |ExchangesOf(a)| == |ExchangesOf(b)|
    ensures forall i :: 0 <= i < |ExchangesOf(a)| ==> Same(ExchangesOf(a)[i], ExchangesOf(b)[i])
  {
    hide Field, Digest, Bound, Accepted1, ExchangesOf, Committed, SameMetadata, RootKey, CommitmentKey, CollisionFree,
      Canonical, Record;
    var texts := ExchangeTexts(a) + ExchangeTexts(b);
    Accepted1Facts(a, loadA, hash);
    Accepted1Facts(b, loadB, hash);
    var x, y := ExchangesOf(a), ExchangesOf(b);
    FieldIsWellFormed(a, ExchangesKey());
    FieldIsWellFormed(b, ExchangesKey());
    CommitmentsWellFormed(hash, x);
    CommitmentsWellFormed(hash, y);
    BoundBinds(hash, texts, a, b, CommitmentsKey(), Array(Commitments(x)), Array(Commitments(y)));
    SameArrays(Commitments(x), Commitments(y));
    forall i | 0 <= i < |x|
      ensures Same(x[i], y[i])
    {
      var c := Field(x[i], CommitmentKey());
      assert Committed(hash, x[i], c) && Committed(hash, y[i], Field(y[i], CommitmentKey()));
      CommittedIsString(hash, x[i], c);
      assert Same(Commitments(x)[i], Commitments(y)[i]);
      SameStrings(c, Field(y[i], CommitmentKey()));
      CommitmentBinds(hash, texts, x[i], y[i], c);
    }
  }

  lemma CommitmentsWellFormed(hash: Str -> Str, es: seq<Json>)
    requires forall j :: 0 <= j < |es| ==> Committed(hash, es[j], Field(es[j], CommitmentKey()))
    ensures WellFormed(Array(Commitments(es)))
  {
    hide Record, Canonical, CommitmentKey, Field;
    forall j | 0 <= j < |es|
      ensures Commitments(es)[j].String?
    {
      assert Committed(hash, es[j], Field(es[j], CommitmentKey()));
    }
  }

  // ----- Acceptance, both ways -----

  lemma {:induction false} CheckPartsExactly(hash: Str -> Str, parts: seq<Json>, load: nat -> Json, i: nat, n: nat)
    requires i <= |parts|
    ensures CheckParts(hash, parts, load, i, n).Ok? <==>
            forall j :: i <= j < |parts| ==> CheckPart(hash, parts[j], load(j + 1), j + 1) == None
    decreases |parts| - i
  {
    hide CheckPart, Truthy, Field;
    if i < |parts| {
      CheckPartsExactly(hash, parts, load, i + 1, n + (if Truthy(Field(load(i + 1), CompleteKey())) then 0 else 1));
    }
  }

  /** A part carries its descriptor's position and commitment and hashes to that commitment. */
  ghost predicate PartMatches(hash: Str -> Str, descriptor: Json, part: Json, n: nat) {
    && Field(descriptor, SequenceKey()) == Field(part, SequenceKey()) == Number(Decimal(n))
    && Field(descriptor, CommitmentKey()) == Field(part, CommitmentKey()) == Digest(hash, Record(part))
  }

  lemma CheckPartExactly(hash: Str -> Str, descriptor: Json, part: Json, n: nat)
    ensures CheckPart(hash, descriptor, part, n) == None <==> PartMatches(hash, descriptor, part, n)
  {
    hide CommitmentKey, SequenceKey, Canonical, Record, Decimal, ValueOf, Keys;
  }

  /** A version-2 bundle is accepted exactly when it lists between 1 and 4096 parts, its root is
      the digest of its manifest, and every loaded part matches its descriptor. */
  lemma AcceptsExactly(b: Json, load: nat -> Json, hash: Str -> Str)
    requires Field(b, FormatKey()) == Version2()
    ensures Checked(b, load, hash).Ok? <==>
            && Field(b, PartsKey()).Array? && 1 <= |PartsOf(b)| <= 4096
            && Field(b, RootKey()) == Digest(hash, Manifest(b))
            && forall j :: 0 <= j < |PartsOf(b)| ==> PartMatches(hash, PartsOf(b)[j], load(j + 1), j + 1)
  {
    hide Field, Digest, Manifest, FormatKey, PartsKey, RootKey, Version1, Version2, CheckExchanges, CheckParts,
      CheckPart, PartMatches;
    var parts := PartsOf(b);
    CheckPartsExactly(hash, parts, load, 0, 0);
    forall j | 0 <= j < |parts|
      ensures CheckPart(hash, parts[j], load(j + 1), j + 1) == None <==> PartMatches(hash, parts[j], load(j + 1), j + 1)
    {
      CheckPartExactly(hash, parts[j], load(j + 1), j + 1);
    }
  }

  /** Version 1 exactly: between 1 and 100 exchanges in order, each hashing to its own commitment, and
      the root the digest of their commitments with the metadata. */
  lemma AcceptsExchangesExactly(b: Json, load: nat -> Json, hash: Str -> Str)
    requires Field(b, FormatKey()) == Version1()
    ensures Checked(b, load, hash).Ok? <==>
            && Field(b, ExchangesKey()).Array? && 1 <= |ExchangesOf(b)| <= 100
            && Field(b, RootKey()) == Digest(hash, Summary(b, ExchangesOf(b)))
            && forall j :: 0 <= j < |ExchangesOf(b)| ==> ExchangeMatches(hash, ExchangesOf(b)[j], j + 1)
  {
    VersionsDiffer();
    hide Field, Digest, Summary, FormatKey, ExchangesKey, RootKey, Version1, Version2, CheckExchanges, CheckParts,
      CheckExchange, ExchangeMatches;
    var es := ExchangesOf(b);
    CheckExchangesExactly(hash, es, 0, 0);
    forall j | 0 <= j < |es|
      ensures CheckExchange(hash, es[j], j + 1) == None <==> ExchangeMatches(hash, es[j], j + 1)
    {
      CheckExchangeExactly(hash, es[j], j + 1);
    }
  }

  ghost predicate ExchangeMatches(hash: Str -> Str, e: Json, n: nat) {
    Field(e, SequenceKey()) == Number(Decimal(n)) && Field(e, CommitmentKey()) == Digest(hash, Record(e))
  }

  lemma CheckExchangeExactly(hash: Str -> Str, e: Json, n: nat)
    ensures CheckExchange(hash, e, n) == None <==> ExchangeMatches(hash, e, n)
  {
    hide CommitmentKey, SequenceKey, Canonical, Record, Decimal, ValueOf, Keys;
  }

  lemma {:induction false} CheckExchangesExactly(hash: Str -> Str, es: seq<Json>, i: nat, n: nat)
    requires i <= |es|
    ensures CheckExchanges(hash, es, i, n).Ok? <==>
            forall j :: i <= j < |es| ==> CheckExchange(hash, es[j], j + 1) == None
    decreases |es| - i
  {
    hide CheckExchange, Truthy, Field;
    if i < |es| {
      CheckExchangesExactly(hash, es, i + 1, n + (if Truthy(Field(es[i], CompleteKey())) then 0 else 1));
    }
  }

  /** The sequence numbers are plain decimal numerals. */
  lemma {:induction false} DecimalIsNumeral(n: nat)
    ensures |Decimal(n)| == |Digits(n, 10)|
    ensures forall i :: 0 <= i < |Decimal(n)| ==> Decimal(n)[i] == Digits(n, 10)[i] as int
  {
    if n >= 10 {
      DecimalIsNumeral(n / 10);
    }
  }

  // ----- What is reported -----

  /** The values that JavaScript takes for false. */
  ghost predicate Falsy(v: Json) {
    v == Null || v == Undefined || v == Bool(false) || v == Number(Ascii("0")) || v == String([])
  }

  lemma TruthyExactly(v: Json)
    ensures Truthy(v) <==> !Falsy(v)
  {
    assert Ascii("0") == ZeroToken();
  }

  /** How many of these values are not marked complete. */
  ghost function Interrupted(values: seq<Json>): nat {
    if values == [] then 0
    else
      var n := |values| - 1;
      Interrupted(values[..n]) + if Falsy(Field(values[n], Ascii("complete"))) then 1 else 0
  }

  lemma InterruptedGrows(values: seq<Json>, v: Json)
    ensures Interrupted(values + [v]) == Interrupted(values) + if Truthy(Field(v, CompleteKey())) then 0 else 1
  {
    RecordsSpelled();
    TruthyExactly(Field(v, CompleteKey()));
    hide Field, Falsy, Truthy, CompleteKey;
    assert (values + [v])[..|values|] == values;
  }

  function Loaded(load: nat -> Json, n: nat): (values: seq<Json>)
    ensures |values| == n && forall i :: 0 <= i < n ==> values[i] == load(i + 1)
  {
    seq(n, i requires 0 <= i < n => load(i + 1))
  }

  lemma {:induction false} PartsCounted(hash: Str -> Str, parts: seq<Json>, load: nat -> Json, i: nat, n: nat)
    requires i <= |parts| && CheckParts(hash, parts, load, i, n).Ok? && n == Interrupted(Loaded(load, i))
    ensures CheckParts(hash, parts, load, i, n).value == Interrupted(Loaded(load, |parts|))
    decreases |parts| - i
  {
    hide CheckPart, Truthy, Field, Interrupted, Loaded;
    if i < |parts| {
      InterruptedGrows(Loaded(load, i), load(i + 1));
      assert Loaded(load, i + 1) == Loaded(load, i) + [load(i + 1)];
      PartsCounted(hash, parts, load, i + 1, n + (if Truthy(Field(load(i + 1), CompleteKey())) then 0 else 1));
    }
  }

  lemma {:induction false} ExchangesCounted(hash: Str -> Str, es: seq<Json>, i: nat, n: nat)
    requires i <= |es| && CheckExchanges(hash, es, i, n).Ok? && n == Interrupted(es[..i])
    ensures CheckExchanges(hash, es, i, n).value == Interrupted(es)
    decreases |es| - i
  {
    hide CheckExchange, Truthy, Field, Interrupted;
    if i < |es| {
      InterruptedGrows(es[..i], es[i]);
      assert es[..i + 1] == es[..i] + [es[i]];
      ExchangesCounted(hash, es, i + 1, n + (if Truthy(Field(es[i], CompleteKey())) then 0 else 1));
    } else {
      assert es[..i] == es;
    }
  }

  /** A leaf; two separately parsed arrays or objects are never identical. */
  ghost predicate Leaf(v: Json) {
    !v.Array? && !v.Object?
  }

  /** The seal's statement names this bundle: its purpose, the digest of the bundle without the seal,
      the capture and the root. */
  ghost predicate Attests(b: Json, hash: Str -> Str) {
    var statement := Field(Field(b, Ascii("tee_evidence")), Ascii("statement"));
    && Field(statement, Ascii("purpose")) == String(Ascii("thot.tee-capture-seal/1"))
    && Field(statement, Ascii("bundle_hash")) == String(hash(Canonical(Original(b))))
    && Leaf(Field(b, Ascii("capture_id"))) && Field(statement, Ascii("capture_id")) == Field(b, Ascii("capture_id"))
    && Leaf(Field(b, Ascii("root"))) && Field(statement, Ascii("session_root")) == Field(b, Ascii("root"))
  }

  lemma FitsExactly(b: Json, hash: Str -> Str)
    ensures StatementFits(b, hash) <==> Attests(b, hash)
  {
    MetadataSpelled();
    RecordsSpelled();
    SealSpelled();
    SealFieldsSpelled();
    SealKeysSpelled();
    hide Field, Original, Canonical, Ascii, TeeEvidenceKey, StatementKey, PurposeKey, BundleHashKey, SessionRootKey,
      CaptureIdKey, RootKey, SealPurpose;
  }

  lemma PartsReported(b: Json, load: nat -> Json, hash: Str -> Str)
    requires Checked(b, load, hash).Ok? && Field(b, FormatKey()) == Version2()
    ensures Checked(b, load, hash).value == (|PartsOf(b)|, Interrupted(Loaded(load, |PartsOf(b)|)))
  {
    hide Field, Digest, Manifest, FormatKey, PartsKey, RootKey, Version2, CheckParts, CheckExchanges, Interrupted;
    assert Loaded(load, 0) == [];
    NoneInterrupted();
    PartsCounted(hash, PartsOf(b), load, 0, 0);
  }

  lemma ExchangesReported(b: Json, load: nat -> Json, hash: Str -> Str)
    requires Checked(b, load, hash).Ok? && Field(b, FormatKey()) != Version2()
    ensures Field(b, FormatKey()) == Version1()
    ensures Checked(b, load, hash).value == (|ExchangesOf(b)|, Interrupted(ExchangesOf(b)))
  {
    hide Field, Digest, Summary, FormatKey, ExchangesKey, RootKey, Version1, Version2, CheckParts, CheckExchanges,
      Interrupted;
    assert ExchangesOf(b)[..0] == [];
    NoneInterrupted();
    ExchangesCounted(hash, ExchangesOf(b), 0, 0);
  }

  lemma NoneInterrupted()
    ensures Interrupted([]) == 0
  {
  }

  /** What an accepted bundle is reported as: how many parts or exchanges it has, how many of them are
      not marked complete, its root, and whether it carries a seal, which then fits it. */
  lemma ReportsExactly(b: Json, load: Option<nat -> Json>, hash: Str -> Str, verify: Ed25519)
    requires Verified(b, load, hash, verify).Ok?
    ensures var r := Verified(b, load, hash, verify).value;
      && r.root == Field(b, RootKey()) && (r.tee <==> !Falsy(Field(b, TeeEvidenceKey())))
      && (r.tee ==> Attests(b, hash))
      && (Field(b, FormatKey()) == Version2() ==>
            && load.Some? && r.exchanges == |PartsOf(b)|
            && r.interrupted == Interrupted(Loaded(load.value, |PartsOf(b)|)))
      && (Field(b, FormatKey()) != Version2() ==>
            && Field(b, FormatKey()) == Version1() && r.exchanges == |ExchangesOf(b)|
            && r.interrupted == Interrupted(ExchangesOf(b)))
  {
    TruthyExactly(Field(b, TeeEvidenceKey()));
    FitsExactly(b, hash);
    hide Field, FormatKey, RootKey, Version1, Version2, Checked, Truthy, StatementFits, Falsy, TeeEvidenceKey,
      Canonical, AttestedKey, Interrupted, Attests, PartsOf, ExchangesOf, Loaded;
    if Field(b, FormatKey()) == Version2() {
      PartsReported(b, load.value, hash);
    } else {
      ExchangesReported(b, if load.Some? then load.value else NoParts(), hash);
    }
  }

  // ----- What a seal stands for -----

  lemma WithoutField(ms: seq<Member>, k: Str, x: Str)
    requires DistinctKeys(ms) && x != k
    ensures DistinctKeys(Without(ms, k)) && Field(Object(Without(ms, k)), x) == Field(Object(ms), x)
  {
    var rest := Without(ms, k);
    WithoutExactly(ms, k);
    OtherKeys(ms, k, x);
    if x in Keys(ms) {
      var i := At(ms, x);
      assert ms[i] in rest;
      var j :| 0 <= j < |rest| && rest[j] == ms[i];
      FieldAt(ms, i);
      FieldAt(rest, j);
    }
  }

  lemma OriginalIsWellFormed(b: Json)
    requires WellFormed(b)
    ensures WellFormed(Original(b))
  {
    if b.Object? {
      WithoutIsWellFormed(b.members, TeeEvidenceKey());
    }
  }

  lemma OriginalField(b: Json, x: Str)
    requires WellFormed(b) && x != TeeEvidenceKey()
    ensures Field(Original(b), x) == Field(b, x)
  {
    if b.Object? {
      WithoutField(b.members, TeeEvidenceKey(), x);
    }
  }

  /** One statement fits one bundle: two bundles it fits agree in everything but the seal. */
  lemma StatementFixesBundle(hash: Str -> Str, texts: set<Str>, a: Json, b: Json)
    requires CollisionFree(hash, texts) && Canonical(Original(a)) in texts && Canonical(Original(b)) in texts
    requires WellFormed(a) && WellFormed(b) && StatementFits(a, hash) && StatementFits(b, hash)
    requires Canonical(StatementOf(a)) == Canonical(StatementOf(b))
    ensures Same(Original(a), Original(b))
  {
    hide Same, Original, WellFormed, Canonical, StatementOf, Field, BundleHashKey, SessionRootKey, CaptureIdKey,
      PurposeKey, SealPurpose, CollisionFree;
    StatementIsWellFormed(a);
    StatementIsWellFormed(b);
    CanonicalIsInjective(StatementOf(a), StatementOf(b));
    SameFields(StatementOf(a), StatementOf(b), BundleHashKey());
    SameStrings(Digest(hash, Original(a)), Digest(hash, Original(b)));
    OriginalIsWellFormed(a);
    OriginalIsWellFormed(b);
    DigestBinds(hash, texts, Original(a), Original(b));
  }

  lemma StatementIsWellFormed(b: Json)
    requires WellFormed(b)
    ensures WellFormed(StatementOf(b))
  {
    hide WellFormed, Field;
    FieldIsWellFormed(b, TeeEvidenceKey());
    FieldIsWellFormed(Field(b, TeeEvidenceKey()), StatementKey());
  }

  /** A sealed bundle that is otherwise in order is accepted, and reported as sealed, exactly when its
      statement fits it and the statement's text verifies under the attested key. */
  lemma SealedExactly(b: Json, load: nat -> Json, hash: Str -> Str, verify: Ed25519)
    requires Truthy(Field(b, TeeEvidenceKey())) && Checked(b, load, hash).Ok?
    ensures var evidence, r := Field(b, TeeEvidenceKey()), Verified(b, Some(load), hash, verify);
      && (r.Ok? <==>
            && Attests(b, hash)
            && !Nullish(Field(Field(evidence, AttestationKey()), StatementKey()))
            && verify(AttestedKey(b), Field(evidence, SignatureKey()), Canonical(StatementOf(b))) == Some(true))
      && (r.Ok? ==> r.value.tee)
  {
    FitsExactly(b, hash);
    hide Digest, Canonical, StatementFits, Checked, Keys, ValueOf, AttestedKey, StatementOf, AttestationKey,
      StatementKey, SignatureKey, TeeEvidenceKey, Attests, Ascii;
  }

  /** What is hashed to check a sealed version-2 bundle. */
  ghost function SealedTexts(b: Json, load: nat -> Json): set<Str> {
    PartTexts(b, load) + {Canonical(Original(b))}
  }

  lemma FewerTexts(hash: Str -> Str, texts: set<Str>, some: set<Str>)
    requires CollisionFree(hash, texts) && some <= texts
    ensures CollisionFree(hash, some)
  {
  }

  /** A signed statement stands for one capture: two accepted version-2 bundles whose seals sign the
      same text have the same metadata, root and parts, whoever signed and whatever was loaded from. */
  lemma SealFixesCapture(hash: Str -> Str, verify: Ed25519, a: Json, b: Json, loadA: nat -> Json, loadB: nat -> Json)
    requires CollisionFree(hash, SealedTexts(a, loadA) + SealedTexts(b, loadB)) && WellFormed(a) && WellFormed(b)
    requires LoadsWellFormed(a, loadA) && LoadsWellFormed(b, loadB)
    requires Verified(a, Some(loadA), hash, verify).Ok? && Verified(a, Some(loadA), hash, verify).value.tee
    requires Verified(b, Some(loadB), hash, verify).Ok? && Verified(b, Some(loadB), hash, verify).value.tee
    requires Field(a, FormatKey()) == Version2() && Canonical(StatementOf(a)) == Canonical(StatementOf(b))
    ensures Same(Original(a), Original(b)) && SameMetadata(a, b) && |PartsOf(a)| == |PartsOf(b)|
    ensures forall i :: 1 <= i <= |PartsOf(a)| ==> Same(loadA(i), loadB(i))
  {
    SealFits(a, loadA, hash, verify);
    SealFits(b, loadB, hash, verify);
    StatementFixesBundle(hash, SealedTexts(a, loadA) + SealedTexts(b, loadB), a, b);
    FewerTexts(hash, SealedTexts(a, loadA) + SealedTexts(b, loadB), PartTexts(a, loadA) + PartTexts(b, loadB));
    SealedField(a, b, FormatKey());
    SealedField(a, b, RootKey());
    hide Field, Original, Same, Digest, Canonical, StatementFits, StatementOf, SameMetadata, Verified, WellFormed,
      Checked, FormatKey, RootKey, Version2, PartsOf, CollisionFree, PartTexts;
    RootsEqual(a, b, loadA, loadB, hash);
    RootBindsParts(hash, a, b, loadA, loadB);
  }

  lemma SealFits(b: Json, load: nat -> Json, hash: Str -> Str, verify: Ed25519)
    requires Verified(b, Some(load), hash, verify).Ok? && Verified(b, Some(load), hash, verify).value.tee
    ensures StatementFits(b, hash) && Checked(b, load, hash).Ok?
  {
    hide Field, Digest, Canonical, StatementFits, Checked, AttestedKey;
  }

  lemma RootsEqual(a: Json, b: Json, loadA: nat -> Json, loadB: nat -> Json, hash: Str -> Str)
    requires Field(a, FormatKey()) == Version2() && Same(Field(a, FormatKey()), Field(b, FormatKey()))
    requires Checked(a, loadA, hash).Ok? && Checked(b, loadB, hash).Ok?
    requires Same(Field(a, RootKey()), Field(b, RootKey()))
    ensures Accepted2(a, loadA, hash) && Accepted2(b, loadB, hash) && Field(a, RootKey()) == Field(b, RootKey())
  {
    hide Field, Canonical, Manifest, Summary, Version2Text, FormatKey, RootKey, CheckParts, CheckExchanges;
    SameStrings(Field(a, FormatKey()), Field(b, FormatKey()));
    SameStrings(Field(a, RootKey()), Field(b, RootKey()));
  }

  lemma SealedField(a: Json, b: Json, k: Str)
    requires WellFormed(a) && WellFormed(b) && Same(Original(a), Original(b)) && k != TeeEvidenceKey()
    ensures Same(Field(a, k), Field(b, k))
  {
    hide Same, Original, Field, WellFormed;
    OriginalIsWellFormed(a);
    OriginalIsWellFormed(b);
    SameFields(Original(a), Original(b), k);
    OriginalField(a, k);
    OriginalField(b, k);
  }
}
