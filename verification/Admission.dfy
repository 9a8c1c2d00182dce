/**
 The API's admission control (apps/api/admission.ts): counters of work in flight, rate windows and
 one slot per verified tenant. Every grant is given back by a release that acts once. The ghost
 fields hold the grants that have not been given back; `Valid` ties each counter to them.
 */
module Admission {
  import opened Bytes
  import opened Numerals
  import opened RateWindows
  import opened Gate

  datatype Kind = Account | Capture

  datatype Limits = Limits(windowMs: nat, publicRequests: nat, preauthRequests: nat, credentialRequests: nat,
                           verifiedRequests: nat, accountRequests: nat, captureRequests: nat, requestsInFlight: nat,
                           authInFlight: nat, accountInFlight: nat, captureInFlight: nat, bodiesInFlight: nat,
                           bodyBytesInFlight: nat, credentialKeys: nat, tenantKeys: nat)
  {
    predicate Positive() {
      && 1 <= windowMs && 1 <= publicRequests && 1 <= preauthRequests && 1 <= credentialRequests
      && 1 <= verifiedRequests && 1 <= accountRequests && 1 <= captureRequests
      && 1 <= requestsInFlight && 1 <= authInFlight && 1 <= accountInFlight && 1 <= captureInFlight
      && 1 <= bodiesInFlight && 1 <= bodyBytesInFlight && 1 <= credentialKeys && 1 <= tenantKeys
    }

    function Values(): (values: seq<nat>)
      ensures |values| == 15
    {
      [windowMs, publicRequests, preauthRequests, credentialRequests, verifiedRequests, accountRequests,
       captureRequests, requestsInFlight, authInFlight, accountInFlight, captureInFlight, bodiesInFlight,
       bodyBytesInFlight, credentialKeys, tenantKeys]
    }

    /** Every limit is at least one. */
    lemma PositiveExactly()
      ensures Positive() <==> forall i :: 0 <= i < 15 ==> 1 <= Values()[i]
      ensures Positive() <==> 0 !in {windowMs, publicRequests, preauthRequests, credentialRequests, verifiedRequests,
                                     accountRequests, captureRequests, requestsInFlight, authInFlight,
                                     accountInFlight, captureInFlight, bodiesInFlight, bodyBytesInFlight,
                                     credentialKeys, tenantKeys}
    {
      var v := Values();
      assert v[0] == windowMs && v[1] == publicRequests && v[2] == preauthRequests && v[3] == credentialRequests;
      assert v[4] == verifiedRequests && v[5] == accountRequests && v[6] == captureRequests;
      assert v[7] == requestsInFlight && v[8] == authInFlight && v[9] == accountInFlight && v[10] == captureInFlight;
      assert v[11] == bodiesInFlight && v[12] == bodyBytesInFlight && v[13] == credentialKeys && v[14] == tenantKeys;
    }

    function InFlight(kind: Kind): nat {
      if kind == Account then accountInFlight else captureInFlight
    }

    function Authentication(): (rules: Rules)
      ensures rules.ms == windowMs
    {
      Rules(windowMs, preauthRequests, AuthenticationRateLimit, credentialKeys, credentialRequests, CredentialRateLimit,
            true)
    }

    function Verified(kind: Kind): (rules: Rules)
      ensures rules.ms == windowMs
    {
      Rules(windowMs, verifiedRequests, VerifiedRateLimit, tenantKeys,
            if kind == Account then accountRequests else captureRequests,
            if kind == Account then AccountAdmissionLimit else CaptureAdmissionLimit, false)
    }
  }

  class Slot {
    ghost const kind: Kind
    var inFlight: int
    var window: Window

    constructor (ghost kind: Kind, start: int)
      ensures this.kind == kind && inFlight == 0 && window == Window(start, 0)
    {
      this.kind := kind;
      inFlight, window := 0, Window(start, 0);
    }
  }

  datatype Charge = Request | Authentication | Tenant(slot: Slot) | Body(declared: nat, requestLimit: int)

  /** What a call hands back: its release, and for a body the running reservation. */
  class Grant {
    const charge: Charge
    var released: bool
    var reserved: int

    constructor (charge: Charge, reserved: int)
      ensures this.charge == charge && !released && this.reserved == reserved
    {
      this.charge, released, this.reserved := charge, false, reserved;
    }
  }

  // ----- Keys and totals -----

  function Name(kind: Kind): string {
    if kind == Account then "account" else "capture"
  }

  function Key(kind: Kind, tenant: string): string {
    Name(kind) + ":" + tenant
  }

  function KindOf(key: string): Kind {
    if |key| > 1 && key[1] == 'c' then Account else Capture
  }

  lemma KeyHasKind(kind: Kind, tenant: string)
    ensures KindOf(Key(kind, tenant)) == kind
  {
    assert Name(kind)[1] == if kind == Account then 'c' else 'a';
    assert Key(kind, tenant)[1] == Name(kind)[1];
  }

  lemma KeySpelled(tenant: string)
    ensures Key(Account, tenant) == "account:" + tenant && Key(Capture, tenant) == "capture:" + tenant
  {
    assert "account" + ":" == "account:" && "capture" + ":" == "capture:";
  }

  /** Two tenants never share a slot, and an account slot is never a capture slot. */
  lemma KeysAreDistinct(kind: Kind, tenant: string, kind': Kind, tenant': string)
    ensures Key(kind, tenant) == Key(kind', tenant') <==> kind == kind' && tenant == tenant'
  {
    KeyHasKind(kind, tenant);
    KeyHasKind(kind', tenant');
    if Key(kind, tenant) == Key(kind', tenant') {
      var prefix := Name(kind) + ":";
      assert (prefix + tenant)[|prefix|..] == tenant && (prefix + tenant')[|prefix|..] == tenant';
    }
  }

  ghost function Total<T>(m: map<T, int>): int {
    if m == map[] then 0 else var k :| k in m; m[k] + Total(m - {k})
  }

  lemma {:induction false} TotalWithout<T>(m: map<T, int>, k: T)
    requires k in m
    ensures Total(m) == m[k] + Total(m - {k})
    decreases |m|
  {
    var first :| first in m && Total(m) == m[first] + Total(m - {first});
    if first != k {
      assert (m - {first}) - {k} == (m - {k}) - {first};
      TotalWithout(m - {first}, k);
      TotalWithout(m - {k}, first);
    }
  }

  lemma TotalWith<T>(m: map<T, int>, k: T, n: int)
    ensures Total(m[k := n]) == n + Total(m - {k})
  {
    TotalWithout(m[k := n], k);
    assert m[k := n] - {k} == m - {k};
  }

  // ----- What the limits come to over a run -----

  /** A run of `enterVerified` under these limits. */
  predicate Verifies(calls: seq<Call>, limits: Limits) {
    forall i :: 0 <= i < |calls| ==> calls[i].rules == limits.Verified(KindOf(calls[i].key))
  }

  /** A run of `enterAuthentication` under these limits. */
  predicate Authenticates(calls: seq<Call>, limits: Limits) {
    forall i :: 0 <= i < |calls| ==> calls[i].rules == limits.Authentication()
  }

  lemma VerifiedRules(calls: seq<Call>, limits: Limits, tenant: string)
    requires limits.Positive() && Verifies(calls, limits)
    ensures InForce(calls, limits.windowMs) && SharesWindow(calls, limits.verifiedRequests)
    ensures Limited(calls, Key(Account, tenant), limits.accountRequests)
    ensures Limited(calls, Key(Capture, tenant), limits.captureRequests)
    ensures LimitedBy(calls, AccountAdmissionLimit, limits.accountRequests, false)
    ensures LimitedBy(calls, CaptureAdmissionLimit, limits.captureRequests, false)
  {
    KeyHasKind(Account, tenant);
    KeyHasKind(Capture, tenant);
    hide Key, KindOf;
  }

  /** Over any run of `enterVerified`, in any interval as long as the window: one tenant gets at
      most three times the limit of its kind, the tenants of a kind without a slot of their own
      together get at most twice that limit, and all tenants together at most twice theirs. */
  lemma VerifiedRates(calls: seq<Call>, limits: Limits, tenant: string)
    requires limits.Positive() && Verifies(calls, limits) && Steady(calls)
    ensures InForce(calls, limits.windowMs)
    ensures var ms := limits.windowMs;
      && Spaced(Admissions(calls, Key(Account, tenant), ms), 3 * limits.accountRequests, ms)
      && Spaced(Admissions(calls, Key(Capture, tenant), ms), 3 * limits.captureRequests, ms)
      && Spaced(SharedAdmissions(calls, ms), 2 * limits.verifiedRequests, ms)
      && (HandOn(calls, AccountAdmissionLimit, ms) ==>
            Spaced(OverflowAdmissions(calls, AccountAdmissionLimit, ms), 2 * limits.accountRequests, ms))
      && (HandOn(calls, CaptureAdmissionLimit, ms) ==>
            Spaced(OverflowAdmissions(calls, CaptureAdmissionLimit, ms), 2 * limits.captureRequests, ms))
  {
    VerifiedRules(calls, limits, tenant);
    hide Steady, Spaced, Key, InForce, HandOn, LimitedBy, Limited, SharesWindow, Admissions, SharedAdmissions,
         OverflowAdmissions, Verifies;
    var ms := limits.windowMs;
    TenantRate(calls, Key(Account, tenant), limits.accountRequests, ms);
    TenantRate(calls, Key(Capture, tenant), limits.captureRequests, ms);
    SharedRate(calls, limits.verifiedRequests, ms);
    if HandOn(calls, AccountAdmissionLimit, ms) {
      OverflowRate(calls, AccountAdmissionLimit, limits.accountRequests, ms);
    }
    if HandOn(calls, CaptureAdmissionLimit, ms) {
      OverflowRate(calls, CaptureAdmissionLimit, limits.captureRequests, ms);
    }
  }

  lemma AuthenticationRules(calls: seq<Call>, limits: Limits, fingerprint: string)
    requires limits.Positive() && Authenticates(calls, limits)
    ensures InForce(calls, limits.windowMs) && SharesWindow(calls, limits.preauthRequests)
    ensures Limited(calls, fingerprint, limits.credentialRequests)
    ensures LimitedBy(calls, CredentialRateLimit, limits.credentialRequests, true)
    ensures forall i :: 0 <= i < |calls| ==> calls[i].rules.ownCode == CredentialRateLimit
  {
  }

  /** Over any run of `enterAuthentication`: one credential gets at most twice its limit, the
      credentials without a window of their own together the same, and one more where a call may
      straddle the edge of a generation; all of them together get at most twice their limit. */
  lemma AuthenticationRates(calls: seq<Call>, limits: Limits, fingerprint: string, slack: nat)
    requires limits.Positive() && Authenticates(calls, limits) && Steady(calls)
    requires Straddling(calls, slack, limits.windowMs) && forall i :: 0 <= i < |calls| ==> calls[i].spared == {}
    ensures InForce(calls, limits.windowMs)
    ensures var ms := limits.windowMs;
      && Spaced(Admissions(calls, fingerprint, ms), 2 * limits.credentialRequests + slack, ms)
      && Spaced(SharedAdmissions(calls, ms), 2 * limits.preauthRequests, ms)
      && (HandOn(calls, CredentialRateLimit, ms) ==>
            Spaced(OverflowAdmissions(calls, CredentialRateLimit, ms), 2 * limits.credentialRequests + slack, ms))
  {
    AuthenticationRules(calls, limits, fingerprint);
    hide Steady, Spaced, InForce, HandOn, LimitedBy, Limited, SharesWindow, Admissions, SharedAdmissions,
         OverflowAdmissions, Authenticates, Straddling;
    var ms := limits.windowMs;
    CredentialRate(calls, fingerprint, limits.credentialRequests, slack, ms);
    SharedRate(calls, limits.preauthRequests, ms);
    if HandOn(calls, CredentialRateLimit, ms) {
      CredentialOverflowRate(calls, CredentialRateLimit, limits.credentialRequests, slack, ms);
    }
  }

  /** The limits of a server that is not told otherwise. */
  const DEFAULTS: Limits := Limits(60_000, 6_000, 12_000, 360, 30_000, 240, 600, 256, 64, 8, 16, 16, 134_217_728,
                                   4_096, 2_048)

  /** By default the least bounds that every run keeps in a minute are 720 calls of an account
      tenant and 1800 of a capture tenant; a credential's 720 hold unless a call straddles. */
  lemma DefaultRates(n: nat, slack: nat)
    requires slack <= 1
    ensures DEFAULTS.Positive()
    ensures KeepsTo(DEFAULTS.Verified(Account), n) <==> n >= 720
    ensures KeepsTo(DEFAULTS.Verified(Capture), n) <==> n >= 1800
    ensures KeepsTwice(DEFAULTS.Authentication(), slack) <==> slack == 0
    ensures DEFAULTS.Authentication().limit == 360 && DEFAULTS.Authentication().ms == 60_000
  {
    hide KeepsTo, KeepsTwice;
    TenantExactly(DEFAULTS.Verified(Account), n);
    TenantExactly(DEFAULTS.Verified(Capture), n);
    CredentialExactly(DEFAULTS.Authentication(), slack);
  }

  /** What the default limits leave room for at once. */
  lemma DefaultCapacities()
    ensures DEFAULTS.InFlight(Account) == 8 && DEFAULTS.InFlight(Capture) == 16
    ensures DEFAULTS.requestsInFlight == 256 && DEFAULTS.authInFlight == 64 && DEFAULTS.bodiesInFlight == 16
    ensures DEFAULTS.bodyBytesInFlight == 128 * 1024 * 1024
    ensures DEFAULTS.Authentication().keys == 4096 && DEFAULTS.Verified(Account).keys == 2048
    ensures DEFAULTS.publicRequests == 6000 && DEFAULTS.Authentication().sharedLimit == 12000
    ensures DEFAULTS.Verified(Capture).sharedLimit == 30000
  {
  }

  // ----- Content-Length -----

  /** The length a body declares; 0 also stands for a body that declares none. */
  function Declared(contentLength: Option<string>): Result<nat, Code> {
    match contentLength
    case None => Ok(0)
    case Some(text) =>
      if text != [] && AllDigits(text, 10) && Value(text, 10) <= MAX_SAFE then Ok(Value(text, 10))
      else Err(InvalidContentLength)
  }

  /** A declared length is a number of decimal digits that is a safe integer; without a header it is
      taken as zero, and any other header is refused. */
  lemma DeclaredExactly(contentLength: Option<string>)
    ensures contentLength == None ==> Declared(contentLength) == Ok(0)
    ensures contentLength.Some? ==>
              var text := contentLength.value;
              && (Declared(contentLength).Ok? <==>
                    text != "" && AllDecimal(text) && Value(text, 10) <= 9_007_199_254_740_991)
              && (Declared(contentLength).Ok? ==> Declared(contentLength).value == Value(text, 10))
    ensures Declared(contentLength).Err? ==> Declared(contentLength).error == InvalidContentLength
  {
    if contentLength.Some? {
      DecimalExactly(contentLength.value);
    }
    hide AllDigits, Value;
  }

  ghost predicate AllDecimal(s: string)
    ensures AllDecimal(s) ==> AllDigits(s, 10)
  {
    forall i :: 0 <= i < |s| ==> '0' <= s[i] <= '9'
  }

  lemma DecimalExactly(s: string)
    ensures AllDigits(s, 10) <==> AllDecimal(s)
  {
  }

  // ----- The ledger -----

  /** The grants not given back, and where each is counted. */
  datatype Ledger = Ledger(grants: set<Grant>, requests: set<Grant>, authentications: set<Grant>,
                           held: map<Slot, set<Grant>>, bodies: map<Grant, int>)

  ghost predicate Sorted(l: Ledger) {
    && l.requests == (set g | g in l.grants && g.charge.Request?)
    && l.authentications == (set g | g in l.grants && g.charge.Authentication?)
    && l.bodies.Keys == (set g | g in l.grants && g.charge.Body?)
    && (forall g :: g in l.grants && g.charge.Tenant? ==> g.charge.slot in l.held && g in l.held[g.charge.slot])
    && (forall s, g :: s in l.held && g in l.held[s] ==> g in l.grants && g.charge == Tenant(s))
  }

  ghost function Book(l: Ledger, g: Grant, reserved: int): Ledger
    requires g.charge.Tenant? ==> g.charge.slot in l.held
  {
    var added := l.(grants := l.grants + {g});
    match g.charge
    case Request => added.(requests := l.requests + {g})
    case Authentication => added.(authentications := l.authentications + {g})
    case Tenant(s) => added.(held := l.held[s := l.held[s] + {g}])
    case Body(_, _) => added.(bodies := l.bodies[g := reserved])
  }

  ghost function Settle(l: Ledger, g: Grant): Ledger
    requires g.charge.Tenant? ==> g.charge.slot in l.held
  {
    var removed := l.(grants := l.grants - {g});
    match g.charge
    case Request => removed.(requests := l.requests - {g})
    case Authentication => removed.(authentications := l.authentications - {g})
    case Tenant(s) => removed.(held := l.held[s := l.held[s] - {g}])
    case Body(_, _) => removed.(bodies := l.bodies - {g})
  }

  lemma BookSorts(l: Ledger, g: Grant, reserved: int)
    requires Sorted(l) && g !in l.grants && (g.charge.Tenant? ==> g.charge.slot in l.held)
    ensures Sorted(Book(l, g, reserved)) && Book(l, g, reserved).held.Keys == l.held.Keys
    ensures Book(l, g, reserved).grants == l.grants + {g}
  {
  }

  lemma BookLives(l: Ledger, g: Grant, reserved: int)
    requires Sorted(l) && g !in l.grants && (g.charge.Tenant? ==> g.charge.slot in l.held)
    requires Unreleased(l.grants) && Reserved(l.bodies) && !g.released && g.reserved == reserved >= 0
    ensures Unreleased(Book(l, g, reserved).grants) && Reserved(Book(l, g, reserved).bodies)
  {
  }

  lemma SettleSorts(l: Ledger, g: Grant)
    requires Sorted(l) && g in l.grants
    ensures Sorted(Settle(l, g)) && Settle(l, g).held.Keys == l.held.Keys && Settle(l, g).grants == l.grants - {g}
  {
  }

  lemma BookTallies(l: Ledger, g: Grant, reserved: int)
    requires Sorted(l) && g !in l.grants && (g.charge.Tenant? ==> g.charge.slot in l.held)
    ensures var b := Book(l, g, reserved);
      && |b.requests| == |l.requests| + (if g.charge.Request? then 1 else 0)
      && |b.authentications| == |l.authentications| + (if g.charge.Authentication? then 1 else 0)
      && |b.bodies| == |l.bodies| + (if g.charge.Body? then 1 else 0)
      && Total(b.bodies) == Total(l.bodies) + (if g.charge.Body? then reserved else 0)
      && (!g.charge.Tenant? ==> b.held == l.held) && (!g.charge.Body? ==> b.bodies == l.bodies)
      && (g.charge.Tenant? ==> b.held == l.held[g.charge.slot := l.held[g.charge.slot] + {g}])
  {
    NotCounted(l, g);
    hide Total, Sorted;
    if g.charge.Body? {
      OneMore(l.bodies, g, reserved);
    }
  }

  lemma OneMore<T>(m: map<T, int>, k: T, n: int)
    requires k !in m
    ensures |m[k := n]| == |m| + 1 && Total(m[k := n]) == Total(m) + n
  {
    TotalWith(m, k, n);
    hide Total;
    assert m - {k} == m;
    assert m[k := n].Keys == m.Keys + {k};
  }

  lemma OneLess<T>(m: map<T, int>, k: T)
    requires k in m
    ensures |m - {k}| == |m| - 1 && Total(m - {k}) == Total(m) - m[k]
  {
    TotalWithout(m, k);
    hide Total;
    assert (m - {k}).Keys == m.Keys - {k};
  }

  lemma NotCounted(l: Ledger, g: Grant)
    requires Sorted(l) && g !in l.grants
    ensures g !in l.requests && g !in l.authentications && g !in l.bodies.Keys
  {
  }

  lemma SettleTallies(l: Ledger, g: Grant)
    requires Sorted(l) && g in l.grants
    ensures var b := Settle(l, g);
      && |b.requests| == |l.requests| - (if g.charge.Request? then 1 else 0)
      && |b.authentications| == |l.authentications| - (if g.charge.Authentication? then 1 else 0)
      && |b.bodies| == |l.bodies| - (if g.charge.Body? then 1 else 0)
      && Total(b.bodies) == Total(l.bodies) - (if g.charge.Body? then l.bodies[g] else 0)
      && (!g.charge.Tenant? ==> b.held == l.held) && (!g.charge.Body? ==> b.bodies == l.bodies)
  {
    hide Total;
    if g.charge.Body? {
      assert g in l.bodies.Keys;
      OneLess(l.bodies, g);
    }
  }

  /** Giving back what was just granted leaves the ledger as it was. */
  lemma SettleUndoesBook(l: Ledger, g: Grant, reserved: int)
    requires Sorted(l) && g !in l.grants && (g.charge.Tenant? ==> g.charge.slot in l.held)
    ensures Settle(Book(l, g, reserved), g) == l
  {
  }

  lemma SettleLives(l: Ledger, g: Grant)
    requires Sorted(l) && g in l.grants && Reserved(l.bodies)
    requires forall h :: h in l.grants && h != g ==> !h.released
    ensures Unreleased(Settle(l, g).grants) && Reserved(Settle(l, g).bodies)
    ensures g.charge.Body? ==> g in l.bodies && l.bodies[g] == g.reserved >= 0
  {
    if g.charge.Body? {
      assert g in l.bodies.Keys;
    }
  }

  lemma HeldInSlot(l: Ledger, g: Grant)
    requires Sorted(l) && g in l.grants && g.charge.Tenant?
    ensures g.charge.slot in l.held && g in l.held[g.charge.slot]
  {
  }

  ghost function Grants(held: Option<Grant>): set<Grant> {
    if held.Some? then {held.value} else {}
  }

  ghost function ChargedSlots(held: Option<Grant>): set<Slot> {
    if held.Some? && held.value.charge.Tenant? then {held.value.charge.slot} else {}
  }

  /** What one request may hold. */
  ghost function AllGrants(body: Option<Grant>, verified: Option<Grant>, auth: Option<Grant>,
                           request: Option<Grant>): set<Grant> {
    Grants(body) + Grants(verified) + (Grants(auth) + Grants(request))
  }

  ghost function AllSlots(body: Option<Grant>, verified: Option<Grant>, auth: Option<Grant>,
                          request: Option<Grant>): set<Slot> {
    ChargedSlots(body) + ChargedSlots(verified) + (ChargedSlots(auth) + ChargedSlots(request))
  }

  lemma BodiesAreBodies(l: Ledger, g: Grant)
    requires Sorted(l) && g in l.bodies
    ensures g.charge.Body?
  {
    assert g in l.bodies.Keys;
  }

  lemma GrowReservation(l: Ledger, g: Grant, bytes: int)
    requires Sorted(l) && g in l.bodies
    ensures var b := l.(bodies := l.bodies[g := l.bodies[g] + bytes]);
      Sorted(b) && |b.bodies| == |l.bodies| && Total(b.bodies) == Total(l.bodies) + bytes
  {
    TotalWith(l.bodies, g, l.bodies[g] + bytes);
    TotalWithout(l.bodies, g);
    assert l.bodies[g := l.bodies[g] + bytes].Keys == l.bodies.Keys;
  }

  ghost predicate SlotsCount(limits: Limits, held: map<Slot, set<Grant>>)
    reads held.Keys
  {
    forall s :: s in held ==> s.inFlight == |held[s]| <= limits.InFlight(s.kind)
  }

  lemma CredentialRefused(refusal: Option<Code>, shared: Window, sharedLimit: nat, own: Window, limit: nat)
    requires Decided(refusal, shared, sharedLimit, AuthenticationRateLimit, own, limit, CredentialRateLimit)
    ensures refusal != Some(AuthenticationBusy)
  {
  }

  lemma RefusedForRate(kind: Kind, refusal: Option<Code>, shared: Window, sharedLimit: nat, own: Window, limit: nat)
    requires Decided(refusal, shared, sharedLimit, VerifiedRateLimit, own, limit,
                     if kind == Account then AccountAdmissionLimit else CaptureAdmissionLimit)
    ensures refusal.Some? ==> refusal.value !in {AccountBusy, CaptureBusy}
  {
  }

  ghost predicate Unreleased(grants: set<Grant>)
    reads grants
  {
    forall g :: g in grants ==> !g.released
  }

  ghost predicate Reserved(bodies: map<Grant, int>)
    reads bodies.Keys
  {
    forall g :: g in bodies ==> 0 <= g.reserved == bodies[g]
  }

  /** The slots the admission object reaches. */
  ghost function Slots(tenants: map<string, Slot>, account: Slot, capture: Slot): set<Slot> {
    tenants.Values + {account, capture}
  }

  ghost predicate Distinct(tenants: map<string, Slot>, account: Slot, capture: Slot) {
    && account.kind == Account && capture.kind == Capture
    && (forall k :: k in tenants ==> tenants[k].kind == KindOf(k) && tenants[k] !in {account, capture})
    && (forall k, l :: k in tenants && l in tenants && tenants[k] == tenants[l] ==> k == l)
  }

  ghost function Opening(account: Slot, capture: Slot): (l: Ledger)
    ensures l.grants == {} && l.requests == {} && l.authentications == {} && l.bodies == map[]
    ensures l.held.Keys == {account, capture}
  {
    Ledger({}, {}, {}, map[account := {}, capture := {}], map[])
  }

  lemma OpeningBalances(limits: Limits, account: Slot, capture: Slot)
    requires account.kind == Account && capture.kind == Capture && account.inFlight == capture.inFlight == 0
    ensures var l := Opening(account, capture);
      && Sorted(l) && Unreleased(l.grants) && Reserved(l.bodies) && Total(l.bodies) == 0
      && l.held.Keys == Slots(map[], account, capture) && SlotsCount(limits, l.held)
      && Distinct(map[], account, capture)
  {
  }

  lemma ForgetSorts(l: Ledger, s: Slot)
    requires Sorted(l) && s in l.held && l.held[s] == {}
    ensures Sorted(l.(held := l.held - {s}))
  {
  }

  lemma CoverSorts(l: Ledger, s: Slot)
    requires Sorted(l) && s !in l.held
    ensures Sorted(l.(held := l.held[s := {}]))
  {
  }

  lemma CoverSlot(tenants: map<string, Slot>, key: string, s: Slot, account: Slot, capture: Slot)
    requires Distinct(tenants, account, capture) && key !in tenants && s !in Slots(tenants, account, capture)
    requires s.kind == KindOf(key)
    ensures Distinct(tenants[key := s], account, capture)
    ensures Slots(tenants[key := s], account, capture) == Slots(tenants, account, capture) + {s}
  {
    var grown := tenants[key := s];
    assert forall k :: k in tenants ==> tenants[k] in tenants.Values;
    assert forall t :: t in grown.Values <==> t in tenants.Values || t == s by {
      forall t | t in tenants.Values || t == s
        ensures t in grown.Values
      {
        if t == s {
          assert grown[key] == t;
        } else {
          var k :| k in tenants && tenants[k] == t;
          assert k in grown && grown[k] == t;
        }
      }
    }
  }

  lemma TenantSlot(tenants: map<string, Slot>, key: string, account: Slot, capture: Slot)
    requires key in tenants
    ensures tenants[key] in Slots(tenants, account, capture)
  {
  }

  lemma IdleSlot(limits: Limits, held: map<Slot, set<Grant>>, s: Slot)
    requires SlotsCount(limits, held) && s in held && s.inFlight == 0
    ensures held[s] == {} && SlotsCount(limits, held - {s})
  {
  }

  lemma SlotLoad(limits: Limits, held: map<Slot, set<Grant>>, s: Slot)
    requires SlotsCount(limits, held) && s in held
    ensures s.inFlight == |held[s]| <= limits.InFlight(s.kind)
  {
  }

  lemma RemoveSlot(tenants: map<string, Slot>, key: string, account: Slot, capture: Slot)
    requires Distinct(tenants, account, capture) && key in tenants
    ensures Distinct(tenants - {key}, account, capture)
    ensures Slots(tenants - {key}, account, capture) == Slots(tenants, account, capture) - {tenants[key]}
  {
    var rest := tenants - {key};
    assert forall s :: s in rest.Values <==> s in tenants.Values && s != tenants[key] by {
      forall s | s in tenants.Values && s != tenants[key]
        ensures s in rest.Values
      {
        var k :| k in tenants && tenants[k] == s;
        assert k in rest && rest[k] == s;
      }
    }
  }

  /** Every counter is the number of grants it stands for, within its limit, and the slots that count
      are the ones still reached. */
  ghost predicate Balanced(limits: Limits, account: Slot, capture: Slot, tenants: map<string, Slot>, ledger: Ledger,
                           requests: int, authentications: int, bodies: int, bodyBytes: int)
    reads ledger.grants, ledger.bodies.Keys, ledger.held.Keys
  {
    && limits.Positive()
    && Distinct(tenants, account, capture)
    && Sorted(ledger) && Unreleased(ledger.grants) && Reserved(ledger.bodies)
    && ledger.held.Keys == Slots(tenants, account, capture) && SlotsCount(limits, ledger.held)
    && requests == |ledger.requests| <= limits.requestsInFlight
    && authentications == |ledger.authentications| <= limits.authInFlight
    && bodies == |ledger.bodies| <= limits.bodiesInFlight
    && bodyBytes == Total(ledger.bodies) <= limits.bodyBytesInFlight
  }

  class ApiAdmission {
    const limits: Limits
    const accountOverflow: Slot
    const captureOverflow: Slot
    var publicWindow: Window
    var preauthWindow: Window
    var verifiedWindow: Window
    var credentialOverflow: Window
    var credentials: map<string, Window>
    var tenants: map<string, Slot>
    var requestsInFlight: int
    var authInFlight: int
    var bodiesInFlight: int
    var bodyBytesInFlight: int
    var credentialGeneration: int
    var tenantGeneration: int

    ghost var ledger: Ledger

    /** Every counter is the number of grants it stands for, within its limit, and the slots that
        count are the ones this object still reaches. */
    ghost predicate Valid()
      reads this, ledger.grants, ledger.bodies.Keys, ledger.held.Keys
    {
      Balanced(limits, accountOverflow, captureOverflow, tenants, ledger, requestsInFlight, authInFlight,
               bodiesInFlight, bodyBytesInFlight)
    }

    constructor (limits: Limits)
      requires limits.Positive()
      ensures Valid() && this.limits == limits && fresh(ledger.held.Keys) && ledger.grants == {}
      ensures CredentialGate() == Initial() && TenantGate() == Initial()
      ensures publicWindow == credentialOverflow == Window(0, 0)
      ensures accountOverflow.window == captureOverflow.window == Window(0, 0)
    {
      this.limits := limits;
      var account := new Slot(Account, 0);
      var capture := new Slot(Capture, 0);
      accountOverflow, captureOverflow := account, capture;
      publicWindow, preauthWindow := Window(0, 0), Window(0, 0);
      verifiedWindow, credentialOverflow := Window(0, 0), Window(0, 0);
      credentials, tenants := map[], map[];
      requestsInFlight, authInFlight, bodiesInFlight, bodyBytesInFlight := 0, 0, 0, 0;
      credentialGeneration, tenantGeneration := -1, -1;
      ledger := Opening(account, capture);
      new;
      OpeningBalances(limits, account, capture);
      hide Sorted, Distinct, Limits.Positive, Total, SlotsCount, Reserved, Slots, Unreleased;
    }

    /** The check of the constructor: limits that are not safe integers of at least one are refused. */
    static method Create(limits: Limits) returns (r: Option<ApiAdmission>)
      ensures r.Some? <==> forall i :: 0 <= i < 15 ==> 1 <= limits.Values()[i] <= MAX_SAFE
      ensures r.Some? ==> fresh(r.value) && r.value.Valid() && r.value.limits == limits && r.value.ledger.grants == {}
    {
      var values := limits.Values();
      for i := 0 to 15
        invariant forall j :: 0 <= j < i ==> 1 <= values[j] <= MAX_SAFE
      {
        if values[i] < 1 || values[i] > MAX_SAFE {
          return None;
        }
      }
      limits.PositiveExactly();
      hide Limits.Positive;
      var admission := new ApiAdmission(limits);
      r := Some(admission);
    }

    ghost function CredentialGate(): Gate
      reads this
    {
      Gate(credentialGeneration, preauthWindow, credentials)
    }

    ghost function TenantGate(): Gate
      reads this, tenants.Values
    {
      Gate(tenantGeneration, verifiedWindow, map k | k in tenants :: tenants[k].window)
    }

    /** The tenants whose slots a new generation leaves alone. */
    ghost function Occupied(): set<string>
      reads this, tenants.Values
    {
      set k | k in tenants && tenants[k].inFlight != 0
    }

    /** Wraps a charge in a release that acts once. */
    method ReleaseOnce(charge: Charge, reserved: int) returns (grant: Grant)
      requires Sorted(ledger) && Unreleased(ledger.grants) && Reserved(ledger.bodies) && 0 <= reserved
      requires charge.Tenant? ==> charge.slot in ledger.held
      modifies this`ledger
      ensures Sorted(ledger) && Unreleased(ledger.grants) && Reserved(ledger.bodies)
      ensures fresh(grant) && grant.charge == charge && ledger == Book(old(ledger), grant, reserved)
      ensures grant !in old(ledger.grants) && ledger.grants == old(ledger.grants) + {grant}
      ensures ledger.held.Keys == old(ledger.held.Keys)
      ensures |ledger.requests| == old(|ledger.requests|) + (if charge.Request? then 1 else 0)
      ensures |ledger.authentications| == old(|ledger.authentications|) + (if charge.Authentication? then 1 else 0)
      ensures |ledger.bodies| == old(|ledger.bodies|) + (if charge.Body? then 1 else 0)
      ensures Total(ledger.bodies) == old(Total(ledger.bodies)) + (if charge.Body? then reserved else 0)
      ensures !charge.Tenant? ==> ledger.held == old(ledger.held)
      ensures !charge.Body? ==> ledger.bodies == old(ledger.bodies)
      ensures charge.Tenant? ==> ledger.held == old(ledger.held)[charge.slot := old(ledger.held)[charge.slot] + {grant}]
    {
      hide Sorted, Unreleased, Reserved, Total, Book;
      grant := new Grant(charge, reserved);
      BookSorts(ledger, grant, reserved);
      BookTallies(ledger, grant, reserved);
      BookLives(ledger, grant, reserved);
      ledger := Book(ledger, grant, reserved);
    }

    method EnterRequest() returns (r: Result<Grant, Code>)
      requires Valid()
      modifies this`requestsInFlight, this`ledger
      ensures Valid()
      ensures r.Ok? <==> old(requestsInFlight) < limits.requestsInFlight
      ensures r.Ok? ==> fresh(r.value) && r.value.charge == Request && ledger == Book(old(ledger), r.value, 0)
      ensures r.Err? ==> r.error == ServerBusy && unchanged(this)
    {
      hide Sorted, Distinct, Limits.Positive, Total, SlotsCount, Reserved, Unreleased, Slots, Book;
      if requestsInFlight >= limits.requestsInFlight {
        return Err(ServerBusy);
      }
      requestsInFlight := requestsInFlight + 1;
      var grant := ReleaseOnce(Request, 0);
      r := Ok(grant);
    }

    method Public(now: int) returns (refusal: Option<Code>)
      requires Valid()
      modifies this`publicWindow
      ensures Valid()
      ensures (publicWindow, refusal)
           == Spend(old(publicWindow), limits.publicRequests, PublicRateLimit, now, limits.windowMs)
      ensures match refusal
              case None => 1 <= publicWindow.requests <= limits.publicRequests
              case Some(code) =>
                code == InvalidClock || (code == PublicRateLimit && publicWindow.requests >= limits.publicRequests)
    {
      SpendDecides(publicWindow, limits.publicRequests, PublicRateLimit, now, limits.windowMs);
      hide Sorted, Distinct, Limits.Positive, Spend, Total, SlotsCount, Unreleased, Reserved, Slots;
      var (window, code) := Spend(publicWindow, limits.publicRequests, PublicRateLimit, now, limits.windowMs);
      publicWindow, refusal := window, code;
    }

    /** Everything in `enterAuthentication` before its in-flight check, step by step. */
    method AuthenticationSteps(fingerprint: string, r: Readings) returns (refusal: Option<Code>)
      requires limits.windowMs > 0
      modifies this`preauthWindow, this`credentialGeneration, this`credentials, this`credentialOverflow
      ensures Entry(CredentialGate(), credentialOverflow, refusal)
           == Enter(old(CredentialGate()), old(credentialOverflow), limits.Authentication(), fingerprint, {}, r)
    {
      hide Spend;
      if !Usable(r.check) {
        return Some(InvalidClock);
      }
      var generation := r.check / limits.windowMs;
      if generation != credentialGeneration {
        credentialGeneration, credentials := generation, map[];
        if !Usable(r.reset) {
          return Some(InvalidClock);
        }
        credentialOverflow := Window(r.reset, 0);
      }
      var (preauth, early) :=
        Spend(preauthWindow, limits.preauthRequests, AuthenticationRateLimit, r.shared, limits.windowMs);
      preauthWindow := preauth;
      if early.Some? {
        return early;
      }
      if fingerprint !in credentials && |credentials| < limits.credentialKeys {
        if !Usable(r.made) {
          return Some(InvalidClock);
        }
        credentials := credentials[fingerprint := Window(r.made, 0)];
      }
      if fingerprint in credentials {
        var (own, code) :=
          Spend(credentials[fingerprint], limits.credentialRequests, CredentialRateLimit, r.tried, limits.windowMs);
        credentials, refusal := credentials[fingerprint := own], code;
      } else {
        var (overflow, code) :=
          Spend(credentialOverflow, limits.credentialRequests, CredentialRateLimit, r.tried, limits.windowMs);
        credentialOverflow, refusal := overflow, code;
      }
    }

    method ValidAuthentication(fingerprint: string, r: Readings) returns (refusal: Option<Code>)
      requires Valid()
      modifies this`preauthWindow, this`credentialGeneration, this`credentials, this`credentialOverflow
      ensures Valid()
      ensures Entry(CredentialGate(), credentialOverflow, refusal)
           == Enter(old(CredentialGate()), old(credentialOverflow), limits.Authentication(), fingerprint, {}, r)
    {
      assert limits.windowMs > 0 by { PositiveLimits(); }
      hide Balanced, Enter;
      refusal := AuthenticationSteps(fingerprint, r);
    }

    /** The rate decision of `enterAuthentication`, and what it comes to. */
    method RateAuthentication(fingerprint: string, r: Readings) returns (refusal: Option<Code>)
      requires Valid()
      modifies this`preauthWindow, this`credentialGeneration, this`credentials, this`credentialOverflow
      ensures Valid()
      ensures Entry(CredentialGate(), credentialOverflow, refusal)
           == Enter(old(CredentialGate()), old(credentialOverflow), limits.Authentication(), fingerprint, {}, r)
      ensures Decided(refusal, preauthWindow, limits.preauthRequests, AuthenticationRateLimit,
                      if fingerprint in credentials then credentials[fingerprint] else credentialOverflow,
                      limits.credentialRequests, CredentialRateLimit)
      ensures |credentials| <= old(|credentials|) || |credentials| <= limits.credentialKeys
      ensures refusal == None && fingerprint !in credentials ==> |credentials| >= limits.credentialKeys
      ensures refusal != Some(AuthenticationBusy)
    {
      assert limits.windowMs > 0 by { PositiveLimits(); }
      hide Valid, Enter, Decided;
      EntryDecides(CredentialGate(), credentialOverflow, limits.Authentication(), fingerprint, {}, r);
      refusal := ValidAuthentication(fingerprint, r);
      CredentialRefused(refusal, preauthWindow, limits.preauthRequests,
                        if fingerprint in credentials then credentials[fingerprint] else credentialOverflow,
                        limits.credentialRequests);
    }

    /** The in-flight check of `enterAuthentication`. */
    method EnterCredential() returns (result: Result<Grant, Code>)
      requires Valid()
      modifies this`authInFlight, this`ledger
      ensures Valid()
      ensures if old(authInFlight) < limits.authInFlight then result.Ok? else result == Err(AuthenticationBusy)
      ensures result.Ok? ==>
                && fresh(result.value) && result.value.charge == Authentication
                && ledger == Book(old(ledger), result.value, 0) && authInFlight == old(authInFlight) + 1
      ensures result.Err? ==> ledger == old(ledger) && authInFlight == old(authInFlight)
    {
      hide Sorted, Distinct, Limits.Positive, Total, SlotsCount, Reserved, Unreleased, Slots, Book;
      if authInFlight >= limits.authInFlight {
        return Err(AuthenticationBusy);
      }
      authInFlight := authInFlight + 1;
      var grant := ReleaseOnce(Authentication, 0);
      result := Ok(grant);
    }

    /** `fingerprint` is the hash of the presented token. */
    method EnterAuthentication(fingerprint: string, r: Readings) returns (result: Result<Grant, Code>)
      requires Valid()
      modifies this`preauthWindow, this`credentialGeneration, this`credentials, this`credentialOverflow,
               this`authInFlight, this`ledger
      ensures Valid()
      ensures var e :=
          Enter(old(CredentialGate()), old(credentialOverflow), limits.Authentication(), fingerprint, {}, r);
        && CredentialGate() == e.gate && credentialOverflow == e.overflow
        && match e.refusal
           case Some(code) => result == Err(code)
           case None =>
             if old(authInFlight) < limits.authInFlight then result.Ok? else result == Err(AuthenticationBusy)
      ensures var refusal :=
          if result.Err? && result.error != AuthenticationBusy then Some(result.error) else None;
        Decided(refusal, preauthWindow, limits.preauthRequests, AuthenticationRateLimit,
              if fingerprint in credentials then credentials[fingerprint] else credentialOverflow,
              limits.credentialRequests, CredentialRateLimit)
      ensures |credentials| <= old(|credentials|) || |credentials| <= limits.credentialKeys
      ensures result.Ok? && fingerprint !in credentials ==> |credentials| >= limits.credentialKeys
      ensures result.Ok? ==>
                && fresh(result.value) && result.value.charge == Authentication
                && ledger == Book(old(ledger), result.value, 0) && authInFlight == old(authInFlight) + 1
      ensures result.Err? ==> ledger == old(ledger) && authInFlight == old(authInFlight)
    {
      hide Valid, Enter, Book, Decided;
      var refusal := RateAuthentication(fingerprint, r);
      if refusal.Some? {
        return Err(refusal.value);
      }
      result := EnterCredential();
    }

    method OpenBody(contentLength: Option<string>, requestLimit: int) returns (result: Result<Grant, Code>)
      requires Valid()
      modifies this`bodiesInFlight, this`bodyBytesInFlight, this`ledger
      ensures Valid()
      ensures var declared := Declared(contentLength);
        && (result.Ok? <==>
              && 1 <= requestLimit <= MAX_SAFE && declared.Ok? && declared.value <= requestLimit
              && old(bodiesInFlight) < limits.bodiesInFlight
              && old(bodyBytesInFlight) + declared.value <= limits.bodyBytesInFlight)
        && (result == Err(InvalidContentLength) <==> 1 <= requestLimit <= MAX_SAFE && declared.Err?)
        && (result == Err(RequestTooLarge) <==>
              1 <= requestLimit <= MAX_SAFE && declared.Ok? && declared.value > requestLimit)
        && (result.Ok? ==>
              && fresh(result.value) && result.value.charge == Body(declared.value, requestLimit)
              && ledger == Book(old(ledger), result.value, declared.value))
      ensures result.Err? ==> unchanged(this)
    {
      hide Sorted, Distinct, Limits.Positive, Total, SlotsCount, Reserved, Unreleased, Slots, Book, Value, AllDigits;
      if requestLimit < 1 || requestLimit > MAX_SAFE {
        return Err(InvalidBodyLimit);
      }
      var length := Declared(contentLength);
      if length.Err? {
        return Err(length.error);
      }
      var declared := length.value;
      if declared > requestLimit {
        return Err(RequestTooLarge);
      }
      if bodiesInFlight >= limits.bodiesInFlight || bodyBytesInFlight + declared > limits.bodyBytesInFlight {
        return Err(BodyAdmissionBusy);
      }
      bodiesInFlight, bodyBytesInFlight := bodiesInFlight + 1, bodyBytesInFlight + declared;
      var grant := ReleaseOnce(Body(declared, requestLimit), declared);
      result := Ok(grant);
    }

    /** Charges a chunk of a body whose length was not declared. */
    method Add(grant: Grant, bytes: int) returns (refusal: Option<Code>)
      requires Valid() && grant in ledger.bodies
      modifies this`bodyBytesInFlight, this`ledger, grant`reserved
      ensures Valid()
      ensures var counted := grant.charge.declared == 0;
        && (refusal == None <==>
              && 0 <= bytes <= MAX_SAFE
              && (counted ==> old(grant.reserved) + bytes <= grant.charge.requestLimit)
              && (counted ==> old(bodyBytesInFlight) + bytes <= limits.bodyBytesInFlight))
        && (refusal == Some(RequestTooLarge) <==>
              0 <= bytes <= MAX_SAFE && counted && old(grant.reserved) + bytes > grant.charge.requestLimit)
        && ledger == (if refusal == None && counted
                      then old(ledger).(bodies := old(ledger.bodies)[grant := old(grant.reserved) + bytes])
                      else old(ledger))
    {
      assert grant.charge.Body? by { BodiesAreBodies(ledger, grant); }
      hide Valid;
      if bytes < 0 || bytes > MAX_SAFE {
        return Some(InvalidBodySize);
      }
      if grant.charge.declared == 0 {
        if grant.reserved + bytes > grant.charge.requestLimit {
          return Some(RequestTooLarge);
        }
        if bodyBytesInFlight + bytes > limits.bodyBytesInFlight {
          return Some(BodyAdmissionBusy);
        }
        Reserve(grant, bytes);
      }
      refusal := None;
    }

    method Reserve(grant: Grant, bytes: int)
      requires Valid() && grant in ledger.bodies && bytes >= 0
      requires bodyBytesInFlight + bytes <= limits.bodyBytesInFlight
      modifies this`bodyBytesInFlight, this`ledger, grant`reserved
      ensures Valid()
      ensures ledger == old(ledger).(bodies := old(ledger.bodies)[grant := old(grant.reserved) + bytes])
    {
      hide Sorted, Distinct, Limits.Positive, Total, SlotsCount, Slots;
      GrowReservation(ledger, grant, bytes);
      grant.reserved := grant.reserved + bytes;
      bodyBytesInFlight := bodyBytesInFlight + bytes;
      ledger := ledger.(bodies := ledger.bodies[grant := grant.reserved]);
    }

    /** Takes a grant off the ledger. */
    ghost method Strike(grant: Grant)
      requires Sorted(ledger) && grant in ledger.grants && Reserved(ledger.bodies)
      requires forall g :: g in ledger.grants && g != grant ==> !g.released
      modifies this`ledger
      ensures ledger == Settle(old(ledger), grant) && ledger.grants == old(ledger.grants) - {grant}
      ensures Sorted(ledger) && Unreleased(ledger.grants) && Reserved(ledger.bodies)
      ensures ledger.held.Keys == old(ledger.held.Keys)
      ensures |ledger.requests| == old(|ledger.requests|) - (if grant.charge.Request? then 1 else 0)
      ensures |ledger.authentications|
           == old(|ledger.authentications|) - (if grant.charge.Authentication? then 1 else 0)
      ensures |ledger.bodies| == old(|ledger.bodies|) - (if grant.charge.Body? then 1 else 0)
      ensures Total(ledger.bodies) == old(Total(ledger.bodies)) - (if grant.charge.Body? then grant.reserved else 0)
      ensures !grant.charge.Tenant? ==> ledger.held == old(ledger.held)
      ensures grant.charge.Body? ==> 0 <= grant.reserved
    {
      hide Sorted, Unreleased, Reserved, Total, Settle;
      SettleSorts(ledger, grant);
      SettleTallies(ledger, grant);
      SettleLives(ledger, grant);
      if grant.charge.Tenant? {
        HeldInSlot(ledger, grant);
      }
      ledger := Settle(ledger, grant);
    }

    /** The release a call handed back. It acts the first time only. */
    method Release(grant: Grant)
      requires Valid() && (grant in ledger.grants || grant.released)
      modifies this`requestsInFlight, this`authInFlight, this`bodiesInFlight, this`bodyBytesInFlight, this`ledger,
               grant`released, (if grant.charge.Tenant? then {grant.charge.slot} else {})`inFlight
      ensures Valid() && grant.released
      ensures old(grant.released) ==> ledger == old(ledger)
      ensures !old(grant.released) ==> ledger == Settle(old(ledger), grant)
      ensures ledger.grants == old(ledger.grants) - {grant}
    {
      hide Valid, Settle;
      if grant.released {
        ReleasedIsOff(grant);
        return;
      }
      GiveBack(grant);
    }

    lemma ReleasedIsOff(grant: Grant)
      requires Valid() && grant.released
      ensures grant !in ledger.grants
    {
    }

    method GiveBack(grant: Grant)
      requires Valid() && grant in ledger.grants
      modifies this`requestsInFlight, this`authInFlight, this`bodiesInFlight, this`bodyBytesInFlight, this`ledger,
               grant`released, (if grant.charge.Tenant? then {grant.charge.slot} else {})`inFlight
      ensures Valid() && grant.released
      ensures ledger == Settle(old(ledger), grant) && ledger.grants == old(ledger.grants) - {grant}
    {
      hide Valid, Settle;
      if grant.charge.Tenant? {
        GiveBackSlot(grant);
      } else if grant.charge.Body? {
        GiveBackBody(grant);
      } else {
        GiveBackCount(grant);
      }
    }

    method GiveBackSlot(grant: Grant)
      requires Valid() && grant in ledger.grants && grant.charge.Tenant?
      modifies this`ledger, grant`released, grant.charge.slot`inFlight
      ensures Valid() && grant.released
      ensures ledger == Settle(old(ledger), grant) && ledger.grants == old(ledger.grants) - {grant}
    {
      hide Sorted, Distinct, Limits.Positive, Total, Slots, Settle, SlotsCount;
      grant.released := true;
      hide Reserved;
      ReleaseSlot(grant);
    }

    method GiveBackBody(grant: Grant)
      requires Valid() && grant in ledger.grants && grant.charge.Body?
      modifies this`bodiesInFlight, this`bodyBytesInFlight, this`ledger, grant`released
      ensures Valid() && grant.released
      ensures ledger == Settle(old(ledger), grant) && ledger.grants == old(ledger.grants) - {grant}
    {
      hide Sorted, Distinct, Limits.Positive, Total, Slots, Settle, SlotsCount;
      grant.released := true;
      hide Reserved;
      bodiesInFlight, bodyBytesInFlight := bodiesInFlight - 1, bodyBytesInFlight - grant.reserved;
      Strike(grant);
    }

    method GiveBackCount(grant: Grant)
      requires Valid() && grant in ledger.grants && (grant.charge.Request? || grant.charge.Authentication?)
      modifies this`requestsInFlight, this`authInFlight, this`ledger, grant`released
      ensures Valid() && grant.released
      ensures ledger == Settle(old(ledger), grant) && ledger.grants == old(ledger.grants) - {grant}
    {
      hide Sorted, Distinct, Limits.Positive, Total, Slots, Settle, SlotsCount;
      grant.released := true;
      hide Reserved;
      if grant.charge.Request? {
        requestsInFlight := requestsInFlight - 1;
      } else {
        authInFlight := authInFlight - 1;
      }
      Strike(grant);
    }

    method ReleaseSlot(grant: Grant)
      requires grant.charge.Tenant? && grant in ledger.grants
      requires Sorted(ledger) && Reserved(ledger.bodies) && SlotsCount(limits, ledger.held)
      requires forall g :: g in ledger.grants && g != grant ==> !g.released
      modifies this`ledger, grant.charge.slot`inFlight
      ensures ledger == Settle(old(ledger), grant) && ledger.grants == old(ledger.grants) - {grant}
      ensures SlotsCount(limits, ledger.held)
      ensures Sorted(ledger) && Unreleased(ledger.grants) && Reserved(ledger.bodies)
      ensures ledger.held.Keys == old(ledger.held.Keys)
      ensures ledger.requests == old(ledger.requests) && ledger.authentications == old(ledger.authentications)
      ensures ledger.bodies == old(ledger.bodies)
    {
      hide Sorted, Reserved, Unreleased, Total;
      var slot := grant.charge.slot;
      HeldInSlot(ledger, grant);
      slot.inFlight := slot.inFlight - 1;
      Strike(grant);
    }

    /** Forgets a tenant that has nothing in flight. */
    method Forget(key: string)
      requires Valid() && key in tenants && tenants[key].inFlight == 0
      modifies this`tenants, this`ledger
      ensures Valid() && tenants == old(tenants) - {key}
      ensures ledger == old(ledger).(held := ledger.held)
    {
      hide Sorted, Limits.Positive, Total, Reserved, Unreleased, Distinct, Slots, SlotsCount;
      var slot := tenants[key];
      TenantSlot(tenants, key, accountOverflow, captureOverflow);
      IdleSlot(limits, ledger.held, slot);
      ForgetSorts(ledger, slot);
      RemoveSlot(tenants, key, accountOverflow, captureOverflow);
      tenants := tenants - {key};
      ledger := ledger.(held := ledger.held - {slot});
    }

    /** A new generation forgets every tenant that has nothing in flight. */
    method Reclaim()
      requires Valid()
      modifies this`tenants, this`ledger
      ensures Valid()
      ensures tenants == map k | k in old(tenants) && old(tenants[k].inFlight) != 0 :: old(tenants[k])
      ensures ledger == old(ledger).(held := ledger.held)
    {
      hide Valid;
      var items := tenants;
      var pending := items.Keys;
      while pending != {}
        invariant pending <= items.Keys
        invariant Valid()
        invariant tenants == map k | k in items && (k in pending || items[k].inFlight != 0) :: items[k]
        invariant ledger == old(ledger).(held := ledger.held)
        decreases pending
      {
        var key :| key in pending;
        if items[key].inFlight == 0 {
          Forget(key);
        }
        pending := pending - {key};
      }
    }

    function Overflow(kind: Kind): Slot {
      if kind == Account then accountOverflow else captureOverflow
    }

    /** The entry a tenant's call works on, its overflow window included. */
    ghost function TenantEntry(kind: Kind, refusal: Option<Code>): Entry
      reads this, tenants.Values, Overflow(kind)
    {
      Entry(TenantGate(), Overflow(kind).window, refusal)
    }

    method VerifiedGeneration(kind: Kind, r: Readings) returns (refusal: Option<Code>)
      requires Valid()
      modifies this`tenantGeneration, this`tenants, this`ledger
      ensures Valid() && ledger == old(ledger).(held := ledger.held)
      ensures TenantEntry(kind, refusal)
           == EnterGeneration(old(TenantEntry(kind, None)), limits.Verified(kind), old(Occupied()), r)
      ensures forall k :: k in tenants ==> k in old(tenants) && tenants[k] == old(tenants[k])
      ensures forall k :: k in old(tenants) && k !in tenants ==> old(tenants[k].inFlight) == 0
    {
      hide Valid;
      if !Usable(r.check) {
        return Some(InvalidClock);
      }
      assert limits.windowMs > 0 by { PositiveLimits(); }
      var generation := r.check / limits.windowMs;
      if generation != tenantGeneration {
        SetGeneration(generation);
        Reclaim();
      }
      refusal := None;
    }

    lemma PositiveLimits()
      requires Valid()
      ensures limits.windowMs > 0
    {
    }

    method SetGeneration(generation: int)
      requires Valid()
      modifies this`tenantGeneration
      ensures Valid() && tenantGeneration == generation
    {
      hide Sorted, Distinct, Limits.Positive, Total, Slots, SlotsCount, Reserved, Unreleased;
      tenantGeneration := generation;
    }

    method SpendVerified(kind: Kind, r: Readings) returns (refusal: Option<Code>)
      requires Valid()
      modifies this`verifiedWindow
      ensures Valid()
      ensures TenantEntry(kind, refusal) == SpendShared(old(TenantEntry(kind, None)), limits.Verified(kind), r)
    {
      hide Sorted, Distinct, Limits.Positive, Total, Slots, SlotsCount, Reserved, Unreleased, Spend;
      var (window, code) :=
        Spend(verifiedWindow, limits.verifiedRequests, VerifiedRateLimit, r.shared, limits.windowMs);
      verifiedWindow, refusal := window, code;
    }

    method FindOrCreateSlot(kind: Kind, key: string, r: Readings) returns (refusal: Option<Code>)
      requires Valid() && KindOf(key) == kind
      modifies this`tenants, this`ledger
      ensures Valid() && ledger == old(ledger).(held := ledger.held)
      ensures TenantEntry(kind, refusal) == FindOrCreate(old(TenantEntry(kind, None)), limits.Verified(kind), key, r)
      ensures tenants == old(tenants) || (key !in old(tenants) && tenants.Keys == old(tenants).Keys + {key}
                && tenants == old(tenants)[key := tenants[key]] && fresh(tenants[key]) && tenants[key].inFlight == 0)
    {
      hide Valid;
      assert TenantGate().windows.Keys == tenants.Keys;
      if key in tenants || |tenants| >= limits.tenantKeys {
        return None;
      }
      if !Usable(r.made) {
        return Some(InvalidClock);
      }
      AddSlot(kind, key, r.made);
      refusal := None;
    }

    method AddSlot(kind: Kind, key: string, start: int)
      requires Valid() && KindOf(key) == kind && key !in tenants
      modifies this`tenants, this`ledger
      ensures Valid() && ledger == old(ledger).(held := ledger.held)
      ensures key in tenants && tenants == old(tenants)[key := tenants[key]] && fresh(tenants[key])
      ensures tenants[key].inFlight == 0 && tenants[key].window == Window(start, 0)
    {
      hide Sorted, Limits.Positive, Total, Reserved, Unreleased, Distinct, Slots;
      var slot := new Slot(kind, start);
      CoverSorts(ledger, slot);
      CoverSlot(tenants, key, slot, accountOverflow, captureOverflow);
      tenants := tenants[key := slot];
      ledger := ledger.(held := ledger.held[slot := {}]);
    }

    /** The slot a tenant's call charges: its own, or the overflow slot of its kind. */
    function Charged(kind: Kind, key: string): Slot
      reads this
    {
      if key in tenants then tenants[key] else Overflow(kind)
    }

    method SpendSlot(kind: Kind, key: string, r: Readings) returns (refusal: Option<Code>)
      requires Valid()
      modifies Charged(kind, key)`window
      ensures Valid()
      ensures TenantEntry(kind, refusal) == SpendOwn(old(TenantEntry(kind, None)), limits.Verified(kind), key, r)
    {
      hide Sorted, Limits.Positive, Total, Reserved, Unreleased, Slots, Spend, SlotsCount;
      var slot, rules := Charged(kind, key), limits.Verified(kind);
      var (window, code) := Spend(slot.window, rules.limit, rules.ownCode, r.tried, rules.ms);
      SetWindow(slot, window);
      refusal := code;
    }

    method SetWindow(slot: Slot, window: Window)
      requires Valid()
      modifies slot`window
      ensures Valid() && slot.window == window
    {
      hide Sorted, Limits.Positive, Total, Reserved, Unreleased, Slots, Distinct;
      slot.window := window;
    }

    /** Everything in `enterVerified` before its in-flight check, step by step. */
    method VerifiedSteps(kind: Kind, key: string, r: Readings) returns (refusal: Option<Code>)
      requires Valid() && KindOf(key) == kind
      modifies this`tenantGeneration, this`tenants, this`verifiedWindow, this`ledger,
               Charged(kind, key)`window, Overflow(kind)`window
      ensures Valid() && ledger == old(ledger).(held := ledger.held)
      ensures TenantEntry(kind, refusal)
           == Enter(old(TenantGate()), old(Overflow(kind).window), limits.Verified(kind), key, old(Occupied()), r)
      ensures forall k :: k in tenants ==> (k in old(tenants) && tenants[k] == old(tenants[k])) || fresh(tenants[k])
    {
      hide Valid, EnterGeneration, SpendShared, FindOrCreate, SpendOwn;
      assert limits.windowMs > 0 by { PositiveLimits(); }
      refusal := VerifiedGeneration(kind, r);
      if refusal.Some? {
        return;
      }
      refusal := SpendVerified(kind, r);
      if refusal.Some? {
        return;
      }
      refusal := FindOrCreateSlot(kind, key, r);
      if refusal.Some? {
        return;
      }
      refusal := SpendSlot(kind, key, r);
    }

    lemma EntryOf(kind: Kind, key: string, refusal: Option<Code>)
      ensures var e := TenantEntry(kind, refusal);
        && e.refusal == refusal && e.gate.shared == verifiedWindow
        && |e.gate.windows| == |tenants| && (key in e.gate.windows <==> key in tenants)
        && Charged(kind, key).window == if key in e.gate.windows then e.gate.windows[key] else e.overflow
    {
      assert TenantGate().windows.Keys == tenants.Keys;
    }

    /** The rate decision of `enterVerified`, and what it comes to: an admitted call is within the
        limit of its kind in the window it was charged to and within the limit all tenants share,
        and a refused one found one of the two used up. */
    method RateVerified(kind: Kind, key: string, r: Readings) returns (refusal: Option<Code>)
      requires Valid() && KindOf(key) == kind
      modifies this`tenantGeneration, this`tenants, this`verifiedWindow, this`ledger,
               Charged(kind, key)`window, Overflow(kind)`window
      ensures Valid() && ledger == old(ledger).(held := ledger.held)
      ensures TenantEntry(kind, refusal)
           == Enter(old(TenantGate()), old(Overflow(kind).window), limits.Verified(kind), key, old(Occupied()), r)
      ensures Decided(refusal, verifiedWindow, limits.verifiedRequests, VerifiedRateLimit, Charged(kind, key).window,
                      if kind == Account then limits.accountRequests else limits.captureRequests,
                      if kind == Account then AccountAdmissionLimit else CaptureAdmissionLimit)
      ensures |tenants| <= old(|tenants|) || |tenants| <= limits.tenantKeys
      ensures refusal == None && key !in tenants ==> |tenants| >= limits.tenantKeys
      ensures refusal.Some? ==> refusal.value !in {AccountBusy, CaptureBusy}
      ensures forall k :: k in tenants ==> (k in old(tenants) && tenants[k] == old(tenants[k])) || fresh(tenants[k])
    {
      assert limits.windowMs > 0 by { PositiveLimits(); }
      hide Valid, Enter, TenantEntry, Decided;
      EntryOf(kind, key, None);
      var g, overflow, spared := TenantGate(), Overflow(kind).window, Occupied();
      EntryDecides(g, overflow, limits.Verified(kind), key, spared, r);
      refusal := VerifiedSteps(kind, key, r);
      EntryOf(kind, key, refusal);
      RefusedForRate(kind, refusal, verifiedWindow, limits.verifiedRequests, Charged(kind, key).window,
                     if kind == Account then limits.accountRequests else limits.captureRequests);
    }

    method ChargeSlot(slot: Slot) returns (grant: Grant)
      requires Sorted(ledger) && Unreleased(ledger.grants) && Reserved(ledger.bodies) && SlotsCount(limits, ledger.held)
      requires slot in ledger.held && slot.inFlight < limits.InFlight(slot.kind)
      modifies this`ledger, slot`inFlight
      ensures Sorted(ledger) && Unreleased(ledger.grants) && Reserved(ledger.bodies) && SlotsCount(limits, ledger.held)
      ensures fresh(grant) && grant.charge == Tenant(slot) && ledger == Book(old(ledger), grant, 0)
      ensures slot.inFlight == old(slot.inFlight) + 1
      ensures ledger.grants == old(ledger.grants) + {grant} && ledger.held.Keys == old(ledger.held.Keys)
      ensures ledger.requests == old(ledger.requests) && ledger.authentications == old(ledger.authentications)
      ensures ledger.bodies == old(ledger.bodies)
    {
      hide Sorted, Reserved, Unreleased, Total;
      slot.inFlight := slot.inFlight + 1;
      grant := ReleaseOnce(Tenant(slot), 0);
    }

    method EnterSlot(slot: Slot, kind: Kind) returns (result: Result<Grant, Code>)
      requires Valid() && slot in ledger.held && slot.kind == kind
      modifies this`ledger, slot`inFlight
      ensures Valid() && ledger.bodies == old(ledger.bodies)
      ensures result.Ok? <==> old(slot.inFlight) < limits.InFlight(kind)
      ensures result.Ok? ==>
                && fresh(result.value) && result.value.charge == Tenant(slot)
                && ledger.grants == old(ledger.grants) + {result.value} && slot.inFlight <= limits.InFlight(kind)
      ensures result.Err? ==>
                && result.error == (if kind == Account then AccountBusy else CaptureBusy)
                && ledger == old(ledger) && slot.inFlight == limits.InFlight(kind)
    {
      hide Sorted, Limits.Positive, Total, Reserved, Unreleased, Distinct, Slots, SlotsCount, Book;
      SlotLoad(limits, ledger.held, slot);
      if slot.inFlight >= limits.InFlight(kind) {
        return Err(if kind == Account then AccountBusy else CaptureBusy);
      }
      var grant := ChargeSlot(slot);
      result := Ok(grant);
    }

    lemma ChargedSlot(kind: Kind, key: string)
      requires Valid() && KindOf(key) == kind
      ensures Charged(kind, key) in ledger.held && Charged(kind, key).kind == kind
    {
    }

    /** The in-flight check of `enterVerified`: it leaves every window alone. */
    method EnterCharged(kind: Kind, key: string) returns (result: Result<Grant, Code>)
      requires Valid() && KindOf(key) == kind
      modifies this`ledger, Charged(kind, key)`inFlight
      ensures Valid() && ledger.bodies == old(ledger.bodies)
      ensures forall code :: TenantEntry(kind, code) == old(TenantEntry(kind, code))
      ensures var load := Charged(kind, key).inFlight;
        match result
        case Ok(grant) =>
          && fresh(grant) && grant.charge == Tenant(Charged(kind, key))
          && ledger.grants == old(ledger.grants) + {grant}
          && load <= if kind == Account then limits.accountInFlight else limits.captureInFlight
        case Err(code) =>
          && ledger.grants == old(ledger.grants)
          && if kind == Account then code == AccountBusy && load == limits.accountInFlight
             else code == CaptureBusy && load == limits.captureInFlight
    {
      hide Valid;
      ChargedSlot(kind, key);
      result := EnterSlot(Charged(kind, key), kind);
      assert TenantGate() == old(TenantGate());
    }

    method EnterVerified(kind: Kind, tenant: string, r: Readings) returns (result: Result<Grant, Code>)
      requires Valid()
      modifies this`tenantGeneration, this`tenants, this`verifiedWindow, this`ledger,
               Charged(kind, Key(kind, tenant)), Overflow(kind)
      ensures Valid()
      ensures tenant == "" ==> result == Err(InvalidVerifiedTenant) && unchanged(this)
      ensures tenant != "" ==>
                var e := Enter(old(TenantGate()), old(Overflow(kind).window), limits.Verified(kind), Key(kind, tenant),
                               old(Occupied()), r);
                && TenantEntry(kind, e.refusal) == e
                && match e.refusal
                   case Some(code) => result == Err(code)
                   case None =>
                     result.Ok? || result == Err(if kind == Account then AccountBusy else CaptureBusy)
      ensures tenant != "" ==>
                var refusal := if result.Ok? || result.error in {AccountBusy, CaptureBusy} then None
                               else Some(result.error);
                Decided(refusal, verifiedWindow, limits.verifiedRequests, VerifiedRateLimit,
                        Charged(kind, Key(kind, tenant)).window,
                        if kind == Account then limits.accountRequests else limits.captureRequests,
                        if kind == Account then AccountAdmissionLimit else CaptureAdmissionLimit)
      ensures tenant != "" ==>
                var load := Charged(kind, Key(kind, tenant)).inFlight;
                match result
                case Ok(_) => load <= if kind == Account then limits.accountInFlight else limits.captureInFlight
                case Err(AccountBusy) => kind == Account && load == limits.accountInFlight
                case Err(CaptureBusy) => kind == Capture && load == limits.captureInFlight
                case Err(_) => true
      ensures |tenants| <= old(|tenants|) || |tenants| <= limits.tenantKeys
      ensures result.Ok? && Key(kind, tenant) !in tenants ==> |tenants| >= limits.tenantKeys
      ensures result.Ok? ==>
                && fresh(result.value) && result.value.charge == Tenant(Charged(kind, Key(kind, tenant)))
                && ledger.grants == old(ledger.grants) + {result.value}
      ensures result.Err? ==> ledger.grants == old(ledger.grants)
      ensures ledger.bodies == old(ledger.bodies)
    {
      hide Valid, Enter, Decided, TenantEntry, TenantGate;
      if tenant == "" {
        return Err(InvalidVerifiedTenant);
      }
      var key := Key(kind, tenant);
      KeyHasKind(kind, tenant);
      hide Key, KindOf;
      var refusal := RateVerified(kind, key, r);
      EntryOf(kind, key, refusal);
      if refusal.Some? {
        return Err(refusal.value);
      }
      result := EnterCharged(kind, key);
    }

    // ----- One request -----

    method ReleaseAny(held: Option<Grant>)
      requires Valid() && (held.Some? ==> held.value in ledger.grants || held.value.released)
      modifies this`requestsInFlight, this`authInFlight, this`bodiesInFlight, this`bodyBytesInFlight, this`ledger,
               Grants(held)`released, ChargedSlots(held)`inFlight
      ensures Valid() && ledger.grants == old(ledger.grants) - Grants(held)
      ensures forall g :: g in Grants(held) ==> g.released
    {
      hide Valid, Settle;
      if held.Some? {
        Release(held.value);
      }
    }

    method ReleaseBoth(a: Option<Grant>, b: Option<Grant>)
      requires Valid() && forall g :: g in Grants(a) + Grants(b) ==> g in ledger.grants || g.released
      modifies this`requestsInFlight, this`authInFlight, this`bodiesInFlight, this`bodyBytesInFlight, this`ledger,
               (Grants(a) + Grants(b))`released, (ChargedSlots(a) + ChargedSlots(b))`inFlight
      ensures Valid() && ledger.grants == old(ledger.grants) - (Grants(a) + Grants(b))
      ensures forall g :: g in Grants(a) + Grants(b) ==> g.released
    {
      hide Valid;
      ReleaseAny(a);
      ReleaseAny(b);
    }

    /** The end of `handle`: whatever the request still holds is given back, once. */
    method FinishRequest(body: Option<Grant>, verified: Option<Grant>, auth: Option<Grant>, request: Option<Grant>)
      requires Valid()
      requires forall g :: g in AllGrants(body, verified, auth, request) ==> g in ledger.grants || g.released
      modifies this`requestsInFlight, this`authInFlight, this`bodiesInFlight, this`bodyBytesInFlight, this`ledger,
               AllGrants(body, verified, auth, request)`released, AllSlots(body, verified, auth, request)`inFlight
      ensures Valid() && ledger.grants == old(ledger.grants) - AllGrants(body, verified, auth, request)
      ensures forall g :: g in AllGrants(body, verified, auth, request) ==> g.released
    {
      hide Valid;
      ReleaseBoth(body, verified);
      ReleaseBoth(auth, request);
    }
  }
}
