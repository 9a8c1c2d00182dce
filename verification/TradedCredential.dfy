/**
 The traded-outcome credential (trace-vault/robinhood_link.py:250-493 with
 trace-vault/credential_robinhood.py:15-33 and trace-vault/link_ticket.py:26-52). An appraiser
 opens witnessed sessions, decides whether a fill happened and signs one bounded statement; anyone
 can check the statement against the witness receipts and the link ticket without the sessions.
 Signatures and attestation are ideal: a `World` says which receipts, statements and tickets were
 signed and which keys are attested, and what a session's ciphertext opens to.
 */
module TradedCredential {
  import opened Bytes
  import opened Numerals

  const SECOND: int := 1_000_000
  const DAY: int := 86_400 * SECOND
  const MAX_TICKET: int := 600 * SECOND

  /** What a timestamp's text means, in microseconds. */
  datatype Stamp = Aware(at: int) | Naive(local: int) | Malformed

  datatype Role = Appraiser | Witness

  /** A witness receipt. `extra` says it has keys a receipt should not have. */
  datatype Receipt = Receipt(purpose: string, host: string, sni: string, port: Option<int>, hUp: string,
                             hDown: string, hHello: string, tStart: string, tEnd: string, bytesUp: int,
                             bytesDown: int, linkHash: Option<string>, pubkey: string, extra: bool)

  datatype Secrets = Secrets(suite: string, application: bytes, handshake: bytes)

  datatype Session = Session(receipt: Receipt, down: bytes, hello: bytes, secrets: Secrets)

  /** An order as it came; any field may be missing. */
  type Order = map<string, string>

  datatype Body = Orders(results: seq<Order>, paged: bool) | Instrument(id: string, symbol: string) | Unknown

  datatype Page = Page(body: Body, observed: int)

  datatype Ticket = Ticket(owner: string, job: string, issuedAt: string, expiresAt: string)

  datatype Bound = Bound(role: string, hDown: string, hHello: string, pubkey: string, tStart: string)

  datatype Credential = Credential(purpose: string, claim: string, symbol: string, days: int, value: bool,
                                   traceTs: string, observedAt: string, owner: string, job: string, linkHash: string,
                                   vaultKey: string, host: string, sessions: seq<Bound>)

  datatype Bundle = Bundle(ticket: string, orders: Session, instruments: seq<Session>)

  datatype Evidence = Evidence(credential: Credential, receipts: seq<Receipt>)

  datatype World = World(
    parse: string -> Stamp,
    format: int -> string,
    digest: bytes -> string,
    ticketHash: string -> string,
    tickets: string -> Option<Ticket>,        // the tickets the issuer signed, their shape checked
    witnessed: Receipt -> bool,               // signed under the key the receipt names
    signed: (string, Credential) -> bool,
    trusted: (string, Role) -> bool,          // the key is attested for that role
    open: Session -> Option<Page>)            // TLS reveal, HTTP and JSON

  datatype Fault =
    | InvalidLinkTicket | LinkTicketExpired | InvalidWitnessSignature | InvalidWitnessAttestation | WrongUpstream
    | CiphertextHashMismatch | ClientHelloHashMismatch | TlsRevealInvalid | LinkTicketReceiptMismatch
    | InvalidWitnessTime
    | CaptureOutsideTicketWindow | ResponseTimeOutsideCapture | InvalidOrdersBundle | InvalidOrdersSchema
    | InvalidInstrumentSchema | SessionTicketMismatch | ConflictingInstrumentSchema | InvalidOutcomeRequest
    | SymbolNotWitnessed
    | MixedTimes | InvalidCredentialClaim | OutcomeNotEstablished | InvalidTraceTime | InvalidObservationTime
    | CredentialExpired | InvalidAppraiserAttestation | InvalidCredentialBinding | WitnessReceiptMismatch
    | InvalidTimeOrTicket | LinkTicketBindingMismatch | InvalidWitnessReceipt

  // ----- Tickets -----

  predicate Window(w: World, t: Ticket) {
    && w.parse(t.issuedAt).Aware? && w.parse(t.expiresAt).Aware?
    && 0 < w.parse(t.expiresAt).at - w.parse(t.issuedAt).at <= MAX_TICKET
  }

  /** `verify_ticket`; a current time without a zone cannot be compared and is refused. */
  function VerifyTicket(w: World, text: string, now: Stamp): Result<Ticket, Fault> {
    match w.tickets(text)
    case None => Err(InvalidLinkTicket)
    case Some(t) =>
      if !Window(w, t) || !now.Aware? then Err(InvalidLinkTicket)
      else if w.parse(t.issuedAt).at <= now.at < w.parse(t.expiresAt).at then Ok(t)
      else Err(LinkTicketExpired)
  }

  /** A ticket is good at a time exactly when it was signed, the time and both ends of its window have
      a zone, the window is longer than nothing and at most ten minutes, and the time lies in it. */
  lemma TicketExactly(w: World, text: string, now: Stamp, t: Ticket)
    ensures VerifyTicket(w, text, now) == Ok(t) <==>
            && w.tickets(text) == Some(t) && now.Aware?
            && exists issued, expiry ::
                 && w.parse(t.issuedAt) == Aware(issued) && w.parse(t.expiresAt) == Aware(expiry)
                 && issued < expiry <= issued + 600_000_000 && issued <= now.at < expiry
    ensures VerifyTicket(w, text, now) == Err(LinkTicketExpired) ==>
              w.tickets(text).Some? && now.Aware?
              && !(w.parse(w.tickets(text).value.issuedAt).at <= now.at < w.parse(w.tickets(text).value.expiresAt).at)
  {
  }

  // ----- Sessions -----

  const HOST: string := "api.robinhood.com"

  predicate Upstream(r: Receipt) {
    r.host == HOST && r.sni == HOST
  }

  /** `_reveal_session` */
  function RevealSession(w: World, s: Session): Result<Page, Fault> {
    if !w.witnessed(s.receipt) then Err(InvalidWitnessSignature)
    else if !w.trusted(s.receipt.pubkey, Witness) then Err(InvalidWitnessAttestation)
    else if !Upstream(s.receipt) || (s.receipt.port.Some? && s.receipt.port.value != 443) then Err(WrongUpstream)
    else if w.digest(s.down) != s.receipt.hDown then Err(CiphertextHashMismatch)
    else if w.digest(s.hello) != s.receipt.hHello then Err(ClientHelloHashMismatch)
    else
      match w.open(s)
      case None => Err(TlsRevealInvalid)
      case Some(page) => Ok(page)
  }

  /** `_checked`: the session was captured inside the ticket's window and answered then. */
  function CheckSession(w: World, s: Session, text: string): Result<(Page, Ticket), Fault> {
    var revealed := RevealSession(w, s);
    if revealed.Err? then Err(revealed.error)
    else
      var page, start, end := revealed.value, w.parse(s.receipt.tStart), w.parse(s.receipt.tEnd);
      var ticket := VerifyTicket(w, text, start);
      if start.Malformed? || end.Malformed? || ticket.Err? then Err(InvalidLinkTicket)
      else if s.receipt.linkHash != Some(w.ticketHash(text)) then Err(LinkTicketReceiptMismatch)
      else if !start.Aware? || !end.Aware? || end.at < start.at then Err(InvalidWitnessTime)
      else if end.at >= w.parse(ticket.value.expiresAt).at then Err(CaptureOutsideTicketWindow)
      else if !(start.at - 30 * SECOND <= page.observed <= end.at + 30 * SECOND) then Err(ResponseTimeOutsideCapture)
      else Ok((page, ticket.value))
  }

  /** The receipt names the host twice, and port 443 or none. */
  ghost predicate Addressed(r: Receipt) {
    && r.host == "api.robinhood.com" && r.sni == "api.robinhood.com"
    && (r.port == None || r.port == Some(443))
  }

  /** A session passes exactly when its receipt is signed under an attested witness key, names the host,
      both digests and the ticket, the session opens to the page, the ticket was good at its start, it
      ended no earlier than that and before the ticket did, and the page was sent at most thirty
      seconds outside it. */
  lemma SessionExactly(w: World, s: Session, text: string, page: Page, ticket: Ticket)
    ensures CheckSession(w, s, text) == Ok((page, ticket)) <==>
            && w.witnessed(s.receipt) && w.trusted(s.receipt.pubkey, Witness) && Addressed(s.receipt)
            && s.receipt.hDown == w.digest(s.down) && s.receipt.hHello == w.digest(s.hello)
            && w.open(s) == Some(page) && s.receipt.linkHash == Some(w.ticketHash(text))
            && exists start, end, expiry ::
                 && w.parse(s.receipt.tStart) == Aware(start) && w.parse(s.receipt.tEnd) == Aware(end)
                 && VerifyTicket(w, text, Aware(start)) == Ok(ticket) && w.parse(ticket.expiresAt) == Aware(expiry)
                 && start <= end < expiry && start - 30_000_000 <= page.observed <= end + 30_000_000
  {
  }

  // ----- The instrument map -----

  /** One more instrument session: its id must not already stand for another symbol. */
  function AddInstrument(w: World, s: Session, text: string, ticket: Ticket, known: map<string, string>)
    : Result<map<string, string>, Fault>
  {
    var checked := CheckSession(w, s, text);
    if checked.Err? then Err(checked.error)
    else if !checked.value.0.body.Instrument? then Err(InvalidInstrumentSchema)
    else if checked.value.1.owner != ticket.owner || checked.value.1.job != ticket.job then Err(SessionTicketMismatch)
    else
      var Instrument(id, symbol) := checked.value.0.body;
      if id in known && known[id] != symbol then Err(ConflictingInstrumentSchema) else Ok(known[id := symbol])
  }

  function Instruments(w: World, sessions: seq<Session>, text: string,
                       ticket: Ticket): Result<map<string, string>, Fault> {
    if sessions == [] then Ok(map[])
    else
      var known := Instruments(w, sessions[..|sessions| - 1], text, ticket);
      if known.Err? then known else AddInstrument(w, sessions[|sessions| - 1], text, ticket, known.value)
  }

  method ResolveInstruments(w: World, sessions: seq<Session>, text: string, ticket: Ticket)
    returns (r: Result<map<string, string>, Fault>)
    ensures r == Instruments(w, sessions, text, ticket)
  {
    hide AddInstrument;
    var instruments: map<string, string> := map[];
    var i := 0;
    while i < |sessions|
      invariant i <= |sessions| && Instruments(w, sessions[..i], text, ticket) == Ok(instruments)
    {
      assert sessions[..i + 1][..i] == sessions[..i];
      var added := AddInstrument(w, sessions[i], text, ticket, instruments);
      if added.Err? {
        FaultSticks(w, sessions, text, ticket, i + 1);
        return added;
      }
      instruments := added.value;
      i := i + 1;
    }
    assert sessions[..i] == sessions;
    r := Ok(instruments);
  }

  lemma {:induction false} FaultSticks(w: World, sessions: seq<Session>, text: string, ticket: Ticket, k: nat)
    requires k <= |sessions| && Instruments(w, sessions[..k], text, ticket).Err?
    ensures Instruments(w, sessions, text, ticket) == Instruments(w, sessions[..k], text, ticket)
    decreases |sessions|
  {
    hide AddInstrument;
    if k == |sessions| {
      assert sessions[..k] == sessions;
    } else {
      assert sessions[..|sessions| - 1][..k] == sessions[..k];
      FaultSticks(w, sessions[..|sessions| - 1], text, ticket, k);
    }
  }

  predicate GoodInstrument(w: World, s: Session, text: string, ticket: Ticket) {
    var checked := CheckSession(w, s, text);
    && checked.Ok? && checked.value.0.body.Instrument?
    && checked.value.1.owner == ticket.owner && checked.value.1.job == ticket.job
  }

  function Resolves(w: World, s: Session, text: string, ticket: Ticket): (body: Body)
    requires GoodInstrument(w, s, text, ticket)
    ensures body.Instrument?
  {
    CheckSession(w, s, text).value.0.body
  }

  /** Every session is good, and none contradicts another. */
  ghost predicate Agree(w: World, sessions: seq<Session>, text: string, ticket: Ticket) {
    && (forall s :: s in sessions ==> GoodInstrument(w, s, text, ticket))
    && forall s, t ::
         s in sessions && t in sessions && Resolves(w, s, text, ticket).id == Resolves(w, t, text, ticket).id ==>
         Resolves(w, s, text, ticket).symbol == Resolves(w, t, text, ticket).symbol
  }

  /** The map holds exactly what the sessions witness. */
  ghost predicate Holds(m: map<string, string>, w: World, sessions: seq<Session>, text: string, ticket: Ticket)
    requires forall s :: s in sessions ==> GoodInstrument(w, s, text, ticket)
  {
    && (forall s :: s in sessions ==>
          Resolves(w, s, text, ticket).id in m
          && m[Resolves(w, s, text, ticket).id] == Resolves(w, s, text, ticket).symbol)
    && forall id :: id in m ==> exists s :: s in sessions && Resolves(w, s, text, ticket).id == id
  }

  lemma AddsExactly(w: World, front: seq<Session>, last: Session, text: string, ticket: Ticket,
                    known: map<string, string>)
    requires Agree(w, front, text, ticket) && Holds(known, w, front, text, ticket)
    ensures AddInstrument(w, last, text, ticket, known).Ok? <==> Agree(w, front + [last], text, ticket)
    ensures Agree(w, front + [last], text, ticket) ==>
              Holds(AddInstrument(w, last, text, ticket, known).value, w, front + [last], text, ticket)
  {
    hide CheckSession;
    var all := front + [last];
    assert forall s :: s in all <==> s in front || s == last;
    if GoodInstrument(w, last, text, ticket) {
      var page := Resolves(w, last, text, ticket);
      if page.id in known {
        var s :| s in front && Resolves(w, s, text, ticket).id == page.id;
        assert s in all && last in all;
      }
    } else {
      assert last in all;
    }
  }

  /** The sessions resolve exactly when they agree, and then to what each of them witnesses. */
  lemma {:induction false} InstrumentsExactly(w: World, sessions: seq<Session>, text: string, ticket: Ticket)
    ensures Instruments(w, sessions, text, ticket).Ok? <==> Agree(w, sessions, text, ticket)
    ensures Agree(w, sessions, text, ticket) ==>
                Holds(Instruments(w, sessions, text, ticket).value, w, sessions, text, ticket)
  {
    if sessions == [] {
    } else {
      hide AddInstrument, Holds, GoodInstrument;
      var front, last := sessions[..|sessions| - 1], sessions[|sessions| - 1];
      assert sessions == front + [last];
      InstrumentsExactly(w, front, text, ticket);
      if Agree(w, front, text, ticket) {
        AddsExactly(w, front, last, text, ticket, Instruments(w, front, text, ticket).value);
      } else {
        assert forall s :: s in front ==> s in sessions;
      }
    }
  }

  /** The order of the instrument sessions, and repeating one, make no difference. */
  lemma InstrumentOrderIsIrrelevant(w: World, a: seq<Session>, b: seq<Session>, text: string, ticket: Ticket)
    requires forall s :: s in a <==> s in b
    ensures Instruments(w, a, text, ticket).Ok? == Instruments(w, b, text, ticket).Ok?
    ensures Instruments(w, a, text, ticket).Ok? ==> Instruments(w, a, text, ticket) == Instruments(w, b, text, ticket)
  {
    hide GoodInstrument, Instruments;
    InstrumentsExactly(w, a, text, ticket);
    InstrumentsExactly(w, b, text, ticket);
    assert Agree(w, a, text, ticket) <==> Agree(w, b, text, ticket);
    if Agree(w, a, text, ticket) {
      assert Instruments(w, a, text, ticket).value == Instruments(w, b, text, ticket).value;
    }
  }

  // ----- The outcome -----

  /** How far apart two times are; a time with a zone cannot be subtracted from one without. */
  function Apart(a: Stamp, b: Stamp): Result<int, Fault> {
    match (a, b)
    case (Malformed, _) => Err(InvalidOrdersSchema)
    case (_, Malformed) => Err(InvalidOrdersSchema)
    case (Aware(x), Aware(y)) => Ok(if x < y then y - x else x - y)
    case (Naive(x), Naive(y)) => Ok(if x < y then y - x else x - y)
    case _ => Err(MixedTimes)
  }

  const STATE: string := "state"
  const SIDE: string := "side"
  const INSTRUMENT: string := "instrument_id"
  const LAST: string := "last_transaction_at"

  /** What the appraiser was asked: the witnessed instruments, the symbol and the window. */
  datatype Query = Query(instruments: map<string, string>, symbol: string, t0: Stamp, days: int)

  /** One pass of the loop; a field is looked up only when the ones before it leave a doubt. */
  function Matches(w: World, o: Order, q: Query): Result<bool, Fault> {
    if STATE !in o then Err(InvalidOrdersSchema)
    else if o[STATE] != "filled" then Ok(false)
    else if SIDE !in o then Err(InvalidOrdersSchema)
    else if o[SIDE] != "buy" && o[SIDE] != "sell" then Ok(false)
    else if INSTRUMENT !in o then Err(InvalidOrdersSchema)
    else if o[INSTRUMENT] !in q.instruments || q.instruments[o[INSTRUMENT]] != q.symbol then Ok(false)
    else if LAST !in o then Err(InvalidOrdersSchema)
    else
      match Apart(w.parse(o[LAST]), q.t0)
      case Err(fault) => Err(fault)
      case Ok(apart) => Ok(apart <= q.days * DAY)
  }

  function Traded(w: World, orders: seq<Order>, q: Query): Result<bool, Fault> {
    if orders == [] then Ok(false)
    else
      var first := Matches(w, orders[0], q);
      if first == Ok(false) then Traded(w, orders[1..], q) else first
  }

  /** `compute_traded` */
  method ComputeTraded(w: World, orders: seq<Order>, q: Query) returns (r: Result<bool, Fault>)
    ensures r == if q.t0 == Malformed then Err(InvalidOrdersSchema) else Traded(w, orders, q)
  {
    hide Matches;
    if q.t0 == Malformed {
      return Err(InvalidOrdersSchema);
    }
    var i := 0;
    while i < |orders|
      invariant i <= |orders| && Traded(w, orders, q) == Traded(w, orders[i..], q)
    {
      var hit := Matches(w, orders[i], q);
      if hit != Ok(false) {
        return hit;
      }
      assert orders[i..][1..] == orders[i + 1..];
      i := i + 1;
    }
    r := Ok(false);
  }

  // What the loop is for, in the order's own fields.

  /** A filled buy or sell of the symbol. */
  ghost predicate Concerns(o: Order, q: Query) {
    && "state" in o && o["state"] == "filled" && "side" in o && (o["side"] == "buy" || o["side"] == "sell")
    && "instrument_id" in o && o["instrument_id"] in q.instruments && q.instruments[o["instrument_id"]] == q.symbol
  }

  /** A field that is there shows that it is none, and the fields looked up before it are there. */
  ghost predicate OfOther(o: Order, q: Query) {
    && "state" in o
    && (o["state"] != "filled"
        || ("side" in o
            && ((o["side"] != "buy" && o["side"] != "sell")
                || ("instrument_id" in o
                    && (o["instrument_id"] in q.instruments ==> q.instruments[o["instrument_id"]] != q.symbol)))))
  }

  /** Both times have a zone, or neither has. */
  ghost predicate Comparable(a: Stamp, b: Stamp) {
    (a.Aware? && b.Aware?) || (a.Naive? && b.Naive?)
  }

  /** Two comparable times lie at most so many days of 86400 seconds apart, whichever is earlier. */
  ghost predicate WithinDays(a: Stamp, b: Stamp, days: int) {
    match (a, b)
    case (Aware(x), Aware(y)) => -(days * 86_400_000_000) <= x - y <= days * 86_400_000_000
    case (Naive(x), Naive(y)) => -(days * 86_400_000_000) <= x - y <= days * 86_400_000_000
    case _ => false
  }

  ghost predicate Near(w: World, o: Order, q: Query) {
    "last_transaction_at" in o && WithinDays(w.parse(o["last_transaction_at"]), q.t0, q.days)
  }

  /** The order can be read as far as the loop looks, and is no reason to answer yes. */
  ghost predicate Passed(w: World, o: Order, q: Query) {
    || OfOther(o, q)
    || (Concerns(o, q) && "last_transaction_at" in o && Comparable(w.parse(o["last_transaction_at"]), q.t0)
        && !Near(w, o, q))
  }

  lemma MatchesExactly(w: World, o: Order, q: Query)
    ensures Matches(w, o, q) == Ok(true) <==> Concerns(o, q) && Near(w, o, q)
    ensures Matches(w, o, q) == Ok(false) <==> Passed(w, o, q)
    ensures Matches(w, o, q) == Err(MixedTimes) <==>
              && Concerns(o, q) && "last_transaction_at" in o
              && var last := w.parse(o["last_transaction_at"]);
                 !last.Malformed? && !q.t0.Malformed? && !Comparable(last, q.t0)
    ensures Matches(w, o, q).Err? ==> Matches(w, o, q).error in {InvalidOrdersSchema, MixedTimes}
  {
  }

  /** Order `k` is a filled buy or sell of the symbol near the trace, and every order before it can
      be read and is not. */
  ghost predicate FirstHit(w: World, orders: seq<Order>, q: Query, k: nat) {
    && k < |orders| && Concerns(orders[k], q) && Near(w, orders[k], q)
    && forall j :: 0 <= j < k ==> Passed(w, orders[j], q)
  }

  /** The search succeeds exactly when there is such an order, fails exactly when every order can
      be read and none matches, and otherwise says what could not be read or compared. */
  lemma {:induction false} TradedExactly(w: World, orders: seq<Order>, q: Query)
    ensures Traded(w, orders, q) == Ok(true) <==> exists k: nat :: FirstHit(w, orders, q, k)
    ensures Traded(w, orders, q) == Ok(false) <==> forall j :: 0 <= j < |orders| ==> Passed(w, orders[j], q)
    ensures Traded(w, orders, q).Err? ==> Traded(w, orders, q).error in {InvalidOrdersSchema, MixedTimes}
  {
    hide Matches, Concerns, Near, Passed;
    if orders != [] {
      var rest := orders[1..];
      TradedExactly(w, rest, q);
      MatchesExactly(w, orders[0], q);
      assert forall j :: 0 < j < |orders| ==> orders[j] == rest[j - 1];
      if Matches(w, orders[0], q) == Ok(true) {
        assert FirstHit(w, orders, q, 0);
      } else if k: nat :| FirstHit(w, rest, q, k) && Passed(w, orders[0], q) {
        assert FirstHit(w, orders, q, k + 1);
      }
      forall k: nat | FirstHit(w, orders, q, k)
        ensures Traded(w, orders, q) == Ok(true)
      {
        if k > 0 {
          assert FirstHit(w, rest, q, k - 1);
        }
      }
    }
  }

  // ----- Issuing -----

  datatype Opened = Opened(ticket: Ticket, observed: int, orders: seq<Order>, instruments: map<string, string>)

  /** `verify_orders_bundle` */
  function VerifyOrders(w: World, b: Bundle): Result<Opened, Fault> {
    if b.instruments == [] then Err(InvalidOrdersBundle)
    else
      var orders := CheckSession(w, b.orders, b.ticket);
      if orders.Err? then Err(orders.error)
      else
        var (page, ticket) := orders.value;
        if !page.body.Orders? || page.body.paged then Err(InvalidOrdersSchema)
        else
          var instruments := Instruments(w, b.instruments, b.ticket, ticket);
          if instruments.Err? then Err(instruments.error)
          else Ok(Opened(ticket, page.observed, page.body.results, instruments.value))
  }

  const PURPOSE: string := "trace-vault.credential.robinhood-traded-outcome.v1"

  function Claim(symbol: string, days: nat): string {
    "traded:" + symbol + ":within_" + Digits(days, 10) + "d"
  }

  function BoundTo(r: Receipt, role: string): Bound {
    Bound(role, r.hDown, r.hHello, r.pubkey, r.tStart)
  }

  const ORDERS: string := "orders"
  const SESSION: string := "instrument"

  function Receipts(b: Bundle): (receipts: seq<Receipt>)
    ensures |receipts| == |b.instruments| + 1
  {
    [b.orders.receipt] + seq(|b.instruments|, i requires 0 <= i < |b.instruments| => b.instruments[i].receipt)
  }

  function Bounds(receipts: seq<Receipt>): (bounds: seq<Bound>)
    ensures |bounds| == |receipts|
    ensures forall i :: 0 <= i < |receipts| ==> bounds[i] == BoundTo(receipts[i], if i == 0 then ORDERS else SESSION)
  {
    seq(|receipts|, i requires 0 <= i < |receipts| => BoundTo(receipts[i], if i == 0 then ORDERS else SESSION))
  }

  /** `issue_traded_outcome`, signed with `key`. */
  function Issue(w: World, b: Bundle, symbol: string, days: int, traceTs: string,
                 key: string): Result<Credential, Fault> {
    if symbol == "" || !(0 < days <= 365) then Err(InvalidOutcomeRequest)
    else
      var shown := VerifyOrders(w, b);
      if shown.Err? then Err(shown.error)
      else
        var Opened(ticket, observed, orders, instruments) := shown.value;
        var q := Query(instruments, symbol, w.parse(traceTs), days);
        if symbol !in instruments.Values then Err(SymbolNotWitnessed)
        else if q.t0 == Malformed then Err(InvalidOrdersSchema)
        else
          match Traded(w, orders, q)
          case Err(fault) => Err(fault)
          case Ok(value) =>
            Ok(Credential(PURPOSE, Claim(symbol, days), symbol, days, value, traceTs, w.format(observed), ticket.owner,
                          ticket.job, w.ticketHash(b.ticket), key, HOST, Bounds(Receipts(b))))
  }

  /** A credential is issued exactly when the request names a symbol that some instrument page shows and
      1 to 365 days, the orders page is whole, and the search of its orders comes to an answer. */
  lemma IssuesExactly(w: World, b: Bundle, symbol: string, days: int, traceTs: string, key: string)
    ensures Issue(w, b, symbol, days, traceTs, key).Ok? <==>
            && symbol != "" && 1 <= days <= 365 && !w.parse(traceTs).Malformed? && b.instruments != []
            && exists page: Page, ticket: Ticket ::
                 && CheckSession(w, b.orders, b.ticket) == Ok((page, ticket)) && page.body.Orders? && !page.body.paged
                 && var known := Instruments(w, b.instruments, b.ticket, ticket);
                    && known.Ok? && (exists id :: id in known.value && known.value[id] == symbol)
                    && Traded(w, page.body.results, Query(known.value, symbol, w.parse(traceTs), days)).Ok?
  {
    hide CheckSession, Instruments, Traded, Receipts, Bounds, Claim;
    var orders := CheckSession(w, b.orders, b.ticket);
    if orders.Ok? {
      var (page, ticket) := orders.value;
      assert orders == Ok((page, ticket));
      var known := Instruments(w, b.instruments, b.ticket, ticket);
      assert known.Ok? ==>
          (symbol in known.value.Values <==> exists id :: id in known.value && known.value[id] == symbol);
    }
  }

  /** It states the answer of that search, the request, the time the orders were sent, and whose
      ticket it is for. */
  lemma IssueStates(w: World, b: Bundle, symbol: string, days: int, traceTs: string, key: string)
    requires Issue(w, b, symbol, days, traceTs, key).Ok?
    ensures CheckSession(w, b.orders, b.ticket).Ok?
    ensures var body := CheckSession(w, b.orders, b.ticket).value.0.body; body.Orders? && !body.paged
    ensures var c := Issue(w, b, symbol, days, traceTs, key).value;
      var (page, ticket) := CheckSession(w, b.orders, b.ticket).value;
      var known := Instruments(w, b.instruments, b.ticket, ticket);
      && c.purpose == "trace-vault.credential.robinhood-traded-outcome.v1" && c.host == "api.robinhood.com"
      && 0 < days && c.claim == "traded:" + symbol + ":within_" + Digits(days, 10) + "d"
      && c.symbol == symbol && c.days == days && c.traceTs == traceTs && c.vaultKey == key
      && c.owner == ticket.owner && c.job == ticket.job && c.observedAt == w.format(page.observed)
      && known.Ok?
      && Traded(w, page.body.results, Query(known.value, symbol, w.parse(traceTs), days)) == Ok(c.value)
  {
    hide CheckSession, Instruments, Traded, BoundTo, Digits, Receipts, Bounds;
  }

  lemma IssueBinds(w: World, b: Bundle, symbol: string, days: int, traceTs: string, key: string)
    requires Issue(w, b, symbol, days, traceTs, key).Ok?
    ensures Binds(w, b, Issue(w, b, symbol, days, traceTs, key).value)
  {
    BoundsBind(w, b);
    hide VerifyOrders, Traded, BoundTo, Claim, Receipts, Bounds;
  }

  lemma BoundsBind(w: World, b: Bundle)
    ensures var sessions := Bounds(Receipts(b));
      && |sessions| == |b.instruments| + 1 && sessions[0] == BoundTo(b.orders.receipt, "orders")
      && forall i :: 0 <= i < |b.instruments| ==>
           sessions[i + 1] == BoundTo(b.instruments[i].receipt, "instrument")
  {
    var receipts, sessions := Receipts(b), Bounds(Receipts(b));
    OrdersFirst(b);
    hide BoundTo, Receipts, Bounds;
    forall i | 0 <= i < |b.instruments|
      ensures sessions[i + 1] == BoundTo(b.instruments[i].receipt, "instrument")
    {
      ReceiptAfter(b, i);
      assert sessions[i + 1] == BoundTo(receipts[i + 1], SESSION);
    }
    assert sessions[0] == BoundTo(receipts[0], ORDERS);
  }

  lemma OrdersFirst(b: Bundle)
    ensures Receipts(b)[0] == b.orders.receipt
  {
  }

  lemma ReceiptAfter(b: Bundle, i: nat)
    requires i < |b.instruments|
    ensures Receipts(b)[i + 1] == b.instruments[i].receipt
  {
  }

  /** What stands behind a true credential: a witnessed orders page holding a filled buy or sell of
      an instrument that a witnessed instrument page resolves to the symbol, within the window of
      the trace. */
  ghost predicate Backed(w: World, b: Bundle, symbol: string, days: int, traceTs: string, k: nat) {
    && var orders := CheckSession(w, b.orders, b.ticket);
       && orders.Ok? && orders.value.0.body.Orders? && !orders.value.0.body.paged
       && k < |orders.value.0.body.results|
       && Supports(w, b, orders.value.1, orders.value.0.body.results[k], symbol, days, traceTs)
  }

  /** The credential names the ticket of the bundle and its sessions in order, the orders first. */
  ghost predicate Binds(w: World, b: Bundle, c: Credential) {
    && c.linkHash == w.ticketHash(b.ticket) && |c.sessions| == |b.instruments| + 1
    && c.sessions[0] == BoundTo(b.orders.receipt, "orders")
    && forall i :: 0 <= i < |b.instruments| ==>
         c.sessions[i + 1] == BoundTo(b.instruments[i].receipt, "instrument")
  }

  ghost predicate Supports(w: World, b: Bundle, ticket: Ticket, o: Order, symbol: string, days: int, traceTs: string) {
    && "state" in o && o["state"] == "filled" && "side" in o && (o["side"] == "buy" || o["side"] == "sell")
    && "instrument_id" in o && Witnessed(w, b, ticket, o["instrument_id"], symbol)
    && "last_transaction_at" in o && WithinDays(w.parse(o["last_transaction_at"]), w.parse(traceTs), days)
  }

  ghost predicate Witnessed(w: World, b: Bundle, ticket: Ticket, id: string, symbol: string) {
    exists s ::
      s in b.instruments && GoodInstrument(w, s, b.ticket, ticket)
          && Resolves(w, s, b.ticket, ticket) == Instrument(id, symbol)
  }

  lemma ResolvedBy(w: World, b: Bundle, ticket: Ticket, id: string)
    requires Instruments(w, b.instruments, b.ticket, ticket).Ok?
    requires id in Instruments(w, b.instruments, b.ticket, ticket).value
    ensures Witnessed(w, b, ticket, id, Instruments(w, b.instruments, b.ticket, ticket).value[id])
  {
    hide CheckSession, Instruments, GoodInstrument, Resolves;
    InstrumentsExactly(w, b.instruments, b.ticket, ticket);
    var s :| s in b.instruments && Resolves(w, s, b.ticket, ticket).id == id;
  }

  lemma TrueOutcomeIsBacked(w: World, b: Bundle, symbol: string, days: int, traceTs: string, key: string)
    requires var c := Issue(w, b, symbol, days, traceTs, key); c.Ok? && c.value.value
    ensures exists k: nat :: Backed(w, b, symbol, days, traceTs, k)
    ensures var c := Issue(w, b, symbol, days, traceTs, key).value;
      c.symbol == symbol && c.days == days && c.traceTs == traceTs && Binds(w, b, c)
  {
    IssueBinds(w, b, symbol, days, traceTs, key);
    IssueStates(w, b, symbol, days, traceTs, key);
    hide Issue, CheckSession, Instruments, Traded, Witnessed, WithinDays, Binds, Concerns, Near, Passed, Supports,
      Digits;
    var (page, ticket) := CheckSession(w, b.orders, b.ticket).value;
    var known := Instruments(w, b.instruments, b.ticket, ticket).value;
    var q := Query(known, symbol, w.parse(traceTs), days);
    TradedExactly(w, page.body.results, q);
    var k: nat :| FirstHit(w, page.body.results, q, k);
    HitSupports(w, b, ticket, page.body.results[k], q, traceTs);
    assert Backed(w, b, symbol, days, traceTs, k);
  }

  lemma HitSupports(w: World, b: Bundle, ticket: Ticket, o: Order, q: Query, traceTs: string)
    requires Instruments(w, b.instruments, b.ticket, ticket) == Ok(q.instruments)
    requires Concerns(o, q) && Near(w, o, q) && q.t0 == w.parse(traceTs)
    ensures Supports(w, b, ticket, o, q.symbol, q.days, traceTs)
  {
    hide Instruments, Witnessed, WithinDays;
    ResolvedBy(w, b, ticket, o["instrument_id"]);
  }

  function SessionAt(b: Bundle, k: nat): Session
    requires k <= |b.instruments|
  {
    if k == 0 then b.orders else b.instruments[k - 1]
  }

  /** Every session of an issued credential passed its checks, and is bound in its place. */
  lemma IssuedSessions(w: World, b: Bundle, symbol: string, days: int, traceTs: string, key: string, k: nat)
    requires Issue(w, b, symbol, days, traceTs, key).Ok? && k <= |b.instruments|
    ensures CheckSession(w, SessionAt(b, k), b.ticket).Ok?
    ensures var c := Issue(w, b, symbol, days, traceTs, key).value;
      |c.sessions| == |b.instruments| + 1
          && c.sessions[k] == BoundTo(SessionAt(b, k).receipt, if k == 0 then ORDERS else SESSION)
  {
    hide CheckSession, Traded, Claim, Instruments;
    if k > 0 {
      var ticket := VerifyOrders(w, b).value.ticket;
      InstrumentsExactly(w, b.instruments, b.ticket, ticket);
      assert b.instruments[k - 1] in b.instruments;
      assert GoodInstrument(w, b.instruments[k - 1], b.ticket, ticket);
    }
  }

  /** What a passed check says about the session's receipt. */
  lemma CheckedReceipt(w: World, s: Session, text: string)
    requires CheckSession(w, s, text).Ok?
    ensures var r, ticket := s.receipt, CheckSession(w, s, text).value.1;
      && w.witnessed(r) && w.trusted(r.pubkey, Witness) && Upstream(r) && r.linkHash == Some(w.ticketHash(text))
      && r.hDown == w.digest(s.down) && r.hHello == w.digest(s.hello)
      && w.tickets(text) == Some(ticket) && Window(w, ticket)
      && w.parse(r.tStart).Aware? && w.parse(r.tEnd).Aware? && VerifyTicket(w, text, w.parse(r.tStart)).Ok?
      && w.parse(r.tStart).at <= w.parse(r.tEnd).at < w.parse(ticket.expiresAt).at
  {
  }
}
