/**
 Checking a traded-outcome credential (trace-vault/robinhood_link.py:371-493) against its witness
 receipts and link ticket, without the sessions: what acceptance implies, and exactly when an
 issued credential is accepted.
 */
module CredentialCheck {
  import opened Bytes
  import opened Numerals
  import opened TradedCredential

  const RECEIPT_PURPOSE: string := "trace-vault.provenance.v1"

  datatype Verdict = Verdict(purpose: string, owner: string, job: string, linkHash: string, observedAt: string,
                             symbol: string, days: int, value: bool, traceTs: string, validUntil: int)

  // ----- The credential itself -----

  function ClaimFault(c: Credential): Option<Fault> {
    if c.symbol == "" || |c.symbol| > 32 || !(0 < c.days <= 365) || c.purpose != PURPOSE
        || c.claim != Claim(c.symbol, c.days) then
      Some(InvalidCredentialClaim)
    else if !c.value then Some(OutcomeNotEstablished)
    else None
  }

  function TimeFault(w: World, c: Credential, now: int): Option<Fault> {
    var trace, observed := w.parse(c.traceTs), w.parse(c.observedAt);
    if !trace.Aware? then Some(InvalidTraceTime)
    else if !observed.Aware? then Some(InvalidObservationTime)
    else if observed.at > now || now - observed.at > DAY then Some(CredentialExpired)
    else if trace.at > now then Some(InvalidTraceTime)
    else None
  }

  predicate Unrepeated<T(==)>(s: seq<T>) {
    forall i, j :: 0 <= i < j < |s| ==> s[i] != s[j]
  }

  function BindingFault(w: World, e: Evidence): Option<Fault> {
    var c := e.credential;
    if !w.signed(c.vaultKey, c) || !w.trusted(c.vaultKey, Appraiser) then Some(InvalidAppraiserAttestation)
    else if c.host != HOST || |c.sessions| < 2 then Some(InvalidCredentialBinding)
    else if !(forall i :: 0 <= i < |c.sessions| ==> c.sessions[i].role == if i == 0 then ORDERS else SESSION) then
      Some(InvalidCredentialBinding)
    else if !Unrepeated(c.sessions) then Some(InvalidCredentialBinding)
    else if |e.receipts| != |c.sessions| then Some(WitnessReceiptMismatch)
    else None
  }

  function TicketFault(w: World, c: Credential, text: string): Option<Fault> {
    var ticket := VerifyTicket(w, text, w.parse(c.observedAt));
    if ticket.Err? then Some(InvalidTimeOrTicket)
    else if c.linkHash != w.ticketHash(text) || c.owner != ticket.value.owner || c.job != ticket.value.job then
      Some(LinkTicketBindingMismatch)
    else None
  }

  // ----- Receipts -----

  predicate Hash64(s: string) {
    |s| == 64 && FromHex(s).Some?
  }

  /** The keys, purpose and lengths of a receipt that the witness writes for a linked session. */
  predicate FullShape(r: Receipt) {
    && !r.extra && r.port.Some? && r.linkHash.Some? && r.purpose == RECEIPT_PURPOSE
    && Hash64(r.hUp) && Hash64(r.hDown) && Hash64(r.hHello) && Hash64(r.linkHash.value) && Hash64(r.pubkey)
  }

  /** The ticket was signed and its window makes sense; every ticket that verifies is. */
  predicate Dated(w: World, text: string) {
    w.tickets(text).Some? && Window(w, w.tickets(text).value)
  }

  function ReceiptFault(w: World, r: Receipt, text: string, now: int): Option<Fault>
    requires Dated(w, text)
  {
    var start, end, expiry := w.parse(r.tStart), w.parse(r.tEnd), w.parse(w.tickets(text).value.expiresAt);
    if !FullShape(r) then Some(InvalidWitnessReceipt)
    else if !w.witnessed(r) then Some(InvalidWitnessSignature)
    else if !w.trusted(r.pubkey, Witness) then Some(InvalidWitnessAttestation)
    else if !start.Aware? || !end.Aware? then Some(InvalidObservationTime)
    else if !Upstream(r) || r.port.value != 443 || r.bytesUp < 0 || r.bytesDown < 0 || end.at < start.at || end.at > now
            || end.at >= expiry.at || now - end.at > DAY then Some(InvalidObservationTime)
    else if r.linkHash != Some(w.ticketHash(text)) then Some(LinkTicketBindingMismatch)
    else if VerifyTicket(w, text, start).Err? then Some(InvalidTimeOrTicket)
    else None
  }

  predicate Same(r: Receipt, s: Bound) {
    r.hDown == s.hDown && r.hHello == s.hHello && r.pubkey == s.pubkey && r.tStart == s.tStart
  }

  /** Where the receipts that a session could mean are. */
  function Found(receipts: seq<Receipt>, s: Bound): (found: seq<nat>)
    ensures forall i: nat :: i in found <==> i < |receipts| && Same(receipts[i], s)
    ensures Unrepeated(found)
  {
    if receipts == [] then []
    else
      var n := |receipts| - 1;
      var earlier := Found(receipts[..n], s);
      assert forall i: nat :: i in earlier <==> i < n && Same(receipts[i], s);
      if Same(receipts[n], s) then earlier + [n] else earlier
  }

  /** Each session has its own receipt: the only one it can mean, and nothing is wrong with it. */
  predicate Paired(w: World, sessions: seq<Bound>, receipts: seq<Receipt>, text: string, now: int, m: seq<nat>)
    requires Dated(w, text)
  {
    |m| == |sessions| && Unrepeated(m) && forall k :: 0 <= k < |m| ==> Pairs(w, sessions[k], receipts, text, now, m[k])
  }

  predicate Pairs(w: World, s: Bound, receipts: seq<Receipt>, text: string, now: int, i: nat)
    requires Dated(w, text)
  {
    i < |receipts| && Found(receipts, s) == [i] && ReceiptFault(w, receipts[i], text, now) == None
  }

  /** The receipt of each session, in order; each must be the only one it can mean and not taken before. */
  function Match(w: World, sessions: seq<Bound>, receipts: seq<Receipt>, text: string,
                 now: int): Result<seq<nat>, Fault>
    requires Dated(w, text)
  {
    if sessions == [] then Ok([])
    else
      var taken := Match(w, sessions[..|sessions| - 1], receipts, text, now);
      if taken.Err? then taken
      else
        var found := Found(receipts, sessions[|sessions| - 1]);
        assert |found| == 1 ==> found[0] in found;
        if |found| != 1 || found[0] in taken.value then Err(WitnessReceiptMismatch)
        else
          match ReceiptFault(w, receipts[found[0]], text, now)
          case Some(fault) => Err(fault)
          case None => Ok(taken.value + [found[0]])
  }

  /** The loop returns a pairing, and whenever there is one it returns that. */
  lemma {:induction false} MatchExactly(w: World, sessions: seq<Bound>, receipts: seq<Receipt>, text: string,
                                        now: int, m: seq<nat>)
    requires Dated(w, text)
    ensures Match(w, sessions, receipts, text, now) == Ok(m) <==> Paired(w, sessions, receipts, text, now, m)
    decreases |sessions|
  {
    hide ReceiptFault, Found, Unrepeated;
    if sessions == [] {
      NothingRepeats<nat>();
    } else {
      var front, last := sessions[..|sessions| - 1], sessions[|sessions| - 1];
      if |m| == |sessions| {
        var ms, x := m[..|m| - 1], m[|m| - 1];
        MatchExactly(w, front, receipts, text, now, ms);
        PairedStep(w, front, last, receipts, text, now, ms, x);
        assert m == ms + [x] && sessions == front + [last];
      }
      if Match(w, front, receipts, text, now).Ok? {
        MatchExactly(w, front, receipts, text, now, Match(w, front, receipts, text, now).value);
      }
    }
  }

  lemma NothingRepeats<T>()
    ensures Unrepeated<T>([])
  {
  }

  lemma PairedStep(w: World, front: seq<Bound>, last: Bound, receipts: seq<Receipt>, text: string, now: int,
                   ms: seq<nat>, x: nat)
    requires Dated(w, text) && |ms| == |front|
    ensures Paired(w, front + [last], receipts, text, now, ms + [x]) <==>
            Paired(w, front, receipts, text, now, ms) && x !in ms && Pairs(w, last, receipts, text, now, x)
  {
    hide Pairs;
    var m, sessions := ms + [x], front + [last];
    assert forall k :: 0 <= k < |ms| ==> m[k] == ms[k] && sessions[k] == front[k];
    assert m[|ms|] == x && sessions[|ms|] == last;
    assert Unrepeated(m) <==> Unrepeated(ms) && x !in ms;
  }

  /** The matching loop, with the receipts already taken in a set. */
  method MatchReceipts(w: World, sessions: seq<Bound>, receipts: seq<Receipt>, text: string, now: int)
    returns (r: Result<seq<nat>, Fault>)
    requires Dated(w, text)
    ensures r == Match(w, sessions, receipts, text, now)
  {
    hide ReceiptFault;
    var used: set<nat> := {};
    var matched: seq<nat> := [];
    var k := 0;
    while k < |sessions|
      invariant k <= |sessions| && Match(w, sessions[..k], receipts, text, now) == Ok(matched)
      invariant forall i :: i in used <==> i in matched
    {
      assert sessions[..k + 1][..k] == sessions[..k];
      var found := Found(receipts, sessions[k]);
      assert |found| == 1 ==> found[0] in found;
      if |found| != 1 || found[0] in used {
        MatchSticks(w, sessions, receipts, text, now, k + 1);
        return Err(WitnessReceiptMismatch);
      }
      used := used + {found[0]};
      var fault := ReceiptFault(w, receipts[found[0]], text, now);
      if fault.Some? {
        MatchSticks(w, sessions, receipts, text, now, k + 1);
        return Err(fault.value);
      }
      matched := matched + [found[0]];
      k := k + 1;
    }
    assert sessions[..k] == sessions;
    r := Ok(matched);
  }

  lemma {:induction false} MatchSticks(w: World, sessions: seq<Bound>, receipts: seq<Receipt>, text: string, now: int,
                                       k: nat)
    requires Dated(w, text) && k <= |sessions| && Match(w, sessions[..k], receipts, text, now).Err?
    ensures Match(w, sessions, receipts, text, now) == Match(w, sessions[..k], receipts, text, now)
    decreases |sessions|
  {
    hide ReceiptFault, Found;
    if k == |sessions| {
      assert sessions[..k] == sessions;
    } else {
      assert sessions[..|sessions| - 1][..k] == sessions[..k];
      MatchSticks(w, sessions[..|sessions| - 1], receipts, text, now, k);
    }
  }

  // ----- The whole check -----

  function Checked(w: World, e: Evidence, text: string, now: int): Option<Fault> {
    var claim, time := ClaimFault(e.credential), TimeFault(w, e.credential, now);
    if claim.Some? then claim
    else if time.Some? then time
    else
      var binding, ticket := BindingFault(w, e), TicketFault(w, e.credential, text);
      if binding.Some? then binding else ticket
  }

  lemma EarlyPasses(w: World, e: Evidence, text: string, now: int)
    requires Checked(w, e, text, now) == None
    ensures Dated(w, text) && w.parse(e.credential.observedAt).Aware?
    ensures 2 <= |e.credential.sessions| == |e.receipts|
  {
    hide ClaimFault;
  }

  lemma OrdersReceipt(w: World, sessions: seq<Bound>, receipts: seq<Receipt>, text: string, now: int, m: seq<nat>)
    requires Dated(w, text) && sessions != [] && Match(w, sessions, receipts, text, now) == Ok(m)
    ensures m != [] && m[0] < |receipts| && w.parse(receipts[m[0]].tStart).Aware? && w.parse(receipts[m[0]].tEnd).Aware?
  {
    hide Match, FullShape, Upstream, Found, Unrepeated;
    MatchExactly(w, sessions, receipts, text, now, m);
    assert Pairs(w, sessions[0], receipts, text, now, m[0]);
  }

  /** `verify_traded_credential` */
  function Verify(w: World, e: Evidence, text: string, now: int): Result<Verdict, Fault> {
    var early := Checked(w, e, text, now);
    if early.Some? then Err(early.value)
    else
      EarlyPasses(w, e, text, now);
      var c := e.credential;
      var observed, matched := w.parse(c.observedAt).at, Match(w, c.sessions, e.receipts, text, now);
      if matched.Err? then Err(matched.error)
      else
        OrdersReceipt(w, c.sessions, e.receipts, text, now, matched.value);
        var orders := e.receipts[matched.value[0]];
        if !(w.parse(orders.tStart).at - 30 * SECOND <= observed <= w.parse(orders.tEnd).at + 30 * SECOND) then
          Err(InvalidObservationTime)
        else
          var payload := w.tickets(text).value;
          Ok(Verdict(PURPOSE, payload.owner, payload.job, w.ticketHash(text), c.observedAt, c.symbol, c.days, c.value,
                     c.traceTs, observed + DAY))
  }

  method VerifyTraded(w: World, e: Evidence, text: string, now: int) returns (r: Result<Verdict, Fault>)
    ensures r == Verify(w, e, text, now)
  {
    hide Checked, Match;
    var early := Checked(w, e, text, now);
    if early.Some? {
      return Err(early.value);
    }
    EarlyPasses(w, e, text, now);
    var c := e.credential;
    var matched := MatchReceipts(w, c.sessions, e.receipts, text, now);
    if matched.Err? {
      return Err(matched.error);
    }
    OrdersReceipt(w, c.sessions, e.receipts, text, now, matched.value);
    var orders := e.receipts[matched.value[0]];
    var start, end, observed := w.parse(orders.tStart).at, w.parse(orders.tEnd).at, w.parse(c.observedAt).at;
    if !(start - 30 * SECOND <= observed <= end + 30 * SECOND) {
      return Err(InvalidObservationTime);
    }
    var payload := w.tickets(text).value;
    r := Ok(Verdict(PURPOSE, payload.owner, payload.job, w.ticketHash(text), c.observedAt, c.symbol, c.days, c.value,
                    c.traceTs, observed + DAY));
  }

  // ----- What is accepted -----

  /** Sixty-four characters that Python reads as hex. */
  ghost predicate HexDigest(s: string) {
    |s| == 64 && FromHex(s).Some?
  }

  /** A receipt of the full shape, signed under an attested witness key, for this host and this ticket,
      whose times lie in order within the ticket's window and end within the last day. */
  ghost predicate Proper(w: World, r: Receipt, text: string, now: int) {
    && !r.extra && r.purpose == "trace-vault.provenance.v1" && r.port == Some(443)
    && r.host == "api.robinhood.com" && r.sni == "api.robinhood.com" && 0 <= r.bytesUp && 0 <= r.bytesDown
    && HexDigest(r.hUp) && HexDigest(r.hDown) && HexDigest(r.hHello) && HexDigest(r.pubkey)
    && r.linkHash == Some(w.ticketHash(text)) && HexDigest(w.ticketHash(text))
    && w.witnessed(r) && w.trusted(r.pubkey, Witness)
    && exists start, end, ticket, expiry ::
         && w.parse(r.tStart) == Aware(start) && w.parse(r.tEnd) == Aware(end)
         && VerifyTicket(w, text, Aware(start)) == Ok(ticket) && w.parse(ticket.expiresAt) == Aware(expiry)
         && start <= end < expiry && end <= now <= end + 86_400_000_000
  }

  lemma ReceiptExactly(w: World, r: Receipt, text: string, now: int)
    requires Dated(w, text)
    ensures ReceiptFault(w, r, text, now) == None <==> Proper(w, r, text, now)
  {
    hide FromHex;
  }

  /** The credential makes a claim that can be true, about the recent past, under the appraiser's key. */
  ghost predicate Presents(w: World, c: Credential, text: string, now: int) {
    && c.symbol != "" && |c.symbol| <= 32 && 1 <= c.days <= 365 && c.value
    && c.purpose == "trace-vault.credential.robinhood-traded-outcome.v1" && c.host == "api.robinhood.com"
    && c.claim == "traded:" + c.symbol + ":within_" + Digits(c.days, 10) + "d"
    && w.signed(c.vaultKey, c) && w.trusted(c.vaultKey, Appraiser)
    && c.linkHash == w.ticketHash(text)
    && exists trace, observed, ticket ::
         && w.parse(c.traceTs) == Aware(trace) && w.parse(c.observedAt) == Aware(observed)
         && trace <= now && observed <= now <= observed + 86_400_000_000
         && VerifyTicket(w, text, Aware(observed)) == Ok(ticket) && c.owner == ticket.owner && c.job == ticket.job
  }

  ghost predicate RolesInOrder(sessions: seq<Bound>) {
    && 2 <= |sessions| && sessions[0].role == "orders"
    && (forall i :: 1 <= i < |sessions| ==> sessions[i].role == "instrument")
    && forall i, j :: 0 <= i < j < |sessions| ==> sessions[i] != sessions[j]
  }

  lemma PresentsExactly(w: World, e: Evidence, text: string, now: int)
    ensures Checked(w, e, text, now) == None <==>
            Presents(w, e.credential, text, now) && RolesInOrder(e.credential.sessions)
            && |e.receipts| == |e.credential.sessions|
  {
    hide Digits;
    assert "orders" == ORDERS && "instrument" == SESSION;
  }

  /** The check accepts exactly a credential that presents itself so, each of whose sessions, the orders
      first, has a receipt of its own that is proper and can be taken for no other session's, and that
      was observed at most thirty seconds outside the session of its orders. */
  lemma VerifiesExactly(w: World, e: Evidence, text: string, now: int)
    ensures Verify(w, e, text, now).Ok? <==>
            && Presents(w, e.credential, text, now) && RolesInOrder(e.credential.sessions)
            && |e.receipts| == |e.credential.sessions|
            && exists m: seq<nat> ::
                 && |m| == |e.receipts| && (forall i, j :: 0 <= i < j < |m| ==> m[i] != m[j])
                 && (forall k :: 0 <= k < |m| ==> Chosen(w, e, k, m[k], text, now))
                 && ObservedNear(w, e.credential.observedAt, e.receipts[m[0]])
  {
    PresentsExactly(w, e, text, now);
    hide Checked, Presents, RolesInOrder, Match, Chosen, ObservedNear, Paired;
    if Checked(w, e, text, now) == None {
      EarlyPasses(w, e, text, now);
      var c := e.credential;
      if Match(w, c.sessions, e.receipts, text, now).Ok? {
        var m := Match(w, c.sessions, e.receipts, text, now).value;
        MatchExactly(w, c.sessions, e.receipts, text, now, m);
        OrdersReceipt(w, c.sessions, e.receipts, text, now, m);
        PairedChosen(w, e, text, now, m);
        ObservedNearExactly(w, c.observedAt, e.receipts[m[0]]);
      }
      forall m: seq<nat> |
        |m| == |e.receipts| && (forall i, j :: 0 <= i < j < |m| ==> m[i] != m[j])
        && forall k :: 0 <= k < |m| ==> Chosen(w, e, k, m[k], text, now)
        ensures Match(w, c.sessions, e.receipts, text, now) == Ok(m)
      {
        PairedChosen(w, e, text, now, m);
        MatchExactly(w, c.sessions, e.receipts, text, now, m);
      }
    }
  }

  /** Receipt `i` is proper, and the only one that names what session `k` names. */
  ghost predicate Chosen(w: World, e: Evidence, k: nat, i: nat, text: string, now: int)
    requires k < |e.credential.sessions|
  {
    && i < |e.receipts| && Proper(w, e.receipts[i], text, now)
    && forall j :: 0 <= j < |e.receipts| ==>
         var r, s := e.receipts[j], e.credential.sessions[k];
         j == i <==> r.hDown == s.hDown && r.hHello == s.hHello && r.pubkey == s.pubkey && r.tStart == s.tStart
  }

  ghost predicate ObservedNear(w: World, observedAt: string, r: Receipt) {
    exists observed, start, end ::
      && w.parse(observedAt) == Aware(observed) && w.parse(r.tStart) == Aware(start) && w.parse(r.tEnd) == Aware(end)
      && start - 30_000_000 <= observed <= end + 30_000_000
  }

  lemma ObservedNearExactly(w: World, observedAt: string, r: Receipt)
    requires w.parse(observedAt).Aware? && w.parse(r.tStart).Aware? && w.parse(r.tEnd).Aware?
    ensures ObservedNear(w, observedAt, r) <==>
            w.parse(r.tStart).at - 30_000_000 <= w.parse(observedAt).at <= w.parse(r.tEnd).at + 30_000_000
  {
  }

  lemma PairedChosen(w: World, e: Evidence, text: string, now: int, m: seq<nat>)
    requires Dated(w, text) && |e.receipts| == |e.credential.sessions|
    ensures Paired(w, e.credential.sessions, e.receipts, text, now, m) <==>
            && |m| == |e.receipts| && (forall i, j :: 0 <= i < j < |m| ==> m[i] != m[j])
            && forall k :: 0 <= k < |m| ==> Chosen(w, e, k, m[k], text, now)
  {
    hide Pairs, Chosen;
    if |m| == |e.receipts| {
      forall k | 0 <= k < |m|
        ensures Pairs(w, e.credential.sessions[k], e.receipts, text, now, m[k]) <==> Chosen(w, e, k, m[k], text, now)
      {
        ChosenExactly(w, e, k, m[k], text, now);
      }
    }
  }

  lemma ChosenExactly(w: World, e: Evidence, k: nat, i: nat, text: string, now: int)
    requires Dated(w, text) && k < |e.credential.sessions|
    ensures Pairs(w, e.credential.sessions[k], e.receipts, text, now, i) <==> Chosen(w, e, k, i, text, now)
  {
    hide ReceiptFault, Proper, Found;
    var s := e.credential.sessions[k];
    var found := Found(e.receipts, s);
    if i < |e.receipts| {
      ReceiptExactly(w, e.receipts[i], text, now);
      if Same(e.receipts[i], s) {
        FoundOnly(e.receipts, s, i);
      } else {
        assert i !in found;
      }
    }
  }

  // ----- What acceptance implies -----

  function Places(m: seq<nat>): set<nat> {
    if m == [] then {} else Places(m[..|m| - 1]) + {m[|m| - 1]}
  }

  lemma {:induction false} PlacesCount(m: seq<nat>)
    ensures forall i: nat :: i in Places(m) <==> i in m
    ensures Unrepeated(m) ==> |Places(m)| == |m|
  {
    if m != [] {
      PlacesCount(m[..|m| - 1]);
      assert m == m[..|m| - 1] + [m[|m| - 1]];
    }
  }

  function Below(n: nat): (all: set<nat>)
    ensures |all| == n && forall i: nat :: i in all <==> i < n
  {
    if n == 0 then {} else Below(n - 1) + {n - 1}
  }

  /** As many distinct places as there are: none is left over. */
  lemma Pigeonhole(m: seq<nat>, n: nat)
    requires Unrepeated(m) && |m| == n && forall k :: 0 <= k < |m| ==> m[k] < n
    ensures forall i: nat :: i < n ==> i in m
  {
    PlacesCount(m);
    SameSet(Places(m), Below(n));
  }

  /** Acceptance pairs sessions and receipts one to one with none of either left over, each receipt
      being the only one its session can mean. */
  lemma SessionsMatchReceipts(w: World, e: Evidence, text: string, now: int)
    requires Verify(w, e, text, now).Ok?
    ensures Dated(w, text)
    ensures exists m: seq<nat> ::
              && Paired(w, e.credential.sessions, e.receipts, text, now, m)
              && forall i: nat :: i < |e.receipts| ==> i in m
  {
    hide Match, Paired, ClaimFault, TimeFault;
    var m := Match(w, e.credential.sessions, e.receipts, text, now).value;
    MatchExactly(w, e.credential.sessions, e.receipts, text, now, m);
    PairedPlaces(w, e.credential.sessions, e.receipts, text, now, m);
    Pigeonhole(m, |e.receipts|);
  }

  lemma PairedPlaces(w: World, sessions: seq<Bound>, receipts: seq<Receipt>, text: string, now: int, m: seq<nat>)
    requires Dated(w, text) && Paired(w, sessions, receipts, text, now, m)
    ensures Unrepeated(m) && |m| == |sessions|
    ensures forall k :: 0 <= k < |m| ==> m[k] < |receipts| && ReceiptFault(w, receipts[m[k]], text, now) == None
  {
    hide ReceiptFault, Unrepeated;
  }

  /** A receipt lies within the ticket's window. */
  predicate During(w: World, r: Receipt, text: string)
    requires Dated(w, text)
  {
    var ticket, start, end := w.tickets(text).value, w.parse(r.tStart), w.parse(r.tEnd);
    start.Aware? && end.Aware? && w.parse(ticket.issuedAt).at <= start.at <= end.at < w.parse(ticket.expiresAt).at
  }

  lemma FaultlessIsDuring(w: World, r: Receipt, text: string, now: int)
    requires Dated(w, text) && ReceiptFault(w, r, text, now) == None
    ensures During(w, r, text) && w.witnessed(r) && w.trusted(r.pubkey, Witness)
  {
    hide FullShape, Upstream;
  }

  /** Every receipt, from its start to its end, and the observation lie in one ticket window of at
      most ten minutes, so any two of these times are less than ten minutes apart. */
  lemma OneWindow(w: World, e: Evidence, text: string, now: int, i: nat, j: nat)
    requires Verify(w, e, text, now).Ok? && i < |e.receipts| && j < |e.receipts|
    ensures Dated(w, text) && During(w, e.receipts[i], text) && During(w, e.receipts[j], text)
    ensures var start, end := w.parse(e.receipts[i].tStart).at, w.parse(e.receipts[j].tEnd).at;
      var observed := w.parse(e.credential.observedAt).at;
      && -600_000_000 < end - start < 600_000_000
      && -600_000_000 < observed - start < 600_000_000 && -600_000_000 < observed - end < 600_000_000
  {
    hide Match, Paired, ClaimFault, BindingFault, ReceiptFault;
    SessionsMatchReceipts(w, e, text, now);
    var m: seq<nat> :|
      Paired(w, e.credential.sessions, e.receipts, text, now, m) && forall r: nat :: r < |e.receipts| ==> r in m;
    PairedPlaces(w, e.credential.sessions, e.receipts, text, now, m);
    assert i in m && j in m;
    var k :| 0 <= k < |m| && m[k] == i;
    var l :| 0 <= l < |m| && m[l] == j;
    FaultlessIsDuring(w, e.receipts[i], text, now);
    FaultlessIsDuring(w, e.receipts[j], text, now);
  }

  // ----- Soundness -----

  /** Attested appraiser keys sign only what the appraiser issues. */
  ghost predicate Honest(w: World) {
    forall key, c :: w.signed(key, c) && w.trusted(key, Appraiser) ==> Issued(w, key, c)
  }

  ghost predicate Issued(w: World, key: string, c: Credential) {
    exists b, symbol, days, traceTs :: Issue(w, b, symbol, days, traceTs, key) == Ok(c)
  }

  /** The presented receipts name the ciphertexts of the sessions behind the credential. */
  ghost predicate Names(w: World, b: Bundle, e: Evidence, m: seq<nat>) {
    && |m| == |b.instruments| + 1
    && forall k :: 0 <= k < |m| ==>
         && m[k] < |e.receipts| && w.witnessed(e.receipts[m[k]])
         && e.receipts[m[k]].hDown == w.digest(SessionAt(b, k).down)
         && e.receipts[m[k]].hHello == w.digest(SessionAt(b, k).hello)
  }

  lemma ReceiptsName(w: World, b: Bundle, e: Evidence, symbol: string, days: int, traceTs: string, text: string,
                     now: int, m: seq<nat>)
    requires Issue(w, b, symbol, days, traceTs, e.credential.vaultKey) == Ok(e.credential)
    requires Dated(w, text) && Paired(w, e.credential.sessions, e.receipts, text, now, m)
    ensures Names(w, b, e, m)
  {
    hide Issue, CheckSession, Found, ReceiptFault, Unrepeated;
    var c := e.credential;
    IssuedSessions(w, b, symbol, days, traceTs, c.vaultKey, 0);
    forall k: nat | k < |m|
      ensures m[k] < |e.receipts| && w.witnessed(e.receipts[m[k]])
      ensures e.receipts[m[k]].hDown == w.digest(SessionAt(b, k).down)
      ensures e.receipts[m[k]].hHello == w.digest(SessionAt(b, k).hello)
    {
      IssuedSessions(w, b, symbol, days, traceTs, c.vaultKey, k);
      CheckedReceipt(w, SessionAt(b, k), b.ticket);
      assert Pairs(w, c.sessions[k], e.receipts, text, now, m[k]);
      FaultlessIsDuring(w, e.receipts[m[k]], text, now);
      assert m[k] in Found(e.receipts, c.sessions[k]);
    }
  }

  /** If the check accepts, an appraiser opened witnessed sessions whose orders hold a filled buy or
      sell of an instrument witnessed to be the symbol, within the days of the trace, and the
      presented receipts are witness receipts of those sessions' ciphertexts. */
  lemma CredentialIsSound(w: World, e: Evidence, text: string, now: int)
    requires Honest(w) && Verify(w, e, text, now).Ok?
    ensures var c := e.credential;
      exists b: Bundle, k: nat, m: seq<nat> ::
        Backed(w, b, c.symbol, c.days, c.traceTs, k) && Binds(w, b, c) && Names(w, b, e, m)
  {
    hide Match, Paired, TimeFault, TicketFault, Issue, Backed, Names, Dated, Binds;
    var c := e.credential;
    assert w.signed(c.vaultKey, c) && w.trusted(c.vaultKey, Appraiser) && c.value;
    var b, symbol, days, traceTs :| Issue(w, b, symbol, days, traceTs, c.vaultKey) == Ok(c);
    TrueOutcomeIsBacked(w, b, symbol, days, traceTs, c.vaultKey);
    var k: nat :| Backed(w, b, symbol, days, traceTs, k);
    SessionsMatchReceipts(w, e, text, now);
    var m: seq<nat> :| Paired(w, c.sessions, e.receipts, text, now, m);
    ReceiptsName(w, b, e, symbol, days, traceTs, text, now, m);
  }

  /** What the verdict says of an accepted credential is so: its owner and job are those of the
      presented ticket, its claim is true and backed by witnessed sessions, and it is good for
      twenty-four hours from the observation, which lies in the past and in the ticket's window. */
  lemma VerdictIsSound(w: World, e: Evidence, text: string, now: int)
    requires Honest(w) && Verify(w, e, text, now).Ok?
    ensures var v, ticket := Verify(w, e, text, now).value, w.tickets(text);
      && ticket.Some? && v.owner == ticket.value.owner && v.job == ticket.value.job
      && v.linkHash == w.ticketHash(text) && v.value
      && v.purpose == "trace-vault.credential.robinhood-traded-outcome.v1"
      && w.parse(v.observedAt).Aware?
      && var observed := w.parse(v.observedAt).at;
         && w.parse(ticket.value.issuedAt).Aware? && w.parse(ticket.value.expiresAt).Aware?
         && w.parse(ticket.value.issuedAt).at <= observed < w.parse(ticket.value.expiresAt).at
         && v.validUntil == observed + 86_400_000_000 && observed <= now <= v.validUntil
         && exists b: Bundle, k: nat, m: seq<nat> ::
              Backed(w, b, v.symbol, v.days, v.traceTs, k) && Binds(w, b, e.credential) && Names(w, b, e, m)
  {
    hide Match, Backed, Names, Issue, Honest, Binds;
    CredentialIsSound(w, e, text, now);
  }

  // ----- Issued credentials -----

  /** What an issued credential still needs to be accepted at `now`, beyond having been issued. */
  ghost predicate Presentable(w: World, b: Bundle, c: Credential, now: int) {
    && |c.symbol| <= 32 && Timely(w, b, c, now) && Distinguishable(b)
    && forall k :: 0 <= k <= |b.instruments| ==> Recent(w, SessionAt(b, k).receipt, now)
  }

  /** The time of observation can be read back from the credential it is written into. */
  predicate ObservedSurvives(w: World, b: Bundle) {
    var orders := VerifyOrders(w, b);
    orders.Ok? ==> w.parse(w.format(orders.value.observed)) == Aware(orders.value.observed)
  }

  /** The trace is in the past, and the observation lies in the ticket's window and in the last day. */
  predicate Timely(w: World, b: Bundle, c: Credential, now: int) {
    && w.parse(c.traceTs).Aware? && w.parse(c.traceTs).at <= now
    && w.parse(c.observedAt).Aware? && w.parse(c.observedAt).at <= now <= w.parse(c.observedAt).at + DAY
    && w.tickets(b.ticket).Some?
    && var ticket := w.tickets(b.ticket).value;
       var (issued, expiry) := (w.parse(ticket.issuedAt), w.parse(ticket.expiresAt));
       issued.Aware? && expiry.Aware? && issued.at <= w.parse(c.observedAt).at < expiry.at
  }

  /** The receipt has the full shape and ended in the last day. */
  predicate Recent(w: World, r: Receipt, now: int) {
    && FullShape(r) && r.port == Some(443) && 0 <= r.bytesUp && 0 <= r.bytesDown
    && w.parse(r.tEnd).Aware? && w.parse(r.tEnd).at <= now <= w.parse(r.tEnd).at + DAY
  }

  lemma RecentExactly(w: World, s: Session, text: string, now: int)
    requires CheckSession(w, s, text).Ok? && Dated(w, text)
    ensures ReceiptFault(w, s.receipt, text, now) == None <==> Recent(w, s.receipt, now)
  {
    hide CheckSession, Hash64, VerifyTicket, Upstream;
    CheckedReceipt(w, s, text);
  }

  lemma FoundOnly(receipts: seq<Receipt>, s: Bound, k: nat)
    requires k < |receipts| && Same(receipts[k], s)
    ensures k in Found(receipts, s)
    ensures Found(receipts, s) == [k] <==> forall j :: 0 <= j < |receipts| && j != k ==> !Same(receipts[j], s)
  {
    hide Same, Found;
    var found := Found(receipts, s);
    assert k in found && (|found| > 1 ==> found[0] != found[1]);
    if forall j :: 0 <= j < |receipts| && j != k ==> !Same(receipts[j], s) {
      forall i | 0 <= i < |found|
        ensures found[i] == k
      {
        assert found[i] in found;
      }
    } else {
      var j: nat :| j < |receipts| && j != k && Same(receipts[j], s);
      assert j in found;
    }
  }

  /** No two sessions of a bundle have receipts that could be taken for each other. */
  ghost predicate Distinguishable(b: Bundle) {
    forall j, k :: 0 <= j < k <= |b.instruments| ==>
      !Same(SessionAt(b, j).receipt, BoundTo(SessionAt(b, k).receipt, SESSION))
  }

  predicate InPlace(b: Bundle, sessions: seq<Bound>) {
    && |sessions| == |b.instruments| + 1
    && forall k :: 0 <= k < |sessions| ==>
         sessions[k] == BoundTo(SessionAt(b, k).receipt, if k == 0 then ORDERS else SESSION)
  }

  /** No receipt could be taken for that of another session. */
  ghost predicate NoneMistaken(receipts: seq<Receipt>, sessions: seq<Bound>) {
    forall j, k :: 0 <= j < |receipts| && 0 <= k < |sessions| && j != k ==> !Same(receipts[j], sessions[k])
  }

  lemma DistinguishableReceipts(b: Bundle, sessions: seq<Bound>)
    requires InPlace(b, sessions)
    ensures Distinguishable(b) <==> NoneMistaken(Receipts(b), sessions)
  {
    var receipts := Receipts(b);
    assert forall k :: 0 <= k < |sessions| ==> receipts[k] == SessionAt(b, k).receipt;
    hide Receipts;
    if NoneMistaken(receipts, sessions) {
      forall j, k | 0 <= j < k <= |b.instruments|
        ensures !Same(SessionAt(b, j).receipt, BoundTo(SessionAt(b, k).receipt, SESSION))
      {
        assert !Same(receipts[j], sessions[k]);
      }
    }
    if Distinguishable(b) {
      forall j, k | 0 <= j < |receipts| && 0 <= k < |sessions| && j != k
        ensures !Same(receipts[j], sessions[k])
      {
        var (x, y) := if j < k then (j, k) else (k, j);
        assert !Same(SessionAt(b, x).receipt, BoundTo(SessionAt(b, y).receipt, SESSION));
      }
    }
  }

  lemma DistinguishableExactly(b: Bundle, sessions: seq<Bound>)
    requires InPlace(b, sessions)
    ensures Distinguishable(b) <==> forall k: nat :: k < |sessions| ==> Found(Receipts(b), sessions[k]) == [k]
    ensures forall k: nat :: k < |sessions| ==> k in Found(Receipts(b), sessions[k])
  {
    DistinguishableReceipts(b, sessions);
    var receipts := Receipts(b);
    assert |receipts| == |sessions|;
    forall k: nat | k < |sessions|
      ensures Same(receipts[k], sessions[k])
    {
    }
    hide Found, Receipts, Same, InPlace, Distinguishable;
    forall k: nat | k < |sessions|
      ensures k in Found(receipts, sessions[k])
      ensures Found(receipts, sessions[k]) == [k] <==>
              (forall j :: 0 <= j < |receipts| && j != k ==> !Same(receipts[j], sessions[k]))
    {
      FoundOnly(receipts, sessions[k], k);
    }
  }

  function Own(n: nat): (own: seq<nat>)
    ensures |own| == n && forall k :: 0 <= k < n ==> own[k] == k
  {
    seq(n, k requires 0 <= k < n => k as nat)
  }

  lemma PairsOwn(w: World, b: Bundle, sessions: seq<Bound>, text: string, now: int, k: nat)
    requires Dated(w, text) && k <= |b.instruments| && k < |sessions| && CheckSession(w, SessionAt(b, k), text).Ok?
    ensures Pairs(w, sessions[k], Receipts(b), text, now, k) <==>
            Found(Receipts(b), sessions[k]) == [k] && Recent(w, SessionAt(b, k).receipt, now)
  {
    assert Receipts(b)[k] == SessionAt(b, k).receipt;
    hide CheckSession, ReceiptFault, Recent, Found, Receipts;
    RecentExactly(w, SessionAt(b, k), text, now);
  }

  lemma OwnPaired(w: World, b: Bundle, sessions: seq<Bound>, text: string, now: int)
    requires Dated(w, text) && InPlace(b, sessions)
    requires forall k :: 0 <= k < |sessions| ==> CheckSession(w, SessionAt(b, k), text).Ok?
    ensures Paired(w, sessions, Receipts(b), text, now, Own(|sessions|)) <==>
            Distinguishable(b) && forall k :: 0 <= k <= |b.instruments| ==> Recent(w, SessionAt(b, k).receipt, now)
  {
    InPlaceLength(b, sessions);
    OwnUnrepeated(|sessions|);
    hide CheckSession, Recent, Distinguishable, Found, Receipts, InPlace, Pairs, Unrepeated;
    DistinguishableExactly(b, sessions);
    forall k: nat | k < |sessions|
      ensures Pairs(w, sessions[k], Receipts(b), text, now, k) <==>
              Found(Receipts(b), sessions[k]) == [k] && Recent(w, SessionAt(b, k).receipt, now)
    {
      PairsOwn(w, b, sessions, text, now, k);
    }
  }

  lemma OwnUnrepeated(n: nat)
    ensures Unrepeated(Own(n))
  {
  }

  lemma InPlaceLength(b: Bundle, sessions: seq<Bound>)
    requires InPlace(b, sessions)
    ensures |sessions| == |b.instruments| + 1
  {
  }

  /** With the receipts in the order of the sessions, the pairing can only be each with its own. */
  lemma OwnReceipts(w: World, b: Bundle, sessions: seq<Bound>, text: string, now: int)
    requires Dated(w, text) && InPlace(b, sessions)
    requires forall k :: 0 <= k < |sessions| ==> CheckSession(w, SessionAt(b, k), text).Ok?
    ensures var matched := Match(w, sessions, Receipts(b), text, now);
      && (matched.Ok? <==>
            Distinguishable(b) && forall k :: 0 <= k <= |b.instruments| ==> Recent(w, SessionAt(b, k).receipt, now))
      && (matched.Ok? ==> matched == Ok(Own(|sessions|)))
  {
    hide CheckSession, ReceiptFault, Recent, Match, Distinguishable, Found, Receipts, InPlace, Unrepeated;
    var receipts, own := Receipts(b), Own(|sessions|);
    DistinguishableExactly(b, sessions);
    OwnPaired(w, b, sessions, text, now);
    MatchExactly(w, sessions, receipts, text, now, own);
    if Match(w, sessions, receipts, text, now).Ok? {
      var m := Match(w, sessions, receipts, text, now).value;
      MatchExactly(w, sessions, receipts, text, now, m);
      forall k: nat | k < |sessions|
        ensures m[k] == k
      {
        assert Pairs(w, sessions[k], receipts, text, now, m[k]) && k in Found(receipts, sessions[k]);
      }
      assert m == own;
    }
  }

  /** A true credential, presented with the receipts of its sessions and its ticket, is accepted
      exactly when its symbol is short enough, its trace is past, it was observed within the ticket's
      window and the last day, no two of its receipts can be confused, and each receipt has the full
      shape and ended within the last day. */
  lemma IssuedIsAcceptedExactly(w: World, b: Bundle, symbol: string, days: int, traceTs: string, key: string, now: int)
    requires var c := Issue(w, b, symbol, days, traceTs, key); c.Ok? && c.value.value && w.signed(key, c.value)
    requires w.trusted(key, Appraiser) && ObservedSurvives(w, b)
    ensures var c := Issue(w, b, symbol, days, traceTs, key).value;
      Verify(w, Evidence(c, Receipts(b)), b.ticket, now).Ok? <==> Presentable(w, b, c, now)
  {
    hide *;
    var c := Issue(w, b, symbol, days, traceTs, key).value;
    IssuedInPlace(w, b, symbol, days, traceTs, key);
    IssuedChecks(w, b, symbol, days, traceTs, key, now);
    DistinguishableUnrepeated(b, c.sessions);
    PresentableParts(w, b, c, now);
    InPlaceLength(b, c.sessions);
    OwnReceipts(w, b, c.sessions, b.ticket, now);
    AcceptedWhen(w, Evidence(c, Receipts(b)), b.ticket, now);
  }

  lemma PresentableParts(w: World, b: Bundle, c: Credential, now: int)
    ensures Presentable(w, b, c, now) <==>
            && |c.symbol| <= 32 && Timely(w, b, c, now) && Distinguishable(b)
            && forall k :: 0 <= k <= |b.instruments| ==> Recent(w, SessionAt(b, k).receipt, now)
  {
  }

  /** The stages of the check, where the first receipt belongs to the first session. */
  lemma AcceptedWhen(w: World, e: Evidence, text: string, now: int)
    requires Dated(w, text) && w.parse(e.credential.observedAt).Aware? && |e.receipts| > 0
    requires w.parse(e.receipts[0].tStart).Aware? && w.parse(e.receipts[0].tEnd).Aware?
    requires Match(w, e.credential.sessions, e.receipts, text, now).Ok? ==>
               Match(w, e.credential.sessions, e.receipts, text, now) == Ok(Own(|e.credential.sessions|))
    ensures var c, start, end := e.credential, w.parse(e.receipts[0].tStart).at, w.parse(e.receipts[0].tEnd).at;
      Verify(w, e, text, now).Ok? <==>
        && ClaimFault(c) == None && TimeFault(w, c, now) == None && BindingFault(w, e) == None
        && TicketFault(w, c, text) == None
        && Match(w, c.sessions, e.receipts, text, now).Ok?
        && start - 30 * SECOND <= w.parse(c.observedAt).at <= end + 30 * SECOND
  {
    hide ClaimFault, TimeFault, BindingFault, TicketFault, Match, Dated;
    if Checked(w, e, text, now) == None {
      EarlyPasses(w, e, text, now);
    }
  }

  lemma IssuedInPlace(w: World, b: Bundle, symbol: string, days: int, traceTs: string, key: string)
    requires Issue(w, b, symbol, days, traceTs, key).Ok?
    ensures InPlace(b, Issue(w, b, symbol, days, traceTs, key).value.sessions) && Dated(w, b.ticket)
    ensures forall k :: 0 <= k <= |b.instruments| ==> CheckSession(w, SessionAt(b, k), b.ticket).Ok?
  {
    hide Issue, CheckSession;
    forall k | 0 <= k <= |b.instruments|
      ensures CheckSession(w, SessionAt(b, k), b.ticket).Ok?
      ensures var c := Issue(w, b, symbol, days, traceTs, key).value;
        && |c.sessions| == |b.instruments| + 1
        && c.sessions[k] == BoundTo(SessionAt(b, k).receipt, if k == 0 then ORDERS else SESSION)
    {
      IssuedSessions(w, b, symbol, days, traceTs, key, k);
    }
    IssuedSessions(w, b, symbol, days, traceTs, key, 0);
    CheckedReceipt(w, b.orders, b.ticket);
  }

  lemma DistinguishableUnrepeated(b: Bundle, sessions: seq<Bound>)
    requires InPlace(b, sessions)
    ensures Distinguishable(b) ==> Unrepeated(sessions)
  {
    forall j, k | Distinguishable(b) && 0 <= j < k < |sessions|
      ensures sessions[j] != sessions[k]
    {
      assert !Same(SessionAt(b, j).receipt, BoundTo(SessionAt(b, k).receipt, SESSION));
    }
  }

  /** The checks before the receipts, on an issued credential. */
  lemma IssuedChecks(w: World, b: Bundle, symbol: string, days: int, traceTs: string, key: string, now: int)
    requires var c := Issue(w, b, symbol, days, traceTs, key); c.Ok? && c.value.value && w.signed(key, c.value)
    requires w.trusted(key, Appraiser) && ObservedSurvives(w, b)
    ensures var c := Issue(w, b, symbol, days, traceTs, key).value;
      && (ClaimFault(c) == None <==> |c.symbol| <= 32)
      && (TimeFault(w, c, now) == None && TicketFault(w, c, b.ticket) == None <==> Timely(w, b, c, now))
      && (BindingFault(w, Evidence(c, Receipts(b))) == None <==> Unrepeated(c.sessions))
      && w.parse(c.observedAt).Aware? && Receipts(b)[0] == b.orders.receipt
      && w.parse(b.orders.receipt.tStart).Aware? && w.parse(b.orders.receipt.tEnd).Aware?
      && w.parse(b.orders.receipt.tStart).at - 30 * SECOND
         <= w.parse(c.observedAt).at <= w.parse(b.orders.receipt.tEnd).at + 30 * SECOND
  {
    hide Traded, Instruments, Claim;
    CheckedReceipt(w, b.orders, b.ticket);
  }
}
