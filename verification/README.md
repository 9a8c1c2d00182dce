# Verified model of the trace marketplace's hard core

The repository is a marketplace for AI traces. This project models the parts of it whose
correctness is not visible in any one function, in Dafny 4.11, and proves what those parts are
for. `dafny verify dfyconfig.toml` checks everything.

**Evidence pipeline.** `Reveal` is the TLS 1.3 record receiver that decrypts a witnessed
ciphertext: it skips records until the first one opens, then fails closed, and follows the
sender's key updates. `Handshake` reassembles the handshake flight and walks the certificate list.
`ClientHello` holds the two independent parsers the blind witness runs on the first record.
`Chunked` decodes chunked HTTP bodies, with Python's reading of the size line. `TradedCredential`
opens witnessed sessions, resolves instruments and issues the traded-outcome credential;
`CredentialCheck` verifies it against receipts and a link ticket. `Appraiser` is the replay filter
under concurrent handlers. `Measurement` replays an attested event log.

**API.** `RateWindows` and `Gate` are the rate decisions of admission control as functions over
clock readings; `Admission` is the admission object with its slots, grants and once-only releases
on the heap. `Activity` is the telemetry that must agree with a plain log.

**Browser code.** `WalletAuth` interleaves sign-in, restore, sign-out, wallet events, prompt
timeouts and destruction. `CanonicalJson` and `ProxyCapture` recheck a downloaded capture, and
`JsonReader` is a reader of JSON that the canonical text is held against.
`Cart` compiles a cart into one batch and runs it against the two tokens in `contracts/src`.
`MandateEditor` retries a save with a frozen body and key, and `Money` is its exact arithmetic.
`Bytes` and `Numerals` hold what several of these share.

How the models are built: code that changes state step by step is a class or a method with loops,
proved equal to a specification function; the theorems are about those functions, over all inputs
or all runs. Where threads or awaits interleave, the atomic stretches are actions of a state
machine and runs are arbitrary sequences of them. Cryptography is ideal: an AEAD opens only what
was sealed under the same key, nonce and header; signatures and attestations are predicates of what
was signed and attested; hashes do not collide on the inputs actually hashed, which a fixed-length
hash can satisfy. Clocks, hash functions, parsers of dates and the network are
parameters.

## What the code does that its comments or callers may not expect

- `Chunked`: the 8 MiB bound on a chunked body does not hold. Python's `int(line, 16)` accepts a
  minus sign, and a size line of "-7" returns all but the last seven bytes of the rest
  (`NegativeSizeLine`); `BodyBoundExactly` says from which input length on.
- `Appraiser`: the clock is read before the lock is taken, so a later reading can forget a digest
  before an earlier reading is checked against it, and one sealed request can be issued twice
  although both readings precede its expiry (`ReplayIssuedTwice`). `AtMostOnceInReadingOrder` and
  `RefusesExactly` say when it cannot.
- `Reveal`: fail-closed prefix safety needs that no record is misread as a key update;
  `PrefixSafeExactlyWhenGapFree` gives the exact condition on the sent records.
- `Gate`: a call of the admission object reads the clock up to five times, so it can straddle two
  generations. A credential can then be admitted once more than twice its limit, under the default
  limits too; `CredentialExactly` says under which limits it cannot. A tenant's three times its limit
  holds either way, and is reached (`TenantExactly`).
- `Measurement`: names with colons, or events of another type in register 3, can hide what an honest
  boot recorded (`ColonsHideNames`, `DigestsHideNames`), although no colon-free name can be forged
  (`NothingForged`). `IdentityExactly` gives the condition on the presented log under which nothing is
  hidden; the code does not check it.
- `WalletAuth`: a sign-out or a wallet event declares the page signed out when its revocation is over,
  without checking the epoch, so a late one undoes a newer session (`SpoilableExactly`).
- `Cart`: nothing checks that the sum of a cart is below 2 to the 256; `CartRunsExactly` shows that
  such a batch fails as a whole rather than paying part of it.
- `MandateEditor`: exactly-once saving needs the server to treat a refusal of a key as final
  (`LateRequestCommitsTwice`).

## Model

| member | source | states |
|---|---|---|
| `Reveal.Records` | trace-vault/reveal.py:44-51 | the record loop yields the longest run of complete records at the front of the stream |
| `Reveal.RecordIsFound` | trace-vault/reveal.py:46-50 | any kind, two version bytes, the length in two bytes in network order and that many bytes, with anything behind them, are found as that record (section 5.1 of RFC 8446) |
| `Reveal.ParseInvertsWire` | trace-vault/reveal.py:44-51 | parsing the serialisation of any framed records followed by an incomplete one gives those records back |
| `Reveal.WireInvertsParse` | trace-vault/reveal.py:44-51 | every stream is the serialisation of what is parsed from it, followed by an incomplete record |
| `Reveal.Unpad` | trace-vault/reveal.py:53-57 | the backward scan splits an inner plaintext into content and type, and fails on all zeros |
| `Reveal.UnpadInvertsPad` | trace-vault/reveal.py:53-57 | content, a nonzero type and any number of zeros unpad to the content and the type (section 5.4 of RFC 8446) |
| `Reveal.UnpadIsExact` | trace-vault/reveal.py:53-57 | unpadding fails exactly on all zeros, and otherwise the input is the padding of the result |
| `Reveal.DecryptDir` | trace-vault/reveal.py:59-84 | the receive loop with its key ratchet and its started flag computes `Decrypted`, errors included |
| `Reveal.PrefixSafety` | trace-vault/reveal.py:59-84 | whatever records arrive in whatever order, a receiver that does not fail skipped some records and then saw exactly the first `k` records of the sender, and its output is exactly their application data |
| `Reveal.DeliveredDataIsPrefix` | trace-vault/reveal.py:59-84 | for any byte stream at all, the output is a prefix of the data the sender sent, or the call fails |
| `Reveal.RealKeyUpdatesLeaveNoGap` | trace-vault/reveal.py:80-82 | if every inner handshake record starting with 0x18 is one of the sender's KeyUpdates, there is no gap |
| `Reveal.GapSkipsData` | trace-vault/reveal.py:80-82 | if there is a gap, a delivery that leaves records out is accepted without an error |
| `Reveal.GapsExist` | trace-vault/reveal.py:80-82 | such a gap can be sent: two handshake records starting with 0x18 of which only the second is a KeyUpdate |
| `Reveal.PrefixSafeExactlyWhenGapFree` | trace-vault/reveal.py:71-82 | prefix safety of every delivery holds if and only if the sender leaves no gap, a condition on the sent records alone |
| `Reveal.AcceptsExactlyPrefixes` | trace-vault/reveal.py:67-84 | the receiver succeeds on exactly the deliveries made of skipped records followed by an unbroken run of the sender's records from the first |
| `Reveal.RoundTrip` | trace-vault/reveal.py:59-84 | records under another key, then the first `n` of the sender's padded records, across any number of key updates, then an incomplete record decrypt to the concatenated application data |
| `Reveal.NonceInjective` | trace-vault/reveal.py:41-42 | two sequence numbers below 2 to the 64 never share a nonce under one IV |
| `Reveal.NonceFlips` | trace-vault/reveal.py:41-42 | bit by bit, the nonce is the IV with those bits flipped that the sequence number sets when it is written in twelve bytes in network order (section 5.3 of RFC 8446) |
| `Reveal.IdealAeadIsAuthentic` | trace-vault/reveal.py:35-42 | an AEAD that opens only what was sealed under the same key, nonce and header, with keys that do not repeat up to the last generation in use, gives the authenticity that prefix safety assumes |
| `Handshake.HsMessages` | trace-vault/reveal.py:86-109 | the handshake loop and the split into messages compute `Reassembled` and `Split` |
| `Handshake.SplitMessages` | trace-vault/reveal.py:105-109 | the loop over message headers, with its last truncated message, computes `Split` |
| `Handshake.SplitInvertsFlight` | trace-vault/reveal.py:105-109 | splitting the concatenation of any messages gives the map of those messages, the last of each type winning |
| `Handshake.ReassemblesFragments` | trace-vault/reveal.py:91-104 | records that carry fragments in order reassemble to the concatenated fragments |
| `Handshake.FragmentationIsInvisible` | trace-vault/reveal.py:86-109 | the message map is the same however the flight is cut into records and whatever plaintext records come first (section 5.1 of RFC 8446) |
| `Handshake.CertificateDers` | trace-vault/reveal.py:139-145 | the walk over the certificate list computes `DersOf` of what follows the context |
| `Handshake.DersInvertEntries` | trace-vault/reveal.py:139-145 | the walk over any encoded certificate entries returns their DER bodies in order |
| `Handshake.CertificateRoundTrip` | trace-vault/reveal.py:139-145 | the same for a whole Certificate message with any request context |
| `ClientHello.OfferedAlpn` | trace-vault/witness.py:65-90 | the bounded parser, its loops over extensions and names included, computes `AlpnOffer` |
| `ClientHello.NamesIn` | trace-vault/witness.py:81-88 | the inner loop reads the protocol names of one extension, or refuses it |
| `ClientHello.ParseSni` | trace-vault/witness.py:45-63 | the tolerant parser computes `Sni`, an out-of-range index or undecodable name giving nothing |
| `ClientHello.NamesAreExact` | trace-vault/witness.py:82-88 | a name list is accepted exactly when it is the encoding of nonempty ASCII names |
| `ClientHello.NamesRead` | trace-vault/witness.py:82-88 | the encoding of any such names reads back as those names |
| `ClientHello.OfferedReads` | trace-vault/witness.py:75-90 | any extensions of distinct kinds read as the offer they encode |
| `ClientHello.OfferedAccepts` | trace-vault/witness.py:75-90 | whatever the walk accepts is an exact run of extensions of distinct kinds, and the offer is theirs |
| `ClientHello.SniWalksExtensions` | trace-vault/witness.py:55-60 | over the encoding of extensions the SNI walker stops at exactly their offsets |
| `ClientHello.WalkersAgree` | trace-vault/witness.py:45-90 | whenever the ALPN parser accepts, the hello ends in an exact extension sequence, the offer is what it says, and the SNI parser walks the same offsets |
| `ClientHello.HelloIsRead` | trace-vault/witness.py:48-74 | for every well-formed hello both parsers find the extensions where the encoder put them (section 4.1.2 of RFC 8446) |
| `ClientHello.FindsHost` | trace-vault/witness.py:55-60 | the walker passes the extensions before server_name and returns the host name in it |
| `ClientHello.HelloRoundTrip` | trace-vault/witness.py:45-63 | for every well-formed hello with a server_name extension, the SNI parser returns the encoded host name (section 3 of RFC 6066) |
| `ClientHello.AlpnRoundTrip` | trace-vault/witness.py:65-90 | for every well-formed hello the ALPN parser returns the protocol names that its ALPN extension encodes, wherever that stands, and none if there is no such extension (section 3.1 of RFC 7301) |
| `Chunked.Decode` | trace-vault/robinhood_link.py:59-78 | the decoding loop terminates on every input and computes `Decoded`, each failure included |
| `Chunked.PlainReads` | trace-vault/robinhood_link.py:65-68 | a line of plain hex digits is read as its value by `int(line, 16)` |
| `Chunked.ReadsInt16Exactly` | trace-vault/robinhood_link.py:65-68 | `int(line, 16)` exactly: blanks, at most one sign, at most one prefix, hex digits of either case with single underscores between them, and blanks, read as those digits with that sign; any other line is refused |
| `Chunked.DigitStands` | trace-vault/robinhood_link.py:65-68 | the digits are the sixteen of either case, each worth its place |
| `Chunked.DecodesRendered` | trace-vault/robinhood_link.py:59-78 | every rendering of a body in nonempty chunks, with any size line Python reads as the chunk's length, decodes to the body if it is within the bound and is refused as too large otherwise |
| `Chunked.RoundTrip` | trace-vault/robinhood_link.py:59-78 | however a body is split into nonempty chunks with plain size lines, it decodes to that body if it is within the bound and is refused otherwise (section 7.1 of RFC 9112) |
| `Chunked.AcceptsOnlyRendered` | trace-vault/robinhood_link.py:59-78 | without a minus sign in a size line, whatever is accepted is such a rendering, without extensions or trailers, and the result is within `MAX_BODY` |
| `Chunked.NegativeSizeLine` | trace-vault/robinhood_link.py:65-78 | a size line of "-7" returns everything but the last seven bytes whatever its length, so the bound is false in general |
| `Chunked.Accounting` | trace-vault/robinhood_link.py:65-78 | the result is within the bound, or empty, or at least eleven bytes shorter than the input |
| `Chunked.BodyBoundExactly` | trace-vault/robinhood_link.py:59-78 | the bound holds for all accepted inputs of at most `n` bytes if and only if `n` is at most `MAX_BODY` + 11 |
| `CanonicalJson.CanonicalIsInjective` | apps/dashboard/agent-capture-ui.js:10 | two JSON values with one canonical text are the same up to the order of keys |
| `CanonicalJson.ValueIsPrefixFree` | apps/dashboard/agent-capture-ui.js:10 | the same with anything after the text that cannot continue a number, which is what makes nesting work |
| `CanonicalJson.CanonicalExactly` | apps/dashboard/agent-capture-ui.js:10 | two values have one canonical text if and only if they are the same up to the order of keys |
| `JsonReader.CanonicalReads` | apps/dashboard/agent-capture-ui.js:10 | a JSON reader written apart from the canonical form reads the text of any value back as that value, up to the order of members, and finds the keys of every object in ascending order: a proper prefix first, otherwise by the first differing code unit |
| `JsonReader.ValueReads` | apps/dashboard/agent-capture-ui.js:10 | the same before anything that cannot continue a number, reading the value and leaving the rest |
| `JsonReader.LessIsBefore` | apps/dashboard/agent-capture-ui.js:10 | the comparison that sorts the keys is that order |
| `JsonReader.SpelledAsStringify` | apps/dashboard/agent-capture-ui.js:10 | each code unit is spelled as `JSON.stringify` spells it: seven have a two-character escape, other controls and half pairs six characters in lower case, the rest stand for themselves |
| `JsonReader.PairsStay` | apps/dashboard/agent-capture-ui.js:10 | a high and a low half in a row stay as they are; every other unit is spelled alone |
| `ProxyCapture.VerifyProxyCapture` | apps/dashboard/agent-capture-ui.js:9-43 | the whole check computes `Verified`: the missing loader, both formats with their early failures and counters, and the enclave seal; what that accepts and reports is stated by the two exact acceptance lemmas and `ReportsExactly`, over the text that `CanonicalReads` reads back |
| `ProxyCapture.SealFixesCapture` | apps/dashboard/agent-capture-ui.js:13-41 | a signed statement stands for one capture: accepted version-2 bundles whose seals sign the same text are the same bundle up to the seal, with the same parts in the same order, unless two of the texts hashed for them collide |
| `ProxyCapture.VerifyParts` | apps/dashboard/agent-capture-ui.js:18-23 | the loop over parts computes `CheckParts`, the count of interrupted parts included |
| `ProxyCapture.VerifyExchanges` | apps/dashboard/agent-capture-ui.js:27-31 | the loop over exchanges computes `CheckExchanges` |
| `ProxyCapture.CommitmentBinds` | apps/dashboard/agent-capture-ui.js:20-21 | two records committed to by one commitment are the same value, unless their texts collide |
| `ProxyCapture.RootBindsParts` | apps/dashboard/agent-capture-ui.js:13-23 | two version-2 captures accepted with one root have the same metadata, number of parts and part contents, in the same order, unless two of the texts hashed for them collide |
| `ProxyCapture.RootBindsExchanges` | apps/dashboard/agent-capture-ui.js:25-33 | the same for version 1, whose root covers the commitments |
| `ProxyCapture.AcceptsExactly` | apps/dashboard/agent-capture-ui.js:13-23 | a version-2 bundle passes exactly when it has 1 to 4096 parts, its root is the hash of its manifest and every part matches its descriptor |
| `ProxyCapture.AcceptsExchangesExactly` | apps/dashboard/agent-capture-ui.js:25-33 | a version-1 bundle passes exactly when it has 1 to 100 exchanges in sequence, each hashing to its own commitment, and its root is the hash of its metadata and commitments |
| `ProxyCapture.FitsExactly` | apps/dashboard/agent-capture-ui.js:36-37 | a seal fits a bundle exactly when its statement carries the seal purpose, the hash of the bundle without the seal, and the bundle's capture id and root |
| `ProxyCapture.ReportsExactly` | apps/dashboard/agent-capture-ui.js:14-43 | an accepted bundle is reported with its number of parts or exchanges, the number of them whose `complete` JavaScript takes for false, its root, and as sealed exactly when it carries a seal, which then fits it |
| `ProxyCapture.TruthyExactly` | apps/dashboard/agent-capture-ui.js:22-35 | what is taken for false is null, a missing member, false, zero and the empty string |
| `Appraiser.DigestBinds` | trace-vault/appraisal_transport.py:60-65 | the replay digest is the same exactly for the same client key and nonce, unless the two hashed inputs collide |
| `Appraiser.Service.TryAcquire` | trace-vault/robinhood_appraiser.py:48 | a slot is taken exactly if one is free |
| `Appraiser.Service.Release` | trace-vault/robinhood_appraiser.py:12-79 | a slot is given back, and a release that no acquire matches is refused |
| `Appraiser.Service.Renew` | trace-vault/robinhood_appraiser.py:30-35 | the identity is replaced exactly when the reading is not before its expiry |
| `Appraiser.Service.CheckReplay` | trace-vault/robinhood_appraiser.py:62-67 | the locked section forgets what expired, then refuses for room or replay, or records the digest |
| `Appraiser.Service.Purge` | trace-vault/robinhood_appraiser.py:63-64 | the deletion loop keeps exactly the digests that expire after the reading |
| `Appraiser.RunKeepsInvariant` | trace-vault/robinhood_appraiser.py:46-79 | under every interleaving of handler steps, renewals and clock ticks, at most 2 requests hold slots, the table never exceeds 1000 entries, it holds exactly the digests issued and not since forgotten, and no identity expires more than 300 seconds ahead |
| `Appraiser.NeverReleasedTwice` | trace-vault/robinhood_appraiser.py:48-79 | in every reachable state a request that still holds a slot can give it back, so the bounded semaphore never refuses a release |
| `Appraiser.RefusesExactly` | trace-vault/robinhood_appraiser.py:62-67 | a request is refused as busy at 1000 live digests, and one that finds room is refused as a replay exactly when its digest was issued and neither a later locked section nor this one read the clock at or past the expiry it was issued under |
| `Appraiser.OpenedInTime` | trace-vault/robinhood_appraiser.py:57-61 | in every run a request is opened, timed or issued only under an identity that had not expired when the request passed its check, before its body was read |
| `Appraiser.SectionsInTime` | trace-vault/robinhood_appraiser.py:57-67 | so every locked section belongs to a request that passed that check in time |
| `Appraiser.ReissueNeedsLateReading` | trace-vault/robinhood_appraiser.py:61-67 | a digest is issued twice only if some locked section after the first issue, up to the second, has a reading at or past the first expiry |
| `Appraiser.AtMostOnceInReadingOrder` | trace-vault/robinhood_appraiser.py:58-67 | if the lock is taken in the order of the clock readings, no digest is issued twice by readings before its expiry |
| `Appraiser.ReplayIssuedTwice` | trace-vault/robinhood_appraiser.py:61-67 | without that order it fails: a run of three requests issues one digest twice, both readings before the expiry, because the clock is read before the lock is taken |
| `RateWindows.PermanentRate` | apps/api/admission.ts:51-59 | with a clock that does not run backwards, a window that is never forgotten (public, pre-authentication, verified) admits at most twice its limit in any interval as long as the window |
| `RateWindows.ClearedRate` | apps/api/admission.ts:60-67 | a key whose window every generation forgets: at most twice the limit, and one more if calls may straddle generations |
| `RateWindows.SparedRate` | apps/api/admission.ts:71-86 | a key whose window may survive generations while work is in flight: at most three times the limit, whether or not calls straddle generations |
| `RateWindows.TickRate` | apps/api/admission.ts:51-67 | with windows of a single tick twice the limit holds even for straddling calls |
| `Gate.StraddlingCallCounts` | apps/api/admission.ts:60-67 | the bound is reached for windows of two ticks or more: a run admits twice the limit within two ticks of the clock, and one more if one call straddles, provided the window all credentials share leaves room |
| `Gate.SparedWindowAdmitsMore` | apps/api/admission.ts:71-86 | three times is reached for windows of three ticks or more: a run admits three times the limit within three ticks, and one less if no call straddles generations |
| `Gate.CredentialRate` | apps/api/admission.ts:60-67 | over any run of `enterAuthentication` with any other callers, one credential's own window keeps the bound of `ClearedRate` |
| `Gate.CredentialExactly` | apps/api/admission.ts:60-67 | under any limits, every run keeps a credential to twice its limit if and only if calls do not straddle generations, or windows last a single tick, or the window all credentials share is no larger than a credential's own |
| `Gate.TenantRate` | apps/api/admission.ts:71-86 | over any run of `enterVerified` with any slots spared, one tenant's own window admits at most three times its limit in any interval as long as the window, under any clock that does not run backwards |
| `Gate.TenantExactly` | apps/api/admission.ts:71-86 | every run keeps a tenant to `n` admissions per window if and only if `n` is at least three times its limit, for windows of at least three ticks and at most half the clock's range, provided the window all tenants share leaves room for that many |
| `Gate.SharedRate` | apps/api/admission.ts:63-80 | over any run the window all callers share admits at most twice its limit |
| `Gate.EntryDecides` | apps/api/admission.ts:51-86 | one entry admits only within both limits, refuses only with the code of a window that is used up or for the clock, keeps the table of windows within its size, and leaves a caller without a window of its own only when the table is full |
| `Gate.OverflowRate` | apps/api/admission.ts:79-86 | over any run the overflow window of a tenant kind admits at most twice the limit to all tenants of that kind without a slot of their own |
| `Gate.CredentialOverflowRate` | apps/api/admission.ts:60-67 | over any run the credential overflow window, started anew each generation, admits at most twice its limit, and one more if calls may straddle |
| `Admission.VerifiedRates` | apps/api/admission.ts:11-86 | in the fields of the limits: an account tenant gets at most three times `account_requests` per window and a capture tenant three times `capture_requests`, all together twice `verified_requests`, and each overflow window twice the limit of its kind |
| `Admission.AuthenticationRates` | apps/api/admission.ts:11-67 | a credential gets at most twice `credential_requests` per window, and one more if calls straddle, the overflow window the same, and all together twice `preauth_requests` |
| `Admission.DefaultRates` | apps/api/admission.ts:14-20 | under the default limits the least bounds that every run keeps in a minute are 720 calls of an account tenant and 1800 of a capture tenant |
| `Admission.KeysAreDistinct` | apps/api/admission.ts:81 | kind and tenant are recovered from the slot key, so no two tenants or kinds share one |
| `Admission.ApiAdmission.Create` | apps/api/admission.ts:46-49 | limits are refused exactly when one of the fifteen is not a safe integer of at least one; otherwise the new object is valid and holds nothing |
| `Admission.ApiAdmission.constructor` | apps/api/admission.ts:46-49 | a new object, built once its limits are checked, is valid and holds nothing |
| `Admission.ApiAdmission.EnterRequest` | apps/api/admission.ts:55-58 | admits exactly below the limit, books one grant and keeps every counter equal to its outstanding grants |
| `Admission.ApiAdmission.Public` | apps/api/admission.ts:59 | spends from the public window: admitted within `public_requests`, refused only when that is used up or for the clock |
| `Admission.ApiAdmission.RateAuthentication` | apps/api/admission.ts:60-67 | changes generation, windows and overflow as `Gate.Enter` says, also when it refuses part way; an admitted call is within `preauth_requests` and `credential_requests`, and a refusal carries the code of the one that is used up |
| `Admission.ApiAdmission.EnterAuthentication` | apps/api/admission.ts:60-70 | then admits exactly below the in-flight limit, within both request limits; a credential goes without a window of its own only when `credential_keys` are in use; counters stay equal to outstanding grants on success and on every failure |
| `Admission.ApiAdmission.Reclaim` | apps/api/admission.ts:74-79 | a new generation keeps exactly the slots with work in flight, so no outstanding grant loses its slot |
| `Admission.ApiAdmission.RateVerified` | apps/api/admission.ts:73-86 | the rate part of `enterVerified` follows `Gate.Enter`, sparing the occupied slots; an admitted call is within `account_requests` or `capture_requests`, by its kind, and `verified_requests`, and a refusal carries the code of the one that is used up |
| `Admission.ApiAdmission.EnterVerified` | apps/api/admission.ts:71-89 | charges the tenant's own slot, or the overflow slot of its kind only when `tenant_keys` are in use; admits within the request limit and the in-flight limit of its kind, refuses as busy exactly at that in-flight limit, and keeps conservation on every path |
| `Admission.DeclaredExactly` | apps/api/admission.ts:92-93 | a declared length is decimal digits worth at most 2 to the 53 less one; no header counts as zero, and any other header is refused |
| `Admission.ApiAdmission.OpenBody` | apps/api/admission.ts:90-97 | which declared lengths are reserved, refused as malformed or refused as too large, and that refusals change nothing |
| `Admission.ApiAdmission.Add` | apps/api/admission.ts:98-101 | a chunk of a body of undeclared length is charged exactly when it fits both limits, and the bytes in flight stay the sum of the reservations |
| `Admission.ApiAdmission.Release` | apps/api/admission.ts:21-102 | a release acts the first time only, takes exactly its own grant off the books and keeps conservation |
| `Admission.SettleUndoesBook` | apps/api/admission.ts:21-102 | giving back a fresh grant leaves the books as they were |
| `Admission.ApiAdmission.FinishRequest` | apps/api/server.ts:622 | whatever a request still holds at its end is given back once, and nothing else is |
| `WalletAuth.Controller.Start` | apps/dashboard/wallet-auth-ui.js:90-91 | a call starts exactly when the controller is neither busy nor destroyed, and then takes the next epoch and the busy flag |
| `WalletAuth.Controller.PromptTimeout` | apps/dashboard/wallet-auth-ui.js:96 | a prompt that expires moves the epoch only if it is still its own |
| `WalletAuth.Controller.SignOut` | apps/dashboard/wallet-auth-ui.js:157 | sign-out moves the epoch and frees the busy flag only from a restore |
| `WalletAuth.Controller.Destroy` | apps/dashboard/wallet-auth-ui.js:158 | destruction moves the epoch and is remembered |
| `WalletAuth.Controller.Invalidate` | apps/dashboard/wallet-auth-ui.js:48 | a wallet event moves the epoch |
| `WalletAuth.Controller.Finish` | apps/dashboard/wallet-auth-ui.js:117 | the `finally` block frees the busy flag only if it is its own |
| `WalletAuth.RunSound` | apps/dashboard/wallet-auth-ui.js:83-158 | every interleaving of calls, wallet events, timeouts and destruction keeps ownership of the busy flag, the link between epochs and the log, and the queue in order |
| `WalletAuth.ReadyOnlyWhileCurrent` | apps/dashboard/wallet-auth-ui.js:15-152 | whenever a session is handed to the page or a restore declares it signed out, nothing started and nothing was disturbed since that call started |
| `WalletAuth.OnlyEarlierSignOutsClear` | apps/dashboard/wallet-auth-ui.js:48-157 | when the page is signed out of a session although nothing has started or been disturbed since its call began, that was asked for by a sign-out or a wallet event before the call began, never by a sign-in that fails |
| `WalletAuth.SpoilableExactly` | apps/dashboard/wallet-auth-ui.js:48-157 | a sign-in or a restore that begins now, called or resumed from the queue behind a restore, may have its session signed out of in that way if and only if a sign-out or a wallet event is still waiting for its revocation |
| `WalletAuth.ReadyAtMostOnce` | apps/dashboard/wallet-auth-ui.js:112-152 | no call hands over a session twice |
| `WalletAuth.OneAtATime` | apps/dashboard/wallet-auth-ui.js:90-122 | at most one live call is current, and at most one live call is a sign-in, stale or not |
| `WalletAuth.NeverStuck` | apps/dashboard/wallet-auth-ui.js:117-155 | the busy flag is never left set when no call is live |
| `WalletAuth.StaleCallsClearNothing` | apps/dashboard/wallet-auth-ui.js:117-155 | a call that no longer owns the busy flag, such as a stale restore, ends without touching it |
| `WalletAuth.OneSignInPerRestore` | apps/dashboard/wallet-auth-ui.js:86-91 | of the sign-ins queued behind one restore at most one goes ahead |
| `TradedCredential.ResolveInstruments` | trace-vault/robinhood_link.py:324-334 | the loop over instrument sessions computes `Instruments`, the first failure included |
| `TradedCredential.InstrumentsExactly` | trace-vault/robinhood_link.py:324-334 | it succeeds exactly when every session is good and no two give one id different symbols, and the map then holds exactly what they witness |
| `TradedCredential.InstrumentOrderIsIrrelevant` | trace-vault/robinhood_link.py:324-334 | the order of the sessions, and repeating one, make no difference |
| `TradedCredential.ComputeTraded` | trace-vault/credential_robinhood.py:20-33 | the search loop with its early return computes `Traded`, missing fields and unreadable times included; `TradedExactly` says what that is |
| `TradedCredential.TradedExactly` | trace-vault/credential_robinhood.py:24-33 | true exactly when some order is a filled buy or sell of the symbol, last changed at most so many days of 86400 seconds before or after the trace, and every order before it can be read and is not; false exactly when every order can be read and none is; otherwise a schema fault or times that cannot be compared |
| `TradedCredential.MatchesExactly` | trace-vault/credential_robinhood.py:24-32 | one order is a hit, is passed over, or cannot be read or compared, in terms of its own fields and of microseconds |
| `TradedCredential.TicketExactly` | trace-vault/link_ticket.py:26-52 | a ticket is good exactly when it was signed, its window is at most 600 seconds and the time lies in it |
| `TradedCredential.SessionExactly` | trace-vault/robinhood_link.py:259-317 | a session passes exactly when its receipt is signed under an attested key for this host, hashes and ticket, it opens, and it lies in the ticket window with the answer at most 30 seconds outside it |
| `TradedCredential.IssuesExactly` | trace-vault/robinhood_link.py:339-361 | a credential is issued exactly for a witnessed symbol and 1 to 365 days when the orders page is whole and its search comes to an answer |
| `TradedCredential.IssueStates` | trace-vault/robinhood_link.py:353-361 | it states that answer, the request, the time the orders were sent, and the owner and job of the ticket |
| `TradedCredential.TrueOutcomeIsBacked` | trace-vault/robinhood_link.py:339-361 | a true outcome is issued only from a witnessed orders page with such an order within the days, before or after, and a witnessed instrument page for its symbol, and binds exactly those sessions |
| `TradedCredential.IssuedSessions` | trace-vault/robinhood_link.py:300-361 | every session of an issued credential passed its checks and is bound in its place |
| `TradedCredential.CheckedReceipt` | trace-vault/robinhood_link.py:259-317 | what a passed session check establishes about the witness receipt, its hashes and the ticket window |
| `CredentialCheck.MatchReceipts` | trace-vault/robinhood_link.py:442-483 | the matching loop with its set of used receipts computes `Match` |
| `CredentialCheck.MatchExactly` | trace-vault/robinhood_link.py:442-483 | it returns a pairing of sessions with distinct, unambiguous, faultless receipts, and returns it whenever there is one |
| `CredentialCheck.VerifyTraded` | trace-vault/robinhood_link.py:371-493 | the whole check computes `Verify`, in the order of the source's checks, with the verdict that `VerdictIsSound` speaks of |
| `CredentialCheck.VerifiesExactly` | trace-vault/robinhood_link.py:371-493 | the check accepts exactly a credential with a well-formed true claim, signed and attested, for this ticket, host and the last 24 hours, with its sessions in order and a proper receipt for each that no other session can mean, observed at most 30 seconds outside its orders session |
| `CredentialCheck.VerdictIsSound` | trace-vault/robinhood_link.py:371-493 | what the verdict returned says is so: owner and job are the ticket's, its hash is the ticket's, symbol, days and trace time are those that witnessed sessions back, and it is good for 24 hours from an observation in the past and in the ticket window |
| `CredentialCheck.SessionsMatchReceipts` | trace-vault/robinhood_link.py:417-483 | on success sessions and receipts are paired one to one with none left over |
| `CredentialCheck.OneWindow` | trace-vault/robinhood_link.py:432-493 | on success every receipt from start to end and the observation lie in one ticket window, so any two of these times are less than 600 seconds apart |
| `CredentialCheck.CredentialIsSound` | trace-vault/robinhood_link.py:371-493 | if attested appraisers sign only what they issue and the check accepts, then a witnessed orders page holds a filled buy or sell whose witnessed instrument is the symbol, within the days of the trace, and the presented receipts name those sessions' ciphertexts |
| `CredentialCheck.IssuedIsAcceptedExactly` | trace-vault/robinhood_link.py:339-493 | a true issued credential, whose time of observation can be read back, is accepted if and only if its symbol has at most 32 characters, its trace time is past and has a zone, it was observed within the ticket window and the last 24 hours, no two of its receipts can be confused, and each has the full witness shape and ended within the last 24 hours |
| `Measurement.Replay` | trace-vault/attestation_verify.py:47-50 | the replay loop computes the four hash chains, or fails on an unreadable digest |
| `Measurement.Identify` | trace-vault/attestation_verify.py:52-57 | the loop over runtime events computes `Identity`, or fails on a repeated name |
| `Measurement.ChainDetermines` | trace-vault/attestation_verify.py:47-50 | a register value determines the blocks extended into it, however many, if the hashed inputs do not collide and none hashes to the empty register |
| `Measurement.RegisterIsSpelled` | trace-vault/attestation_verify.py:47-50 | a register starts as 48 zero bytes, and each event replaces it by the hash of itself and the event's digest, cut or filled with zeros to 48 bytes |
| `Measurement.DigestIsSpelled` | trace-vault/attestation_verify.py:28-32 | a runtime event hashes its type in little-endian order, its name and its payload with colons between; another event extends its digest as it stands, or nothing |
| `Measurement.MessageDetermines` | trace-vault/attestation_verify.py:29-31 | a colon-free name and its payload are determined by the hashed message |
| `Measurement.NothingForged` | trace-vault/attestation_verify.py:44-57 | if an honest boot extends register 3 with runtime events of colon-free names only, then whatever log is presented for the same register, every colon-free name in its identity was booted, with the payload it shows |
| `Measurement.EntriesExactly` | trace-vault/attestation_verify.py:47-50 | of such a boot, the presented log has the runtime events, in the same order and with the same payloads, if and only if every event of it that extends register 3 is a runtime event with a colon-free name |
| `Measurement.IdentityExactly` | trace-vault/attestation_verify.py:44-57 | of such a boot, if its names are distinct, the presented log gives the identity if and only if the same holds of it |
| `Measurement.ApprovedExactly` | trace-vault/attestation_verify.py:66-69 | an identity is approved exactly when its app-id is pinned for a role that starts with the one asked for and its compose and image hashes are what the pin says |
| `Measurement.ApprovedWasBooted` | trace-vault/attestation_verify.py:66-69 | an approved log was booted: the pinned instance and each hash its pin names are in the honest log, whatever the presented log hides |
| `Measurement.ColonsHideNames` | trace-vault/attestation_verify.py:29-57 | with a colon in a name the link fails for every hash: two one-event logs with equal registers and different identities |
| `Measurement.DigestsHideNames` | trace-vault/attestation_verify.py:32-57 | an event of another type can carry the digest of a runtime event: the same registers, and the name is gone |
| `Cart.AtomicCartCalls` | apps/dashboard/atomic-cart.js:17-33 | the loop accepts exactly carts of 1 to 20 items that each are an approval of their own total for this market by this token and a call of the market, spelled as the patterns ask; it returns one approval of the sum, the payments in order and an approval of zero |
| `Cart.ApprovalDecodesExactly` | apps/dashboard/atomic-cart.js:31 | a contract reads back the market and the amount if and only if the amount is below 2 to the 256 |
| `Cart.ApprovalSpelled` | apps/dashboard/atomic-cart.js:31 | an approval that fits is the selector 095ea7b3, twenty-four zeros, the address in small letters and the amount in sixty-four digits |
| `Cart.FitsExactly` | apps/dashboard/atomic-cart.js:20-28 | what the loop checks of an item is that, for text in either case |
| `Cart.CartRunsExactly` | apps/dashboard/atomic-cart.js:17-33 | run against either token from any allowance, the batch takes exactly the total and leaves no allowance if the total is below 2 to the 256, and fails as a whole otherwise |
| `Cart.PaymentsTake` | apps/dashboard/atomic-cart.js:20-30 | the payments alone all go through exactly when the allowance covers their sum |
| `Activity.OperatorActivity.Record` | apps/api/operator-activity.ts:98-107 | one event is counted in the first bucket of its key or a new one, in both sets of buckets, and the retained set is then trimmed |
| `Activity.EventIsNormal` | apps/api/operator-activity.ts:99-102 | what is recorded: the minute of the reading, a status from 100 to 599 or 0, and a duration to the nearest millisecond, at most an hour, or 0 |
| `Activity.OperatorActivity.Trim` | apps/api/operator-activity.ts:114-116 | the filter keeps the buckets since the cutoff, and the last ones if there are too many |
| `Activity.TrimKeeps` | apps/api/operator-activity.ts:114-116 | only buckets of the last 24 hours are kept, at most 23040, then the last ones, and none is dropped while there is room |
| `Activity.BucketsBalance` | apps/api/operator-activity.ts:54-60 | in every bucket requests, statuses, latency count and latency buckets agree in number, and errors are the 4xx, 5xx and unknown statuses |
| `Activity.TallyCounts` | apps/api/operator-activity.ts:52-60 | the fold over the events counts them: by status class 1xx to 5xx or unknown, by latency under 100, 500, 1000, 5000 ms or more, errors as 4xx, 5xx or unknown, and the sum and greatest of their durations |
| `Activity.BucketsAgreeWithLog` | apps/api/operator-activity.ts:98-119 | for any selection of minutes, methods, route groups and sources that no trim reached, the buckets add up to the fold over the recorded events |
| `Activity.RetainedAgrees` | apps/api/operator-activity.ts:98-119 | with a clock that does not run backwards, what is retained after the last trim is the fold over the events since its cutoff, for any selection |
| `Activity.ProcessAgrees` | apps/api/operator-activity.ts:104 | the counters since the process started are the fold over all events |
| `Activity.Summarize` | apps/api/operator-activity.ts:144 | the totals are all buckets together, each row is the buckets of its name, the rows by route group and by source each add up to the totals, and totals and rows balance if the buckets do |
| `MandateEditor.Flow.Submit` | apps/dashboard/mandate-editor.js:131-137 | a click sends the frozen body and key, freezing them first if there are none, and nothing while a save is outstanding, owned elsewhere or done |
| `MandateEditor.Flow.Settle` | apps/dashboard/mandate-editor.js:137-150 | a definite refusal thaws the form, any other failure keeps body and key, a result is kept |
| `MandateEditor.Flow.Refreshed` | apps/dashboard/mandate-editor.js:138-150 | the refresh after a save closes the editor or leaves it to be retried |
| `MandateEditor.AtMostOneDraft` | apps/dashboard/mandate-editor.js:116-152 | over any run of clicks, lost, late or repeated deliveries and refusals, at most one draft is committed, if refusals are final |
| `MandateEditor.RetriesRepeat` | apps/dashboard/mandate-editor.js:131-148 | two requests with no refusal between them are the same request, and none follows a save that succeeded |
| `MandateEditor.LateRequestCommitsTwice` | apps/dashboard/mandate-editor.js:144-146 | if a refusal is not final, a request that arrives after it commits a second draft |
| `MandateEditor.OneDraftExactly` | apps/dashboard/mandate-editor.js:116-152 | over all runs at most one draft is committed if and only if refusals are final |
| `Money.MinorRoundTrip` | apps/dashboard/mandate-editor.js:9-21 | exactly the whole amounts of a known currency are written out, and read back they are the same amount exactly when it is below 10 to the 78 |
| `Money.AmountExactly` | apps/dashboard/mandate-editor.js:9-13 | dollars are read with at most two decimals and USDC with at most six: text in that form, and no other, is an amount |
| `Money.AmountReads` | apps/dashboard/mandate-editor.js:12-15 | an amount is exactly its digits scaled to its decimals, nothing rounded, refused from ten to the 78 on |
| `Money.DecimalRoundTrip` | apps/dashboard/mandate-editor.js:9-21 | accepted text is read exactly: writing the amount gives it back with its fraction filled up to the decimals of its currency |

## Left out

- Cryptography itself: AES-GCM, ChaCha20, HKDF, Ed25519, X25519, X.509 path building, CertificateVerify, DCAP quotes; and the attestation objects beyond "this key is attested for this role".
- I/O: sockets, the CONNECT proxy and receipt ring of the witness, subprocesses, files, fetch, databases, timers.
- HTTP header parsing, gzip inflation, JSON parsing and date parsing in `parse_http_json`: `TradedCredential` takes the opened page, or nothing, from a function of the session.
- JSON shape checks that only compare key sets and value types (`invalid_evidence_envelope` and the like): the records of `TradedCredential` and `CredentialCheck` are typed. Missing order fields, absent ports and ticket hashes, and unexpected receipt keys are modelled.
- The account-control credential (`verify_account_bundle`, `verify_credential`): the same checks on one session.
- TradedCredential.ComputeTraded: fields of an order are text or missing; a field of another JSON type is not modelled.
- ClientHello.ParseSni: UTF-8 decoding of the host name is a parameter that says which byte strings decode.
- ProxyCapture.VerifyProxyCapture: checking an Ed25519 signature, and reading the key and the signature from base64, is a parameter.
- ProxyCapture.RootBindsParts: SHA-256 over UTF-8 is a function of the canonical text; `JSON.stringify` escapes lone surrogates, so the encoding loses nothing.
- Appraiser.RunKeepsInvariant: a request is the steps that touch shared state; headers, body size and sealed transport can only make it fail. `GET /identity` is the `Renew` action.
- Admission.ApiAdmission.Add: requires a reservation that has not been released, as `jsonBody` and `handle` arrange.
- Admission.ApiAdmission.EnterAuthentication: windows are values in the object's fields and maps, since nothing else holds a reference to them; slots and grants are heap objects. The credential's hash is a parameter, and HTTP status codes are not modelled.
- Gate.CredentialRate: bounds the credential's own window; what callers without one get from the overflow window is bounded apart (`CredentialOverflowRate`, `OverflowRate`), not together with it.
- WalletAuth.ReadyOnlyWhileCurrent: the last check of the epoch and the call it guards are one step, although a few microtasks separate them after a sign-in's last wallet check. Callbacks that call back into the controller are not modelled, nor is which provider is attached.
- Measurement.Replay: event names are bytes; the comparison of the registers with the quote is equality on values already computed here.
- Measurement.ApprovedWasBooted: a pin is its role and two optional hashes, as text; an empty pin counts as none. A hash that a pin leaves out is accepted from a log that hides it.
- Cart.CartRunsExactly: balances, the market's own checks and gas are not modelled; "takes each item's own total" is an assumption on the market. `buyer_total` is already a number.
- Cart: the confirmation polling of `atomicCartConfirmation` and the capability query.
- Activity.OperatorActivity.Record: method, route and source arrive classified; restoring from disk, resource samples, the log ring and persistence are not modelled.
- MandateEditor.Flow.Submit: what the form reads as, and which messages count as a definite refusal, are inputs.
- Money.DecimalRoundTrip: text is already trimmed, and a currency named like an inherited property of an object is taken as unknown.
- The asset cache and content negotiation, exact cost sums, snapshot capacity and copying, and the ordered capture export: left out because each adds an argument of a kind already made here.
- HTML rendering, dialogs, route dispatch, command-line tools and the `packages/` services.
