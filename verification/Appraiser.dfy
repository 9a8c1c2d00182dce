/**
 The appraiser's replay filter (trace-vault/robinhood_appraiser.py): two slots, a rotating
 transport identity and a table of replay digests, shared by worker threads. `Service` holds
 the shared variables and does to them what the handlers do; `Apply` interleaves the handlers'
 atomic steps in any order.
 */
module Appraiser {
  import opened Bytes

  const SLOTS: nat := 2
  const CAPACITY: nat := 1000
  const LIFETIME: int := 300

  /** A transport identity: its key pair is fresh, and it expires. */
  datatype Identity = Identity(id: nat, expiry: int)

  type Replay = bytes

  /** The digest of a sealed request: the client's key and the nonce, hashed together. Requests
      with another nonce length are refused before this point. */
  function Digest(hash: bytes -> Replay, clientKey: bytes, nonce: bytes): Replay {
    hash(clientKey + nonce)
  }

  /** Unless the two inputs collide, the digest names the client key and nonce, whatever the key's length. */
  lemma DigestBinds(hash: bytes -> Replay, key: bytes, nonce: bytes, key': bytes, nonce': bytes)
    requires |nonce| == |nonce'| == 12
    requires hash(key + nonce) == hash(key' + nonce') ==> key + nonce == key' + nonce'
    ensures Digest(hash, key, nonce) == Digest(hash, key', nonce') <==> key == key' && nonce == nonce'
  {
    if Digest(hash, key, nonce) == Digest(hash, key', nonce') {
      assert key + nonce == key' + nonce';
      assert (key + nonce)[|key|..] == nonce && (key' + nonce')[|key'|..] == nonce';
      assert (key + nonce)[..|key|] == key && (key' + nonce')[..|key'|] == key';
    }
  }

  datatype Refusal = Busy | Replayed

  // ----- The table -----

  type Table = map<Replay, int>

  function Purged(seen: Table, now: int): Table {
    map k | k in seen && seen[k] > now :: seen[k]
  }

  lemma PurgeShrinks(seen: Table, now: int)
    ensures |Purged(seen, now)| <= |seen|
  {
    SmallerSet(Purged(seen, now).Keys, seen.Keys);
  }

  /** The locked section of a request whose clock reading is `now`. */
  function Check(seen: Table, now: int, replay: Replay, expiry: int): (Table, Option<Refusal>) {
    var live := Purged(seen, now);
    if |live| >= CAPACITY then (live, Some(Busy))
    else if replay in live then (live, Some(Replayed))
    else (live[replay := expiry], None)
  }

  // ----- The slots: a semaphore that refuses to grow past its first value -----

  function Acquired(free: nat): Option<nat> {
    if free == 0 then None else Some(free - 1)
  }

  function GivenBack(free: nat): Option<nat> {
    if free >= SLOTS then None else Some(free + 1)
  }

  class Service {
    var seen: Table
    var identity: Identity
    var free: nat

    ghost predicate Valid()
      reads this
    {
      free <= SLOTS && |seen| <= CAPACITY
    }

    constructor (now: int)
      ensures Valid() && seen == map[] && free == SLOTS && identity == Identity(0, now + LIFETIME)
    {
      seen, free, identity := map[], SLOTS, Identity(0, now + LIFETIME);
    }

    /** `acquire(False)` */
    method TryAcquire() returns (ok: bool)
      requires Valid()
      modifies this`free
      ensures Valid() && ok == Acquired(old(free)).Some?
      ensures free == if ok then Acquired(old(free)).value else old(free)
    {
      ok := free > 0;
      if ok {
        free := free - 1;
      }
    }

    /** `release`: not `ok` stands for the exception of a release that no acquire matches. */
    method Release() returns (ok: bool)
      requires Valid()
      modifies this`free
      ensures Valid() && ok == GivenBack(old(free)).Some?
      ensures free == if ok then GivenBack(old(free)).value else old(free)
    {
      ok := free < SLOTS;
      if ok {
        free := free + 1;
      }
    }

    method Renew(now: int)
      requires Valid()
      modifies this`identity
      ensures Valid() && identity == Renewed(old(identity), now)
      ensures if now < old(identity).expiry then identity == old(identity)
              else identity == Identity(old(identity).id + 1, now + 300)
    {
      if now < identity.expiry {
        return;
      }
      identity := Identity(identity.id + 1, now + LIFETIME);
    }

    method CheckReplay(now: int, replay: Replay, expiry: int) returns (refusal: Option<Refusal>)
      requires Valid()
      modifies this`seen
      ensures Valid() && (seen, refusal) == Check(old(seen), now, replay, expiry)
    {
      Purge(now);
      if |seen| >= CAPACITY {
        return Some(Busy);
      }
      if replay in seen {
        return Some(Replayed);
      }
      seen := seen[replay := expiry];
      refusal := None;
    }

    method Purge(now: int)
      requires Valid()
      modifies this`seen
      ensures Valid() && seen == Purged(old(seen), now)
    {
      var items := seen;
      var pending := items.Keys;
      while pending != {}
        invariant pending <= items.Keys
        invariant seen == map k | k in items && (k in pending || items[k] > now) :: items[k]
        decreases pending
      {
        var key :| key in pending;
        pending := pending - {key};
        if items[key] <= now {
          seen := seen - {key};
        }
      }
      assert seen == Purged(items, now);
      PurgeShrinks(items, now);
    }
  }

  function Renewed(current: Identity, now: int): Identity {
    if now < current.expiry then current else Identity(current.id + 1, now + LIFETIME)
  }

  // ----- Worker threads -----

  /** Where a request that holds a slot stands. */
  datatype Phase =
    | Admitted
    | Snapshot(identity: Identity)
    | Fresh(identity: Identity)                                // the expiry check passed
    | Opened(identity: Identity, replay: Replay)
    | Timed(identity: Identity, replay: Replay, now: int)      // read the clock, not yet locked
    | Issuing(identity: Identity, replay: Replay)

  /** One pass through the locked section, in the order in which the lock was taken. */
  datatype Section = Section(now: int, identity: Identity, replay: Replay, refusal: Option<Refusal>)

  datatype State = State(clock: int, identity: Identity, free: nat, threads: map<nat, Phase>, seen: Table,
                         history: seq<Section>)

  datatype Action =
    | Tick(now: int)
    | Renew
    | Arrive(thread: nat)
    | Advance(thread: nat, replay: Replay)   // the next step of that request
    | Fail(thread: nat)                      // bad headers, unreadable or unauthentic body, or an issuing error

  function Initial(now: int): State {
    State(now, Identity(0, now + LIFETIME), SLOTS, map[], map[], [])
  }

  function Freed(s: State, t: nat): State {
    s.(free := if GivenBack(s.free).Some? then GivenBack(s.free).value else s.free, threads := s.threads - {t})
  }

  function Advanced(s: State, t: nat, replay: Replay): State
    requires t in s.threads
  {
    match s.threads[t]
    case Admitted => s.(threads := s.threads[t := Snapshot(s.identity)])
    case Snapshot(i) => if s.clock >= i.expiry then Freed(s, t) else s.(threads := s.threads[t := Fresh(i)])
    case Fresh(i) => s.(threads := s.threads[t := Opened(i, replay)])
    case Opened(i, r) => s.(threads := s.threads[t := Timed(i, r, s.clock)])
    case Timed(i, r, now) =>
      var (seen, refusal) := Check(s.seen, now, r, i.expiry);
      var after := s.(seen := seen, history := s.history + [Section(now, i, r, refusal)]);
      if refusal == None then after.(threads := s.threads[t := Issuing(i, r)]) else Freed(after, t)
    case Issuing(_, _) => Freed(s, t)
  }

  function Apply(s: State, a: Action): State {
    match a
    case Tick(now) => if now >= s.clock then s.(clock := now) else s
    case Renew => s.(identity := Renewed(s.identity, s.clock))
    case Arrive(t) =>
      if t in s.threads || Acquired(s.free).None? then s
      else s.(free := Acquired(s.free).value, threads := s.threads[t := Admitted])
    case Advance(t, replay) => if t in s.threads then Advanced(s, t, replay) else s
    case Fail(t) => if t in s.threads then Freed(s, t) else s
  }

  function Run(s: State, actions: seq<Action>): State
    decreases |actions|
  {
    if actions == [] then s else Run(Apply(s, actions[0]), actions[1..])
  }

  // ----- What every run keeps -----

  predicate Issued(h: Section) { h.refusal == None }

  /** Section `j` recorded its digest and no section since had a reading at or past its expiry. */
  predicate Remembered(history: seq<Section>, j: nat, replay: Replay) {
    && j < |history| && Issued(history[j]) && history[j].replay == replay
    && forall l :: j < l < |history| ==> history[l].now < history[j].identity.expiry
  }

  ghost predicate TableIsMemory(seen: Table, history: seq<Section>) {
    && (forall k :: k in seen ==> exists j: nat :: Remembered(history, j, k) && seen[k] == history[j].identity.expiry)
    && (forall j: nat, k :: Remembered(history, j, k) ==> k in seen && seen[k] == history[j].identity.expiry)
  }

  ghost predicate Invariant(s: State) {
    && s.free + |s.threads| == SLOTS
    && |s.seen| <= CAPACITY
    && TableIsMemory(s.seen, s.history)
    && (forall l :: 0 <= l < |s.history| ==> s.history[l].now <= s.clock)
    && (forall t :: t in s.threads && s.threads[t].Timed? ==> s.threads[t].now <= s.clock)
  }

  lemma PurgeForgets(seen: Table, history: seq<Section>, h: Section)
    requires TableIsMemory(seen, history) && !Issued(h)
    ensures TableIsMemory(Purged(seen, h.now), history + [h])
  {
    var after := history + [h];
    forall j: nat, k
      ensures Remembered(after, j, k) <==> Remembered(history, j, k) && h.now < history[j].identity.expiry
    {
      assert Remembered(history, j, k) ==> after[j] == history[j];
      if Remembered(after, j, k) {
        assert after[j] == history[j] && after[|history|] == h;
        assert forall l :: j < l < |history| ==> after[l] == history[l];
      }
    }
    forall k | k in Purged(seen, h.now)
      ensures exists j: nat :: Remembered(after, j, k) && Purged(seen, h.now)[k] == after[j].identity.expiry
    {
      var j: nat :| Remembered(history, j, k) && seen[k] == history[j].identity.expiry;
      assert Remembered(after, j, k);
    }
  }

  lemma IssueRemembers(seen: Table, history: seq<Section>, h: Section)
    requires TableIsMemory(Purged(seen, h.now), history + [h.(refusal := Some(Replayed))])
    requires Issued(h) && h.replay !in Purged(seen, h.now)
    ensures TableIsMemory(Purged(seen, h.now)[h.replay := h.identity.expiry], history + [h])
  {
    var live, refused, after := Purged(seen, h.now), history + [h.(refusal := Some(Replayed))], history + [h];
    var grown, n := live[h.replay := h.identity.expiry], |history|;
    assert Remembered(after, n, h.replay);
    forall j: nat, k
      ensures Remembered(after, j, k) <==> Remembered(refused, j, k) || (j == n && k == h.replay)
    {
      assert forall l :: 0 <= l < n ==> after[l] == refused[l];
      assert after[n].now == refused[n].now && !Issued(refused[n]);
    }
    forall k | k in grown
      ensures exists j: nat :: Remembered(after, j, k) && grown[k] == after[j].identity.expiry
    {
      if k != h.replay {
        var j: nat :| Remembered(refused, j, k) && live[k] == refused[j].identity.expiry;
        assert Remembered(after, j, k) && after[j] == refused[j];
      }
    }
    forall j: nat, k | Remembered(after, j, k)
      ensures k in grown && grown[k] == after[j].identity.expiry
    {
      if j != n {
        assert Remembered(refused, j, k) && k in live && after[j] == refused[j];
      }
    }
  }

  lemma SectionKeepsTable(seen: Table, history: seq<Section>, now: int, i: Identity, replay: Replay)
    requires TableIsMemory(seen, history) && |seen| <= CAPACITY
    ensures var (after, refusal) := Check(seen, now, replay, i.expiry);
      TableIsMemory(after, history + [Section(now, i, replay, refusal)]) && |after| <= CAPACITY
  {
    hide TableIsMemory;
    var (after, refusal) := Check(seen, now, replay, i.expiry);
    PurgeShrinks(seen, now);
    if refusal == None {
      var h := Section(now, i, replay, None);
      PurgeForgets(seen, history, h.(refusal := Some(Replayed)));
      IssueRemembers(seen, history, h);
    } else {
      PurgeForgets(seen, history, Section(now, i, replay, refusal));
    }
  }

  lemma StepKeepsInvariant(s: State, a: Action)
    requires Invariant(s)
    ensures Invariant(Apply(s, a))
  {
    hide TableIsMemory, Advanced;
    match a
    case Advance(t, replay) =>
      if t in s.threads {
        AdvanceKeepsInvariant(s, t, replay);
      }
    case Fail(t) =>
      if t in s.threads {
        ThreadLeaves(s, t);
      }
    case Arrive(t) => ThreadAdded(s.threads, t, Admitted);
    case _ =>
  }

  lemma AdvanceKeepsInvariant(s: State, t: nat, replay: Replay)
    requires Invariant(s) && t in s.threads
    ensures Invariant(Advanced(s, t, replay))
  {
    hide TableIsMemory, Check;
    match s.threads[t]
    case Admitted => ThreadMoves(s, t, Snapshot(s.identity));
    case Snapshot(i) =>
      ThreadMoves(s, t, Fresh(i));
      ThreadLeaves(s, t);
    case Fresh(i) => ThreadMoves(s, t, Opened(i, replay));
    case Opened(i, r) => ThreadMoves(s, t, Timed(i, r, s.clock));
    case Timed(i, r, now) => SectionKeepsInvariant(s, t);
    case Issuing(_, _) => ThreadLeaves(s, t);
  }

  lemma ThreadMoves(s: State, t: nat, p: Phase)
    requires Invariant(s) && t in s.threads && (p.Timed? ==> p.now <= s.clock)
    ensures Invariant(s.(threads := s.threads[t := p]))
  {
    hide TableIsMemory;
    ThreadAdded(s.threads, t, p);
  }

  lemma ThreadLeaves(s: State, t: nat)
    requires Invariant(s) && t in s.threads
    ensures Invariant(Freed(s, t))
  {
    hide TableIsMemory;
    ThreadRemoved(s.threads, t);
  }

  lemma SectionKeepsInvariant(s: State, t: nat)
    requires Invariant(s) && t in s.threads && s.threads[t].Timed?
    ensures Invariant(Advanced(s, t, s.threads[t].replay))
  {
    hide TableIsMemory, Check;
    var Timed(i, r, now) := s.threads[t];
    var (seen, refusal) := Check(s.seen, now, r, i.expiry);
    SectionKeepsTable(s.seen, s.history, now, i, r);
    var after := s.(seen := seen, history := s.history + [Section(now, i, r, refusal)]);
    assert Invariant(after);
    hide Invariant;
    ThreadMoves(after, t, Issuing(i, r));
    ThreadLeaves(after, t);
  }

  lemma ThreadRemoved(threads: map<nat, Phase>, t: nat)
    ensures t in threads ==> |threads - {t}| == |threads| - 1
  {
    assert (threads - {t}).Keys == threads.Keys - {t};
  }

  lemma ThreadAdded(threads: map<nat, Phase>, t: nat, p: Phase)
    ensures |threads[t := p]| == |threads| + if t in threads then 0 else 1
  {
    assert threads[t := p].Keys == threads.Keys + {t};
  }

  /** At most two requests hold slots, the table never exceeds its capacity and holds exactly
      the issued digests that no later section was late enough to forget. */
  lemma RunKeepsInvariant(now: int, actions: seq<Action>)
    ensures Invariant(Run(Initial(now), actions))
    ensures var s := Run(Initial(now), actions);
      |s.threads| <= 2 && |s.seen| <= 1000 && now <= s.clock && s.identity.expiry <= s.clock + 300
  {
    InitialInvariant(now);
    KeepsInvariant(Initial(now), actions);
    KeepsDates(Initial(now), actions);
  }

  lemma {:induction false} KeepsDates(s: State, actions: seq<Action>)
    requires s.identity.expiry <= s.clock + 300
    ensures var t := Run(s, actions); s.clock <= t.clock && t.identity.expiry <= t.clock + 300
    decreases |actions|
  {
    hide Apply;
    if actions != [] {
      StepKeepsDates(s, actions[0]);
      KeepsDates(Apply(s, actions[0]), actions[1..]);
    }
  }

  lemma StepKeepsDates(s: State, a: Action)
    requires s.identity.expiry <= s.clock + 300
    ensures var t := Apply(s, a); s.clock <= t.clock && t.identity.expiry <= t.clock + 300
  {
    hide Check;
  }

  lemma {:induction false} KeepsInvariant(s: State, actions: seq<Action>)
    requires Invariant(s)
    ensures Invariant(Run(s, actions))
    decreases |actions|
  {
    hide Invariant, Apply;
    if actions != [] {
      StepKeepsInvariant(s, actions[0]);
      KeepsInvariant(Apply(s, actions[0]), actions[1..]);
    }
  }

  lemma InitialInvariant(now: int)
    ensures Invariant(Initial(now))
  {
  }

  /** A slot is given back by a request that holds one, so the semaphore never refuses. */
  lemma NeverReleasedTwice(now: int, actions: seq<Action>, t: nat)
    ensures var s := Run(Initial(now), actions); t in s.threads ==> GivenBack(s.free) == Some(s.free + 1)
  {
    hide Run, Initial;
    RunKeepsInvariant(now, actions);
    ThreadRemoved(Run(Initial(now), actions).threads, t);
  }

  // ----- When a digest is refused -----

  /** In any reachable state, the locked section of a request that finds room refuses it as a
      replay exactly when its digest was issued before and neither a later section nor this one
      has a reading at or past the expiry under which it was issued. */
  lemma RefusesExactly(start: int, actions: seq<Action>, now: int, replay: Replay, expiry: int)
    ensures var s := Run(Initial(start), actions);
      |Purged(s.seen, now)| >= 1000 ==> Check(s.seen, now, replay, expiry).1 == Some(Busy)
    ensures var s := Run(Initial(start), actions);
      |Purged(s.seen, now)| < 1000 ==>
        (Check(s.seen, now, replay, expiry).1 == Some(Replayed) <==>
         exists j: nat :: Remembered(s.history, j, replay) && now < s.history[j].identity.expiry)
  {
    hide Run, Initial;
    RunKeepsInvariant(start, actions);
  }

  // ----- The expiry check -----

  /** The request has passed its expiry check, under this identity. */
  predicate PastCheck(p: Phase, i: Identity) {
    match p
    case Fresh(j) => j == i
    case Opened(j, _) => j == i
    case Timed(j, _, _) => j == i
    case Issuing(j, _) => j == i
    case _ => false
  }

  /** At some point of the run this request, not yet past the check, held the identity unexpired. */
  ghost predicate InTime(start: int, actions: seq<Action>, t: nat, i: Identity) {
    exists k: nat :: k <= |actions| && Unexpired(Run(Initial(start), actions[..k]), t, i)
  }

  predicate Unexpired(s: State, t: nat, i: Identity) {
    t in s.threads && s.threads[t] == Snapshot(i) && s.clock < i.expiry
  }

  lemma {:induction false} RunLast(s: State, actions: seq<Action>, a: Action)
    ensures Run(s, actions + [a]) == Apply(Run(s, actions), a)
    decreases |actions|
  {
    hide Apply;
    if actions == [] {
      assert [] + [a] == [a] && [a][1..] == [];
    } else {
      assert (actions + [a])[1..] == actions[1..] + [a];
      RunLast(Apply(s, actions[0]), actions[1..], a);
    }
  }

  lemma StepPasses(s: State, a: Action, t: nat, i: Identity)
    requires var n := Apply(s, a); t in n.threads && PastCheck(n.threads[t], i)
    ensures t in s.threads && (PastCheck(s.threads[t], i) || Unexpired(s, t, i))
  {
    hide Check;
  }

  lemma InTimeStays(start: int, actions: seq<Action>, a: Action, t: nat, i: Identity)
    requires InTime(start, actions, t, i)
    ensures InTime(start, actions + [a], t, i)
  {
    hide Run, Unexpired;
    var k: nat :| k <= |actions| && Unexpired(Run(Initial(start), actions[..k]), t, i);
    assert (actions + [a])[..k] == actions[..k];
  }

  /** A request is opened, timed or issued only under an identity that had not expired when the
      request passed its check, before its body was read. */
  lemma {:induction false} OpenedInTime(start: int, actions: seq<Action>, t: nat, i: Identity)
    requires var s := Run(Initial(start), actions); t in s.threads && PastCheck(s.threads[t], i)
    ensures InTime(start, actions, t, i)
    decreases |actions|
  {
    hide Apply, PastCheck, Unexpired;
    if actions != [] {
      var front, a := actions[..|actions| - 1], actions[|actions| - 1];
      assert actions == front + [a];
      RunLast(Initial(start), front, a);
      StepPasses(Run(Initial(start), front), a, t, i);
      if Unexpired(Run(Initial(start), front), t, i) {
        assert actions[..|actions| - 1] == front;
      } else {
        OpenedInTime(start, front, t, i);
        InTimeStays(start, front, a, t, i);
      }
    }
  }

  lemma StepRecords(s: State, a: Action)
    ensures var n := Apply(s, a);
      n.history == s.history
      || exists t, r, refusal ::
           && t in s.threads && s.threads[t].Timed? && PastCheck(s.threads[t], s.threads[t].identity)
           && n.history == s.history + [Section(s.threads[t].now, s.threads[t].identity, r, refusal)]
  {
    hide Check;
    if a.Advance? && a.thread in s.threads && s.threads[a.thread].Timed? {
      var Timed(i, r, now) := s.threads[a.thread];
      var refusal := Check(s.seen, now, r, i.expiry).1;
      assert Apply(s, a).history == s.history + [Section(now, i, r, refusal)];
    }
  }

  /** Nothing expired gets as far as the locked section: each one in the history belongs to a request
      that passed its check in time. */
  lemma {:induction false} SectionsInTime(start: int, actions: seq<Action>, l: nat)
    requires l < |Run(Initial(start), actions).history|
    ensures exists t: nat :: InTime(start, actions, t, Run(Initial(start), actions).history[l].identity)
    decreases |actions|
  {
    hide Apply, InTime, PastCheck;
    if actions != [] {
      var front, a := actions[..|actions| - 1], actions[|actions| - 1];
      assert actions == front + [a];
      RunLast(Initial(start), front, a);
      var s := Run(Initial(start), front);
      hide Run;
      StepRecords(s, a);
      var i := Run(Initial(start), actions).history[l].identity;
      if l < |s.history| {
        SectionsInTime(start, front, l);
        var t: nat :| InTime(start, front, t, i);
        InTimeStays(start, front, a, t, i);
      } else {
        var t: nat :| t in s.threads && s.threads[t].Timed? && PastCheck(s.threads[t], i);
        OpenedInTime(start, front, t, i);
        InTimeStays(start, front, a, t, i);
      }
    }
  }

  // ----- At most once -----

  /** After section `j`, up to and including `l`, a reading reached the expiry `j` recorded. */
  ghost predicate LateReading(history: seq<Section>, j: nat, l: nat)
    requires j < |history| && l < |history|
  {
    exists m :: j < m <= l && history[m].now >= history[j].identity.expiry
  }

  predicate IssuedTwice(history: seq<Section>, j: nat, l: nat) {
    j < l < |history| && Issued(history[j]) && Issued(history[l]) && history[j].replay == history[l].replay
  }

  ghost predicate Consistent(history: seq<Section>) {
    forall j: nat, l: nat :: IssuedTwice(history, j, l) ==> LateReading(history, j, l)
  }

  lemma ForgottenWhenLate(s: State, now: int, i: Identity, r: Replay, j: nat)
    requires TableIsMemory(s.seen, s.history) && Check(s.seen, now, r, i.expiry).1 == None
    requires j < |s.history| && Issued(s.history[j]) && s.history[j].replay == r
    ensures LateReading(s.history + [Section(now, i, r, None)], j, |s.history|)
  {
    var n, h := |s.history|, s.history + [Section(now, i, r, None)];
    assert h[j] == s.history[j] && h[n].now == now;
    if !Remembered(s.history, j, r) {
      var m :| j < m < n && s.history[m].now >= s.history[j].identity.expiry;
      assert h[m] == s.history[m];
    }
  }

  lemma SectionIsConsistent(s: State, now: int, i: Identity, r: Replay)
    requires Consistent(s.history) && TableIsMemory(s.seen, s.history)
    ensures Consistent(s.history + [Section(now, i, r, Check(s.seen, now, r, i.expiry).1)])
  {
    hide TableIsMemory, Check;
    var refusal := Check(s.seen, now, r, i.expiry).1;
    var h, n := s.history + [Section(now, i, r, refusal)], |s.history|;
    forall j: nat, l: nat | IssuedTwice(h, j, l)
      ensures LateReading(h, j, l)
    {
      assert h[j] == s.history[j];
      if l < n {
        assert h[l] == s.history[l] && IssuedTwice(s.history, j, l);
        var m :| j < m <= l && s.history[m].now >= s.history[j].identity.expiry;
        assert h[m] == s.history[m];
      } else {
        ForgottenWhenLate(s, now, i, r, j);
      }
    }
  }

  /** A digest is issued twice only if, from the first issue on, some section up to and including
      the second had a clock reading at or past the expiry of the first. */
  lemma ReissueNeedsLateReading(start: int, actions: seq<Action>)
    ensures Consistent(Run(Initial(start), actions).history)
  {
    InitialInvariant(start);
    StaysConsistent(Initial(start), actions);
  }

  lemma {:induction false} StaysConsistent(s: State, actions: seq<Action>)
    requires Invariant(s) && Consistent(s.history)
    ensures Consistent(Run(s, actions).history)
    decreases |actions|
  {
    hide Invariant, Consistent, Apply;
    if actions != [] {
      StepKeepsInvariant(s, actions[0]);
      StepStaysConsistent(s, actions[0]);
      StaysConsistent(Apply(s, actions[0]), actions[1..]);
    }
  }

  lemma StepStaysConsistent(s: State, a: Action)
    requires Invariant(s) && Consistent(s.history)
    ensures Consistent(Apply(s, a).history)
  {
    hide Consistent, TableIsMemory, Check;
    if a.Advance? && a.thread in s.threads && s.threads[a.thread].Timed? {
      var Timed(i, r, now) := s.threads[a.thread];
      SectionIsConsistent(s, now, i, r);
    }
  }

  /** If the lock is taken in the order of the clock readings, no digest is issued twice among
      requests whose reading precedes the expiry of the identity that was first used. */
  lemma AtMostOnceInReadingOrder(start: int, actions: seq<Action>, j: nat, l: nat)
    requires var h := Run(Initial(start), actions).history;
      IssuedTwice(h, j, l) && forall m, n :: 0 <= m < n < |h| ==> h[m].now <= h[n].now
    ensures var h := Run(Initial(start), actions).history;
      h[l].now >= h[j].identity.expiry
  {
    hide Run, Initial;
    ReissueNeedsLateReading(start, actions);
  }

  /** Without that order it fails: the clock is read before the lock is taken. Three requests
      under one identity that expires at 300: the first is issued at 0; the second repeats its
      digest and reads the clock at 299; the third reads it at 300 and takes the lock first,
      forgetting the digest, so the second is issued although its reading was in time. */
  lemma ReplayIssuedTwice(x: Replay, y: Replay)
    requires x != y
    ensures var h := Run(Initial(0), Overtaking(x, y)).history;
      && |h| == 3 && h[0].identity == h[2].identity && h[0].replay == h[2].replay == x
      && Issued(h[0]) && Issued(h[2])
      && h[0].now < h[0].identity.expiry && h[2].now < h[2].identity.expiry
  {
    hide Run, Apply, Check;
    var i, h := FIRST, [Section(0, FIRST, x, None)];
    var one := State(0, i, 1, map[0 := Opened(i, x)], map[], []);
    var two := State(0, i, 2, map[], map[x := 300], h);
    var three := State(299, i, 0, map[1 := Timed(i, x, 299), 2 := Opened(i, y)], map[x := 300], h);
    assert Run(Initial(0), Overtaking(x, y)) == Run(one, Finishing(0, x, Waiting(x, y, Overtaken(x, y)))) by {
      Opens(Initial(0), 0, x, Finishing(0, x, Waiting(x, y, Overtaken(x, y))));
    }
    FirstIssues(x, Waiting(x, y, Overtaken(x, y)));
    SecondWaits(x, y, Overtaken(x, y));
    ThirdOvertakes(x, y);
  }

  const FIRST: Identity := Identity(0, 300)

  /** A request is admitted, takes its snapshot in time and opens its body. */
  function Opening(t: nat, r: Replay, rest: seq<Action>): seq<Action> {
    [Arrive(t)] + ([Advance(t, r)] + ([Advance(t, r)] + ([Advance(t, r)] + rest)))
  }

  /** It reads the clock, passes the locked section and answers. */
  function Finishing(t: nat, r: Replay, rest: seq<Action>): seq<Action> {
    [Advance(t, r)] + ([Advance(t, r)] + ([Advance(t, r)] + rest))
  }

  function Waiting(x: Replay, y: Replay, rest: seq<Action>): seq<Action> {
    [Tick(299)] + Opening(1, x, [Advance(1, x)] + Opening(2, y, rest))
  }

  function Overtaken(x: Replay, y: Replay): seq<Action> {
    [Tick(300)] + ([Advance(2, y)] + ([Advance(2, y)] + ([Advance(1, x)] + [])))
  }

  function Overtaking(x: Replay, y: Replay): seq<Action> {
    Opening(0, x, Finishing(0, x, Waiting(x, y, Overtaken(x, y))))
  }

  lemma Step(s: State, a: Action, rest: seq<Action>, next: State)
    requires Apply(s, a) == next
    ensures Run(s, [a] + rest) == Run(next, rest)
  {
    hide Apply;
    assert ([a] + rest)[1..] == rest;
  }

  lemma Overwritten(threads: map<nat, Phase>, t: nat, p: Phase, q: Phase)
    ensures threads[t := p][t := q] == threads[t := q]
  {
  }

  lemma Opens(s: State, t: nat, r: Replay, rest: seq<Action>)
    requires t !in s.threads && s.free > 0 && s.clock < s.identity.expiry
    ensures Run(s, Opening(t, r, rest))
         == Run(s.(free := s.free - 1, threads := s.threads[t := Opened(s.identity, r)]), rest)
  {
    hide Run, Check;
    var i, a := s.identity, Advance(t, r);
    var s1 := s.(free := s.free - 1, threads := s.threads[t := Admitted]);
    var s2 := s1.(threads := s.threads[t := Snapshot(i)]);
    var s3 := s1.(threads := s.threads[t := Fresh(i)]);
    var s4 := s1.(threads := s.threads[t := Opened(i, r)]);
    Overwritten(s.threads, t, Admitted, Snapshot(i));
    Overwritten(s.threads, t, Snapshot(i), Fresh(i));
    Overwritten(s.threads, t, Fresh(i), Opened(i, r));
    Step(s, Arrive(t), [a] + ([a] + ([a] + rest)), s1);
    Step(s1, a, [a] + ([a] + rest), s2);
    Step(s2, a, [a] + rest, s3);
    Step(s3, a, rest, s4);
  }

  lemma FirstIssues(x: Replay, rest: seq<Action>)
    ensures Run(State(0, FIRST, 1, map[0 := Opened(FIRST, x)], map[], []), Finishing(0, x, rest))
         == Run(State(0, FIRST, 2, map[], map[x := 300], [Section(0, FIRST, x, None)]), rest)
  {
    hide Run, Check;
    var i, a, h := FIRST, Advance(0, x), [Section(0, FIRST, x, None)];
    var s1 := State(0, i, 1, map[0 := Opened(i, x)], map[], []);
    var s2 := s1.(threads := map[0 := Timed(i, x, 0)]);
    var s3 := State(0, i, 1, map[0 := Issuing(i, x)], map[x := 300], h);
    var s4 := State(0, i, 2, map[], map[x := 300], h);
    assert map[0 := Opened(i, x)][0 := Timed(i, x, 0)] == map[0 := Timed(i, x, 0)];
    assert map[0 := Timed(i, x, 0)][0 := Issuing(i, x)] == map[0 := Issuing(i, x)];
    assert map[0 := Issuing(i, x)] - {0} == map[];
    CheckAgainstNothing(map[], 0, x, 300);
    Step(s1, a, [a] + ([a] + rest), s2);
    Step(s2, a, [a] + rest, s3);
    Step(s3, a, rest, s4);
  }

  lemma CheckAgainstNothing(seen: Table, now: int, r: Replay, expiry: int)
    requires forall k :: k in seen ==> seen[k] <= now
    ensures Check(seen, now, r, expiry) == (map[r := expiry], None)
  {
    assert Purged(seen, now) == map[];
  }

  lemma SecondWaits(x: Replay, y: Replay, rest: seq<Action>)
    ensures Run(State(0, FIRST, 2, map[], map[x := 300], [Section(0, FIRST, x, None)]), Waiting(x, y, rest))
         == Run(State(299, FIRST, 0, map[1 := Timed(FIRST, x, 299), 2 := Opened(FIRST, y)], map[x := 300],
                      [Section(0, FIRST, x, None)]), rest)
  {
    hide Run, Check;
    var i, h := FIRST, [Section(0, FIRST, x, None)];
    var s1 := State(0, i, 2, map[], map[x := 300], h);
    var s2 := s1.(clock := 299);
    var s3 := s2.(free := 1, threads := map[1 := Opened(i, x)]);
    var s4 := s3.(threads := map[1 := Timed(i, x, 299)]);
    assert map[1 := Opened(i, x)][1 := Timed(i, x, 299)] == map[1 := Timed(i, x, 299)];
    assert map[1 := Timed(i, x, 299)][2 := Opened(i, y)] == map[1 := Timed(i, x, 299), 2 := Opened(i, y)];
    Step(s1, Tick(299), Opening(1, x, [Advance(1, x)] + Opening(2, y, rest)), s2);
    Opens(s2, 1, x, [Advance(1, x)] + Opening(2, y, rest));
    Step(s3, Advance(1, x), Opening(2, y, rest), s4);
    Opens(s4, 2, y, rest);
  }

  lemma ThirdOvertakes(x: Replay, y: Replay)
    requires x != y
    ensures Run(State(299, FIRST, 0, map[1 := Timed(FIRST, x, 299), 2 := Opened(FIRST, y)], map[x := 300],
                      [Section(0, FIRST, x, None)]), Overtaken(x, y)).history
         == [Section(0, FIRST, x, None), Section(300, FIRST, y, None), Section(299, FIRST, x, None)]
  {
    hide Run, Check;
    var i, h, a := FIRST, [Section(0, FIRST, x, None)], Advance(2, y);
    var waiting := Timed(i, x, 299);
    var s1 := State(299, i, 0, map[1 := waiting, 2 := Opened(i, y)], map[x := 300], h);
    var s2 := s1.(clock := 300);
    var s3 := s2.(threads := map[1 := waiting, 2 := Timed(i, y, 300)]);
    var s4 := s3.(threads := map[1 := waiting, 2 := Issuing(i, y)], seen := map[y := 300],
                  history := h + [Section(300, i, y, None)]);
    var s5 := s4.(threads := map[1 := Issuing(i, x), 2 := Issuing(i, y)], seen := map[y := 300, x := 300],
                  history := s4.history + [Section(299, i, x, None)]);
    assert map[1 := waiting, 2 := Opened(i, y)][2 := Timed(i, y, 300)] == map[1 := waiting, 2 := Timed(i, y, 300)];
    assert map[1 := waiting, 2 := Timed(i, y, 300)][2 := Issuing(i, y)] == map[1 := waiting, 2 := Issuing(i, y)];
    assert map[1 := waiting, 2 := Issuing(i, y)][1 := Issuing(i, x)] == map[1 := Issuing(i, x), 2 := Issuing(i, y)];
    CheckAgainstNothing(map[x := 300], 300, y, 300);
    CheckAgainstOther(x, y);
    Step(s1, Tick(300), [a] + ([a] + ([Advance(1, x)] + [])), s2);
    Step(s2, a, [a] + ([Advance(1, x)] + []), s3);
    Step(s3, a, [Advance(1, x)] + [], s4);
    Step(s4, Advance(1, x), [], s5);
    RunNothing(s5);
  }

  lemma CheckAgainstOther(x: Replay, y: Replay)
    requires x != y
    ensures Check(map[y := 300], 299, x, 300) == (map[y := 300, x := 300], None)
  {
    assert Purged(map[y := 300], 299) == map[y := 300];
  }

  lemma RunNothing(s: State)
    ensures Run(s, []) == s
  {
  }
}
