/**
 The rate decisions of `enterAuthentication` and `enterVerified` (apps/api/admission.ts:60-89) as
 functions of the state they find and the clock readings they take. Both enter a new generation,
 consume from a window shared by all callers, find or create the caller's own window while there
 is room, and consume from it, or from an overflow window when there is none. State changed
 before a refusal stays changed.
 */
module Gate {
  import opened Bytes
  import opened RateWindows

  const MAX_SAFE: int := 0x1F_FFFF_FFFF_FFFF

  datatype Code =
    | InvalidClock | ServerBusy | PublicRateLimit
    | AuthenticationRateLimit | CredentialRateLimit | AuthenticationBusy
    | InvalidVerifiedTenant | VerifiedRateLimit | AccountAdmissionLimit | CaptureAdmissionLimit | AccountBusy
    | CaptureBusy
    | InvalidBodyLimit | InvalidContentLength | RequestTooLarge | BodyAdmissionBusy | InvalidBodySize

  /** The reading of the clock each place would take; a call that stops early takes only the first ones. */
  datatype Readings = Readings(check: int, reset: int, shared: int, made: int, tried: int)

  datatype Rules = Rules(ms: nat, sharedLimit: nat, sharedCode: Code, keys: nat, limit: nat, ownCode: Code,
                         resets: bool)

  /** `generation` is the one entered last; `windows` holds a window per key. */
  datatype Gate = Gate(generation: int, shared: Window, windows: map<string, Window>)

  datatype Entry = Entry(gate: Gate, overflow: Window, refusal: Option<Code>)

  /** What the clock must return: a safe integer that is not negative. */
  predicate Usable(reading: int) {
    0 <= reading <= MAX_SAFE
  }

  function Spend(w: Window, limit: nat, code: Code, now: int, ms: nat): (Window, Option<Code>) {
    if !Usable(now) then (w, Some(InvalidClock))
    else
      var (w', admitted) := Consume(w, limit, now, ms);
      (w', if admitted then None else Some(code))
  }

  function Sparing(windows: map<string, Window>, spared: set<string>): map<string, Window> {
    map k | k in windows && k in spared :: windows[k]
  }

  function EnterGeneration(e: Entry, rules: Rules, spared: set<string>, r: Readings): Entry
    requires rules.ms > 0
  {
    if !Usable(r.check) then e.(refusal := Some(InvalidClock))
    else if r.check / rules.ms == e.gate.generation then e
    else
      var rolled := e.(gate := Gate(r.check / rules.ms, e.gate.shared, Sparing(e.gate.windows, spared)));
      if !rules.resets then rolled
      else if !Usable(r.reset) then rolled.(refusal := Some(InvalidClock))
      else rolled.(overflow := Window(r.reset, 0))
  }

  function SpendShared(e: Entry, rules: Rules, r: Readings): Entry {
    var (shared, refusal) := Spend(e.gate.shared, rules.sharedLimit, rules.sharedCode, r.shared, rules.ms);
    e.(gate := e.gate.(shared := shared), refusal := refusal)
  }

  function FindOrCreate(e: Entry, rules: Rules, key: string, r: Readings): Entry {
    if key in e.gate.windows || |e.gate.windows| >= rules.keys then e
    else if !Usable(r.made) then e.(refusal := Some(InvalidClock))
    else e.(gate := e.gate.(windows := e.gate.windows[key := Window(r.made, 0)]))
  }

  function SpendOwn(e: Entry, rules: Rules, key: string, r: Readings): Entry {
    if key in e.gate.windows then
      var (own, refusal) := Spend(e.gate.windows[key], rules.limit, rules.ownCode, r.tried, rules.ms);
      e.(gate := e.gate.(windows := e.gate.windows[key := own]), refusal := refusal)
    else
      var (overflow, refusal) := Spend(e.overflow, rules.limit, rules.ownCode, r.tried, rules.ms);
      e.(overflow := overflow, refusal := refusal)
  }

  /** Everything before the caller's own window is consumed from. */
  function Approach(g: Gate, overflow: Window, rules: Rules, key: string, spared: set<string>, r: Readings): Entry
    requires rules.ms > 0
  {
    var rolled := EnterGeneration(Entry(g, overflow, None), rules, spared, r);
    if rolled.refusal.Some? then rolled
    else
      var shared := SpendShared(rolled, rules, r);
      if shared.refusal.Some? then shared else FindOrCreate(shared, rules, key, r)
  }

  function Enter(g: Gate, overflow: Window, rules: Rules, key: string, spared: set<string>, r: Readings): Entry
    requires rules.ms > 0
  {
    var near := Approach(g, overflow, rules, key, spared, r);
    if near.refusal.Some? then near else SpendOwn(near, rules, key, r)
  }

  /** How an admission or a refusal shows in the shared window and the caller's own. */
  predicate Decided(refusal: Option<Code>, shared: Window, sharedLimit: nat, sharedCode: Code,
                    own: Window, limit: nat, ownCode: Code)
  {
    match refusal
    case None => 1 <= shared.requests <= sharedLimit && 1 <= own.requests <= limit
    case Some(code) =>
      || code == InvalidClock
      || (code == sharedCode && shared.requests >= sharedLimit)
      || (code == ownCode && own.requests >= limit)
  }

  lemma SpendDecides(w: Window, limit: nat, code: Code, now: int, ms: nat)
    ensures var (w', refusal) := Spend(w, limit, code, now, ms);
      match refusal
      case None => 1 <= w'.requests <= limit
      case Some(c) => c == InvalidClock || (c == code && w'.requests >= limit)
  {
  }

  lemma SparingIsSmaller(windows: map<string, Window>, spared: set<string>)
    ensures |Sparing(windows, spared)| <= |windows|
  {
    SmallerSet(Sparing(windows, spared).Keys, windows.Keys);
  }

  lemma TableStaysWithin(e: Entry, rules: Rules, key: string, r: Readings)
    ensures var f := FindOrCreate(e, rules, key, r);
      && (|f.gate.windows| <= |e.gate.windows| || |f.gate.windows| <= rules.keys)
      && (f.refusal == None && key !in f.gate.windows ==> |f.gate.windows| >= rules.keys)
  {
    if key !in e.gate.windows {
      assert e.gate.windows[key := Window(r.made, 0)].Keys == e.gate.windows.Keys + {key};
    }
  }

  lemma OwnDecides(e: Entry, rules: Rules, key: string, r: Readings)
    ensures var o := SpendOwn(e, rules, key, r);
      var own := if key in o.gate.windows then o.gate.windows[key] else o.overflow;
      && o.gate.shared == e.gate.shared && |o.gate.windows| == |e.gate.windows|
      && (key in o.gate.windows <==> key in e.gate.windows)
      && match o.refusal
         case None => 1 <= own.requests <= rules.limit
         case Some(c) => c == InvalidClock || (c == rules.ownCode && own.requests >= rules.limit)
  {
    if key in e.gate.windows {
      SpendDecides(e.gate.windows[key], rules.limit, rules.ownCode, r.tried, rules.ms);
      hide Spend;
      assert SpendOwn(e, rules, key, r).gate.windows.Keys == e.gate.windows.Keys;
    } else {
      SpendDecides(e.overflow, rules.limit, rules.ownCode, r.tried, rules.ms);
    }
  }

  /** One entry admits within both limits and refuses only when one of them is used up; the table
      of windows stays within its size, and a caller goes without a window of its own only when
      the table is full. */
  lemma EntryDecides(g: Gate, overflow: Window, rules: Rules, key: string, spared: set<string>, r: Readings)
    requires rules.ms > 0
    ensures var e := Enter(g, overflow, rules, key, spared, r);
      var own := if key in e.gate.windows then e.gate.windows[key] else e.overflow;
      && Decided(e.refusal, e.gate.shared, rules.sharedLimit, rules.sharedCode, own, rules.limit, rules.ownCode)
      && (|e.gate.windows| <= |g.windows| || |e.gate.windows| <= rules.keys)
      && (e.refusal == None && key !in e.gate.windows ==> |e.gate.windows| >= rules.keys)
  {
    SparingIsSmaller(g.windows, spared);
    var rolled := EnterGeneration(Entry(g, overflow, None), rules, spared, r);
    assert |rolled.gate.windows| <= |g.windows|;
    hide Spend, EnterGeneration, FindOrCreate, SpendOwn;
    if rolled.refusal == None {
      SpendDecides(rolled.gate.shared, rules.sharedLimit, rules.sharedCode, r.shared, rules.ms);
      var shared := SpendShared(rolled, rules, r);
      if shared.refusal == None {
        TableStaysWithin(shared, rules, key, r);
        FoundKeeps(shared, rules, key, r);
        OwnDecides(FindOrCreate(shared, rules, key, r), rules, key, r);
      }
    }
  }

  lemma FoundKeeps(e: Entry, rules: Rules, key: string, r: Readings)
    requires e.refusal == None
    ensures var f := FindOrCreate(e, rules, key, r);
      f.gate.shared == e.gate.shared && (f.refusal == None || f.refusal == Some(InvalidClock))
  {
  }

  // ----- Runs -----

  datatype Call = Call(key: string, rules: Rules, overflow: Window, spared: set<string>, readings: Readings)

  function Apply(g: Gate, c: Call): Entry
    requires c.rules.ms > 0
  {
    Enter(g, c.overflow, c.rules, c.key, c.spared, c.readings)
  }

  predicate InForce(calls: seq<Call>, ms: nat) {
    ms > 0 && forall i :: 0 <= i < |calls| ==> calls[i].rules.ms == ms
  }

  function Initial(): Gate {
    Gate(-1, Window(0, 0), map[])
  }

  function After(calls: seq<Call>, ms: nat): Gate
    requires InForce(calls, ms)
  {
    if calls == [] then Initial()
    else Apply(After(calls[..|calls| - 1], ms), calls[|calls| - 1]).gate
  }

  /** Whether a call gets as far as this key's own window. */
  predicate Reaches(g: Gate, c: Call, key: string)
    requires c.rules.ms > 0
  {
    var near := Approach(g, c.overflow, c.rules, c.key, c.spared, c.readings);
    c.key == key && near.refusal == None && key in near.gate.windows
  }

  /** The readings at which the window of `key` admitted a request. */
  function Admissions(calls: seq<Call>, key: string, ms: nat): seq<int>
    requires InForce(calls, ms)
  {
    if calls == [] then []
    else
      var g, c := After(calls[..|calls| - 1], ms), calls[|calls| - 1];
      Logged(Admissions(calls[..|calls| - 1], key, ms), c.readings.tried,
             Reaches(g, c, key) && Apply(g, c).refusal == None)
  }

  /** The clock is usable and does not run backwards. */
  predicate Steady(calls: seq<Call>) {
    && (forall i :: 0 <= i < |calls| ==>
          var r := calls[i].readings; 0 <= r.check <= r.reset <= r.shared <= r.made <= r.tried <= MAX_SAFE)
    && forall i, j :: 0 <= i < j < |calls| ==> calls[i].readings.tried <= calls[j].readings.check
  }

  /** With a slack of 0 no call takes readings from two generations. */
  predicate Straddling(calls: seq<Call>, slack: nat, ms: nat)
    requires ms > 0
  {
    && slack <= 1
    && (slack == 0 ==>
          forall i :: 0 <= i < |calls| ==> calls[i].readings.tried / ms == calls[i].readings.check / ms)
  }

  predicate Limited(calls: seq<Call>, key: string, limit: nat) {
    forall i :: 0 <= i < |calls| && calls[i].key == key ==> calls[i].rules.limit == limit
  }

  function VisitOf(g: Gate, c: Call, key: string): Visit
    requires c.rules.ms > 0
  {
    Visit(c.readings.check, key in c.spared, Reaches(g, c, key), c.readings.made, c.readings.tried)
  }

  function Visits(calls: seq<Call>, key: string, ms: nat): (visits: seq<Visit>)
    requires InForce(calls, ms)
    ensures |visits| == |calls|
  {
    if calls == [] then []
    else Visits(calls[..|calls| - 1], key, ms) + [VisitOf(After(calls[..|calls| - 1], ms), calls[|calls| - 1], key)]
  }

  predicate Shows(v: View, g: Gate, key: string) {
    && v.generation == g.generation
    && v.window == if key in g.windows then Some(g.windows[key]) else None
  }

  lemma RolledShows(v: View, g: Gate, c: Call, key: string)
    requires c.rules.ms > 0 && Steady([c]) && Shows(v, g, key)
    ensures var e := EnterGeneration(Entry(g, c.overflow, None), c.rules, c.spared, c.readings);
      e.refusal == None && Shows(Rolled(v, c.readings.check, key in c.spared, c.rules.ms), e.gate, key)
  {
    var r := [c][0].readings;
    assert 0 <= r.check <= r.reset <= r.shared <= r.made <= r.tried <= MAX_SAFE;
  }

  /** From the shared window on: a call of this key makes the key's window if there is room, and
      consumes from it; any other call leaves it alone. */
  lemma OwnShows(v: View, e: Entry, c: Call, key: string, limit: nat)
    requires Steady([c]) && e.refusal == None && Shows(v, e.gate, key) && (c.key == key ==> c.rules.limit == limit)
    ensures var f := FindOrCreate(e, c.rules, c.key, c.readings);
      var o := SpendOwn(f, c.rules, c.key, c.readings);
      && f.refusal == None
      && if c.key == key && key in f.gate.windows then
           var t := Tried(Made(v, c.readings.made), c.readings.tried, limit, c.rules.ms);
           Shows(t, o.gate, key) && t.log == Logged(v.log, c.readings.tried, o.refusal == None)
         else Shows(v, o.gate, key)
  {
    hide Consume;
    var r := [c][0].readings;
    assert 0 <= r.check <= r.reset <= r.shared <= r.made <= r.tried <= MAX_SAFE;
  }

  lemma EnterShows(v: View, g: Gate, c: Call, key: string, limit: nat)
    requires c.rules.ms > 0 && Steady([c]) && Shows(v, g, key) && (c.key == key ==> c.rules.limit == limit)
    ensures var n := Next(v, VisitOf(g, c, key), limit, c.rules.ms);
      && Shows(n, Apply(g, c).gate, key)
      && n.log == Logged(v.log, c.readings.tried, Reaches(g, c, key) && Apply(g, c).refusal == None)
      && n.latest <= c.readings.tried
  {
    RolledShows(v, g, c, key);
    SteadyReadings(c);
    hide EnterGeneration, FindOrCreate, SpendOwn, Consume, Steady;
    var rolled := EnterGeneration(Entry(g, c.overflow, None), c.rules, c.spared, c.readings);
    var shared := SpendShared(rolled, c.rules, c.readings);
    if shared.refusal == None {
      OwnShows(Rolled(v, c.readings.check, key in c.spared, c.rules.ms), shared, c, key, limit);
    }
  }

  lemma SteadyReadings(c: Call)
    requires Steady([c])
    ensures 0 <= c.readings.check <= c.readings.shared <= c.readings.tried
  {
    assert [c][0] == c;
  }

  lemma SteadyParts(calls: seq<Call>)
    requires Steady(calls) && calls != []
    ensures Steady(calls[..|calls| - 1]) && Steady([calls[|calls| - 1]])
    ensures |calls| > 1 ==> calls[|calls| - 2].readings.tried <= calls[|calls| - 1].readings.check
    ensures 0 <= calls[|calls| - 1].readings.check
  {
    var c := calls[|calls| - 1];
    assert [c][0] == c;
  }

  /** The gate holds, for every key, the window that key's own visits build. */
  lemma {:induction false} RunShows(calls: seq<Call>, key: string, limit: nat, ms: nat)
    requires InForce(calls, ms) && Steady(calls) && Limited(calls, key, limit)
    ensures var v := Visited(Visits(calls, key, ms), limit, ms);
      && Shows(v, After(calls, ms), key) && v.log == Admissions(calls, key, ms)
      && Orderly(Visits(calls, key, ms), limit, ms)
      && v.latest <= if calls == [] then 0 else calls[|calls| - 1].readings.tried
  {
    hide Steady, Next, Apply, VisitOf, Shows, Reaches, Logged, InOrder, Orderly, Visited;
    if calls != [] {
      var front, c := calls[..|calls| - 1], calls[|calls| - 1];
      SteadyParts(calls);
      RunShows(front, key, limit, ms);
      LimitedLast(calls, key, limit);
      var v, g := Visited(Visits(front, key, ms), limit, ms), After(front, ms);
      EnterShows(v, g, c, key, limit);
      OneMore(Visits(front, key, ms), VisitOf(g, c, key), limit, ms);
      SteadyVisit(v, g, c, key);
    } else {
      NoVisits(limit, ms);
      NothingShown(key);
    }
  }

  lemma LimitedLast(calls: seq<Call>, key: string, limit: nat)
    requires Limited(calls, key, limit) && calls != []
    ensures Limited(calls[..|calls| - 1], key, limit)
    ensures calls[|calls| - 1].key == key ==> calls[|calls| - 1].rules.limit == limit
  {
  }

  lemma NothingShown(key: string)
    ensures Shows(Fresh(), Initial(), key)
  {
  }

  lemma SteadyVisit(v: View, g: Gate, c: Call, key: string)
    requires c.rules.ms > 0 && Steady([c]) && v.latest <= c.readings.check
    ensures InOrder(v.latest, VisitOf(g, c, key))
  {
    assert [c][0] == c;
  }

  lemma {:induction false} VisitAt(calls: seq<Call>, key: string, ms: nat, i: nat)
    requires InForce(calls, ms) && i < |calls|
    ensures Visits(calls, key, ms)[i] == VisitOf(After(calls[..i], ms), calls[i], key)
    decreases |calls|
  {
    hide VisitOf, After;
    if i < |calls| - 1 {
      VisitAt(calls[..|calls| - 1], key, ms, i);
      assert calls[..|calls| - 1][..i] == calls[..i];
    }
  }

  lemma VisitsWithin(calls: seq<Call>, key: string, slack: nat, ms: nat)
    requires InForce(calls, ms) && Straddling(calls, slack, ms)
    ensures AllWithin(Visits(calls, key, ms), slack, ms)
    ensures (forall i :: 0 <= i < |calls| ==> key !in calls[i].spared) ==>
              forall i :: 0 <= i < |calls| ==> !Visits(calls, key, ms)[i].spared
  {
    hide Visits, After, Reaches;
    forall i | 0 <= i < |calls|
      ensures Within(Visits(calls, key, ms)[i], slack, ms)
      ensures Visits(calls, key, ms)[i].spared == (key in calls[i].spared)
    {
      VisitAt(calls, key, ms, i);
    }
  }

  /** Over any run of `enterAuthentication`, whatever other callers do, a credential's own window
      admits at most twice its limit in any interval as long as the window; with a slack of one
      that also covers runs where a call straddles the edge of a generation. */
  lemma CredentialRate(calls: seq<Call>, key: string, limit: nat, slack: nat, ms: nat)
    requires InForce(calls, ms) && Steady(calls) && Limited(calls, key, limit) && Straddling(calls, slack, ms)
    requires forall i :: 0 <= i < |calls| ==> key !in calls[i].spared
    ensures Spaced(Admissions(calls, key, ms), 2 * limit + slack, ms)
  {
    assert ms > 0;
    hide *;
    RunShows(calls, key, limit, ms);
    VisitsWithin(calls, key, slack, ms);
    ClearedRate(Visits(calls, key, ms), limit, slack, ms);
  }

  /** Over any run of `enterVerified`, with any slots spared and calls straddling generations or not,
      a tenant's own window admits at most three times its limit. */
  lemma TenantRate(calls: seq<Call>, key: string, limit: nat, ms: nat)
    requires InForce(calls, ms) && Steady(calls) && Limited(calls, key, limit) && limit >= 1
    ensures Spaced(Admissions(calls, key, ms), 3 * limit, ms)
  {
    assert ms > 0;
    hide *;
    RunShows(calls, key, limit, ms);
    SparedRate(Visits(calls, key, ms), limit, ms);
  }

  // ----- The window all callers share -----

  function SharedTimes(calls: seq<Call>): (times: seq<int>)
    ensures |times| == |calls| && forall i :: 0 <= i < |calls| ==> times[i] == calls[i].readings.shared
  {
    seq(|calls|, i requires 0 <= i < |calls| => calls[i].readings.shared)
  }

  predicate SharesWindow(calls: seq<Call>, limit: nat) {
    forall i :: 0 <= i < |calls| ==> calls[i].rules.sharedLimit == limit
  }

  predicate PassesShared(g: Gate, c: Call)
    requires c.rules.ms > 0
  {
    var e := EnterGeneration(Entry(g, c.overflow, None), c.rules, c.spared, c.readings);
    e.refusal == None && SpendShared(e, c.rules, c.readings).refusal == None
  }

  /** The readings at which the shared window admitted a request. */
  function SharedAdmissions(calls: seq<Call>, ms: nat): seq<int>
    requires InForce(calls, ms)
  {
    if calls == [] then []
    else
      var g, c := After(calls[..|calls| - 1], ms), calls[|calls| - 1];
      Logged(SharedAdmissions(calls[..|calls| - 1], ms), c.readings.shared, PassesShared(g, c))
  }

  lemma EnterSpendsShared(g: Gate, c: Call)
    requires c.rules.ms > 0 && Steady([c])
    ensures var (w, admitted) := Consume(g.shared, c.rules.sharedLimit, c.readings.shared, c.rules.ms);
      Apply(g, c).gate.shared == w && PassesShared(g, c) == admitted
  {
    hide Consume;
    var r := [c][0].readings;
    assert 0 <= r.check <= r.reset <= r.shared <= r.made <= r.tried <= MAX_SAFE;
  }

  lemma {:induction false} RunSpendsShared(calls: seq<Call>, limit: nat, ms: nat)
    requires InForce(calls, ms) && Steady(calls) && SharesWindow(calls, limit)
    ensures Permanent(SharedTimes(calls), limit, ms) == (After(calls, ms).shared, SharedAdmissions(calls, ms))
  {
    hide Steady, Apply, PassesShared, Consume;
    if calls != [] {
      var front, c := calls[..|calls| - 1], calls[|calls| - 1];
      SteadyParts(calls);
      RunSpendsShared(front, limit, ms);
      EnterSpendsShared(After(front, ms), c);
      assert SharedTimes(calls)[..|calls| - 1] == SharedTimes(front);
    }
  }

  /** Over any run of either call, the window its callers share admits at most twice its limit. */
  lemma SharedRate(calls: seq<Call>, limit: nat, ms: nat)
    requires InForce(calls, ms) && Steady(calls) && SharesWindow(calls, limit)
    ensures Spaced(SharedAdmissions(calls, ms), 2 * limit, ms)
  {
    hide Spaced, Permanent, After, SharedAdmissions;
    RunSpendsShared(calls, limit, ms);
    SteadyTimes(calls);
    PermanentRate(SharedTimes(calls), limit, ms);
  }

  lemma SteadyTimes(calls: seq<Call>)
    requires Steady(calls)
    ensures Ascending(SharedTimes(calls)) && (calls != [] ==> 0 <= SharedTimes(calls)[0])
  {
    forall i, j | 0 <= i < j < |calls|
      ensures calls[i].readings.shared <= calls[j].readings.shared
    {
      assert calls[i].readings.tried <= calls[j].readings.check;
    }
  }

  // A shared window no larger than the caller's own bounds the caller too.

  lemma ReachesPastShared(g: Gate, c: Call, key: string)
    requires c.rules.ms > 0 && Reaches(g, c, key)
    ensures PassesShared(g, c)
  {
    hide EnterGeneration, SpendShared;
  }

  /** One call, where `k` of the requests in the shared window were admitted to the own one. */
  lemma BehindShared(log: seq<int>, w: Window, k: nat, limit: nat, shared: int, tried: int, own: bool, ms: nat)
    returns (k': nat)
    requires k <= w.requests <= limit && w.start <= shared <= tried && UpTo(log, shared)
    requires Behind(log, Window(w.start, k), limit, limit, ms) && Spaced(log, limit + limit, ms)
    requires own ==> Consume(w, limit, shared, ms).1
    ensures var w' := Consume(w, limit, shared, ms).0;
      && k' <= w'.requests <= limit && w'.start <= tried
      && Behind(Logged(log, tried, own), Window(w'.start, k'), limit, limit, ms)
    ensures Spaced(Logged(log, tried, own), limit + limit, ms) && UpTo(Logged(log, tried, own), tried)
  {
    hide Behind, Spaced;
    CurrentKeeps(log, Window(w.start, k), limit, limit, shared, ms);
    var now := Current(Window(w.start, k), shared, ms);
    k' := now.requests;
    if own {
      AdmittedBehind(log, now, limit, limit, tried, ms);
      AdmittedSpaced(log, now, limit, limit, tried, ms);
      k' := k' + 1;
    }
  }

  lemma {:induction false} RunBehindShared(calls: seq<Call>, key: string, limit: nat, ms: nat) returns (k: nat)
    requires InForce(calls, ms) && Steady(calls) && SharesWindow(calls, limit)
    ensures var w, log := After(calls, ms).shared, Admissions(calls, key, ms);
      && k <= w.requests <= limit && Behind(log, Window(w.start, k), limit, limit, ms) && Spaced(log, limit + limit, ms)
      && var latest := if calls == [] then 0 else calls[|calls| - 1].readings.tried;
         w.start <= latest && UpTo(log, latest)
  {
    hide Steady, Apply, PassesShared, Consume, Reaches, Behind, Spaced, UpTo, Logged;
    if calls == [] {
      k := 0;
      NothingBehind(0, limit, limit, ms);
      NothingUpTo();
    } else {
      var front, c := calls[..|calls| - 1], calls[|calls| - 1];
      SteadyParts(calls);
      k := RunBehindShared(front, key, limit, ms);
      var g, log := After(front, ms), Admissions(front, key, ms);
      EnterSpendsShared(g, c);
      if Reaches(g, c, key) {
        ReachesPastShared(g, c, key);
      }
      SteadyReadings(c);
      Later(log, if front == [] then 0 else front[|front| - 1].readings.tried, c.readings.shared);
      var own := Reaches(g, c, key) && Apply(g, c).refusal == None;
      k := BehindShared(log, g.shared, k, limit, c.readings.shared, c.readings.tried, own, ms);
    }
  }

  lemma NothingUpTo()
    ensures UpTo([], 0)
  {
  }

  // ----- The overflow window -----

  /** The overflow window of the calls that are refused with `code`, as a run leaves it. */
  function OverflowAfter(calls: seq<Call>, code: Code, ms: nat): Window
    requires InForce(calls, ms)
  {
    if calls == [] then Window(0, 0)
    else if calls[|calls| - 1].rules.ownCode == code then
      Apply(After(calls[..|calls| - 1], ms), calls[|calls| - 1]).overflow
    else OverflowAfter(calls[..|calls| - 1], code, ms)
  }

  /** Those calls hand it on from one to the next. */
  predicate HandOn(calls: seq<Call>, code: Code, ms: nat)
    requires InForce(calls, ms)
  {
    forall i :: 0 <= i < |calls| && calls[i].rules.ownCode == code ==>
      calls[i].overflow == OverflowAfter(calls[..i], code, ms)
  }

  predicate LimitedBy(calls: seq<Call>, code: Code, limit: nat, resets: bool) {
    forall i :: 0 <= i < |calls| && calls[i].rules.ownCode == code ==>
      calls[i].rules.limit == limit && calls[i].rules.resets == resets
  }

  /** Whether a call gets as far as the overflow window. */
  predicate Overflows(g: Gate, c: Call, code: Code)
    requires c.rules.ms > 0
  {
    var near := Approach(g, c.overflow, c.rules, c.key, c.spared, c.readings);
    c.rules.ownCode == code && near.refusal == None && c.key !in near.gate.windows
  }

  /** The readings at which the overflow window admitted a request. */
  function OverflowAdmissions(calls: seq<Call>, code: Code, ms: nat): seq<int>
    requires InForce(calls, ms)
  {
    if calls == [] then []
    else
      var g, c := After(calls[..|calls| - 1], ms), calls[|calls| - 1];
      Logged(OverflowAdmissions(calls[..|calls| - 1], code, ms), c.readings.tried,
             Overflows(g, c, code) && Apply(g, c).refusal == None)
  }

  lemma HandOnLast(calls: seq<Call>, code: Code, limit: nat, resets: bool, ms: nat)
    requires InForce(calls, ms) && HandOn(calls, code, ms) && LimitedBy(calls, code, limit, resets) && calls != []
    ensures var front, c := calls[..|calls| - 1], calls[|calls| - 1];
      && HandOn(front, code, ms) && LimitedBy(front, code, limit, resets)
      && (c.rules.ownCode == code ==>
            c.rules.limit == limit && c.rules.resets == resets && c.overflow == OverflowAfter(front, code, ms))
  {
    hide OverflowAfter;
    var front := calls[..|calls| - 1];
    forall i | 0 <= i < |front| && front[i].rules.ownCode == code
      ensures front[i].overflow == OverflowAfter(front[..i], code, ms)
    {
      assert front[i] == calls[i] && front[..i] == calls[..i];
    }
  }

  /** One call consumes from the overflow window, or leaves it, or starts it anew. */
  lemma EnterOverflows(g: Gate, c: Call)
    requires c.rules.ms > 0 && Steady([c])
    ensures var r := c.readings;
      var start := if c.rules.resets && r.check / c.rules.ms != g.generation then Window(r.reset, 0) else c.overflow;
      var (w, admitted) := Consume(start, c.rules.limit, r.tried, c.rules.ms);
      && Apply(g, c).gate.generation == r.check / c.rules.ms
      && if Overflows(g, c, c.rules.ownCode) then
           Apply(g, c).overflow == w && (Apply(g, c).refusal == None <==> admitted)
         else Apply(g, c).overflow == start
  {
    hide Consume;
    var r := [c][0].readings;
    assert 0 <= r.check <= r.reset <= r.shared <= r.made <= r.tried <= MAX_SAFE;
  }

  /** A tenant overflow window, which is never started anew, admits at most twice its limit to all
      the tenants of its kind without a window of their own. */
  lemma OverflowRate(calls: seq<Call>, code: Code, limit: nat, ms: nat)
    requires InForce(calls, ms) && Steady(calls) && HandOn(calls, code, ms) && LimitedBy(calls, code, limit, false)
    ensures Spaced(OverflowAdmissions(calls, code, ms), 2 * limit, ms)
  {
    hide Spaced, HandOn, LimitedBy, Steady, InForce;
    RunOverflows(calls, code, limit, ms);
    assert limit + limit == 2 * limit;
  }

  lemma {:induction false} RunOverflows(calls: seq<Call>, code: Code, limit: nat, ms: nat)
    requires InForce(calls, ms) && Steady(calls) && HandOn(calls, code, ms) && LimitedBy(calls, code, limit, false)
    ensures var w, log := OverflowAfter(calls, code, ms), OverflowAdmissions(calls, code, ms);
      var latest := if calls == [] then 0 else calls[|calls| - 1].readings.tried;
      && Behind(log, w, limit, limit, ms) && Spaced(log, limit + limit, ms)
      && w.start <= latest && UpTo(log, latest)
  {
    hide Steady, Apply, Consume, Overflows, Behind, Spaced, UpTo, HandOn, LimitedBy;
    if calls == [] {
      NothingBehind(0, limit, limit, ms);
      NothingUpTo();
    } else {
      var front, c := calls[..|calls| - 1], calls[|calls| - 1];
      SteadyParts(calls);
      HandOnLast(calls, code, limit, false, ms);
      RunOverflows(front, code, limit, ms);
      SteadyReadings(c);
      var log := OverflowAdmissions(front, code, ms);
      Later(log, if front == [] then 0 else front[|front| - 1].readings.tried, c.readings.tried);
      if c.rules.ownCode == code {
        EnterOverflows(After(front, ms), c);
        ConsumeKeeps(log, c.overflow, limit, limit, c.readings.tried, ms);
      } else {
        OthersStay(After(front, ms), c, code);
      }
    }
  }

  /** The credential overflow window, which every new generation starts anew, admits at most twice
      its limit, and one more if calls may straddle the edge of a generation. */
  lemma CredentialOverflowRate(calls: seq<Call>, code: Code, limit: nat, slack: nat, ms: nat)
    requires InForce(calls, ms) && Steady(calls) && HandOn(calls, code, ms) && LimitedBy(calls, code, limit, true)
    requires Straddling(calls, slack, ms) && forall i :: 0 <= i < |calls| ==> calls[i].rules.ownCode == code
    ensures Spaced(OverflowAdmissions(calls, code, ms), 2 * limit + slack, ms)
  {
    hide Spaced, HandOn, LimitedBy, Steady, InForce, Straddling;
    var _ := RunRestarts(calls, code, limit, slack, ms);
    assert limit + (limit + slack) == 2 * limit + slack;
  }

  lemma {:induction false} RunRestarts(calls: seq<Call>, code: Code, limit: nat, slack: nat, ms: nat) returns (v: View)
    requires InForce(calls, ms) && Steady(calls) && HandOn(calls, code, ms) && LimitedBy(calls, code, limit, true)
    requires Straddling(calls, slack, ms) && forall i :: 0 <= i < |calls| ==> calls[i].rules.ownCode == code
    ensures ClearedInvariant(v, limit, slack, ms) && StartedBy(v, v.latest)
    ensures v.log == OverflowAdmissions(calls, code, ms) && v.generation == After(calls, ms).generation
    ensures v.window == if calls == [] then None else Some(OverflowAfter(calls, code, ms))
    ensures v.latest == if calls == [] then 0 else calls[|calls| - 1].readings.tried
  {
    hide Steady, HandOn, LimitedBy, ClearedInvariant, StartedBy, Apply, Overflows, Consume, Straddling;
    if calls == [] {
      v := Fresh();
      FreshInvariants(limit, slack, ms);
    } else {
      var front, c := calls[..|calls| - 1], calls[|calls| - 1];
      SteadyParts(calls);
      HandOnLast(calls, code, limit, true, ms);
      SteadyReset(c);
      StraddlingLast(calls, slack, ms);
      v := RunRestarts(front, code, limit, slack, ms);
      EnterOverflows(After(front, ms), c);
      v := Restarted(v, c, limit, slack, Overflows(After(front, ms), c, code), ms);
    }
  }

  lemma StraddlingLast(calls: seq<Call>, slack: nat, ms: nat)
    requires ms > 0 && calls != [] && Straddling(calls, slack, ms)
    ensures Straddling(calls[..|calls| - 1], slack, ms) && slack <= 1
    ensures var r := calls[|calls| - 1].readings; slack == 0 ==> r.tried / ms == r.check / ms
  {
  }

  lemma SteadyReset(c: Call)
    requires Steady([c])
    ensures 0 <= c.readings.check <= c.readings.reset <= c.readings.tried
  {
    assert [c][0] == c;
  }

  lemma Restarted(v: View, c: Call, limit: nat, slack: nat, reached: bool, ms: nat) returns (n: View)
    requires ms > 0 && ClearedInvariant(v, limit, slack, ms) && StartedBy(v, v.latest)
    requires v.latest <= c.readings.check <= c.readings.reset <= c.readings.tried
    requires slack <= 1 && (slack == 0 ==> c.readings.tried / ms == c.readings.check / ms)
    ensures ClearedInvariant(n, limit, slack, ms) && StartedBy(n, n.latest)
    ensures n.generation == c.readings.check / ms && n.latest == c.readings.tried
    ensures var r := c.readings;
      var start := if r.check / ms != v.generation || v.window.None? then Window(r.reset, 0) else v.window.value;
      var (w, admitted) := Consume(start, limit, r.tried, ms);
      if reached then n.window == Some(w) && n.log == Logged(v.log, r.tried, admitted)
      else n.window == Some(start) && n.log == v.log
  {
    var r := c.readings;
    var visit := Visit(r.check, false, true, r.reset, r.tried);
    hide ClearedInvariant, Consume;
    if reached {
      ClearedNext(v, visit, limit, slack, ms);
      n := Next(v, visit, limit, ms);
    } else {
      ClearedRolls(v, r.check, limit, slack, ms);
      var rolled := Rolled(v, r.check, false, ms);
      ClearedMakes(rolled, r.reset, limit, slack, ms);
      n := Made(rolled, r.reset).(latest := r.tried);
      ClearedLater(Made(rolled, r.reset), r.tried, limit, slack, ms);
    }
  }

  lemma ClearedLater(v: View, later: int, limit: nat, slack: nat, ms: nat)
    requires ClearedInvariant(v, limit, slack, ms) && v.latest <= later
    ensures ClearedInvariant(v.(latest := later), limit, slack, ms)
  {
    hide Start, Spaced;
  }

  lemma OthersStay(g: Gate, c: Call, code: Code)
    requires c.rules.ms > 0 && c.rules.ownCode != code
    ensures !Overflows(g, c, code)
  {
  }

  // ----- Where the bounds cannot be smaller -----

  /** The call finds its own window, or room for one, and is admitted. */
  predicate Welcome(g: Gate, c: Call, found: map<string, Window>, own: Window)
    requires c.rules.ms > 0
  {
    var r := c.readings;
    && Steady([c])
    && found == (if r.check / c.rules.ms == g.generation then g.windows else Sparing(g.windows, c.spared))
    && (if c.key in found then own == found[c.key] else |found| < c.rules.keys && own == Window(r.made, 0))
    && Consume(g.shared, c.rules.sharedLimit, r.shared, c.rules.ms).1
    && Consume(own, c.rules.limit, r.tried, c.rules.ms).1
  }

  lemma Welcomed(calls: seq<Call>, c: Call, found: map<string, Window>, own: Window, ms: nat)
    requires InForce(calls, ms) && c.rules.ms == ms && Welcome(After(calls, ms), c, found, own)
    ensures InForce(calls + [c], ms)
    ensures After(calls + [c], ms)
         == Gate(c.readings.check / ms, Consume(After(calls, ms).shared, c.rules.sharedLimit, c.readings.shared, ms).0,
                 found[c.key := Consume(own, c.rules.limit, c.readings.tried, ms).0])
    ensures Admissions(calls + [c], c.key, ms) == Admissions(calls, c.key, ms) + [c.readings.tried]
  {
    var g := After(calls, ms);
    WelcomedOnce(g, c, found, own);
    hide Welcome, Apply, Reaches, Consume, Admissions, After;
    LastCall(calls, c, ms);
  }

  lemma LastCall(calls: seq<Call>, c: Call, ms: nat)
    requires InForce(calls, ms) && c.rules.ms == ms
    ensures InForce(calls + [c], ms) && After(calls + [c], ms) == Apply(After(calls, ms), c).gate
    ensures Admissions(calls + [c], c.key, ms)
         == Logged(Admissions(calls, c.key, ms), c.readings.tried,
                   Reaches(After(calls, ms), c, c.key) && Apply(After(calls, ms), c).refusal == None)
  {
    hide Apply, Reaches, Logged;
    assert (calls + [c])[..|calls|] == calls;
  }

  lemma WelcomedOnce(g: Gate, c: Call, found: map<string, Window>, own: Window)
    requires c.rules.ms > 0 && Welcome(g, c, found, own)
    ensures Reaches(g, c, c.key) && Apply(g, c).refusal == None
    ensures Apply(g, c).gate
         == Gate(c.readings.check / c.rules.ms, Consume(g.shared, c.rules.sharedLimit, c.readings.shared, c.rules.ms).0,
                 found[c.key := Consume(own, c.rules.limit, c.readings.tried, c.rules.ms).0])
  {
    hide Consume;
    var r := [c][0].readings;
    assert 0 <= r.check <= r.reset <= r.shared <= r.made <= r.tried <= MAX_SAFE;
    var w := Consume(own, c.rules.limit, c.readings.tried, c.rules.ms).0;
    assert found[c.key := own][c.key := w] == found[c.key := w];
  }

  // Runs of calls of one key, all under the same rules.

  predicate Under(calls: seq<Call>, rules: Rules) {
    forall i :: 0 <= i < |calls| ==> calls[i].rules == rules
  }

  predicate Unspared(calls: seq<Call>, key: string) {
    forall i :: 0 <= i < |calls| ==> key !in calls[i].spared
  }

  function OneKey(): string {
    "k"
  }

  /** A call that consumes at `tried` and takes all its other readings at `check`. */
  function At(rules: Rules, spared: set<string>, check: int, tried: int): Call {
    Call(OneKey(), rules, Window(0, 0), spared, Readings(check, check, check, check, tried))
  }

  /** A run under `rules`, none of whose readings is later than `last`. */
  predicate Legal(calls: seq<Call>, rules: Rules, last: int) {
    && InForce(calls, rules.ms) && Under(calls, rules) && Steady(calls)
    && forall i :: 0 <= i < |calls| ==> calls[i].readings.tried <= last
  }

  /** The gate after the run holds one window, and the run's admissions are `log`. */
  predicate Stands(calls: seq<Call>, rules: Rules, generation: int, shared: Window, own: Window, log: seq<int>) {
    && InForce(calls, rules.ms)
    && After(calls, rules.ms) == Gate(generation, shared, map[OneKey() := own])
    && Admissions(calls, OneKey(), rules.ms) == log
  }

  function Copies(reading: int, n: nat): (log: seq<int>)
    ensures |log| == n && forall i :: 0 <= i < n ==> log[i] == reading
  {
    seq(n, _ => reading)
  }

  predicate Ordered(check: int, tried: int) {
    0 <= check <= tried <= MAX_SAFE
  }

  lemma LegalGrows(calls: seq<Call>, rules: Rules, last: int, spared: set<string>, check: int, tried: int)
    requires Legal(calls, rules, last) && last <= check && Ordered(check, tried)
    ensures Legal(calls + [At(rules, spared, check, tried)], rules, tried)
  {
    hide OneKey;
    var c := At(rules, spared, check, tried);
    var longer := calls + [c];
    assert forall i :: 0 <= i < |calls| ==> longer[i] == calls[i];
    assert longer[|calls|] == c;
  }

  /** One more call, which finds the window still there, or is the first of a new generation. */
  lemma Grows(calls: seq<Call>, rules: Rules, last: int, g: int, shared: Window, own: Window, log: seq<int>,
              spared: set<string>, check: int, tried: int)
    requires rules.ms > 0 && rules.keys >= 1 && Legal(calls, rules, last) && Stands(calls, rules, g, shared, own, log)
    requires last <= check && Ordered(check, tried)
    requires Consume(shared, rules.sharedLimit, check, rules.ms).1
    requires Consume(Found(g, own, rules, spared, check), rules.limit, tried, rules.ms).1
    ensures var longer := calls + [At(rules, spared, check, tried)];
      && Legal(longer, rules, tried)
      && Stands(longer, rules, check / rules.ms, Consume(shared, rules.sharedLimit, check, rules.ms).0,
                Consume(Found(g, own, rules, spared, check), rules.limit, tried, rules.ms).0, log + [tried])
  {
    hide Consume, After, Admissions;
    var c, window := At(rules, spared, check, tried), Found(g, own, rules, spared, check);
    var windows := map[OneKey() := own];
    var found := if check / rules.ms == g then windows else Sparing(windows, spared);
    assert found == if check / rules.ms == g || OneKey() in spared then windows else map[];
    LegalGrows(calls, rules, last, spared, check, tried);
    OneSteady(rules, spared, check, tried);
    hide OneKey, Legal;
    Welcomed(calls, c, found, window, rules.ms);
    var next := Consume(window, rules.limit, tried, rules.ms).0;
    assert found[OneKey() := next] == map[OneKey() := next];
  }

  /** The window a call of the key finds or makes. */
  function Found(g: int, own: Window, rules: Rules, spared: set<string>, check: int): Window
    requires rules.ms > 0
  {
    if check / rules.ms == g || OneKey() in spared then own else Window(check, 0)
  }

  lemma OneSteady(rules: Rules, spared: set<string>, check: int, tried: int)
    requires Ordered(check, tried)
    ensures Steady([At(rules, spared, check, tried)])
  {
  }

  /** The first call of a run. */
  lemma Opens(rules: Rules, check: int, tried: int)
    requires rules.ms > 0 && rules.keys >= 1 && Ordered(check, tried)
    requires Consume(Window(0, 0), rules.sharedLimit, check, rules.ms).1
    requires Consume(Window(check, 0), rules.limit, tried, rules.ms).1
    ensures var calls := [At(rules, {}, check, tried)];
      && Legal(calls, rules, tried)
      && Stands(calls, rules, check / rules.ms, Consume(Window(0, 0), rules.sharedLimit, check, rules.ms).0,
                Consume(Window(check, 0), rules.limit, tried, rules.ms).0, [tried])
  {
    hide Consume, After, Admissions;
    var none: seq<Call>, c := [], At(rules, {}, check, tried);
    NoCalls(OneKey(), rules.ms);
    OneSteady(rules, {}, check, tried);
    LegalGrows(none, rules, 0, {}, check, tried);
    assert Sparing(map[], {}) == map[];
    hide OneKey, Legal;
    Welcomed(none, c, map[], Window(check, 0), rules.ms);
    assert none + [c] == [c];
  }

  lemma NoCalls(key: string, ms: nat)
    requires ms > 0
    ensures After([], ms) == Initial() && Admissions([], key, ms) == []
  {
  }

  /** The longer run goes on with calls that take all their readings at `now`. */
  predicate Appended(calls: seq<Call>, longer: seq<Call>, rules: Rules, spared: set<string>, now: int) {
    && |calls| <= |longer| && (forall i :: 0 <= i < |calls| ==> longer[i] == calls[i])
    && forall i :: |calls| <= i < |longer| ==> longer[i] == At(rules, spared, now, now)
  }

  /** `n` calls at one reading, in the same generation and with room in both windows. */
  lemma {:induction false} Burst(calls: seq<Call>, rules: Rules, g: int, shared: Window, own: Window, log: seq<int>,
                                 spared: set<string>, now: int, n: nat) returns (longer: seq<Call>)
    requires rules.ms > 0 && rules.keys >= 1 && Legal(calls, rules, now) && Stands(calls, rules, g, shared, own, log)
    requires Ordered(now, now) && now / rules.ms == g
    requires shared.start <= now < shared.start + rules.ms && own.start <= now < own.start + rules.ms
    requires shared.requests + n <= rules.sharedLimit && own.requests + n <= rules.limit
    ensures Legal(longer, rules, now) && Appended(calls, longer, rules, spared, now)
    ensures Stands(longer, rules, g, shared.(requests := shared.requests + n), own.(requests := own.requests + n),
                   log + Copies(now, n))
    decreases n
  {
    hide Legal, Stands, At;
    if n == 0 {
      longer := calls;
      assert log + Copies(now, 0) == log;
    } else {
      Grows(calls, rules, now, g, shared, own, log, spared, now, now);
      longer := Burst(calls + [At(rules, spared, now, now)], rules, g, shared.(requests := shared.requests + 1),
                      own.(requests := own.requests + 1), log + [now], spared, now, n - 1);
      assert (log + [now]) + Copies(now, n - 1) == log + Copies(now, n);
    }
  }
  /** The same from any state, where the first call may enter a generation or start a window over. */
  lemma Many(calls: seq<Call>, rules: Rules, last: int, g: int, shared: Window, own: Window, log: seq<int>,
             spared: set<string>, now: int, n: nat) returns (longer: seq<Call>)
    requires rules.ms > 0 && rules.keys >= 1 && Legal(calls, rules, last) && Stands(calls, rules, g, shared, own, log)
    requires last <= now && Ordered(now, now) && n >= 1
    requires Current(shared, now, rules.ms).requests + n <= rules.sharedLimit
    requires Current(Found(g, own, rules, spared, now), now, rules.ms).requests + n <= rules.limit
    ensures Legal(longer, rules, now) && Appended(calls, longer, rules, spared, now)
    ensures var s, o := Current(shared, now, rules.ms), Current(Found(g, own, rules, spared, now), now, rules.ms);
      Stands(longer, rules, now / rules.ms, s.(requests := s.requests + n), o.(requests := o.requests + n),
             log + Copies(now, n))
  {
    hide Legal, Stands, At, Found;
    Grows(calls, rules, last, g, shared, own, log, spared, now, now);
    var s, o := Current(shared, now, rules.ms), Current(Found(g, own, rules, spared, now), now, rules.ms);
    longer := Burst(calls + [At(rules, spared, now, now)], rules, now / rules.ms, s.(requests := s.requests + 1),
                    o.(requests := o.requests + 1), log + [now], spared, now, n - 1);
    assert (log + [now]) + Copies(now, n - 1) == log + Copies(now, n);
  }

  lemma AppendedKeeps(calls: seq<Call>, longer: seq<Call>, rules: Rules, spared: set<string>, now: int, slack: nat)
    requires rules.ms > 0 && Appended(calls, longer, rules, spared, now)
    ensures Straddling(calls, slack, rules.ms) ==> Straddling(longer, slack, rules.ms)
    ensures Unspared(calls, OneKey()) && OneKey() !in spared ==> Unspared(longer, OneKey())
  {
    hide OneKey;
  }

  lemma Divided(ms: nat)
    requires ms >= 2
    ensures 0 / ms == (ms - 1) / ms == 0 && ms / ms == 1
    ensures (2 * ms - 2) / ms == (2 * ms - 1) / ms == 1 && (2 * ms) / ms == 2
  {
    Generations(ms - 1, ms);
    Generations(2 * ms - 2, ms);
    Generations(2 * ms - 1, ms);
    Generations(2 * ms, ms);
    QuotientIs(2 * ms - 2, 1, ms);
    QuotientIs(2 * ms - 1, 1, ms);
    QuotientIs(2 * ms, 2, ms);
  }

  lemma QuotientIs(n: nat, q: nat, ms: nat)
    requires ms > 0 && q * ms <= n < q * ms + ms
    ensures n / ms == q
  {
    hide Start;
    Generations(n, ms);
    if n / ms < q {
      StartsAscend(n / ms + 1, q, ms);
    } else {
      StartsAscend(q, n / ms, ms);
      if n / ms > q {
        StartsAscend(q + 1, n / ms, ms);
      }
    }
    StartIs(q, ms);
  }

  lemma StartIs(q: nat, ms: nat)
    ensures Start(q, ms) == q * ms && Start(q + 1, ms) == q * ms + ms
  {
  }

  lemma StandsFor(calls: seq<Call>, rules: Rules, g: int, shared: Window, own: Window, log: seq<int>)
    requires Stands(calls, rules, g, shared, own, log)
    ensures InForce(calls, rules.ms) && Admissions(calls, OneKey(), rules.ms) == log
  {
  }

  lemma OpensAtZero(rules: Rules)
    requires 1 <= rules.limit <= rules.sharedLimit && rules.keys >= 1 && 2 <= rules.ms <= MAX_SAFE
    ensures var calls := [At(rules, {}, 0, rules.ms - 1)];
      && Legal(calls, rules, rules.ms - 1)
      && Stands(calls, rules, 0, Window(0, 1), Window(0, 1), [rules.ms - 1])
  {
    hide Legal, Stands, At;
    Divided(rules.ms);
    Opens(rules, 0, rules.ms - 1);
  }

  lemma NowInRange(ms: nat)
    requires 2 <= ms <= MAX_SAFE
    ensures Ordered(ms - 1, ms - 1)
  {
  }

  lemma OneCall(rules: Rules, check: int, tried: int, slack: nat)
    requires rules.ms > 0 && slack <= 1 && (slack == 0 ==> tried / rules.ms == check / rules.ms)
    ensures var calls := [At(rules, {}, check, tried)]; Unspared(calls, OneKey()) && Straddling(calls, slack, rules.ms)
  {
  }

  /** The limit is used up at the last tick of the first generation. */
  lemma FirstLimit(rules: Rules, slack: nat) returns (calls: seq<Call>)
    requires slack <= 1 <= rules.limit <= rules.sharedLimit && rules.keys >= 1 && 2 <= rules.ms <= MAX_SAFE
    ensures Legal(calls, rules, rules.ms - 1) && Unspared(calls, OneKey()) && Straddling(calls, slack, rules.ms)
    ensures Stands(calls, rules, 0, Window(0, rules.limit), Window(0, rules.limit), Copies(rules.ms - 1, rules.limit))
  {
    var ms, limit := rules.ms, rules.limit;
    hide *;
    Divided(ms);
    var first := [At(rules, {}, 0, ms - 1)];
    OpensAtZero(rules);
    OneCall(rules, 0, ms - 1, slack);
    NowInRange(ms);
    calls := Burst(first, rules, 0, Window(0, 1), Window(0, 1), [ms - 1], {}, ms - 1, limit - 1);
    AppendedKeeps(first, calls, rules, {}, ms - 1, slack);
    assert [ms - 1] + Copies(ms - 1, limit - 1) == Copies(ms - 1, limit);
  }

  /** A credential's window admits twice its limit within two ticks, and one more if a call straddles:
      the limit at the last tick of a generation, one call that began there and consumes in the next,
      and the limit again in the new generation. */
  lemma StraddlingCallCounts(rules: Rules, slack: nat) returns (calls: seq<Call>)
    requires slack <= 1 <= rules.limit && rules.keys >= 1 && 2 <= rules.ms <= MAX_SAFE
    requires rules.sharedLimit >= rules.limit + slack
    ensures Legal(calls, rules, rules.ms) && Unspared(calls, OneKey()) && Straddling(calls, slack, rules.ms)
    ensures Admissions(calls, OneKey(), rules.ms)
         == Copies(rules.ms - 1, rules.limit) + Copies(rules.ms, rules.limit + slack)
  {
    hide *;
    var ms, limit := rules.ms, rules.limit;
    if slack == 0 {
      calls := FirstLimit(rules, 0);
      calls := SecondLimit(calls, rules, 0, ms - 1, limit, Window(0, limit), Copies(ms - 1, limit));
    } else {
      calls := WithStraddler(rules);
      calls := SecondLimit(calls, rules, 1, ms, limit + 1, Window(ms, 1), Copies(ms - 1, limit) + [ms]);
      assert Copies(ms - 1, limit) + [ms] + Copies(ms, limit) == Copies(ms - 1, limit) + Copies(ms, limit + 1);
    }
  }

  lemma WithStraddler(rules: Rules) returns (calls: seq<Call>)
    requires 1 <= rules.limit < rules.sharedLimit && rules.keys >= 1 && 2 <= rules.ms <= MAX_SAFE
    ensures Legal(calls, rules, rules.ms) && Unspared(calls, OneKey()) && Straddling(calls, 1, rules.ms)
    ensures Stands(calls, rules, 0, Window(0, rules.limit + 1), Window(rules.ms, 1),
                   Copies(rules.ms - 1, rules.limit) + [rules.ms])
  {
    hide Legal, Stands, OneKey, At;
    var ms, limit := rules.ms, rules.limit;
    var front := FirstLimit(rules, 1);
    Divided(ms);
    Grows(front, rules, ms - 1, 0, Window(0, limit), Window(0, limit), Copies(ms - 1, limit), {}, ms - 1, ms);
    StraddlerFits(front, rules);
    calls := front + [At(rules, {}, ms - 1, ms)];
  }

  /** The limit again, at the first tick of the second generation. */
  lemma SecondLimit(front: seq<Call>, rules: Rules, slack: nat, last: int, spent: nat, own: Window, log: seq<int>)
    returns (calls: seq<Call>)
    requires slack <= 1 <= rules.limit <= rules.sharedLimit && rules.keys >= 1 && 2 <= rules.ms <= MAX_SAFE
    requires Legal(front, rules, last) && last <= rules.ms && Stands(front, rules, 0, Window(0, spent), own, log)
    requires Unspared(front, OneKey()) && Straddling(front, slack, rules.ms)
    ensures Legal(calls, rules, rules.ms) && Unspared(calls, OneKey()) && Straddling(calls, slack, rules.ms)
    ensures Admissions(calls, OneKey(), rules.ms) == log + Copies(rules.ms, rules.limit)
  {
    hide Legal, Stands, OneKey, At, Unspared, Straddling;
    var ms, limit := rules.ms, rules.limit;
    Divided(ms);
    calls := Many(front, rules, last, 0, Window(0, spent), own, log, {}, ms, limit);
    AppendedKeeps(front, calls, rules, {}, ms, slack);
    StandsFor(calls, rules, 1, Window(ms, limit), Window(ms, limit), log + Copies(ms, limit));
  }

  lemma StraddlerFits(calls: seq<Call>, rules: Rules)
    requires rules.ms > 0 && Unspared(calls, OneKey())
    ensures var longer := calls + [At(rules, {}, rules.ms - 1, rules.ms)];
      Unspared(longer, OneKey()) && Straddling(longer, 1, rules.ms)
  {
  }

  /** A tenant's window admits three times its limit within three ticks, one less if no call straddles:
      a window made at the last tick of a generation and spared is used up just before it starts over,
      is used up again, and is forgotten at the next generation. */
  lemma SparedWindowAdmitsMore(rules: Rules, slack: nat) returns (calls: seq<Call>)
    requires slack <= 1 <= rules.limit && rules.keys >= 1 && 3 <= rules.ms && 2 * rules.ms <= MAX_SAFE
    requires rules.sharedLimit >= 3 * rules.limit - 1
    ensures Legal(calls, rules, 2 * rules.ms) && Straddling(calls, slack, rules.ms)
    ensures var ms, limit := rules.ms, rules.limit;
      Admissions(calls, OneKey(), ms)
      == [if slack == 1 then 2 * ms - 2 else ms - 1] + Copies(2 * ms - 2, limit - 1) + Copies(2 * ms - 1, limit)
         + Copies(2 * ms, limit)
  {
    hide Legal, Stands, OneKey, At, Straddling;
    var ms, limit := rules.ms, rules.limit;
    Divided(ms);
    var log, g, spent;
    calls, g, spent, log := FirstEpoch(rules, slack);
    var spared := {OneKey()};
    var more := Many(calls, rules, 2 * ms - 2, g, spent, Window(ms - 1, limit), log, spared, 2 * ms - 1, limit);
    AppendedKeeps(calls, more, rules, spared, 2 * ms - 1, slack);
    var shared := Current(spent, 2 * ms - 1, ms);
    shared := shared.(requests := shared.requests + limit);
    var last := Many(more, rules, 2 * ms - 1, 1, shared, Window(2 * ms - 1, limit), log + Copies(2 * ms - 1, limit), {},
                     2 * ms, limit);
    AppendedKeeps(more, last, rules, {}, 2 * ms, slack);
    calls := last;
    StandsFor(calls, rules, 2, shared.(requests := shared.requests + limit), Window(2 * ms, limit),
              log + Copies(2 * ms - 1, limit) + Copies(2 * ms, limit));
  }

  /** The first calls of that run: the window is used up, and has not started over. */
  lemma FirstEpoch(rules: Rules, slack: nat) returns (calls: seq<Call>, g: int, shared: Window, log: seq<int>)
    requires slack <= 1 <= rules.limit <= rules.sharedLimit && rules.keys >= 1
    requires 3 <= rules.ms && 2 * rules.ms <= MAX_SAFE
    ensures var ms, limit := rules.ms, rules.limit;
      && Legal(calls, rules, 2 * ms - 2) && Straddling(calls, slack, ms)
      && Stands(calls, rules, g, shared, Window(ms - 1, limit), log)
      && log == [if slack == 1 then 2 * ms - 2 else ms - 1] + Copies(2 * ms - 2, limit - 1)
      && shared == (if limit == 1 then Window(0, 1) else Window(2 * ms - 2, limit - 1))
  {
    hide Legal, Stands, OneKey, At, Straddling;
    var ms, limit := rules.ms, rules.limit;
    var tried := if slack == 1 then 2 * ms - 2 else ms - 1;
    Divided(ms);
    Opens(rules, ms - 1, tried);
    OneCall(rules, ms - 1, tried, slack);
    var first, spared := [At(rules, {}, ms - 1, tried)], {OneKey()};
    if limit == 1 {
      calls, g, shared, log := first, 0, Window(0, 1), [tried];
      assert [tried] + Copies(2 * ms - 2, 0) == [tried];
      LegalLater(calls, rules, tried, 2 * ms - 2);
    } else {
      calls := Many(first, rules, tried, 0, Window(0, 1), Window(ms - 1, 1), [tried], spared, 2 * ms - 2, limit - 1);
      AppendedKeeps(first, calls, rules, spared, 2 * ms - 2, slack);
      g, shared, log := 1, Window(2 * ms - 2, limit - 1), [tried] + Copies(2 * ms - 2, limit - 1);
    }
  }

  lemma LegalLater(calls: seq<Call>, rules: Rules, last: int, later: int)
    requires Legal(calls, rules, last) && last <= later
    ensures Legal(calls, rules, later)
  {
  }

  // ----- The bounds exactly -----

  /** Every run under these rules keeps a credential to twice its limit. */
  ghost predicate KeepsTwice(rules: Rules, slack: nat) {
    forall calls: seq<Call>, key: string ::
      InForce(calls, rules.ms) && Under(calls, rules) && Steady(calls) && Straddling(calls, slack, rules.ms)
      && Unspared(calls, key)
      ==> Spaced(Admissions(calls, key, rules.ms), 2 * rules.limit, rules.ms)
  }

  /** Twice the limit is kept if and only if calls do not straddle generations, or windows last a
      single tick, or the window all credentials share is no larger than a credential's own. */
  lemma CredentialExactly(rules: Rules, slack: nat)
    requires slack <= 1 <= rules.limit && rules.keys >= 1 && 1 <= rules.ms <= MAX_SAFE
    ensures KeepsTwice(rules, slack) <==> slack == 0 || rules.ms == 1 || rules.sharedLimit <= rules.limit
  {
    hide Straddling, Unspared, InForce, Under, Steady, Spaced, Admissions;
    if slack == 0 || rules.ms == 1 || rules.sharedLimit <= rules.limit {
      forall calls: seq<Call>, key: string |
        InForce(calls, rules.ms) && Under(calls, rules) && Steady(calls) && Straddling(calls, slack, rules.ms)
        && Unspared(calls, key)
        ensures Spaced(Admissions(calls, key, rules.ms), 2 * rules.limit, rules.ms)
      {
        TwiceKept(calls, key, rules, slack);
      }
    } else {
      var calls := StraddlingCallCounts(rules, 1);
      LegalRun(calls, rules, rules.ms);
      TooMany(rules);
    }
  }

  lemma TwiceKept(calls: seq<Call>, key: string, rules: Rules, slack: nat)
    requires InForce(calls, rules.ms) && Under(calls, rules) && Steady(calls) && Straddling(calls, slack, rules.ms)
    requires Unspared(calls, key) && rules.limit >= 1
    requires slack == 0 || rules.ms == 1 || rules.sharedLimit <= rules.limit
    ensures Spaced(Admissions(calls, key, rules.ms), 2 * rules.limit, rules.ms)
  {
    UnderLimits(calls, key, rules);
    hide Straddling, InForce, Under, Steady, Admissions;
    if slack == 0 {
      CredentialRate(calls, key, rules.limit, 0, rules.ms);
    } else if rules.ms == 1 {
      TickCredential(calls, key, rules.limit);
    } else {
      var _ := RunBehindShared(calls, key, rules.sharedLimit, rules.ms);
      SpacedMore(Admissions(calls, key, rules.ms), rules.sharedLimit + rules.sharedLimit, 2 * rules.limit, rules.ms);
    }
  }

  lemma UnderLimits(calls: seq<Call>, key: string, rules: Rules)
    requires Under(calls, rules)
    ensures Limited(calls, key, rules.limit) && SharesWindow(calls, rules.sharedLimit)
  {
  }

  lemma TickCredential(calls: seq<Call>, key: string, limit: nat)
    requires InForce(calls, 1) && Steady(calls) && Limited(calls, key, limit) && Unspared(calls, key) && limit >= 1
    ensures Spaced(Admissions(calls, key, 1), 2 * limit, 1)
  {
    VisitsWithin(calls, key, 1, 1);
    hide Steady, Admissions, Visits, Visited, Spaced;
    RunShows(calls, key, limit, 1);
    TickRate(Visits(calls, key, 1), limit);
  }

  lemma SpacedMore(log: seq<int>, apart: nat, more: nat, ms: nat)
    requires Spaced(log, apart, ms) && apart <= more
    ensures Spaced(log, more, ms)
  {
  }

  lemma LegalRun(calls: seq<Call>, rules: Rules, last: int)
    requires Legal(calls, rules, last)
    ensures InForce(calls, rules.ms) && Under(calls, rules) && Steady(calls)
  {
  }

  lemma TooMany(rules: Rules)
    requires rules.limit >= 1 && rules.ms >= 2
    ensures !Spaced(Copies(rules.ms - 1, rules.limit) + Copies(rules.ms, rules.limit + 1), 2 * rules.limit, rules.ms)
  {
    var log := Copies(rules.ms - 1, rules.limit) + Copies(rules.ms, rules.limit + 1);
    assert log[0] == rules.ms - 1 && log[0 + 2 * rules.limit] == rules.ms;
  }

  /** Every run under these rules, with any slots spared, keeps a tenant to `n` admissions. */
  ghost predicate KeepsTo(rules: Rules, n: nat) {
    forall calls: seq<Call>, key: string ::
      InForce(calls, rules.ms) && Under(calls, rules) && Steady(calls)
      ==> Spaced(Admissions(calls, key, rules.ms), n, rules.ms)
  }

  /** Three times its limit is exactly what a tenant is kept to, where the window all tenants share
      leaves room for that many. */
  lemma TenantExactly(rules: Rules, n: nat)
    requires rules.limit >= 1 && rules.keys >= 1 && 3 <= rules.ms && 2 * rules.ms <= MAX_SAFE
    requires rules.sharedLimit >= 3 * rules.limit - 1
    ensures KeepsTo(rules, n) <==> n >= 3 * rules.limit
  {
    hide InForce, Under, Steady, Spaced, Admissions;
    if n >= 3 * rules.limit {
      forall calls: seq<Call>, key: string | InForce(calls, rules.ms) && Under(calls, rules) && Steady(calls)
        ensures Spaced(Admissions(calls, key, rules.ms), n, rules.ms)
      {
        UnderLimits(calls, key, rules);
        TenantRate(calls, key, rules.limit, rules.ms);
        SpacedMore(Admissions(calls, key, rules.ms), 3 * rules.limit, n, rules.ms);
      }
    } else {
      var calls := SparedWindowAdmitsMore(rules, 1);
      LegalRun(calls, rules, 2 * rules.ms);
      ThreeTimes(rules, n);
    }
  }

  lemma ThreeTimes(rules: Rules, n: nat)
    requires rules.limit >= 1 && rules.ms >= 3 && n < 3 * rules.limit
    ensures var ms, limit := rules.ms, rules.limit;
      !Spaced([2 * ms - 2] + Copies(2 * ms - 2, limit - 1) + Copies(2 * ms - 1, limit) + Copies(2 * ms, limit), n, ms)
  {
    var ms, limit := rules.ms, rules.limit;
    var log := [2 * ms - 2] + Copies(2 * ms - 2, limit - 1) + Copies(2 * ms - 1, limit) + Copies(2 * ms, limit);
    assert log[0] == 2 * ms - 2 && log[0 + n] <= 2 * ms;
  }
}
