/**
 The fixed rate windows of the API's admission control (apps/api/admission.ts:19-89) and the
 tables that keep one window per key and forget keys when the clock enters a new generation.
 What is bounded is how many requests a window admits in any interval as long as the window,
 wherever that interval starts.
 */
module RateWindows {
  import opened Bytes

  datatype Window = Window(start: int, requests: nat)

  function Current(w: Window, now: int, ms: nat): Window {
    if now - w.start >= ms || now < w.start then Window(now, 0) else w
  }

  /** The window after one request at `now`, and whether it was admitted. */
  function Consume(w: Window, limit: nat, now: int, ms: nat): (Window, bool) {
    var c := Current(w, now, ms);
    if c.requests < limit then (c.(requests := c.requests + 1), true) else (c, false)
  }

  // ----- One window -----

  /** Any `apart` + 1 entries in a row span at least `ms`: no interval of that length holds more than `apart`. */
  predicate Spaced(log: seq<int>, apart: nat, ms: nat) {
    forall i, j :: 0 <= i && i + apart <= j < |log| ==> log[i] + ms <= log[j]
  }

  /** How a window and the admissions behind it fit together: the last `w.requests` of them are
      the window's own, and all but `before` of the others are at least `ms` older than its start. */
  predicate Behind(log: seq<int>, w: Window, before: nat, limit: nat, ms: nat) {
    && w.requests <= limit && w.requests <= |log|
    && var own := |log| - w.requests;
      && (forall i :: 0 <= i < own ==> log[i] <= w.start)
      && (forall i :: own <= i < |log| ==> w.start <= log[i])
      && (forall i :: 0 <= i < own - before ==> log[i] + ms <= w.start)
  }

  predicate UpTo(log: seq<int>, now: int) {
    forall i :: 0 <= i < |log| ==> log[i] <= now
  }

  function Logged(log: seq<int>, now: int, admitted: bool): seq<int> {
    if admitted then log + [now] else log
  }

  lemma CurrentKeeps(log: seq<int>, w: Window, before: nat, limit: nat, now: int, ms: nat)
    requires limit <= before && w.start <= now && UpTo(log, now) && Behind(log, w, before, limit, ms)
    ensures Behind(log, Current(w, now, ms), before, limit, ms)
  {
  }

  lemma AdmittedBehind(log: seq<int>, w: Window, before: nat, limit: nat, now: int, ms: nat)
    requires Behind(log, w, before, limit, ms) && w.requests < limit && w.start <= now
    ensures Behind(log + [now], w.(requests := w.requests + 1), before, limit, ms)
  {
    assert forall i :: 0 <= i < |log| ==> (log + [now])[i] == log[i];
  }

  lemma AdmittedSpaced(log: seq<int>, w: Window, before: nat, limit: nat, now: int, ms: nat)
    requires Behind(log, w, before, limit, ms) && w.requests < limit && w.start <= now
    requires Spaced(log, limit + before, ms)
    ensures Spaced(log + [now], limit + before, ms)
  {
    var longer := log + [now];
    assert forall i :: 0 <= i < |log| ==> longer[i] == log[i];
    forall i | 0 <= i && i + limit + before <= |log|
      ensures longer[i] + ms <= now
    {
      assert log[i] + ms <= w.start;
    }
  }

  lemma ConsumeKeeps(log: seq<int>, w: Window, before: nat, limit: nat, now: int, ms: nat)
    requires limit <= before && w.start <= now && UpTo(log, now)
    requires Behind(log, w, before, limit, ms) && Spaced(log, limit + before, ms)
    ensures var (w', admitted) := Consume(w, limit, now, ms);
      && Behind(Logged(log, now, admitted), w', before, limit, ms)
      && Spaced(Logged(log, now, admitted), limit + before, ms)
      && UpTo(Logged(log, now, admitted), now) && w'.start <= now
  {
    hide Behind, Spaced;
    CurrentKeeps(log, w, before, limit, now, ms);
    var c := Current(w, now, ms);
    if c.requests < limit {
      AdmittedBehind(log, c, before, limit, now, ms);
      AdmittedSpaced(log, c, before, limit, now, ms);
    }
  }

  predicate Ascending(times: seq<int>) {
    forall i, j :: 0 <= i < j < |times| ==> times[i] <= times[j]
  }

  /** A window that is never forgotten, as it stands after requests at `times`. */
  function Permanent(times: seq<int>, limit: nat, ms: nat): (Window, seq<int>) {
    if times == [] then (Window(0, 0), [])
    else
      var (w, log) := Permanent(times[..|times| - 1], limit, ms);
      var now := times[|times| - 1];
      var (w', admitted) := Consume(w, limit, now, ms);
      (w', Logged(log, now, admitted))
  }

  /** The public, pre-authentication and verified windows admit at most twice their limit in any
      interval as long as the window, while the clock does not run backwards. */
  lemma PermanentRate(times: seq<int>, limit: nat, ms: nat)
    requires Ascending(times) && (times != [] ==> 0 <= times[0])
    ensures Spaced(Permanent(times, limit, ms).1, 2 * limit, ms)
  {
    PermanentBehind(times, limit, ms);
  }

  lemma {:induction false} PermanentBehind(times: seq<int>, limit: nat, ms: nat)
    requires Ascending(times) && (times != [] ==> 0 <= times[0])
    ensures var (w, log) := Permanent(times, limit, ms);
      && Behind(log, w, limit, limit, ms) && Spaced(log, limit + limit, ms)
      && (times == [] ==> w.start == 0 && log == [])
      && (times != [] ==> w.start <= times[|times| - 1] && UpTo(log, times[|times| - 1]))
  {
    hide Behind, Spaced, Consume, UpTo;
    if times == [] {
      NothingBehind(0, limit, limit, ms);
    } else {
      var earlier, now := times[..|times| - 1], times[|times| - 1];
      PermanentBehind(earlier, limit, ms);
      var (w, log) := Permanent(earlier, limit, ms);
      Later(log, if earlier == [] then now else earlier[|earlier| - 1], now);
      ConsumeKeeps(log, w, limit, limit, now, ms);
    }
  }

  lemma NothingBehind(start: int, before: nat, limit: nat, ms: nat)
    ensures Behind([], Window(start, 0), before, limit, ms) && Spaced([], limit + before, ms)
  {
  }

  lemma Later(log: seq<int>, past: int, now: int)
    requires log == [] || UpTo(log, past)
    requires past <= now
    ensures UpTo(log, now)
  {
  }

  // ----- A window per key, forgotten by generations -----

  /** One call, as one key sees it: the reading that selects the generation, whether the key's
      window is spared if that generation is new, and for a call that reaches this key's window
      the readings that create it if it is missing and that consume from it. */
  datatype Visit = Visit(check: int, spared: bool, mine: bool, made: int, tried: int)

  /** A key's window, the generation it was created in, the last reading and the admissions so far. */
  datatype View = View(generation: int, window: Option<Window>, born: int, latest: int, log: seq<int>)

  function Fresh(): View {
    View(-1, None, -1, 0, [])
  }

  function Rolled(v: View, check: int, spared: bool, ms: nat): View
    requires ms > 0
  {
    if check / ms == v.generation then v.(latest := check)
    else View(check / ms, if spared then v.window else None, v.born, check, v.log)
  }

  function Made(v: View, made: int): (r: View)
    ensures r.window.Some?
  {
    if v.window.Some? then v else v.(window := Some(Window(made, 0)), born := v.generation)
  }

  function Tried(v: View, tried: int, limit: nat, ms: nat): View
    requires v.window.Some?
  {
    var (w, admitted) := Consume(v.window.value, limit, tried, ms);
    v.(window := Some(w), latest := tried, log := Logged(v.log, tried, admitted))
  }

  function Next(v: View, visit: Visit, limit: nat, ms: nat): View
    requires ms > 0
  {
    var r := Rolled(v, visit.check, visit.spared, ms);
    if visit.mine then Tried(Made(r, visit.made), visit.tried, limit, ms) else r
  }

  function Visited(visits: seq<Visit>, limit: nat, ms: nat): View
    requires ms > 0
  {
    if visits == [] then Fresh() else Next(Visited(visits[..|visits| - 1], limit, ms), visits[|visits| - 1], limit, ms)
  }

  /** The clock does not run backwards, within a call or from one call to the next. */
  predicate InOrder(latest: int, visit: Visit) {
    latest <= visit.check && (visit.mine ==> visit.check <= visit.made <= visit.tried)
  }

  predicate Orderly(visits: seq<Visit>, limit: nat, ms: nat)
    requires ms > 0
  {
    visits == []
    || (Orderly(visits[..|visits| - 1], limit, ms)
        && InOrder(Visited(visits[..|visits| - 1], limit, ms).latest, visits[|visits| - 1]))
  }

  /** With no slack, every call takes all its readings in one generation. With a slack of one, a
      call may begin in one generation and consume in a later one. */
  predicate Within(visit: Visit, slack: nat, ms: nat)
    requires ms > 0
  {
    slack <= 1 && (slack == 0 && visit.mine ==> visit.tried / ms == visit.check / ms)
  }

  function Start(generation: int, ms: nat): int {
    generation * ms
  }

  lemma Generations(reading: int, ms: nat)
    requires ms > 0
    ensures Start(reading / ms, ms) <= reading < Start(reading / ms + 1, ms) == Start(reading / ms, ms) + ms
  {
    assert reading == reading / ms * ms + reading % ms;
    assert (reading / ms + 1) * ms == reading / ms * ms + ms;
  }

  lemma {:induction false} StartsAscend(g: int, h: int, ms: nat)
    requires g <= h
    ensures Start(g, ms) <= Start(h, ms)
  {
    assert (h - g) * ms >= 0;
    assert h * ms == g * ms + (h - g) * ms;
  }

  /** A reading no earlier than a generation's start that lies in another generation is past its end. */
  lemma NextGeneration(g: int, reading: int, ms: nat)
    requires ms > 0 && Start(g, ms) <= reading && reading / ms != g
    ensures g < reading / ms && Start(g, ms) + ms <= Start(reading / ms, ms) <= reading
  {
    Generations(reading, ms);
    if reading / ms < g {
      StartsAscend(reading / ms + 1, g, ms);
    } else {
      StartsAscend(g + 1, reading / ms, ms);
    }
    assert Start(g + 1, ms) == Start(g, ms) + ms;
  }

  /** All but the last `last` entries are earlier than `bound`. */
  predicate AllBut(log: seq<int>, last: nat, bound: int) {
    forall i :: 0 <= i < |log| - last ==> log[i] < bound
  }

  /** The first `count` entries are each at least `ms` older than `now`. */
  predicate Aged(log: seq<int>, count: int, now: int, ms: nat) {
    forall i :: 0 <= i < count && i < |log| ==> log[i] + ms <= now
  }

  predicate AgedOrBefore(log: seq<int>, count: int, now: int, bound: int, ms: nat) {
    forall i :: 0 <= i < count && i < |log| ==> log[i] + ms <= now || log[i] < bound
  }

  predicate StartedBy(v: View, now: int) {
    v.window.Some? ==> v.window.value.start <= now
  }

  /** What holds of a key whatever becomes of its window. */
  predicate Dated(v: View, slack: nat, ms: nat) {
    && UpTo(v.log, v.latest) && Start(v.generation, ms) <= v.latest
    && AllBut(v.log, slack, Start(v.generation, ms) + ms)
  }

  /** A straddling call leaves at most one admission past its generation, and that one is among the
      last `limit` of what comes before a window, so it needs no allowance of its own. */
  predicate SparedInvariant(v: View, limit: nat, ms: nat) {
    && Dated(v, 1, ms) && Spaced(v.log, limit + 2 * limit, ms)
    && match v.window
       case None =>
         && AllBut(v.log, 1, Start(v.generation, ms))
         && Aged(v.log, |v.log| - 2 * limit, v.latest, ms)
       case Some(w) =>
         && v.born <= v.generation
         && Behind(v.log, w, 2 * limit, limit, ms)
         && AgedOrBefore(v.log, |v.log| - w.requests - limit, w.start, Start(v.born, ms), ms)
  }

  predicate ClearedInvariant(v: View, limit: nat, slack: nat, ms: nat) {
    && Dated(v, slack, ms) && Spaced(v.log, limit + (limit + slack), ms)
    && match v.window
       case None =>
         && AllBut(v.log, slack, Start(v.generation, ms))
         && Aged(v.log, |v.log| - limit - slack, v.latest, ms)
       case Some(w) =>
         && Start(v.generation, ms) <= w.start
         && Behind(v.log, w, limit + slack, limit, ms)
         && AgedOrBefore(v.log, |v.log| - limit - slack, v.latest, Start(v.generation, ms), ms)
         && (v.latest < Start(v.generation, ms) + ms ==> AllBut(v.log, w.requests + slack, Start(v.generation, ms)))
  }

  // Entering a generation.

  lemma DatedRolls(v: View, check: int, spared: bool, slack: nat, ms: nat)
    requires ms > 0 && Dated(v, slack, ms) && v.latest <= check
    ensures var r := Rolled(v, check, spared, ms);
      && Dated(r, slack, ms) && check < Start(r.generation, ms) + ms
      && (r.generation != v.generation ==> AllBut(r.log, slack, Start(r.generation, ms)))
  {
    hide Start;
    Generations(check, ms);
    if check / ms != v.generation {
      NextGeneration(v.generation, check, ms);
    }
  }

  lemma SparedRolls(v: View, check: int, spared: bool, limit: nat, ms: nat)
    requires ms > 0 && SparedInvariant(v, limit, ms) && StartedBy(v, v.latest) && v.latest <= check
    ensures SparedInvariant(Rolled(v, check, spared, ms), limit, ms) && StartedBy(Rolled(v, check, spared, ms), check)
  {
    hide Start, Spaced;
    DatedRolls(v, check, spared, 1, ms);
    if check / ms != v.generation {
      NextGeneration(v.generation, check, ms);
      if v.window.Some? {
        StartsAscend(v.born, v.generation, ms);
      }
    }
  }

  lemma ClearedRolls(v: View, check: int, limit: nat, slack: nat, ms: nat)
    requires ms > 0 && ClearedInvariant(v, limit, slack, ms) && StartedBy(v, v.latest) && v.latest <= check
    ensures ClearedInvariant(Rolled(v, check, false, ms), limit, slack, ms)
    ensures StartedBy(Rolled(v, check, false, ms), check)
  {
    hide Start, Spaced;
    DatedRolls(v, check, false, slack, ms);
    if check / ms != v.generation {
      NextGeneration(v.generation, check, ms);
    }
  }

  // Creating a window.

  lemma SparedMakes(v: View, made: int, limit: nat, ms: nat)
    requires limit >= 1 && SparedInvariant(v, limit, ms) && StartedBy(v, v.latest) && v.latest <= made
    ensures SparedInvariant(Made(v, made), limit, ms) && StartedBy(Made(v, made), made)
  {
    hide Start, Spaced;
  }

  lemma ClearedMakes(v: View, made: int, limit: nat, slack: nat, ms: nat)
    requires ClearedInvariant(v, limit, slack, ms) && StartedBy(v, v.latest) && v.latest <= made
    ensures ClearedInvariant(Made(v, made), limit, slack, ms) && StartedBy(Made(v, made), made)
  {
    hide Start, Spaced;
  }

  // Consuming from it.

  /** No admission so far is past the generation's end, and without slack neither is this one. */
  predicate InGeneration(v: View, tried: int, slack: nat, ms: nat) {
    && v.window.Some? && v.window.value.start <= tried && v.latest <= tried
    && v.latest < Start(v.generation, ms) + ms
    && slack <= 1 && (slack == 0 ==> tried < Start(v.generation, ms) + ms)
  }

  lemma TriedDated(v: View, tried: int, limit: nat, slack: nat, ms: nat)
    requires Dated(v, slack, ms) && InGeneration(v, tried, slack, ms)
    ensures Dated(Tried(v, tried, limit, ms), slack, ms)
  {
    hide Start, Consume;
    var log := Tried(v, tried, limit, ms).log;
    assert forall i :: 0 <= i < |v.log| ==> log[i] == v.log[i];
  }

  lemma SparedTriesAged(v: View, tried: int, limit: nat, ms: nat)
    requires SparedInvariant(v, limit, ms) && InGeneration(v, tried, 1, ms)
    ensures var t := Tried(v, tried, limit, ms);
      AgedOrBefore(t.log, |t.log| - t.window.value.requests - limit, t.window.value.start, Start(v.born, ms), ms)
  {
    hide Start, Spaced;
    var log := Tried(v, tried, limit, ms).log;
    assert forall i :: 0 <= i < |v.log| ==> log[i] == v.log[i];
  }

  lemma SparedTries(v: View, tried: int, limit: nat, ms: nat)
    requires SparedInvariant(v, limit, ms) && InGeneration(v, tried, 1, ms)
    ensures SparedInvariant(Tried(v, tried, limit, ms), limit, ms) && StartedBy(Tried(v, tried, limit, ms), tried)
  {
    ConsumeKeeps(v.log, v.window.value, 2 * limit, limit, tried, ms);
    TriedDated(v, tried, limit, 1, ms);
    SparedTriesAged(v, tried, limit, ms);
    hide Start, Spaced, Behind, Dated, AgedOrBefore, Consume;
  }

  lemma ClearedTriesAged(v: View, tried: int, limit: nat, slack: nat, ms: nat)
    requires ClearedInvariant(v, limit, slack, ms) && InGeneration(v, tried, slack, ms)
    ensures var t, g := Tried(v, tried, limit, ms), Start(v.generation, ms);
      && AgedOrBefore(t.log, |t.log| - limit - slack, tried, g, ms)
      && (tried < g + ms ==> AllBut(t.log, t.window.value.requests + slack, g))
      && g <= t.window.value.start
  {
    hide Start, Spaced;
    var log := Tried(v, tried, limit, ms).log;
    assert forall i :: 0 <= i < |v.log| ==> log[i] == v.log[i];
  }

  lemma ClearedTries(v: View, tried: int, limit: nat, slack: nat, ms: nat)
    requires ClearedInvariant(v, limit, slack, ms) && InGeneration(v, tried, slack, ms)
    ensures ClearedInvariant(Tried(v, tried, limit, ms), limit, slack, ms)
    ensures StartedBy(Tried(v, tried, limit, ms), tried)
  {
    ConsumeKeeps(v.log, v.window.value, limit + slack, limit, tried, ms);
    TriedDated(v, tried, limit, slack, ms);
    ClearedTriesAged(v, tried, limit, slack, ms);
    hide Start, Spaced, Behind, Dated, AgedOrBefore, AllBut, Consume;
  }

  // Whole calls, and runs of them.

  lemma ReachesInGeneration(v: View, visit: Visit, slack: nat, ms: nat)
    requires ms > 0 && InOrder(v.latest, visit) && Within(visit, slack, ms) && visit.mine && StartedBy(v, v.latest)
    ensures InGeneration(Made(Rolled(v, visit.check, visit.spared, ms), visit.made), visit.tried, slack, ms)
  {
    hide Start;
    Generations(visit.check, ms);
    Generations(visit.tried, ms);
  }

  lemma SparedNext(v: View, visit: Visit, limit: nat, ms: nat)
    requires ms > 0 && limit >= 1 && SparedInvariant(v, limit, ms) && StartedBy(v, v.latest) && InOrder(v.latest, visit)
    ensures var n := Next(v, visit, limit, ms); SparedInvariant(n, limit, ms) && StartedBy(n, n.latest)
  {
    hide SparedInvariant, Start, StartedBy, InGeneration;
    SparedRolls(v, visit.check, visit.spared, limit, ms);
    if visit.mine {
      var r := Rolled(v, visit.check, visit.spared, ms);
      ReachesInGeneration(v, visit, 1, ms);
      SparedMakes(r, visit.made, limit, ms);
      SparedTries(Made(r, visit.made), visit.tried, limit, ms);
    }
  }

  lemma ClearedNext(v: View, visit: Visit, limit: nat, slack: nat, ms: nat)
    requires ms > 0 && ClearedInvariant(v, limit, slack, ms) && StartedBy(v, v.latest)
    requires InOrder(v.latest, visit) && Within(visit, slack, ms) && !visit.spared
    ensures var n := Next(v, visit, limit, ms); ClearedInvariant(n, limit, slack, ms) && StartedBy(n, n.latest)
  {
    hide ClearedInvariant, Start, StartedBy, InGeneration;
    ClearedRolls(v, visit.check, limit, slack, ms);
    if visit.mine {
      var r := Rolled(v, visit.check, false, ms);
      ReachesInGeneration(v, visit, slack, ms);
      ClearedMakes(r, visit.made, limit, slack, ms);
      ClearedTries(Made(r, visit.made), visit.tried, limit, slack, ms);
    }
  }

  lemma FreshInvariants(limit: nat, slack: nat, ms: nat)
    ensures var v := Fresh();
      SparedInvariant(v, limit, ms) && ClearedInvariant(v, limit, slack, ms) && StartedBy(v, v.latest)
  {
  }

  predicate AllWithin(visits: seq<Visit>, slack: nat, ms: nat)
    requires ms > 0
  {
    forall i :: 0 <= i < |visits| ==> Within(visits[i], slack, ms)
  }

  lemma {:induction false} SparedVisited(visits: seq<Visit>, limit: nat, ms: nat)
    requires ms > 0 && limit >= 1 && Orderly(visits, limit, ms)
    ensures var v := Visited(visits, limit, ms); SparedInvariant(v, limit, ms) && StartedBy(v, v.latest)
  {
    hide SparedInvariant, StartedBy, Next, InOrder;
    if visits == [] {
      FreshInvariants(limit, 1, ms);
    } else {
      SparedVisited(visits[..|visits| - 1], limit, ms);
      SparedNext(Visited(visits[..|visits| - 1], limit, ms), visits[|visits| - 1], limit, ms);
    }
  }

  lemma {:induction false} ClearedVisited(visits: seq<Visit>, limit: nat, slack: nat, ms: nat)
    requires ms > 0 && Orderly(visits, limit, ms) && AllWithin(visits, slack, ms)
    requires forall i :: 0 <= i < |visits| ==> !visits[i].spared
    ensures var v := Visited(visits, limit, ms); ClearedInvariant(v, limit, slack, ms) && StartedBy(v, v.latest)
  {
    hide ClearedInvariant, StartedBy, Next, InOrder, Within;
    if visits == [] {
      FreshInvariants(limit, slack, ms);
    } else {
      ClearedVisited(visits[..|visits| - 1], limit, slack, ms);
      ClearedNext(Visited(visits[..|visits| - 1], limit, ms), visits[|visits| - 1], limit, slack, ms);
    }
  }

  /** A tenant's own window, which survives a new generation while the tenant has requests in
      flight, admits at most three times its limit in any interval as long as the window, also when
      calls straddle the edge of a generation. */
  lemma SparedRate(visits: seq<Visit>, limit: nat, ms: nat)
    requires ms > 0 && limit >= 1 && Orderly(visits, limit, ms)
    ensures Spaced(Visited(visits, limit, ms).log, 3 * limit, ms)
  {
    SparedVisited(visits, limit, ms);
    hide Visited, Spaced;
    assert limit + 2 * limit == 3 * limit;
  }

  /** A credential's own window, which every new generation forgets, admits at most twice its limit,
      and one more only if some call straddles the edge of a generation. */
  lemma ClearedRate(visits: seq<Visit>, limit: nat, slack: nat, ms: nat)
    requires ms > 0 && Orderly(visits, limit, ms) && AllWithin(visits, slack, ms)
    requires forall i :: 0 <= i < |visits| ==> !visits[i].spared
    ensures Spaced(Visited(visits, limit, ms).log, 2 * limit + slack, ms)
  {
    ClearedVisited(visits, limit, slack, ms);
    hide Visited, Spaced;
    assert limit + (limit + slack) == 2 * limit + slack;
  }

  // Windows of a single tick.

  /** With windows of one tick, all that was admitted at the last reading came from the window now
      in use, but for one call that straddled into it. */
  predicate TickInvariant(v: View, limit: nat) {
    && UpTo(v.log, v.latest) && v.generation <= v.latest && Spaced(v.log, 2 * limit, 1)
    && if v.generation < v.latest || v.window.None? then AllBut(v.log, 1, v.latest)
       else
         var w := v.window.value;
         w.start == v.latest && w.requests <= limit && AllBut(v.log, w.requests + 1, v.latest)
  }

  lemma TickRolls(v: View, check: int, limit: nat)
    requires TickInvariant(v, limit) && v.latest <= check
    ensures TickInvariant(Rolled(v, check, false, 1), limit) && Rolled(v, check, false, 1).generation == check
  {
    hide Spaced;
  }

  lemma TickTries(v: View, made: int, tried: int, limit: nat)
    requires limit >= 1 && TickInvariant(v, limit) && v.generation == v.latest <= made <= tried
    ensures TickInvariant(Tried(Made(v, made), tried, limit, 1), limit)
  {
    var log := Tried(Made(v, made), tried, limit, 1).log;
    assert forall i :: 0 <= i < |v.log| ==> log[i] == v.log[i];
  }

  lemma {:induction false} TickVisited(visits: seq<Visit>, limit: nat)
    requires limit >= 1 && Orderly(visits, limit, 1) && forall i :: 0 <= i < |visits| ==> !visits[i].spared
    ensures TickInvariant(Visited(visits, limit, 1), limit)
  {
    hide TickInvariant, Rolled, Tried;
    if visits == [] {
      NoTick(limit);
    } else {
      var front, visit := visits[..|visits| - 1], visits[|visits| - 1];
      TickVisited(front, limit);
      var v := Visited(front, limit, 1);
      TickRolls(v, visit.check, limit);
      if visit.mine {
        RolledLatest(v, visit.check);
        TickTries(Rolled(v, visit.check, false, 1), visit.made, visit.tried, limit);
      }
    }
  }

  lemma NoTick(limit: nat)
    ensures TickInvariant(Fresh(), limit)
  {
  }

  lemma RolledLatest(v: View, check: int)
    ensures Rolled(v, check, false, 1).latest == check
  {
  }

  /** Windows of one tick admit at most twice their limit in a tick, straddling calls included. */
  lemma TickRate(visits: seq<Visit>, limit: nat)
    requires limit >= 1 && Orderly(visits, limit, 1) && forall i :: 0 <= i < |visits| ==> !visits[i].spared
    ensures Spaced(Visited(visits, limit, 1).log, 2 * limit, 1)
  {
    hide Visited, Spaced;
    TickVisited(visits, limit);
  }

  lemma OneMore(visits: seq<Visit>, visit: Visit, limit: nat, ms: nat)
    requires ms > 0
    ensures Visited(visits + [visit], limit, ms) == Next(Visited(visits, limit, ms), visit, limit, ms)
    ensures Orderly(visits + [visit], limit, ms) <==>
            Orderly(visits, limit, ms) && InOrder(Visited(visits, limit, ms).latest, visit)
  {
    hide Next, InOrder;
    assert (visits + [visit])[..|visits|] == visits;
  }

  lemma NoVisits(limit: nat, ms: nat)
    requires ms > 0
    ensures Visited([], limit, ms) == Fresh() && Orderly([], limit, ms)
  {
  }
}
