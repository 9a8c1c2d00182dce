/**
 Operator telemetry (apps/api/operator-activity.ts): counters per minute, method, route group and
 source, trimmed to the last day, and the same counters since the process started. What is proved
 is that the counters are the ones a plain log of the recorded events would give.
 */
module Activity {
  import opened Bytes

  const RETENTION: int := 24 * 60 * 60 * 1000
  const MINUTE: int := 60_000
  const MAX_BUCKETS: nat := 24 * 60 * 16
  const LONGEST: int := 3_600_000

  datatype Status = Unknown | C1 | C2 | C3 | C4 | C5

  datatype Latency = Under100 | Under500 | Under1000 | Under5000 | Slow

  /** Counters; `statuses` and `latencies` give each column its count. */
  datatype Counts = Counts(requests: nat, errors: nat, statuses: multiset<Status>, count: nat, totalMs: nat,
                           maxMs: nat, latencies: multiset<Latency>)

  /** What a bucket counts. */
  datatype Key = Key(minute: int, method_: string, group: string, source: string)

  datatype Bucket = Bucket(key: Key, counts: Counts)

  /** A request as recorded: its method, route group and source already classified. */
  datatype Input = Input(method_: string, group: string, source: string, status: Option<int>, duration: Option<real>)

  /** A recorded event: when, what, and the normalised status and duration. */
  datatype Event = Event(key: Key, status: int, duration: nat)

  // ----- One event -----

  function StatusValue(status: Option<int>): int {
    if status.Some? && 100 <= status.value <= 599 then status.value else 0
  }

  function StatusGroup(status: int): Status {
    if status < 100 then Unknown
    else if status < 200 then C1
    else if status < 300 then C2
    else if status < 400 then C3
    else if status < 500 then C4
    else C5
  }

  function LatencyBucket(ms: int): Latency {
    if ms < 100 then Under100 else if ms < 500 then Under500 else if ms < 1000 then Under1000
    else if ms < 5000 then Under5000 else Slow
  }

  /** A duration that is finite and not negative, rounded and capped; anything else counts as zero. */
  function Duration(ms: Option<real>): nat {
    if ms.None? || ms.value < 0.0 then 0
    else
      var rounded := (ms.value + 0.5).Floor;
      if rounded < LONGEST then rounded else LONGEST
  }

  function EventOf(i: Input, now: int): Event {
    Event(Key(now - now % MINUTE, i.method_, i.group, i.source), StatusValue(i.status), Duration(i.duration))
  }

  // ----- Counting -----

  function Max(a: nat, b: nat): nat {
    if a < b then b else a
  }

  function Empty(): Counts {
    Counts(0, 0, multiset{}, 0, 0, 0, multiset{})
  }

  /** `addCount` */
  function Add(c: Counts, status: int, duration: nat): Counts {
    Counts(c.requests + 1, if status >= 400 || status == 0 then c.errors + 1 else c.errors,
           c.statuses + multiset{StatusGroup(status)}, c.count + 1, c.totalMs + duration, Max(c.maxMs, duration),
           c.latencies + multiset{LatencyBucket(duration)})
  }

  /** Adding one row of counters to another, as the summaries do. */
  function Merge(a: Counts, b: Counts): Counts {
    Counts(a.requests + b.requests, a.errors + b.errors, a.statuses + b.statuses, a.count + b.count,
           a.totalMs + b.totalMs, Max(a.maxMs, b.maxMs), a.latencies + b.latencies)
  }

  /** Every way of counting requests gives the same number, and the errors are the failing statuses. */
  predicate Balanced(c: Counts) {
    && c.requests == |c.statuses| == c.count == |c.latencies|
    && c.errors == c.statuses[C4] + c.statuses[C5] + c.statuses[Unknown]
    && c.maxMs <= c.totalMs
  }

  lemma AddBalanced(c: Counts, status: int, duration: nat)
    requires Balanced(c) && (status == 0 || 100 <= status <= 599)
    ensures Balanced(Add(c, status, duration))
  {
  }

  lemma MergeBalanced(a: Counts, b: Counts)
    requires Balanced(a) && Balanced(b)
    ensures Balanced(Merge(a, b))
  {
  }

  /** The counters of a single event. */
  function One(e: Event): Counts {
    Add(Empty(), e.status, e.duration)
  }

  lemma AddIsMerge(c: Counts, e: Event)
    ensures Add(c, e.status, e.duration) == Merge(c, One(e))
  {
  }

  lemma MergeSwaps(a: Counts, b: Counts)
    ensures Merge(a, b) == Merge(b, a)
  {
  }

  lemma MergeAssociates(a: Counts, b: Counts, c: Counts)
    ensures Merge(Merge(a, b), c) == Merge(a, Merge(b, c))
  {
    assert (a.statuses + b.statuses) + c.statuses == a.statuses + (b.statuses + c.statuses);
    assert (a.latencies + b.latencies) + c.latencies == a.latencies + (b.latencies + c.latencies);
  }

  lemma MergeEmpty(a: Counts)
    ensures Merge(a, Empty()) == a && Merge(Empty(), a) == a
  {
  }

  /** What is added to one part may as well be added to the whole. */
  lemma MergeLast(a: Counts, b: Counts, c: Counts)
    ensures Merge(Merge(a, c), b) == Merge(Merge(a, b), c) == Merge(a, Merge(b, c))
  {
    hide Merge;
    MergeAssociates(a, c, b);
    MergeAssociates(a, b, c);
    MergeSwaps(b, c);
  }

  /** The counters of a plain log, of the events that `p` selects. */
  function Tally(events: seq<Event>, p: Key -> bool): Counts {
    if events == [] then Empty()
    else
      var earlier, e := Tally(events[..|events| - 1], p), events[|events| - 1];
      if p(e.key) then Add(earlier, e.status, e.duration) else earlier
  }

  /** The counters of all the buckets that `p` selects, taken together. */
  function Sum(buckets: seq<Bucket>, p: Key -> bool): Counts {
    if buckets == [] then Empty()
    else
      var earlier, b := Sum(buckets[..|buckets| - 1], p), buckets[|buckets| - 1];
      if p(b.key) then Merge(earlier, b.counts) else earlier
  }

  // ----- The buckets -----

  function Find(buckets: seq<Bucket>, key: Key, i: nat): (k: nat)
    requires i <= |buckets|
    ensures i <= k <= |buckets| && (k < |buckets| ==> buckets[k].key == key)
    ensures forall j :: i <= j < k ==> buckets[j].key != key
    decreases |buckets| - i
  {
    if i == |buckets| || buckets[i].key == key then i else Find(buckets, key, i + 1)
  }

  /** One event counted in the first bucket of its key, or in a new one at the end. */
  function Recorded(buckets: seq<Bucket>, e: Event): seq<Bucket> {
    var k := Find(buckets, e.key, 0);
    if k == |buckets| then buckets + [Bucket(e.key, Add(Empty(), e.status, e.duration))]
    else buckets[k := Bucket(e.key, Add(buckets[k].counts, e.status, e.duration))]
  }

  /** The event as the counters since the start of the process file it. */
  function SinceStart(e: Event, startedAt: int): Event {
    e.(key := e.key.(minute := startedAt))
  }

  function Since(buckets: seq<Bucket>, cutoff: int): seq<Bucket> {
    if buckets == [] then []
    else
      var b := buckets[|buckets| - 1];
      Since(buckets[..|buckets| - 1], cutoff) + if b.key.minute >= cutoff then [b] else []
  }

  function Trimmed(buckets: seq<Bucket>, now: int): seq<Bucket> {
    var kept := Since(buckets, now - RETENTION);
    if |kept| <= MAX_BUCKETS then kept else kept[|kept| - MAX_BUCKETS..]
  }

  class OperatorActivity {
    var traffic: seq<Bucket>
    var processTraffic: seq<Bucket>
    const startedAt: int

    constructor (now: int)
      ensures traffic == processTraffic == [] && startedAt == now
    {
      traffic, processTraffic, startedAt := [], [], now;
    }

    /** Records one request: `now` is the reading that dates it, `later` the one that trims. */
    method Record(i: Input, now: int, later: int)
      modifies this
      ensures traffic == Trimmed(Recorded(old(traffic), EventOf(i, now)), later)
      ensures processTraffic == Recorded(old(processTraffic), SinceStart(EventOf(i, now), startedAt))
      ensures forall log: seq<Event> ::
                Apply(State(old(traffic), old(processTraffic), log), Recording(i, now, later), startedAt)
                == State(traffic, processTraffic, log + [EventOf(i, now)])
    {
      hide Add, EventOf;
      var e := EventOf(i, now);
      var k := Find(traffic, e.key, 0);
      if k == |traffic| {
        traffic := traffic + [Bucket(e.key, Empty())];
      }
      traffic := traffic[k := Bucket(e.key, Add(traffic[k].counts, e.status, e.duration))];
      assert traffic == Recorded(old(traffic), e);
      var p := SinceStart(e, startedAt);
      var j := Find(processTraffic, p.key, 0);
      if j == |processTraffic| {
        processTraffic := processTraffic + [Bucket(p.key, Empty())];
      }
      processTraffic := processTraffic[j := Bucket(p.key, Add(processTraffic[j].counts, p.status, p.duration))];
      Trim(later);
    }

    method Trim(now: int)
      modifies this`traffic
      ensures traffic == Trimmed(old(traffic), now)
      ensures forall log: seq<Event> ::
                Apply(State(old(traffic), processTraffic, log), Trimming(now), startedAt)
                == State(traffic, processTraffic, log)
    {
      var kept: seq<Bucket> := [];
      var k := 0;
      while k < |traffic|
        invariant k <= |traffic| && kept == Since(traffic[..k], now - RETENTION)
      {
        assert traffic[..k + 1][..k] == traffic[..k];
        if traffic[k].key.minute >= now - RETENTION {
          kept := kept + [traffic[k]];
        }
        k := k + 1;
      }
      assert traffic[..k] == traffic;
      traffic := if |kept| <= MAX_BUCKETS then kept else kept[|kept| - MAX_BUCKETS..];
    }
  }

  // ----- Buckets and log agree -----

  lemma SumAppend(buckets: seq<Bucket>, b: Bucket, p: Key -> bool)
    ensures Sum(buckets + [b], p) == if p(b.key) then Merge(Sum(buckets, p), b.counts) else Sum(buckets, p)
  {
    assert (buckets + [b])[..|buckets|] == buckets;
  }

  lemma {:induction false} SumUpdate(buckets: seq<Bucket>, k: nat, e: Event, p: Key -> bool)
    requires k < |buckets| && buckets[k].key == e.key
    ensures Sum(buckets[k := Bucket(e.key, Merge(buckets[k].counts, One(e)))], p)
         == if p(e.key) then Merge(Sum(buckets, p), One(e)) else Sum(buckets, p)
    decreases |buckets|
  {
    hide Merge, One;
    var n, b := |buckets| - 1, Bucket(e.key, Merge(buckets[k].counts, One(e)));
    var front, changed := buckets[..n], buckets[k := b];
    if k == n {
      assert changed[..n] == front;
      MergeLast(Sum(front, p), buckets[n].counts, One(e));
    } else {
      assert changed[..n] == front[k := b] && changed[n] == buckets[n];
      SumUpdate(front, k, e, p);
      MergeLast(Sum(front, p), buckets[n].counts, One(e));
    }
  }

  lemma RecordedSum(buckets: seq<Bucket>, e: Event, p: Key -> bool)
    ensures Sum(Recorded(buckets, e), p) == if p(e.key) then Merge(Sum(buckets, p), One(e)) else Sum(buckets, p)
  {
    hide Merge, Add;
    var k := Find(buckets, e.key, 0);
    if k == |buckets| {
      SumAppend(buckets, Bucket(e.key, One(e)), p);
    } else {
      AddIsMerge(buckets[k].counts, e);
      SumUpdate(buckets, k, e, p);
    }
  }

  /** `p` selects only minutes from `cutoff` on. */
  ghost predicate From(p: Key -> bool, cutoff: int) {
    forall k: Key :: p(k) ==> k.minute >= cutoff
  }

  lemma {:induction false} SinceSum(buckets: seq<Bucket>, cutoff: int, p: Key -> bool)
    requires From(p, cutoff)
    ensures Sum(Since(buckets, cutoff), p) == Sum(buckets, p)
  {
    hide Merge;
    if buckets != [] {
      var front, b := buckets[..|buckets| - 1], buckets[|buckets| - 1];
      SinceSum(front, cutoff, p);
      SumAppend(Since(front, cutoff), b, p);
      assert Since(front, cutoff) + [] == Since(front, cutoff);
    }
  }

  // ----- What the counters count -----

  ghost function Count(events: seq<Event>, f: Event -> bool): nat {
    if events == [] then 0
    else Count(events[..|events| - 1], f) + if f(events[|events| - 1]) then 1 else 0
  }

  ghost function Total(events: seq<Event>, p: Key -> bool): nat {
    if events == [] then 0
    else
      var e := events[|events| - 1];
      Total(events[..|events| - 1], p) + if p(e.key) then e.duration else 0
  }

  ghost predicate IsStatus(e: Event) {
    e.status == 0 || 100 <= e.status <= 599
  }

  /** How many selected events have a status in this range. */
  ghost function Statuses(events: seq<Event>, p: Key -> bool, low: int, high: int): nat {
    Count(events, (e: Event) => p(e.key) && low <= e.status <= high)
  }

  /** How many selected events took from `low` to under `high` milliseconds. */
  ghost function Durations(events: seq<Event>, p: Key -> bool, low: nat, high: nat): nat {
    Count(events, (e: Event) => p(e.key) && low <= e.duration < high)
  }

  /** Every column of the counters is a number of selected events, or the sum or greatest of their
      durations. */
  lemma TallyCounts(events: seq<Event>, p: Key -> bool)
    requires forall i :: 0 <= i < |events| ==> IsStatus(events[i]) && events[i].duration <= 3_600_000
    ensures var c := Tally(events, p);
      && c.requests == c.count == Count(events, (e: Event) => p(e.key))
      && c.errors == Statuses(events, p, 400, 499) + Statuses(events, p, 500, 599) + Statuses(events, p, 0, 0)
      && c.totalMs == Total(events, p)
      && (forall i :: 0 <= i < |events| && p(events[i].key) ==> events[i].duration <= c.maxMs)
      && (c.maxMs == 0 || exists i :: 0 <= i < |events| && p(events[i].key) && events[i].duration == c.maxMs)
      && c.statuses[Unknown] == Statuses(events, p, 0, 0)
      && c.statuses[C1] == Statuses(events, p, 100, 199) && c.statuses[C2] == Statuses(events, p, 200, 299)
      && c.statuses[C3] == Statuses(events, p, 300, 399) && c.statuses[C4] == Statuses(events, p, 400, 499)
      && c.statuses[C5] == Statuses(events, p, 500, 599)
      && c.latencies[Under100] == Durations(events, p, 0, 100)
      && c.latencies[Under500] == Durations(events, p, 100, 500)
      && c.latencies[Under1000] == Durations(events, p, 500, 1_000)
      && c.latencies[Under5000] == Durations(events, p, 1_000, 5_000)
      && c.latencies[Slow] == Durations(events, p, 5_000, 3_600_001)
  {
    hide Tally, Count, Total, Statuses, Durations;
    TallyTotals(events, p);
    TallyGreatest(events, p);
    TallyErrors(events, p);
    TallyStatuses(events, p, Unknown, 0, 0);
    TallyStatuses(events, p, C1, 100, 199);
    TallyStatuses(events, p, C2, 200, 299);
    TallyStatuses(events, p, C3, 300, 399);
    TallyStatuses(events, p, C4, 400, 499);
    TallyStatuses(events, p, C5, 500, 599);
    TallyDurations(events, p, Under100, 0, 100);
    TallyDurations(events, p, Under500, 100, 500);
    TallyDurations(events, p, Under1000, 500, 1_000);
    TallyDurations(events, p, Under5000, 1_000, 5_000);
    TallyDurations(events, p, Slow, 5_000, 3_600_001);
  }

  lemma {:induction false} TallyTotals(events: seq<Event>, p: Key -> bool)
    ensures var c := Tally(events, p);
      c.requests == c.count == Count(events, (e: Event) => p(e.key)) && c.totalMs == Total(events, p)
  {
    hide StatusGroup, LatencyBucket, Max;
    if events != [] {
      TallyTotals(events[..|events| - 1], p);
    }
  }

  lemma {:induction false} TallyGreatest(events: seq<Event>, p: Key -> bool)
    ensures var c := Tally(events, p);
      && (forall i :: 0 <= i < |events| && p(events[i].key) ==> events[i].duration <= c.maxMs)
      && (c.maxMs == 0 || exists i :: 0 <= i < |events| && p(events[i].key) && events[i].duration == c.maxMs)
  {
    hide StatusGroup, LatencyBucket;
    if events != [] {
      var front := events[..|events| - 1];
      TallyGreatest(front, p);
      if i :| 0 <= i < |front| && p(front[i].key) && front[i].duration == Tally(front, p).maxMs {
        assert events[i] == front[i];
      }
    }
  }

  lemma {:induction false} TallyErrors(events: seq<Event>, p: Key -> bool)
    requires forall i :: 0 <= i < |events| ==> IsStatus(events[i])
    ensures Tally(events, p).errors
         == Statuses(events, p, 400, 499) + Statuses(events, p, 500, 599) + Statuses(events, p, 0, 0)
  {
    hide StatusGroup, LatencyBucket, Max;
    if events != [] {
      TallyErrors(events[..|events| - 1], p);
    }
  }

  lemma {:induction false} TallyStatuses(events: seq<Event>, p: Key -> bool, group: Status, low: int, high: int)
    requires forall i :: 0 <= i < |events| ==> IsStatus(events[i])
    requires match group
             case Unknown => low == high == 0
             case C1 => low == 100 && high == 199
             case C2 => low == 200 && high == 299
             case C3 => low == 300 && high == 399
             case C4 => low == 400 && high == 499
             case C5 => low == 500 && high == 599
    ensures Tally(events, p).statuses[group] == Statuses(events, p, low, high)
  {
    hide LatencyBucket, Max;
    if events != [] {
      var e := events[|events| - 1];
      TallyStatuses(events[..|events| - 1], p, group, low, high);
      assert StatusGroup(e.status) == group <==> low <= e.status <= high;
    }
  }

  lemma {:induction false} TallyDurations(events: seq<Event>, p: Key -> bool, group: Latency, low: nat, high: nat)
    requires forall i :: 0 <= i < |events| ==> events[i].duration <= 3_600_000
    requires match group
             case Under100 => low == 0 && high == 100
             case Under500 => low == 100 && high == 500
             case Under1000 => low == 500 && high == 1_000
             case Under5000 => low == 1_000 && high == 5_000
             case Slow => low == 5_000 && high == 3_600_001
    ensures Tally(events, p).latencies[group] == Durations(events, p, low, high)
  {
    hide StatusGroup, Max;
    if events != [] {
      var e := events[|events| - 1];
      TallyDurations(events[..|events| - 1], p, group, low, high);
      assert LatencyBucket(e.duration) == group <==> low <= e.duration < high;
    }
  }

  /** What is recorded of a request: the minute that its reading falls into, its status if it is one,
      and its duration to the nearest millisecond, at most an hour. */
  lemma EventIsNormal(i: Input, now: int)
    ensures var e := EventOf(i, now);
      && e.key == Key(e.key.minute, i.method_, i.group, i.source)
      && e.key.minute % 60_000 == 0 && e.key.minute <= now < e.key.minute + 60_000
      && IsStatus(e) && e.duration <= 3_600_000
      && (i.status.Some? && 100 <= i.status.value <= 599 ==> e.status == i.status.value)
      && (i.status.None? || i.status.value < 100 || 599 < i.status.value ==> e.status == 0)
      && (i.duration.None? || i.duration.value < 0.0 ==> e.duration == 0)
      && (i.duration.Some? && 0.0 <= i.duration.value < 3_599_999.5 ==>
            e.duration as real - 0.5 <= i.duration.value < e.duration as real + 0.5)
      && (i.duration.Some? && 3_599_999.5 <= i.duration.value ==> e.duration == 3_600_000)
  {
  }

  /** Only buckets of the last day are kept, at most 23040 of them and then the last ones, and no
      bucket of the last day is dropped while there is room. */
  lemma TrimKeeps(buckets: seq<Bucket>, now: int)
    ensures var kept := Trimmed(buckets, now);
      && |kept| <= 23_040
      && (forall b :: b in kept ==> b in buckets && b.key.minute >= now - 86_400_000)
      && (|kept| < 23_040 ==> forall b :: b in buckets && b.key.minute >= now - 86_400_000 ==> b in kept)
      && exists dropped :: Since(buckets, now - 86_400_000) == dropped + kept && (dropped == [] || |kept| == 23_040)
  {
    SinceKeeps(buckets, now - 86_400_000);
    hide Since;
    var kept, recent := Trimmed(buckets, now), Since(buckets, now - 86_400_000);
    assert recent == recent[..|recent| - |kept|] + kept;
  }

  lemma {:induction false} SinceKeeps(buckets: seq<Bucket>, cutoff: int)
    ensures forall b :: b in Since(buckets, cutoff) <==> b in buckets && b.key.minute >= cutoff
    ensures |Since(buckets, cutoff)| <= |buckets|
    ensures |Since(buckets, cutoff)| == |buckets| ==> Since(buckets, cutoff) == buckets
  {
    if buckets != [] {
      SinceKeeps(buckets[..|buckets| - 1], cutoff);
      assert buckets == buckets[..|buckets| - 1] + [buckets[|buckets| - 1]];
    }
  }

  // ----- Runs -----

  datatype Step = Recording(input: Input, now: int, later: int) | Trimming(later: int)

  datatype State = State(traffic: seq<Bucket>, processTraffic: seq<Bucket>, events: seq<Event>)

  function Apply(s: State, step: Step, startedAt: int): State {
    match step
    case Recording(i, now, later) =>
      var e := EventOf(i, now);
      State(Trimmed(Recorded(s.traffic, e), later), Recorded(s.processTraffic, SinceStart(e, startedAt)),
            s.events + [e])
    case Trimming(later) => s.(traffic := Trimmed(s.traffic, later))
  }

  /** From a fresh start. */
  function Run(steps: seq<Step>, startedAt: int): State {
    if steps == [] then State([], [], [])
    else Apply(Run(steps[..|steps| - 1], startedAt), steps[|steps| - 1], startedAt)
  }

  /** No trim had to drop a bucket for want of room. */
  predicate Roomy(steps: seq<Step>, startedAt: int) {
    steps == []
    || (Roomy(steps[..|steps| - 1], startedAt)
        && var s, step := Run(steps[..|steps| - 1], startedAt), steps[|steps| - 1];
           var grown := if step.Recording? then Recorded(s.traffic, EventOf(step.input, step.now)) else s.traffic;
           |Since(grown, step.later - RETENTION)| <= MAX_BUCKETS)
  }

  predicate TrimmedBy(steps: seq<Step>, cutoff: int) {
    forall k :: 0 <= k < |steps| ==> steps[k].later - RETENTION <= cutoff
  }

  /** Whatever selection is counted, by minute, method, route group or source, the buckets give what
      the log of all recorded events gives, as long as it selects nothing that was trimmed. */
  lemma {:induction false} BucketsAgreeWithLog(steps: seq<Step>, startedAt: int, cutoff: int, p: Key -> bool)
    requires Roomy(steps, startedAt) && TrimmedBy(steps, cutoff) && From(p, cutoff)
    ensures Sum(Run(steps, startedAt).traffic, p) == Tally(Run(steps, startedAt).events, p)
    decreases |steps|
  {
    hide Merge, Recorded, Add, EventOf, Since;
    if steps == [] {
      assert Sum([], p) == Tally([], p);
    } else {
      var front, step := steps[..|steps| - 1], steps[|steps| - 1];
      BucketsAgreeWithLog(front, startedAt, cutoff, p);
      var s := Run(front, startedAt);
      if step.Recording? {
        var e := EventOf(step.input, step.now);
        RecordedSum(s.traffic, e, p);
        TallyAppend(s.events, e, p);
        SinceSum(Recorded(s.traffic, e), step.later - RETENTION, p);
      } else {
        SinceSum(s.traffic, step.later - RETENTION, p);
      }
    }
  }

  lemma TallyAppend(events: seq<Event>, e: Event, p: Key -> bool)
    ensures Tally(events + [e], p) == if p(e.key) then Merge(Tally(events, p), One(e)) else Tally(events, p)
  {
    hide Merge, Add, One;
    assert (events + [e])[..|events|] == events;
    AddIsMerge(Tally(events, p), e);
  }

  /** The clock does not run backwards. */
  predicate Steady(steps: seq<Step>) {
    && (forall k :: 0 <= k < |steps| && steps[k].Recording? ==> steps[k].now <= steps[k].later)
    && forall j, k :: 0 <= j < k < |steps| ==>
         steps[j].later <= if steps[k].Recording? then steps[k].now else steps[k].later
  }

  function LastCutoff(steps: seq<Step>): int
    requires steps != []
  {
    steps[|steps| - 1].later - RETENTION
  }

  function Recent(q: Key -> bool, cutoff: int): Key -> bool {
    (k: Key) => q(k) && k.minute >= cutoff
  }

  /** So, with a clock that does not run backwards, what is retained after the last trim, in total or
      for any method, route group or source, is what the log gives for the minutes since its cutoff. */
  lemma RetainedAgrees(steps: seq<Step>, startedAt: int, q: Key -> bool)
    requires steps != [] && Roomy(steps, startedAt) && Steady(steps)
    ensures Sum(Run(steps, startedAt).traffic, q) == Tally(Run(steps, startedAt).events, Recent(q, LastCutoff(steps)))
  {
    hide Roomy, Sum, Tally, Merge;
    var cutoff := LastCutoff(steps);
    BucketsAgreeWithLog(steps, startedAt, cutoff, Recent(q, cutoff));
    RetainedAreRecent(steps, startedAt);
    RecentSum(Run(steps, startedAt).traffic, q, cutoff);
  }

  predicate AllSince(buckets: seq<Bucket>, cutoff: int) {
    forall k :: 0 <= k < |buckets| ==> buckets[k].key.minute >= cutoff
  }

  lemma {:induction false} SinceIsRecent(buckets: seq<Bucket>, cutoff: int)
    ensures AllSince(Since(buckets, cutoff), cutoff)
  {
    if buckets != [] {
      SinceIsRecent(buckets[..|buckets| - 1], cutoff);
    }
  }

  lemma RetainedAreRecent(steps: seq<Step>, startedAt: int)
    requires steps != []
    ensures AllSince(Run(steps, startedAt).traffic, LastCutoff(steps))
  {
    hide Recorded, Since;
    var s, step := Run(steps[..|steps| - 1], startedAt), steps[|steps| - 1];
    var grown := if step.Recording? then Recorded(s.traffic, EventOf(step.input, step.now)) else s.traffic;
    SinceIsRecent(grown, LastCutoff(steps));
  }

  lemma {:induction false} RecentSum(buckets: seq<Bucket>, q: Key -> bool, cutoff: int)
    requires AllSince(buckets, cutoff)
    ensures Sum(buckets, Recent(q, cutoff)) == Sum(buckets, q)
  {
    hide Merge;
    if buckets != [] {
      RecentSum(buckets[..|buckets| - 1], q, cutoff);
    }
  }

  /** The counters since the process started are those of the whole log, never trimmed. */
  lemma {:induction false} ProcessAgrees(steps: seq<Step>, startedAt: int, q: Key -> bool)
    ensures Sum(Run(steps, startedAt).processTraffic, q)
         == Tally(Run(steps, startedAt).events, (k: Key) => q(k.(minute := startedAt)))
    decreases |steps|
  {
    hide Merge, Recorded, Add, EventOf, Trimmed, One;
    var filed := (k: Key) => q(k.(minute := startedAt));
    if steps == [] {
      assert Sum([], q) == Tally([], filed);
    } else {
      var front, step := steps[..|steps| - 1], steps[|steps| - 1];
      ProcessAgrees(front, startedAt, q);
      if step.Recording? {
        var s, e := Run(front, startedAt), EventOf(step.input, step.now);
        RecordedSum(s.processTraffic, SinceStart(e, startedAt), q);
        TallyAppend(s.events, e, filed);
        OneIsDateless(e, startedAt);
      }
    }
  }

  lemma OneIsDateless(e: Event, startedAt: int)
    ensures One(SinceStart(e, startedAt)) == One(e)
  {
  }

  // ----- Every bucket balances -----

  predicate AllBalanced(buckets: seq<Bucket>) {
    forall k :: 0 <= k < |buckets| ==> Balanced(buckets[k].counts)
  }

  lemma RecordedBalanced(buckets: seq<Bucket>, e: Event)
    requires AllBalanced(buckets) && (e.status == 0 || 100 <= e.status <= 599)
    ensures AllBalanced(Recorded(buckets, e))
  {
    hide Balanced, Add;
    var k := Find(buckets, e.key, 0);
    var c := if k == |buckets| then Empty() else buckets[k].counts;
    assert Balanced(Empty()) by { EmptyBalanced(); }
    AddBalanced(c, e.status, e.duration);
  }

  lemma EmptyBalanced()
    ensures Balanced(Empty())
  {
  }

  lemma {:induction false} SinceBalanced(buckets: seq<Bucket>, cutoff: int)
    requires AllBalanced(buckets)
    ensures AllBalanced(Since(buckets, cutoff))
  {
    hide Balanced;
    if buckets != [] {
      SinceBalanced(buckets[..|buckets| - 1], cutoff);
    }
  }

  /** After any steps, with any clock and full or not, every bucket balances. */
  lemma {:induction false} BucketsBalance(steps: seq<Step>, startedAt: int)
    ensures AllBalanced(Run(steps, startedAt).traffic) && AllBalanced(Run(steps, startedAt).processTraffic)
    decreases |steps|
  {
    hide Balanced, Recorded, Since, Duration;
    if steps != [] {
      var front, step := steps[..|steps| - 1], steps[|steps| - 1];
      BucketsBalance(front, startedAt);
      var s := Run(front, startedAt);
      if step.Recording? {
        var e := EventOf(step.input, step.now);
        RecordedBalanced(s.traffic, e);
        RecordedBalanced(s.processTraffic, SinceStart(e, startedAt));
        SinceBalanced(Recorded(s.traffic, e), step.later - RETENTION);
      } else {
        SinceBalanced(s.traffic, step.later - RETENTION);
      }
    }
  }

  // ----- Summaries -----

  function All(): Key -> bool {
    (k: Key) => true
  }

  function Route(): Key -> string {
    (k: Key) => k.group
  }

  function Source(): Key -> string {
    (k: Key) => k.source
  }

  function Labelled(column: Key -> string, name: string): Key -> bool {
    (k: Key) => column(k) == name
  }

  /** All rows of a summary taken together. */
  ghost function Together(rows: map<string, Counts>): Counts {
    if rows == map[] then Empty() else var name :| name in rows; Merge(rows[name], Together(rows - {name}))
  }

  function Row(rows: map<string, Counts>, name: string): Counts {
    if name in rows then rows[name] else Empty()
  }

  lemma {:induction false} TogetherWithout(rows: map<string, Counts>, name: string)
    requires name in rows
    ensures Together(rows) == Merge(rows[name], Together(rows - {name}))
    decreases |rows|
  {
    hide Merge;
    var first :| first in rows && Together(rows) == Merge(rows[first], Together(rows - {first}));
    if first != name {
      assert (rows - {first}) - {name} == (rows - {name}) - {first};
      TogetherWithout(rows - {first}, name);
      TogetherWithout(rows - {name}, first);
      var rest := Together(rows - {name} - {first});
      MergeAssociates(rows[first], rows[name], rest);
      MergeAssociates(rows[name], rows[first], rest);
      MergeSwaps(rows[first], rows[name]);
    }
  }

  lemma TogetherGrows(rows: map<string, Counts>, name: string, c: Counts)
    ensures Together(rows[name := Merge(Row(rows, name), c)]) == Merge(Together(rows), c)
  {
    hide Merge;
    var grown, rest := rows[name := Merge(Row(rows, name), c)], rows - {name};
    assert grown - {name} == rest;
    TogetherWithout(grown, name);
    MergeLast(Row(rows, name), Together(rest), c);
    if name in rows {
      TogetherWithout(rows, name);
    } else {
      assert rest == rows;
      MergeEmpty(Together(rest));
    }
  }

  /** There is a row for each name that a bucket has, counting the buckets of that name, and the
      rows add up to all the buckets. */
  ghost predicate Summarises(rows: map<string, Counts>, buckets: seq<Bucket>, column: Key -> string) {
    && (forall name :: Row(rows, name) == Sum(buckets, Labelled(column, name)))
    && (forall name :: name in rows <==> exists k :: 0 <= k < |buckets| && column(buckets[k].key) == name)
    && Together(rows) == Sum(buckets, All())
  }

  lemma SummaryGrows(rows: map<string, Counts>, buckets: seq<Bucket>, column: Key -> string, b: Bucket)
    requires Summarises(rows, buckets, column)
    ensures Summarises(rows[column(b.key) := Merge(Row(rows, column(b.key)), b.counts)], buckets + [b], column)
  {
    hide Merge, Together, Sum;
    var name, longer := column(b.key), buckets + [b];
    var grown := rows[name := Merge(Row(rows, name), b.counts)];
    TogetherGrows(rows, name, b.counts);
    SumAppend(buckets, b, All());
    forall other
      ensures Row(grown, other) == Sum(longer, Labelled(column, other))
    {
      SumAppend(buckets, b, Labelled(column, other));
      assert Row(rows, other) == Sum(buckets, Labelled(column, other));
    }
    forall other
      ensures other in grown <==> exists k :: 0 <= k < |longer| && column(longer[k].key) == other
    {
      assert longer[|buckets|] == b;
      if other in rows {
        var k :| 0 <= k < |buckets| && column(buckets[k].key) == other;
        assert longer[k] == buckets[k];
      }
    }
  }

  lemma NothingSummarised(column: Key -> string)
    ensures Summarises(map[], [], column) && Sum([], All()) == Empty()
  {
  }

  lemma {:induction false} SumBalanced(buckets: seq<Bucket>, p: Key -> bool)
    requires AllBalanced(buckets)
    ensures Balanced(Sum(buckets, p))
  {
    hide Balanced, Merge;
    if buckets == [] {
      NothingBalanced();
    } else {
      var front := buckets[..|buckets| - 1];
      SumBalanced(front, p);
      MergeBalanced(Sum(front, p), buckets[|buckets| - 1].counts);
    }
  }

  lemma NothingBalanced()
    ensures Balanced(Empty())
  {
  }

  predicate RowsBalanced(rows: map<string, Counts>) {
    forall name :: name in rows ==> Balanced(rows[name])
  }

  lemma SummaryBalanced(rows: map<string, Counts>, buckets: seq<Bucket>, column: Key -> string)
    requires Summarises(rows, buckets, column) && AllBalanced(buckets)
    ensures RowsBalanced(rows)
  {
    hide Balanced, Sum, AllBalanced, Together;
    forall name | name in rows
      ensures Balanced(rows[name])
    {
      assert Row(rows, name) == Sum(buckets, Labelled(column, name));
      SumBalanced(buckets, Labelled(column, name));
    }
  }

  /** `summarize`: the totals are all the buckets together, the rows by route group and by source
      each add up to them, and all of these balance if the buckets do. */
  method Summarize(buckets: seq<Bucket>)
    returns (totals: Counts, byRoute: map<string, Counts>, bySource: map<string, Counts>)
    ensures totals == Sum(buckets, All())
    ensures Summarises(byRoute, buckets, Route()) && Summarises(bySource, buckets, Source())
    ensures AllBalanced(buckets) ==> Balanced(totals) && RowsBalanced(byRoute) && RowsBalanced(bySource)
  {
    hide Merge, Sum, Summarises, AllBalanced, Balanced, RowsBalanced;
    totals, byRoute, bySource := Empty(), map[], map[];
    NothingSummarised(Route());
    NothingSummarised(Source());
    var k := 0;
    while k < |buckets|
      invariant k <= |buckets| && totals == Sum(buckets[..k], All())
      invariant Summarises(byRoute, buckets[..k], Route()) && Summarises(bySource, buckets[..k], Source())
    {
      var b := buckets[k];
      assert buckets[..k + 1] == buckets[..k] + [b];
      SumAppend(buckets[..k], b, All());
      SummaryGrows(byRoute, buckets[..k], Route(), b);
      SummaryGrows(bySource, buckets[..k], Source(), b);
      totals := Merge(totals, b.counts);
      byRoute := byRoute[b.key.group := Merge(Row(byRoute, b.key.group), b.counts)];
      bySource := bySource[b.key.source := Merge(Row(bySource, b.key.source), b.counts)];
      k := k + 1;
    }
    assert buckets[..k] == buckets;
    if AllBalanced(buckets) {
      SumBalanced(buckets, All());
      SummaryBalanced(byRoute, buckets, Route());
      SummaryBalanced(bySource, buckets, Source());
    }
  }
}
