/**
 The wallet sign-in controller (apps/dashboard/wallet-auth-ui.js): sign-ins, restores, sign-outs,
 wallet events, prompt timeouts and destruction interleave at every await over a few shared
 variables. `Controller` holds the variables and does what each stretch between two awaits does
 to them; `Apply` lets the stretches of any number of calls happen in any order.
 */
module WalletAuth {
  import opened Bytes

  datatype Kind = SignIn | Restore

  /** The shared variables. `restoring` names the restore whose completion a queued sign-in awaits. */
  datatype Vars = Vars(epoch: nat, busy: bool, busyEpoch: Option<nat>, busyKind: Option<Kind>, destroyed: bool,
                       restoring: Option<nat>)

  function Begun(v: Vars, kind: Kind, flow: nat): Vars {
    Vars(v.epoch + 1, true, Some(v.epoch + 1), Some(kind), v.destroyed,
         if kind == Restore then Some(flow) else v.restoring)
  }

  function Idle(v: Vars): Vars {
    v.(busy := false, busyEpoch := None, busyKind := None)
  }

  function Finally(v: Vars, expected: nat): Vars {
    if v.busyEpoch == Some(expected) then Idle(v) else v
  }

  function Invalidated(v: Vars): Vars {
    v.(epoch := v.epoch + 1)
  }

  function LoggedOut(v: Vars): Vars {
    if v.busyKind == Some(Restore) then Idle(Invalidated(v)) else Invalidated(v)
  }

  predicate Current(v: Vars, expected: nat) {
    !v.destroyed && expected == v.epoch
  }

  class Controller {
    var epoch: nat
    var busy: bool
    var busyEpoch: Option<nat>
    var busyKind: Option<Kind>
    var destroyed: bool
    var restoring: Option<nat>

    function Value(): Vars
      reads this
    {
      Vars(epoch, busy, busyEpoch, busyKind, destroyed, restoring)
    }

    constructor ()
      ensures Value() == Vars(0, false, None, None, false, None) == Initial().vars
    {
      epoch, busy, busyEpoch, busyKind, destroyed, restoring := 0, false, None, None, false, None;
    }

    /** From the first await-free check of `signIn` or `restore` to its first await. */
    method Start(kind: Kind, flow: nat) returns (expected: Option<nat>)
      modifies this
      ensures old(busy || destroyed) ==> expected == None && Value() == old(Value())
      ensures !old(busy || destroyed) ==> expected == Some(epoch) && Value() == Begun(old(Value()), kind, flow)
    {
      if busy || destroyed {
        return None;
      }
      if kind == Restore {
        restoring := Some(flow);
      }
      busy, epoch := true, epoch + 1;
      busyEpoch, busyKind := Some(epoch), Some(kind);
      expected := Some(epoch);
    }

    /** A wallet event, and the abort of a prompt of the current epoch. */
    method Invalidate()
      modifies this`epoch
      ensures Value() == Invalidated(old(Value()))
    {
      epoch := epoch + 1;
    }

    method PromptTimeout(expected: nat)
      modifies this`epoch
      ensures Value() == if old(epoch) == expected then Invalidated(old(Value())) else old(Value())
    {
      if epoch == expected {
        Invalidate();
      }
    }

    method SignOut()
      modifies this
      ensures Value() == LoggedOut(old(Value()))
    {
      epoch := epoch + 1;
      if busyKind == Some(Restore) {
        busy, busyEpoch, busyKind := false, None, None;
      }
    }

    method Destroy()
      modifies this
      ensures Value() == Invalidated(old(Value())).(destroyed := true)
    {
      epoch := epoch + 1;
      destroyed := true;
    }

    /** The `finally` block of the call whose epoch is `expected`. */
    method Finish(expected: nat)
      modifies this
      ensures Value() == Finally(old(Value()), expected)
    {
      if busyEpoch == Some(expected) {
        busy, busyEpoch, busyKind := false, None, None;
      }
    }
  }

  // ----- Interleaving -----

  /** Where one call stands. A running `signIn` or `restore` has its epoch and the place in the log
      where it started; `shown` says it has handed over the session, and `clears` that it failed and
      has yet to declare the page signed out. A `signOut`, or the handler of a wallet event, waits for
      the revocation that it asked for at a place in the log. */
  datatype Flow =
    | New
    | Queued(queuedEpoch: nat, behind: Option<nat>)
    | Running(kind: Kind, epoch: nat, started: nat, shown: bool)
    | Closing(kind: Kind, epoch: nat, started: nat, clears: bool)
    | Leaving(wallet: bool, asked: nat)
    | Ended

  datatype Event =
    | Started(flow: nat, behind: Option<nat>)
    | Asked(flow: nat)                         // a sign-out or a wallet event
    | Disturbed                                // a prompt timeout or destruction
    | Ready(flow: nat)                         // the session was handed to the page
    | Left(flow: nat)                          // a restore declared the page signed out
    | Cleared(flow: nat)                       // the page was declared signed out without a check of the epoch

  datatype State = State(vars: Vars, flows: seq<Flow>, log: seq<Event>)

  datatype Action =
    | CallSignIn
    | CallRestore
    | CallSignOut
    | CallDestroy
    | WalletEvent
    | Resume(flow: nat)                        // a queued sign-in whose restore has completed
    | Timeout(flow: nat)
    | Show(flow: nat)                          // the last check before `sessionReady`, and that call
    | Close(flow: nat, fails: bool)            // an error or a session that is gone, or a return
    | Clear(flow: nat)                         // a failed sign-in, after its revocation
    | End(flow: nat)
    | Leave(flow: nat, revoked: bool)          // the revocation of a sign-out or wallet event is over

  function Initial(): State {
    State(Vars(0, false, None, None, false, None), [], [])
  }

  predicate Live(f: Flow) {
    f.Running? || f.Closing?
  }

  function Begin(s: State, id: nat, kind: Kind, behind: Option<nat>): State
    requires id < |s.flows|
  {
    if s.vars.busy || s.vars.destroyed then Move(s, id, Ended, [])
    else State(Begun(s.vars, kind, id), s.flows[id := Running(kind, s.vars.epoch + 1, |s.log|, false)],
               s.log + [Started(id, behind)])
  }

  function Arrive(s: State, f: Flow): State {
    s.(flows := s.flows + [f])
  }

  function Disturb(s: State, vars: Vars, e: Event): State {
    s.(vars := vars, log := s.log + [e])
  }

  function Ask(s: State, vars: Vars, wallet: bool): State {
    Arrive(Disturb(s, vars, Asked(|s.flows|)), Leaving(wallet, |s.log|))
  }

  /** A call moves on, perhaps telling the page something. */
  function Move(s: State, id: nat, f: Flow, news: seq<Event>): State
    requires id < |s.flows|
  {
    s.(flows := s.flows[id := f], log := s.log + news)
  }

  function EndCall(s: State, id: nat): State
    requires id < |s.flows| && Live(s.flows[id])
  {
    State(Finally(s.vars, s.flows[id].epoch), s.flows[id := Ended], s.log)
  }

  /** A failed sign-in revokes the session and then clears the page; a restore has no such step. */
  function Closed(f: Flow, fails: bool): Flow
    requires Live(f)
  {
    Closing(f.kind, f.epoch, f.started, fails && f.kind == SignIn)
  }

  /** A restore that fails declares the page signed out only while it is current. */
  predicate Leaves(s: State, id: nat)
    requires id < |s.flows| && s.flows[id].Running?
  {
    s.flows[id].kind == Restore && Current(s.vars, s.flows[id].epoch)
  }

  predicate ToClear(f: Flow) {
    f.Closing? && f.kind == SignIn && f.clears
  }

  function Apply(s: State, a: Action): State {
    match a
    case CallSignIn =>
      if s.vars.busyKind == Some(Restore) then Arrive(s, Queued(s.vars.epoch, s.vars.restoring))
      else Begin(Arrive(s, New), |s.flows|, SignIn, None)
    case CallRestore => Begin(Arrive(s, New), |s.flows|, Restore, None)
    case CallSignOut => Ask(s, LoggedOut(s.vars), false)
    case CallDestroy => Disturb(s, Invalidated(s.vars).(destroyed := true), Disturbed)
    case WalletEvent => Ask(s, Invalidated(s.vars), true)
    case Resume(id) =>
      if id < |s.flows| && s.flows[id].Queued? && Completed(s, s.flows[id].behind) then
        if s.vars.destroyed || s.flows[id].queuedEpoch != s.vars.epoch then Move(s, id, Ended, [])
        else Begin(s, id, SignIn, s.flows[id].behind)
      else s
    case Timeout(id) =>
      if id < |s.flows| && s.flows[id].Running? && s.flows[id].kind == SignIn && !s.flows[id].shown then
        var t := if s.vars.epoch == s.flows[id].epoch then Disturb(s, Invalidated(s.vars), Disturbed) else s;
        Move(t, id, Closed(s.flows[id], true), [])
      else s
    case Show(id) =>
      if id < |s.flows| && s.flows[id].Running? && !s.flows[id].shown && Current(s.vars, s.flows[id].epoch) then
        Move(s, id, s.flows[id].(shown := true), [Ready(id)])
      else s
    case Close(id, fails) =>
      if id < |s.flows| && s.flows[id].Running? then
        Move(s, id, Closed(s.flows[id], fails), if fails && Leaves(s, id) then [Left(id)] else [])
      else s
    case Clear(id) =>
      if id < |s.flows| && ToClear(s.flows[id]) && !s.vars.destroyed then
        Move(s, id, s.flows[id].(clears := false), [Cleared(id)])
      else s
    case End(id) =>
      if id < |s.flows| && s.flows[id].Closing? && (s.flows[id].clears ==> s.vars.destroyed) then EndCall(s, id) else s
    case Leave(id, revoked) =>
      if id < |s.flows| && s.flows[id].Leaving? then
        Move(s, id, Ended, if (if s.flows[id].wallet then revoked else !s.vars.destroyed) then [Cleared(id)] else [])
      else s
  }

  predicate Completed(s: State, restore: Option<nat>) {
    restore.Some? && restore.value < |s.flows| ==> s.flows[restore.value].Ended?
  }

  function Run(s: State, actions: seq<Action>): State
    decreases |actions|
  {
    if actions == [] then s else Run(Apply(s, actions[0]), actions[1..])
  }

  // ----- What every run keeps -----

  predicate Owner(s: State, id: nat) {
    && id < |s.flows| && Live(s.flows[id])
    && s.vars.busyEpoch == Some(s.flows[id].epoch) && s.vars.busyKind == Some(s.flows[id].kind)
    && (s.flows[id].kind == Restore ==> s.vars.restoring == Some(id))
  }

  /** The busy flag belongs to a call that has not ended. */
  ghost predicate Owned(s: State) {
    && s.vars.busy == s.vars.busyEpoch.Some? == s.vars.busyKind.Some?
    && (s.vars.busy ==> exists id: nat :: Owner(s, id))
  }

  predicate Distinct(s: State) {
    && (forall i :: 0 <= i < |s.flows| && Live(s.flows[i]) ==> s.flows[i].epoch <= s.vars.epoch)
    && (forall i, j :: 0 <= i < j < |s.flows| && Live(s.flows[i]) && Live(s.flows[j]) ==>
          s.flows[i].epoch != s.flows[j].epoch)
  }

  /** A sign-in holds the busy flag until it ends, and so does the call whose epoch is current. */
  predicate Holding(s: State) {
    forall i :: 0 <= i < |s.flows| && Live(s.flows[i]) ==>
      && (s.flows[i].kind == SignIn || s.flows[i].epoch == s.vars.epoch ==> s.vars.busyEpoch == Some(s.flows[i].epoch))
      && (s.flows[i].epoch == s.vars.epoch ==> !s.vars.destroyed)
  }

  ghost predicate Ownership(s: State) {
    Owned(s) && Distinct(s) && Holding(s)
  }

  lemma ArriveOwnership(s: State, f: Flow)
    requires Ownership(s) && !Live(f)
    ensures Ownership(Arrive(s, f))
  {
    if s.vars.busy {
      var id: nat :| Owner(s, id);
      assert Owner(Arrive(s, f), id);
    }
  }

  lemma BeginOwnership(s: State, id: nat, kind: Kind, behind: Option<nat>)
    requires Ownership(s) && id < |s.flows| && !Live(s.flows[id])
    ensures Ownership(Begin(s, id, kind, behind))
  {
    var t := Begin(s, id, kind, behind);
    if s.vars.busy {
      var owner: nat :| Owner(s, owner);
      assert Owner(t, owner);
    } else if !s.vars.destroyed {
      assert Owner(t, id);
    }
  }

  predicate Disturbing(v: Vars, after: Vars) {
    after == LoggedOut(v) || after == Invalidated(v) || after == Invalidated(v).(destroyed := true)
  }

  lemma RestoreOwns(s: State)
    requires Ownership(s) && s.vars.busyKind == Some(Restore)
    ensures forall i :: 0 <= i < |s.flows| && Live(s.flows[i]) ==> s.flows[i].kind == Restore
  {
  }

  lemma DisturbOwnership(s: State, vars: Vars, e: Event)
    requires Ownership(s) && Disturbing(s.vars, vars)
    ensures Ownership(Disturb(s, vars, e))
  {
    if vars.busy {
      var id: nat :| Owner(s, id);
      assert Owner(Disturb(s, vars, e), id);
    }
    if s.vars.busyKind == Some(Restore) {
      RestoreOwns(s);
    }
  }

  /** A call past the point where it hands over the session. */
  predicate Told(f: Flow) {
    f.Ended? || f.Closing? || (f.Running? && f.shown)
  }

  /** A live call moves on without ending, or a call that never started ends. */
  predicate Moves(f: Flow, g: Flow) {
    if Live(f) then
      Live(g) && g.kind == f.kind && g.epoch == f.epoch && g.started == f.started && (Told(f) ==> Told(g))
    else g == Ended
  }

  lemma MoveOwnership(s: State, id: nat, f: Flow, news: seq<Event>)
    requires Ownership(s) && id < |s.flows| && Moves(s.flows[id], f)
    ensures Ownership(Move(s, id, f, news))
  {
    if s.vars.busy {
      var owner: nat :| Owner(s, owner);
      assert Owner(Move(s, id, f, news), owner);
    }
  }

  lemma EndOwnership(s: State, id: nat)
    requires Ownership(s) && id < |s.flows| && Live(s.flows[id])
    ensures Ownership(EndCall(s, id))
  {
    if s.vars.busy {
      var owner: nat :| Owner(s, owner);
      if owner != id {
        assert Owner(EndCall(s, id), owner);
      }
    }
  }

  // Where calls stand in the log.

  predicate Bumps(e: Event) {
    e.Started? || e.Asked? || e.Disturbed?
  }

  /** Nothing started and nothing was disturbed between two places in the log. */
  predicate Calm(log: seq<Event>, from: nat, to: nat) {
    forall k :: from < k < to && k < |log| ==> !Bumps(log[k])
  }

  predicate StartedAt(log: seq<Event>, j: nat, id: nat) {
    j < |log| && log[j].Started? && log[j].flow == id
  }

  /** A live call's epoch is current exactly when nothing has happened since it started. */
  predicate Traced(s: State) {
    forall i :: 0 <= i < |s.flows| && Live(s.flows[i]) ==>
      && StartedAt(s.log, s.flows[i].started, i)
      && (s.flows[i].epoch == s.vars.epoch <==> Calm(s.log, s.flows[i].started, |s.log|))
  }

  /** What a call told the page at place `k`, it told undisturbed. */
  ghost predicate Undisturbed(log: seq<Event>, k: nat)
    requires k < |log| && (log[k].Ready? || log[k].Left?)
  {
    exists j: nat :: j < k && StartedAt(log, j, log[k].flow) && Calm(log, j, k)
  }

  ghost predicate Faithful(log: seq<Event>) {
    forall k: nat :: k < |log| && (log[k].Ready? || log[k].Left?) ==> Undisturbed(log, k)
  }

  lemma CalmGrows(log: seq<Event>, j: nat, e: Event)
    requires j < |log|
    ensures Calm(log + [e], j, |log| + 1) <==> Calm(log, j, |log|) && !Bumps(e)
    ensures forall k: nat :: k <= |log| ==> Calm(log + [e], j, k) == Calm(log, j, k)
  {
    assert (log + [e])[|log|] == e;
    assert forall k :: 0 <= k < |log| ==> (log + [e])[k] == log[k];
  }

  lemma FaithfulGrows(log: seq<Event>, e: Event)
    requires Faithful(log)
    requires e.Ready? || e.Left? ==> exists j: nat :: StartedAt(log, j, e.flow) && Calm(log, j, |log|)
    ensures Faithful(log + [e])
  {
    var longer := log + [e];
    forall k: nat | k < |longer| && (longer[k].Ready? || longer[k].Left?)
      ensures Undisturbed(longer, k)
    {
      var j: nat;
      if k < |log| {
        assert longer[k] == log[k] && Undisturbed(log, k);
        j :| j < k && StartedAt(log, j, log[k].flow) && Calm(log, j, k);
      } else {
        j :| StartedAt(log, j, e.flow) && Calm(log, j, |log|);
      }
      CalmGrows(log, j, e);
      assert StartedAt(longer, j, longer[k].flow) && Calm(longer, j, k);
    }
  }

  ghost predicate History(s: State) {
    Traced(s) && Faithful(s.log)
  }

  lemma ArriveHistory(s: State, f: Flow)
    requires History(s) && !Live(f)
    ensures History(Arrive(s, f))
  {
  }

  lemma BeginHistory(s: State, id: nat, kind: Kind, behind: Option<nat>)
    requires History(s) && Distinct(s) && id < |s.flows| && !Live(s.flows[id])
    ensures History(Begin(s, id, kind, behind))
  {
    hide Faithful, Calm;
    if !s.vars.busy && !s.vars.destroyed {
      BumpTraced(s, Started(id, behind));
      FaithfulGrows(s.log, Started(id, behind));
      CalmHere(s.log + [Started(id, behind)]);
    } else {
      assert s.log + [] == s.log;
    }
  }

  lemma CalmHere(log: seq<Event>)
    requires log != []
    ensures Calm(log, |log| - 1, |log|)
  {
  }

  /** A bump leaves every call that was live behind the current epoch. */
  lemma BumpTraced(s: State, e: Event)
    requires Traced(s) && Distinct(s) && Bumps(e)
    ensures forall i :: 0 <= i < |s.flows| && Live(s.flows[i]) ==>
              && s.flows[i].epoch <= s.vars.epoch
              && StartedAt(s.log + [e], s.flows[i].started, i)
              && !Calm(s.log + [e], s.flows[i].started, |s.log| + 1)
  {
    hide Calm;
    forall i | 0 <= i < |s.flows| && Live(s.flows[i])
      ensures StartedAt(s.log + [e], s.flows[i].started, i) && !Calm(s.log + [e], s.flows[i].started, |s.log| + 1)
    {
      CalmGrows(s.log, s.flows[i].started, e);
    }
  }

  lemma DisturbHistory(s: State, vars: Vars, e: Event)
    requires History(s) && Distinct(s) && Disturbing(s.vars, vars) && (e.Asked? || e.Disturbed?)
    ensures History(Disturb(s, vars, e))
  {
    hide Faithful, Calm;
    BumpTraced(s, e);
    FaithfulGrows(s.log, e);
  }

  /** A session is handed over, and a restore leaves, only while the call's epoch is current; the page
      is cleared by sign-outs, wallet events and failed sign-ins. */
  predicate Tells(s: State, id: nat, news: seq<Event>)
    requires id < |s.flows|
  {
    || news == []
    || ((news == [Ready(id)] || news == [Left(id)]) && Live(s.flows[id]) && s.flows[id].epoch == s.vars.epoch)
    || (news == [Cleared(id)] && (s.flows[id].Leaving? || (Live(s.flows[id]) && s.flows[id].kind == SignIn)))
  }

  lemma MoveHistory(s: State, id: nat, f: Flow, news: seq<Event>)
    requires History(s) && id < |s.flows| && Moves(s.flows[id], f) && Tells(s, id, news)
    ensures History(Move(s, id, f, news))
  {
    hide Faithful, Calm;
    if news == [] {
      assert s.log + news == s.log;
    } else {
      FaithfulGrows(s.log, news[0]);
      forall i | 0 <= i < |s.flows| && Live(s.flows[i])
        ensures StartedAt(s.log + news, s.flows[i].started, i)
        ensures Calm(s.log + news, s.flows[i].started, |s.log| + 1) == Calm(s.log, s.flows[i].started, |s.log|)
      {
        CalmGrows(s.log, s.flows[i].started, news[0]);
      }
    }
  }

  lemma EndHistory(s: State, id: nat)
    requires History(s) && id < |s.flows| && Live(s.flows[id])
    ensures History(EndCall(s, id))
  {
    hide Calm;
  }

  // Queued sign-ins, and what each call says once.

  predicate WellQueued(s: State, i: nat)
    requires i < |s.flows| && s.flows[i].Queued?
  {
    && s.flows[i].queuedEpoch <= s.vars.epoch
    && match s.flows[i].behind
       case None => false
       case Some(r) => r < |s.flows| && (s.flows[r].Ended? || (Live(s.flows[r]) && s.flows[r].kind == Restore))
  }

  /** A queued sign-in has gone ahead behind restore `r`: no other one behind `r` still can. */
  predicate Spent(s: State, r: nat) {
    && r < |s.flows| && s.flows[r].Ended?
    && forall i :: 0 <= i < |s.flows| && s.flows[i].Queued? && s.flows[i].behind == Some(r) ==>
         s.flows[i].queuedEpoch < s.vars.epoch
  }

  /** A queued sign-in went ahead. */
  predicate Proceeded(e: Event) {
    e.Started? && e.behind.Some?
  }

  predicate Queue(s: State) {
    && (forall i: nat :: i < |s.flows| && s.flows[i].Queued? ==> WellQueued(s, i))
    && (forall k :: 0 <= k < |s.log| && Proceeded(s.log[k]) ==> Spent(s, s.log[k].behind.value))
    && (forall k, l :: 0 <= k < l < |s.log| && Proceeded(s.log[k]) && Proceeded(s.log[l]) ==>
          s.log[k].behind != s.log[l].behind)
  }

  predicate Once(s: State) {
    && (forall k :: 0 <= k < |s.log| && s.log[k].Ready? ==> s.log[k].flow < |s.flows| && Told(s.flows[s.log[k].flow]))
    && (forall k, l :: 0 <= k < l < |s.log| && s.log[k].Ready? ==> s.log[l] != s.log[k])
  }

  lemma ArriveQueue(s: State, f: Flow)
    requires Ownership(s) && Queue(s) && Once(s)
    requires f == New || f.Leaving? || (f == Queued(s.vars.epoch, s.vars.restoring) && s.vars.busyKind == Some(Restore))
    ensures Queue(Arrive(s, f)) && Once(Arrive(s, f))
  {
    var t := Arrive(s, f);
    if f.Queued? {
      var owner: nat :| Owner(s, owner);
    }
    forall k | 0 <= k < |s.log| && Proceeded(s.log[k])
      ensures Spent(t, s.log[k].behind.value)
    {
      assert Spent(s, s.log[k].behind.value);
    }
    forall i: nat | i < |t.flows| && t.flows[i].Queued?
      ensures WellQueued(t, i)
    {
      assert i < |s.flows| ==> WellQueued(s, i);
    }
  }

  lemma BeginQueue(s: State, id: nat, kind: Kind, behind: Option<nat>)
    requires Queue(s) && Once(s) && id < |s.flows|
    requires if behind == None then s.flows[id] == New
             else s.flows[id] == Queued(s.vars.epoch, behind) && Completed(s, behind)
    ensures Queue(Begin(s, id, kind, behind)) && Once(Begin(s, id, kind, behind))
  {
    BeginOnce(s, id, kind, behind);
    hide Once;
    var t := Begin(s, id, kind, behind);
    assert s.log + [] == s.log;
    forall r: nat | Spent(s, r)
      ensures Spent(t, r)
    {
    }
    forall i: nat | i < |t.flows| && t.flows[i].Queued?
      ensures WellQueued(t, i)
    {
      assert WellQueued(s, i);
    }
    if behind.Some? {
      assert WellQueued(s, id) && !Spent(s, behind.value);
      assert !s.vars.busy && !s.vars.destroyed ==> Spent(t, behind.value);
    }
  }

  lemma BeginOnce(s: State, id: nat, kind: Kind, behind: Option<nat>)
    requires Once(s) && id < |s.flows| && !Live(s.flows[id]) && !s.flows[id].Ended?
    ensures Once(Begin(s, id, kind, behind))
  {
    assert s.log + [] == s.log;
  }

  lemma DisturbQueue(s: State, vars: Vars, e: Event)
    requires Queue(s) && Once(s) && Disturbing(s.vars, vars) && (e.Asked? || e.Disturbed?)
    ensures Queue(Disturb(s, vars, e)) && Once(Disturb(s, vars, e))
  {
    var t := Disturb(s, vars, e);
    forall r: nat | Spent(s, r)
      ensures Spent(t, r)
    {
    }
    forall i: nat | i < |t.flows| && t.flows[i].Queued?
      ensures WellQueued(t, i)
    {
      assert WellQueued(s, i);
    }
  }

  lemma MoveQueue(s: State, id: nat, f: Flow, news: seq<Event>)
    requires Queue(s) && Once(s) && id < |s.flows| && Moves(s.flows[id], f) && Tells(s, id, news)
    requires news == [Ready(id)] ==> !Told(s.flows[id]) && Told(f)
    ensures Queue(Move(s, id, f, news)) && Once(Move(s, id, f, news))
  {
    var t := Move(s, id, f, news);
    forall r: nat | Spent(s, r)
      ensures Spent(t, r)
    {
    }
    forall i: nat | i < |t.flows| && t.flows[i].Queued?
      ensures WellQueued(t, i)
    {
      assert WellQueued(s, i);
    }
  }

  lemma EndQueue(s: State, id: nat)
    requires Queue(s) && Once(s) && id < |s.flows| && Live(s.flows[id])
    ensures Queue(EndCall(s, id)) && Once(EndCall(s, id))
  {
    var t := EndCall(s, id);
    forall r: nat | Spent(s, r)
      ensures Spent(t, r)
    {
    }
    forall i: nat | i < |t.flows| && t.flows[i].Queued?
      ensures WellQueued(t, i)
    {
      assert WellQueued(s, i);
    }
  }

  // Who clears the page.

  predicate AskedAt(log: seq<Event>, j: nat, id: nat) {
    j < |log| && log[j] == Asked(id)
  }

  predicate NoStart(log: seq<Event>, from: nat, to: nat) {
    forall k :: from < k < to && k < |log| ==> !log[k].Started?
  }

  /** What clears the page at place `k` was asked for at a place from `base` on, or is a sign-in since
      whose start nothing else has started. */
  ghost predicate Justified(log: seq<Event>, k: nat, base: nat)
    requires k < |log| && log[k].Cleared?
  {
    || (exists j: nat :: base <= j < k && AskedAt(log, j, log[k].flow))
    || (exists j: nat :: j < k && StartedAt(log, j, log[k].flow) && NoStart(log, j, k))
  }

  /** Waiting sign-outs were asked for from place `base` on, a sign-in runs alone, and what has
      cleared the page from `base` on is justified. */
  ghost predicate Exits(s: State, base: nat) {
    && (forall i: nat :: i < |s.flows| && s.flows[i].Leaving? ==>
          s.flows[i].asked >= base && AskedAt(s.log, s.flows[i].asked, i))
    && (forall i: nat :: i < |s.flows| && Live(s.flows[i]) && s.flows[i].kind == SignIn ==>
          StartedAt(s.log, s.flows[i].started, i) && NoStart(s.log, s.flows[i].started, |s.log|))
    && (forall k: nat :: base <= k < |s.log| && s.log[k].Cleared? ==> Justified(s.log, k, base))
  }

  lemma ArriveExits(s: State, f: Flow, base: nat)
    requires Exits(s, base) && !Live(f) && (f.Leaving? ==> f.asked >= base && AskedAt(s.log, f.asked, |s.flows|))
    ensures Exits(Arrive(s, f), base)
  {
    hide Justified;
  }

  lemma JustifiedGrows(log: seq<Event>, e: Event, k: nat, base: nat)
    requires k < |log| && log[k].Cleared? && Justified(log, k, base)
    ensures Justified(log + [e], k, base)
  {
    var longer := log + [e];
    if j: nat :| base <= j < k && AskedAt(log, j, log[k].flow) {
      assert AskedAt(longer, j, longer[k].flow);
    } else {
      var j: nat :| j < k && StartedAt(log, j, log[k].flow) && NoStart(log, j, k);
      assert StartedAt(longer, j, longer[k].flow) && NoStart(longer, j, k);
    }
  }

  lemma LogExits(s: State, e: Event, base: nat)
    requires Exits(s, base) && base <= |s.log| && !e.Started?
    requires e.Cleared? ==> Justified(s.log + [e], |s.log|, base)
    ensures Exits(s.(log := s.log + [e]), base)
  {
    hide Justified;
    var longer := s.log + [e];
    forall k: nat | base <= k < |longer| && longer[k].Cleared?
      ensures Justified(longer, k, base)
    {
      if k < |s.log| {
        assert longer[k] == s.log[k];
        JustifiedGrows(s.log, e, k, base);
      }
    }
  }

  lemma BeginExits(s: State, id: nat, kind: Kind, behind: Option<nat>, base: nat)
    requires Ownership(s) && Exits(s, base) && base <= |s.log| && id < |s.flows| && !Live(s.flows[id])
    ensures Exits(Begin(s, id, kind, behind), base)
  {
    hide Justified;
    if s.vars.busy || s.vars.destroyed {
      assert s.log + [] == s.log;
    } else {
      var longer := s.log + [Started(id, behind)];
      NoSignIn(s);
      forall k: nat | base <= k < |longer| && longer[k].Cleared?
        ensures Justified(longer, k, base)
      {
        assert longer[k] == s.log[k];
        JustifiedGrows(s.log, Started(id, behind), k, base);
      }
    }
  }

  lemma NoSignIn(s: State)
    requires Ownership(s) && !s.vars.busy
    ensures forall i :: 0 <= i < |s.flows| && Live(s.flows[i]) ==> s.flows[i].kind != SignIn
  {
  }

  lemma MoveExits(s: State, id: nat, f: Flow, news: seq<Event>, base: nat)
    requires Exits(s, base) && base <= |s.log| && id < |s.flows| && Moves(s.flows[id], f) && Tells(s, id, news)
    ensures Exits(Move(s, id, f, news), base)
  {
    hide Justified, NoStart;
    if news == [] {
      assert s.log + news == s.log;
    } else {
      if news == [Cleared(id)] {
        ClearJustified(s, id, base);
      }
      LogExits(s, news[0], base);
    }
  }

  lemma ClearJustified(s: State, id: nat, base: nat)
    requires Exits(s, base) && id < |s.flows|
    requires s.flows[id].Leaving? || (Live(s.flows[id]) && s.flows[id].kind == SignIn)
    ensures Justified(s.log + [Cleared(id)], |s.log|, base)
  {
    var longer := s.log + [Cleared(id)];
    if s.flows[id].Leaving? {
      assert AskedAt(longer, s.flows[id].asked, longer[|s.log|].flow);
    } else {
      var j := s.flows[id].started;
      assert StartedAt(longer, j, longer[|s.log|].flow) && NoStart(longer, j, |s.log|);
    }
  }

  lemma EndExits(s: State, id: nat, base: nat)
    requires Exits(s, base) && id < |s.flows| && Live(s.flows[id])
    ensures Exits(EndCall(s, id), base)
  {
    hide Justified;
  }

  // ----- Every run -----

  ghost predicate Sound(s: State) {
    Ownership(s) && History(s) && Queue(s) && Once(s)
  }

  lemma BeginSound(s: State, id: nat, kind: Kind, behind: Option<nat>)
    requires Sound(s) && id < |s.flows|
    requires if behind == None then s.flows[id] == New
             else s.flows[id] == Queued(s.vars.epoch, behind) && Completed(s, behind)
    ensures Sound(Begin(s, id, kind, behind))
  {
    hide Owned, Holding, Traced, Faithful, Queue, Once, Begin, Distinct;
    BeginOwnership(s, id, kind, behind);
    BeginHistory(s, id, kind, behind);
    BeginQueue(s, id, kind, behind);
  }

  lemma ArriveSound(s: State, f: Flow)
    requires Sound(s)
    requires f == New || f.Leaving? || (f == Queued(s.vars.epoch, s.vars.restoring) && s.vars.busyKind == Some(Restore))
    ensures Sound(Arrive(s, f))
  {
    hide Ownership, History, Queue, Once, Arrive;
    ArriveOwnership(s, f);
    ArriveHistory(s, f);
    ArriveQueue(s, f);
  }

  lemma DisturbSound(s: State, vars: Vars, e: Event)
    requires Sound(s) && Disturbing(s.vars, vars) && (e.Asked? || e.Disturbed?)
    ensures Sound(Disturb(s, vars, e))
  {
    hide Owned, Holding, Traced, Faithful, Queue, Once, Disturb, Distinct;
    DisturbOwnership(s, vars, e);
    DisturbHistory(s, vars, e);
    DisturbQueue(s, vars, e);
  }

  lemma MoveSound(s: State, id: nat, f: Flow, news: seq<Event>)
    requires Sound(s) && id < |s.flows| && Moves(s.flows[id], f) && Tells(s, id, news)
    requires news == [Ready(id)] ==> !Told(s.flows[id]) && Told(f)
    ensures Sound(Move(s, id, f, news))
  {
    hide Ownership, History, Queue, Once, Move, Moves, Tells;
    MoveOwnership(s, id, f, news);
    MoveHistory(s, id, f, news);
    MoveQueue(s, id, f, news);
  }

  lemma EndSound(s: State, id: nat)
    requires Sound(s) && id < |s.flows| && Live(s.flows[id])
    ensures Sound(EndCall(s, id))
  {
    hide Ownership, History, Queue, Once, EndCall;
    EndOwnership(s, id);
    EndHistory(s, id);
    EndQueue(s, id);
  }

  lemma QueuedBehind(s: State, id: nat)
    requires Sound(s) && id < |s.flows| && s.flows[id].Queued?
    ensures s.flows[id].behind.Some?
  {
    hide Ownership, History, Once;
    assert WellQueued(s, id);
  }

  lemma StepSound(s: State, a: Action)
    requires Sound(s)
    ensures Sound(Apply(s, a))
  {
    hide Sound, Begin;
    match a
    case CallSignIn =>
      if s.vars.busyKind == Some(Restore) {
        ArriveSound(s, Queued(s.vars.epoch, s.vars.restoring));
      } else {
        ArriveSound(s, New);
        BeginSound(Arrive(s, New), |s.flows|, SignIn, None);
      }
    case CallRestore =>
      ArriveSound(s, New);
      BeginSound(Arrive(s, New), |s.flows|, Restore, None);
    case CallSignOut => AskSound(s, LoggedOut(s.vars), false);
    case CallDestroy => DisturbSound(s, Invalidated(s.vars).(destroyed := true), Disturbed);
    case WalletEvent => AskSound(s, Invalidated(s.vars), true);
    case Resume(id) =>
      if id < |s.flows| && s.flows[id].Queued? && Completed(s, s.flows[id].behind) {
        QueuedBehind(s, id);
        if s.vars.destroyed || s.flows[id].queuedEpoch != s.vars.epoch {
          MoveSound(s, id, Ended, []);
        } else {
          BeginSound(s, id, SignIn, s.flows[id].behind);
        }
      }
    case Timeout(id) => TimeoutSound(s, id);
    case Show(id) =>
      if id < |s.flows| && s.flows[id].Running? && !s.flows[id].shown && Current(s.vars, s.flows[id].epoch) {
        MoveSound(s, id, s.flows[id].(shown := true), [Ready(id)]);
      }
    case Close(id, fails) => CloseSound(s, id, fails);
    case Clear(id) =>
      if id < |s.flows| && ToClear(s.flows[id]) && !s.vars.destroyed {
        MoveSound(s, id, s.flows[id].(clears := false), [Cleared(id)]);
      }
    case End(id) =>
      if id < |s.flows| && s.flows[id].Closing? {
        EndSound(s, id);
      }
    case Leave(id, revoked) =>
      if id < |s.flows| && s.flows[id].Leaving? {
        MoveSound(s, id, Ended, []);
        MoveSound(s, id, Ended, [Cleared(id)]);
      }
  }

  lemma AskSound(s: State, vars: Vars, wallet: bool)
    requires Sound(s) && Disturbing(s.vars, vars)
    ensures Sound(Ask(s, vars, wallet))
  {
    hide Sound;
    DisturbSound(s, vars, Asked(|s.flows|));
    ArriveSound(Disturb(s, vars, Asked(|s.flows|)), Leaving(wallet, |s.log|));
  }

  lemma TimeoutSound(s: State, id: nat)
    requires Sound(s)
    ensures Sound(Apply(s, Timeout(id)))
  {
    hide Sound;
    if id < |s.flows| && s.flows[id].Running? && s.flows[id].kind == SignIn {
      if s.vars.epoch == s.flows[id].epoch {
        DisturbSound(s, Invalidated(s.vars), Disturbed);
        MoveSound(Disturb(s, Invalidated(s.vars), Disturbed), id, Closed(s.flows[id], true), []);
      }
      MoveSound(s, id, Closed(s.flows[id], true), []);
    }
  }

  lemma CloseSound(s: State, id: nat, fails: bool)
    requires Sound(s)
    ensures Sound(Apply(s, Close(id, fails)))
  {
    hide Sound;
    if id < |s.flows| && s.flows[id].Running? {
      MoveSound(s, id, Closed(s.flows[id], fails), if fails && Leaves(s, id) then [Left(id)] else []);
    }
  }

  lemma InitialSound()
    ensures Sound(Initial())
  {
  }

  lemma {:induction false} StaysSound(s: State, actions: seq<Action>)
    requires Sound(s)
    ensures Sound(Run(s, actions))
    decreases |actions|
  {
    hide Sound, Apply;
    if actions != [] {
      StepSound(s, actions[0]);
      StaysSound(Apply(s, actions[0]), actions[1..]);
    }
  }

  lemma RunSound(actions: seq<Action>)
    ensures Sound(Run(Initial(), actions))
  {
    hide Sound, Run, Initial;
    InitialSound();
    StaysSound(Initial(), actions);
  }

  lemma DisturbExits(s: State, vars: Vars, e: Event, base: nat)
    requires Exits(s, base) && base <= |s.log| && (e.Asked? || e.Disturbed?)
    ensures Exits(Disturb(s, vars, e), base)
  {
    hide Justified, NoStart;
    LogExits(s, e, base);
  }

  lemma AskExits(s: State, vars: Vars, wallet: bool, base: nat)
    requires Exits(s, base) && base <= |s.log|
    ensures Exits(Ask(s, vars, wallet), base)
  {
    hide Exits;
    DisturbExits(s, vars, Asked(|s.flows|), base);
    ArriveExits(Disturb(s, vars, Asked(|s.flows|)), Leaving(wallet, |s.log|), base);
  }

  lemma StepExits(s: State, a: Action, base: nat)
    requires Ownership(s) && Exits(s, base) && base <= |s.log|
    ensures Exits(Apply(s, a), base) && base <= |Apply(s, a).log|
  {
    hide Ownership, Exits, Begin;
    match a
    case CallSignIn => CallExits(s, SignIn, base);
    case CallRestore => CallExits(s, Restore, base);
    case CallSignOut => AskExits(s, LoggedOut(s.vars), false, base);
    case CallDestroy => DisturbExits(s, Invalidated(s.vars).(destroyed := true), Disturbed, base);
    case WalletEvent => AskExits(s, Invalidated(s.vars), true, base);
    case Resume(id) => ResumeExits(s, id, base);
    case Timeout(id) =>
      if id < |s.flows| && s.flows[id].Running? && s.flows[id].kind == SignIn {
        DisturbExits(s, Invalidated(s.vars), Disturbed, base);
        MoveExits(Disturb(s, Invalidated(s.vars), Disturbed), id, Closed(s.flows[id], true), [], base);
        MoveExits(s, id, Closed(s.flows[id], true), [], base);
      }
    case Show(id) =>
      if id < |s.flows| && s.flows[id].Running? && !s.flows[id].shown && Current(s.vars, s.flows[id].epoch) {
        MoveExits(s, id, s.flows[id].(shown := true), [Ready(id)], base);
      }
    case Close(id, fails) => CloseExits(s, id, fails, base);
    case Clear(id) =>
      if id < |s.flows| && s.flows[id].Closing? && s.flows[id].kind == SignIn {
        MoveExits(s, id, s.flows[id].(clears := false), [Cleared(id)], base);
      }
    case End(id) =>
      if id < |s.flows| && s.flows[id].Closing? {
        EndExits(s, id, base);
      }
    case Leave(id, revoked) =>
      if id < |s.flows| && s.flows[id].Leaving? {
        MoveExits(s, id, Ended, [], base);
        MoveExits(s, id, Ended, [Cleared(id)], base);
      }
  }

  lemma CallExits(s: State, kind: Kind, base: nat)
    requires Ownership(s) && Exits(s, base) && base <= |s.log|
    ensures var t := Apply(s, if kind == SignIn then CallSignIn else CallRestore); Exits(t, base) && base <= |t.log|
  {
    hide Ownership, Exits;
    ArriveOwnership(s, New);
    ArriveExits(s, New, base);
    ArriveExits(s, Queued(s.vars.epoch, s.vars.restoring), base);
    BeginExits(Arrive(s, New), |s.flows|, kind, None, base);
  }

  lemma ResumeExits(s: State, id: nat, base: nat)
    requires Ownership(s) && Exits(s, base) && base <= |s.log|
    ensures Exits(Apply(s, Resume(id)), base) && base <= |Apply(s, Resume(id)).log|
  {
    hide Ownership, Exits;
    if id < |s.flows| && s.flows[id].Queued? {
      MoveExits(s, id, Ended, [], base);
      BeginExits(s, id, SignIn, s.flows[id].behind, base);
    }
  }

  lemma CloseExits(s: State, id: nat, fails: bool, base: nat)
    requires Exits(s, base) && base <= |s.log|
    ensures Exits(Apply(s, Close(id, fails)), base) && base <= |Apply(s, Close(id, fails)).log|
  {
    hide Exits;
    if id < |s.flows| && s.flows[id].Running? {
      MoveExits(s, id, Closed(s.flows[id], fails), if fails && Leaves(s, id) then [Left(id)] else [], base);
    }
  }

  lemma {:induction false} StaysExits(s: State, actions: seq<Action>, base: nat)
    requires Sound(s) && Exits(s, base) && base <= |s.log|
    ensures Exits(Run(s, actions), base)
    decreases |actions|
  {
    hide History, Queue, Once, Ownership, Exits, Apply;
    if actions != [] {
      StepSound(s, actions[0]);
      StepExits(s, actions[0], base);
      StaysExits(Apply(s, actions[0]), actions[1..], base);
    }
  }

  /** Whenever a call hands a session to the page, or a restore declares it signed out, nothing has
      started and nothing has been disturbed since that call started. */
  lemma ReadyOnlyWhileCurrent(actions: seq<Action>, k: nat)
    requires var log := Run(Initial(), actions).log; k < |log| && (log[k].Ready? || log[k].Left?)
    ensures Undisturbed(Run(Initial(), actions).log, k)
  {
    hide Run, Initial, Undisturbed;
    RunSound(actions);
  }

  /** No call hands over a session twice. */
  lemma ReadyAtMostOnce(actions: seq<Action>, k: nat, l: nat)
    requires var log := Run(Initial(), actions).log; k < |log| && l < |log| && log[k].Ready? && log[k] == log[l]
    ensures k == l
  {
    hide Run, Initial, Ownership, History, Queue;
    RunSound(actions);
  }

  /** At most one live call is current, and at most one live call is a sign-in, stale or not. */
  lemma OneAtATime(actions: seq<Action>, i: nat, j: nat)
    requires var s := Run(Initial(), actions);
      && i < |s.flows| && j < |s.flows| && Live(s.flows[i]) && Live(s.flows[j])
      && ((s.flows[i].epoch == s.vars.epoch && s.flows[j].epoch == s.vars.epoch)
          || (s.flows[i].kind == SignIn && s.flows[j].kind == SignIn))
    ensures i == j
  {
    hide Run, Initial, Owned, History, Queue, Once;
    RunSound(actions);
  }

  /** The busy flag is set only while the call that set it is live, so it is never left behind. */
  lemma NeverStuck(actions: seq<Action>)
    requires var s := Run(Initial(), actions); forall i :: 0 <= i < |s.flows| ==> !Live(s.flows[i])
    ensures !Run(Initial(), actions).vars.busy
  {
    hide Run, Initial, History, Queue, Once, Distinct, Holding;
    RunSound(actions);
  }

  /** A call that no longer holds the busy flag, such as a stale restore, ends without touching it. */
  lemma StaleCallsClearNothing(actions: seq<Action>, i: nat, j: nat)
    requires var s := Run(Initial(), actions);
      i < |s.flows| && i != j && s.flows[i].Closing? && Owner(s, j)
    ensures var s := Run(Initial(), actions); Apply(s, End(i)).vars == s.vars && Owner(Apply(s, End(i)), j)
  {
    hide Run, Initial, Owned, Holding, History, Queue, Once;
    RunSound(actions);
  }

  /** At most one sign-in queued behind a given restore goes ahead. */
  lemma OneSignInPerRestore(actions: seq<Action>, k: nat, l: nat)
    requires var log := Run(Initial(), actions).log;
      k < |log| && l < |log| && Proceeded(log[k]) && Proceeded(log[l]) && log[k].behind == log[l].behind
    ensures k == l
  {
    hide Run, Initial, Ownership, History, Once;
    RunSound(actions);
  }

  // ----- Sign-outs that come late -----

  /** At place `k` the page is signed out of the session that call `c`, started at place `from`,
      has shown it, although nothing has happened since that call started. */
  predicate SignedOutOf(log: seq<Event>, from: nat, c: nat, k: nat) {
    && StartedAt(log, from, c) && from < k < |log| && log[k].Cleared? && log[k].flow != c && Calm(log, from, k)
    && exists r :: from < r < k && log[r] == Ready(c)
  }

  /** Only what was asked for before the call started can do that: never a sign-in that fails. */
  lemma LateSignOutsWereAsked(log: seq<Event>, from: nat, c: nat, k: nat, base: nat)
    requires SignedOutOf(log, from, c, k) && Justified(log, k, base)
    ensures exists j: nat :: base <= j < from && AskedAt(log, j, log[k].flow)
  {
    assert log[from].Started?;
    var j: nat :| base <= j < k && AskedAt(log, j, log[k].flow);
    assert log[j].Asked?;
  }

  /** In every run, what signs the page out of a session that is still undisturbed was asked for
      before the call that shows the session began. */
  lemma OnlyEarlierSignOutsClear(actions: seq<Action>, from: nat, c: nat, k: nat)
    requires SignedOutOf(Run(Initial(), actions).log, from, c, k)
    ensures var log := Run(Initial(), actions).log; exists j: nat :: j < from && AskedAt(log, j, log[k].flow)
  {
    InitialSound();
    assert Exits(Initial(), 0);
    hide Run, Initial, SignedOutOf, Justified, Sound;
    StaysExits(Initial(), actions, 0);
    var log := Run(Initial(), actions).log;
    assert Justified(log, k, 0) by { ClearsAt(log, from, c, k); }
    LateSignOutsWereAsked(log, from, c, k, 0);
  }

  lemma ClearsAt(log: seq<Event>, from: nat, c: nat, k: nat)
    requires SignedOutOf(log, from, c, k)
    ensures from < k < |log| && log[k].Cleared?
  {
  }

  /** A sign-out or a wallet event is still waiting for its revocation. */
  predicate Waiting(s: State) {
    exists p :: 0 <= p < |s.flows| && s.flows[p].Leaving?
  }

  /** A sign-in or a restore begins: called now, or resumed after the restore it was queued behind. */
  predicate Begins(s: State, call: Action) {
    && !s.vars.busy && !s.vars.destroyed
    && match call
       case CallSignIn => true
       case CallRestore => true
       case Resume(id) =>
         && id < |s.flows| && s.flows[id].Queued? && Completed(s, s.flows[id].behind)
         && s.flows[id].queuedEpoch == s.vars.epoch
       case _ => false
  }

  function Beginner(s: State, call: Action): nat
    requires Begins(s, call)
  {
    if call.Resume? then call.flow else |s.flows|
  }

  /** If the call begins now, its session may be signed out of although nothing happens in between. */
  ghost predicate Spoilable(s: State, call: Action)
    requires Begins(s, call)
  {
    exists more: seq<Action>, k: nat :: SignedOutOf(Run(s, [call] + more).log, |s.log|, Beginner(s, call), k)
  }

  /** A late sign-out undoes a newer session exactly when one is still waiting for its revocation as
      the call begins, queued sign-ins included; nothing in the code looks at that. */
  lemma SpoilableExactly(actions: seq<Action>, call: Action)
    requires Begins(Run(Initial(), actions), call)
    ensures Spoilable(Run(Initial(), actions), call) <==> Waiting(Run(Initial(), actions))
  {
    var s := Run(Initial(), actions);
    InitialSound();
    assert Exits(Initial(), 0);
    hide Initial, Sound, Exits, Run, Begins;
    StaysSound(Initial(), actions);
    StaysExits(Initial(), actions, 0);
    if !Waiting(s) {
      forall more: seq<Action>, k: nat
        ensures !SignedOutOf(Run(s, [call] + more).log, |s.log|, Beginner(s, call), k)
      {
        NeverSpoilt(s, call, more, k);
      }
    } else {
      var p :| 0 <= p < |s.flows| && s.flows[p].Leaving?;
      Spoils(s, call, p);
    }
  }

  lemma NeverSpoilt(s: State, call: Action, more: seq<Action>, k: nat)
    requires Sound(s) && Exits(s, 0) && Begins(s, call) && !Waiting(s)
    ensures !SignedOutOf(Run(s, [call] + more).log, |s.log|, Beginner(s, call), k)
  {
    hide Sound, Exits, Run, Begins, SignedOutOf, Beginner;
    NothingWaiting(s);
    StaysExits(s, [call] + more, |s.log|);
    NotSignedOut(Run(s, [call] + more), |s.log|, Beginner(s, call), k);
  }

  lemma NothingWaiting(s: State)
    requires Exits(s, 0) && !Waiting(s)
    ensures Exits(s, |s.log|)
  {
    hide Justified;
  }

  /** What was asked for since the call started has ended the calm, so it signs nobody out. */
  lemma NotSignedOut(s: State, from: nat, c: nat, k: nat)
    requires Exits(s, from)
    ensures !SignedOutOf(s.log, from, c, k)
  {
    hide Justified;
    if SignedOutOf(s.log, from, c, k) {
      assert Justified(s.log, k, from);
      LateSignOutsWereAsked(s.log, from, c, k, from);
    }
  }

  lemma CallBegins(s: State, call: Action)
    requires Ownership(s) && Begins(s, call)
    ensures var t, n := Apply(s, call), Beginner(s, call);
      && n < |t.flows| && t.flows[n].Running? && !t.flows[n].shown && Current(t.vars, t.flows[n].epoch)
      && |t.log| == |s.log| + 1 && t.log[..|s.log|] == s.log && StartedAt(t.log, |s.log|, n)
      && forall p :: 0 <= p < |s.flows| && p != n ==> p < |t.flows| && t.flows[p] == s.flows[p]
  {
    hide Distinct, Holding;
  }

  lemma Spoils(s: State, call: Action, p: nat)
    requires Sound(s) && Begins(s, call) && p < |s.flows| && s.flows[p].Leaving?
    ensures Spoilable(s, call)
  {
    hide Ownership, History, Queue, Once;
    CallBegins(s, call);
    var n, t := Beginner(s, call), Apply(s, call);
    assert p != n;
    hide Begins, Beginner;
    ShownAndCleared(t, |s.log|, n, p);
    ThreeSteps(s, call, Show(n), Leave(p, true));
    assert SignedOutOf(Run(s, [call] + [Show(n), Leave(p, true)]).log, |s.log|, n, |s.log| + 2);
  }

  lemma ShownAndCleared(t: State, from: nat, n: nat, p: nat)
    requires n < |t.flows| && t.flows[n].Running? && !t.flows[n].shown && Current(t.vars, t.flows[n].epoch)
    requires |t.log| == from + 1 && StartedAt(t.log, from, n) && p < |t.flows| && p != n && t.flows[p].Leaving?
    ensures SignedOutOf(Apply(Apply(t, Show(n)), Leave(p, true)).log, from, n, from + 2)
  {
    var u := Apply(t, Show(n));
    assert u.log == t.log + [Ready(n)] && u.flows[p] == t.flows[p] && !u.vars.destroyed;
    var w := Apply(u, Leave(p, true));
    assert w.log == u.log + [Cleared(p)];
    assert w.log[from] == t.log[from] && w.log[from + 1] == Ready(n) && w.log[from + 2] == Cleared(p);
  }

  lemma ThreeSteps(s: State, a: Action, b: Action, c: Action)
    ensures Run(s, [a] + [b, c]) == Apply(Apply(Apply(s, a), b), c)
  {
    hide Apply;
    assert ([a] + [b, c])[1..] == [b, c] && [b, c][1..] == [c] && [c][1..] == [];
    var t := Apply(Apply(s, a), b);
    assert Run(Apply(t, c), []) == Apply(t, c);
    assert Run(t, [c]) == Run(Apply(t, c), []);
  }
}
