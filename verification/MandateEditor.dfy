/**
 Saving a mandate draft (apps/dashboard/mandate-editor.js:116-152): the request body and its
 idempotency key are frozen at the first attempt and kept until the server definitely refuses.
 `Flow` is one open editor; `Apply` lets it be clicked, answered and cut off in any order while the
 network delivers what was sent late, repeatedly or never.
 */
module MandateEditor {
  import opened Bytes

  type Key = nat

  type Body = string

  /** One editor: what it is saving, whether a save is outstanding, and whether it still owns the form. */
  datatype Editor = Editor(key: Option<Key>, body: Option<Body>, saved: bool, waiting: bool, active: bool)

  datatype Outcome = Saved | Rejected | Uncertain

  function Opened(): Editor {
    Editor(None, None, false, false, true)
  }

  /** The editor after a click, and the request it sends. `form` is what the form reads as, if it is
      valid; `unused` is the key a new attempt would get. */
  function Clicked(e: Editor, form: Option<Body>, unused: Key): (Editor, Option<(Key, Body)>) {
    if e.waiting || !e.active || (e.body == None && form == None) then (e, None)
    else
      var frozen := if e.body == None then e.(key := Some(unused), body := form) else e;
      if frozen.saved || frozen.key == None then (frozen.(waiting := true), None)
      else (frozen.(waiting := true), Some((frozen.key.value, frozen.body.value)))
  }

  /** The editor after the answer to a click that asked for a save. */
  function Answered(e: Editor, outcome: Outcome): Editor {
    match outcome
    case Saved => e.(saved := true)
    case Rejected =>
      if e.active && !e.saved then e.(key := None, body := None, waiting := false) else e.(waiting := false)
    case Uncertain => e.(waiting := false)
  }

  class Flow {
    var key: Option<Key>
    var body: Option<Body>
    var saved: bool
    var waiting: bool
    var active: bool

    function Value(): Editor
      reads this
    {
      Editor(key, body, saved, waiting, active)
    }

    constructor ()
      ensures Value() == Opened()
    {
      key, body, saved, waiting, active := None, None, false, false, true;
    }

    /** Up to the request, if one is sent. */
    method Submit(form: Option<Body>, unused: Key) returns (request: Option<(Key, Body)>)
      modifies this
      ensures (Value(), request) == Clicked(old(Value()), form, unused)
    {
      if waiting || !active {
        return None;
      }
      if body == None {
        if form == None {
          return None;
        }
        body, key := form, Some(unused);
      }
      waiting := true;
      if saved || key == None {
        return None;
      }
      request := Some((key.value, body.value));
    }

    /** What the answer to the request does. */
    method Settle(outcome: Outcome)
      modifies this
      ensures Value() == Answered(old(Value()), outcome)
    {
      match outcome {
        case Saved => saved := true;
        case Rejected =>
          if active && !saved {
            key, body := None, None;
          }
          waiting := false;
        case Uncertain => waiting := false;
      }
    }

    /** The workspace refresh after a save ended, and either closed the editor or failed. */
    method Refreshed(ok: bool)
      modifies this
      ensures Value() == Closed(old(Value()), ok)
    {
      waiting := false;
      if ok {
        active := false;
      }
    }
  }

  function Closed(e: Editor, ok: bool): Editor {
    e.(waiting := false, active := e.active && !ok)
  }

  // ----- The editor, the network and the server -----

  datatype Verdict = Committed(body: Body) | Refused

  datatype Event = Sent(key: Key, body: Body) | Refusal | Success

  /** `next` is the first key not used yet; `server` what the server decided for each key it saw. */
  datatype State = State(editor: Editor, next: Key, server: map<Key, Verdict>, log: seq<Event>)

  datatype Action =
    | Click(form: Option<Body>)
    | Deliver(sent: nat, accept: bool)     // a request that was sent reaches the server, perhaps again
    | Answer(outcome: Outcome)
    | Refresh(ok: bool)
    | Abandon                              // the form was closed or the account changed

  function Initial(): State {
    State(Opened(), 0, map[], [])
  }

  /** The server decides once per key; if refusals are not final, a repeat may still be accepted. */
  function Decided(server: map<Key, Verdict>, key: Key, body: Body, accept: bool, final: bool): map<Key, Verdict> {
    if key in server && (server[key].Committed? || final) then server
    else server[key := if accept then Committed(body) else Refused]
  }

  /** The server's answer can only report what it decided; no answer says nothing. */
  predicate Possible(s: State, outcome: Outcome) {
    && s.editor.waiting && !s.editor.saved
    && match outcome
       case Saved => s.editor.key.Some? && s.editor.key.value in s.server && s.server[s.editor.key.value].Committed?
       case Rejected => s.editor.key.Some? && s.editor.key.value in s.server && s.server[s.editor.key.value].Refused?
       case Uncertain => true
  }

  function Apply(s: State, a: Action, final: bool): State {
    match a
    case Click(form) =>
      var (editor, request) := Clicked(s.editor, form, s.next);
      if request == None then s.(editor := editor)
      else
        var (key, body) := request.value;
        State(editor, if key == s.next then s.next + 1 else s.next, s.server, s.log + [Sent(key, body)])
    case Deliver(k, accept) =>
      if k < |s.log| && s.log[k].Sent? then s.(server := Decided(s.server, s.log[k].key, s.log[k].body, accept, final))
      else s
    case Answer(outcome) =>
      if Possible(s, outcome) then
        s.(editor := Answered(s.editor, outcome),
           log := s.log + match outcome case Saved => [Success] case Rejected => [Refusal] case Uncertain => [])
      else s
    case Refresh(ok) => if s.editor.waiting && s.editor.saved then s.(editor := Closed(s.editor, ok)) else s
    case Abandon => s.(editor := s.editor.(active := false))
  }

  function Run(s: State, actions: seq<Action>, final: bool): State
    decreases |actions|
  {
    if actions == [] then s else Run(Apply(s, actions[0], final), actions[1..], final)
  }

  // ----- What every run keeps -----

  predicate SentTo(e: Event, key: Key) {
    e.Sent? && e.key == key
  }

  /** The editor's key and body go together, and a save that succeeded is on the server. */
  predicate Coherent(s: State) {
    && s.editor.key.Some? == s.editor.body.Some?
    && (s.editor.key.Some? ==> s.editor.key.value < s.next)
    && (s.editor.saved ==>
          s.editor.key.Some? && s.editor.key.value in s.server && s.server[s.editor.key.value].Committed?)
  }

  /** A request carries what the editor still holds, or its key has been refused for good. */
  predicate Accounted(s: State, e: Event)
    requires e.Sent?
  {
    && e.key < s.next
    && if s.editor.key == Some(e.key) then s.editor.body == Some(e.body)
       else e.key in s.server && s.server[e.key].Refused?
  }

  ghost predicate Exact(s: State) {
    && Coherent(s)
    && (forall k :: 0 <= k < |s.log| && s.log[k].Sent? ==> Accounted(s, s.log[k]))
    && (forall key :: key in s.server ==> exists k :: 0 <= k < |s.log| && SentTo(s.log[k], key))
  }

  lemma StepExact(s: State, a: Action)
    requires Exact(s)
    ensures Exact(Apply(s, a, true))
  {
    var t := Apply(s, a, true);
    forall k | 0 <= k < |t.log| && t.log[k].Sent?
      ensures Accounted(t, t.log[k])
    {
      if k < |s.log| {
        assert t.log[k] == s.log[k] && Accounted(s, s.log[k]);
      }
    }
    forall key | key in t.server
      ensures exists k :: 0 <= k < |t.log| && SentTo(t.log[k], key)
    {
      if key in s.server {
        var k :| 0 <= k < |s.log| && SentTo(s.log[k], key);
        assert SentTo(t.log[k], key);
      } else {
        assert SentTo(t.log[a.sent], key);
      }
    }
  }

  lemma {:induction false} StaysExact(s: State, actions: seq<Action>)
    requires Exact(s)
    ensures Exact(Run(s, actions, true))
    decreases |actions|
  {
    hide Exact, Apply;
    if actions != [] {
      StepExact(s, actions[0]);
      StaysExact(Apply(s, actions[0], true), actions[1..]);
    }
  }

  /** If refusals are final, one editor commits at most one draft, however often it is clicked and
      however late or often its requests arrive. */
  lemma AtMostOneDraft(actions: seq<Action>, j: Key, k: Key)
    requires var server := Run(Initial(), actions, true).server;
      j in server && k in server && server[j].Committed? && server[k].Committed?
    ensures j == k
  {
    hide Run, Apply;
    StaysExact(Initial(), actions);
    var s := Run(Initial(), actions, true);
    var x :| 0 <= x < |s.log| && SentTo(s.log[x], j);
    var y :| 0 <= y < |s.log| && SentTo(s.log[y], k);
    assert Accounted(s, s.log[x]) && Accounted(s, s.log[y]);
  }

  // ----- Retries -----

  /** Nothing was refused between two places in the log. */
  predicate Unrefused(log: seq<Event>, from: nat, to: nat) {
    forall k :: from < k < to && k < |log| ==> log[k] != Refusal
  }

  predicate Repeats(log: seq<Event>) {
    forall j: nat, k: nat :: j < k < |log| && log[j].Sent? && log[k].Sent? && Unrefused(log, j, k) ==> log[j] == log[k]
  }

  predicate Frozen(s: State) {
    forall j: nat :: j < |s.log| && s.log[j].Sent? && Unrefused(s.log, j, |s.log|) ==>
      s.editor.key == Some(s.log[j].key) && s.editor.body == Some(s.log[j].body)
  }

  predicate Settled(s: State) {
    && (forall j :: 0 <= j < |s.log| && s.log[j] == Success ==> s.editor.saved)
    && forall j, k :: 0 <= j < k < |s.log| && s.log[j] == Success ==> !s.log[k].Sent?
  }

  lemma UnrefusedGrows(log: seq<Event>, e: Event, j: nat)
    requires j < |log|
    ensures Unrefused(log + [e], j, |log| + 1) <==> Unrefused(log, j, |log|) && e != Refusal
    ensures forall k: nat :: k <= |log| ==> Unrefused(log + [e], j, k) == Unrefused(log, j, k)
  {
    assert (log + [e])[|log|] == e;
    assert forall k :: 0 <= k < |log| ==> (log + [e])[k] == log[k];
  }

  lemma AppendRepeats(s: State, e: Event, t: State)
    requires Repeats(s.log) && Frozen(s) && Settled(s) && t.log == s.log + [e]
    requires s.editor.saved || e == Success ==> t.editor.saved
    requires e.Sent? ==> !s.editor.saved
    requires e.Sent? && s.editor.body.Some? ==> t.editor.key == s.editor.key && t.editor.body == s.editor.body
    requires e.Sent? ==> t.editor.key == Some(e.key) && t.editor.body == Some(e.body)
    requires e == Success ==> t.editor.key == s.editor.key && t.editor.body == s.editor.body
    ensures Repeats(t.log) && Frozen(t) && Settled(t)
  {
    var n := |s.log|;
    assert forall k :: 0 <= k < n ==> t.log[k] == s.log[k];
    assert t.log[n] == e;
    hide Unrefused;
    forall j: nat | j < n
      ensures Unrefused(t.log, j, n + 1) <==> Unrefused(s.log, j, n) && e != Refusal
      ensures forall k: nat :: k <= n ==> Unrefused(t.log, j, k) == Unrefused(s.log, j, k)
    {
      UnrefusedGrows(s.log, e, j);
    }
  }

  lemma StepRepeats(s: State, a: Action, final: bool)
    requires Repeats(s.log) && Frozen(s) && Settled(s)
    ensures var t := Apply(s, a, final); Repeats(t.log) && Frozen(t) && Settled(t)
  {
    hide Unrefused, Decided;
    var t := Apply(s, a, final);
    if a.Click? && Clicked(s.editor, a.form, s.next).1.Some? {
      AppendRepeats(s, t.log[|s.log|], t);
    } else if a.Answer? && Possible(s, a.outcome) && a.outcome != Uncertain {
      AppendRepeats(s, t.log[|s.log|], t);
    } else {
      assert t.log == s.log;
    }
  }

  lemma {:induction false} StaysRepeating(s: State, actions: seq<Action>, final: bool)
    requires Repeats(s.log) && Frozen(s) && Settled(s)
    ensures var t := Run(s, actions, final); Repeats(t.log) && Settled(t)
    decreases |actions|
  {
    hide Repeats, Frozen, Settled, Apply;
    if actions != [] {
      StepRepeats(s, actions[0], final);
      StaysRepeating(Apply(s, actions[0], final), actions[1..], final);
    }
  }

  /** Whatever the server does: two requests with no refusal between them have the same body and the
      same key, and none follows a save that succeeded. */
  lemma RetriesRepeat(actions: seq<Action>, final: bool, j: nat, k: nat)
    requires var log := Run(Initial(), actions, final).log; j < k < |log| && log[k].Sent?
    ensures var log := Run(Initial(), actions, final).log;
      && log[j] != Success
      && (log[j].Sent? && Unrefused(log, j, k) ==> log[j] == log[k])
  {
    hide Run, Apply, Unrefused;
    StaysRepeating(Initial(), actions, final);
  }

  /** If a refusal is not final it fails: a first request is cut off and sent again, the repeat is
      refused, the user changes the form and saves, and then the first request arrives. */
  lemma LateRequestCommitsTwice(x: Body, y: Body)
    ensures var server := Run(Initial(), Late(x, y), false).server; server == map[0 := Committed(x), 1 := Committed(y)]
  {
    hide Run;
    var e := Opened().(key := Some(0), body := Some(x));
    var f := Opened().(key := Some(1), body := Some(y), waiting := true);
    var s1 := State(e.(waiting := true), 1, map[], [Sent(0, x)]);
    var s2 := s1.(editor := e);
    var s3 := State(e.(waiting := true), 1, map[], [Sent(0, x), Sent(0, x)]);
    var s4 := s3.(server := map[0 := Refused]);
    var s5 := State(Opened(), 1, map[0 := Refused], s3.log + [Refusal]);
    var s6 := s5.(server := map[0 := Committed(x)]);
    var s7 := State(f, 2, s6.server, s5.log + [Sent(1, y)]);
    assert map[0 := Refused][0 := Committed(x)] == map[0 := Committed(x)];
    var r7: seq<Action> := [Deliver(3, true)] + [];
    var r6 := [Click(Some(y))] + r7;
    var r5 := [Deliver(0, true)] + r6;
    var r4 := [Answer(Rejected)] + r5;
    var r3 := [Deliver(1, false)] + r4;
    var r2 := [Click(None)] + r3;
    Next(Initial(), Click(Some(x)), s1, [Answer(Uncertain)] + r2);
    Next(s1, Answer(Uncertain), s2, r2);
    Next(s2, Click(None), s3, r3);
    Next(s3, Deliver(1, false), s4, r4);
    Next(s4, Answer(Rejected), s5, r5);
    Next(s5, Deliver(0, true), s6, r6);
    Next(s6, Click(Some(y)), s7, r7);
    Next(s7, Deliver(3, true), s7.(server := map[0 := Committed(x), 1 := Committed(y)]), []);
    Finished(s7.(server := map[0 := Committed(x), 1 := Committed(y)]));
  }

  function Late(x: Body, y: Body): seq<Action> {
    [Click(Some(x))] + ([Answer(Uncertain)] + ([Click(None)] + ([Deliver(1, false)] + ([Answer(Rejected)]
    + ([Deliver(0, true)] + ([Click(Some(y))] + ([Deliver(3, true)] + [])))))))
  }

  lemma Finished(s: State)
    ensures Run(s, [], false) == s
  {
  }

  lemma Next(s: State, a: Action, t: State, rest: seq<Action>)
    requires Apply(s, a, false) == t
    ensures Run(s, [a] + rest, false) == Run(t, rest, false)
  {
    assert ([a] + rest)[1..] == rest;
  }

  /** Every run commits at most one draft. */
  ghost predicate OneDraft(final: bool) {
    forall actions: seq<Action>, j: Key, k: Key ::
      var server := Run(Initial(), actions, final).server;
      j in server && k in server && server[j].Committed? && server[k].Committed? ==> j == k
  }

  /** At most one draft, in every run, if and only if a refusal of a key is final. */
  lemma OneDraftExactly(final: bool)
    ensures OneDraft(final) <==> final
  {
    hide Run, Apply, Initial;
    if final {
      forall actions: seq<Action>, j: Key, k: Key |
        var server := Run(Initial(), actions, final).server;
        j in server && k in server && server[j].Committed? && server[k].Committed?
        ensures j == k
      {
        AtMostOneDraft(actions, j, k);
      }
    } else {
      LateRequestCommitsTwice("", "");
      var server := Run(Initial(), Late("", ""), final).server;
      assert 0 in server && 1 in server && server[0].Committed? && server[1].Committed?;
    }
  }
}
