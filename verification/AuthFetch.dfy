/** Fetching with a shared token refresh: frontend/src/api/client.ts. Every segment of code between
    two awaits is one event; events of different calls interleave in any order. */
module AuthFetch {
  import opened Prelude

  /** How a refresh ends: a new token, a refusal (resolves false), or a rejected promise. */
  datatype Outcome = Renewed | Refused | Failed

  /** A refresh: request sent, body being read, promise settled, slot cleared by its finally. */
  datatype Flight = Requested | Reading | Settled(outcome: Outcome) | Cleared(outcome: Outcome)

  datatype Reply = Status(code: nat) | NetworkError

  datatype Phase = Sending | Waiting | Retrying | Done(result: Reply)

  /** One authFetch call: the bearer of each request it sent, the answers to them, the refreshes it
      joined, what they told it, and how often it fired the failure callback. */
  datatype Call = Call(path: string, phase: Phase, sent: seq<Option<string>>, answers: seq<Reply>,
                       joined: seq<nat>, heard: Option<Outcome>, signals: nat)

  datatype State = State(slot: Option<nat>, token: Option<string>, flights: seq<Flight>, calls: seq<Call>,
                         failures: nat)

  const NO_REFRESH: set<string> := {
    "/api/v1/auth/login", "/api/v1/auth/refresh", "/api/v1/auth/invitations/accept", "/api/v1/auth/change-password"
  }

  datatype RefreshReply = Accepted | Denied | Unreachable

  datatype Event =
    | Begin(path: string)
    | Answer(call: nat, reply: Reply)
    | RefreshAnswer(flight: nat, refreshReply: RefreshReply)
    | Body(flight: nat, access: Option<string>)
    | Finally(flight: nat)
    | Resume(call: nat)
    | OtherRefresh
    | OtherToken(newToken: Option<string>)

  predicate Enabled(s: State, e: Event) {
    match e
    case Begin(_) => true
    case Answer(c, _) => c < |s.calls| && (s.calls[c].phase.Sending? || s.calls[c].phase.Retrying?)
    case RefreshAnswer(f, _) => f < |s.flights| && s.flights[f].Requested?
    case Body(f, _) => f < |s.flights| && s.flights[f].Reading?
    case Finally(f) => f < |s.flights| && s.flights[f].Settled?
    case Resume(c) =>
      c < |s.calls| && s.calls[c].phase.Waiting? && |s.calls[c].joined| > 0
      && (var f := s.calls[c].joined[|s.calls[c].joined| - 1]; f < |s.flights| && s.flights[f].Cleared?)
    case OtherRefresh => true
    case OtherToken(_) => true
  }

  /** The flight a caller of refreshAccessToken gets: the one in the slot, or a new one. */
  function Joining(s: State): nat { if s.slot.Some? then s.slot.value else |s.flights| }

  function Joined(s: State): State {
    if s.slot.Some? then s else s.(slot := Some(|s.flights|), flights := s.flights + [Requested])
  }

  /** The empty token sends no header either. */
  function Bearer(token: Option<string>): Option<string> { if token == Some("") then None else token }

  function OutcomeOf(access: Option<string>): Outcome {
    if access.Some? && access.value != "" then Renewed else Refused
  }

  function After(s: State, e: Event): State
    requires Enabled(s, e)
  {
    match e
    case Begin(path) => s.(calls := s.calls + [Call(path, Sending, [Bearer(s.token)], [], [], None, 0)])
    case Answer(c, reply) =>
      var call := s.calls[c].(answers := s.calls[c].answers + [reply]);
      if call.phase.Sending? && reply == Status(401) && call.path !in NO_REFRESH then
        var t := Joined(s);
        t.(calls := s.calls[c := call.(phase := Waiting, joined := call.joined + [Joining(s)])])
      else s.(calls := s.calls[c := call.(phase := Done(reply))])
    case RefreshAnswer(f, Accepted) => s.(flights := s.flights[f := Reading])
    case RefreshAnswer(f, Denied) => s.(flights := s.flights[f := Settled(Refused)], token := None)
    case RefreshAnswer(f, Unreachable) => s.(flights := s.flights[f := Settled(Failed)])
    case Body(f, access) =>
      var outcome := OutcomeOf(access);
      s.(flights := s.flights[f := Settled(outcome)], token := if outcome.Renewed? then access else None)
    case Finally(f) => s.(flights := s.flights[f := Cleared(s.flights[f].outcome)], slot := None)
    case Resume(c) =>
      var call := s.calls[c];
      var outcome := s.flights[call.joined[|call.joined| - 1]].outcome;
      var told := call.(heard := Some(outcome));
      match outcome {
        case Renewed => s.(calls := s.calls[c := told.(phase := Retrying, sent := call.sent + [Bearer(s.token)])])
        case Refused => s.(calls := s.calls[c := told.(phase := Done(Status(401)), signals := call.signals + 1)],
                           failures := s.failures + 1)
        case Failed => s.(calls := s.calls[c := told.(phase := Done(NetworkError))])
      }
    case OtherRefresh => Joined(s)
    case OtherToken(t) => s.(token := t)
  }

  /** The module's variables, changed in place across the awaits. */
  class Client {
    var refreshInFlight: Option<nat>
    var accessToken: Option<string>
    var flights: seq<Flight>
    var calls: seq<Call>
    var failures: nat

    function Now(): State
      reads this
    {
      State(refreshInFlight, accessToken, flights, calls, failures)
    }

    constructor (token: Option<string>)
      ensures Now() == Initial(token)
    {
      refreshInFlight, accessToken, flights, calls, failures := None, token, [], [], 0;
    }

    method RefreshAccessToken() returns (flight: nat)
      modifies this
      ensures Now() == After(old(Now()), OtherRefresh)
      ensures flight == Joining(old(Now())) && refreshInFlight == Some(flight)
    {
      if refreshInFlight.None? {
        refreshInFlight := Some(|flights|);
        flights := flights + [Requested];
      }
      flight := refreshInFlight.value;
    }

    /** authFetch up to its first await: the request goes out with the current token. */
    method Start(path: string)
      modifies this
      ensures Now() == After(old(Now()), Begin(path))
    {
      calls := calls + [Call(path, Sending, [Bearer(accessToken)], [], [], None, 0)];
    }

    /** authFetch from the answer of a send to its next await or its end. */
    method Answered(c: nat, reply: Reply)
      requires Enabled(Now(), Answer(c, reply))
      modifies this
      ensures Now() == After(old(Now()), Answer(c, reply))
    {
      var call := calls[c].(answers := calls[c].answers + [reply]);
      if call.phase.Sending? && reply == Status(401) && call.path !in NO_REFRESH {
        var flight := RefreshAccessToken();
        calls := calls[c := call.(phase := Waiting, joined := call.joined + [flight])];
      } else {
        calls := calls[c := call.(phase := Done(reply))];
      }
    }

    /** doRefresh from the answer of its request. */
    method RefreshAnswered(f: nat, reply: RefreshReply)
      requires Enabled(Now(), RefreshAnswer(f, reply))
      modifies this
      ensures Now() == After(old(Now()), RefreshAnswer(f, reply))
    {
      match reply {
        case Accepted => flights := flights[f := Reading];
        case Denied => accessToken := None; flights := flights[f := Settled(Refused)];
        case Unreachable => flights := flights[f := Settled(Failed)];
      }
    }

    /** doRefresh from its parsed body: the token it names, if that is a string. */
    method BodyRead(f: nat, access: Option<string>)
      requires Enabled(Now(), Body(f, access))
      modifies this
      ensures Now() == After(old(Now()), Body(f, access))
    {
      if access.None? || access.value == "" {
        accessToken := None;
        flights := flights[f := Settled(Refused)];
      } else {
        accessToken := access;
        flights := flights[f := Settled(Renewed)];
      }
    }

    method RunFinally(f: nat)
      requires Enabled(Now(), Finally(f))
      modifies this
      ensures Now() == After(old(Now()), Finally(f))
    {
      refreshInFlight := None;
      flights := flights[f := Cleared(flights[f].outcome)];
    }

    /** authFetch from the settled refresh it awaited. */
    method Resumed(c: nat)
      requires Enabled(Now(), Resume(c))
      modifies this
      ensures Now() == After(old(Now()), Resume(c))
    {
      var call := calls[c];
      var outcome := flights[call.joined[|call.joined| - 1]].outcome;
      var told := call.(heard := Some(outcome));
      match outcome {
        case Renewed => calls := calls[c := told.(phase := Retrying, sent := call.sent + [Bearer(accessToken)])];
        case Refused =>
          failures := failures + 1;
          calls := calls[c := told.(phase := Done(Status(401)), signals := call.signals + 1)];
        case Failed => calls := calls[c := told.(phase := Done(NetworkError))];
      }
    }
  }

  // ---------------------------------------------------------------- runs

  function Initial(token: Option<string>): State { State(None, token, [], [], 0) }

  /** The states of a run: each event is enabled where it happens. */
  predicate Runs(s: State, events: seq<Event>)
    decreases |events|
  {
    events == [] || (Enabled(s, events[0]) && Runs(After(s, events[0]), events[1..]))
  }

  function End(s: State, events: seq<Event>): State
    requires Runs(s, events)
    decreases |events|
  {
    if events == [] then s else End(After(s, events[0]), events[1..])
  }

  // ---------------------------------------------------------------- invariant

  /** The slot holds exactly the flight that its finally has not cleared yet, and no flight is newer. */
  predicate SlotOk(s: State) {
    && (s.slot.Some? ==> s.slot.value == |s.flights| - 1)
    && (forall f :: 0 <= f < |s.flights| ==> (s.slot == Some(f) <==> !s.flights[f].Cleared?))
  }

  /** What a call has done so far, read off the flight it joined. */
  predicate CallOk(flights: seq<Flight>, c: Call) {
    && (c.joined == [] || (|c.joined| == 1 && c.joined[0] < |flights| && c.path !in NO_REFRESH))
    && (c.joined != [] ==> c.answers != [] && c.answers[0] == Status(401))
    && match c.phase {
         case Sending => c.joined == [] && |c.sent| == 1 && c.answers == [] && c.heard == None && c.signals == 0
         case Waiting => |c.joined| == 1 && |c.sent| == 1 && |c.answers| == 1 && c.heard == None && c.signals == 0
         case Retrying =>
           && |c.joined| == 1 && flights[c.joined[0]] == Cleared(Renewed) && |c.sent| == 2 && |c.answers| == 1
           && c.heard == Some(Renewed) && c.signals == 0
         case Done(result) => EndedOk(flights, c, result)
       }
  }

  predicate EndedOk(flights: seq<Flight>, c: Call, result: Reply)
    requires c.joined == [] || (|c.joined| == 1 && c.joined[0] < |flights|)
  {
    if c.joined == [] then
      && |c.sent| == 1 && c.answers == [result] && c.heard == None && c.signals == 0
      && (result == Status(401) ==> c.path in NO_REFRESH)
    else
      && flights[c.joined[0]].Cleared? && c.heard == Some(flights[c.joined[0]].outcome)
      && |c.sent| == (if c.heard == Some(Renewed) then 2 else 1) && |c.answers| == |c.sent|
      && c.signals == (if c.heard == Some(Refused) then 1 else 0)
      && result == (if c.heard == Some(Failed) then NetworkError else c.answers[|c.answers| - 1])
  }

  function Refusal(c: Call): nat { if c.heard == Some(Refused) then 1 else 0 }

  predicate Inv(s: State) {
    && SlotOk(s) && (forall c :: 0 <= c < |s.calls| ==> CallOk(s.flights, s.calls[c]))
    && s.failures == Total(Refusal, s.calls)
  }

  /** A flight moves on without upsetting any call, as long as it was not cleared before. */
  lemma CallsKept(s: State, t: State)
    requires forall c :: 0 <= c < |s.calls| ==> CallOk(s.flights, s.calls[c])
    requires |s.flights| <= |t.flights|
    requires forall f :: 0 <= f < |s.flights| && s.flights[f].Cleared? ==> t.flights[f] == s.flights[f]
    ensures forall c :: 0 <= c < |s.calls| ==> CallOk(t.flights, s.calls[c])
  {
  }

  lemma StepKeepsSlot(s: State, e: Event)
    requires Inv(s) && Enabled(s, e)
    ensures SlotOk(After(s, e))
  {
    hide CallOk, Total;
  }

  lemma StepKeepsCalls(s: State, e: Event)
    requires Inv(s) && Enabled(s, e)
    ensures var t := After(s, e); forall c :: 0 <= c < |t.calls| ==> CallOk(t.flights, t.calls[c])
  {
    hide Total;
    var t := After(s, e);
    CallsKept(s, t);
    if e.Answer? || e.Resume? {
      assert CallOk(s.flights, s.calls[e.call]);
      assert CallOk(t.flights, t.calls[e.call]);
    }
  }

  lemma StepKeepsCount(s: State, e: Event)
    requires Inv(s) && Enabled(s, e)
    ensures After(s, e).failures == Total(Refusal, After(s, e).calls)
  {
    hide SlotOk, Total;
    var t := After(s, e);
    if e.Answer? || e.Resume? {
      assert CallOk(s.flights, s.calls[e.call]);
      TotalReplaced(Refusal, s.calls, e.call, t.calls[e.call]);
    } else if e.Begin? {
      TotalAppended(Refusal, s.calls, t.calls[|s.calls|]);
    }
  }

  lemma StepKeepsInv(s: State, e: Event)
    requires Inv(s) && Enabled(s, e)
    ensures Inv(After(s, e))
  {
    StepKeepsSlot(s, e);
    StepKeepsCalls(s, e);
    StepKeepsCount(s, e);
  }

  lemma {:induction false} RunKeepsInv(s: State, events: seq<Event>)
    requires Inv(s) && Runs(s, events)
    ensures Inv(End(s, events))
    decreases |events|
  {
    if events != [] {
      StepKeepsInv(s, events[0]);
      RunKeepsInv(After(s, events[0]), events[1..]);
    }
  }

  // ---------------------------------------------------------------- safety over every run

  lemma ReachableInv(token: Option<string>, events: seq<Event>)
    requires Runs(Initial(token), events)
    ensures Inv(End(Initial(token), events))
  {
    RunKeepsInv(Initial(token), events);
  }

  predicate Outstanding(f: Flight) { f.Requested? || f.Reading? }

  /** At most one refresh is outstanding at any time, and it is the one later callers will join. */
  lemma OneRefreshOutstanding(token: Option<string>, events: seq<Event>)
    requires Runs(Initial(token), events)
    ensures var s := End(Initial(token), events);
      forall f :: 0 <= f < |s.flights| && Outstanding(s.flights[f]) ==> s.slot == Some(f)
  {
    ReachableInv(token, events);
  }

  /** Where a 401 is a real answer and not an expired token. */
  predicate FinalAnswer(path: string) {
    || path == "/api/v1/auth/login" || path == "/api/v1/auth/refresh"
    || path == "/api/v1/auth/invitations/accept" || path == "/api/v1/auth/change-password"
  }

  /** Every call sends at most two requests, the second only after a renewal; it joins a refresh, one at
      most, exactly when its first answer is a 401 on a path where that is not the answer; it fires the
      callback at most once, exactly when its refresh returned false and not when it was rejected. */
  lemma EachCallBounded(token: Option<string>, events: seq<Event>, c: nat)
    requires Runs(Initial(token), events) && c < |End(Initial(token), events).calls|
    ensures var call := End(Initial(token), events).calls[c];
      && 1 <= |call.sent| <= 2 && |call.joined| <= 1
      && (|call.sent| == 2 <==> call.heard == Some(Renewed))
      && (call.joined != [] <==> (call.answers != [] && call.answers[0] == Status(401) && !FinalAnswer(call.path)))
      && call.signals == (if call.heard == Some(Refused) then 1 else 0)
  {
    ReachableInv(token, events);
    var s := End(Initial(token), events);
    assert CallOk(s.flights, s.calls[c]);
  }

  /** What the caller gets is the answer to the last request it caused, retry included, except that a
      rejected refresh rejects the call. */
  lemma LastAnswerReturned(token: Option<string>, events: seq<Event>, c: nat)
    requires Runs(Initial(token), events) && c < |End(Initial(token), events).calls|
    ensures var call := End(Initial(token), events).calls[c];
      call.phase.Done? ==>
        |call.answers| == |call.sent| && call.answers != []
        && call.phase.result == if call.heard == Some(Failed) then NetworkError else call.answers[|call.answers| - 1]
  {
    ReachableInv(token, events);
    var s := End(Initial(token), events);
    assert CallOk(s.flights, s.calls[c]);
  }

  /** The callback fired once for each call whose refresh returned false, and at no other time. */
  lemma FailuresCounted(token: Option<string>, events: seq<Event>)
    requires Runs(Initial(token), events)
    ensures var s := End(Initial(token), events); s.failures == Total(Refusal, s.calls)
  {
    ReachableInv(token, events);
  }

  /** Calls that joined the same refresh are told the same thing. */
  lemma SameOutcome(token: Option<string>, events: seq<Event>, c: nat, d: nat)
    requires Runs(Initial(token), events)
    requires var calls := End(Initial(token), events).calls;
      c < |calls| && d < |calls| && calls[c].joined == calls[d].joined && calls[c].heard.Some? && calls[d].heard.Some?
    ensures var calls := End(Initial(token), events).calls; calls[c].heard == calls[d].heard
  {
    ReachableInv(token, events);
    var s := End(Initial(token), events);
    assert CallOk(s.flights, s.calls[c]) && CallOk(s.flights, s.calls[d]);
  }

  /** When a call resumes, its refresh is no longer in the slot: the slot is empty or already holds a
      newer one. */
  lemma SlotClearedFirst(token: Option<string>, events: seq<Event>, c: nat)
    requires Runs(Initial(token), events) && Enabled(End(Initial(token), events), Resume(c))
    ensures var s := End(Initial(token), events);
      s.slot.None? || s.slot.value > s.calls[c].joined[0]
  {
    ReachableInv(token, events);
    var s := End(Initial(token), events);
    assert CallOk(s.flights, s.calls[c]);
  }

  /** Until the finally of the refresh in the slot has run, no other refresh starts, whoever asks: every
      caller in between shares the one round trip. */
  lemma {:induction false} FlightShared(s: State, events: seq<Event>, f: nat)
    requires Inv(s) && Runs(s, events) && s.slot == Some(f) && Finally(f) !in events
    ensures var t := End(s, events); t.slot == Some(f) && |t.flights| == |s.flights|
    decreases |events|
  {
    if events != [] {
      assert events[0] in events;
      StepKeepsInv(s, events[0]);
      StillInSlot(s, events[0], f);
      FlightShared(After(s, events[0]), events[1..], f);
    }
  }

  lemma StillInSlot(s: State, e: Event, f: nat)
    requires Inv(s) && Enabled(s, e) && s.slot == Some(f) && e != Finally(f)
    ensures After(s, e).slot == Some(f) && |After(s, e).flights| == |s.flights|
  {
    hide CallOk;
  }

  lemma {:induction false} RunsSplit(s: State, a: seq<Event>, b: seq<Event>)
    requires Runs(s, a + b)
    ensures Runs(s, a) && Runs(End(s, a), b) && End(s, a + b) == End(End(s, a), b)
    decreases |a|
  {
    hide Enabled, After;
    if a == [] {
      assert a + b == b;
    } else {
      assert (a + b)[1..] == a[1..] + b;
      RunsSplit(After(s, a[0]), a[1..], b);
    }
  }

  lemma RunsOne(s: State, e: Event)
    requires Runs(s, [e])
    ensures Enabled(s, e) && End(s, [e]) == After(s, e)
  {
    hide After, Enabled;
    assert [e][1..] == [];
    assert End(After(s, e), []) == After(s, e);
  }

  /** A call keeps its path, and what it has sent stays as it was sent. */
  lemma {:induction false} CallsStay(s: State, events: seq<Event>)
    requires Runs(s, events)
    ensures |s.calls| <= |End(s, events).calls|
    decreases |events|
  {
    if events != [] {
      CallsStay(After(s, events[0]), events[1..]);
    }
  }

  lemma {:induction false} SentKept(s: State, events: seq<Event>, c: nat)
    requires Runs(s, events) && c < |s.calls|
    ensures c < |End(s, events).calls| && End(s, events).calls[c].path == s.calls[c].path
    ensures s.calls[c].sent <= End(s, events).calls[c].sent
    decreases |events|
  {
    if events != [] {
      hide Runs, End;
      RunsSplit(s, [events[0]], events[1..]);
      assert [events[0]] + events[1..] == events;
      RunsOne(s, events[0]);
      SentStep(s, events[0], c);
      SentKept(After(s, events[0]), events[1..], c);
    }
  }

  lemma SentStep(s: State, e: Event, c: nat)
    requires Enabled(s, e) && c < |s.calls|
    ensures c < |After(s, e).calls| && After(s, e).calls[c].path == s.calls[c].path
    ensures s.calls[c].sent <= After(s, e).calls[c].sent
  {
  }

  /** The header a request carries while this token is in force. */
  predicate Carries(sent: Option<string>, token: Option<string>) {
    if token.Some? && token.value != "" then sent == token else sent.None?
  }

  lemma Around(token: Option<string>, before: seq<Event>, e: Event, later: seq<Event>)
    requires Runs(Initial(token), before + [e] + later)
    ensures Runs(Initial(token), before)
    ensures var s := End(Initial(token), before);
      && Inv(s) && Enabled(s, e) && Runs(After(s, e), later)
      && End(Initial(token), before + [e] + later) == End(After(s, e), later)
  {
    hide Inv, Enabled, After;
    RunsSplit(Initial(token), before + [e], later);
    RunsSplit(Initial(token), before, [e]);
    RunsOne(End(Initial(token), before), e);
    ReachableInv(token, before);
  }

  /** Over every run, the first request of a call carries the token in force when the call began, and what
      it carried never changes afterwards. */
  lemma FirstBearer(token: Option<string>, before: seq<Event>, path: string, later: seq<Event>)
    requires Runs(Initial(token), before + [Begin(path)] + later)
    ensures Runs(Initial(token), before)
    ensures var s, t := End(Initial(token), before), End(Initial(token), before + [Begin(path)] + later);
      var c := |s.calls|;
      && c < |t.calls| && t.calls[c].path == path
      && t.calls[c].sent != [] && Carries(t.calls[c].sent[0], s.token)
  {
    Around(token, before, Begin(path), later);
    var s := End(Initial(token), before);
    hide End, Runs, Enabled, Inv;
    SentKept(After(s, Begin(path)), later, |s.calls|);
  }

  /** And its retry after a renewal carries the token in force when the call was resumed, whoever set it. */
  lemma RetryBearer(token: Option<string>, before: seq<Event>, c: nat, later: seq<Event>)
    requires Runs(Initial(token), before + [Resume(c)] + later)
    ensures Runs(Initial(token), before)
    ensures var s, t := End(Initial(token), before), End(Initial(token), before + [Resume(c)] + later);
      && c < |s.calls| <= |t.calls| && s.calls[c].sent <= t.calls[c].sent
      && |s.calls[c].joined| == 1 && s.calls[c].joined[0] < |s.flights|
      && (s.flights[s.calls[c].joined[0]] == Cleared(Renewed) ==>
            |t.calls[c].sent| == 2 && Carries(t.calls[c].sent[1], s.token))
  {
    Around(token, before, Resume(c), later);
    CallsStay(After(End(Initial(token), before), Resume(c)), later);
    EachCallBounded(token, before + [Resume(c)] + later, c);
    var s := End(Initial(token), before);
    assert CallOk(s.flights, s.calls[c]);
    hide End, Runs, Inv;
    SentKept(After(s, Resume(c)), later, c);
  }

  predicate WritesToken(e: Event) {
    e.OtherToken? || e.Body? || (e.RefreshAnswer? && e.refreshReply.Denied?)
  }

  lemma {:induction false} TokenKept(s: State, events: seq<Event>)
    requires Runs(s, events) && forall i :: 0 <= i < |events| ==> !WritesToken(events[i])
    ensures End(s, events).token == s.token
    decreases |events|
  {
    if events != [] {
      assert !WritesToken(events[0]);
      TokenKept(After(s, events[0]), events[1..]);
    }
  }

  /** The settling event of a flight. */
  predicate Settles(e: Event, f: nat) {
    (e.Body? && e.flight == f) || (e.RefreshAnswer? && e.flight == f && !e.refreshReply.Accepted?)
  }

  /** Unless something else writes the token in between, a call resumes under the token its refresh left:
      a retry carries the new token, a refusal left none, and a rejected refresh left the old one. */
  lemma TokenFollowsRefresh(s: State, e: Event, f: nat, between: seq<Event>, c: nat)
    requires Inv(s) && Enabled(s, e) && Settles(e, f)
    requires Runs(After(s, e), between) && forall i :: 0 <= i < |between| ==> !WritesToken(between[i])
    requires var t := End(After(s, e), between);
      Enabled(t, Resume(c)) && t.calls[c].joined == [f]
    ensures var outcome := End(After(s, e), between).flights[f].outcome;
      && (outcome.Renewed? <==> e.Body? && e.access.Some? && e.access.value != "")
      && (outcome.Failed? <==> e.RefreshAnswer? && e.refreshReply.Unreachable?)
    ensures var t := End(After(s, e), between);
      var call := After(t, Resume(c)).calls[c];
      match t.flights[f].outcome {
        case Renewed =>
          && e.Body? && e.access.Some? && t.token == e.access && call.phase.Retrying?
          && call.sent[|call.sent| - 1] == e.access
        case Refused => t.token == None && call.phase == Done(Status(401)) && call.signals == t.calls[c].signals + 1
        case Failed => t.token == s.token && call.phase == Done(NetworkError)
      }
  {
    TokenKept(After(s, e), between);
    OutcomeKept(After(s, e), between, f);
  }

  /** A settled refresh keeps its outcome. */
  lemma {:induction false} OutcomeKept(s: State, events: seq<Event>, f: nat)
    requires Runs(s, events) && f < |s.flights| && (s.flights[f].Settled? || s.flights[f].Cleared?)
    ensures var t := End(s, events);
      && f < |t.flights| && (t.flights[f].Settled? || t.flights[f].Cleared?)
      && t.flights[f].outcome == s.flights[f].outcome
    decreases |events|
  {
    if events != [] {
      OutcomeKept(After(s, events[0]), events[1..], f);
    }
  }

  // ---------------------------------------------------------------- every call ends

  /** Answers and continuations, as opposed to new calls and outside writes. */
  predicate Internal(e: Event) { !e.Begin? && !e.OtherRefresh? && !e.OtherToken? }

  function CallWork(c: Call): nat {
    match c.phase
    case Sending => 6
    case Waiting => 2
    case Retrying => 1
    case Done(_) => 0
  }

  function FlightWork(f: Flight): nat {
    match f
    case Requested => 3
    case Reading => 2
    case Settled(_) => 1
    case Cleared(_) => 0
  }

  function Work(s: State): nat { Total(CallWork, s.calls) + Total(FlightWork, s.flights) }

  lemma WorkShrinks(s: State, e: Event)
    requires Inv(s) && Enabled(s, e) && Internal(e)
    ensures Work(After(s, e)) < Work(s)
  {
    hide SlotOk, CallOk, Total;
    var t := After(s, e);
    if e.Answer? || e.Resume? {
      TotalReplaced(CallWork, s.calls, e.call, t.calls[e.call]);
      TotalAppended(FlightWork, s.flights, Requested);
    } else {
      TotalReplaced(FlightWork, s.flights, e.flight, t.flights[e.flight]);
    }
  }

  /** No answered call goes round for ever: what is left to do bounds the length of every run. */
  lemma {:induction false} EveryRunEnds(s: State, events: seq<Event>)
    requires Inv(s) && Runs(s, events) && forall i :: 0 <= i < |events| ==> Internal(events[i])
    ensures |events| + Work(End(s, events)) <= Work(s)
    decreases |events|
  {
    if events != [] {
      hide Work;
      assert Internal(events[0]);
      WorkShrinks(s, events[0]);
      StepKeepsInv(s, events[0]);
      EveryRunEnds(After(s, events[0]), events[1..]);
    }
  }

  predicate Quiet(s: State) {
    s.slot.None? && forall c :: 0 <= c < |s.calls| ==> s.calls[c].phase.Done?
  }

  /** Nothing is left waiting: as long as a call is unfinished or the slot taken, some answer or
      continuation can still happen, and once none can, none is. */
  lemma NeverStuck(s: State)
    requires Inv(s)
    ensures (exists e :: Internal(e) && Enabled(s, e)) <==> !Quiet(s)
  {
    if s.slot.Some? {
      var f := s.slot.value;
      var e := NextOf(s, f);
      assert Internal(e) && Enabled(s, e);
    } else if !Quiet(s) {
      var c: nat :| c < |s.calls| && !s.calls[c].phase.Done?;
      assert CallOk(s.flights, s.calls[c]);
      var e := if s.calls[c].phase.Waiting? then Resume(c) else Answer(c, NetworkError);
      assert Internal(e) && Enabled(s, e);
    } else {
      forall e | Internal(e) ensures !Enabled(s, e) {
      }
    }
  }

  /** What the code does next with an uncleared refresh. */
  function NextOf(s: State, f: nat): (e: Event)
    requires f < |s.flights| && !s.flights[f].Cleared?
    ensures Internal(e) && Enabled(s, e)
  {
    match s.flights[f]
    case Requested => RefreshAnswer(f, Unreachable)
    case Reading => Body(f, None)
    case Settled(_) => Finally(f)
  }
}
