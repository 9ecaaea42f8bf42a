/** The request-body ceiling around an arbitrary application:
    backend/src/ragz/api/security_middleware.py. */
module BodyLimit {
  import opened Prelude

  type Byte = bv8

  /** What the server hands over: a piece of the body, or some other message (a disconnect). */
  datatype InMessage = Request(body: seq<Byte>) | OtherIn

  datatype OutMessage = Start(status: nat) | Piece(body: string) | OtherOut

  /** The application receives and sends in any order; a send may fail on its way out. */
  datatype Action = Receive(incoming: InMessage) | Send(outgoing: OutMessage, reached: bool)

  /** It may catch the limiter's signal and go on. In the end it returns, lets the signal escape, or
      raises something else. */
  datatype Ending = Return | Escape | Fail
  datatype App = App(actions: seq<Action>, ending: Ending)

  datatype Scope = Scope(http: bool, headers: seq<(string, string)>)

  /** What the application got, what went out on the wire, and how the wrapped call ended. */
  datatype Run = Run(passed: seq<InMessage>, wire: seq<OutMessage>, ending: Ending)

  // ---------------------------------------------------------------- reference

  function Size(a: Action): nat { if a.Receive? && a.incoming.Request? then |a.incoming.body| else 0 }

  function Bytes(actions: seq<Action>): nat { Total(Size, actions) }

  function MessageSize(m: InMessage): nat { if m.Request? then |m.body| else 0 }

  function Received(actions: seq<Action>): seq<InMessage> {
    if actions == [] then []
    else Received(actions[..|actions| - 1]) + (var a := actions[|actions| - 1]; if a.Receive? then [a.incoming] else [])
  }

  /** A body message gets through exactly when everything received up to and including it fits. */
  function Passed(max: nat, actions: seq<Action>): seq<InMessage> {
    if actions == [] then []
    else
      var a := actions[|actions| - 1];
      Passed(max, actions[..|actions| - 1])
      + if a.Receive? && (a.incoming.Request? ==> Bytes(actions) <= max) then [a.incoming] else []
  }

  function Sent(actions: seq<Action>): seq<OutMessage> {
    if actions == [] then []
    else
      var a := actions[|actions| - 1];
      Sent(actions[..|actions| - 1]) + if a.Send? && a.reached then [a.outgoing] else []
  }

  /** The application tried to start a response. */
  predicate Starts(actions: seq<Action>) {
    exists i :: 0 <= i < |actions| && actions[i].Send? && actions[i].outgoing.Start?
  }

  function StartCount(wire: seq<OutMessage>): nat { Total(StartWeight, wire) }

  function StartWeight(m: OutMessage): nat { if m.Start? then 1 else 0 }

  function TooLarge(detail: string): seq<OutMessage> { [Start(413), Piece(detail)] }

  /** dict(headers): the last value of a repeated name. */
  function LastValue(headers: seq<(string, string)>, name: string): Option<string> {
    if headers == [] then None
    else
      var last := headers[|headers| - 1];
      if last.0 == name then Some(last.1) else LastValue(headers[..|headers| - 1], name)
  }

  /** The declared length, when the header is there and parses. */
  function Declared(headers: seq<(string, string)>, parse: string -> Option<int>): Option<int> {
    match LastValue(headers, "content-length")
    case None => None
    case Some(text) => parse(text)
  }

  /** The wrapped call, as promised. */
  function Wrapped(max: nat, detail: string, scope: Scope, parse: string -> Option<int>, app: App): Run {
    if !scope.http then Run(Received(app.actions), Sent(app.actions), app.ending)
    else
      var declared := Declared(scope.headers, parse);
      if declared.Some? && declared.value > max then Run([], TooLarge(detail), Return)
      else if app.ending.Escape? && !Starts(app.actions) then
        Run(Passed(max, app.actions), Sent(app.actions) + TooLarge(detail), Return)
      else Run(Passed(max, app.actions), Sent(app.actions), app.ending)
  }

  // ---------------------------------------------------------------- the middleware

  class Limiter {
    const maxBytes: nat
    const detail: string
    var seen: nat
    var responseStarted: bool
    var passed: seq<InMessage>
    var wire: seq<OutMessage>

    constructor (maxBytes: nat, detail: string)
      ensures this.maxBytes == maxBytes && this.detail == detail && passed == [] && wire == []
    {
      this.maxBytes, this.detail := maxBytes, detail;
      seen, responseStarted, passed, wire := 0, false, [], [];
    }

    /** limited_receive: true when the message goes on to the application, false when it raises. */
    method LimitedReceive(message: InMessage) returns (delivered: bool)
      modifies this
      ensures seen == old(seen) + MessageSize(message)
      ensures delivered <==> (message.Request? ==> seen <= maxBytes)
      ensures passed == (if delivered then old(passed) + [message] else old(passed))
      ensures wire == old(wire) && responseStarted == old(responseStarted)
    {
      if message.Request? {
        seen := seen + |message.body|;
        if seen > maxBytes {
          return false;
        }
      }
      passed := passed + [message];
      return true;
    }

    /** tracking_send: the flag is set before the message is handed on. */
    method TrackingSend(message: OutMessage, reached: bool)
      modifies this
      ensures responseStarted == (old(responseStarted) || message.Start?)
      ensures wire == (if reached then old(wire) + [message] else old(wire))
      ensures passed == old(passed) && seen == old(seen)
    {
      if message.Start? {
        responseStarted := true;
      }
      if reached {
        wire := wire + [message];
      }
    }

    method Send413()
      modifies this
      ensures wire == old(wire) + TooLarge(detail)
      ensures passed == old(passed) && seen == old(seen) && responseStarted == old(responseStarted)
    {
      wire := wire + [Start(413)];
      wire := wire + [Piece(detail)];
    }

    /** __call__ on a fresh connection. */
    method Call(scope: Scope, parse: string -> Option<int>, app: App) returns (ending: Ending)
      requires passed == [] && wire == []
      modifies this
      ensures Run(passed, wire, ending) == Wrapped(maxBytes, detail, scope, parse, app)
    {
      var actions := app.actions;
      if !scope.http {
        PassThrough(app.actions);
        return app.ending;
      }
      var declared := Declared(scope.headers, parse);
      if declared.Some? && declared.value > maxBytes {
        Send413();
        return Return;
      }
      Application(actions);
      if app.ending.Escape? && !responseStarted {
        Send413();
        return Return;
      }
      return app.ending;
    }

    /** The application behind the two wrappers, up to its end. */
    method Application(actions: seq<Action>)
      requires passed == [] && wire == []
      modifies this
      ensures responseStarted == Starts(actions)
      ensures passed == Passed(maxBytes, actions) && wire == Sent(actions)
    {
      seen := 0;
      responseStarted := false;
      NoneYet(maxBytes, actions);
      hide Bytes, Starts, Passed, Sent;
      for i := 0 to |actions|
        invariant seen == Bytes(actions[..i])
        invariant responseStarted == Starts(actions[..i])
        invariant passed == Passed(maxBytes, actions[..i]) && wire == Sent(actions[..i])
      {
        PrefixStep(actions, i);
        WrappedStep(maxBytes, actions, i);
        match actions[i] {
          case Receive(message) =>
            var _ := LimitedReceive(message);
          case Send(message, reached) =>
            TrackingSend(message, reached);
        }
      }
      assert actions[..|actions|] == actions;
    }

    /** Any other scope: the application talks to the server directly. */
    method PassThrough(actions: seq<Action>)
      requires passed == [] && wire == []
      modifies this
      ensures passed == Received(actions) && wire == Sent(actions)
    {
      for i := 0 to |actions|
        invariant passed == Received(actions[..i]) && wire == Sent(actions[..i])
      {
        PrefixStep(actions, i);
        match actions[i] {
          case Receive(message) => passed := passed + [message];
          case Send(message, reached) => wire := if reached then wire + [message] else wire;
        }
      }
      assert actions[..|actions|] == actions;
    }
  }

  lemma NoneYet(max: nat, actions: seq<Action>)
    ensures actions[..0] == [] && Bytes([]) == 0 && !Starts([]) && Passed(max, []) == [] && Sent([]) == []
  {
  }

  lemma WrappedStep(max: nat, actions: seq<Action>, i: nat)
    requires i < |actions|
    ensures var a, now := actions[i], actions[..i + 1];
      && Passed(max, now) == (Passed(max, actions[..i])
           + if a.Receive? && (a.incoming.Request? ==> Bytes(now) <= max) then [a.incoming] else [])
      && Sent(now) == Sent(actions[..i]) + if a.Send? && a.reached then [a.outgoing] else []
  {
    hide Bytes;
    assert actions[..i + 1][..i] == actions[..i];
  }

  lemma PrefixStep(actions: seq<Action>, i: nat)
    requires i < |actions|
    ensures actions[..i + 1] == actions[..i] + [actions[i]]
    ensures actions[..i + 1][..i] == actions[..i]
    ensures Bytes(actions[..i + 1]) == Bytes(actions[..i]) + Size(actions[i])
    ensures Starts(actions[..i + 1]) <==> (Starts(actions[..i]) || (actions[i].Send? && actions[i].outgoing.Start?))
  {
    TotalAppended(Size, actions[..i], actions[i]);
    if Starts(actions[..i]) {
      var k :| 0 <= k < i && actions[..i][k].Send? && actions[..i][k].outgoing.Start?;
      assert actions[..i + 1][k] == actions[k];
    }
    assert actions[..i + 1][i] == actions[i];
  }

  // ---------------------------------------------------------------- what reaches the application

  lemma PassedStep(max: nat, actions: seq<Action>, n: nat)
    requires n == |actions| - 1
    ensures var kept := Passed(max, actions[..n]);
      var a := actions[n];
      Total(MessageSize, Passed(max, actions))
        == Total(MessageSize, kept)
           + (if a.Receive? && (a.incoming.Request? ==> Bytes(actions) <= max) then Size(a) else 0)
  {
    var kept := Passed(max, actions[..n]);
    if actions[n].Receive? {
      TotalAppended(MessageSize, kept, actions[n].incoming);
    }
    assert kept + [] == kept;
  }

  lemma {:induction false} PassedFits(max: nat, actions: seq<Action>)
    ensures Total(MessageSize, Passed(max, actions)) <= max
    ensures Total(MessageSize, Passed(max, actions)) <= Bytes(actions)
    ensures Bytes(actions) <= max ==> Passed(max, actions) == Received(actions)
    decreases |actions|
  {
    if actions != [] {
      var n := |actions| - 1;
      PrefixStep(actions, n);
      assert actions[..n + 1] == actions;
      PassedFits(max, actions[..n]);
      PassedStep(max, actions, n);
    }
  }

  lemma {:induction false} ReceivedBytes(actions: seq<Action>)
    ensures Total(MessageSize, Received(actions)) == Bytes(actions)
    decreases |actions|
  {
    if actions != [] {
      var n := |actions| - 1;
      PrefixStep(actions, n);
      assert actions[..n + 1] == actions;
      ReceivedBytes(actions[..n]);
      if actions[n].Receive? {
        TotalAppended(MessageSize, Received(actions[..n]), actions[n].incoming);
      }
      assert Received(actions[..n]) + [] == Received(actions[..n]);
    }
  }

  /** Whatever the application does, even when it catches the signal and reads on, the body bytes it
      gets never exceed the ceiling. */
  lemma DeliveredBounded(max: nat, detail: string, scope: Scope, parse: string -> Option<int>, app: App)
    requires scope.http
    ensures Total(MessageSize, Wrapped(max, detail, scope, parse, app).passed) <= max
  {
    PassedFits(max, app.actions);
  }

  lemma {:induction false} BytesGrow(actions: seq<Action>, i: nat, j: nat)
    requires i <= j <= |actions|
    ensures Bytes(actions[..i]) <= Bytes(actions[..j])
    decreases j
  {
    if i < j {
      PrefixStep(actions, j - 1);
      BytesGrow(actions, i, j - 1);
    }
  }

  /** Once one body message has been refused every later one is, empty ones included: nothing is
      delivered any more but messages of other kinds. */
  lemma {:induction false} NothingAfterCrossing(max: nat, actions: seq<Action>, i: nat)
    requires i <= |actions| && Bytes(actions[..i]) > max
    ensures |Passed(max, actions[..i])| <= |Passed(max, actions)|
    ensures Passed(max, actions)[..|Passed(max, actions[..i])|] == Passed(max, actions[..i])
    ensures forall m :: m in Passed(max, actions)[|Passed(max, actions[..i])|..] ==> !m.Request?
    decreases |actions|
  {
    if i == |actions| {
      assert actions[..i] == actions;
    } else {
      var n := |actions| - 1;
      assert actions[..n][..i] == actions[..i];
      NothingAfterCrossing(max, actions[..n], i);
      BytesGrow(actions, i, |actions|);
      assert actions[..|actions|] == actions;
    }
  }

  /** The messages that are no piece of the body. */
  function NoBody(messages: seq<InMessage>): seq<InMessage> {
    if messages == [] then []
    else
      var last := messages[|messages| - 1];
      NoBody(messages[..|messages| - 1]) + if last.Request? then [] else [last]
  }

  /** Exactly what gets through: everything up to the piece that crosses the ceiling, then only messages
      that are no piece of the body. */
  lemma {:induction false} PassedExactly(max: nat, actions: seq<Action>, i: nat)
    requires i < |actions| && Bytes(actions[..i]) <= max < Bytes(actions[..i + 1])
    ensures Passed(max, actions) == Received(actions[..i]) + NoBody(Received(actions[i..]))
    decreases |actions|
  {
    hide Passed, Received, NoBody, Bytes;
    var n := |actions| - 1;
    assert actions[..n + 1] == actions;
    PassedSnoc(max, actions);
    LaterSnoc(actions, i);
    if i == n {
      CrossingIsBody(max, actions);
      PassedFits(max, actions[..i]);
    } else {
      assert actions[..n][..i] == actions[..i] && actions[..n][..i + 1] == actions[..i + 1];
      PassedExactly(max, actions[..n], i);
      BytesGrow(actions, i + 1, |actions|);
    }
  }

  lemma CrossingIsBody(max: nat, actions: seq<Action>)
    requires actions != [] && Bytes(actions[..|actions| - 1]) <= max < Bytes(actions)
    ensures var last := actions[|actions| - 1]; last.Receive? && last.incoming.Request?
  {
    PrefixStep(actions, |actions| - 1);
    assert actions[..|actions|] == actions;
  }

  lemma PassedSnoc(max: nat, actions: seq<Action>)
    requires actions != []
    ensures var last, before := actions[|actions| - 1], Passed(max, actions[..|actions| - 1]);
      Passed(max, actions) == if last.Receive? && (last.incoming.Request? ==> Bytes(actions) <= max)
                              then before + [last.incoming] else before
  {
  }

  lemma LaterSnoc(actions: seq<Action>, i: nat)
    requires i < |actions|
    ensures var n := |actions| - 1;
      NoBody(Received(actions[i..]))
        == (if i == n then [] else NoBody(Received(actions[..n][i..])))
           + if actions[n].Receive? && !actions[n].incoming.Request? then [actions[n].incoming] else []
  {
    var n := |actions| - 1;
    var later := actions[i..];
    assert later[..|later| - 1] == actions[..n][i..] && later[|later| - 1] == actions[n];
    var before := Received(actions[..n][i..]);
    assert i == n ==> before == [];
    if actions[n].Receive? {
      assert (before + [actions[n].incoming])[..|before|] == before;
    } else {
      assert before + [] == before && NoBody(before) + [] == NoBody(before);
    }
  }

  // ---------------------------------------------------------------- what goes out

  lemma {:induction false} NoStartSent(actions: seq<Action>)
    requires !Starts(actions)
    ensures StartCount(Sent(actions)) == 0
    decreases |actions|
  {
    if actions != [] {
      var n := |actions| - 1;
      PrefixStep(actions, n);
      assert actions[..n + 1] == actions;
      NoStartSent(actions[..n]);
      if actions[n].Send? {
        TotalAppended(StartWeight, Sent(actions[..n]), actions[n].outgoing);
      }
      assert Sent(actions[..n]) + [] == Sent(actions[..n]);
    }
  }

  lemma TooLargeStarts(wire: seq<OutMessage>, detail: string)
    ensures StartCount(wire + TooLarge(detail)) == StartCount(wire) + 1
  {
    TotalAppended(StartWeight, wire, Start(413));
    TotalAppended(StartWeight, wire + [Start(413)], Piece(detail));
    assert wire + TooLarge(detail) == wire + [Start(413)] + [Piece(detail)];
  }

  /** The limiter adds a response of its own only where the application tried none: an application that
      starts at most one response leaves at most one on the wire. */
  lemma OneResponse(max: nat, detail: string, scope: Scope, parse: string -> Option<int>, app: App)
    requires StartCount(Sent(app.actions)) <= 1
    ensures StartCount(Wrapped(max, detail, scope, parse, app).wire) <= 1
  {
    TooLargeStarts([], detail);
    assert [] + TooLarge(detail) == TooLarge(detail);
    TooLargeStarts(Sent(app.actions), detail);
    if !Starts(app.actions) {
      NoStartSent(app.actions);
    }
  }

  /** The signal is the limiter's own: it can only escape after a body message was refused. */
  predicate Plausible(max: nat, app: App) { app.ending.Escape? ==> Bytes(app.actions) > max }

  predicate DeclaredTooLarge(max: nat, scope: Scope, parse: string -> Option<int>) {
    Declared(scope.headers, parse).Some? && Declared(scope.headers, parse).value > max
  }

  /** A crossing that no one catches: one 413 and a normal return if no response had been tried, and
      otherwise the signal goes on and nothing is added. */
  lemma UncaughtCrossing(max: nat, detail: string, scope: Scope, parse: string -> Option<int>, app: App)
    requires scope.http && !DeclaredTooLarge(max, scope, parse)
    requires app.ending.Escape? && Plausible(max, app)
    ensures var run := Wrapped(max, detail, scope, parse, app);
      && (run.ending.Return? <==> !Starts(app.actions)) && !run.ending.Fail?
      && (run.ending.Return? ==> StartCount(run.wire) == 1 && |run.wire| >= 2 && run.wire[|run.wire| - 2] == Start(413))
      && (run.ending.Escape? ==> run.wire == Sent(app.actions))
  {
    if !Starts(app.actions) {
      NoStartSent(app.actions);
      TooLargeStarts(Sent(app.actions), detail);
    }
  }

  /** Over the declared length the application is not even called: nothing is read from the request. */
  lemma DeclaredRefused(max: nat, detail: string, scope: Scope, parse: string -> Option<int>, app: App)
    requires scope.http && DeclaredTooLarge(max, scope, parse)
    ensures var run := Wrapped(max, detail, scope, parse, app);
      run.passed == [] && run.ending.Return? && StartCount(run.wire) == 1 && run.wire[0] == Start(413)
  {
    TooLargeStarts([], detail);
    assert [] + TooLarge(detail) == TooLarge(detail);
  }

  lemma {:induction false} LastLength(pre: seq<(string, string)>, text: string, post: seq<(string, string)>)
    requires forall h :: h in post ==> h.0 != "content-length"
    ensures LastValue(pre + [("content-length", text)] + post, "content-length") == Some(text)
    decreases |post|
  {
    var all := pre + [("content-length", text)] + post;
    if post == [] {
      assert all[|all| - 1] == ("content-length", text);
    } else {
      assert all[..|all| - 1] == pre + [("content-length", text)] + post[..|post| - 1];
      assert all[|all| - 1] == post[|post| - 1];
      LastLength(pre, text, post[..|post| - 1]);
    }
  }

  /** The last content-length header decides: over the ceiling there is one 413 and the application is not
      called; up to it, or when it is no number, the call goes on as if nothing had been declared. */
  lemma LastLengthCounts(max: nat, detail: string, parse: string -> Option<int>, app: App,
                         pre: seq<(string, string)>, text: string, post: seq<(string, string)>)
    requires forall h :: h in post ==> h.0 != "content-length"
    ensures Wrapped(max, detail, Scope(true, pre + [("content-length", text)] + post), parse, app)
      == if parse(text).Some? && parse(text).value > max then Run([], [Start(413), Piece(detail)], Return)
         else Wrapped(max, detail, Scope(true, []), parse, app)
  {
    LastLength(pre, text, post);
  }

  lemma {:induction false} NoLength(max: nat, detail: string, parse: string -> Option<int>, app: App,
                                    headers: seq<(string, string)>)
    requires forall h :: h in headers ==> h.0 != "content-length"
    ensures LastValue(headers, "content-length") == None
    ensures Wrapped(max, detail, Scope(true, headers), parse, app)
      == Wrapped(max, detail, Scope(true, []), parse, app)
    decreases |headers|
  {
    if headers != [] {
      NoLength(max, detail, parse, app, headers[..|headers| - 1]);
    }
  }

  /** Unless the declared length is too large, the limiter is invisible exactly when the body fits, and
      it always is outside HTTP: every message passes unchanged, nothing is added, and the call ends as the
      application ended it. */
  lemma InvisibleExactly(max: nat, detail: string, scope: Scope, parse: string -> Option<int>, app: App)
    requires scope.http ==> !DeclaredTooLarge(max, scope, parse) && Plausible(max, app)
    ensures Wrapped(max, detail, scope, parse, app) == Run(Received(app.actions), Sent(app.actions), app.ending)
      <==> !scope.http || Bytes(app.actions) <= max
  {
    PassedFits(max, app.actions);
    ReceivedBytes(app.actions);
  }

  // ---------------------------------------------------------------- the ceiling

  const CEILING_MIN_MB := 25
  const CEILING_MARGIN_MB := 10
  const MB: nat := 1024 * 1024

  function CeilingBytes(maxUploadMb: int): (r: nat)
    ensures maxUploadMb <= 25 ==> r == 36_700_160
    ensures maxUploadMb >= 25 ==> r == 1_048_576 * maxUploadMb + 10_485_760
  {
    ((if maxUploadMb < CEILING_MIN_MB then CEILING_MIN_MB else maxUploadMb) + CEILING_MARGIN_MB) * MB
  }

  /** The global ceiling never clips an upload that its own route would accept: a file of up to
      max_upload_mb with up to ten megabytes of framing, its length declared truthfully or not at all. */
  lemma UploadsPass(maxUploadMb: int, detail: string, scope: Scope, parse: string -> Option<int>, app: App,
                    file: nat, framing: nat)
    requires scope.http && Plausible(CeilingBytes(maxUploadMb), app)
    requires file <= maxUploadMb * MB && framing <= CEILING_MARGIN_MB * MB && Bytes(app.actions) <= file + framing
    requires Declared(scope.headers, parse).Some? ==> Declared(scope.headers, parse).value <= file + framing
    ensures Wrapped(CeilingBytes(maxUploadMb), detail, scope, parse, app)
      == Run(Received(app.actions), Sent(app.actions), app.ending)
  {
    InvisibleExactly(CeilingBytes(maxUploadMb), detail, scope, parse, app);
  }
}
