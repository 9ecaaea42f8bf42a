/** One engine per event loop: backend/src/ragz/core/db.py and backend/src/ragz/worker/loop.py, for one
    thread of one process. Loops and engines are numbered in the order of their creation. */
module LoopEngines {
  import opened Prelude

  /** `owner` lists, for every engine ever created, the loop it was created for. */
  datatype State = State(engines: map<nat, nat>, slot: Option<nat>, loops: nat, closed: set<nat>, running: Option<nat>,
                         owner: seq<nat>, disposed: set<nat>)

  function Initial(): State { State(map[], None, 0, {}, None, [], {}) }

  // ---------------------------------------------------------------- what each call does

  function Pruned(engines: map<nat, nat>, closed: set<nat>): map<nat, nat> { engines - closed }

  /** get_loop_engine: outside any loop it prunes and then raises. */
  function LookedUp(s: State): State {
    var kept := Pruned(s.engines, s.closed);
    if s.running.None? || s.running.value in kept then s.(engines := kept)
    else s.(engines := kept[s.running.value := |s.owner|], owner := s.owner + [s.running.value])
  }

  /** dispose_loop_engine: the entry goes before the engine is disposed of, so it is gone even when
      disposing raises. */
  function Disposed(s: State): State {
    if s.running.None? || s.running.value !in s.engines then s
    else s.(engines := s.engines - {s.running.value}, disposed := s.disposed + {s.engines[s.running.value]})
  }

  function WithLoop(s: State): State {
    if s.slot.None? || s.slot.value in s.closed then s.(slot := Some(s.loops), loops := s.loops + 1) else s
  }

  /** shutdown. Tasks left over on the loop may look the engine up before or after the pop. */
  function ShutDown(s: State, before: bool, later: bool): State {
    if s.slot.None? || s.slot.value in s.closed then s
    else
      var loop := s.slot.value;
      if s.running == Some(loop) then s
      else if s.running.Some? then s.(closed := s.closed + {loop}, slot := None)
      else
        var entered := s.(running := Some(loop));
        var popped := Disposed(if before then LookedUp(entered) else entered);
        var left := if later then LookedUp(popped) else popped;
        left.(running := None, closed := s.closed + {loop}, slot := None)
  }

  datatype Event =
    | GetLoop
    | RunTask
    | OtherLoop
    | Leave
    | Lookup
    | Dispose
    | Close(loop: nat)
    | Shutdown(before: bool, later: bool)

  /** A refused call (nested run, closing a running loop, disposing outside a loop) changes nothing. */
  function After(s: State, e: Event): State {
    match e
    case GetLoop => WithLoop(s)
    case RunTask => if s.running.Some? then s else var t := WithLoop(s); t.(running := t.slot)
    case OtherLoop => if s.running.Some? then s else s.(loops := s.loops + 1, running := Some(s.loops))
    case Leave => s.(running := None)
    case Lookup => LookedUp(s)
    case Dispose => Disposed(s)
    case Close(l) => if l < s.loops && s.running != Some(l) then s.(closed := s.closed + {l}) else s
    case Shutdown(before, later) => ShutDown(s, before, later)
  }

  function End(s: State, events: seq<Event>): State
    decreases |events|
  {
    if events == [] then s else End(After(s, events[0]), events[1..])
  }

  // ---------------------------------------------------------------- the module globals

  class Process {
    var engines: map<nat, nat>
    var loop: Option<nat>
    var loops: nat
    var closed: set<nat>
    var running: Option<nat>
    var owner: seq<nat>
    var disposed: set<nat>

    function Now(): State
      reads this
    {
      State(engines, loop, loops, closed, running, owner, disposed)
    }

    constructor ()
      ensures Now() == Initial()
    {
      engines, loop, loops, closed, running, owner, disposed := map[], None, 0, {}, None, [], {};
    }

    method GetLoopEngine() returns (engine: Option<nat>)
      modifies this
      ensures Now() == After(old(Now()), Lookup)
      ensures engine.Some? <==> running.Some?
      ensures engine.Some? ==> running.value in engines && engine.value == engines[running.value]
    {
      var dead := set l | l in engines && l in closed;
      while dead != {}
        invariant dead <= closed && engines == old(engines) - (old(engines).Keys * closed - dead)
        invariant Now() == old(Now()).(engines := engines)
        decreases dead
      {
        var l :| l in dead;
        engines := engines - {l};
        dead := dead - {l};
      }
      assert engines == Pruned(old(engines), closed);
      if running.None? {
        return None;
      }
      if running.value !in engines {
        engines := engines[running.value := |owner|];
        owner := owner + [running.value];
      }
      return Some(engines[running.value]);
    }

    method DisposeLoopEngine()
      modifies this
      ensures Now() == After(old(Now()), Dispose)
    {
      if running.Some? && running.value in engines {
        var engine := engines[running.value];
        engines := engines - {running.value};
        disposed := disposed + {engine};
      }
    }

    method GetTaskLoop() returns (current: nat)
      modifies this
      ensures Now() == After(old(Now()), GetLoop)
      ensures loop == Some(current)
      ensures (old(Now()).slot.Some? ==> old(Now()).slot.value < loops) ==> current < loops
    {
      if loop.None? || loop.value in closed {
        loop := Some(loops);
        loops := loops + 1;
      }
      return loop.value;
    }

    /** run up to the first step of its coroutine; false when a loop is already running. */
    method Run() returns (entered: bool)
      modifies this
      ensures Now() == After(old(Now()), RunTask)
      ensures entered <==> old(running).None?
      ensures !entered ==> Now() == old(Now())
      ensures entered ==> running == loop && loop.Some?
      ensures entered && Inv(old(Now())) ==> running.value !in closed
    {
      if running.Some? {
        return false;
      }
      var current := GetTaskLoop();
      running := Some(current);
      return true;
    }

    /** Closing a running loop raises, and that error is the one that leaves shutdown. */
    method StopWorker(before: bool, later: bool) returns (raised: bool)
      modifies this
      ensures Now() == After(old(Now()), Shutdown(before, later))
      ensures raised <==> (old(loop).Some? && old(loop).value !in old(closed) && old(running) == old(loop))
    {
      if loop.None? || loop.value in closed {
        return false;
      }
      var current := loop.value;
      if running.None? {
        running := Some(current);
        if before {
          var _ := GetLoopEngine();
        }
        DisposeLoopEngine();
        if later {
          var _ := GetLoopEngine();
        }
        running := None;
      }
      if running == Some(current) {
        return true;
      }
      closed := closed + {current};
      loop := None;
      return false;
    }
  }

  // ---------------------------------------------------------------- invariant

  predicate Inv(s: State) {
    && (s.slot.Some? ==> s.slot.value < s.loops)
    && (s.running.Some? ==> s.running.value < s.loops && s.running.value !in s.closed)
    && (forall l :: l in s.closed ==> l < s.loops)
    && (forall l :: l in s.engines ==> MappedOk(s, l))
    && (forall e :: 0 <= e < |s.owner| ==> EngineOk(s, e))
    && (forall e :: e in s.disposed ==> e < |s.owner|)
  }

  /** An entry names the newest engine of its loop that is not disposed of. */
  predicate MappedOk(s: State, l: nat)
    requires l in s.engines
  {
    l < s.loops && s.engines[l] < |s.owner| && s.owner[s.engines[l]] == l && s.engines[l] !in s.disposed
  }

  /** Every engine ever created is mapped, disposed of, or belonged to a closed loop. */
  predicate EngineOk(s: State, e: nat)
    requires e < |s.owner|
  {
    && s.owner[e] < s.loops
    && ((s.owner[e] in s.engines && s.engines[s.owner[e]] == e) || e in s.disposed || s.owner[e] in s.closed)
  }

  lemma LookupKeepsInv(s: State)
    requires Inv(s)
    ensures Inv(LookedUp(s))
  {
    var t := LookedUp(s);
    forall e | 0 <= e < |t.owner| ensures EngineOk(t, e) {
      if e < |s.owner| {
        assert EngineOk(s, e);
      }
    }
    forall l | l in t.engines ensures MappedOk(t, l) {
      if l in s.engines {
        assert MappedOk(s, l);
      }
    }
  }

  lemma DisposeKeepsInv(s: State)
    requires Inv(s)
    ensures Inv(Disposed(s))
  {
    var t := Disposed(s);
    forall e | 0 <= e < |t.owner| ensures EngineOk(t, e) {
      assert EngineOk(s, e);
    }
    forall l | l in t.engines ensures MappedOk(t, l) {
      assert MappedOk(s, l);
      assert s.running.Some? && s.running.value in s.engines ==> MappedOk(s, s.running.value);
    }
  }

  /** Closing loops, moving the slot and entering or leaving a loop touch no engine. */
  lemma LoopsKeepInv(s: State, t: State)
    requires Inv(s) && t.engines == s.engines && t.owner == s.owner && t.disposed == s.disposed
    requires s.loops <= t.loops && s.closed <= t.closed && (forall l :: l in t.closed ==> l < t.loops)
    requires t.slot.Some? ==> t.slot.value < t.loops
    requires t.running.Some? ==> t.running.value < t.loops && t.running.value !in t.closed
    ensures Inv(t)
  {
    forall e | 0 <= e < |t.owner| ensures EngineOk(t, e) {
      assert EngineOk(s, e);
    }
    forall l | l in t.engines ensures MappedOk(t, l) {
      assert MappedOk(s, l);
    }
  }

  lemma ShutdownKeepsInv(s: State, before: bool, later: bool)
    requires Inv(s)
    ensures Inv(ShutDown(s, before, later))
  {
    if s.slot.Some? && s.slot.value !in s.closed && s.running.None? {
      hide Inv;
      var loop := s.slot.value;
      var entered := s.(running := Some(loop));
      EnterKeepsInv(s);
      LookupKeepsInv(entered);
      var looked := if before then LookedUp(entered) else entered;
      DisposeKeepsInv(looked);
      var popped := Disposed(looked);
      LookupKeepsInv(popped);
      var left := if later then LookedUp(popped) else popped;
      CloseKeepsInv(left, loop);
    } else {
      LoopsKeepInv(s, ShutDown(s, before, later));
    }
  }

  lemma EnterKeepsInv(s: State)
    requires Inv(s) && s.slot.Some? && s.slot.value !in s.closed
    ensures Inv(s.(running := s.slot))
  {
    LoopsKeepInv(s, s.(running := s.slot));
  }

  lemma CloseKeepsInv(s: State, l: nat)
    requires Inv(s) && s.slot == Some(l)
    ensures Inv(s.(running := None, closed := s.closed + {l}, slot := None))
  {
    LoopsKeepInv(s, s.(running := None, closed := s.closed + {l}, slot := None));
  }

  lemma StepKeepsInv(s: State, e: Event)
    requires Inv(s)
    ensures Inv(After(s, e))
  {
    match e {
      case Lookup => LookupKeepsInv(s);
      case Dispose => DisposeKeepsInv(s);
      case Shutdown(before, later) => ShutdownKeepsInv(s, before, later);
      case _ => LoopsKeepInv(s, After(s, e));
    }
  }

  lemma {:induction false} RunKeepsInv(s: State, events: seq<Event>)
    requires Inv(s)
    ensures Inv(End(s, events))
    decreases |events|
  {
    if events != [] {
      hide Inv, After;
      StepKeepsInv(s, events[0]);
      RunKeepsInv(After(s, events[0]), events[1..]);
    }
  }

  // ---------------------------------------------------------------- over every run

  /** No two loops ever share an engine, no lookup hands out one that was disposed of, and every engine
      ever created is accounted for. */
  lemma EnginesAccountedFor(events: seq<Event>)
    ensures var s := End(Initial(), events);
      && (forall l, m :: l in s.engines && m in s.engines && s.engines[l] == s.engines[m] ==> l == m)
      && (forall l :: l in s.engines ==> s.engines[l] !in s.disposed)
      && (forall e :: 0 <= e < |s.owner| ==> EngineOk(s, e))
  {
    RunKeepsInv(Initial(), events);
    var s := End(Initial(), events);
    assert forall l :: l in s.engines ==> MappedOk(s, l);
  }

  /** Right after a lookup no closed loop is in the map, so it holds at most one entry per open loop. */
  lemma NoClosedLoopKept(events: seq<Event>)
    ensures var s := End(Initial(), events + [Lookup]); s.engines.Keys !! s.closed
    ensures var s := End(Initial(), events + [Lookup]); s.running.Some? ==> s.running.value in s.engines
  {
    EndAppend(Initial(), events, [Lookup]);
    RunKeepsInv(Initial(), events);
    var s := End(Initial(), events);
    assert End(s, [Lookup]) == LookedUp(s) by { assert [Lookup][1..] == []; }
  }

  lemma {:induction false} EndAppend(s: State, a: seq<Event>, b: seq<Event>)
    ensures End(s, a + b) == End(End(s, a), b)
    decreases |a|
  {
    hide After;
    if a == [] {
      assert a + b == b;
    } else {
      EndAppend(After(s, a[0]), a[1..], b);
      assert (a + b)[1..] == a[1..] + b;
    }
  }

  /** Events that dispose of the loop's engine or close the loop. */
  predicate Ends(s: State, e: Event, l: nat) {
    || (e.Dispose? && s.running == Some(l))
    || e == Close(l)
    || (e.Shutdown? && s.slot == Some(l))
  }

  predicate NeverEnds(s: State, events: seq<Event>, l: nat)
    decreases |events|
  {
    events == [] || (!Ends(s, events[0], l) && NeverEnds(After(s, events[0]), events[1..], l))
  }

  lemma EntryKept(s: State, e: Event, l: nat)
    requires Inv(s) && l in s.engines && l !in s.closed && !Ends(s, e, l)
    ensures var t := After(s, e); l in t.engines && t.engines[l] == s.engines[l] && l !in t.closed
  {
  }

  /** Until its loop is closed or its engine disposed of, the loop keeps its engine, whatever other loops
      come and go; the next lookup on it returns the same one. */
  lemma {:induction false} SameEngine(s: State, events: seq<Event>, l: nat)
    requires Inv(s) && l in s.engines && l !in s.closed && NeverEnds(s, events, l)
    ensures var t := End(s, events);
      && l in t.engines && t.engines[l] == s.engines[l]
      && (t.running == Some(l) ==> LookedUp(t).engines[l] == s.engines[l] && LookedUp(t).owner == t.owner)
    decreases |events|
  {
    if events == [] {
      EntryKept(s, Lookup, l);
    } else {
      hide Inv, After, LookedUp;
      EntryKept(s, events[0], l);
      StepKeepsInv(s, events[0]);
      SameEngine(After(s, events[0]), events[1..], l);
    }
  }

  /** A worker that lost its loop goes on: whatever was closed before, the next task run outside a loop
      gets one that is open, and a lookup in it an engine that is not disposed of. */
  lemma WorkerRecovers(events: seq<Event>)
    requires End(Initial(), events).running.None?
    ensures var s := After(End(Initial(), events), RunTask);
      var t := LookedUp(s);
      && s.running.Some? && s.running == s.slot && s.running.value !in s.closed
      && s.running.value in t.engines && t.engines[s.running.value] !in t.disposed
  {
    RunKeepsInv(Initial(), events);
    var s := End(Initial(), events);
    StepKeepsInv(s, RunTask);
    LookupKeepsInv(After(s, RunTask));
    var t := LookedUp(After(s, RunTask));
    assert forall l :: l in t.engines ==> MappedOk(t, l);
  }

  /** A loop closed behind the worker's back is replaced, and so is its engine: the next task and its lookup
      run on the newest loop with the newest engine, and the closed loop has lost its entry. */
  lemma ClosedLoopReplaced(events: seq<Event>, l: nat)
    requires var s := End(Initial(), events); s.running.None? && s.slot == Some(l)
    ensures var s := End(Initial(), events);
      var t := LookedUp(After(After(s, Close(l)), RunTask));
      l in t.closed && l !in t.engines
      && t.running == t.slot == Some(s.loops) && t.loops == s.loops + 1
      && s.loops in t.engines && t.engines[s.loops] == |s.owner| && t.owner == s.owner + [s.loops]
  {
    RunKeepsInv(Initial(), events);
    var s := End(Initial(), events);
    assert s.loops in s.engines ==> MappedOk(s, s.loops);
  }

  // ---------------------------------------------------------------- one engine per worker

  /** A worker that only runs tasks: they look the engine up any number of times, and ask for the loop. */
  predicate WorkerOnly(e: Event) { e.GetLoop? || e.RunTask? || e.Leave? || e.Lookup? }

  /** Such a worker ever creates one loop and at most one engine. */
  lemma OneEnginePerWorker(events: seq<Event>)
    requires forall i :: 0 <= i < |events| ==> WorkerOnly(events[i])
    ensures var s := End(Initial(), events);
      s.loops <= 1 && |s.owner| <= 1 && (|s.owner| == 1 ==> s.engines == map[0 := 0])
  {
    WorkerRun(Initial(), events);
  }

  predicate WorkerInv(s: State) {
    && s.closed == {} && s.loops <= 1 && (s.slot.Some? ==> s.slot == Some(0)) && (s.slot.Some? <==> s.loops == 1)
    && (s.running.Some? ==> s.running == s.slot)
    && ((s.owner == [] && s.engines == map[]) || (s.owner == [0] && s.engines == map[0 := 0]))
  }

  lemma {:induction false} WorkerRun(s: State, events: seq<Event>)
    requires WorkerInv(s) && forall i :: 0 <= i < |events| ==> WorkerOnly(events[i])
    ensures WorkerInv(End(s, events))
    decreases |events|
  {
    if events != [] {
      WorkerStep(s, events[0]);
      hide WorkerInv, After;
      WorkerRun(After(s, events[0]), events[1..]);
    }
  }

  lemma WorkerStep(s: State, e: Event)
    requires WorkerInv(s) && WorkerOnly(e)
    ensures WorkerInv(After(s, e))
  {
    assert Pruned(s.engines, s.closed) == s.engines;
  }

  // ---------------------------------------------------------------- shutdown

  /** After shutdown the worker's loop has no entry exactly when no other loop was running and no task
      left over on it looked its engine up again after the pop, or, with another loop running, when it
      had no entry to begin with. Disposal that raises makes no difference: with no loop running the
      engine the loop had is disposed of in any case. */
  lemma ShutdownExactly(events: seq<Event>, before: bool, later: bool)
    requires var s := End(Initial(), events); s.slot.Some? && s.slot.value !in s.closed
    ensures var s := End(Initial(), events);
      var t := ShutDown(s, before, later);
      && (s.slot.value !in t.engines <==> (if s.running.None? then !later else s.slot.value !in s.engines))
      && ((t.slot.None? && s.slot.value in t.closed) <==> s.running != s.slot)
      && ((s.slot.value in s.engines && s.engines[s.slot.value] in t.disposed)
          <==> (s.running.None? && s.slot.value in s.engines))
  {
    RunKeepsInv(Initial(), events);
    var s := End(Initial(), events);
    assert s.slot.value in s.engines ==> MappedOk(s, s.slot.value);
  }

  /** Called while another loop runs in the thread, shutdown cannot dispose of anything: the pool of the
      loop it closes is left in the map, never disposed of. */
  lemma ShutdownInsideAnotherLoop()
    ensures var s := End(Initial(), [RunTask, Lookup, Leave, OtherLoop, Shutdown(false, false)]);
      s.engines == map[0 := 0] && 0 in s.closed && s.disposed == {} && s.slot.None?
  {
    EndAppend(Initial(), [RunTask, Lookup, Leave, OtherLoop], [Shutdown(false, false)]);
    var s1 := After(Initial(), RunTask);
    var s2 := After(s1, Lookup);
    assert Pruned(s1.engines, {}) == map[];
    var s3 := After(After(s2, Leave), OtherLoop);
    assert End(Initial(), [RunTask, Lookup, Leave, OtherLoop]) == s3;
    assert End(s3, [Shutdown(false, false)]) == After(s3, Shutdown(false, false));
  }
}
