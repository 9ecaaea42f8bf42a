/** The outbox and the eval runner together: at-least-once dispatch of an event by
    backend/src/ragz/worker/outbox.py, at-most-once scoring by modules/evals/runner.py. */
module EvalDispatch {
  import opened Prelude
  import Outbox
  import EvalClaims

  type Id = nat

  /** `topics` remembers the topic of every event ever published, `tried` every event whose handler was
      called, whether it returned or raised. */
  datatype State = State(outbox: Outbox.System, evals: EvalClaims.State, topics: map<Id, string>, tried: set<Id>)

  datatype Step = Dispatcher(o: Outbox.Step) | Runner(e: EvalClaims.Step)

  const EVALS := "evals.run"

  /** The broker hands out a message only after some handler call, but then any number of times; a call
      that raised may have reached it all the same. */
  ghost predicate Enabled(s: State, step: Step) {
    match step
    case Dispatcher(o) => Outbox.Enabled(s.outbox, o)
    case Runner(e) =>
      EvalClaims.Enabled(s.evals, e)
      && (e.Deliver? ==> WasTried(s, e.id))
  }

  /** The events whose handler this step calls. */
  ghost function Tries(s: Outbox.System, o: Outbox.Step): set<Id>
    requires Outbox.Enabled(s, o)
  {
    match o
    case Send(d) => {s.txns[d].todo[0]}
    case Refuse(d, _, _) => {s.txns[d].todo[0]}
    case _ => {}
  }

  ghost function Next(s: State, step: Step): State
    requires Enabled(s, step)
  {
    match step
    case Dispatcher(o) =>
      s.(outbox := Outbox.Next(s.outbox, o),
         topics := if o.Publish? then s.topics[o.id := o.topic] else s.topics,
         tried := s.tried + Tries(s.outbox, o))
    case Runner(e) => s.(evals := EvalClaims.Next(s.evals, e))
  }

  ghost predicate Possible(s: State, steps: seq<Step>)
    decreases |steps|
  {
    steps == [] || (Enabled(s, steps[0]) && Possible(Next(s, steps[0]), steps[1..]))
  }

  ghost function Run(s: State, steps: seq<Step>): State
    requires Possible(s, steps)
    decreases |steps|
  {
    if steps == [] then s else Run(Next(s, steps[0]), steps[1..])
  }

  const EMPTY := State(Outbox.EMPTY, EvalClaims.EMPTY, map[], {})

  ghost predicate WasTried(s: State, id: Id) { id in s.tried && id in s.topics && s.topics[id] == EVALS }

  ghost predicate RunTried(s: State, r: EvalClaims.EvalRun) { r.dispatch.Some? ==> WasTried(s, r.dispatch.value) }

  /** Nothing is held or claimed by a runner that was not tried, and every send was a try. */
  ghost predicate Traceable(s: State) {
    && (forall i :: i in s.outbox.sends ==> i in s.tried)
    && (forall w :: w in s.evals.working && s.evals.working[w].Holding? ==> WasTried(s, s.evals.working[w].id))
    && (forall k :: 0 <= k < |s.evals.runs| ==> RunTried(s, s.evals.runs[k]))
  }

  /** Every published event is in the table or was purged; its topic never changes. */
  ghost predicate TopicsOk(s: State) {
    && (forall i :: i in s.topics <==> i in s.outbox.rows || i in s.outbox.purged)
    && (forall i :: i in s.outbox.rows ==> i in s.topics && s.outbox.rows[i].topic == s.topics[i])
  }

  ghost predicate Inv(s: State) {
    && Outbox.Inv(s.outbox) && Outbox.SendsBounded(s.outbox) && EvalClaims.Inv(s.evals)
    && Traceable(s) && TopicsOk(s)
  }

  lemma DispatcherKeepsTopics(s: State, o: Outbox.Step)
    requires Inv(s) && Enabled(s, Dispatcher(o))
    ensures TopicsOk(Next(s, Dispatcher(o)))
  {
    hide Outbox.Accounted, Outbox.Exclusive, Outbox.SendsBounded, EvalClaims.Inv, Traceable,
         Outbox.ValidClaim, Outbox.TxnOk;
    if o.Commit? {
      ChangesKeepTopics(s.outbox.rows, s.outbox.sends, s.outbox.txns[o.d]);
    }
  }

  lemma ChangesKeepTopics(rows: Outbox.Table, sends: seq<Id>, t: Outbox.Txn)
    requires Outbox.TxnOk(rows, sends, t)
    ensures forall i :: i in t.changes ==> i in rows && t.changes[i].topic == rows[i].topic
  {
    assert forall i :: i in t.changes ==> Outbox.Holds(t, i);
  }

  lemma DispatcherKeepsTrace(s: State, o: Outbox.Step)
    requires Inv(s) && Enabled(s, Dispatcher(o))
    ensures Traceable(Next(s, Dispatcher(o)))
  {
    hide Outbox.Inv, Outbox.SendsBounded, EvalClaims.Inv, Outbox.ValidClaim;
    var t := Next(s, Dispatcher(o));
    forall id | WasTried(s, id) ensures WasTried(t, id) {
    }
  }

  lemma RunnerKeepsTrace(s: State, e: EvalClaims.Step)
    requires Inv(s) && Enabled(s, Runner(e))
    ensures Traceable(Next(s, Runner(e)))
  {
    hide Outbox.Inv, Outbox.SendsBounded, EvalClaims.Inv, TopicsOk, EvalClaims.Claimed;
    var t := Next(s, Runner(e));
    assert forall id :: WasTried(s, id) <==> WasTried(t, id);
  }

  lemma NextKeepsInv(s: State, step: Step)
    requires Inv(s) && Enabled(s, step)
    ensures Inv(Next(s, step))
  {
    match step
    case Dispatcher(o) =>
      DispatcherKeepsTopics(s, o);
      DispatcherKeepsTrace(s, o);
      hide Outbox.Inv, Outbox.Enabled, Outbox.Next, Outbox.SendsBounded, EvalClaims.Inv, Traceable, TopicsOk;
      Outbox.NextKeepsInv(s.outbox, o);
      Outbox.NextKeepsBound(s.outbox, o);
    case Runner(e) =>
      RunnerKeepsTrace(s, e);
      hide Outbox.Inv, Outbox.SendsBounded, EvalClaims.Inv, EvalClaims.Enabled, EvalClaims.Next, Traceable;
      EvalClaims.NextKeepsInv(s.evals, e);
  }

  lemma {:induction false} RunKeepsInv(s: State, steps: seq<Step>)
    requires Inv(s) && Possible(s, steps)
    ensures Inv(Run(s, steps))
    decreases |steps|
  {
    hide Inv, Enabled, Next;
    if steps != [] {
      NextKeepsInv(s, steps[0]);
      RunKeepsInv(Next(s, steps[0]), steps[1..]);
    }
  }

  /** End to end, over any number of dispatchers, crashes, ambiguous failures, redeliveries and dying
      workers. An eval event may be tried any number of times and sent once per crash and once more, yet at
      most one run carries its id and scoring begins at most once; a run exists only for an event that was
      published under that topic and tried; and until a try returned the event is still pending. */
  lemma EvalsRunAtMostOnce(steps: seq<Step>, id: Id)
    requires Possible(EMPTY, steps)
    ensures var s := Run(EMPTY, steps);
      && (forall j, k :: 0 <= j < k < |s.evals.runs| && s.evals.runs[j].dispatch == Some(id)
            ==> s.evals.runs[k].dispatch != Some(id))
      && s.evals.spent[id] <= (if EvalClaims.Claimed(s.evals.runs, id) then 1 else 0)
      && (EvalClaims.Claimed(s.evals.runs, id) ==> WasTried(s, id))
      && multiset(s.outbox.sends)[id] <= s.outbox.crashes + 1
      && ((id in s.topics && s.topics[id] == EVALS && id !in s.outbox.sends) ==>
            (id in s.outbox.rows && s.outbox.rows[id].status == Outbox.Pending))
  {
    RunKeepsInv(EMPTY, steps);
  }

  // ---------------------------------------------------------------- a tried event can run

  function Lifted(steps: seq<EvalClaims.Step>): (r: seq<Step>)
    ensures |r| == |steps|
  {
    if steps == [] then [] else [Runner(steps[0])] + Lifted(steps[1..])
  }

  lemma {:induction false} LiftedRun(s: State, steps: seq<EvalClaims.Step>)
    requires EvalClaims.Possible(s.evals, steps)
    requires forall e :: e in steps && e.Deliver? ==> WasTried(s, e.id)
    ensures Possible(s, Lifted(steps))
    ensures Run(s, Lifted(steps)) == s.(evals := EvalClaims.Run(s.evals, steps))
    decreases |steps|
  {
    if steps != [] {
      hide EvalClaims.Enabled, EvalClaims.Next, Outbox.Enabled, Outbox.Next;
      var t := s.(evals := EvalClaims.Next(s.evals, steps[0]));
      assert steps[0] in steps;
      assert Next(s, Runner(steps[0])) == t;
      assert forall e :: e in steps[1..] ==> e in steps;
      LiftedRun(t, steps[1..]);
      assert Lifted(steps)[1..] == Lifted(steps[1..]);
    }
  }

  /** The bound is no more than the truth: from every reachable state a tried eval event that has no run yet
      gets one, scored, as soon as an idle worker takes it and lives to the end. */
  lemma TriedEventRuns(steps: seq<Step>, id: Id, w: nat)
    requires Possible(EMPTY, steps)
    requires var s := Run(EMPTY, steps);
      WasTried(s, id) && !EvalClaims.Claimed(s.evals.runs, id) && w !in s.evals.working
    ensures var s := Run(EMPTY, steps);
      exists more :: (Possible(s, more) && Run(s, more).outbox == s.outbox
        && Run(s, more).evals.runs == s.evals.runs + [EvalClaims.EvalRun(Some(id), true)]
        && Run(s, more).evals.spent[id] == 1)
  {
    var s := Run(EMPTY, steps);
    EvalsRunAtMostOnce(steps, id);
    hide Possible, Run, EvalClaims.Possible, EvalClaims.Run, EvalClaims.Claimed, WasTried;
    EvalClaims.RunEvalIsARun(s.evals, w, true, Some(id), EvalClaims.Never);
    var call := EvalClaims.CallSteps(w, Some(id), true, true, EvalClaims.Never);
    LiftedRun(s, call);
    assert Possible(s, Lifted(call));
  }
}
