/** Eval runs keyed by the outbox event that asked for them: run_eval_task in
    backend/src/ragz/worker/tasks.py and run_eval in backend/src/ragz/modules/evals/runner.py, over the
    unique key on eval_runs.dispatch_id. */
module EvalClaims {
  import opened Prelude

  type EventId = nat

  /** `scored` is false from the claim until the metrics are written. */
  datatype EvalRun = EvalRun(dispatch: Option<EventId>, scored: bool)

  /** A busy worker holds a message, has committed the claim of a row, is scoring that row, or is scoring
      for a call with no event behind it. */
  datatype Phase = Holding(id: EventId) | Claiming(row: nat) | Scoring(row: nat) | Alone

  /** `spent` counts, per event, how many times scoring began; `begun` and `lost` count the calls without
      an event that began, and those whose worker went away. */
  datatype State = State(runs: seq<EvalRun>, working: map<nat, Phase>, spent: multiset<EventId>, begun: nat, lost: nat)

  predicate Claimed(runs: seq<EvalRun>, id: EventId) { exists k :: 0 <= k < |runs| && runs[k].dispatch == Some(id) }

  /** Deliver: a worker takes a message that carries an event id. Claim: it commits the insert, or the
      unique key rejects it and it stops. Begin: it starts to score. Finish: it writes the metrics. Die:
      it goes away, or stops because the workspace is gone. BeginAlone and FinishAlone: the same without
      an event, where the row is inserted together with its metrics. */
  datatype Step =
    | Deliver(w: nat, id: EventId)
    | Claim(w: nat, id: EventId)
    | Begin(w: nat)
    | Finish(w: nat)
    | Die(w: nat)
    | BeginAlone(w: nat)
    | FinishAlone(w: nat)

  predicate Enabled(s: State, step: Step) {
    match step
    case Deliver(w, _) => w !in s.working
    case Claim(w, id) => w in s.working && s.working[w] == Holding(id)
    case Begin(w) =>
      && w in s.working && s.working[w].Claiming? && s.working[w].row < |s.runs|
      && s.runs[s.working[w].row].dispatch.Some?
    case Finish(w) => w in s.working && s.working[w].Scoring? && s.working[w].row < |s.runs|
    case Die(w) => w in s.working
    case BeginAlone(w) => w !in s.working
    case FinishAlone(w) => w in s.working && s.working[w].Alone?
  }

  function Next(s: State, step: Step): State
    requires Enabled(s, step)
  {
    match step
    case Deliver(w, id) => s.(working := s.working[w := Holding(id)])
    case Claim(w, id) =>
      if Claimed(s.runs, id) then s.(working := s.working - {w})
      else s.(runs := s.runs + [EvalRun(Some(id), false)], working := s.working[w := Claiming(|s.runs|)])
    case Begin(w) =>
      var k := s.working[w].row;
      s.(working := s.working[w := Scoring(k)], spent := s.spent + multiset{s.runs[k].dispatch.value})
    case Finish(w) =>
      var k := s.working[w].row;
      s.(runs := s.runs[k := s.runs[k].(scored := true)], working := s.working - {w})
    case Die(w) => s.(working := s.working - {w}, lost := if s.working[w].Alone? then s.lost + 1 else s.lost)
    case BeginAlone(w) => s.(working := s.working[w := Alone], begun := s.begun + 1)
    case FinishAlone(w) => s.(runs := s.runs + [EvalRun(None, true)], working := s.working - {w})
  }

  predicate Possible(s: State, steps: seq<Step>)
    decreases |steps|
  {
    steps == [] || (Enabled(s, steps[0]) && Possible(Next(s, steps[0]), steps[1..]))
  }

  function Run(s: State, steps: seq<Step>): State
    requires Possible(s, steps)
    decreases |steps|
  {
    if steps == [] then s else Run(Next(s, steps[0]), steps[1..])
  }

  const EMPTY := State([], map[], multiset{}, 0, 0)

  // ---------------------------------------------------------------- the invariant

  predicate OnRow(p: Phase) { p.Claiming? || p.Scoring? }

  /** A worker on a row works on a keyed one that is not scored yet; before it begins, nothing was spent
      on the row's event. */
  predicate PhaseOk(s: State, p: Phase) {
    OnRow(p) ==>
      && p.row < |s.runs| && !s.runs[p.row].scored && s.runs[p.row].dispatch.Some?
      && s.spent[s.runs[p.row].dispatch.value] == if p.Scoring? then 1 else 0
  }

  predicate SameRow(p: Phase, q: Phase) { OnRow(p) && OnRow(q) && p.row == q.row }

  predicate Unique(runs: seq<EvalRun>) {
    forall j, k :: 0 <= j < k < |runs| && runs[j].dispatch.Some? ==> runs[j].dispatch != runs[k].dispatch
  }

  predicate PaidFor(s: State, r: EvalRun) { r.scored && r.dispatch.Some? ==> s.spent[r.dispatch.value] == 1 }

  ghost predicate Inv(s: State) {
    && Unique(s.runs)
    && (forall w :: w in s.working ==> PhaseOk(s, s.working[w]))
    && (forall v, w :: v in s.working && w in s.working && SameRow(s.working[v], s.working[w]) ==> v == w)
    && (forall id :: s.spent[id] <= if Claimed(s.runs, id) then 1 else 0)
    && (forall k :: 0 <= k < |s.runs| ==> PaidFor(s, s.runs[k]))
  }

  lemma ClaimedGrows(runs: seq<EvalRun>, r: EvalRun, id: EventId)
    ensures Claimed(runs + [r], id) <==> Claimed(runs, id) || r.dispatch == Some(id)
  {
    if Claimed(runs, id) {
      var k :| 0 <= k < |runs| && runs[k].dispatch == Some(id);
      assert (runs + [r])[k].dispatch == Some(id);
    }
    assert (runs + [r])[|runs|] == r;
  }

  lemma SameDispatch(a: seq<EvalRun>, b: seq<EvalRun>, id: EventId)
    requires |a| == |b| && forall k :: 0 <= k < |a| ==> a[k].dispatch == b[k].dispatch
    ensures Claimed(a, id) <==> Claimed(b, id)
  {
  }

  lemma ClaimKeepsInv(s: State, w: nat, id: EventId)
    requires Inv(s) && Enabled(s, Claim(w, id))
    ensures Inv(Next(s, Claim(w, id)))
  {
    if !Claimed(s.runs, id) {
      var t := Next(s, Claim(w, id));
      forall j ensures Claimed(t.runs, j) <==> Claimed(s.runs, j) || j == id {
        ClaimedGrows(s.runs, EvalRun(Some(id), false), j);
      }
      assert s.spent[id] == 0;
      forall v | v in t.working ensures PhaseOk(t, t.working[v]) {
        assert v != w ==> PhaseOk(s, s.working[v]);
      }
    }
  }

  lemma BeginKeepsInv(s: State, w: nat)
    requires Inv(s) && Enabled(s, Begin(w))
    ensures Inv(Next(s, Begin(w)))
  {
    var t, k := Next(s, Begin(w)), s.working[w].row;
    assert PhaseOk(s, s.working[w]);
    assert Claimed(s.runs, s.runs[k].dispatch.value);
    forall v | v in t.working ensures PhaseOk(t, t.working[v]) {
      assert PhaseOk(s, s.working[v]);
      if v != w && OnRow(s.working[v]) {
        assert s.working[v].row != k;
      }
    }
  }

  lemma FinishKeepsInv(s: State, w: nat)
    requires Inv(s) && Enabled(s, Finish(w))
    ensures Inv(Next(s, Finish(w)))
  {
    var t := Next(s, Finish(w));
    assert PhaseOk(s, s.working[w]);
    assert forall k :: 0 <= k < |s.runs| ==> t.runs[k].dispatch == s.runs[k].dispatch;
    forall v | v in t.working ensures PhaseOk(t, t.working[v]) {
      assert PhaseOk(s, s.working[v]);
    }
    forall j: EventId ensures Claimed(t.runs, j) <==> Claimed(s.runs, j) {
      SameDispatch(s.runs, t.runs, j);
    }
  }

  lemma OthersKeepInv(s: State, step: Step)
    requires Inv(s) && Enabled(s, step) && (step.Deliver? || step.Die? || step.BeginAlone? || step.FinishAlone?)
    ensures Inv(Next(s, step))
  {
    var t := Next(s, step);
    forall v | v in t.working ensures PhaseOk(t, t.working[v]) {
      assert v in s.working ==> PhaseOk(s, s.working[v]);
    }
    if step.FinishAlone? {
      forall j ensures Claimed(t.runs, j) <==> Claimed(s.runs, j) {
        ClaimedGrows(s.runs, EvalRun(None, true), j);
      }
    }
  }

  lemma NextKeepsInv(s: State, step: Step)
    requires Inv(s) && Enabled(s, step)
    ensures Inv(Next(s, step))
  {
    match step
    case Claim(w, id) => ClaimKeepsInv(s, w, id);
    case Begin(w) => BeginKeepsInv(s, w);
    case Finish(w) => FinishKeepsInv(s, w);
    case Deliver(_, _) => OthersKeepInv(s, step);
    case Die(_) => OthersKeepInv(s, step);
    case BeginAlone(_) => OthersKeepInv(s, step);
    case FinishAlone(_) => OthersKeepInv(s, step);
  }

  lemma {:induction false} RunKeepsInv(s: State, steps: seq<Step>)
    requires Inv(s) && Possible(s, steps)
    ensures Inv(Run(s, steps))
    decreases |steps|
  {
    hide Inv, Enabled, Next;
    if steps != [] {
      NextKeepsInv(s, steps[0]);
      RunKeepsInv(Next(s, steps[0]), steps[1..]);
    }
  }

  // ---------------------------------------------------------------- one run per event

  /** Some delivery of the event got as far as its commit. */
  predicate Reached(steps: seq<Step>, id: EventId) { exists k :: 0 <= k < |steps| && ClaimsAt(steps, k, id) }

  predicate ClaimsAt(steps: seq<Step>, k: int, id: EventId) { 0 <= k < |steps| && steps[k].Claim? && steps[k].id == id }

  lemma FirstClaims(s: State, step: Step, id: EventId)
    requires Enabled(s, step)
    ensures Claimed(Next(s, step).runs, id) <==> Claimed(s.runs, id) || (step.Claim? && step.id == id)
  {
    var t := Next(s, step);
    match step
    case Claim(_, other) => ClaimedGrows(s.runs, EvalRun(Some(other), false), id);
    case Finish(_) => SameDispatch(s.runs, t.runs, id);
    case FinishAlone(_) => ClaimedGrows(s.runs, EvalRun(None, true), id);
    case BeginAlone(_) =>
    case Deliver(_, _) =>
    case Begin(_) =>
    case Die(_) =>
  }

  lemma {:induction false} ReachedIsClaimed(s: State, steps: seq<Step>, id: EventId)
    requires Possible(s, steps)
    ensures Claimed(Run(s, steps).runs, id) <==> Claimed(s.runs, id) || Reached(steps, id)
    decreases |steps|
  {
    hide Claimed, Enabled, Next;
    if steps != [] {
      ReachedIsClaimed(Next(s, steps[0]), steps[1..], id);
      FirstClaims(s, steps[0], id);
      ReachedFirst(steps, id);
    }
  }

  lemma ReachedFirst(steps: seq<Step>, id: EventId)
    requires steps != []
    ensures Reached(steps, id) <==> (steps[0].Claim? && steps[0].id == id) || Reached(steps[1..], id)
  {
    if ClaimsAt(steps, 0, id) {
      assert Reached(steps, id);
    }
    if Reached(steps[1..], id) {
      var k :| 0 <= k < |steps[1..]| && ClaimsAt(steps[1..], k, id);
      assert ClaimsAt(steps, k + 1, id);
    }
    if Reached(steps, id) && !ClaimsAt(steps, 0, id) {
      var k :| 0 <= k < |steps| && ClaimsAt(steps, k, id);
      assert ClaimsAt(steps[1..], k - 1, id);
    }
  }

  /** However often an event is delivered, by however many workers that may die at any point: at most one
      row carries it, there is one exactly when some delivery reached its commit, scoring begins at most
      once and only for a claimed event, and a scored row was paid for exactly once. */
  lemma OneRunPerEvent(steps: seq<Step>, id: EventId)
    requires Possible(EMPTY, steps)
    ensures var s := Run(EMPTY, steps);
      && (forall j, k :: 0 <= j < k < |s.runs| && s.runs[j].dispatch == Some(id) ==> s.runs[k].dispatch != Some(id))
      && (Claimed(s.runs, id) <==> Reached(steps, id))
      && s.spent[id] <= (if Claimed(s.runs, id) then 1 else 0)
      && (forall k :: 0 <= k < |s.runs| && s.runs[k] == EvalRun(Some(id), true) ==> s.spent[id] == 1)
  {
    RunKeepsInv(EMPTY, steps);
    ReachedIsClaimed(EMPTY, steps, id);
  }

  // ---------------------------------------------------------------- runs without an event

  function Unkeyed(r: EvalRun): nat { if r.dispatch.None? then 1 else 0 }

  function AloneWorkers(working: map<nat, Phase>): set<nat> { set w | w in working && working[w].Alone? }

  /** Every call without an event that began is a row, was lost, or is still being scored. */
  predicate Accounted(s: State) { s.begun == Total(Unkeyed, s.runs) + s.lost + |AloneWorkers(s.working)| }

  lemma WorkerAdded(working: map<nat, Phase>, w: nat, p: Phase)
    requires w !in working || !working[w].Alone?
    ensures |AloneWorkers(working[w := p])| == |AloneWorkers(working)| + if p.Alone? then 1 else 0
  {
    assert w !in AloneWorkers(working);
    assert AloneWorkers(working[w := p]) == AloneWorkers(working) + if p.Alone? then {w} else {};
  }

  lemma WorkerGone(working: map<nat, Phase>, w: nat)
    requires w in working
    ensures |AloneWorkers(working - {w})| == |AloneWorkers(working)| - if working[w].Alone? then 1 else 0
  {
    assert AloneWorkers(working - {w}) == AloneWorkers(working) - {w};
  }

  lemma ClaimKeepsAccount(s: State, w: nat, id: EventId)
    requires Enabled(s, Claim(w, id)) && Accounted(s)
    ensures Accounted(Next(s, Claim(w, id)))
  {
    hide AloneWorkers, Total, Claimed;
    if Claimed(s.runs, id) {
      WorkerGone(s.working, w);
    } else {
      WorkerAdded(s.working, w, Claiming(|s.runs|));
      TotalAppended(Unkeyed, s.runs, EvalRun(Some(id), false));
    }
  }

  lemma FinishKeepsAccount(s: State, w: nat)
    requires Enabled(s, Finish(w)) && Accounted(s)
    ensures Accounted(Next(s, Finish(w)))
  {
    hide AloneWorkers, Total;
    var k := s.working[w].row;
    WorkerGone(s.working, w);
    TotalReplaced(Unkeyed, s.runs, k, s.runs[k].(scored := true));
  }

  lemma FinishAloneKeepsAccount(s: State, w: nat)
    requires Enabled(s, FinishAlone(w)) && Accounted(s)
    ensures Accounted(Next(s, FinishAlone(w)))
  {
    hide AloneWorkers, Total;
    WorkerGone(s.working, w);
    TotalAppended(Unkeyed, s.runs, EvalRun(None, true));
  }

  lemma NextKeepsAccount(s: State, step: Step)
    requires Enabled(s, step) && Accounted(s)
    ensures Accounted(Next(s, step))
  {
    hide AloneWorkers, Total, Claimed, Unkeyed;
    match step
    case Deliver(w, id) => WorkerAdded(s.working, w, Holding(id));
    case Claim(w, id) => ClaimKeepsAccount(s, w, id);
    case Begin(w) => WorkerAdded(s.working, w, Scoring(s.working[w].row));
    case Finish(w) => FinishKeepsAccount(s, w);
    case Die(w) => WorkerGone(s.working, w);
    case BeginAlone(w) => WorkerAdded(s.working, w, Alone);
    case FinishAlone(w) => FinishAloneKeepsAccount(s, w);
  }

  lemma {:induction false} RunKeepsAccount(s: State, steps: seq<Step>)
    requires Possible(s, steps) && Accounted(s)
    ensures Accounted(Run(s, steps))
    decreases |steps|
  {
    hide Enabled, Next, Accounted;
    if steps != [] {
      NextKeepsAccount(s, steps[0]);
      RunKeepsAccount(Next(s, steps[0]), steps[1..]);
    }
  }

  /** Runs without an event never collide: whatever else happens, each such call that began has its own
      row, unless its worker was lost or has not finished; a lost one leaves none. */
  lemma UnkeyedNeverCollide(steps: seq<Step>)
    requires Possible(EMPTY, steps)
    ensures var s := Run(EMPTY, steps);
      s.begun == Total(Unkeyed, s.runs) + s.lost + |AloneWorkers(s.working)|
  {
    assert AloneWorkers(EMPTY.working) == {};
    RunKeepsAccount(EMPTY, steps);
  }

  // ---------------------------------------------------------------- abandoned claims

  ghost predicate Abandoned(s: State, k: nat) {
    && k < |s.runs| && !s.runs[k].scored
    && forall w :: w in s.working && OnRow(s.working[w]) ==> s.working[w].row != k
  }

  lemma StaysAbandoned(s: State, step: Step, k: nat)
    requires Enabled(s, step) && Abandoned(s, k)
    ensures Abandoned(Next(s, step), k) && Next(s, step).runs[k] == s.runs[k]
  {
  }

  /** The claim is also where the event's own guarantee ends: a row whose worker died after claiming
      stays unscored for ever, whatever is redelivered. */
  lemma {:induction false} DeadClaimStaysUnscored(s: State, steps: seq<Step>, k: nat)
    requires Possible(s, steps) && Abandoned(s, k)
    ensures k < |Run(s, steps).runs| && Run(s, steps).runs[k] == s.runs[k]
    decreases |steps|
  {
    hide Enabled, Next;
    if steps != [] {
      StaysAbandoned(s, steps[0], k);
      DeadClaimStaysUnscored(Next(s, steps[0]), steps[1..], k);
    }
  }

  // ---------------------------------------------------------------- the runner

  /** When the process is lost, if it is. */
  datatype Death = Never | BeforeClaim | BeforeScoring | WhileScoring

  class EvalTable {
    var runs: seq<EvalRun>
    /** How many times scoring began. */
    var scorings: nat

    constructor ()
      ensures runs == [] && scorings == 0
    {
      runs, scorings := [], 0;
    }

    /** One call of run_eval_task with nothing else running. Returns whether it produced a finished run. */
    method RunEval(workspaceExists: bool, dispatch: Option<EventId>, death: Death) returns (finished: bool)
      modifies this
      ensures var live := workspaceExists && death != BeforeClaim;
        var free := dispatch.None? || !Claimed(old(runs), dispatch.value);
        && (finished <==> (live && free && death == Never))
        && scorings == old(scorings) + (if live && free && death != BeforeScoring then 1 else 0)
        && runs == old(runs) + (if !live || !free then []
                                else if finished then [EvalRun(dispatch, true)]
                                else if dispatch.Some? then [EvalRun(dispatch, false)]
                                else [])
    {
      if !workspaceExists || death == BeforeClaim {
        return false;
      }
      var row: Option<nat> := None;
      if dispatch.Some? {
        if Claimed(runs, dispatch.value) {
          return false;
        }
        row := Some(|runs|);
        runs := runs + [EvalRun(dispatch, false)];
      }
      if death == BeforeScoring {
        return false;
      }
      scorings := scorings + 1;
      if death == WhileScoring {
        return false;
      }
      if row.None? {
        runs := runs + [EvalRun(None, true)];
      } else {
        runs := runs[row.value := EvalRun(dispatch, true)];
      }
      finished := true;
    }
  }

  // ---------------------------------------------------------------- one call as a run

  /** The steps of one call on worker w: whether its workspace exists, whether its event is free. */
  function CallSteps(w: nat, dispatch: Option<EventId>, workspaceExists: bool, free: bool, death: Death): seq<Step> {
    var live := workspaceExists && death != BeforeClaim;
    match dispatch
    case None =>
      if !live || death == BeforeScoring then [] else if death == Never then [BeginAlone(w), FinishAlone(w)]
      else [BeginAlone(w), Die(w)]
    case Some(id) =>
      if !live then [Deliver(w, id), Die(w)]
      else if !free then [Deliver(w, id), Claim(w, id)]
      else [Deliver(w, id), Claim(w, id)]
           + if death == BeforeScoring then [Die(w)] else if death == Never then [Begin(w), Finish(w)]
             else [Begin(w), Die(w)]
  }

  lemma TwoSteps(s: State, a: Step, b: Step)
    requires Enabled(s, a) && Enabled(Next(s, a), b)
    ensures Possible(s, [a, b]) && Run(s, [a, b]) == Next(Next(s, a), b)
  {
    hide Enabled, Next;
    var t := Next(s, a);
    assert [a, b][1..] == [b] && [b][1..] == [];
    assert Possible(t, [b]) && Run(t, [b]) == Run(Next(t, b), []);
  }

  lemma ThenOne(s: State, a: Step, b: Step, c: Step)
    requires Possible(s, [a, b]) && Enabled(Run(s, [a, b]), c)
    ensures Possible(s, [a, b] + [c]) && Run(s, [a, b] + [c]) == Next(Run(s, [a, b]), c)
  {
    hide Enabled, Next;
    RunAppend(s, [a, b], [c]);
    assert [c][1..] == [];
    assert Run(Next(Run(s, [a, b]), c), []) == Next(Run(s, [a, b]), c);
  }

  lemma {:induction false} RunAppend(s: State, a: seq<Step>, b: seq<Step>)
    requires Possible(s, a)
    ensures Possible(s, a + b) <==> Possible(Run(s, a), b)
    ensures Possible(s, a + b) ==> Run(s, a + b) == Run(Run(s, a), b)
    decreases |a|
  {
    hide Enabled, Next;
    if a == [] {
      assert a + b == b;
    } else {
      assert (a + b)[1..] == a[1..] + b;
      RunAppend(Next(s, a[0]), a[1..], b);
    }
  }

  /** The call that run_eval makes is one of the runs above, from any state and on any idle worker: what it
      adds is what the method adds, the worker is idle again, and scoring a keyed call is what it spends. */
  lemma RunEvalIsARun(s: State, w: nat, workspaceExists: bool, dispatch: Option<EventId>, death: Death)
    requires w !in s.working
    ensures var live := workspaceExists && death != BeforeClaim;
      var free := dispatch.None? || !Claimed(s.runs, dispatch.value);
      var steps := CallSteps(w, dispatch, workspaceExists, free, death);
      && Possible(s, steps) && Run(s, steps).working == s.working
      && Run(s, steps).runs == s.runs + (if !live || !free then []
                                         else if death == Never then [EvalRun(dispatch, true)]
                                         else if dispatch.Some? then [EvalRun(dispatch, false)]
                                         else [])
      && Run(s, steps).spent == s.spent + (if live && free && dispatch.Some? && death != BeforeScoring
                                           then multiset{dispatch.value} else multiset{})
  {
    var live := workspaceExists && death != BeforeClaim;
    match dispatch
    case None => AloneIsARun(s, w, live, death);
    case Some(id) =>
      if !live {
        TwoSteps(s, Deliver(w, id), Die(w));
      } else if Claimed(s.runs, id) {
        TwoSteps(s, Deliver(w, id), Claim(w, id));
      } else {
        KeyedIsARun(s, w, id, death);
      }
  }

  lemma AloneIsARun(s: State, w: nat, live: bool, death: Death)
    requires w !in s.working && (live ==> death != BeforeClaim)
    ensures var steps := CallSteps(w, None, live, true, death);
      && Possible(s, steps) && Run(s, steps).working == s.working && Run(s, steps).spent == s.spent
      && Run(s, steps).runs == s.runs + if live && death == Never then [EvalRun(None, true)] else []
  {
    if live && death == Never {
      TwoSteps(s, BeginAlone(w), FinishAlone(w));
    } else if live && death == WhileScoring {
      TwoSteps(s, BeginAlone(w), Die(w));
    }
  }

  lemma KeyedIsARun(s: State, w: nat, id: EventId, death: Death)
    requires w !in s.working && !Claimed(s.runs, id) && death != BeforeClaim
    ensures var steps := CallSteps(w, Some(id), true, true, death);
      && Possible(s, steps) && Run(s, steps).working == s.working
      && Run(s, steps).runs == s.runs + [EvalRun(Some(id), death == Never)]
      && Run(s, steps).spent == s.spent + if death == BeforeScoring then multiset{} else multiset{id}
  {
    hide Possible, Run;
    var n := |s.runs|;
    TwoSteps(s, Deliver(w, id), Claim(w, id));
    var t := Run(s, [Deliver(w, id), Claim(w, id)]);
    assert t == s.(runs := s.runs + [EvalRun(Some(id), false)], working := s.working[w := Claiming(n)]);
    assert t.working - {w} == s.working;
    if death == BeforeScoring {
      ThenOne(s, Deliver(w, id), Claim(w, id), Die(w));
    } else {
      var u := Next(t, Begin(w));
      assert u.working - {w} == s.working;
      var last := if death == Never then Finish(w) else Die(w);
      TwoSteps(t, Begin(w), last);
      RunAppend(s, [Deliver(w, id), Claim(w, id)], [Begin(w), last]);
      assert u.runs[n := EvalRun(Some(id), true)] == s.runs + [EvalRun(Some(id), true)];
    }
  }
}
