/** The transactional outbox: rows and claims of backend/src/ragz/modules/outbox/service.py and the
    dispatcher of backend/src/ragz/worker/outbox.py. */
module Outbox {
  import opened Prelude

  datatype Status = Pending | Dispatched | Failed

  datatype Event = Event(topic: string, queue: string, status: Status, attempts: nat,
                         lastError: Option<string>, availableAt: int, dispatchedAt: Option<int>)

  type Id = nat
  type Table = map<Id, Event>

  /** The topics that have a handler. */
  const TOPICS: set<string> := {"documents.ingest", "documents.delete", "documents.reindex", "evals.run"}

  const BACKOFF_SECONDS: seq<nat> := [5, 30, 120, 600, 1800]
  const MAX_BACKOFF := 3600

  /** Delay before retry number `attempts`; the cap never binds on these tiers. */
  function Backoff(attempts: nat): (seconds: nat)
    ensures 5 <= seconds <= 1800
    ensures attempts <= 1 ==> seconds == 5
    ensures attempts >= 5 ==> seconds == 1800
  {
    var tier := if attempts <= 1 then 0
                else if attempts - 1 < |BACKOFF_SECONDS| then attempts - 1 else |BACKOFF_SECONDS| - 1;
    Min(BACKOFF_SECONDS[tier], MAX_BACKOFF)
  }

  function Min(a: nat, b: nat): nat { if a <= b then a else b }

  // ---------------------------------------------------------------- what one sweep does to a row

  /** How the broker call of a handler ended, and the clock when the row was marked. */
  datatype Reply = Sent(at: int) | Raised(error: string, at: int)

  function Parked(e: Event): Event {
    e.(status := Failed, lastError := Some("no handler for topic '" + e.topic + "'"))
  }

  function MarkedDispatched(e: Event, at: int): Event {
    e.(status := Dispatched, dispatchedAt := Some(at), lastError := None)
  }

  /** A failure keeps the row pending and makes it due later. */
  function MarkedFailed(e: Event, error: string, at: int): Event {
    e.(attempts := e.attempts + 1,
       lastError := Some(if |error| <= 1000 then error else error[..1000]),
       availableAt := at + Backoff(e.attempts + 1))
  }

  /** A row after failing again and again: each failure its error and its time. */
  function FailedRepeatedly(e: Event, failures: seq<(string, int)>): Event {
    if failures == [] then e
    else
      var last := failures[|failures| - 1];
      MarkedFailed(FailedRepeatedly(e, failures[..|failures| - 1]), last.0, last.1)
  }

  /** A row that keeps failing is never dropped and never abandoned: it stays pending with its topic,
      counts every failure, and is due again after the tier of that count, the last tier for ever. */
  lemma {:induction false} KeepsRetrying(e: Event, failures: seq<(string, int)>)
    requires e.status == Pending && failures != []
    ensures var f := FailedRepeatedly(e, failures);
      var last := failures[|failures| - 1];
      && f.status == Pending && f.topic == e.topic && f.queue == e.queue && f.dispatchedAt == e.dispatchedAt
      && f.attempts == e.attempts + |failures| && f.lastError.Some? && |f.lastError.value| <= 1000
      && f.availableAt - last.1 == (match f.attempts
                                    case 1 => 5 case 2 => 30 case 3 => 120 case 4 => 600 case _ => 1800)
    decreases |failures|
  {
    if |failures| > 1 {
      KeepsRetrying(e, failures[..|failures| - 1]);
    } else {
      assert FailedRepeatedly(e, failures[..0]) == e;
    }
  }

  function Marked(e: Event, reply: Reply): Event {
    if e.topic !in TOPICS then Parked(e)
    else match reply
         case Sent(at) => MarkedDispatched(e, at)
         case Raised(error, at) => MarkedFailed(e, error, at)
  }

  /** What a sweep makes of a claimed row, field by field. */
  predicate RowOutcome(e: Event, reply: Reply, after: Event) {
    && after.topic == e.topic && after.queue == e.queue
    && if e.topic !in TOPICS then
         && after.status == Failed && after.lastError == Some("no handler for topic '" + e.topic + "'")
         && after.attempts == e.attempts && after.availableAt == e.availableAt && after.dispatchedAt == e.dispatchedAt
       else match reply
            case Sent(at) =>
              && after.status == Dispatched && after.dispatchedAt == Some(at) && after.lastError == None
              && after.attempts == e.attempts && after.availableAt == e.availableAt
            case Raised(error, at) =>
              && after.status == e.status && after.dispatchedAt == e.dispatchedAt
              && after.attempts == e.attempts + 1 && after.availableAt == at + Tier(after.attempts)
              && after.lastError.Some? && after.lastError.value <= error
              && |after.lastError.value| == if |error| < 1000 then |error| else 1000
  }

  function Tier(attempts: nat): int {
    match attempts case 0 => 5 case 1 => 5 case 2 => 30 case 3 => 120 case 4 => 600 case _ => 1800
  }

  /** The row a sweep leaves is determined by its fields, and marking gives exactly that row. */
  lemma OutcomeIsMarked(e: Event, reply: Reply, after: Event)
    ensures RowOutcome(e, reply, after) <==> after == Marked(e, reply)
  {
    if RowOutcome(e, reply, after) && e.topic in TOPICS && reply.Raised? {
      var kept := after.lastError.value;
      assert kept == reply.error[..|kept|] && reply.error[..|reply.error|] == reply.error;
    }
  }

  predicate WasSent(e: Event, reply: Reply) { e.topic in TOPICS && reply.Sent? }

  predicate Distinct(ids: seq<Id>) { forall i, j :: 0 <= i < j < |ids| ==> ids[i] != ids[j] }

  predicate Due(e: Event, now: int) { e.status == Pending && e.availableAt <= now }

  /** Any answer the claiming query may give: due rows nobody holds, oldest first, up to the limit,
      and none left out that is older than one taken. */
  ghost predicate ValidClaim(rows: Table, held: set<Id>, now: int, limit: nat, batch: seq<Id>) {
    && Distinct(batch) && |batch| <= limit
    && (forall i :: i in batch ==> i in rows && Due(rows[i], now) && i !in held)
    && (forall j, k :: 0 <= j < k < |batch| ==> rows[batch[j]].availableAt <= rows[batch[k]].availableAt)
    && (forall i :: i in rows && Due(rows[i], now) && i !in held && i !in batch
          ==> |batch| == limit && forall b :: b in batch ==> rows[b].availableAt <= rows[i].availableAt)
  }

  /** The uncommitted row changes after the first n events of the batch. */
  function Changes(rows: Table, batch: seq<Id>, replies: seq<Reply>, n: nat): (c: Table)
    requires n <= |batch| <= |replies| && forall i :: i in batch ==> i in rows
    ensures c.Keys == (set k | 0 <= k < n :: batch[k])
  {
    if n == 0 then map[]
    else Changes(rows, batch, replies, n - 1)[batch[n - 1] := Marked(rows[batch[n - 1]], replies[n - 1])]
  }

  function SentIds(rows: Table, batch: seq<Id>, replies: seq<Reply>, n: nat): seq<Id>
    requires n <= |batch| <= |replies| && forall i :: i in batch ==> i in rows
  {
    if n == 0 then []
    else SentIds(rows, batch, replies, n - 1)
         + if WasSent(rows[batch[n - 1]], replies[n - 1]) then [batch[n - 1]] else []
  }

  class Database {
    /** The committed table. */
    var rows: Table
    /** Ids whose handler returned normally, in order; the broker does not roll back. */
    var sends: seq<Id>

    constructor (rows: Table)
      ensures this.rows == rows && sends == []
    {
      this.rows, sends := rows, [];
    }

    /** One sweep over a claimed batch. `crashAfter` is the number of events handled when the process
        dies, if it does. Returns None then, else the number dispatched. */
    method DispatchPending(batch: seq<Id>, replies: seq<Reply>, crashAfter: Option<nat>)
      returns (dispatched: Option<nat>)
      requires Distinct(batch) && |batch| <= |replies| && forall i :: i in batch ==> i in rows
      modifies this
      ensures dispatched.None? <==> crashAfter.Some? && crashAfter.value <= |batch|
      ensures dispatched.None? ==> rows == old(rows)
      ensures dispatched.None? ==> sends == old(sends) + SentIds(old(rows), batch, replies, crashAfter.value)
      ensures dispatched.Some? ==> rows == old(rows) + Changes(old(rows), batch, replies, |batch|)
      ensures dispatched.Some? ==> rows.Keys == old(rows).Keys
      ensures dispatched.Some? ==>
                forall k :: 0 <= k < |batch| ==> RowOutcome(old(rows)[batch[k]], replies[k], rows[batch[k]])
      ensures dispatched.Some? ==> forall i :: i in old(rows) && i !in batch ==> rows[i] == old(rows)[i]
      ensures dispatched.Some? ==> sends == old(sends) + SentIds(old(rows), batch, replies, |batch|)
      ensures dispatched.Some? ==> dispatched.value == |SentIds(old(rows), batch, replies, |batch|)|
    {
      hide RowOutcome;
      var count := 0;
      var changes: Table := map[];
      for n := 0 to |batch|
        invariant rows == old(rows)
        invariant crashAfter.Some? ==> n <= crashAfter.value
        invariant changes == Changes(rows, batch, replies, n)
        invariant sends == old(sends) + SentIds(rows, batch, replies, n)
        invariant count == |SentIds(rows, batch, replies, n)|
      {
        if crashAfter == Some(n) {
          return None;
        }
        var id := batch[n];
        var event := rows[id];
        if event.topic !in TOPICS {
          changes := changes[id := Parked(event)];
          continue;
        }
        match replies[n] {
          case Raised(error, at) =>
            changes := changes[id := MarkedFailed(event, error, at)];
          case Sent(at) =>
            sends := sends + [id];
            changes := changes[id := MarkedDispatched(event, at)];
            count := count + 1;
        }
      }
      if crashAfter == Some(|batch|) {
        return None;
      }
      AllOutcomes(rows, batch, replies);
      rows := rows + changes;
      dispatched := Some(count);
    }
  }

  /** One event never blocks another: whatever happens to the rest of the batch, each claimed row
      ends exactly as its own reply says, and rows outside the batch stay as they were. */
  lemma {:induction false} EachRowOnItsOwn(rows: Table, batch: seq<Id>, replies: seq<Reply>, n: nat, k: nat)
    requires Distinct(batch) && k < n <= |batch| <= |replies| && forall i :: i in batch ==> i in rows
    ensures batch[k] in Changes(rows, batch, replies, n)
    ensures RowOutcome(rows[batch[k]], replies[k], Changes(rows, batch, replies, n)[batch[k]])
    decreases n
  {
    hide Marked, RowOutcome;
    if k < n - 1 {
      EachRowOnItsOwn(rows, batch, replies, n - 1, k);
    } else {
      OutcomeIsMarked(rows[batch[k]], replies[k], Marked(rows[batch[k]], replies[k]));
    }
  }

  lemma AllOutcomes(rows: Table, batch: seq<Id>, replies: seq<Reply>)
    requires Distinct(batch) && |batch| <= |replies| && forall i :: i in batch ==> i in rows
    ensures var after := rows + Changes(rows, batch, replies, |batch|);
      && after.Keys == rows.Keys
      && (forall k :: 0 <= k < |batch| ==> RowOutcome(rows[batch[k]], replies[k], after[batch[k]]))
      && (forall i :: i in rows && i !in batch ==> after[i] == rows[i])
  {
    hide RowOutcome;
    forall k | 0 <= k < |batch|
      ensures RowOutcome(rows[batch[k]], replies[k], Changes(rows, batch, replies, |batch|)[batch[k]])
    {
      EachRowOnItsOwn(rows, batch, replies, |batch|, k);
    }
  }

  // ---------------------------------------------------------------- many dispatchers, crashes, purges

  /** A dispatcher's open transaction: events still to handle, one whose send has returned but is not
      marked yet, and the uncommitted changes. It holds the row locks of all three. */
  datatype Txn = Txn(todo: seq<Id>, sending: Option<Id>, changes: Table)

  datatype System = System(rows: Table, txns: map<nat, Txn>, sends: seq<Id>, purged: set<Id>, crashes: nat)

  datatype Step =
    | Publish(id: Id, topic: string, queue: string, at: int)
    | Claim(d: nat, batch: seq<Id>, now: int, limit: nat)
    | Park(d: nat)
    | Refuse(d: nat, error: string, at: int)
    | Send(d: nat)
    | Mark(d: nat, at: int)
    | Commit(d: nat)
    | Crash(d: nat)
    | Purge(ids: set<Id>, cutoff: int)

  predicate Holds(t: Txn, i: Id) { i in t.todo || t.sending == Some(i) || i in t.changes }

  ghost function Held(s: System): set<Id> {
    set i | i in s.rows && exists d :: d in s.txns && Holds(s.txns[d], i)
  }

  predicate AtHead(s: System, d: nat, known: bool) {
    && d in s.txns && s.txns[d].todo != [] && s.txns[d].sending == None
    && s.txns[d].todo[0] in s.rows && (s.rows[s.txns[d].todo[0]].topic in TOPICS) == known
  }

  ghost predicate Enabled(s: System, step: Step) {
    match step
    case Publish(id, _, _, _) => id !in s.rows && id !in s.purged
    case Claim(d, batch, now, limit) => d !in s.txns && ValidClaim(s.rows, Held(s), now, limit, batch)
    case Park(d) => AtHead(s, d, false)
    case Refuse(d, _, _) => AtHead(s, d, true)
    case Send(d) => AtHead(s, d, true)
    case Mark(d, _) => d in s.txns && s.txns[d].sending.Some? && s.txns[d].sending.value in s.rows
    case Commit(d) => d in s.txns && s.txns[d].todo == [] && s.txns[d].sending == None
    case Crash(d) => d in s.txns
    case Purge(ids, cutoff) =>
      forall i :: i in ids ==> i in s.rows && s.rows[i].status == Dispatched
                               && s.rows[i].dispatchedAt.Some? && s.rows[i].dispatchedAt.value < cutoff
  }

  function HeadMarked(s: System, d: nat, row: Event): System
    requires d in s.txns && s.txns[d].todo != []
  {
    var t := s.txns[d];
    s.(txns := s.txns[d := Txn(t.todo[1..], None, t.changes[t.todo[0] := row])])
  }

  ghost function Next(s: System, step: Step): System
    requires Enabled(s, step)
  {
    match step
    case Publish(id, topic, queue, at) => s.(rows := s.rows[id := Event(topic, queue, Pending, 0, None, at, None)])
    case Claim(d, batch, _, _) => s.(txns := s.txns[d := Txn(batch, None, map[])])
    case Park(d) => HeadMarked(s, d, Parked(s.rows[s.txns[d].todo[0]]))
    case Refuse(d, error, at) => HeadMarked(s, d, MarkedFailed(s.rows[s.txns[d].todo[0]], error, at))
    case Send(d) =>
      var t := s.txns[d];
      s.(txns := s.txns[d := Txn(t.todo[1..], Some(t.todo[0]), t.changes)], sends := s.sends + [t.todo[0]])
    case Mark(d, at) =>
      var t := s.txns[d];
      var id := t.sending.value;
      s.(txns := s.txns[d := Txn(t.todo, None, t.changes[id := MarkedDispatched(s.rows[id], at)])])
    case Commit(d) => s.(rows := s.rows + s.txns[d].changes, txns := s.txns - {d})
    case Crash(d) => s.(txns := s.txns - {d}, crashes := s.crashes + 1)
    case Purge(ids, _) => s.(rows := s.rows - ids, purged := s.purged + ids)
  }

  const EMPTY := System(map[], map[], [], {}, 0)

  ghost predicate Possible(s: System, steps: seq<Step>)
    decreases |steps|
  {
    steps == [] || (Enabled(s, steps[0]) && Possible(Next(s, steps[0]), steps[1..]))
  }

  ghost function Run(s: System, steps: seq<Step>): System
    requires Possible(s, steps)
    decreases |steps|
  {
    if steps == [] then s else Run(Next(s, steps[0]), steps[1..])
  }

  // ---------------------------------------------------------------- the invariant

  /** A row whose work is still owed, is waiting for a human, or was sent. */
  predicate Accounted(e: Event, i: Id, sends: seq<Id>) {
    match e.status
    case Pending => true
    case Failed => e.topic !in TOPICS
    case Dispatched => e.topic in TOPICS && i in sends
  }

  ghost predicate TxnOk(rows: Table, sends: seq<Id>, t: Txn) {
    && Distinct(t.todo)
    && (forall i :: Holds(t, i) ==> i in rows && rows[i].status == Pending)
    && (forall i :: i in t.todo ==> i !in t.changes && t.sending != Some(i))
    && (t.sending.Some? ==> t.sending.value !in t.changes && t.sending.value in sends
                            && rows[t.sending.value].topic in TOPICS)
    && (forall i :: i in t.changes ==> t.changes[i].topic == rows[i].topic && Accounted(t.changes[i], i, sends))
  }

  ghost predicate Exclusive(txns: map<nat, Txn>) {
    forall d, e, i :: d in txns && e in txns && Holds(txns[d], i) && Holds(txns[e], i) ==> d == e
  }

  ghost predicate Inv(s: System) {
    && (forall d :: d in s.txns ==> TxnOk(s.rows, s.sends, s.txns[d]))
    && Exclusive(s.txns)
    && (forall i :: i in s.rows ==> Accounted(s.rows[i], i, s.sends))
    && (forall i :: i in s.purged ==> i in s.sends && i !in s.rows)
  }

  lemma TxnGrows(rows: Table, rows': Table, sends: seq<Id>, sends': seq<Id>, t: Txn)
    requires TxnOk(rows, sends, t)
    requires forall i :: Holds(t, i) ==> i in rows' && rows'[i] == rows[i]
    requires forall i :: i in sends ==> i in sends'
    ensures TxnOk(rows', sends', t)
  {
    assert forall i :: i in t.changes ==> Holds(t, i);
    assert forall i :: i in t.todo ==> Holds(t, i);
  }

  lemma ShrinkTodo(t: Txn)
    requires t.todo != [] && Distinct(t.todo)
    ensures Distinct(t.todo[1..]) && t.todo[0] !in t.todo[1..]
    ensures forall i :: i in t.todo <==> i == t.todo[0] || i in t.todo[1..]
  {
    assert t.todo == [t.todo[0]] + t.todo[1..];
  }

  lemma ExclusiveReplace(txns: map<nat, Txn>, d: nat, t: Txn)
    requires Exclusive(txns)
    requires forall i, e :: Holds(t, i) && e in txns && Holds(txns[e], i) ==> e == d
    ensures Exclusive(txns[d := t])
  {
  }

  /** A transaction that holds no more than before may change, and sends may be added. */
  lemma TxnReplaced(s: System, d: nat, t: Txn, sends: seq<Id>)
    requires Inv(s) && d in s.txns && TxnOk(s.rows, sends, t)
    requires forall i :: Holds(t, i) ==> Holds(s.txns[d], i)
    requires forall i :: i in s.sends ==> i in sends
    ensures Inv(s.(txns := s.txns[d := t], sends := sends))
  {
    hide TxnOk, Holds;
    ExclusiveReplace(s.txns, d, t);
    forall e | e in s.txns ensures TxnOk(s.rows, sends, s.txns[e]) {
      StillOk(s.rows, s.sends, sends, s.txns[e]);
    }
  }

  lemma StillOk(rows: Table, sends: seq<Id>, sends': seq<Id>, t: Txn)
    requires TxnOk(rows, sends, t) && forall i :: i in sends ==> i in sends'
    ensures TxnOk(rows, sends', t)
  {
    assert forall i :: Holds(t, i) ==> i in rows;
    TxnGrows(rows, rows, sends, sends', t);
  }

  lemma HeadMarkedOk(s: System, d: nat, row: Event)
    requires Inv(s) && d in s.txns && s.txns[d].todo != [] && s.txns[d].sending == None
    requires s.txns[d].todo[0] in s.rows && row.topic == s.rows[s.txns[d].todo[0]].topic
    requires Accounted(row, s.txns[d].todo[0], s.sends)
    ensures Inv(HeadMarked(s, d, row))
  {
    var t, t' := s.txns[d], HeadMarked(s, d, row).txns[d];
    HeadTxnOk(s.rows, s.sends, t, row);
    TxnReplaced(s, d, t', s.sends);
  }

  lemma HeadTxnOk(rows: Table, sends: seq<Id>, t: Txn, row: Event)
    requires TxnOk(rows, sends, t) && t.todo != [] && t.sending == None
    requires t.todo[0] in rows && row.topic == rows[t.todo[0]].topic && Accounted(row, t.todo[0], sends)
    ensures var t' := Txn(t.todo[1..], None, t.changes[t.todo[0] := row]);
      TxnOk(rows, sends, t') && forall i :: Holds(t', i) ==> Holds(t, i)
  {
    hide Accounted;
    ShrinkTodo(t);
    var t' := Txn(t.todo[1..], None, t.changes[t.todo[0] := row]);
    assert forall i :: Holds(t', i) ==> Holds(t, i);
  }

  lemma SendOk(s: System, d: nat)
    requires Inv(s) && AtHead(s, d, true)
    ensures Inv(Next(s, Send(d)))
  {
    var t := s.txns[d];
    SentTxnOk(s.rows, s.sends, t);
    TxnReplaced(s, d, Txn(t.todo[1..], Some(t.todo[0]), t.changes), s.sends + [t.todo[0]]);
  }

  lemma SentTxnOk(rows: Table, sends: seq<Id>, t: Txn)
    requires TxnOk(rows, sends, t) && t.todo != [] && t.sending == None
    requires t.todo[0] in rows && rows[t.todo[0]].topic in TOPICS
    ensures var t' := Txn(t.todo[1..], Some(t.todo[0]), t.changes);
      TxnOk(rows, sends + [t.todo[0]], t') && forall i :: Holds(t', i) ==> Holds(t, i)
  {
    ShrinkTodo(t);
    assert Holds(t, t.todo[0]);
    var t' := Txn(t.todo[1..], Some(t.todo[0]), t.changes);
    assert forall i :: Holds(t', i) ==> Holds(t, i);
    assert forall i :: i in sends ==> i in sends + [t.todo[0]];
  }

  lemma MarkOk(s: System, d: nat, at: int)
    requires Inv(s) && Enabled(s, Mark(d, at))
    ensures Inv(Next(s, Mark(d, at)))
  {
    hide TxnOk, Holds;
    var t := s.txns[d];
    var id := t.sending.value;
    MarkedTxnOk(s.rows, s.sends, t, at);
    TxnReplaced(s, d, Txn(t.todo, None, t.changes[id := MarkedDispatched(s.rows[id], at)]), s.sends);
  }

  lemma MarkedTxnOk(rows: Table, sends: seq<Id>, t: Txn, at: int)
    requires TxnOk(rows, sends, t) && t.sending.Some? && t.sending.value in rows
    ensures var t' := Txn(t.todo, None, t.changes[t.sending.value := MarkedDispatched(rows[t.sending.value], at)]);
      TxnOk(rows, sends, t') && forall i :: Holds(t', i) ==> Holds(t, i)
  {
    assert Holds(t, t.sending.value);
    var t' := Txn(t.todo, None, t.changes[t.sending.value := MarkedDispatched(rows[t.sending.value], at)]);
    assert forall i :: Holds(t', i) ==> Holds(t, i);
  }

  lemma CommitOk(s: System, d: nat)
    requires Inv(s) && Enabled(s, Commit(d))
    ensures Inv(Next(s, Commit(d)))
  {
    var u := Next(s, Commit(d));
    assert forall i :: i in s.txns[d].changes ==> Holds(s.txns[d], i);
    forall e | e in u.txns ensures TxnOk(u.rows, s.sends, s.txns[e]) {
      TxnGrows(s.rows, u.rows, s.sends, s.sends, s.txns[e]);
    }
  }

  lemma ClaimOk(s: System, d: nat, batch: seq<Id>, now: int, limit: nat)
    requires Inv(s) && Enabled(s, Claim(d, batch, now, limit))
    ensures Inv(Next(s, Claim(d, batch, now, limit)))
  {
    var t := Txn(batch, None, map[]);
    HeldHolds(s);
    assert TxnOk(s.rows, s.sends, t);
    hide TxnOk, Held, ValidClaim, Accounted;
    ExclusiveReplace(s.txns, d, t);
  }

  lemma HeldHolds(s: System)
    requires Inv(s)
    ensures forall i, e :: e in s.txns && Holds(s.txns[e], i) ==> i in Held(s)
  {
    hide Exclusive, Accounted;
    forall i, e | e in s.txns && Holds(s.txns[e], i) ensures i in s.rows {
      assert TxnOk(s.rows, s.sends, s.txns[e]);
    }
  }

  lemma RowsMoveOk(s: System, step: Step)
    requires Inv(s) && Enabled(s, step) && (step.Publish? || step.Purge?)
    ensures Inv(Next(s, step))
  {
    var u := Next(s, step);
    forall e | e in s.txns ensures TxnOk(u.rows, s.sends, s.txns[e]) {
      assert forall i :: Holds(s.txns[e], i) ==> i in u.rows && u.rows[i] == s.rows[i];
      TxnGrows(s.rows, u.rows, s.sends, s.sends, s.txns[e]);
    }
  }

  lemma NextKeepsInv(s: System, step: Step)
    requires Inv(s) && Enabled(s, step)
    ensures Inv(Next(s, step))
  {
    match step
    case Publish(_, _, _, _) => RowsMoveOk(s, step);
    case Purge(_, _) => RowsMoveOk(s, step);
    case Claim(d, batch, now, limit) => ClaimOk(s, d, batch, now, limit);
    case Park(d) => HeadMarkedOk(s, d, Parked(s.rows[s.txns[d].todo[0]]));
    case Refuse(d, error, at) =>
      var t := s.txns[d];
      assert Holds(t, t.todo[0]);
      HeadMarkedOk(s, d, MarkedFailed(s.rows[t.todo[0]], error, at));
    case Send(d) => SendOk(s, d);
    case Mark(d, at) => MarkOk(s, d, at);
    case Commit(d) => CommitOk(s, d);
    case Crash(d) =>
  }

  lemma {:induction false} RunKeepsInv(s: System, steps: seq<Step>)
    requires Inv(s) && Possible(s, steps)
    ensures Inv(Run(s, steps))
    ensures s.rows.Keys + s.purged <= Run(s, steps).rows.Keys + Run(s, steps).purged
    decreases |steps|
  {
    hide Inv;
    if steps != [] {
      NextKeepsInv(s, steps[0]);
      NextKeepsIds(s, steps[0]);
      RunKeepsInv(Next(s, steps[0]), steps[1..]);
    }
  }

  lemma NextKeepsIds(s: System, step: Step)
    requires Enabled(s, step)
    ensures s.rows.Keys + s.purged <= Next(s, step).rows.Keys + Next(s, step).purged
  {
  }

  /** No lost work. Whatever dispatchers, crashes and purges do, a published event is at every later
      moment still pending, parked because its topic is unknown, or has been sent; and a committed
      'dispatched' is never without a send. */
  lemma NoLostWork(before: seq<Step>, after: seq<Step>, i: Id)
    requires Possible(EMPTY, before) && i in Run(EMPTY, before).rows
    requires Possible(Run(EMPTY, before), after)
    ensures var s := Run(Run(EMPTY, before), after);
      if i in s.rows
      then match s.rows[i].status
           case Pending => true
           case Failed => s.rows[i].topic !in TOPICS
           case Dispatched => i in s.sends
      else i in s.purged && i in s.sends
  {
    RunKeepsInv(EMPTY, before);
    RunKeepsInv(Run(EMPTY, before), after);
  }

  // ---------------------------------------------------------------- where the rows come from

  /** The step writes this version of row i: it publishes it, or handles it from the committed one. */
  ghost predicate Writes(s: System, step: Step, i: Id, e: Event) {
    match step
    case Publish(id, topic, queue, at) => id == i && e == Event(topic, queue, Pending, 0, None, at, None)
    case Park(d) => AtHead(s, d, false) && s.txns[d].todo[0] == i && RowOutcome(s.rows[i], Sent(0), e)
    case Refuse(d, error, at) => AtHead(s, d, true) && s.txns[d].todo[0] == i
                                 && RowOutcome(s.rows[i], Raised(error, at), e)
    case Mark(d, at) => MarksRow(s, step, i, at) && RowOutcome(s.rows[i], Sent(at), e)
    case _ => false
  }

  /** A handler's return for row i is recorded at this time. */
  predicate MarksRow(s: System, step: Step, i: Id, at: int) {
    step.Mark? && step.at == at && step.d in s.txns && s.txns[step.d].sending == Some(i)
    && i in s.rows && s.rows[i].topic in TOPICS
  }

  /** Some step of the run writes it. */
  ghost predicate Written(s: System, steps: seq<Step>, i: Id, e: Event)
    requires Possible(s, steps)
    decreases |steps|
  {
    steps != [] && (Writes(s, steps[0], i, e) || Written(Next(s, steps[0]), steps[1..], i, e))
  }

  ghost predicate Version(s: System, i: Id, e: Event) {
    (i in s.rows && s.rows[i] == e) || exists d :: d in s.txns && i in s.txns[d].changes && s.txns[d].changes[i] == e
  }

  lemma {:induction false} VersionsWritten(s: System, steps: seq<Step>, i: Id, e: Event)
    requires Inv(s) && Possible(s, steps) && Version(Run(s, steps), i, e)
    ensures Version(s, i, e) || Written(s, steps, i, e)
    decreases |steps|
  {
    hide Inv, Version, Writes, Next;
    if steps != [] {
      NextKeepsInv(s, steps[0]);
      VersionsWritten(Next(s, steps[0]), steps[1..], i, e);
      if Version(Next(s, steps[0]), i, e) {
        VersionStep(s, steps[0], i, e);
      }
    }
  }

  lemma VersionStep(s: System, step: Step, i: Id, e: Event)
    requires Inv(s) && Enabled(s, step) && Version(Next(s, step), i, e)
    ensures Version(s, i, e) || Writes(s, step, i, e)
  {
    hide RowOutcome, ValidClaim, Exclusive, Held;
    match step
    case Park(d) => HeadVersion(s, step, i, e, Sent(0));
    case Refuse(d, error, at) => HeadVersion(s, step, i, e, Raised(error, at));
    case Mark(d, at) =>
      assert TxnOk(s.rows, s.sends, s.txns[d]);
      OutcomeIsMarked(s.rows[s.txns[d].sending.value], Sent(at), MarkedDispatched(s.rows[s.txns[d].sending.value], at));
    case _ =>
  }

  lemma HeadVersion(s: System, step: Step, i: Id, e: Event, reply: Reply)
    requires Enabled(s, step) && Version(Next(s, step), i, e)
    requires (step.Park? && reply == Sent(0)) || (step.Refuse? && reply == Raised(step.error, step.at))
    ensures Version(s, i, e) || Writes(s, step, i, e)
  {
    hide RowOutcome, ValidClaim;
    var t := s.txns[step.d];
    OutcomeIsMarked(s.rows[t.todo[0]], reply, Marked(s.rows[t.todo[0]], reply));
  }

  /** Nothing in a row is made up: in every reachable state each row is as published, or is what the sweep
      makes, by its topic and its reply, of the row that was committed when the sweep handled it. */
  lemma RowsHaveOrigins(steps: seq<Step>, i: Id)
    requires Possible(EMPTY, steps) && i in Run(EMPTY, steps).rows
    ensures Written(EMPTY, steps, i, Run(EMPTY, steps).rows[i])
  {
    VersionsWritten(EMPTY, steps, i, Run(EMPTY, steps).rows[i]);
  }

  /** A step of the run marks row i at this time. */
  ghost predicate MarkedIn(s: System, steps: seq<Step>, i: Id, at: int)
    requires Possible(s, steps)
    decreases |steps|
  {
    steps != [] && (MarksRow(s, steps[0], i, at) || MarkedIn(Next(s, steps[0]), steps[1..], i, at))
  }

  lemma {:induction false} DispatchedIsMarked(s: System, steps: seq<Step>, i: Id, e: Event)
    requires Inv(s) && Possible(s, steps) && Written(s, steps, i, e) && e.status == Dispatched
    ensures e.dispatchedAt.Some? && MarkedIn(s, steps, i, e.dispatchedAt.value)
    decreases |steps|
  {
    hide Inv, Next;
    if Writes(s, steps[0], i, e) {
      HandledPending(s, steps[0], i, e);
    } else {
      NextKeepsInv(s, steps[0]);
      DispatchedIsMarked(Next(s, steps[0]), steps[1..], i, e);
    }
  }

  /** Only a mark makes a row dispatched. */
  lemma HandledPending(s: System, step: Step, i: Id, e: Event)
    requires Inv(s) && Writes(s, step, i, e) && e.status == Dispatched
    ensures e.dispatchedAt.Some? && MarksRow(s, step, i, e.dispatchedAt.value)
  {
    if step.Refuse? {
      assert TxnOk(s.rows, s.sends, s.txns[step.d]) && Holds(s.txns[step.d], i);
    }
  }

  /** Over every run a committed dispatched row carries the time at which a handler's return for it was
      recorded, and it may be purged exactly when that time lies before the cutoff. */
  lemma PurgedByStamp(steps: seq<Step>, i: Id, cutoff: int)
    requires Possible(EMPTY, steps) && i in Run(EMPTY, steps).rows
    ensures var s := Run(EMPTY, steps);
      var e := s.rows[i];
      && (e.status == Dispatched ==> e.dispatchedAt.Some? && MarkedIn(EMPTY, steps, i, e.dispatchedAt.value)
                                     && (Enabled(s, Purge({i}, cutoff)) <==> e.dispatchedAt.value < cutoff))
      && (e.status != Dispatched ==> !Enabled(s, Purge({i}, cutoff)))
  {
    hide Inv, Run, Possible, Written, MarkedIn;
    var e := Run(EMPTY, steps).rows[i];
    RowsHaveOrigins(steps, i);
    assert i in {i};
    if e.status == Dispatched {
      EmptyInv();
      DispatchedIsMarked(EMPTY, steps, i, e);
    }
  }

  lemma EmptyInv()
    ensures Inv(EMPTY)
  {
  }

  // ---------------------------------------------------------------- one sweep as a run

  lemma {:induction false} RunAppend(s: System, a: seq<Step>, b: seq<Step>)
    requires Possible(s, a) && Possible(Run(s, a), b)
    ensures Possible(s, a + b) && Run(s, a + b) == Run(Run(s, a), b)
    decreases |a|
  {
    hide Enabled, Next;
    if a == [] {
      assert a + b == b;
    } else {
      assert (a + b)[1..] == a[1..] + b;
      RunAppend(Next(s, a[0]), a[1..], b);
    }
  }

  lemma RunNone(s: System)
    ensures Possible(s, []) && Run(s, []) == s
  {
  }

  lemma RunOne(s: System, step: Step)
    requires Enabled(s, step)
    ensures Possible(s, [step]) && Run(s, [step]) == Next(s, step)
  {
    hide Enabled, Next;
    assert [step][1..] == [];
    assert Run(Next(s, step), []) == Next(s, step);
  }

  /** The steps by which dispatcher d handles the first n events of its batch. */
  function SweepSteps(rows: Table, d: nat, batch: seq<Id>, replies: seq<Reply>, n: nat): seq<Step>
    requires n <= |batch| <= |replies| && forall i :: i in batch ==> i in rows
  {
    if n == 0 then []
    else SweepSteps(rows, d, batch, replies, n - 1) + OneSteps(rows[batch[n - 1]], d, replies[n - 1])
  }

  function OneSteps(e: Event, d: nat, reply: Reply): seq<Step> {
    if e.topic !in TOPICS then [Park(d)]
    else match reply
         case Sent(at) => [Send(d), Mark(d, at)]
         case Raised(error, at) => [Refuse(d, error, at)]
  }

  lemma HandleOne(s: System, d: nat, batch: seq<Id>, k: nat, reply: Reply, done: Table)
    requires k < |batch| && batch[k] in s.rows
    requires d in s.txns && s.txns[d] == Txn(batch[k..], None, done)
    ensures var e := s.rows[batch[k]];
      var steps := OneSteps(e, d, reply);
      Possible(s, steps)
      && Run(s, steps) == s.(txns := s.txns[d := Txn(batch[k + 1..], None, done[batch[k] := Marked(e, reply)])],
                             sends := s.sends + if WasSent(e, reply) then [batch[k]] else [])
  {
    var e := s.rows[batch[k]];
    assert batch[k..][0] == batch[k] && batch[k..][1..] == batch[k + 1..];
    assert s.sends + [] == s.sends;
    if e.topic !in TOPICS {
      RunOne(s, Park(d));
    } else {
      match reply
      case Raised(error, at) => RunOne(s, Refuse(d, error, at));
      case Sent(at) =>
        var s1 := Next(s, Send(d));
        RunOne(s, Send(d));
        RunOne(s1, Mark(d, at));
        RunAppend(s, [Send(d)], [Mark(d, at)]);
        assert [Send(d)] + [Mark(d, at)] == [Send(d), Mark(d, at)];
        assert Next(s1, Mark(d, at)).txns == s.txns[d := Txn(batch[k + 1..], None, done[batch[k] := Marked(e, reply)])];
    }
  }

  lemma {:induction false} HandleMany(s: System, d: nat, batch: seq<Id>, replies: seq<Reply>, n: nat)
    requires n <= |batch| <= |replies| && forall i :: i in batch ==> i in s.rows
    requires d in s.txns && s.txns[d] == Txn(batch, None, map[])
    ensures Possible(s, SweepSteps(s.rows, d, batch, replies, n))
    ensures Run(s, SweepSteps(s.rows, d, batch, replies, n))
         == s.(txns := s.txns[d := Txn(batch[n..], None, Changes(s.rows, batch, replies, n))],
               sends := s.sends + SentIds(s.rows, batch, replies, n))
    decreases n
  {
    hide Enabled, Next, Marked, WasSent, Possible, Run, OneSteps;
    if n == 0 {
      RunNone(s);
      assert batch[0..] == batch && s.sends + [] == s.sends;
      assert s.txns[d := Txn(batch, None, map[])] == s.txns;
    } else {
      HandleMany(s, d, batch, replies, n - 1);
      var first := SweepSteps(s.rows, d, batch, replies, n - 1);
      var u := Run(s, first);
      HandleOne(u, d, batch, n - 1, replies[n - 1], Changes(s.rows, batch, replies, n - 1));
      RunAppend(s, first, OneSteps(s.rows[batch[n - 1]], d, replies[n - 1]));
    }
  }

  /** The sweep method is one of the runs above: claim, handle each event, commit. */
  lemma SweepIsARun(s: System, d: nat, batch: seq<Id>, replies: seq<Reply>, now: int, limit: nat)
    requires |batch| <= |replies| && Enabled(s, Claim(d, batch, now, limit))
    ensures var steps := [Claim(d, batch, now, limit)] + SweepSteps(s.rows, d, batch, replies, |batch|) + [Commit(d)];
      Possible(s, steps)
      && Run(s, steps).rows == s.rows + Changes(s.rows, batch, replies, |batch|)
      && Run(s, steps).sends == s.sends + SentIds(s.rows, batch, replies, |batch|)
      && Run(s, steps).txns == s.txns
  {
    hide Possible, Run, SweepSteps, Changes, SentIds;
    var claim, handle := Claim(d, batch, now, limit), SweepSteps(s.rows, d, batch, replies, |batch|);
    var s1 := s.(txns := s.txns[d := Txn(batch, None, map[])]);
    RunOne(s, claim);
    HandleMany(s1, d, batch, replies, |batch|);
    RunAppend(s, [claim], handle);
    var s2 := Run(s1, handle);
    RunOne(s2, Commit(d));
    RunAppend(s, [claim] + handle, [Commit(d)]);
    assert s2.txns - {d} == s.txns;
  }

  // ---------------------------------------------------------------- how often a handler can return

  /** The send of i is recorded: committed, purged, or waiting in an open transaction. */
  ghost predicate Recorded(s: System, i: Id) {
    || i in s.purged
    || (i in s.rows && s.rows[i].status == Dispatched)
    || (exists d :: d in s.txns && RecordedIn(s.txns[d], i))
  }

  predicate RecordedIn(t: Txn, i: Id) {
    t.sending == Some(i) || (i in t.changes && t.changes[i].status == Dispatched)
  }

  ghost predicate SendsBounded(s: System) {
    forall i :: multiset(s.sends)[i] <= s.crashes + if Recorded(s, i) then 1 else 0
  }

  /** Every step but a send keeps a recorded send recorded, or is a crash. */
  lemma RecordedKept(s: System, step: Step, i: Id)
    requires Inv(s) && Enabled(s, step) && !step.Crash? && Recorded(s, i)
    ensures Recorded(Next(s, step), i)
  {
    var u := Next(s, step);
    if i in s.rows && s.rows[i].status == Dispatched {
      if step.Commit? {
        assert i in s.txns[step.d].changes ==> Holds(s.txns[step.d], i);
      }
    } else if d :| d in s.txns && RecordedIn(s.txns[d], i) {
      assert Holds(s.txns[d], i);
      if step.Commit? && step.d == d {
        assert u.rows[i].status == Dispatched;
      } else {
        assert d in u.txns;
        RecordedInKept(s, step, d, i);
      }
    }
  }

  lemma RecordedInKept(s: System, step: Step, d: nat, i: Id)
    requires Inv(s) && Enabled(s, step) && d in s.txns && RecordedIn(s.txns[d], i)
    requires !(step.Crash? && step.d == d) && !(step.Commit? && step.d == d)
    ensures d in Next(s, step).txns && RecordedIn(Next(s, step).txns[d], i)
  {
    assert TxnOk(s.rows, s.sends, s.txns[d]);
    if (step.Park? || step.Refuse? || step.Send?) && step.d == d {
      assert s.txns[d].todo[0] in s.txns[d].todo;
    }
  }

  /** An event that a dispatcher has not handled yet has no recorded send: its lock kept others away. */
  lemma HeadNotRecorded(s: System, d: nat)
    requires Inv(s) && AtHead(s, d, true)
    ensures !Recorded(s, s.txns[d].todo[0])
  {
    var i := s.txns[d].todo[0];
    assert Holds(s.txns[d], i);
    if e :| e in s.txns && RecordedIn(s.txns[e], i) {
      assert Holds(s.txns[e], i);
    }
  }

  lemma NextKeepsBound(s: System, step: Step)
    requires Inv(s) && Enabled(s, step) && SendsBounded(s)
    ensures SendsBounded(Next(s, step))
  {
    var u := Next(s, step);
    if step.Send? {
      HeadNotRecorded(s, step.d);
      assert RecordedIn(u.txns[step.d], s.txns[step.d].todo[0]);
    }
    forall i ensures multiset(u.sends)[i] <= u.crashes + if Recorded(u, i) then 1 else 0 {
      if !step.Crash? && Recorded(s, i) {
        RecordedKept(s, step, i);
      }
    }
  }

  lemma {:induction false} RunKeepsBound(s: System, steps: seq<Step>)
    requires Inv(s) && SendsBounded(s) && Possible(s, steps)
    ensures SendsBounded(Run(s, steps))
    decreases |steps|
  {
    hide Inv, SendsBounded;
    if steps != [] {
      NextKeepsBound(s, steps[0]);
      NextKeepsInv(s, steps[0]);
      RunKeepsBound(Next(s, steps[0]), steps[1..]);
    }
  }

  /** At most one send per event plus one per crash, over any number of interleaved dispatchers: so
      exactly-once dispatch when nothing crashes. */
  lemma SendsPerEvent(steps: seq<Step>, i: Id)
    requires Possible(EMPTY, steps)
    ensures multiset(Run(EMPTY, steps).sends)[i] <= Run(EMPTY, steps).crashes + 1
  {
    RunKeepsBound(EMPTY, steps);
  }

  function Crashing(n: nat): seq<Step> {
    if n == 0 then [] else [Claim(1, [0], 0, 100), Send(1), Crash(1)] + Crashing(n - 1)
  }

  /** One round: claim, send, die before the commit. */
  lemma OneRound(s: System)
    requires s.txns == map[] && 0 in s.rows && s.rows.Keys == {0}
    requires s.rows[0].status == Pending && s.rows[0].topic in TOPICS && s.rows[0].availableAt <= 0
    ensures var round := [Claim(1, [0], 0, 100), Send(1), Crash(1)];
      Possible(s, round) && Run(s, round) == s.(sends := s.sends + [0], crashes := s.crashes + 1)
  {
    assert ValidClaim(s.rows, Held(s), 0, 100, [0]);
    hide Possible, Run, ValidClaim;
    var s1 := s.(txns := map[1 := Txn([0], None, map[])]);
    assert Next(s, Claim(1, [0], 0, 100)) == s1;
    var s2 := s.(txns := map[1 := Txn([], Some(0), map[])], sends := s.sends + [0]);
    assert [0][1..] == [];
    assert Next(s1, Send(1)) == s2;
    assert Next(s2, Crash(1)) == s.(sends := s.sends + [0], crashes := s.crashes + 1);
    RunOne(s, Claim(1, [0], 0, 100));
    RunOne(s1, Send(1));
    RunOne(s2, Crash(1));
    RunAppend(s, [Claim(1, [0], 0, 100)], [Send(1)]);
    RunAppend(s, [Claim(1, [0], 0, 100), Send(1)], [Crash(1)]);
    assert [Claim(1, [0], 0, 100)] + [Send(1)] == [Claim(1, [0], 0, 100), Send(1)];
    assert [Claim(1, [0], 0, 100), Send(1)] + [Crash(1)] == [Claim(1, [0], 0, 100), Send(1), Crash(1)];
  }

  lemma {:induction false} CrashesRepeat(s: System, n: nat)
    requires s.txns == map[] && 0 in s.rows && s.rows.Keys == {0}
    requires s.rows[0].status == Pending && s.rows[0].topic in TOPICS && s.rows[0].availableAt <= 0
    ensures Possible(s, Crashing(n))
    ensures Run(s, Crashing(n)).rows == s.rows
    ensures multiset(Run(s, Crashing(n)).sends)[0] == multiset(s.sends)[0] + n
    ensures Run(s, Crashing(n)).crashes == s.crashes + n
    ensures Run(s, Crashing(n)).txns == map[]
    decreases n
  {
    if n > 0 {
      hide Enabled, Next, Possible, Run;
      var round := [Claim(1, [0], 0, 100), Send(1), Crash(1)];
      OneRound(s);
      CrashesRepeat(Run(s, round), n - 1);
      RunAppend(s, round, Crashing(n - 1));
    } else {
      assert Run(s, []) == s;
    }
  }

  /** At-least-once is all there is, and the bound on sends is the best one: after n crashes between
      send and commit and one sweep that ends well, the event was sent n + 1 times. */
  lemma RepeatedSends(n: nat)
    ensures exists steps :: (Possible(EMPTY, steps) && Run(EMPTY, steps).crashes == n
      && multiset(Run(EMPTY, steps).sends)[0] == n + 1)
  {
    var first := Publish(0, "evals.run", "default", 0);
    RunOne(EMPTY, first);
    var s := Next(EMPTY, first);
    CrashesRepeat(s, n);
    RunAppend(EMPTY, [first], Crashing(n));
    var u := Run(s, Crashing(n));
    assert ValidClaim(u.rows, Held(u), 0, 100, [0]);
    var claim := Claim(1, [0], 0, 100);
    RunOne(u, claim);
    var v := Next(u, claim);
    RunOne(v, Send(1));
    RunAppend(u, [claim], [Send(1)]);
    RunAppend(EMPTY, [first] + Crashing(n), [claim] + [Send(1)]);
    assert Possible(EMPTY, [first] + Crashing(n) + ([claim] + [Send(1)]));
  }
}
