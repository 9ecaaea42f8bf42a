/** The replay claims of backend/src/ragz/core/idempotency.py: SET NX EX, and the high-water mark
    script. Each is one atomic command, so an interleaving of callers is a sequence of calls. */
module Idempotency {
  import opened Prelude
  import opened RedisKey

  /** Redis rejects EX with a time that is not positive; redis-py raises that reply. */
  datatype Outcome = Won | Lost | InvalidExpire

  /** One call: when it was executed, the value it presented (unused by claim_once), its ttl. */
  datatype Call = Call(at: int, value: int, ttl: int)

  // ---------------------------------------------------------------- claim_once

  function Once(slot: Slot, c: Call): (Slot, Outcome) {
    if c.ttl <= 0 then (slot, InvalidExpire)
    else if Live(slot, c.at).Some? then (slot, Lost)
    else (Some(Entry(1, Some(c.at + c.ttl))), Won)
  }

  // ---------------------------------------------------------------- claim_monotonic

  /** The script reads, compares and writes in one command; a rejected value writes nothing. */
  function Monotonic(slot: Slot, c: Call): (Slot, Outcome) {
    var current := Live(slot, c.at);
    if current.Some? && current.value.value >= c.value then (slot, Lost)
    else if c.ttl <= 0 then (slot, InvalidExpire)
    else (Some(Entry(c.value, Some(c.at + c.ttl))), Won)
  }

  class ClaimKey {
    var slot: Slot

    constructor ()
      ensures slot == None
    {
      slot := None;
    }

    method ClaimOnce(now: int, ttl: int) returns (outcome: Outcome)
      modifies this
      ensures (slot, outcome) == Once(old(slot), Call(now, 0, ttl))
    {
      if ttl <= 0 {
        return InvalidExpire;
      }
      var live := Live(slot, now);
      if live.Some? {
        return Lost;
      }
      slot := Some(Entry(1, Some(now + ttl)));
      outcome := Won;
    }

    method ClaimMonotonic(now: int, value: int, ttl: int) returns (outcome: Outcome)
      modifies this
      ensures (slot, outcome) == Monotonic(old(slot), Call(now, value, ttl))
    {
      var current := Live(slot, now);
      if current.Some? && current.value.value >= value {
        return Lost;
      }
      if ttl <= 0 {
        return InvalidExpire;
      }
      slot := Some(Entry(value, Some(now + ttl)));
      outcome := Won;
    }
  }

  // ---------------------------------------------------------------- runs

  predicate InTimeOrder(calls: seq<Call>) {
    forall i, j :: 0 <= i < j < |calls| ==> calls[i].at <= calls[j].at
  }

  /** The slot after the calls. */
  function SlotAfter(calls: seq<Call>, monotonic: bool): Slot {
    if calls == [] then None
    else
      var init, last := calls[..|calls| - 1], calls[|calls| - 1];
      if monotonic then Monotonic(SlotAfter(init, true), last).0 else Once(SlotAfter(init, false), last).0
  }

  function OutcomeOf(calls: seq<Call>, monotonic: bool, i: nat): Outcome
    requires i < |calls|
  {
    if monotonic then Monotonic(SlotAfter(calls[..i], true), calls[i]).1
    else Once(SlotAfter(calls[..i], false), calls[i]).1
  }

  predicate WonAt(calls: seq<Call>, monotonic: bool, i: int) {
    0 <= i < |calls| && OutcomeOf(calls, monotonic, i) == Won
  }

  /** No win before i is followed by another win before n: i is the latest. */
  ghost predicate LatestWin(calls: seq<Call>, monotonic: bool, i: int, n: nat) {
    i < n && WonAt(calls, monotonic, i) && forall j :: i < j < n ==> !WonAt(calls, monotonic, j)
  }

  /** The slot is exactly what the latest win wrote. */
  lemma {:induction false} SlotIsLatestWin(calls: seq<Call>, monotonic: bool, n: nat) returns (i: int)
    requires n <= |calls|
    ensures i == -1 ==> SlotAfter(calls[..n], monotonic).None? && forall j :: 0 <= j < n ==> !WonAt(calls, monotonic, j)
    ensures i != -1 ==> LatestWin(calls, monotonic, i, n) && calls[i].ttl > 0
    ensures i != -1 ==> SlotAfter(calls[..n], monotonic)
                        == Some(Entry(if monotonic then calls[i].value else 1, Some(calls[i].at + calls[i].ttl)))
    decreases n
  {
    i := -1;
    if n > 0 {
      assert calls[..n][..n - 1] == calls[..n - 1];
      var before := SlotIsLatestWin(calls, monotonic, n - 1);
      i := if WonAt(calls, monotonic, n - 1) then n - 1 else before;
    }
  }

  /** Exactly when claim_once wins: the ttl is valid and every earlier win has run out. */
  lemma {:induction false} OnceWinsExactly(calls: seq<Call>, n: nat)
    requires n < |calls| && InTimeOrder(calls)
    ensures WonAt(calls, false, n)
      <==> calls[n].ttl > 0
           && forall i :: 0 <= i < n && WonAt(calls, false, i) ==> calls[i].at + calls[i].ttl <= calls[n].at
  {
    var latest := SlotIsLatestWin(calls, false, n);
    if latest != -1 {
      forall i | 0 <= i < n && WonAt(calls, false, i)
        ensures calls[i].at + calls[i].ttl <= calls[latest].at + calls[latest].ttl
      {
        if i != latest {
          OnceWinsExactly(calls, latest);
        }
      }
    }
  }

  /** Exactly how claim_once ends otherwise: refused by Redis when the ttl is not positive, whatever the
      key holds, and lost when some earlier win still lives. */
  lemma OnceOutcomes(calls: seq<Call>, n: nat)
    requires n < |calls| && InTimeOrder(calls)
    ensures OutcomeOf(calls, false, n) == InvalidExpire <==> calls[n].ttl <= 0
    ensures OutcomeOf(calls, false, n) == Lost
      <==> calls[n].ttl > 0
           && exists i :: 0 <= i < n && WonAt(calls, false, i) && calls[n].at < calls[i].at + calls[i].ttl
  {
    OnceWinsExactly(calls, n);
  }

  /** Two wins of one key are at least the first one's ttl apart, for any calls in between. */
  lemma OnceWinsApart(calls: seq<Call>, i: nat, j: nat)
    requires InTimeOrder(calls) && i < j && WonAt(calls, false, i) && WonAt(calls, false, j)
    ensures calls[i].at + calls[i].ttl <= calls[j].at
  {
    OnceWinsExactly(calls, j);
  }

  // ---------------------------------------------------------------- the high-water mark

  /** The mark is alive just before call n: the latest win has not run out. */
  ghost predicate MarkAlive(calls: seq<Call>, n: nat, i: int) {
    n < |calls| && LatestWin(calls, true, i, n) && calls[n].at < calls[i].at + calls[i].ttl
  }

  /** Exactly when a value is accepted: the ttl is valid and no live mark is at or above it. A live mark at
      or above it is what rejects it, before the ttl is looked at. */
  lemma AcceptedExactly(calls: seq<Call>, n: nat)
    requires n < |calls|
    ensures WonAt(calls, true, n)
      <==> calls[n].ttl > 0 && forall i :: MarkAlive(calls, n, i) ==> calls[i].value < calls[n].value
    ensures OutcomeOf(calls, true, n) == Lost
      <==> exists i :: MarkAlive(calls, n, i) && calls[i].value >= calls[n].value
    ensures OutcomeOf(calls, true, n) == InvalidExpire
      <==> calls[n].ttl <= 0 && forall i :: MarkAlive(calls, n, i) ==> calls[i].value < calls[n].value
  {
    var latest := SlotIsLatestWin(calls, true, n);
    assert forall i :: LatestWin(calls, true, i, n) ==> i == latest;
    if latest != -1 && calls[n].at < calls[latest].at + calls[latest].ttl {
      assert MarkAlive(calls, n, latest);
    }
  }

  /** From the win at `from` up to call n the mark never ran out: every call found it alive. */
  ghost predicate AliveThroughout(calls: seq<Call>, from: nat, n: nat) {
    forall m, i :: from < m < n && LatestWin(calls, true, i, m) ==> MarkAlive(calls, m, i)
  }

  /** While the mark lives, accepted values are strictly increasing. */
  lemma {:induction false} AcceptedIncreases(calls: seq<Call>, i: nat, j: nat)
    requires i < j && WonAt(calls, true, i) && WonAt(calls, true, j)
    requires AliveThroughout(calls, i, j + 1)
    ensures calls[i].value < calls[j].value
    decreases j
  {
    AcceptedExactly(calls, j);
    var latest := SlotIsLatestWin(calls, true, j);
    assert latest >= i;
    assert MarkAlive(calls, j, latest);
    if latest > i {
      AcceptedIncreases(calls, i, latest);
    }
  }

  /** One call against a live mark: accepted and stored, or not accepted and the mark untouched. */
  lemma StepAgainstMark(calls: seq<Call>, n: nat, latest: int)
    requires MarkAlive(calls, n, latest)
    ensures SlotAfter(calls[..n + 1], true).Some?
    ensures var mark := SlotAfter(calls[..n + 1], true).value.value;
      if WonAt(calls, true, n) then mark == calls[n].value && calls[latest].value < mark
      else mark == calls[latest].value && (OutcomeOf(calls, true, n) == Lost ==> calls[n].value <= mark)
  {
    var i := SlotIsLatestWin(calls, true, n);
    assert LatestWin(calls, true, latest, n) && LatestWin(calls, true, i, n);
    assert i == latest;
    assert calls[..n + 1][..n] == calls[..n];
  }

  /** While the mark lives the stored value is the maximum of everything presented since it began,
      accepted or rejected; only a call that Redis refused for its ttl is set aside. */
  lemma {:induction false} MarkIsMaximum(calls: seq<Call>, from: nat, n: nat) returns (top: nat)
    requires from < n <= |calls| && WonAt(calls, true, from) && AliveThroughout(calls, from, n)
    ensures from <= top < n && LatestWin(calls, true, top, n)
    ensures SlotAfter(calls[..n], true).Some? && SlotAfter(calls[..n], true).value.value == calls[top].value
    ensures forall k :: from <= k < n && OutcomeOf(calls, true, k) != InvalidExpire
                        ==> calls[k].value <= calls[top].value
    decreases n
  {
    hide OutcomeOf, SlotAfter, Monotonic, Once;
    if n - 1 > from {
      top := MarkIsMaximum(calls, from, n - 1);
      StepAgainstMark(calls, n - 1, top);
      if WonAt(calls, true, n - 1) {
        top := n - 1;
      }
    } else {
      top := SlotIsLatestWin(calls, true, n);
    }
  }

  /** A value that is not above an earlier accepted one is accepted again only after the mark ran out:
      some acceptance p between them was followed by a full ttl in which nothing was accepted. */
  lemma ReacceptedOnlyAfterGap(calls: seq<Call>, i: nat, j: nat)
    requires i < j && WonAt(calls, true, i) && WonAt(calls, true, j)
    requires calls[j].value <= calls[i].value
    ensures exists p, m :: (i <= p < m <= j && LatestWin(calls, true, p, m)
                            && calls[p].at + calls[p].ttl <= calls[m].at)
  {
    if AliveThroughout(calls, i, j + 1) {
      AcceptedIncreases(calls, i, j);
    } else {
      var m, p :| i < m < j + 1 && LatestWin(calls, true, p, m) && !MarkAlive(calls, m, p);
      assert p >= i;
    }
  }

  /** The mark is not forever: once its ttl has passed without an acceptance, the very value that set
      it is accepted again, whatever else was presented in between. */
  lemma ReplayAfterExpiry(calls: seq<Call>, i: nat, n: nat)
    requires n < |calls| && LatestWin(calls, true, i, n)
    requires calls[n].value == calls[i].value && calls[n].ttl > 0
    ensures WonAt(calls, true, n) <==> calls[i].at + calls[i].ttl <= calls[n].at
  {
    AcceptedExactly(calls, n);
    assert forall k :: LatestWin(calls, true, k, n) ==> k == i;
    if calls[n].at < calls[i].at + calls[i].ttl {
      assert MarkAlive(calls, n, i);
    }
  }
}
