/** Check-then-record caps of backend/src/ragz/core/ratelimit.py: peek_rate_limit with record_failure,
    and peek_daily_cap with record_daily_usage, under any interleaving. */
module UsageCap {
  import opened Prelude
  import opened RedisKey
  import opened RateLimit

  datatype Kind = Failures | Daily

  predicate Passes(kind: Kind, slot: Slot, now: int, limit: int) {
    match kind
    case Failures => RatePeekPasses(slot, now, limit)
    case Daily => DailyPeekPasses(slot, now, limit)
  }

  /** `inFlight` counts the callers between a passed peek and their record. */
  datatype CapSystem = CapSystem(server: Server, inFlight: nat)

  /** Peek passes or is refused; a caller in flight records, or ends without recording (a success, a
      failed provider call, a crash). Arm is the EXPIRE NX of some earlier record. */
  datatype CapStep = Elapse(seconds: nat) | Peek | Record | Abandon | ArmExpiry

  const FRESH := CapSystem(Server(None, 0), 0)

  predicate CapEnabled(s: CapSystem, step: CapStep) {
    (step.Record? || step.Abandon?) ==> s.inFlight > 0
  }

  function CapNext(s: CapSystem, step: CapStep, kind: Kind, limit: int, window: int): CapSystem
    requires CapEnabled(s, step)
  {
    match step
    case Elapse(seconds) => s.(server := Executed(s.server, Wait(seconds)))
    case Peek => if Passes(kind, s.server.slot, s.server.now, limit) then s.(inFlight := s.inFlight + 1) else s
    case Record => CapSystem(Executed(s.server, Incr), s.inFlight - 1)
    case Abandon => s.(inFlight := s.inFlight - 1)
    case ArmExpiry => s.(server := Executed(s.server, ExpireNx(window)))
  }

  /** A run in which never more than k callers are in flight at once. */
  predicate CapRun(s: CapSystem, steps: seq<CapStep>, kind: Kind, limit: int, window: int, k: nat)
    decreases |steps|
  {
    s.inFlight <= k
    && (steps == []
        || (CapEnabled(s, steps[0])
            && CapRun(CapNext(s, steps[0], kind, limit, window), steps[1..], kind, limit, window, k)))
  }

  function CapEnd(s: CapSystem, steps: seq<CapStep>, kind: Kind, limit: int, window: int, k: nat): CapSystem
    requires CapRun(s, steps, kind, limit, window, k)
    decreases |steps|
  {
    if steps == [] then s else CapEnd(CapNext(s, steps[0], kind, limit, window), steps[1..], kind, limit, window, k)
  }

  function Used(server: Server): int {
    match Live(server.slot, server.now)
    case None => 0
    case Some(e) => e.value
  }

  /** A failure counter with a limit of zero or less still lets the first caller through: an absent
      key always passes the peek. */
  function Ceiling(limit: int): (c: nat)
    ensures c >= 1
  {
    if limit >= 1 then limit else 1
  }

  predicate CapInv(s: CapSystem, limit: int, k: nat) {
    && s.inFlight <= k
    && Used(s.server) + s.inFlight <= Ceiling(limit) - 1 + k
    && (s.server.slot.Some? ==> s.server.slot.value.value >= 1)
  }

  lemma {:induction false} CapRunKeepsInv(s: CapSystem, steps: seq<CapStep>, kind: Kind, limit: int,
                                          window: int, k: nat)
    requires kind.Daily? ==> limit >= 1
    requires CapRun(s, steps, kind, limit, window, k) && CapInv(s, limit, k)
    ensures CapInv(CapEnd(s, steps, kind, limit, window, k), limit, k)
    decreases |steps|
  {
    if steps != [] {
      CapRunKeepsInv(CapNext(s, steps[0], kind, limit, window), steps[1..], kind, limit, window, k);
    }
  }

  /** The overshoot of a split cap is bounded by its concurrency: with at most k callers in flight the
      counter never passes limit + k - 1, across expiry, crashes and outcomes that are not recorded. */
  lemma OvershootBounded(steps: seq<CapStep>, kind: Kind, limit: int, window: int, k: nat)
    requires kind.Daily? ==> limit >= 1
    requires CapRun(FRESH, steps, kind, limit, window, k)
    ensures var s := CapEnd(FRESH, steps, kind, limit, window, k);
      Used(s.server) + s.inFlight <= Ceiling(limit) + k - 1
  {
    CapRunKeepsInv(FRESH, steps, kind, limit, window, k);
  }

  // ---------------------------------------------------------------- reached, and when there is no cap

  function Repeat(step: CapStep, n: nat): seq<CapStep> {
    if n == 0 then [] else [step] + Repeat(step, n - 1)
  }

  lemma {:induction false} CapAppend(s: CapSystem, a: seq<CapStep>, b: seq<CapStep>, kind: Kind, limit: int,
                                     window: int, k: nat)
    requires CapRun(s, a, kind, limit, window, k)
    requires CapRun(CapEnd(s, a, kind, limit, window, k), b, kind, limit, window, k)
    ensures CapRun(s, a + b, kind, limit, window, k)
    ensures CapEnd(s, a + b, kind, limit, window, k)
         == CapEnd(CapEnd(s, a, kind, limit, window, k), b, kind, limit, window, k)
    decreases |a|
  {
    if a == [] {
      assert a + b == b;
    } else {
      assert (a + b)[1..] == a[1..] + b;
      CapAppend(CapNext(s, a[0], kind, limit, window), a[1..], b, kind, limit, window, k);
    }
  }

  lemma {:induction false} ManyPeeks(s: CapSystem, n: nat, kind: Kind, limit: int, window: int, k: nat)
    requires s.inFlight + n <= k && Passes(kind, s.server.slot, s.server.now, limit)
    ensures CapRun(s, Repeat(Peek, n), kind, limit, window, k)
    ensures CapEnd(s, Repeat(Peek, n), kind, limit, window, k) == s.(inFlight := s.inFlight + n)
    decreases n
  {
    if n > 0 {
      ManyPeeks(s.(inFlight := s.inFlight + 1), n - 1, kind, limit, window, k);
      assert Repeat(Peek, n)[1..] == Repeat(Peek, n - 1);
    }
  }

  lemma {:induction false} ManyRecords(s: CapSystem, n: nat, kind: Kind, limit: int, window: int, k: nat)
    requires n <= s.inFlight <= k
    requires s.server.slot.Some? ==> s.server.slot.value.expiry.None?
    ensures CapRun(s, Repeat(Record, n), kind, limit, window, k)
    ensures var t := CapEnd(s, Repeat(Record, n), kind, limit, window, k);
      t.inFlight == s.inFlight - n && Used(t.server) == Used(s.server) + n && t.server.now == s.server.now
      && (t.server.slot.Some? ==> t.server.slot.value.expiry.None?)
    decreases n
  {
    if n > 0 {
      ManyRecords(CapNext(s, Record, kind, limit, window), n - 1, kind, limit, window, k);
      assert Repeat(Record, n)[1..] == Repeat(Record, n - 1);
    }
  }

  /** One caller at a time, n times over. */
  function Sequential(n: nat): seq<CapStep> {
    if n == 0 then [] else [Peek, Record] + Sequential(n - 1)
  }

  lemma {:induction false} SequentialRuns(s: CapSystem, n: nat, kind: Kind, limit: int, window: int, k: nat)
    requires k >= 1 && s.inFlight == 0
    requires s.server.slot.Some? ==> s.server.slot.value.expiry.None?
    requires n == 0 || Used(s.server) + n == 1 || Used(s.server) + n <= limit || (kind.Daily? && limit <= 0)
    requires Used(s.server) == 0 ==> s.server.slot.None?
    requires Used(s.server) >= 0
    ensures CapRun(s, Sequential(n), kind, limit, window, k)
    ensures var t := CapEnd(s, Sequential(n), kind, limit, window, k);
      t.inFlight == 0 && Used(t.server) == Used(s.server) + n
      && (t.server.slot.Some? ==> t.server.slot.value.expiry.None?)
      && (Used(t.server) == 0 ==> t.server.slot.None?)
    decreases n
  {
    if n > 0 {
      assert Passes(kind, s.server.slot, s.server.now, limit);
      var s1 := CapNext(s, Peek, kind, limit, window);
      var s2 := CapNext(s1, Record, kind, limit, window);
      SequentialRuns(s2, n - 1, kind, limit, window, k);
      assert Sequential(n)[1..] == [Record] + Sequential(n - 1);
      assert Sequential(n)[1..][1..] == Sequential(n - 1);
    }
  }

  /** The bound is exact: one below the cap, then k callers pass before the first of them records. */
  lemma OvershootReached(kind: Kind, limit: int, window: int, k: nat)
    requires kind.Daily? ==> limit >= 1
    requires k >= 1
    ensures exists steps :: (CapRun(FRESH, steps, kind, limit, window, k)
      && Used(CapEnd(FRESH, steps, kind, limit, window, k).server) == Ceiling(limit) + k - 1)
  {
    var n := Ceiling(limit) - 1;
    SequentialRuns(FRESH, n, kind, limit, window, k);
    var s := CapEnd(FRESH, Sequential(n), kind, limit, window, k);
    ManyPeeks(s, k, kind, limit, window, k);
    var t := s.(inFlight := k);
    ManyRecords(t, k, kind, limit, window, k);
    CapAppend(s, Repeat(Peek, k), Repeat(Record, k), kind, limit, window, k);
    CapAppend(FRESH, Sequential(n), Repeat(Peek, k) + Repeat(Record, k), kind, limit, window, k);
  }

  /** A daily cap of zero or less is no cap: even one caller at a time reaches any count. */
  lemma NonPositiveDailyIsUnlimited(limit: int, window: int, n: nat)
    requires limit <= 0
    ensures exists steps :: (CapRun(FRESH, steps, Daily, limit, window, 1)
      && Used(CapEnd(FRESH, steps, Daily, limit, window, 1).server) == n)
  {
    SequentialRuns(FRESH, n, Daily, limit, window, 1);
  }
}
