/** The fixed-window limiter and the split caps of backend/src/ragz/core/ratelimit.py. */
module RateLimit {
  import opened Prelude
  import opened RedisKey

  // ---------------------------------------------------------------- the calls

  /** INCR and EXPIRE NX go out in one pipeline, which is not a transaction: `others` is what the
      other clients execute between the two. Whatever they do, a completed call leaves no key
      without an expiry. */
  method CheckRateLimit(redis: Redis, limit: int, window: int, others: seq<Command>)
    returns (exceeded: bool)
    modifies redis
    ensures exceeded <==> Incremented(old(redis.slot), old(redis.now)).value > limit
    ensures redis.State()
         == Executed(ExecutedAll(Executed(old(redis.State()), Incr), others), ExpireNx(window))
    ensures redis.slot.None? || redis.slot.value.expiry.Some?
  {
    var count := redis.Execute(Incr);
    redis.Interleave(others);
    var _ := redis.Execute(ExpireNx(window));
    exceeded := count > limit;
  }

  method RecordFailure(redis: Redis, window: int, others: seq<Command>)
    modifies redis
    ensures redis.State()
         == Executed(ExecutedAll(Executed(old(redis.State()), Incr), others), ExpireNx(window))
    ensures redis.slot.None? || redis.slot.value.expiry.Some?
  {
    var _ := redis.Execute(Incr);
    redis.Interleave(others);
    var _ := redis.Execute(ExpireNx(window));
  }

  method PeekRateLimit(redis: Redis, limit: int) returns (exceeded: bool)
    ensures exceeded <==> !RatePeekPasses(redis.slot, redis.now, limit)
  {
    var raw := redis.Get();
    exceeded := raw.Some? && raw.value >= limit;
  }

  method PeekDailyCap(redis: Redis, limit: int) returns (below: bool)
    ensures below <==> DailyPeekPasses(redis.slot, redis.now, limit)
  {
    if limit <= 0 {
      return true;
    }
    var raw := redis.Get();
    below := raw.None? || raw.value < limit;
  }

  predicate RatePeekPasses(slot: Slot, now: int, limit: int) {
    var live := Live(slot, now);
    live.None? || live.value.value < limit
  }

  predicate DailyPeekPasses(slot: Slot, now: int, limit: int) {
    limit <= 0 || RatePeekPasses(slot, now, limit)
  }

  // ---------------------------------------------------------------- all schedules of check_rate_limit

  /** One counted call: when, in which life of the key, and the reply of its INCR. */
  datatype Hit = Hit(at: int, epoch: nat, count: int)

  /** `births` holds the creation time of every life of the key so far; `counted` the callers that
      have done their INCR and not yet their EXPIRE. */
  datatype System = System(server: Server, counted: set<nat>, births: seq<int>, hits: seq<Hit>)

  datatype Step = Tick(seconds: nat) | Count(caller: nat) | Arm(caller: nat) | Crash(caller: nat)

  predicate Enabled(s: System, step: Step) {
    match step
    case Tick(_) => true
    case Count(c) => c !in s.counted
    case Arm(c) => c in s.counted
    case Crash(c) => c in s.counted
  }

  function Next(s: System, step: Step, window: int): System {
    match step
    case Tick(seconds) => s.(server := Executed(s.server, Wait(seconds)))
    case Count(c) =>
      var now := s.server.now;
      var isNew := Live(s.server.slot, now).None?;
      var births := if isNew then s.births + [now] else s.births;
      s.(server := Executed(s.server, Incr), counted := s.counted + {c}, births := births,
         hits := s.hits + [Hit(now, if |births| > 0 then |births| - 1 else 0,
                               Incremented(s.server.slot, now).value)])
    case Arm(c) => s.(server := Executed(s.server, ExpireNx(window)), counted := s.counted - {c})
    case Crash(c) => s.(counted := s.counted - {c})
  }

  const START := System(Server(None, 0), {}, [], [])

  predicate Schedule(s: System, steps: seq<Step>, window: int)
    decreases |steps|
  {
    steps == [] || (Enabled(s, steps[0]) && Schedule(Next(s, steps[0], window), steps[1..], window))
  }

  function Run(s: System, steps: seq<Step>, window: int): System
    decreases |steps|
  {
    if steps == [] then s else Run(Next(s, steps[0], window), steps[1..], window)
  }

  predicate Spaced(births: seq<int>, window: int) {
    forall j, k :: 0 <= j < k < |births| ==> births[j] + window <= births[k]
  }

  predicate Ordered(births: seq<int>, hits: seq<Hit>) {
    && (forall k :: 0 <= k < |hits| ==> HitOk(births, hits[k]))
    && (forall j, k :: 0 <= j < k < |hits| && hits[j].epoch == hits[k].epoch ==> hits[j].count < hits[k].count)
    && (forall j, k :: 0 <= j < k < |hits| ==> hits[j].epoch <= hits[k].epoch && hits[j].at <= hits[k].at)
    && (forall j, k :: 0 <= j < k < |births| ==> births[j] <= births[k])
  }

  /** A hit lies between the birth of its own epoch and the birth of the next one, and the first
      count of an epoch is its birth. */
  predicate HitOk(births: seq<int>, h: Hit) {
    && h.epoch < |births| && h.count >= 1 && births[h.epoch] <= h.at
    && (h.count == 1 ==> h.at == births[h.epoch])
    && (h.epoch + 1 < |births| ==> h.at <= births[h.epoch + 1])
  }

  ghost predicate Inv(s: System, window: int) {
    && Spaced(s.births, window) && Ordered(s.births, s.hits)
    && (forall k :: 0 <= k < |s.births| ==> s.births[k] <= s.server.now)
    && (forall k :: 0 <= k < |s.hits| ==> s.hits[k].at <= s.server.now)
    && (s.births == [] ==> s.server.slot.None?)
    && (s.births != [] ==> CurrentEpochOk(s.server, s.births[|s.births| - 1], window))
    && (s.server.slot.Some? ==>
          s.hits != []
          && s.hits[|s.hits| - 1].epoch == |s.births| - 1
          && s.server.slot.value.value == s.hits[|s.hits| - 1].count)
  }

  /** The key of the current epoch cannot go away before a full window has passed. */
  predicate CurrentEpochOk(server: Server, birth: int, window: int) {
    match server.slot
    case None => birth + window <= server.now
    case Some(e) => e.expiry.Some? ==> birth + window <= e.expiry.value
  }

  lemma NextKeepsInv(s: System, step: Step, window: int)
    requires Inv(s, window) && Enabled(s, step)
    ensures Inv(Next(s, step, window), window)
  {
    hide Ordered, Spaced, HitOk;
    if step.Count? {
      hide Next, Inv;
      CountKeepsInv(s, step.caller, window);
    }
  }

  lemma CountKeepsInv(s: System, c: nat, window: int)
    requires Inv(s, window) && c !in s.counted
    ensures Inv(Next(s, Count(c), window), window)
  {
    hide Ordered, Spaced, HitOk;
    var now := s.server.now;
    if Live(s.server.slot, now).None? {
      SpacedBirth(s.births, now, window);
      OrderedBirth(s.births, s.hits, now);
    } else {
      OrderedHit(s.births, s.hits, now);
    }
  }

  lemma SpacedBirth(births: seq<int>, now: int, window: int)
    requires Spaced(births, window)
    requires forall j :: 0 <= j < |births| ==> births[j] <= now
    requires births != [] ==> births[|births| - 1] + window <= now
    ensures Spaced(births + [now], window)
  {
    forall j | 0 <= j < |births| ensures births[j] + window <= now {
      assert j < |births| - 1 ==> births[j] + window <= births[|births| - 1] <= now;
    }
  }

  lemma OrderedBirth(births: seq<int>, hits: seq<Hit>, now: int)
    requires Ordered(births, hits)
    requires forall j :: 0 <= j < |births| ==> births[j] <= now
    requires forall j :: 0 <= j < |hits| ==> hits[j].at <= now
    ensures Ordered(births + [now], hits + [Hit(now, |births|, 1)])
  {
    assert forall k :: 0 <= k < |hits| ==> HitOk(births, hits[k]);
    assert forall k :: 0 <= k < |hits| ==> HitOk(births + [now], hits[k]);
  }

  lemma OrderedHit(births: seq<int>, hits: seq<Hit>, now: int)
    requires Ordered(births, hits)
    requires hits != [] && hits[|hits| - 1].epoch == |births| - 1
    requires forall j :: 0 <= j < |births| ==> births[j] <= now
    requires forall j :: 0 <= j < |hits| ==> hits[j].at <= now
    ensures Ordered(births, hits + [Hit(now, |births| - 1, hits[|hits| - 1].count + 1)])
  {
    var last := hits[|hits| - 1];
    assert HitOk(births, last);
    assert forall k :: 0 <= k < |hits| ==> HitOk(births, hits[k]);
    assert forall k :: 0 <= k < |hits| - 1 && hits[k].epoch == last.epoch ==> hits[k].count < last.count;
  }

  lemma {:induction false} RunKeepsInv(s: System, steps: seq<Step>, window: int)
    requires Inv(s, window) && Schedule(s, steps, window)
    ensures Inv(Run(s, steps, window), window)
    decreases |steps|
  {
    if steps != [] {
      NextKeepsInv(s, steps[0], window);
      RunKeepsInv(Next(s, steps[0], window), steps[1..], window);
    }
  }

  /** Under every schedule, with crashes between the two commands, each epoch that has ended began at
      least a window before the next one. */
  lemma EpochsLast(steps: seq<Step>, window: int)
    requires Schedule(START, steps, window)
    ensures Spaced(Run(START, steps, window).births, window)
  {
    RunKeepsInv(START, steps, window);
  }

  // ---------------------------------------------------------------- the bound on admitted calls

  /** A call is admitted when its count is within the limit; its time is that of its INCR. */
  predicate AdmittedIn(h: Hit, limit: int, from: int, to: int) { h.count <= limit && from <= h.at < to }

  function Admitted(hits: seq<Hit>, limit: int, from: int, to: int): nat {
    if hits == [] then 0
    else Admitted(hits[..|hits| - 1], limit, from, to)
         + if AdmittedIn(hits[|hits| - 1], limit, from, to) then 1 else 0
  }

  function AdmittedOf(hits: seq<Hit>, epoch: nat, limit: int, from: int, to: int): nat {
    if hits == [] then 0
    else AdmittedOf(hits[..|hits| - 1], epoch, limit, from, to)
         + if hits[|hits| - 1].epoch == epoch && AdmittedIn(hits[|hits| - 1], limit, from, to) then 1 else 0
  }

  /** One epoch admits at most the limit, and one less per count known to lie outside the interval. */
  lemma {:induction false} EpochBound(births: seq<int>, hits: seq<Hit>, epoch: nat, limit: int,
                                      from: int, to: int, low: nat, high: int)
    requires Ordered(births, hits)
    requires forall k :: 0 <= k < |hits| && hits[k].epoch == epoch && AdmittedIn(hits[k], limit, from, to)
                         ==> low < hits[k].count <= high
    ensures AdmittedOf(hits, epoch, limit, from, to) <= if high > low then high - low else 0
    decreases |hits|
  {
    if hits != [] {
      var init, last := hits[..|hits| - 1], hits[|hits| - 1];
      if last.epoch == epoch && AdmittedIn(last, limit, from, to) {
        EpochBound(births, init, epoch, limit, from, to, low, last.count - 1);
      } else {
        EpochBound(births, init, epoch, limit, from, to, low, high);
      }
    }
  }

  lemma {:induction false} TwoEpochs(hits: seq<Hit>, epoch: nat, limit: int, from: int, to: int)
    requires forall k :: 0 <= k < |hits| && AdmittedIn(hits[k], limit, from, to)
                         ==> epoch <= hits[k].epoch <= epoch + 1
    ensures Admitted(hits, limit, from, to)
         == AdmittedOf(hits, epoch, limit, from, to) + AdmittedOf(hits, epoch + 1, limit, from, to)
    decreases |hits|
  {
    if hits != [] {
      TwoEpochs(hits[..|hits| - 1], epoch, limit, from, to);
    }
  }

  lemma {:induction false} NoneAdmitted(hits: seq<Hit>, limit: int, from: int, to: int)
    requires forall k :: 0 <= k < |hits| ==> !AdmittedIn(hits[k], limit, from, to)
    ensures Admitted(hits, limit, from, to) == 0
    decreases |hits|
  {
    if hits != [] { NoneAdmitted(hits[..|hits| - 1], limit, from, to); }
  }

  lemma FarApart(births: seq<int>, a: Hit, b: Hit, window: int)
    requires Spaced(births, window) && HitOk(births, a) && HitOk(births, b)
    ensures a.epoch + 1 < b.epoch ==> a.at + window <= b.at
  {
    if a.epoch + 1 < b.epoch {
      assert births[a.epoch + 1] + window <= births[b.epoch];
    }
  }

  lemma WindowBound(births: seq<int>, hits: seq<Hit>, limit: int, from: int, window: int)
    requires Spaced(births, window) && Ordered(births, hits)
    ensures Admitted(hits, limit, from, from + window) <= if limit > 0 then 2 * limit - 1 else 0
  {
    var to := from + window;
    var i := FirstAdmitted(hits, limit, from, to);
    if i == |hits| {
      NoneAdmitted(hits, limit, from, to);
    } else {
      var e := hits[i].epoch;
      forall k | 0 <= k < |hits| && AdmittedIn(hits[k], limit, from, to)
        ensures e <= hits[k].epoch <= e + 1
      {
        assert HitOk(births, hits[i]) && HitOk(births, hits[k]);
        assert k >= i;
        FarApart(births, hits[i], hits[k], window);
      }
      TwoEpochs(hits, e, limit, from, to);
      TwoEpochBound(births, hits, e, limit, from, to);
    }
  }

  /** When the interval reaches into the next epoch, the birth of this one lies before it. */
  lemma TwoEpochBound(births: seq<int>, hits: seq<Hit>, e: nat, limit: int, from: int, to: int)
    requires Spaced(births, to - from) && Ordered(births, hits)
    ensures AdmittedOf(hits, e, limit, from, to) + AdmittedOf(hits, e + 1, limit, from, to)
         <= if limit > 0 then 2 * limit - 1 else 0
  {
    EpochBound(births, hits, e, limit, from, to, 0, limit);
    EpochBound(births, hits, e + 1, limit, from, to, 0, limit);
    if k :| 0 <= k < |hits| && AdmittedIn(hits[k], limit, from, to) && hits[k].epoch == e + 1 {
      assert HitOk(births, hits[k]);
      forall j | 0 <= j < |hits| && hits[j].epoch == e && AdmittedIn(hits[j], limit, from, to)
        ensures 1 < hits[j].count <= limit
      {
        assert HitOk(births, hits[j]);
        assert births[e] + (to - from) <= births[e + 1];
      }
      EpochBound(births, hits, e, limit, from, to, 1, limit);
    } else {
      EpochBound(births, hits, e + 1, limit, from, to, 0, 0);
    }
  }

  function FirstAdmitted(hits: seq<Hit>, limit: int, from: int, to: int): (i: nat)
    ensures i <= |hits|
    ensures forall k :: 0 <= k < i ==> !AdmittedIn(hits[k], limit, from, to)
    ensures i < |hits| ==> AdmittedIn(hits[i], limit, from, to)
  {
    if hits == [] || AdmittedIn(hits[0], limit, from, to) then 0
    else 1 + FirstAdmitted(hits[1..], limit, from, to)
  }

  /** The guarantee of the limiter: under every schedule, crash and delay, at most 2 * limit - 1 calls
      are admitted in any interval of one window's length, wherever it starts. */
  lemma AtMostTwiceTheLimit(steps: seq<Step>, limit: int, window: int, from: int)
    requires Schedule(START, steps, window)
    ensures Admitted(Run(START, steps, window).hits, limit, from, from + window)
         <= if limit > 0 then 2 * limit - 1 else 0
  {
    RunKeepsInv(START, steps, window);
    var s := Run(START, steps, window);
    WindowBound(s.births, s.hits, limit, from, window);
  }

  // ---------------------------------------------------------------- the bound is reached

  function Burst(n: nat): seq<Step> {
    if n == 0 then [] else [Count(0), Arm(0)] + Burst(n - 1)
  }

  function BurstHits(at: int, epoch: nat, value: int, n: nat): seq<Hit>
    decreases n
  {
    if n == 0 then [] else [Hit(at, epoch, value + 1)] + BurstHits(at, epoch, value + 1, n - 1)
  }

  lemma {:induction false} RunAppend(s: System, a: seq<Step>, b: seq<Step>, window: int)
    ensures Run(s, a + b, window) == Run(Run(s, a, window), b, window)
    ensures Schedule(s, a + b, window)
            <==> Schedule(s, a, window) && Schedule(Run(s, a, window), b, window)
    decreases |a|
  {
    if a == [] {
      assert a + b == b;
    } else {
      assert (a + b)[1..] == a[1..] + b;
      RunAppend(Next(s, a[0], window), a[1..], b, window);
    }
  }

  lemma TwoSteps(s: System, x: Step, y: Step, window: int)
    ensures Run(s, [x, y], window) == Next(Next(s, x, window), y, window)
    ensures Schedule(s, [x, y], window) <==> Enabled(s, x) && Enabled(Next(s, x, window), y)
  {
    assert [x, y][1..] == [y];
    assert [y][1..] == [];
    assert Run(Next(s, x, window), [y], window) == Next(Next(s, x, window), y, window);
    assert Schedule(Next(s, x, window), [y], window) <==> Enabled(Next(s, x, window), y);
  }

  lemma {:induction false} BurstRuns(s: System, n: nat, window: int, value: int, expiry: int)
    requires s.counted == {} && s.births != []
    requires s.server.slot == Some(Entry(value, Some(expiry))) && s.server.now < expiry
    ensures Schedule(s, Burst(n), window)
    ensures Run(s, Burst(n), window)
         == s.(server := s.server.(slot := Some(Entry(value + n, Some(expiry)))),
               hits := s.hits + BurstHits(s.server.now, |s.births| - 1, value, n))
    decreases n
  {
    if n == 0 {
      assert s.hits + [] == s.hits;
    } else {
      hide Schedule, Run, Burst, BurstHits;
      BurstUnfolds(s.server.now, |s.births| - 1, value, n);
      var hit := Hit(s.server.now, |s.births| - 1, value + 1);
      var t := s.(server := s.server.(slot := Some(Entry(value + 1, Some(expiry)))), hits := s.hits + [hit]);
      TwoSteps(s, Count(0), Arm(0), window);
      assert Next(Next(s, Count(0), window), Arm(0), window) == t;
      RunAppend(s, [Count(0), Arm(0)], Burst(n - 1), window);
      BurstRuns(t, n - 1, window, value + 1, expiry);
      var more := BurstHits(s.server.now, |s.births| - 1, value + 1, n - 1);
      assert s.hits + [hit] + more == s.hits + ([hit] + more);
    }
  }

  lemma {:induction false} AdmittedAppend(a: seq<Hit>, b: seq<Hit>, limit: int, from: int, to: int)
    ensures Admitted(a + b, limit, from, to) == Admitted(a, limit, from, to) + Admitted(b, limit, from, to)
    decreases |b|
  {
    if b == [] {
      assert a + b == a;
    } else {
      assert (a + b)[..|a + b| - 1] == a + b[..|b| - 1];
      AdmittedAppend(a, b[..|b| - 1], limit, from, to);
    }
  }

  lemma {:induction false} AdmittedBurst(at: int, epoch: nat, value: int, n: nat, limit: int, from: int, to: int)
    requires value + n <= limit && from <= at < to
    ensures Admitted(BurstHits(at, epoch, value, n), limit, from, to) == n
    decreases n
  {
    if n > 0 {
      var first := [Hit(at, epoch, value + 1)];
      AdmittedAppend(first, BurstHits(at, epoch, value + 1, n - 1), limit, from, to);
      AdmittedBurst(at, epoch, value + 1, n - 1, limit, from, to);
      assert first[..0] == [];
    }
  }

  lemma BurstUnfolds(at: int, epoch: nat, value: int, n: nat)
    requires n > 0
    ensures Burst(n) == [Count(0), Arm(0)] + Burst(n - 1)
    ensures BurstHits(at, epoch, value, n) == [Hit(at, epoch, value + 1)] + BurstHits(at, epoch, value + 1, n - 1)
  {
  }

  /** A burst that fills an epoch from a key that does not exist. */
  lemma FreshBurst(s: System, limit: nat, window: nat)
    requires limit >= 1 && window >= 1
    requires s.counted == {} && Live(s.server.slot, s.server.now).None?
    ensures Schedule(s, Burst(limit), window)
    ensures Run(s, Burst(limit), window)
         == System(Server(Some(Entry(limit, Some(s.server.now + window))), s.server.now), {},
                   s.births + [s.server.now], s.hits + BurstHits(s.server.now, |s.births|, 0, limit))
  {
    hide Schedule, Run, Burst, BurstHits;
    var now := s.server.now;
    BurstUnfolds(now, |s.births|, 0, limit);
    var hit := Hit(now, |s.births|, 1);
    var t := System(Server(Some(Entry(1, Some(now + window))), now), {}, s.births + [now], s.hits + [hit]);
    TwoSteps(s, Count(0), Arm(0), window);
    assert Next(Next(s, Count(0), window), Arm(0), window) == t;
    RunAppend(s, [Count(0), Arm(0)], Burst(limit - 1), window);
    BurstRuns(t, limit - 1, window, 1, now + window);
    var more := BurstHits(now, |s.births|, 1, limit - 1);
    assert s.hits + [hit] + more == s.hits + ([hit] + more);
  }

  function Boundary(limit: nat, window: nat): seq<Step>
    requires limit >= 1 && window >= 1
  {
    Burst(1) + ([Tick(window - 1)] + (Burst(limit - 1) + ([Tick(1)] + Burst(limit))))
  }

  /** The steps are a schedule from s that ends in t. */
  predicate Leads(s: System, steps: seq<Step>, t: System, window: int) {
    Schedule(s, steps, window) && Run(s, steps, window) == t
  }

  lemma LeadsOn(s: System, a: seq<Step>, t: System, b: seq<Step>, u: System, window: int)
    requires Leads(s, a, t, window) && Leads(t, b, u, window)
    ensures Leads(s, a + b, u, window)
  {
    RunAppend(s, a, b, window);
  }

  /** The state just after one call at time zero, and after the rest of the limit at the window's end. */
  function Filled(n: nat, now: int, window: nat, hits: seq<Hit>): System {
    System(Server(Some(Entry(n, Some(window))), now), {}, [0], hits)
  }

  lemma FirstEpoch(limit: nat, window: nat)
    requires limit >= 1 && window >= 2
    ensures var first, second := BurstHits(0, 0, 0, 1), BurstHits(window - 1, 0, 1, limit - 1);
      && Leads(START, Burst(1), Filled(1, 0, window, first), window)
      && Leads(Filled(1, 0, window, first), [Tick(window - 1)], Filled(1, window - 1, window, first), window)
      && Leads(Filled(1, window - 1, window, first), Burst(limit - 1),
               Filled(limit, window - 1, window, first + second), window)
      && Leads(Filled(limit, window - 1, window, first + second), [Tick(1)],
               Filled(limit, window, window, first + second), window)
  {
    hide Schedule, Run, Burst, BurstHits;
    var first, second := BurstHits(0, 0, 0, 1), BurstHits(window - 1, 0, 1, limit - 1);
    FreshBurst(START, 1, window);
    assert [] + first == first && [] + [0] == [0];
    OneTick(Filled(1, 0, window, first), window - 1, window);
    BurstRuns(Filled(1, window - 1, window, first), limit - 1, window, 1, window);
    OneTick(Filled(limit, window - 1, window, first + second), 1, window);
  }

  lemma BoundaryAdmits(limit: nat, window: nat)
    requires limit >= 1 && window >= 2
    ensures var first, second, third :=
        BurstHits(0, 0, 0, 1), BurstHits(window - 1, 0, 1, limit - 1), BurstHits(window, 1, 0, limit);
      Admitted(first + second + third, limit, 1, 1 + window) == 2 * limit - 1
  {
    var first, second, third :=
      BurstHits(0, 0, 0, 1), BurstHits(window - 1, 0, 1, limit - 1), BurstHits(window, 1, 0, limit);
    AdmittedAppend(first + second, third, limit, 1, 1 + window);
    AdmittedAppend(first, second, limit, 1, 1 + window);
    AdmittedBurst(window - 1, 0, 1, limit - 1, limit, 1, 1 + window);
    AdmittedBurst(window, 1, 0, limit, limit, 1, 1 + window);
    assert first == [Hit(0, 0, 1)];
    assert first[..0] == [];
  }

  /** The bound cannot be lowered: one call, then the rest of the limit just before the window ends
      and a full limit just after it. */
  lemma BoundIsReached(limit: nat, window: nat)
    requires limit >= 1 && window >= 2
    ensures Schedule(START, Boundary(limit, window), window)
    ensures Admitted(Run(START, Boundary(limit, window), window).hits, limit, 1, 1 + window) == 2 * limit - 1
  {
    var first, second, third :=
      BurstHits(0, 0, 0, 1), BurstHits(window - 1, 0, 1, limit - 1), BurstHits(window, 1, 0, limit);
    var end := System(Server(Some(Entry(limit, Some(2 * window))), window), {}, [0, window], first + second + third);
    FirstEpoch(limit, window);
    LastBurst(limit, window, first + second);
    BoundaryAdmits(limit, window);
    hide Schedule, Run, Burst, BurstHits, Admitted, Leads;
    var s1, s2 := Filled(1, 0, window, first), Filled(1, window - 1, window, first);
    var s3, s4 := Filled(limit, window - 1, window, first + second), Filled(limit, window, window, first + second);
    LeadsOn(s3, [Tick(1)], s4, Burst(limit), end, window);
    LeadsOn(s2, Burst(limit - 1), s3, [Tick(1)] + Burst(limit), end, window);
    LeadsOn(s1, [Tick(window - 1)], s2, Burst(limit - 1) + ([Tick(1)] + Burst(limit)), end, window);
    LeadsOn(START, Burst(1), s1, [Tick(window - 1)] + (Burst(limit - 1) + ([Tick(1)] + Burst(limit))), end, window);
    LeadsMeans(START, Boundary(limit, window), end, window);
  }

  lemma LeadsMeans(s: System, steps: seq<Step>, t: System, window: int)
    requires Leads(s, steps, t, window)
    ensures Schedule(s, steps, window) && Run(s, steps, window) == t
  {
  }

  lemma LastBurst(limit: nat, window: nat, hits: seq<Hit>)
    requires limit >= 1 && window >= 1
    ensures Leads(Filled(limit, window, window, hits), Burst(limit),
                  System(Server(Some(Entry(limit, Some(2 * window))), window), {}, [0, window],
                         hits + BurstHits(window, 1, 0, limit)), window)
  {
    FreshBurst(Filled(limit, window, window, hits), limit, window);
    assert [0] + [window] == [0, window];
  }

  lemma OneTick(s: System, seconds: nat, window: int)
    ensures Run(s, [Tick(seconds)], window) == s.(server := s.server.(now := s.server.now + seconds))
    ensures Schedule(s, [Tick(seconds)], window)
  {
    assert [Tick(seconds)][1..] == [];
    assert Run(Next(s, Tick(seconds), window), [], window) == Next(s, Tick(seconds), window);
  }
}
