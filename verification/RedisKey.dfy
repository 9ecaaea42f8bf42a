/** One Redis key under a clock: the commands the limiter and the claims send, each atomic.
    Times and windows are whole seconds; a key is gone from the instant its expiry is reached. */
module RedisKey {
  import opened Prelude

  datatype Entry = Entry(value: int, expiry: Option<int>)

  type Slot = Option<Entry>

  function Live(slot: Slot, now: int): Slot {
    if slot.Some? && slot.value.expiry.Some? && slot.value.expiry.value <= now then None else slot
  }

  /** INCR: a missing key counts from zero and is created without an expiry. */
  function Incremented(slot: Slot, now: int): Entry {
    match Live(slot, now)
    case None => Entry(1, None)
    case Some(e) => e.(value := e.value + 1)
  }

  /** EXPIRE NX: arms only a key that exists and has no expiry; a window that is not positive
      deletes such a key at once. */
  function Armed(slot: Slot, now: int, window: int): Slot {
    match Live(slot, now)
    case None => None
    case Some(e) =>
      if e.expiry.Some? then Some(e)
      else if window <= 0 then None
      else Some(e.(expiry := Some(now + window)))
  }

  datatype Command = Incr | ExpireNx(window: int) | Wait(seconds: nat)

  /** The key as any number of clients see it: its slot and the server clock. */
  datatype Server = Server(slot: Slot, now: int)

  function Executed(s: Server, c: Command): Server {
    match c
    case Incr => s.(slot := Some(Incremented(s.slot, s.now)))
    case ExpireNx(window) => s.(slot := Armed(s.slot, s.now, window))
    case Wait(seconds) => s.(now := s.now + seconds)
  }

  function ExecutedAll(s: Server, commands: seq<Command>): Server
    decreases |commands|
  {
    if commands == [] then s else ExecutedAll(Executed(s, commands[0]), commands[1..])
  }

  lemma {:induction false} ExecutedAppend(s: Server, a: seq<Command>, c: Command)
    ensures ExecutedAll(s, a + [c]) == Executed(ExecutedAll(s, a), c)
    decreases |a|
  {
    if a == [] {
      assert [c][1..] == [];
    } else {
      assert (a + [c])[1..] == a[1..] + [c];
      ExecutedAppend(Executed(s, a[0]), a[1..], c);
    }
  }

  /** The server object the connection talks to. */
  class Redis {
    var slot: Slot
    var now: int

    ghost function State(): Server
      reads this
    {
      Server(slot, now)
    }

    constructor ()
      ensures State() == Server(None, 0)
    {
      slot, now := None, 0;
    }

    method Execute(c: Command) returns (count: int)
      modifies this
      ensures State() == Executed(old(State()), c)
      ensures c.Incr? ==> count == Incremented(old(slot), old(now)).value
    {
      count := 0;
      match c {
        case Incr =>
          var e := Incremented(slot, now);
          slot := Some(e);
          count := e.value;
        case ExpireNx(window) => slot := Armed(slot, now, window);
        case Wait(seconds) => now := now + seconds;
      }
    }

    /** Whatever other clients do between two commands of ours. */
    method Interleave(others: seq<Command>)
      modifies this
      ensures State() == ExecutedAll(old(State()), others)
    {
      ghost var start := State();
      assert others[..0] == [];
      for i := 0 to |others|
        invariant State() == ExecutedAll(start, others[..i])
      {
        ExecutedAppend(start, others[..i], others[i]);
        assert others[..i + 1] == others[..i] + [others[i]];
        var _ := Execute(others[i]);
      }
      assert others[..|others|] == others;
    }

    method Get() returns (value: Option<int>)
      ensures value == match Live(slot, now) case None => None case Some(e) => Some(e.value)
    {
      var live := Live(slot, now);
      value := match live case None => None case Some(e) => Some(e.value);
    }
  }
}
