/** `PowerTimer`: the relay output with a one-second countdown, a freeze
    counter that pauses it, and a terminal power-off state. */
module PowerTimers {
  import opened Platform

  /** The minimum time between two countdown ticks, in milliseconds. */
  const TICK: int := 1000

  /** The level that energises the relay: HIGH for normal logic, LOW for
      inverted logic. */
  function OnLevel(logic: bool): (l: Level)
    ensures l == High <==> logic
  {
    if logic then High else Low
  }

  /** The level that de-energises the relay. */
  function OffLevel(logic: bool): (l: Level)
    ensures l == Opposite(OnLevel(logic))
  {
    if logic then Low else High
  }

  /** The state of a power timer: remaining seconds, the clock reading of the
      last tick, the freeze counter, the relay pin, and whether `off()` has
      been entered (it never returns, so nothing changes after that). */
  datatype Countdown = Countdown(time: Int16, timer: U32, freezeTime: Int16, pin: Level, halted: bool)

  /** `start(t)` at clock reading `now`. The freeze counter is left as it is. */
  function StartStep(c: Countdown, logic: bool, t: Int16, now: U32): (r: Countdown)
    ensures c.halted ==> r == c
    ensures !c.halted ==> !r.halted && r.time == t && r.timer == now && r.pin == OnLevel(logic)
    ensures r.freezeTime == c.freezeTime
  {
    if c.halted then c else c.(time := t, timer := now, pin := OnLevel(logic))
  }

  /** `freeze(f)`: the next `f` ticks decrement the freeze counter instead of
      the remaining time. */
  function FreezeStep(c: Countdown, f: Int16): (r: Countdown)
    ensures c.halted ==> r == c
    ensures !c.halted ==> r.freezeTime == f
    ensures r.time == c.time && r.timer == c.timer && r.pin == c.pin && r.halted == c.halted
  {
    if c.halted then c else c.(freezeTime := f)
  }

  /** `off()`: the relay is de-energised for good. */
  function OffStep(c: Countdown, logic: bool): (r: Countdown)
    ensures r.halted && r.pin == OffLevel(logic)
    ensures r.time == c.time && r.freezeTime == c.freezeTime && r.timer == c.timer
  {
    c.(halted := true, pin := OffLevel(logic))
  }

  /** `update()` at clock reading `now`. */
  function UpdateStep(c: Countdown, logic: bool, now: U32): (r: Countdown)
    // off is absorbing
    ensures c.halted ==> r == c
    // time is up: power off, nothing else changes
    ensures !c.halted && c.time <= 0 ==> r == OffStep(c, logic)
    // less than a second since the last tick: nothing changes
    ensures !c.halted && c.time > 0 && Elapsed(now, c.timer) < TICK ==> r == c
    // a tick: exactly one of the two counters goes down by one
    ensures !c.halted && c.time > 0 && Elapsed(now, c.timer) >= TICK ==>
      !r.halted && r.pin == c.pin && r.timer == now &&
      (if c.freezeTime > 0
       then r.freezeTime == c.freezeTime - 1 && r.time == c.time
       else r.time == c.time - 1 && r.freezeTime == c.freezeTime)
  {
    if c.halted then c
    else if c.time <= 0 then OffStep(c, logic)
    else if Elapsed(now, c.timer) >= TICK then
      if c.freezeTime > 0 then c.(timer := now, freezeTime := c.freezeTime - 1)
      else c.(timer := now, time := c.time - 1)
    else c
  }

  /** A run of `update()` calls at the clock readings `nows`, in order. */
  function Run(c: Countdown, logic: bool, nows: seq<U32>): (r: Countdown)
    // the remaining time never goes up, once off the timer stays off, and
    // "off means the relay is de-energised" holds after a run if it held before
    ensures r.time <= c.time
    ensures c.halted ==> r.halted
    ensures (c.halted ==> c.pin == OffLevel(logic)) ==> (r.halted ==> r.pin == OffLevel(logic))
    decreases |nows|
  {
    if nows == [] then c else Run(UpdateStep(c, logic, nows[0]), logic, nows[1..])
  }

  /** Every `update()` in `nows` comes at least a second after the one before
      it, the first at least a second after the tick reference `since`. */
  ghost predicate Ticking(since: U32, nows: seq<U32>)
  {
    (nows != [] ==> Elapsed(nows[0], since) >= TICK) &&
    forall k :: 0 < k < |nows| ==> Elapsed(nows[k], nows[k - 1]) >= TICK
  }

  /** The pending freeze: a negative freeze counter freezes nothing. */
  function Pending(freezeTime: int): nat
  {
    if freezeTime > 0 then freezeTime else 0
  }

  function Min(a: int, b: int): int
  {
    if a < b then a else b
  }

  /** With updates a second apart, the first `Pending(freezeTime)` ticks only
      consume the freeze, and every later tick takes one second off the
      remaining time; the relay stays on all along. */
  lemma {:induction false} TickSchedule(c: Countdown, logic: bool, nows: seq<U32>)
    requires !c.halted && c.time > 0
    requires Ticking(c.timer, nows)
    requires |nows| <= Pending(c.freezeTime) + c.time
    ensures var r := Run(c, logic, nows);
      !r.halted && r.pin == c.pin &&
      r.freezeTime == (if c.freezeTime > 0 then c.freezeTime - Min(|nows|, c.freezeTime) else c.freezeTime) &&
      r.time == c.time - (|nows| - Min(|nows|, Pending(c.freezeTime)))
    decreases |nows|
  {
    if nows != [] {
      var c' := UpdateStep(c, logic, nows[0]);
      assert Ticking(c'.timer, nows[1..]) by {
        forall k | 0 < k < |nows| - 1
          ensures Elapsed(nows[1..][k], nows[1..][k - 1]) >= TICK
        {
          assert Elapsed(nows[k + 1], nows[k]) >= TICK;
        }
        if |nows| > 1 {
          assert Elapsed(nows[1], nows[0]) >= TICK;
        }
      }
      if |nows| > 1 {
        TickSchedule(c', logic, nows[1..]);
      }
    }
  }

  /** After `start(T)` with no freeze pending, `T` one-second ticks bring the
      remaining time to zero with the relay still on, and the next `update()`
      powers off. */
  lemma CountdownExpires(c: Countdown, logic: bool, t: Int16, start: U32, nows: seq<U32>, last: U32)
    requires !c.halted && c.freezeTime <= 0 && t > 0
    requires Ticking(start, nows) && |nows| == t
    ensures var r := Run(StartStep(c, logic, t, start), logic, nows);
      r.time == 0 && !r.halted && r.pin == OnLevel(logic) &&
      UpdateStep(r, logic, last).halted && UpdateStep(r, logic, last).pin == OffLevel(logic)
  {
    TickSchedule(StartStep(c, logic, t, start), logic, nows);
  }

  /** With a freeze of `f` seconds just set, the first `f` ticks leave the
      remaining time untouched. */
  lemma FreezeDelays(c: Countdown, logic: bool, f: Int16, nows: seq<U32>)
    requires !c.halted && c.time > 0 && f > 0
    requires Ticking(c.timer, nows) && |nows| <= f
    ensures var r := Run(FreezeStep(c, f), logic, nows);
      r.time == c.time && r.freezeTime == f - |nows| && !r.halted
  {
    TickSchedule(FreezeStep(c, f), logic, nows);
  }

  /** Once off, no sequence of updates changes anything. */
  lemma {:induction false} OffIsAbsorbing(c: Countdown, logic: bool, nows: seq<U32>)
    requires c.halted
    ensures Run(c, logic, nows) == c
    decreases |nows|
  {
    if nows != [] {
      OffIsAbsorbing(UpdateStep(c, logic, nows[0]), logic, nows[1..]);
    }
  }

  class PowerTimer {
    /** true: the relay is on at HIGH; false: on at LOW. */
    const logic: bool
    var pin: Level
    /** Remaining seconds. */
    var time: Int16
    /** Clock reading of the last tick. */
    var timer: U32
    var freezeTime: Int16
    /** Set once `off()` is entered. */
    var halted: bool

    function State(): Countdown
      reads this
    {
      Countdown(time, timer, freezeTime, pin, halted)
    }

    /** Once off, the relay stays de-energised. */
    ghost predicate Valid()
      reads this
    {
      halted ==> pin == OffLevel(logic)
    }

    /** The constructor drives the relay off and zeroes `time` and `timer`; it
        leaves the freeze counter uninitialised, so its first value is
        whatever `freezeTime0` the memory held. */
    constructor (freezeTime0: Int16, logic: bool := true)
      ensures Valid() && this.logic == logic
      ensures State() == Countdown(0, 0, freezeTime0, OffLevel(logic), false)
    {
      this.logic := logic;
      pin := OffLevel(logic);
      time := 0;
      timer := 0;
      freezeTime := freezeTime0;
      halted := false;
    }

    method Start(t: Int16, now: U32)
      requires Valid()
      modifies this
      ensures Valid()
      ensures State() == StartStep(old(State()), logic, t, now)
      ensures !old(halted) ==> time == t && timer == now && pin == OnLevel(logic) && freezeTime == old(freezeTime)
    {
      if halted {
        return;
      }
      time := t;
      timer := now;
      pin := OnLevel(logic);
    }

    method Off()
      requires Valid()
      modifies this
      ensures Valid()
      ensures State() == OffStep(old(State()), logic)
    {
      pin := OffLevel(logic);
      halted := true;
    }

    method GetTime() returns (t: Int16)
      ensures t == time
    {
      t := time;
    }

    method Freeze(f: Int16)
      requires Valid()
      modifies this
      ensures Valid()
      ensures State() == FreezeStep(old(State()), f)
    {
      if halted {
        return;
      }
      freezeTime := f;
    }

    method Update(now: U32)
      requires Valid()
      modifies this
      ensures Valid()
      ensures State() == UpdateStep(old(State()), logic, now)
    {
      if halted {
        return;
      }
      if time <= 0 {
        Off();
        return;
      }
      if Elapsed(now, timer) >= TICK {
        timer := now;
        if freezeTime > 0 {
          freezeTime := freezeTime - 1;
        } else {
          time := time - 1;
        }
      }
    }
  }
}
