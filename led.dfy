/** `Led`: the status indicator, steadily on, steadily off, or blinking. */
module Leds {
  import opened Platform

  datatype LedState = Off | On | Blink

  /** The state of an indicator: its pin, mode, whether it is lit, the blink
      half-period and the clock reading of the last phase change. */
  datatype Indicator = Indicator(pin: Level, state: LedState, isShining: bool, blinkInterval: U32, timer: U32)

  /** The pin shows the lit state: `onState` when shining, the other level
      otherwise; and a steady mode agrees with the lit state. */
  ghost predicate Consistent(s: Indicator, onState: Level)
  {
    s.pin == (if s.isShining then onState else Opposite(onState)) &&
    (s.state == On ==> s.isShining) &&
    (s.state == Off ==> !s.isShining)
  }

  /** `on()`. */
  function OnStep(s: Indicator, onState: Level): (r: Indicator)
    ensures Consistent(r, onState) && r.isShining && r.state == On
    ensures r.blinkInterval == s.blinkInterval && r.timer == s.timer
  {
    s.(isShining := true, pin := onState, state := On)
  }

  /** `off()`. */
  function OffStep(s: Indicator, onState: Level): (r: Indicator)
    ensures Consistent(r, onState) && !r.isShining && r.state == Off
    ensures r.blinkInterval == s.blinkInterval && r.timer == s.timer
  {
    s.(isShining := false, pin := Opposite(onState), state := Off)
  }

  /** `blink(interval)` at clock reading `now`. */
  function BlinkStep(s: Indicator, onState: Level, interval: U32, now: U32): (r: Indicator)
    ensures Consistent(r, onState) && r.isShining && r.state == Blink
    ensures r.blinkInterval == interval && r.timer == now
  {
    OnStep(s.(blinkInterval := interval, timer := now), onState).(state := Blink)
  }

  /** `update()` at clock reading `now`. */
  function UpdateStep(s: Indicator, onState: Level, now: U32): (r: Indicator)
    requires Consistent(s, onState)
    ensures Consistent(r, onState)
    // only a blinking indicator whose half-period has run out changes
    ensures s.state != Blink || Elapsed(now, s.timer) <= s.blinkInterval ==> r == s
    ensures s.state == Blink && Elapsed(now, s.timer) > s.blinkInterval ==>
      r.state == Blink && r.isShining == !s.isShining && r.timer == now && r.blinkInterval == s.blinkInterval
  {
    if s.state == Blink && Elapsed(now, s.timer) > s.blinkInterval then
      var t := s.(timer := now);
      (if s.isShining then OffStep(t, onState) else OnStep(t, onState)).(state := Blink)
    else
      s
  }

  /** A run of `update()` calls at the clock readings `nows`, in order. */
  function Run(s: Indicator, onState: Level, nows: seq<U32>): (r: Indicator)
    requires Consistent(s, onState)
    ensures Consistent(r, onState)
    decreases |nows|
  {
    if nows == [] then s else Run(UpdateStep(s, onState, nows[0]), onState, nows[1..])
  }

  /** Every update in `nows` comes more than `interval` after the one before
      it, the first more than `interval` after `since`. */
  ghost predicate Spaced(since: U32, interval: U32, nows: seq<U32>)
  {
    (nows != [] ==> Elapsed(nows[0], since) > interval) &&
    forall k :: 0 < k < |nows| ==> Elapsed(nows[k], nows[k - 1]) > interval
  }

  /** A blinking indicator updated at spaced readings changes phase on every
      update: after `n` updates it is lit exactly when it was lit before and
      `n` is even, and it is still blinking. */
  lemma {:induction false} BlinkAlternates(s: Indicator, onState: Level, nows: seq<U32>)
    requires Consistent(s, onState) && s.state == Blink
    requires Spaced(s.timer, s.blinkInterval, nows)
    ensures var r := Run(s, onState, nows);
      r.state == Blink && r.blinkInterval == s.blinkInterval &&
      r.isShining == (s.isShining == (|nows| % 2 == 0))
    decreases |nows|
  {
    if nows != [] {
      var s' := UpdateStep(s, onState, nows[0]);
      assert Spaced(s'.timer, s'.blinkInterval, nows[1..]) by {
        forall k | 0 < k < |nows| - 1
          ensures Elapsed(nows[1..][k], nows[1..][k - 1]) > s.blinkInterval
        {
          assert Elapsed(nows[k + 1], nows[k]) > s.blinkInterval;
        }
        if |nows| > 1 {
          assert Elapsed(nows[1], nows[0]) > s.blinkInterval;
        }
      }
      BlinkAlternates(s', onState, nows[1..]);
    }
  }

  /** A steady indicator ignores every update. */
  lemma {:induction false} SteadyIgnoresUpdates(s: Indicator, onState: Level, nows: seq<U32>)
    requires Consistent(s, onState) && s.state != Blink
    ensures Run(s, onState, nows) == s
    decreases |nows|
  {
    if nows != [] {
      SteadyIgnoresUpdates(UpdateStep(s, onState, nows[0]), onState, nows[1..]);
    }
  }

  class Led {
    /** The level at which the indicator is lit. */
    const onState: Level
    var pin: Level
    var state: LedState
    var isShining: bool
    var blinkInterval: U32
    var timer: U32

    function Snapshot(): Indicator
      reads this
    {
      Indicator(pin, state, isShining, blinkInterval, timer)
    }

    ghost predicate Valid()
      reads this
    {
      Consistent(Snapshot(), onState)
    }

    /** Drives the pin to `initialState`; the indicator counts as lit, and
        steadily on, exactly when that is the lit level. The source leaves
        the blink interval and timer unset here; they are only read after
        `blink()` has set them, so the model starts them at zero. */
    constructor (onState: Level := High, initialState: Level := Low)
      ensures Valid() && this.onState == onState
      ensures pin == initialState
      ensures isShining == (onState == initialState)
      ensures state == (if isShining then On else Off)
    {
      this.onState := onState;
      pin := initialState;
      isShining := onState == initialState;
      state := if onState == initialState then On else Off;
      blinkInterval := 0;
      timer := 0;
    }

    method TurnOn()
      requires Valid()
      modifies this
      ensures Valid()
      ensures Snapshot() == OnStep(old(Snapshot()), onState)
      ensures isShining && state == On && pin == onState
    {
      isShining := true;
      pin := onState;
      state := On;
    }

    method TurnOff()
      requires Valid()
      modifies this
      ensures Valid()
      ensures Snapshot() == OffStep(old(Snapshot()), onState)
      ensures !isShining && state == Off && pin == Opposite(onState)
    {
      isShining := false;
      pin := Opposite(onState);
      state := Off;
    }

    method StartBlink(interval: U32, now: U32)
      requires Valid()
      modifies this
      ensures Valid()
      ensures Snapshot() == BlinkStep(old(Snapshot()), onState, interval, now)
      ensures blinkInterval == interval && timer == now && isShining && state == Blink && pin == onState
    {
      blinkInterval := interval;
      timer := now;
      TurnOn();
      state := Blink;
    }

    method Update(now: U32)
      requires Valid()
      modifies this
      ensures Valid()
      ensures Snapshot() == UpdateStep(old(Snapshot()), onState, now)
    {
      if state == Blink {
        if Elapsed(now, timer) > blinkInterval {
          timer := now;
          if isShining {
            TurnOff();
          } else {
            TurnOn();
          }
          state := Blink;
        }
      }
    }
  }
}
