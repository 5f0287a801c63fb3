/** `Display`: the repaint decisions of the display controller. The pixels
    belong to the graphics library; the model keeps what each paint was given
    (a `Frame`) and counts the paints. */
module Displays {
  import opened Platform
  import opened TimeFormat

  /** The minimum time between two rate-limited repaints, in milliseconds
      (`DISPLAY_UPDATE_TIME`). */
  const UPDATE_TIME: int := 200

  /** What the last paint put on the screen. */
  datatype Frame =
    | Blank
    | TimeScreen(clock: string, glyph: U16)
    | TextScreen(text: string)

  /** The display controller's state: the transient-message duration
      (`tempTime`, 0 when none), the clock readings of the last time-screen
      paint and of the transient message's start, what is on the screen, and
      how many paints there have been. */
  datatype Screen = Screen(tempTime: Int16, timer: U32, timerT: U32, frame: Frame, paints: nat)

  /** `printTimeScreen()` at `now`, with the time and preset index that the
      callbacks return. */
  function PaintTime(d: Screen, now: U32, time: Int16, index: Int16): (r: Screen)
    ensures r.paints == d.paints + 1 && r.timer == now
    ensures r.frame == TimeScreen(ClockText(time), Glyph(index))
    ensures r.tempTime == d.tempTime && r.timerT == d.timerT
  {
    d.(timer := now, frame := TimeScreen(ClockText(time), Glyph(index)), paints := d.paints + 1)
  }

  /** The transient message has run out: more than `tempTime` milliseconds
      since it started, with `tempTime` compared as an `unsigned long`. */
  predicate Expired(d: Screen, now: U32): (b: bool)
    ensures 0 <= d.tempTime ==> (b <==> Elapsed(now, d.timerT) > d.tempTime)
    ensures d.tempTime < 0 ==> (b <==> Elapsed(now, d.timerT) > d.tempTime + TWO_32)
  {
    Elapsed(now, d.timerT) > ToU32(d.tempTime)
  }

  /** `update()` at `now`, with the values the callbacks return. */
  function UpdateStep(d: Screen, now: U32, time: Int16, index: Int16): (r: Screen)
    // rate limit: nothing at all within 200 ms of the last time-screen paint
    ensures Elapsed(now, d.timer) < UPDATE_TIME ==> r == d
    // a transient message still showing is left alone
    ensures d.tempTime != 0 && !Expired(d, now) ==> r == d
    // otherwise the time screen is repainted: twice when a message has just expired
    ensures Elapsed(now, d.timer) >= UPDATE_TIME && (d.tempTime == 0 || Expired(d, now)) ==>
      r == PaintTime(d.(tempTime := 0), now, time, index).(paints := d.paints + if d.tempTime != 0 then 2 else 1)
    ensures r.paints <= d.paints + 2
  {
    if Elapsed(now, d.timer) < UPDATE_TIME then d
    else if d.tempTime != 0 then
      if Expired(d, now) then
        PaintTime(PaintTime(d.(tempTime := 0), now, time, index), now, time, index)
      else d
    else PaintTime(d, now, time, index)
  }

  /** Every update that paints restarts the 200 ms window: if the first of
      two updates less than 200 ms apart paints, the second changes nothing,
      so at most one of them paints. */
  lemma AtMostOnePaintingUpdate(d: Screen, now1: U32, now2: U32, time1: Int16, index1: Int16, time2: Int16, index2: Int16)
    requires Elapsed(now2, now1) < UPDATE_TIME
    ensures var d1 := UpdateStep(d, now1, time1, index1);
      d1.paints > d.paints ==> UpdateStep(d1, now2, time2, index2) == d1
  {
  }

  /** `freeze(duration)` at `now`: `duration` is stored into the `int`
      `tempTime`, so it is taken modulo 2^16. */
  function FreezeStep(d: Screen, duration: U32, now: U32): (r: Screen)
    ensures r.timerT == now && r.tempTime == ToInt16(duration)
    ensures duration < 0x8000 ==> r.tempTime == duration
    ensures r.timer == d.timer && r.frame == d.frame && r.paints == d.paints
  {
    d.(timerT := now, tempTime := ToInt16(duration))
  }

  /** After `freeze(duration)` with a duration from 1 to 32767 ms, no update
      within `duration` ms paints, and the first update after it that is also
      200 ms past the last paint brings back the time screen. */
  lemma FreezeHoldsMessage(d: Screen, duration: U32, start: U32, now: U32, time: Int16, index: Int16)
    requires 0 < duration < 0x8000
    ensures var f := FreezeStep(d, duration, start);
      var r := UpdateStep(f, now, time, index);
      (Elapsed(now, start) <= duration ==> r == f) &&
      (Elapsed(now, start) > duration && Elapsed(now, d.timer) >= UPDATE_TIME ==>
         r.tempTime == 0 && r.frame == TimeScreen(ClockText(time), Glyph(index)) && r.paints == d.paints + 2)
  {
  }

  /** A duration of 32768 ms or more wraps to a negative `tempTime`, which
      the expiry test reads as more than 2^32 - 2^15 ms: 40000 ms holds the
      message for about 49 days. */
  lemma LongFreezeWraps(d: Screen, start: U32, now: U32, time: Int16, index: Int16)
    requires Elapsed(now, start) <= TWO_32 - 0x8000
    ensures var f := FreezeStep(d, 40000, start);
      f.tempTime == 40000 - TWO_16 && UpdateStep(f, now, time, index) == f
  {
  }

  class Display {
    var tempTime: Int16
    /** Clock reading of the last time-screen paint. */
    var timer: U32
    /** Clock reading at which the transient message started. */
    var timerT: U32
    var frame: Frame
    ghost var paints: nat

    ghost function Snapshot(): Screen
      reads this
    {
      Screen(tempTime, timer, timerT, frame, paints)
    }

    /** The constructor sets `timerT` to 0 and `tempTime` starts at 0; the
        source leaves `timer` uninitialised, so its first value is whatever
        `timer0` the memory held. */
    constructor (timer0: U32)
      ensures Snapshot() == Screen(0, timer0, 0, Blank, 0)
    {
      tempTime := 0;
      timer := timer0;
      timerT := 0;
      frame := Blank;
      paints := 0;
    }

    /** Paints the time screen at once, without the rate limit. */
    method PrintTimeScreen(now: U32, time: Int16, index: Int16)
      modifies this
      ensures Snapshot() == PaintTime(old(Snapshot()), now, time, index)
    {
      timer := now;
      frame := TimeScreen(ClockText(time), Glyph(index));
      paints := paints + 1;
    }

    /** Paints a text; the 200 ms window is not restarted. */
    method PrintText(text: string)
      modifies this
      ensures Snapshot() == old(Snapshot()).(frame := TextScreen(text), paints := old(paints) + 1)
    {
      frame := TextScreen(text);
      paints := paints + 1;
    }

    /** Paints the step interval that the interval callback returns; the
        200 ms window is not restarted. */
    method PrintInterval(interval: Int16)
      modifies this
      ensures Snapshot() == old(Snapshot()).(frame := TextScreen(IntervalText(interval)), paints := old(paints) + 1)
    {
      frame := TextScreen(IntervalText(interval));
      paints := paints + 1;
    }

    method Freeze(duration: U32, now: U32)
      modifies this
      ensures Snapshot() == FreezeStep(old(Snapshot()), duration, now)
    {
      timerT := now;
      tempTime := ToInt16(duration);
    }

    method Update(now: U32, time: Int16, index: Int16)
      modifies this
      ensures Snapshot() == UpdateStep(old(Snapshot()), now, time, index)
    {
      if Elapsed(now, timer) < UPDATE_TIME {
        return;
      }
      if tempTime != 0 {
        if Elapsed(now, timerT) > ToU32(tempTime) {
          tempTime := 0;
          PrintTimeScreen(now, time, index);
        } else {
          return;
        }
      }
      PrintTimeScreen(now, time, index);
    }
  }
}
