# Time switch control classes, modelled in Dafny

This project models the four control classes of the timed power switch, in
`src/Timer/classes.h`. The switch drives a relay for a chosen number of
seconds, shows the remaining time on a small display, and signals its state
with an indicator LED.

- `SettingsArray<T, SIZE>` is a fixed array of settings with one selected
  slot (the presets and the step intervals). It is modelled as the class
  `SettingsArrays.SettingsArray` over a Dafny `array`.
- `PowerTimer` is the relay with a once-per-second countdown, a freeze counter
  that pauses the countdown, and a terminal off state. It is modelled as
  `PowerTimers.PowerTimer`.
- `Led` is the indicator with steady-on, steady-off and blinking modes. It is
  modelled as `Leds.Led`.
- `Display` decides when to repaint, and shows a transient message for a set
  time. It is modelled as `Displays.Display`, and the text and glyph it paints
  as the functions of `TimeFormat`.

The target is an 8-bit AVR, so `int` is 16 bits (`Platform.Int16`), `uint16_t`
is `Platform.U16`, and `unsigned long` and `millis()` are 32 bits
(`Platform.U32`). Every `millis() - t` is `Platform.Elapsed`, which wraps
modulo 2^32 like the source's unsigned subtraction. Each operation takes the
clock reading `now` as a parameter. The display's callbacks become the values
`time`, `index` and `interval` that they would return at paint time. Output
pins are fields of type `Platform.Level`.

`PowerTimer`, `Led` and `Display` each have a datatype snapshot of their state
(`Countdown`, `Indicator`, `Screen`) and step functions on it. Their mutating
methods' `ensures` tie the new snapshot to a step function, or to an update of
the old snapshot, applied to the old one. `SettingsArray`'s methods tie the
selection to the `Move` functions (`SelectMove`, `NextMove`, `PrevMove`) and
state the array contents directly. The getters state what they return. Lemmas
about runs of several calls are stated on these functions:
- a full cycle of cyclic `next`/`prev` calls returns the selection to its start;
- `T` one-second ticks after `start(T)` bring the time to 0, and the next update powers off;
- a freeze holds the countdown;
- a blinking LED alternates its phase;
- two updates less than 200 ms apart paint at most once.

`PowerTimer::off()` never returns: it loops forever, holding the relay off and
feeding the watchdog. The model represents it as an absorbing `halted` state.
Once halted, every later call changes nothing.

The model follows the code as written, including these points:
- `start()` does not cancel a pending freeze.
- When a transient message expires, `update()` paints the time screen twice
  (`classes.h` lines 292 and 298).
- `PowerTimer`'s constructor never initialises the freeze counter (line 171 is
  commented out).
- `Display`'s constructor never initialises `timer`.

Both uninitialised values are constructor parameters in the model. They stand
for whatever the memory held.

## Model

| member | source | states |
|---|---|---|
| `Platform.Elapsed` | src/Timer/classes.h:197 | `millis() - timer` on `unsigned long`: the true elapsed time when the clock has not rolled over, 2^32 minus the gap when it has |
| `Platform.ToInt16` | src/Timer/classes.h:281-284 | storing an `unsigned long` into the `int` `tempTime` keeps it modulo 2^16; values below 2^15 are kept exactly |
| `Platform.ToU32` | src/Timer/classes.h:290 | comparing the `int` `tempTime` with an `unsigned long` keeps non-negative values and turns a negative `x` into exactly `x + 2^32`, which is at least 2^32 - 2^15 |
| `Platform.Opposite` | src/Timer/classes.h:63 | `onState == HIGH ? LOW : HIGH` is the other level |
| `SettingsArrays.SelectMove` | src/Timer/classes.h:110-115 | `setIndex(i)` succeeds exactly when `0 <= i < SIZE`; on success the selection is `i`; on failure it is unchanged; it stays in range |
| `SettingsArrays.NextMove` | src/Timer/classes.h:123-137 | `next(cyclic)` succeeds exactly when not at the last slot or cyclic; on success the selection is `(index + 1) mod SIZE`; on failure it is unchanged; it stays in range |
| `SettingsArrays.PrevMove` | src/Timer/classes.h:139-153 | `prev(cyclic)` succeeds exactly when not at slot 0 or cyclic; on success the selection is `(index - 1) mod SIZE`; on failure it is unchanged; it stays in range |
| `SettingsArrays.NextPrevInverse` | src/Timer/classes.h:123-153 | a cyclic `prev` undoes a cyclic `next`, and the reverse |
| `SettingsArrays.Walk` | src/Timer/classes.h:123-153 | `n` consecutive cyclic `next` (or `prev`) calls keep the selection in range |
| `SettingsArrays.WalkAdd` | src/Timer/classes.h:123-153 | `a` cyclic steps followed by `b` steps equal `a + b` steps |
| `SettingsArrays.WalkUp` | src/Timer/classes.h:133-135 | away from the last slot, `k` forward steps add `k` to the selection |
| `SettingsArrays.WalkDown` | src/Timer/classes.h:149-151 | away from slot 0, `k` backward steps subtract `k` from the selection |
| `SettingsArrays.FullCycle` | src/Timer/classes.h:123-153 | `SIZE` consecutive `next(true)` calls, or `SIZE` consecutive `prev(true)` calls, return the selection to its start |
| `SettingsArrays.NonCyclicStops` | src/Timer/classes.h:123-153 | without wrap-around, every `next()` short of the last slot succeeds as a cyclic one would, so a run of them reaches the last slot, where `next()` fails without change; likewise every `prev()` above slot 0 succeeds, a run of them reaches slot 0, and there `prev()` fails without change |
| `SettingsArrays.SettingsArray.constructor` | src/Timer/classes.h:104-105 | every slot holds the zero value of `T` and slot 0 is selected, which satisfies the invariant `0 <= index < SIZE` |
| `SettingsArrays.SettingsArray.CurrentIndex` | src/Timer/classes.h:108 | returns the selection, which is within `[0, SIZE)` |
| `SettingsArrays.SettingsArray.SetIndex` | src/Timer/classes.h:110-115 | returns true and selects `i` exactly when `i` is in range; otherwise returns false with the selection unchanged; data is never touched |
| `SettingsArrays.SettingsArray.Current` | src/Timer/classes.h:117-119 | returns the element at the selection |
| `SettingsArrays.SettingsArray.SetCurrent` | src/Timer/classes.h:121 | only the selected slot changes, and it becomes `v`; the selection and every other slot are unchanged |
| `SettingsArrays.SettingsArray.Next` | src/Timer/classes.h:123-137 | moves the selection as `NextMove` says, keeps it in range, and leaves the data unchanged |
| `SettingsArrays.SettingsArray.Prev` | src/Timer/classes.h:139-153 | moves the selection as `PrevMove` says, keeps it in range, and leaves the data unchanged |
| `SettingsArrays.SettingsArray.Get` | src/Timer/classes.h:157 | reading `a[i]` returns slot `i`; an index out of range is undefined in the source and excluded here |
| `SettingsArrays.SettingsArray.Set` | src/Timer/classes.h:155 | writing `a[i] = v` changes slot `i` only |
| `PowerTimers.OnLevel` | src/Timer/classes.h:177 | the power-on level `logic ? HIGH : LOW` is HIGH exactly for normal logic |
| `PowerTimers.OffLevel` | src/Timer/classes.h:168 | the power-off level is the opposite of the power-on level `logic ? HIGH : LOW` |
| `PowerTimers.StartStep` | src/Timer/classes.h:174-178 | `start(t)` sets the time to `t`, the tick reference to now and the relay on; the freeze counter is untouched; after off, nothing changes |
| `PowerTimers.FreezeStep` | src/Timer/classes.h:190-192 | `freeze(f)` sets only the freeze counter |
| `PowerTimers.OffStep` | src/Timer/classes.h:181-186 | `off()` drives the relay off for good; the counters are untouched |
| `PowerTimers.UpdateStep` | src/Timer/classes.h:194-206 | off is absorbing; time at or below 0 powers off; under 1000 ms since the last tick changes nothing; a tick decrements exactly one counter (freeze if positive, else time) by 1 and resets the tick reference |
| `PowerTimers.Run` | src/Timer/classes.h:194-206 | over any run of updates the remaining time never goes up, a halted timer stays halted, and "halted means relay off" is preserved |
| `PowerTimers.TickSchedule` | src/Timer/classes.h:194-206 | with updates at least a second apart, the first `freeze_time` ticks only consume the freeze and later ticks each take one second off the time; the relay stays on |
| `PowerTimers.CountdownExpires` | src/Timer/classes.h:174-206 | after `start(T)` with `T > 0` and no freeze, `T` one-second ticks bring the time to 0 with the relay on, and the next update powers off |
| `PowerTimers.FreezeDelays` | src/Timer/classes.h:190-206 | after `freeze(F)`, the first `F` ticks leave the remaining time unchanged |
| `PowerTimers.OffIsAbsorbing` | src/Timer/classes.h:181-186 | once off, any run of updates changes nothing |
| `PowerTimers.PowerTimer.constructor` | src/Timer/classes.h:166-172 | relay off, time 0, tick reference 0, freeze counter not initialised |
| `PowerTimers.PowerTimer.Start` | src/Timer/classes.h:174-178 | the new state is `StartStep` of the old: time `t`, tick reference now, relay on, freeze kept |
| `PowerTimers.PowerTimer.Off` | src/Timer/classes.h:181-186 | enters the terminal state with the relay off |
| `PowerTimers.PowerTimer.GetTime` | src/Timer/classes.h:188 | returns the remaining time |
| `PowerTimers.PowerTimer.Freeze` | src/Timer/classes.h:190-192 | the new state is `FreezeStep` of the old |
| `PowerTimers.PowerTimer.Update` | src/Timer/classes.h:194-206 | the new state is `UpdateStep` of the old; when off, the relay stays off |
| `Leds.OnStep` | src/Timer/classes.h:55-59 | `on()`: lit, mode On, pin at the lit level |
| `Leds.OffStep` | src/Timer/classes.h:61-65 | `off()`: unlit, mode Off, pin at the other level |
| `Leds.BlinkStep` | src/Timer/classes.h:67-72 | `blink(iv)`: interval `iv`, phase timer now, lit, mode Blink |
| `Leds.UpdateStep` | src/Timer/classes.h:74-82 | only Blink with more than the interval elapsed changes: the lit state flips, the timer resets, the mode stays Blink; the pin stays at the lit level exactly when lit |
| `Leds.Run` | src/Timer/classes.h:74-82 | any run of updates keeps the pin at the lit level exactly when lit |
| `Leds.BlinkAlternates` | src/Timer/classes.h:74-82 | updates spaced more than the interval apart flip the phase every time: after `n` of them the LED is lit as before exactly when `n` is even |
| `Leds.SteadyIgnoresUpdates` | src/Timer/classes.h:74-75 | in state On or Off, any run of updates changes nothing |
| `Leds.Led.constructor` | src/Timer/classes.h:48-53 | pin at `initialState`; lit exactly when `onState == initialState`; mode On or Off to match |
| `Leds.Led.TurnOn` | src/Timer/classes.h:55-59 | lit, mode On, pin at `onState` |
| `Leds.Led.TurnOff` | src/Timer/classes.h:61-65 | unlit, mode Off, pin at the opposite level |
| `Leds.Led.StartBlink` | src/Timer/classes.h:67-72 | interval set, phase timer now, lit, mode Blink |
| `Leds.Led.Update` | src/Timer/classes.h:74-82 | the new state is `UpdateStep` of the old, and the pin invariant is kept |
| `TimeFormat.Digits` | src/Timer/classes.h:246 | `%d` of a non-negative number: at least one digit, all characters decimal digits, one character exactly below 10, and a leading `0` only for zero itself |
| `TimeFormat.DigitsRoundTrip` | src/Timer/classes.h:246 | the digits read back as the number |
| `TimeFormat.Padded2` | src/Timer/classes.h:246 | `%02d` is at least two characters; for a non-negative number they are all digits and read back as the number, for a negative one they are `-` followed by digits, without a leading zero, that read back as its magnitude; the first character is a padding `0` exactly for 0..9 |
| `TimeFormat.TwoDigits` | src/Timer/classes.h:246 | `%02d` of 0..99 is the tens digit followed by the units digit |
| `TimeFormat.CDiv` | src/Timer/classes.h:246 | C's `/` truncates toward zero: for a non-negative time the quotient is the floor, for a negative one the ceiling, of the division by 60 |
| `TimeFormat.CMod` | src/Timer/classes.h:246 | C's `/` and `%` truncate: quotient times 60 plus remainder is the time, and the remainder has the sign of the time |
| `TimeFormat.Fit` | src/Timer/classes.h:246 | `snprintf` into `sizeof(buffer)` bytes keeps the whole text when it fits, and otherwise exactly its first size - 1 characters |
| `TimeFormat.Decimal` | src/Timer/classes.h:274 | `%d` of a non-negative number is its digits and reads back as the number; of a negative number it is `-` followed by digits, without a leading zero, that read back as its magnitude |
| `TimeFormat.ClockText` | src/Timer/classes.h:242-246 | the clock text fits the 6-byte buffer (at most 5 characters) |
| `TimeFormat.ClockTextRoundTrip` | src/Timer/classes.h:245-246 | below 100 minutes the text is `MM:SS`, with minutes `time / 60` and seconds `time % 60` each zero-padded to two digits; it reads back as `time` |
| `TimeFormat.ClockTextCutAt100Minutes` | src/Timer/classes.h:242-246 | at 100 minutes the 6-byte buffer cuts the text to `100:0` |
| `TimeFormat.IntervalText` | src/Timer/classes.h:271-274 | the interval text fits the 8-byte buffer (at most 7 characters) |
| `TimeFormat.IntervalTextFits` | src/Timer/classes.h:271-274 | an interval of 0..99 shows whole as `+N min`, and `N` reads back as the interval |
| `TimeFormat.Glyph` | src/Timer/classes.h:256 | the glyph is `index + 1 + 0x277F` modulo 2^16, and exactly that sum when it does not wrap |
| `TimeFormat.GlyphCircledDigit` | src/Timer/classes.h:256 | indices 0..9 show as the circled digits U+2780..U+2789, and distinct indices show distinct glyphs |
| `Displays.PaintTime` | src/Timer/classes.h:241-260 | a time-screen paint sets `timer := now`, shows the clock text and glyph, adds one paint, and leaves the transient state alone |
| `Displays.Expired` | src/Timer/classes.h:290 | `millis() - timerT > tempTime` with `tempTime` converted to `unsigned long`: a non-negative `tempTime` is compared as is, a negative one as `tempTime + 2^32` |
| `Displays.UpdateStep` | src/Timer/classes.h:286-299 | nothing within 200 ms of the last time-screen paint; nothing while a transient message is still inside its window; otherwise the transient message is cleared and the time screen is painted, twice if a message just expired; never more than two paints |
| `Displays.AtMostOnePaintingUpdate` | src/Timer/classes.h:286-299 | if the first of two updates less than 200 ms apart paints, the second changes nothing, so at most one of them paints |
| `Displays.FreezeStep` | src/Timer/classes.h:281-284 | `freeze(d)`: `timerT := now` and `tempTime := d` taken modulo 2^16; nothing else changes |
| `Displays.FreezeHoldsMessage` | src/Timer/classes.h:281-299 | after `freeze(d)` with `0 < d < 32768`, no update within `d` ms paints; the first update after it (and 200 ms after the last paint) clears the message and paints the time screen twice |
| `Displays.LongFreezeWraps` | src/Timer/classes.h:281-290 | `freeze(40000)` stores a negative `tempTime`, and the message then holds for nearly 2^32 ms |
| `Displays.Display.constructor` | src/Timer/classes.h:227-239 | `tempTime` and `timerT` start at 0; `timer` is not initialised |
| `Displays.Display.PrintTimeScreen` | src/Timer/classes.h:241-260 | the new state is `PaintTime` of the old |
| `Displays.Display.PrintText` | src/Timer/classes.h:262-268 | shows the text and adds one paint; the 200 ms window is not restarted |
| `Displays.Display.PrintInterval` | src/Timer/classes.h:270-279 | shows `+N min` and adds one paint; the 200 ms window is not restarted |
| `Displays.Display.Freeze` | src/Timer/classes.h:281-284 | the new state is `FreezeStep` of the old |
| `Displays.Display.Update` | src/Timer/classes.h:286-299 | the new state is `UpdateStep` of the old |

## Left out

- `Display::doFreeze` (lines 302-307) is not modelled. It busy-waits on the wall clock, calling `update()` until the message expires. It also falls off the end of a `bool` function without returning a value.
- `delay_ds` and `feedWatchdog` (lines 23-32) are not modelled: blocking delays and the `wdr` watchdog instruction.
- `pinMode`, `digitalWrite` and the `wdr` instructions inside the classes are not modelled. A pin is a field holding its last written level.
- The infinite loop of `PowerTimer::off()` is not modelled. It is the absorbing `halted` state.
- The graphics library calls are not modelled: `clearBuffer`, `setFont`, `setDrawColor`, `drawStr`, `drawGlyph`, `sendBuffer`. A paint is recorded as the `Frame` it was given, and counted in the ghost field `paints`.
- The clock is a parameter. The source reads `millis()` several times within one call; the model uses one reading per call.
- The display callbacks are not modelled as function pointers. Their return values at paint time are parameters. The unused field `int* time` is not modelled either.
- `TimerState` (lines 35-37) is declared but never used, and has no counterpart.
- `Leds.Led.constructor`: `onState` and `initialState` are restricted to HIGH and LOW. With another `int`, `digitalWrite` would write HIGH but `isShining` would be computed from the raw value.
- `PowerTimers.PowerTimer.constructor` takes the uninitialised freeze counter first, so that `logic` can keep its default of true as the last parameter. The pin number is not modelled. The defaults `cyclic = false` of `next`/`prev` and `onState = HIGH`, `initialState = LOW` of `Led` are kept.
- `Leds.Led.constructor`: `blinkInterval` and `timer` start at 0, whereas the source leaves them unset. They are only read in Blink mode, which only `blink()` enters, and `blink()` sets both.
- `SettingsArrays.SettingsArray.Get` requires an index in range. `operator[]` does no bounds check, and an index out of range is undefined behaviour.
- `SettingsArrays.SettingsArray.Set` requires an index in range, for the same reason: a write through `operator[]` out of range is undefined behaviour.
- The EEPROM persistence with its CRC-32, the button handling, and the main-loop dispatch are not part of this model. Their source is not among the modelled files.
