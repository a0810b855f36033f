/**
 * buttonDebounce (main.cpp:200-222). Every local of the routine is
 * re-initialised on each call, so the routine keeps no state between
 * calls: it is a function of the raw reading and of millis().
 */
module Debounce {
  import opened Pins

  /** millis() is an unsigned long: it counts milliseconds modulo 2^32. */
  const MillisModulus := 0x1_0000_0000

  type Millis = t: nat | t < MillisModulus

  /** debounceDelay, in milliseconds. */
  const DebounceDelay := 50

  /** lastDebounceTime is a uint8_t, so a millis() value stored in it is truncated. */
  const ByteModulus := 256

  /** A value stored into a uint8_t. */
  function ToByte(x: nat): nat
  {
    x % ByteModulus
  }

  /** What one call reads from the hardware: the raw button level and the clock. */
  datatype Sample = Sample(raw: Level, now: Millis)

  /** The locals of one buttonDebounce call when it returns. */
  datatype Locals = Locals(buttonState: Level, lastButtonState: Level, buttonPress: Level, lastDebounceTime: nat)

  /**
   * The level buttonDebounce returns for one sample, in its reduced form:
   * the raw level once more than 50 ms have passed on the clock, and Low
   * (pressed) before that.
   */
  function Debounced(s: Sample): Level
  {
    if s.now > DebounceDelay then s.raw else Low
  }

  /**
   * One call of buttonDebounce, step by step. lastButtonState is assigned
   * buttonState before the two are compared, so the transition branch
   * never runs and lastDebounceTime stays 0; what the call returns is
   * therefore the reduced form above.
   */
  function Run(raw: Level, now: Millis): (r: Locals)
    ensures r.lastDebounceTime == 0
    ensures r.buttonState == raw && r.lastButtonState == raw
    ensures r.buttonPress == Debounced(Sample(raw, now))
  {
    var buttonState := raw;
    var lastButtonState := buttonState;
    var buttonPress := Low;
    var lastDebounceTime := if buttonState != lastButtonState then ToByte(now) else 0;
    var elapsed := (now - lastDebounceTime) % MillisModulus;
    var buttonPress' := if elapsed > DebounceDelay && buttonState != buttonPress then buttonState else buttonPress;
    Locals(buttonState, buttonState, buttonPress', lastDebounceTime)
  }
}
