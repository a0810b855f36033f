/**
 * The digital pins the sketch drives: four LEDs (active-low outputs) and
 * four buttons (active-low inputs with pull-up). A channel is the index
 * into ledPins/buttonPins; the physical pin numbers are not modelled.
 */
module Pins {
  /** A logic level. For an LED, Low is lit and High is dark; for a button, Low is pressed. */
  datatype Level = Low | High

  /** `!digitalRead(pin)` written back with digitalWrite. */
  function Not(l: Level): Level
  {
    if l == Low then High else Low
  }

  /** Number of button/LED pairs. */
  const ChannelCount := 4

  /** An index into ledPins and buttonPins. */
  type Channel = c: nat | c < ChannelCount

  /** One digitalWrite to the LED of a channel. */
  datatype PinWrite = PinWrite(led: Channel, level: Level)

  /**
   * The level an LED pin reads back (digitalRead of an output pin): the
   * level of the last write to it, or High, the level the pins are set to
   * at start-up, when the trace has not written it yet.
   */
  function LevelOf(t: seq<PinWrite>, led: Channel): Level
  {
    if t == [] then High
    else if t[|t| - 1].led == led then t[|t| - 1].level
    else LevelOf(t[..|t| - 1], led)
  }

  /** The levels of the four LEDs after the trace `t`, by channel. */
  function Levels(t: seq<PinWrite>): seq<Level>
  {
    [LevelOf(t, 0), LevelOf(t, 1), LevelOf(t, 2), LevelOf(t, 3)]
  }

  /** All four LEDs dark. */
  const Dark: seq<Level> := [High, High, High, High]

  /** Writing High to a dark LED leaves every LED dark. */
  lemma DarkStaysDark(c: Channel)
    ensures Dark[c := High] == Dark
  {
  }

  /** A write changes the level of its own LED and of no other. */
  lemma LevelsAppend(t: seq<PinWrite>, w: PinWrite)
    ensures Levels(t + [w]) == Levels(t)[w.led := w.level]
  {
  }
}
