/**
 * The round logic of the sketch (main.cpp): the global buffer
 * gameSequence[MAX_GAME_LENGTH] and the counter gameIndex, mutated by
 * loop(), with the LED routines and the press checker that loop() calls.
 *
 * The board is represented by the trace of LED writes (`writes`), the tags
 * of what the OLED shows (`screen`), the random draw of each round (a
 * parameter in [0, 3)) and the button input stream (a parameter, consumed
 * and returned).
 */
module MemoryGame {
  import opened Wrappers
  import opened Pins
  import opened Debounce
  import opened Buttons
  import opened Matcher
  import opened Leds
  import opened Rounds

  /** What the OLED shows; the rendering of the text is not modelled. */
  datatype Message = Score(n: nat) | GameOverText | GoodJob

  class Game {
    /** gameSequence: the steps of the game so far, one LED per step. */
    const gameSequence: array<Channel>
    /** gameIndex: the number of steps of the current round. */
    var gameIndex: nat
    /** The level each LED pin is driven at, by channel; digitalRead of an LED pin reads it. */
    var leds: seq<Level>
    /** Every digitalWrite to an LED pin, in order. */
    var writes: seq<PinWrite>
    /** Every message put on the OLED, in order. */
    var screen: seq<Message>

    /** The buffer has its twenty slots, gameIndex counts within them, and every step is a draw of random(0, 3). */
    ghost predicate Valid()
      reads this, gameSequence
    {
      && gameSequence.Length == MaxGameLength
      && gameIndex <= MaxGameLength
      && LedsReadBack()
      && forall j :: 0 <= j < gameSequence.Length ==> gameSequence[j] < DrawBound
    }

    /**
     * The levels held are the levels the write trace leaves: digitalRead of
     * an LED pin reads back the last level written to it.
     */
    ghost predicate LedsReadBack()
      reads this
    {
      leds == Levels(writes)
    }

    /** The steps the operator has to repeat this round. */
    function Sequence(): seq<Channel>
      reads this, gameSequence
      requires Valid()
    {
      gameSequence[..gameIndex]
    }

    /** The state after setup: a zeroed buffer, no steps, every LED dark, nothing shown. */
    constructor ()
      ensures Valid() && fresh(gameSequence)
      ensures gameSequence[..] == seq(MaxGameLength, _ => 0)
      ensures gameIndex == 0 && leds == Dark && writes == [] && screen == []
    {
      gameSequence := new Channel[MaxGameLength](_ => 0);
      gameIndex := 0;
      leds := Dark;
      writes := [];
      screen := [];
    }

    /** digitalWrite to the LED of channel `led`. */
    method DigitalWrite(led: Channel, level: Level)
      requires LedsReadBack()
      modifies this`leds, this`writes
      ensures LedsReadBack()
      ensures leds == old(leds)[led := level]
      ensures writes == old(writes) + [PinWrite(led, level)]
    {
      LevelsAppend(writes, PinWrite(led, level));
      leds := leds[led := level];
      writes := writes + [PinWrite(led, level)];
    }

    /** Put a message on the OLED. */
    method Show(m: Message)
      modifies this`screen
      ensures screen == old(screen) + [m]
    {
      screen := screen + [m];
    }

    /** LEDsOff (main.cpp:192-198): all four LEDs dark. */
    method LEDsOff()
      requires LedsReadBack()
      modifies this`leds, this`writes
      ensures LedsReadBack()
      ensures writes == old(writes) + OffWrites()
      ensures leds == Dark
    {
      DigitalWrite(0, High);
      DigitalWrite(1, High);
      DigitalWrite(2, High);
      DigitalWrite(3, High);
    }

    /**
     * playSequence (main.cpp:141-152): all LEDs dark, then one pulse per
     * step of the round, in step order; every LED is dark at the end.
     */
    method PlaySequence()
      requires Valid()
      modifies this`leds, this`writes
      ensures Valid() && leds == Dark
      ensures writes == old(writes) + OffWrites() + PlaybackWrites(Sequence())
    {
      LEDsOff();
      for i := 0 to gameIndex
        invariant writes == old(writes) + OffWrites() + PlaybackWrites(gameSequence[..i])
        invariant LedsReadBack() && leds == Dark
      {
        var currentLED := gameSequence[i];
        DigitalWrite(currentLED, Low);
        DigitalWrite(currentLED, High);
        DarkStaysDark(currentLED);
        assert gameSequence[..i + 1][..i] == gameSequence[..i];
      }
    }

    /** The feedback for one press (main.cpp:178-182): the pressed button's LED flashed. */
    method Flash(pressed: Channel)
      requires LedsReadBack()
      modifies this`leds, this`writes
      ensures LedsReadBack()
      ensures writes == old(writes) + Acknowledge(pressed)
      ensures leds == old(leds)[pressed := High]
    {
      DigitalWrite(pressed, High);
      DigitalWrite(pressed, Low);
      DigitalWrite(pressed, High);
      assert leds == old(leds)[pressed := High];
    }

    /**
     * One step of checkButtonPressed (main.cpp:177-183): wait for the
     * press after the first `count` presses of `input` through getButtons,
     * then flash the pressed button's LED.
     */
    method AwaitPress(ghost input: seq<Sample>, ghost count: nat, ghost before: seq<PinWrite>, stream: seq<Sample>)
      returns (pressed: Option<Channel>, rest: seq<Sample>)
      requires LedsReadBack() && leds == Dark
      requires count <= |Presses(input)| && stream == DropPresses(input, count)
      requires writes == before + AckWrites(Presses(input)[..count])
      modifies this`leds, this`writes
      ensures LedsReadBack() && leds == Dark
      ensures pressed.Some? <==> count < |Presses(input)|
      ensures pressed.Some? ==> pressed.value == Presses(input)[count] && rest == DropPresses(input, count + 1)
      ensures pressed.Some? ==> writes == before + AckWrites(Presses(input)[..count + 1])
      ensures pressed.None? ==> rest == [] && writes == old(writes)
    {
      ghost var ps := Presses(input);
      PressesAfterDrop(input, count);
      pressed, rest := GetButtons(stream);
      if pressed.Some? {
        assert ps[count..][0] == ps[count];
        Flash(pressed.value);
        DarkStaysDark(pressed.value);
        AckWritesSnoc(ps[..count], pressed.value);
        assert ps[..count] + [pressed.value] == ps[..count + 1];
      } else {
        assert ps[count..] == [];
      }
    }

    /**
     * checkButtonPressed (main.cpp:170-190): collect one press per step,
     * acknowledging each on the pressed button's LED, and stop at the
     * first wrong one. Some(true) when every step was pressed correctly,
     * Some(false) at the first wrong press; None when the input ends first
     * (the board would still be waiting in getButtons).
     */
    method CheckButtonPressed(input: seq<Sample>) returns (ok: Option<bool>, rest: seq<Sample>)
      requires Valid() && leds == Dark
      modifies this`leds, this`writes
      ensures Valid() && leds == Dark
      ensures var v := Match(Sequence(), Presses(input));
              ok == if v.Matched? then Some(true) else if v.MismatchAt? then Some(false) else None
      ensures var used := PressesConsumed(Sequence(), Presses(input));
              && writes == old(writes) + AckWrites(Presses(input)[..used])
              && rest == if ok.None? then [] else DropPresses(input, used)
    {
      ghost var ps := Presses(input);
      ghost var e := Sequence();
      rest := input;
      for i := 0 to gameIndex
        invariant LedsReadBack() && leds == Dark
        invariant i <= |ps| && ps[..i] == e[..i]
        invariant rest == DropPresses(input, i)
        invariant writes == old(writes) + AckWrites(ps[..i])
      {
        var expectedButton := gameSequence[i];
        var actualButtonPressed;
        actualButtonPressed, rest := AwaitPress(input, i, old(writes), rest);
        if actualButtonPressed.None? {
          WaitingForMore(e, ps);
          return None, rest;
        }
        if expectedButton != actualButtonPressed.value {
          FirstMismatch(e, ps, i);
          return Some(false), rest;
        }
        AgreeOneMore(e, ps, i);
      }
      assert ps[..|e|] == e;
      return Some(true), rest;
    }

    /** One pass of the outer loop of blinkLEDs: each LED written the inverse of the level it reads back. */
    method ToggleAll()
      requires LedsReadBack()
      modifies this`leds, this`writes
      ensures LedsReadBack()
      ensures leds == Flip(old(leds))
      ensures writes == old(writes) + Sweep(leds)
    {
      ghost var next := Flip(leds);
      for i := 0 to ChannelCount
        invariant LedsReadBack() && |leds| == ChannelCount
        invariant forall j :: 0 <= j < ChannelCount ==> leds[j] == if j < i then next[j] else old(leds)[j]
        invariant writes == old(writes) + Sweep(next)[..i]
      {
        DigitalWrite(i, Not(leds[i]));
        assert Sweep(next)[..i + 1] == Sweep(next)[..i] + [Sweep(next)[i]];
      }
      assert leds == next;
      assert Sweep(next)[..ChannelCount] == Sweep(next);
    }

    /**
     * blinkLEDs (main.cpp:128-139): five passes that toggle every LED; as
     * five is odd, every LED ends at the inverse of its level on entry.
     */
    method BlinkLEDs()
      requires LedsReadBack()
      modifies this`leds, this`writes
      ensures LedsReadBack()
      ensures writes == old(writes) + BlinkTrace(old(leds), BlinkCount)
      ensures leds == Flip(old(leds))
    {
      for k := 0 to BlinkCount
        invariant LedsReadBack()
        invariant leds == Toggled(old(leds), k)
        invariant writes == old(writes) + BlinkTrace(old(leds), k)
      {
        ToggleAll();
        FlipToggled(old(leds), k);
      }
    }

    /** gameOver (main.cpp:118-126): the message, then the blink. */
    method GameOver()
      requires LedsReadBack()
      modifies this`leds, this`writes, this`screen
      ensures LedsReadBack()
      ensures screen == old(screen) + [GameOverText]
      ensures leds == Flip(old(leds))
      ensures writes == old(writes) + BlinkTrace(old(leds), BlinkCount)
    {
      Show(GameOverText);
      BlinkLEDs();
    }

    /**
     * Lines 74-75 with the capacity check: the draw goes to gameIndex (to
     * slot 0 when the buffer is full) and gameIndex counts it. While the
     * buffer has room, the new sequence extends the old one by the draw.
     */
    method AppendStep(draw: Channel)
      requires Valid() && draw < DrawBound
      modifies this`gameIndex, gameSequence
      ensures Valid()
      ensures gameIndex == CappedSlot(old(gameIndex)) + 1
      ensures gameSequence[..] == old(gameSequence[..])[CappedSlot(old(gameIndex)) := draw]
      ensures old(gameIndex) < MaxGameLength ==> Sequence() == old(Sequence()) + [draw]
    {
      var slot := CappedSlot(gameIndex);
      gameSequence[slot] := draw;
      gameIndex := slot + 1;
    }

    /**
     * The start of a pass of loop() (main.cpp:72-77): the score shown, a
     * step appended, the whole sequence played back.
     */
    method StartRound(draw: Channel)
      requires Valid() && draw < DrawBound
      modifies this`gameIndex, this`leds, this`writes, this`screen, gameSequence
      ensures Valid() && leds == Dark
      ensures gameIndex == CappedSlot(old(gameIndex)) + 1
      ensures gameSequence[..] == old(gameSequence[..])[CappedSlot(old(gameIndex)) := draw]
      ensures screen == old(screen) + [Score(old(gameIndex))]
      ensures writes == old(writes) + OffWrites() + PlaybackWrites(Sequence())
    {
      Show(Score(gameIndex));
      AppendStep(draw);
      PlaySequence();
    }

    /**
     * The end of a pass of loop() (main.cpp:77-94), once checkButtonPressed
     * has answered `passed`: game over and a reset to 0, or the new score;
     * then "Good Job!" whenever gameIndex is still positive.
     */
    method EndRound(passed: bool)
      requires Valid()
      modifies this`gameIndex, this`leds, this`writes, this`screen
      ensures Valid()
      ensures gameIndex == if passed then old(gameIndex) else 0
      ensures screen == old(screen)
                + (if passed then [Score(old(gameIndex))] else [GameOverText])
                + (if passed && old(gameIndex) > 0 then [GoodJob] else [])
      ensures writes == old(writes) + if passed then [] else BlinkTrace(old(leds), BlinkCount)
      ensures leds == if passed then old(leds) else Flip(old(leds))
    {
      if !passed {
        GameOver();
        gameIndex := 0;
      } else {
        Show(Score(gameIndex));
      }
      if gameIndex > 0 {
        Show(GoodJob);
      }
    }

    /**
     * One pass of loop() (main.cpp:70-96). The score is shown, a step is
     * appended and the whole sequence played back; the presses are then
     * checked. A wrong press shows game over, blinks the LEDs and resets
     * gameIndex to 0; a full match shows the new score and "Good Job!".
     * When the input ends before the round does, the pass stops there.
     */
    method Loop(draw: Channel, input: seq<Sample>) returns (rest: seq<Sample>)
      requires Valid() && draw < DrawBound
      modifies this, gameSequence
      ensures Valid()
      ensures var slot := CappedSlot(old(gameIndex));
              gameSequence[..] == old(gameSequence[..])[slot := draw]
      ensures var slot := CappedSlot(old(gameIndex));
              var e := gameSequence[..slot + 1];
              var v := Match(e, Presses(input));
              var used := PressesConsumed(e, Presses(input));
              && gameIndex == IndexAfter(slot, !v.MismatchAt?)
              && rest == (if v.Waiting? then [] else DropPresses(input, used))
              && screen == old(screen) + [Score(old(gameIndex))]
                   + (if v.Matched? then [Score(slot + 1)] else if v.MismatchAt? then [GameOverText] else [])
                   + (if v.Matched? then [GoodJob] else [])
              && writes == old(writes) + OffWrites() + PlaybackWrites(e) + AckWrites(Presses(input)[..used])
                   + (if v.MismatchAt? then BlinkTrace(Dark, BlinkCount) else [])
              && leds == if v.MismatchAt? then Flip(Dark) else Dark
    {
      ghost var slot := CappedSlot(gameIndex);
      StartRound(draw);
      ghost var e := Sequence();
      ghost var v := Match(e, Presses(input));
      ghost var used := PressesConsumed(e, Presses(input));
      ghost var played := writes;
      ghost var shown := screen;
      assert e == gameSequence[..slot + 1];
      var ok;
      ok, rest := CheckButtonPressed(input);
      assert Sequence() == e;
      assert writes == played + AckWrites(Presses(input)[..used]);
      if ok.None? {
        return;
      }
      EndRound(ok.value);
      assert screen == shown + (if ok.value then [Score(slot + 1), GoodJob] else [GameOverText]);
    }
  }
}
