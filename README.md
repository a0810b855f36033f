# Memory game round logic, in Dafny

This project models the round logic of an Arduino "memory" game (`main.cpp`).
The board has four LEDs, four buttons and an OLED. Each pass of `loop()` does the following:

- It shows the score.
- It appends a random step (an LED index drawn with `random(0, 3)`) to the global buffer `gameSequence[MAX_GAME_LENGTH]` and increments `gameIndex`.
- It plays the whole sequence back on the LEDs (`playSequence`).
- It collects one button press per step (`checkButtonPressed`, through `getButtons` and `buttonDebounce`), flashing the pressed button's LED each time.
- On the first wrong press it shows "GAME OVER!", blinks every LED five times (`blinkLEDs`) and resets `gameIndex` to 0.
- Otherwise it shows the new score and "Good Job!".

The modules:

- `Pins` holds levels, channels (indices into `ledPins`/`buttonPins`) and LED writes. It also gives the level an LED pin reads back after a trace of writes (`LevelOf`/`Levels`, which is how `digitalRead` on an output pin behaves).
- `Debounce` holds `buttonDebounce` as a function of the raw button level and of `millis()`. The routine re-initialises all its locals on every call, so it keeps no state.
- `Buttons` holds `getButtons`. The hardware is an input stream of samples, and each `buttonDebounce` call consumes one. `Presses` is the sequence of buttons that successive calls return.
- `Matcher` holds the comparison that `checkButtonPressed` makes between the round's sequence and the presses.
- `Leds` holds the LED write traces that `LEDsOff`, `playSequence`, the acknowledgement flash and `blinkLEDs` produce, with their properties.
- `Rounds` holds how `gameIndex` moves from round to round. It contains both the unchecked write of line 74 as written and the checked write that the rest of the model uses.
- `MemoryGame` holds the class `Game`. Its fields are the `gameSequence` array, `gameIndex`, the LED levels, the trace of LED writes and the messages shown. Its methods follow the routines of the sketch loop for loop. Its invariant (`LedsReadBack`) keeps the LED levels equal to what the write trace reads back through `Pins.Levels`, so the trace lemmas of `Leds` describe the same levels that the methods read and write.

Two behaviours of the code are modelled as written:

- `random(0, 3)` draws from {0, 1, 2}, never 3, so the fourth LED is never part of a sequence (`Rounds.DrawBound`, `Leds.FourthLedNeverPlayed`). A draw over all four LEDs would need `random(0, 4)`.
- In `buttonDebounce`, `lastButtonState` is assigned `buttonState` before the two are compared. So the transition branch never runs, and the routine returns the raw level once `millis()` exceeds 50, and Low (pressed) before that (`Debounce.Run`).

## Model

| member | source | states |
|---|---|---|
| Debounce.Run | main.cpp:200-222 | One call of buttonDebounce. It never records a transition (lastDebounceTime stays 0). It returns the raw level once millis() exceeds 50, and Low before that. |
| Buttons.FirstLow | main.cpp:156-165 | Where the scan stops: a position within the stream, if any (characterised by the three lemmas below). |
| Buttons.Presses | main.cpp:154-168 | The buttons successive getButtons calls return: never more presses than samples, and none exactly when no sample debounces Low. |
| Buttons.FirstLowIsFirst | main.cpp:156-165 | The sample the scan stops at debounces to Low, and every sample read before it debounces High. When the scan finds none, every sample is High. |
| Buttons.FirstLowAt | main.cpp:158-164 | Conversely, a Low sample with only High samples before it is the one the scan stops at. |
| Buttons.NoLowSample | main.cpp:156-167 | A stream with no Low sample holds no press. |
| Buttons.GetButtons | main.cpp:154-168 | The polling loop returns the first press of the stream (the button whose sample first debounces Low; lower-numbered buttons of the same scan win) and the stream after it. It returns None exactly when the stream holds no press. |
| Buttons.DropOnePress | main.cpp:154-168 | One getButtons call consumes exactly the first press of the stream. |
| Buttons.PressesAfterDrop | main.cpp:154-168 | After n getButtons calls, the later calls return the presses after the first n. |
| Matcher.Match | main.cpp:174-189 | The verdict is Matched iff the presses begin with the whole sequence. MismatchAt(i) means the first i presses agree and press i differs. Waiting means the presses so far agree and ran out first. |
| Matcher.PressesConsumed | main.cpp:174-187 | The number of presses checkButtonPressed reads before it returns: at most the presses and the steps, with all but the last agreeing. |
| Matcher.FirstMismatch | main.cpp:184-187 | The first differing position alone fixes the verdict to MismatchAt at that position, after reading exactly that many presses plus one. |
| Matcher.WaitingForMore | main.cpp:174-177 | Correct presses that run out before the steps do leave the check waiting, with every press read. |
| Leds.PlaybackPulses | main.cpp:144-151 | Playback is exactly two writes per step: step i's LED Low, then High, in step order. |
| Leds.FourthLedNeverPlayed | main.cpp:144-151 | When the steps come from random(0, 3), playback never writes the fourth LED. |
| Leds.OffLeavesDark | main.cpp:192-198 | After LEDsOff every LED reads back High (dark), whatever came before. |
| Leds.PulsesKeepDark | main.cpp:144-151 | Every playback pulse ends with its LED dark again, so dark LEDs stay dark. |
| Leds.PlaybackEndsDark | main.cpp:141-152 | Read back through digitalRead, every LED is dark when playSequence returns. |
| Leds.AckFlashes | main.cpp:178-182 | The feedback is exactly three writes per press, High, Low, High on the pressed button's LED, in press order. |
| Leds.AckOnlyPressedLeds | main.cpp:178-182 | Every feedback write goes to the LED of the press it acknowledges and to no other. |
| Leds.FlashesKeepDark | main.cpp:178-182 | Each acknowledgement ends with its LED dark again, so dark LEDs stay dark. |
| Leds.FlipToggled | main.cpp:134 | Toggling every LED once more inverts its level. |
| Leds.WritesToSweep | main.cpp:132-136 | One pass of the inner loop of blinkLEDs writes every LED exactly once. |
| Leds.BlinkWritesEach | main.cpp:130-138 | blinkLEDs writes every LED once per pass of its outer loop, so n passes write each LED n times. |
| Leds.LevelsAfterSweep | main.cpp:132-136 | After a pass, each LED reads back the level the pass wrote to it. |
| Leds.BlinkInverts | main.cpp:128-139 | Five toggles are an odd number, so blinkLEDs leaves every LED at the inverse of its level on entry. |
| Pins.LevelsAppend | main.cpp:134 | A digitalWrite changes the level its LED reads back, and no other LED's. |
| Rounds.RunAsWritten | main.cpp:74-81 | gameIndex over successive rounds as written, None once a write leaves the buffer: each round adds at most one, and a lost last round leaves 0. |
| Rounds.WinsAsWritten | main.cpp:74-75 | While the buffer has room, each matched round adds one to gameIndex. |
| Rounds.OverflowAfterTwentyWins | main.cpp:74-75 | From a fresh game, twenty matched rounds bring gameIndex to 20. The next round then writes past the end of gameSequence, whatever its outcome. |
| Rounds.CappedSlot | main.cpp:74 | The checked write: always within the buffer, and the same slot as line 74 whenever line 74 is within it. |
| Rounds.RunCapped | main.cpp:74-81 | gameIndex over successive rounds with the checked write: each round adds at most one, and a lost last round leaves 0. |
| Rounds.CappedStaysInBounds | main.cpp:74-81 | With the checked write, gameIndex never exceeds 20 over any run of rounds. |
| Rounds.CappedAgreesAsWritten | main.cpp:74-81 | On every run that the unchecked write survives, the checked write gives the same gameIndex. |
| MemoryGame.Game.constructor | main.cpp:27-28 | The start state: a zeroed buffer, gameIndex 0, every LED dark (as setup leaves them), nothing written or shown. |
| MemoryGame.Game.DigitalWrite | main.cpp:147 | A digitalWrite: the trace gains the write, the LED takes the level, and the levels still read back from the trace. |
| MemoryGame.Game.Show | main.cpp:109-116 | Putting a message on the OLED (displayScore here, and likewise the texts at lines 120-123 and 90-93): the message is appended to what has been shown. |
| MemoryGame.Game.LEDsOff | main.cpp:192-198 | Writes High to the four LEDs in order, which leaves them all dark. |
| MemoryGame.Game.PlaySequence | main.cpp:141-152 | Writes LEDsOff, then one pulse per step of gameSequence[..gameIndex], in order. The LEDs end dark, and the buffer and gameIndex are unchanged. |
| MemoryGame.Game.Flash | main.cpp:178-182 | Writes the acknowledgement flash on the pressed LED, which then reads High. |
| MemoryGame.Game.AwaitPress | main.cpp:177-183 | One step of the check: the next press of the input, with its flash appended to the trace, or None when the input holds no further press. |
| MemoryGame.Game.CheckButtonPressed | main.cpp:170-190 | Returns true iff the presses match every step, false at the first wrong press, and None when the input ends first. It reads exactly the presses the Matcher verdict consumes, flashes each of them in order, and returns the rest of the input. |
| MemoryGame.Game.ToggleAll | main.cpp:132-136 | Writes every LED the inverse of the level it reads back, in channel order. |
| MemoryGame.Game.BlinkLEDs | main.cpp:128-139 | Writes the five toggle passes in order and leaves every LED inverted. |
| MemoryGame.Game.GameOver | main.cpp:118-126 | Shows the game-over message, then blinks. |
| MemoryGame.Game.AppendStep | main.cpp:74-75 | Stores the draw at the checked slot and sets gameIndex one past it. While the buffer has room, the round's sequence is the old one plus the draw. |
| MemoryGame.Game.StartRound | main.cpp:72-77 | Shows the old score, appends the step and plays the new sequence back. |
| MemoryGame.Game.EndRound | main.cpp:78-94 | A failed check shows game over, blinks and resets gameIndex to 0. A passed one shows the score. "Good Job!" follows whenever gameIndex is still positive. |
| MemoryGame.Game.Loop | main.cpp:70-96 | One pass of loop(): the buffer gains the draw at its slot. gameIndex, the messages shown, the LED trace and levels, and the input left over are each fixed by the Matcher verdict on the new sequence against the presses. |

## Left out

- Drawing the OLED (clearing, cursor, fonts) is left out. Only which message is shown is recorded: the score, "GAME OVER!" or "Good Job!".
- Every `delay()` is left out, and so is the 1 ms pause between scans in getButtons. Timing is not part of the model, except the `millis()` value that each debounce sample carries.
- `setup`, `HW_init`, the serial output and the display start-up are left out. The constructor stands for the state they leave.
- `randomSeed(analogRead(0))` and `random(0, 3)` are left out as randomness. Each round's draw is a parameter of `Loop`, required to be below 3.
- `topScore` and `disptext` are left out because the core never uses them. The physical pin numbers are left out because LEDs and buttons are identified by their index.
- The `uint8_t` width of `gameIndex` is not modelled. With the checked write it never exceeds 20. As written, the model stops at the out-of-bounds write, long before 255.
- Buttons.GetButtons: returns None when the finite input stream has no further press. The board would keep polling forever.
- MemoryGame.Game.CheckButtonPressed: returns None (still waiting) when the input ends before every step has been pressed. The board would block there.
- MemoryGame.Game.Loop: stops the pass when the input ends before the check answers.
- MemoryGame.Game.AppendStep: when gameIndex is already 20, it writes slot 0 and starts a new game of one step. Line 74 writes past the end of the buffer instead (see Findings).

## Findings

| source | as written | input that shows it | evidently intended | confidence | as-written member | corrected member |
|---|---|---|---|---|---|---|
| main.cpp:74 | `gameSequence[gameIndex]` is written with no comparison against MAX_GAME_LENGTH (20). | Twenty matched rounds from a fresh game make gameIndex 20, and the 21st pass of loop() writes gameSequence[20], one past the end of the buffer. | The write stays within the buffer. Here, a full buffer starts a new game at slot 0. | not executed | Rounds.OverflowAfterTwentyWins | Rounds.CappedStaysInBounds |
