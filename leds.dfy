/**
 * The LED write traces the sketch produces: LEDsOff (main.cpp:192-198),
 * the pulses of playSequence (main.cpp:141-152), the acknowledgement
 * flashes of checkButtonPressed (main.cpp:178-182) and the game-over blink
 * of blinkLEDs (main.cpp:128-139). Delays are not part of the trace.
 */
module Leds {
  import opened Pins

  /** LEDsOff: every LED written High, in channel order. */
  function OffWrites(): seq<PinWrite>
  {
    [PinWrite(0, High), PinWrite(1, High), PinWrite(2, High), PinWrite(3, High)]
  }

  /** One played step: the LED lit, then dark again. */
  function Pulse(c: Channel): seq<PinWrite>
  {
    [PinWrite(c, Low), PinWrite(c, High)]
  }

  /** The pulses playSequence emits for the steps `e`, in step order. */
  function PlaybackWrites(e: seq<Channel>): seq<PinWrite>
  {
    if e == [] then [] else PlaybackWrites(e[..|e| - 1]) + Pulse(e[|e| - 1])
  }

  /** Playback is exactly one pulse per step, pulse `i` on the LED of step `i`. */
  lemma {:induction false} PlaybackPulses(e: seq<Channel>)
    ensures |PlaybackWrites(e)| == 2 * |e|
    ensures forall i :: 0 <= i < |e| ==>
              PlaybackWrites(e)[2 * i] == PinWrite(e[i], Low) && PlaybackWrites(e)[2 * i + 1] == PinWrite(e[i], High)
  {
    if e != [] {
      var init := e[..|e| - 1];
      PlaybackPulses(init);
      assert forall i :: 0 <= i < |init| ==> e[i] == init[i];
    }
  }

  /** Steps drawn from {0, 1, 2} never light the fourth LED during playback. */
  lemma FourthLedNeverPlayed(e: seq<Channel>)
    requires forall i :: 0 <= i < |e| ==> e[i] != 3
    ensures forall j :: 0 <= j < |PlaybackWrites(e)| ==> PlaybackWrites(e)[j].led != 3
  {
  }

  /** The feedback for one press: the pressed button's LED High, Low, High. */
  function Acknowledge(c: Channel): seq<PinWrite>
  {
    [PinWrite(c, High), PinWrite(c, Low), PinWrite(c, High)]
  }

  /** The feedback checkButtonPressed gives for the presses `ps`, in order. */
  function AckWrites(ps: seq<Channel>): seq<PinWrite>
  {
    if ps == [] then [] else AckWrites(ps[..|ps| - 1]) + Acknowledge(ps[|ps| - 1])
  }

  /** One more press appends its flash. */
  lemma AckWritesSnoc(ps: seq<Channel>, p: Channel)
    ensures AckWrites(ps + [p]) == AckWrites(ps) + Acknowledge(p)
  {
  }

  /** The feedback is exactly one flash per press, flash `i` on the LED of press `i`. */
  lemma {:induction false} AckFlashes(ps: seq<Channel>)
    ensures |AckWrites(ps)| == 3 * |ps|
    ensures forall i :: 0 <= i < |ps| ==>
              && AckWrites(ps)[3 * i] == PinWrite(ps[i], High)
              && AckWrites(ps)[3 * i + 1] == PinWrite(ps[i], Low)
              && AckWrites(ps)[3 * i + 2] == PinWrite(ps[i], High)
  {
    if ps != [] {
      var init := ps[..|ps| - 1];
      AckFlashes(init);
      assert forall i :: 0 <= i < |init| ==> ps[i] == init[i];
    }
  }

  /** Every write of the feedback goes to the LED of the press it acknowledges, and to no other. */
  lemma AckOnlyPressedLeds(ps: seq<Channel>)
    ensures |AckWrites(ps)| == 3 * |ps|
    ensures forall j :: 0 <= j < |AckWrites(ps)| ==> AckWrites(ps)[j].led == ps[j / 3]
  {
  }

  /** Number of times blinkLEDs toggles each LED. */
  const BlinkCount := 5

  /** Every level inverted. */
  function Flip(l: seq<Level>): seq<Level>
  {
    seq(|l|, i requires 0 <= i < |l| => Not(l[i]))
  }

  /** The levels `l` after being toggled `n` times. */
  function Toggled(l: seq<Level>, n: nat): seq<Level>
  {
    if n % 2 == 0 then l else Flip(l)
  }

  /** One more toggle inverts the levels. */
  lemma FlipToggled(l: seq<Level>, n: nat)
    ensures Flip(Toggled(l, n)) == Toggled(l, n + 1)
  {
  }

  /** One pass of the inner loop of blinkLEDs: each LED written to the level `m` gives it. */
  function Sweep(m: seq<Level>): seq<PinWrite>
    requires |m| == ChannelCount
  {
    [PinWrite(0, m[0]), PinWrite(1, m[1]), PinWrite(2, m[2]), PinWrite(3, m[3])]
  }

  /** The first `n` passes of blinkLEDs on LEDs that start at levels `l`. */
  function BlinkTrace(l: seq<Level>, n: nat): seq<PinWrite>
    requires |l| == ChannelCount
  {
    if n == 0 then [] else BlinkTrace(l, n - 1) + Sweep(Toggled(l, n))
  }

  /** How often the trace `t` writes the LED `c`. */
  function WritesTo(t: seq<PinWrite>, c: Channel): nat
  {
    if t == [] then 0 else WritesTo(t[..|t| - 1], c) + (if t[|t| - 1].led == c then 1 else 0)
  }

  lemma {:induction false} WritesToConcat(a: seq<PinWrite>, b: seq<PinWrite>, c: Channel)
    ensures WritesTo(a + b, c) == WritesTo(a, c) + WritesTo(b, c)
  {
    if b != [] {
      assert (a + b)[..|a + b| - 1] == a + b[..|b| - 1];
      WritesToConcat(a, b[..|b| - 1], c);
    } else {
      assert a + b == a;
    }
  }

  /** A pass writes every LED exactly once. */
  lemma WritesToSweep(m: seq<Level>, c: Channel)
    requires |m| == ChannelCount
    ensures WritesTo(Sweep(m), c) == 1
  {
    var w := Sweep(m);
    var one := if w[0].led == c then 1 else 0;
    var two := one + if w[1].led == c then 1 else 0;
    var three := two + if w[2].led == c then 1 else 0;
    assert w[..3] == [w[0], w[1], w[2]] && w[..3][..2] == [w[0], w[1]];
    assert w[..3][..2][..1] == [w[0]] && w[..3][..2][..1][..0] == [];
    assert WritesTo([w[0]], c) == one;
    assert WritesTo([w[0], w[1]], c) == two;
    assert WritesTo([w[0], w[1], w[2]], c) == three;
  }

  /** blinkLEDs writes every LED once per pass. */
  lemma {:induction false} BlinkWritesEach(l: seq<Level>, n: nat, c: Channel)
    requires |l| == ChannelCount
    ensures WritesTo(BlinkTrace(l, n), c) == n
  {
    if n > 0 {
      BlinkWritesEach(l, n - 1, c);
      var m := Toggled(l, n);
      WritesToConcat(BlinkTrace(l, n - 1), Sweep(m), c);
      WritesToSweep(m, c);
    }
  }

  /** After a pass, each LED is at the level the pass wrote to it. */
  lemma LevelsAfterSweep(t: seq<PinWrite>, m: seq<Level>)
    requires |m| == ChannelCount
    ensures Levels(t + Sweep(m)) == m
  {
    var w := Sweep(m);
    assert t + w == t + [w[0]] + [w[1]] + [w[2]] + [w[3]];
    LevelsAppend(t, w[0]);
    LevelsAppend(t + [w[0]], w[1]);
    LevelsAppend(t + [w[0]] + [w[1]], w[2]);
    LevelsAppend(t + [w[0]] + [w[1]] + [w[2]], w[3]);
  }

  /**
   * blinkLEDs toggles each LED an odd number of times, so every LED ends
   * at the inverse of the level it had on entry.
   */
  lemma BlinkInverts(t: seq<PinWrite>)
    ensures Levels(t + BlinkTrace(Levels(t), BlinkCount)) == Flip(Levels(t))
  {
    var l := Levels(t);
    assert BlinkTrace(l, BlinkCount) == BlinkTrace(l, 4) + Sweep(Flip(l));
    assert t + BlinkTrace(l, BlinkCount) == (t + BlinkTrace(l, 4)) + Sweep(Flip(l));
    LevelsAfterSweep(t + BlinkTrace(l, 4), Flip(l));
  }

  /** LEDsOff leaves every LED dark, whatever the trace before it. */
  lemma OffLeavesDark(t: seq<PinWrite>)
    ensures Levels(t + OffWrites()) == Dark
  {
    assert OffWrites() == Sweep(Dark);
    LevelsAfterSweep(t, Dark);
  }

  /** Every pulse of playback ends with its LED dark again, so dark LEDs stay dark. */
  lemma {:induction false} PulsesKeepDark(t: seq<PinWrite>, e: seq<Channel>)
    requires Levels(t) == Dark
    ensures Levels(t + PlaybackWrites(e)) == Dark
  {
    if e != [] {
      var c := e[|e| - 1];
      var u := t + PlaybackWrites(e[..|e| - 1]);
      PulsesKeepDark(t, e[..|e| - 1]);
      assert t + PlaybackWrites(e) == u + [PinWrite(c, Low)] + [PinWrite(c, High)];
      LevelsAppend(u, PinWrite(c, Low));
      LevelsAppend(u + [PinWrite(c, Low)], PinWrite(c, High));
      assert Levels(u + [PinWrite(c, Low)]) == Dark[c := Low];
      assert Dark[c := Low][c := High] == Dark;
    } else {
      assert t + PlaybackWrites(e) == t;
    }
  }

  /** Read back through digitalRead, the LEDs are all dark once playSequence is done. */
  lemma PlaybackEndsDark(t: seq<PinWrite>, e: seq<Channel>)
    ensures Levels(t + OffWrites() + PlaybackWrites(e)) == Dark
  {
    OffLeavesDark(t);
    PulsesKeepDark(t + OffWrites(), e);
  }

  /** Every acknowledgement flash ends with its LED dark again, so dark LEDs stay dark. */
  lemma {:induction false} FlashesKeepDark(t: seq<PinWrite>, ps: seq<Channel>)
    requires Levels(t) == Dark
    ensures Levels(t + AckWrites(ps)) == Dark
  {
    if ps != [] {
      var c := ps[|ps| - 1];
      var u := t + AckWrites(ps[..|ps| - 1]);
      FlashesKeepDark(t, ps[..|ps| - 1]);
      assert t + AckWrites(ps) == u + [PinWrite(c, High)] + [PinWrite(c, Low)] + [PinWrite(c, High)];
      LevelsAppend(u, PinWrite(c, High));
      LevelsAppend(u + [PinWrite(c, High)], PinWrite(c, Low));
      LevelsAppend(u + [PinWrite(c, High)] + [PinWrite(c, Low)], PinWrite(c, High));
      assert Levels(u + [PinWrite(c, High)]) == Dark;
      assert Levels(u + [PinWrite(c, High)] + [PinWrite(c, Low)]) == Dark[c := Low];
      assert Dark[c := Low][c := High] == Dark;
    } else {
      assert t + AckWrites(ps) == t;
    }
  }
}
