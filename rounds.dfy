/**
 * How a round moves gameIndex (main.cpp:74-81): the new step is written at
 * gameSequence[gameIndex] (line 74), gameIndex is incremented (line 75) and
 * reset to 0 when the operator presses a wrong button (line 81).
 *
 * Line 74 writes without comparing gameIndex with MAX_GAME_LENGTH. The
 * functions marked "as written" model that; CappedSlot is the checked
 * write the rest of the model uses.
 */
module Rounds {
  import opened Wrappers

  /** MAX_GAME_LENGTH: the capacity of gameSequence. */
  const MaxGameLength := 20

  /** random(0, 3) draws from [0, 3): the upper bound is exclusive. */
  const DrawBound := 3

  /** Where line 74 writes. */
  datatype Slot = InBounds(index: nat) | OutOfBounds(index: nat)

  /** The slot line 74 writes, as written: gameIndex itself, checked against nothing. */
  function SlotAsWritten(gameIndex: nat): (s: Slot)
    ensures s.index == gameIndex
    ensures s.InBounds? <==> gameIndex < MaxGameLength
  {
    if gameIndex < MaxGameLength then InBounds(gameIndex) else OutOfBounds(gameIndex)
  }

  /** gameIndex after a round whose step went to `slot`: one more if the presses matched, else 0. */
  function IndexAfter(slot: nat, matched: bool): nat
  {
    if matched then slot + 1 else 0
  }

  /**
   * gameIndex after rounds with the outcomes `matched`, starting from
   * `gameIndex`, as written; None once a round writes past the buffer.
   */
  function RunAsWritten(gameIndex: nat, matched: seq<bool>): (r: Option<nat>)
    ensures r.Some? ==> r.value <= gameIndex + |matched|
    ensures r.Some? && matched != [] && !matched[|matched| - 1] ==> r.value == 0
    decreases |matched|
  {
    if matched == [] then Some(gameIndex)
    else
      match SlotAsWritten(gameIndex)
      case OutOfBounds(_) => None
      case InBounds(s) => RunAsWritten(IndexAfter(s, matched[0]), matched[1..])
  }

  /** `n` rounds in a row whose presses all matched. */
  function Wins(n: nat): seq<bool>
  {
    seq(n, _ => true)
  }

  /** While the buffer has room, each matched round adds one to gameIndex. */
  lemma {:induction false} WinsAsWritten(start: nat, n: nat, tail: seq<bool>)
    requires start + n <= MaxGameLength
    ensures RunAsWritten(start, Wins(n) + tail) == RunAsWritten(start + n, tail)
    decreases n
  {
    if n > 0 {
      assert (Wins(n) + tail)[0] == true;
      assert (Wins(n) + tail)[1..] == Wins(n - 1) + tail;
      WinsAsWritten(start + 1, n - 1, tail);
    } else {
      assert Wins(n) + tail == tail;
    }
  }

  /**
   * The defect of line 74: from a fresh game, twenty matched rounds fill
   * the buffer, and the next round, whatever its outcome, writes
   * gameSequence[20], one past its end.
   */
  lemma OverflowAfterTwentyWins(next: bool)
    ensures RunAsWritten(0, Wins(MaxGameLength)) == Some(MaxGameLength)
    ensures RunAsWritten(0, Wins(MaxGameLength) + [next]) == None
  {
    WinsAsWritten(0, MaxGameLength, []);
    assert Wins(MaxGameLength) + [] == Wins(MaxGameLength);
    WinsAsWritten(0, MaxGameLength, [next]);
  }

  /**
   * The checked write: the slot is gameIndex while the buffer has room;
   * a full buffer (twenty rounds completed) starts a new game at slot 0.
   */
  function CappedSlot(gameIndex: nat): (s: nat)
    ensures s < MaxGameLength
    ensures gameIndex < MaxGameLength ==> s == gameIndex
  {
    if gameIndex < MaxGameLength then gameIndex else 0
  }

  /** gameIndex after rounds with the outcomes `matched`, with the checked write. */
  function RunCapped(gameIndex: nat, matched: seq<bool>): (r: nat)
    ensures r <= gameIndex + |matched|
    ensures matched != [] && !matched[|matched| - 1] ==> r == 0
    decreases |matched|
  {
    if matched == [] then gameIndex
    else RunCapped(IndexAfter(CappedSlot(gameIndex), matched[0]), matched[1..])
  }

  /** With the checked write, gameIndex never exceeds the capacity, whatever the outcomes. */
  lemma {:induction false} CappedStaysInBounds(gameIndex: nat, matched: seq<bool>)
    requires gameIndex <= MaxGameLength
    ensures RunCapped(gameIndex, matched) <= MaxGameLength
    decreases |matched|
  {
    if matched != [] {
      CappedStaysInBounds(IndexAfter(CappedSlot(gameIndex), matched[0]), matched[1..]);
    }
  }

  /** The check changes nothing on any run that the unchecked write survives. */
  lemma {:induction false} CappedAgreesAsWritten(gameIndex: nat, matched: seq<bool>)
    requires RunAsWritten(gameIndex, matched).Some?
    ensures RunCapped(gameIndex, matched) == RunAsWritten(gameIndex, matched).value
    decreases |matched|
  {
    if matched != [] {
      CappedAgreesAsWritten(IndexAfter(gameIndex, matched[0]), matched[1..]);
    }
  }
}
