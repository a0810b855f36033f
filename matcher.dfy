/**
 * The comparison checkButtonPressed (main.cpp:170-190) makes between the
 * sequence of the round and the presses it collects, one press per step,
 * stopping at the first wrong press.
 */
module Matcher {
  import opened Pins

  /** How the collection of presses ends. */
  datatype Verdict =
    | Matched                  // every step pressed correctly
    | MismatchAt(index: nat)   // the first wrong press is the one for step `index`
    | Waiting                  // the presses ran out first: the board is still waiting

  /** Compare `presses` with `expected`, step by step, until the first difference. */
  function Match(expected: seq<Channel>, presses: seq<Channel>): (v: Verdict)
    ensures v.Matched? <==> |presses| >= |expected| && presses[..|expected|] == expected
    ensures v.MismatchAt? ==> v.index < |expected| && v.index < |presses|
    ensures v.MismatchAt? ==> presses[..v.index] == expected[..v.index] && presses[v.index] != expected[v.index]
    ensures v.Waiting? ==> |presses| < |expected| && presses == expected[..|presses|]
  {
    if expected == [] then Matched
    else if presses == [] then Waiting
    else if presses[0] != expected[0] then MismatchAt(0)
    else
      var v := Match(expected[1..], presses[1..]);
      if v.MismatchAt? then MismatchAt(v.index + 1) else v
  }

  /** The number of presses collected before the comparison stops. */
  function PressesConsumed(expected: seq<Channel>, presses: seq<Channel>): (n: nat)
    ensures n <= |presses| && n <= |expected|
    ensures n > 0 ==> presses[..n - 1] == expected[..n - 1]
  {
    match Match(expected, presses)
    case Matched => |expected|
    case MismatchAt(i) => i + 1
    case Waiting => |presses|
  }

  /**
   * The verdict is fixed by the first differing position alone; this
   * follows from the contract of Match, since the first difference is unique.
   */
  lemma FirstMismatch(expected: seq<Channel>, presses: seq<Channel>, i: nat)
    requires i < |expected| && i < |presses|
    requires presses[..i] == expected[..i] && presses[i] != expected[i]
    ensures Match(expected, presses) == MismatchAt(i)
    ensures PressesConsumed(expected, presses) == i + 1
  {
  }

  /** Correct presses that run out before the sequence does leave the board waiting (from the contract of Match). */
  lemma WaitingForMore(expected: seq<Channel>, presses: seq<Channel>)
    requires |presses| < |expected| && presses == expected[..|presses|]
    ensures Match(expected, presses) == Waiting
    ensures PressesConsumed(expected, presses) == |presses|
  {
  }

  /** Agreement on the first `i` steps and on step `i` is agreement on the first `i + 1`. */
  lemma AgreeOneMore(expected: seq<Channel>, presses: seq<Channel>, i: nat)
    requires i < |expected| && i < |presses|
    requires presses[..i] == expected[..i] && presses[i] == expected[i]
    ensures presses[..i + 1] == expected[..i + 1]
  {
  }
}
