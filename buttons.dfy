/**
 * getButtons (main.cpp:154-168): scan the four buttons in index order,
 * through buttonDebounce, until one reads Low.
 *
 * The buttons are an input stream: every buttonDebounce call consumes one
 * Sample, in the order the scan makes them (button 0, 1, 2, 3, 0, 1, ...,
 * starting again at button 0 on each call of getButtons). The board polls
 * forever; a finite stream that holds no further press ends in None.
 */
module Buttons {
  import opened Wrappers
  import opened Pins
  import opened Debounce

  /** Position of the first sample that debounces to Low, if any. */
  function FirstLow(s: seq<Sample>): (r: Option<nat>)
    ensures r.Some? ==> r.value < |s|
  {
    if s == [] then None
    else if Debounced(s[0]) == Low then Some(0)
    else
      match FirstLow(s[1..])
      case None => None
      case Some(k) => Some(k + 1)
  }

  /** FirstLow finds a Low sample, and every sample before it reads High. */
  lemma {:induction false} FirstLowIsFirst(s: seq<Sample>)
    ensures FirstLow(s).Some? ==> Debounced(s[FirstLow(s).value]) == Low
    ensures FirstLow(s).Some? ==> forall j :: 0 <= j < FirstLow(s).value ==> Debounced(s[j]) == High
    ensures FirstLow(s).None? ==> forall j :: 0 <= j < |s| ==> Debounced(s[j]) == High
  {
    if s != [] && Debounced(s[0]) != Low {
      FirstLowIsFirst(s[1..]);
      assert forall j :: 1 <= j < |s| ==> s[j] == s[1..][j - 1];
    }
  }

  /** Conversely, a Low sample with only High samples before it is the one FirstLow finds. */
  lemma {:induction false} FirstLowAt(s: seq<Sample>, k: nat)
    requires k < |s| && Debounced(s[k]) == Low
    requires forall j :: 0 <= j < k ==> Debounced(s[j]) == High
    ensures FirstLow(s) == Some(k)
  {
    if k > 0 {
      assert Debounced(s[0]) == High;
      FirstLowAt(s[1..], k - 1);
    }
  }

  /** A stream with no Low sample holds no press. */
  lemma {:induction false} NoLowSample(s: seq<Sample>)
    requires forall j :: 0 <= j < |s| ==> Debounced(s[j]) == High
    ensures FirstLow(s) == None
  {
    if s != [] {
      assert Debounced(s[0]) == High;
      NoLowSample(s[1..]);
    }
  }

  /** What one getButtons call leaves of the stream. */
  function DropOne(s: seq<Sample>): seq<Sample>
  {
    match FirstLow(s)
    case None => []
    case Some(k) => s[k + 1..]
  }

  /** The buttons that successive getButtons calls return on the stream `s`. */
  function Presses(s: seq<Sample>): (r: seq<Channel>)
    ensures |r| <= |s|
    ensures r == [] <==> FirstLow(s).None?
    decreases |s|
  {
    match FirstLow(s)
    case None => []
    case Some(k) => [k % ChannelCount] + Presses(s[k + 1..])
  }

  /** What `n` successive getButtons calls leave of the stream. */
  function DropPresses(s: seq<Sample>, n: nat): seq<Sample>
  {
    if n == 0 then s else DropOne(DropPresses(s, n - 1))
  }

  /** One getButtons call consumes exactly the first press. */
  lemma DropOnePress(s: seq<Sample>)
    ensures Presses(DropOne(s)) == if Presses(s) == [] then [] else Presses(s)[1..]
  {
  }

  /** After `n` calls, the later calls return the presses after the first `n`. */
  lemma {:induction false} PressesAfterDrop(s: seq<Sample>, n: nat)
    requires n <= |Presses(s)|
    ensures Presses(DropPresses(s, n)) == Presses(s)[n..]
  {
    if n > 0 {
      var t := DropPresses(s, n - 1);
      PressesAfterDrop(s, n - 1);
      DropOnePress(t);
      assert Presses(s)[n - 1..][1..] == Presses(s)[n..];
    }
  }

  /**
   * The scan as the sketch runs it: a polling loop over the four buttons.
   * It returns the button of the first sample that debounces to Low; that
   * sample's position modulo 4 is the button, and every sample read before
   * it, in particular the lower-numbered buttons of the same scan, read
   * High (FirstLow). None when no sample of the stream reads Low.
   */
  method GetButtons(input: seq<Sample>) returns (pressed: Option<Channel>, rest: seq<Sample>)
    ensures pressed.Some? <==> Presses(input) != []
    ensures pressed.Some? ==> pressed.value == Presses(input)[0]
    ensures rest == DropOne(input)
    ensures Presses(rest) == if pressed.Some? then Presses(input)[1..] else []
  {
    rest := input;
    ghost var k := 0;
    while rest != []
      invariant k <= |input| && rest == input[k..]
      invariant rest != [] ==> k % ChannelCount == 0
      invariant forall j :: 0 <= j < k ==> Debounced(input[j]) == High
      decreases |rest|
    {
      ghost var k0 := k;
      var i: nat := 0;
      while i < ChannelCount && rest != []
        invariant i <= ChannelCount && k == k0 + i && k0 % ChannelCount == 0
        invariant k <= |input| && rest == input[k..]
        invariant forall j :: 0 <= j < k ==> Debounced(input[j]) == High
      {
        var reading := rest[0];
        rest := rest[1..];
        if Debounced(reading) == Low {
          FirstLowAt(input, k);
          assert i == k % ChannelCount;
          assert Presses(input) == [i] + Presses(rest);
          return Some(i), rest;
        }
        i := i + 1;
        k := k + 1;
      }
    }
    NoLowSample(input);
    pressed := None;
  }
}
