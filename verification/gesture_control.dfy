/**
 The standalone gesture script: classify each detected hand into a finger
 vector and look the vector up in the appliance table. The `command` variable
 starts each frame as "No Command" and is overwritten by every recognised hand.
 */
module GestureControl {
  import opened Gestures

  /** The value of `command` before any hand has been recognised in a frame. */
  const NoCommand: string := "No Command"

  /**
   The finger list of one hand: the thumb is up when its tip lies left of its
   interphalangeal joint, every other finger when its tip lies above (smaller
   image `y` than) its proximal joint two landmarks further down the finger.
   Ties count as down.
   */
  function FingerStatus(hand: Hand): (v: seq<int>)
    requires Readable(hand)
    ensures |v| == 5 && forall k :: 0 <= k < 5 ==> v[k] == 0 || v[k] == 1
    ensures v[0] == 1 <==> hand[4].x < hand[3].x
    ensures v[1] == 1 <==> hand[8].y < hand[6].y
    ensures v[2] == 1 <==> hand[12].y < hand[10].y
    ensures v[3] == 1 <==> hand[16].y < hand[14].y
    ensures v[4] == 1 <==> hand[20].y < hand[18].y
  {
    [Bit(hand[TipIds[0]].x < hand[TipIds[0] - 1].x)]
      + seq(4, k requires 0 <= k < 4 => Bit(hand[TipIds[k + 1]].y < hand[TipIds[k + 1] - 2].y))
  }

  /**
   One pass of the if/elif table on the current command: a vector that is in
   the table replaces the command with that entry's name; any other vector
   leaves it as it was.
   */
  function Classify(command: string, fingers: seq<int>): (r: string)
    ensures forall c :: fingers == CanonicalVector(c) ==> r == CommandName(c)
    ensures (forall c :: fingers != CanonicalVector(c)) ==> r == command
  {
    VectorsIdentifyCommands();
    if fingers == [0, 1, 0, 0, 0] then "Light ON"
    else if fingers == [0, 0, 0, 0, 0] then "Light OFF"
    else if fingers == [0, 1, 1, 0, 0] then "Fan ON"
    else if fingers == [1, 1, 1, 1, 1] then "Fan OFF"
    else if fingers == [0, 1, 1, 1, 0] then "TV ON"
    else if fingers == [1, 0, 0, 0, 1] then "TV OFF"
    else if fingers == [1, 0, 0, 0, 0] then "AC ON"
    else if fingers == [0, 0, 0, 0, 1] then "AC OFF"
    else command
  }

  /** Every detected hand has all 21 landmarks. */
  predicate AllReadable(hands: seq<Hand>) {
    forall k :: 0 <= k < |hands| ==> Readable(hands[k])
  }

  /** Hand `i` shows the gesture of command `c`. */
  ghost predicate Shows(hands: seq<Hand>, i: int, c: Command)
    requires AllReadable(hands)
  {
    0 <= i < |hands| && FingerStatus(hands[i]) == CanonicalVector(c)
  }

  /** No hand strictly between positions `lo` and `hi` shows any command. */
  ghost predicate NoneBetween(hands: seq<Hand>, lo: int, hi: int)
    requires AllReadable(hands)
  {
    forall j, c :: lo < j < hi ==> !Shows(hands, j, c)
  }

  /**
   The value of `command` once the table has run on the first `k` hands of
   the frame: the command of the last of them that shows a known gesture, or
   "No Command" when none of them does.
   */
  function CommandAfter(hands: seq<Hand>, k: nat): (r: string)
    requires AllReadable(hands) && k <= |hands|
    ensures NoneBetween(hands, -1, k) ==> r == NoCommand
    ensures forall i, c :: i < k && Shows(hands, i, c) && NoneBetween(hands, i, k) ==> r == CommandName(c)
    decreases k
  {
    if k == 0 then NoCommand
    else
      var prev := CommandAfter(hands, k - 1);
      StepReports(hands, k, prev);
      Classify(prev, FingerStatus(hands[k - 1]))
  }

  /** Running the table on hand `k - 1` turns a correct report of the first
      `k - 1` hands into a correct report of the first `k`. */
  lemma StepReports(hands: seq<Hand>, k: nat, prev: string)
    requires AllReadable(hands) && 0 < k <= |hands|
    requires NoneBetween(hands, -1, k - 1) ==> prev == NoCommand
    requires forall i, c :: i < k - 1 && Shows(hands, i, c) && NoneBetween(hands, i, k - 1) ==> prev == CommandName(c)
    ensures NoneBetween(hands, -1, k) ==> Classify(prev, FingerStatus(hands[k - 1])) == NoCommand
    ensures forall i, c :: i < k && Shows(hands, i, c) && NoneBetween(hands, i, k) ==>
      Classify(prev, FingerStatus(hands[k - 1])) == CommandName(c)
  {
    var last := k - 1;
    if c0 :| Shows(hands, last, c0) {
      LastHandDecides(hands, k, prev, c0);
    } else {
      LastHandIgnored(hands, last, prev);
    }
  }

  lemma LastHandDecides(hands: seq<Hand>, k: nat, prev: string, c0: Command)
    requires AllReadable(hands) && 0 < k <= |hands|
    requires Shows(hands, k - 1, c0)
    ensures !NoneBetween(hands, -1, k)
    ensures forall i, c :: i < k && Shows(hands, i, c) && NoneBetween(hands, i, k) ==>
      Classify(prev, FingerStatus(hands[k - 1])) == CommandName(c)
  {
    var r := Classify(prev, FingerStatus(hands[k - 1]));
    assert r == CommandName(c0);
    forall i, c | i < k && Shows(hands, i, c) && NoneBetween(hands, i, k)
      ensures r == CommandName(c)
    {
      assert i == k - 1;
      if c != c0 {
        CanonicalVectorsDistinct(c, c0);
      }
    }
  }

  lemma LastHandIgnored(hands: seq<Hand>, last: nat, prev: string)
    requires AllReadable(hands) && last < |hands|
    requires forall c :: !Shows(hands, last, c)
    requires NoneBetween(hands, -1, last) ==> prev == NoCommand
    requires forall i, c :: i < last && Shows(hands, i, c) && NoneBetween(hands, i, last) ==> prev == CommandName(c)
    ensures Classify(prev, FingerStatus(hands[last])) == prev
    ensures NoneBetween(hands, -1, last + 1) ==> prev == NoCommand
    ensures forall i, c :: i <= last && Shows(hands, i, c) && NoneBetween(hands, i, last + 1) ==> prev == CommandName(c)
  {
    forall c ensures FingerStatus(hands[last]) != CanonicalVector(c) {
      assert !Shows(hands, last, c);
    }
    forall i, c | i <= last && Shows(hands, i, c) && NoneBetween(hands, i, last + 1)
      ensures prev == CommandName(c)
    {
      assert i < last;
      assert NoneBetween(hands, i, last);
    }
  }

  /**
   The value of `command` when the frame's hand loop ends: the table runs on
   every detected hand in order, so the last hand that shows a known gesture
   decides, and it stays "No Command" when no hand does or no hand was detected.
   The text drawn on the image is a different matter: the script draws it
   inside the hand loop, once per hand, so a frame without hands draws nothing.
   */
  function FrameCommand(hands: seq<Hand>): (r: string)
    requires AllReadable(hands)
    ensures NoneBetween(hands, -1, |hands|) ==> r == NoCommand
    ensures forall i, c :: Shows(hands, i, c) && NoneBetween(hands, i, |hands|) ==> r == CommandName(c)
  {
    CommandAfter(hands, |hands|)
  }
}
