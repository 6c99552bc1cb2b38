/**
 The standalone voice-controlled fan: a recognised sentence is matched against
 five "on" patterns, then five "off" patterns, and the first match decides.
 Every pattern mentions the fan, so only sentences about the fan get an answer.
 */
module Voice {
  import opened Wrappers
  import opened Patterns

  /** `turn_on_patterns`, in the order they are tried. */
  const FanOn: seq<Pattern> := [
    [Lit("turn"), Spaces, Lit("on"), Spaces, Line, Lit("fan")],    // turn\s+on\s+.*fan
    [Lit("switch"), Spaces, Lit("on"), Spaces, Line, Lit("fan")],  // switch\s+on\s+.*fan
    [Lit("start"), Spaces, Line, Lit("fan")],                      // start\s+.*fan
    [Lit("fan"), Spaces, Lit("on")],                               // fan\s+on
    [Lit("turn"), Spaces, Line, Lit("fan"), Spaces, Lit("on")]     // turn\s+.*fan\s+on
  ]

  /** `turn_off_patterns`, in the order they are tried. */
  const FanOff: seq<Pattern> := [
    [Lit("turn"), Spaces, Lit("off"), Spaces, Line, Lit("fan")],
    [Lit("switch"), Spaces, Lit("off"), Spaces, Line, Lit("fan")],
    [Lit("stop"), Spaces, Line, Lit("fan")],
    [Lit("fan"), Spaces, Lit("off")],
    [Lit("turn"), Spaces, Line, Lit("fan"), Spaces, Lit("off")]
  ]

  /** Some "on" pattern is found in the sentence. */
  ghost predicate AsksFanOn(text: string) {
    exists m :: 0 <= m < |FanOn| && Found(FanOn[m], text)
  }

  /** Some "off" pattern is found in the sentence. */
  ghost predicate AsksFanOff(text: string) {
    exists m :: 0 <= m < |FanOff| && Found(FanOff[m], text)
  }

  lemma PatternsMentionFan()
    ensures forall m :: 0 <= m < |FanOn| ==> Lit("fan") in FanOn[m]
    ensures forall m :: 0 <= m < |FanOff| ==> Lit("fan") in FanOff[m]
  {
    assert Lit("fan") == FanOn[0][5] == FanOn[1][5] == FanOn[2][3] == FanOn[3][0] == FanOn[4][3];
    assert Lit("fan") == FanOff[0][5] == FanOff[1][5] == FanOff[2][3] == FanOff[3][0] == FanOff[4][3];
  }

  /**
   `process_fan_command`: no text gives no answer; otherwise the first "on"
   pattern found gives True, failing that the first "off" pattern found gives
   False, and a sentence matching neither gives no answer. An answer is only
   ever given for a sentence that contains "fan".
   */
  method ProcessFanCommand(text: Option<string>) returns (r: Option<bool>)
    ensures text.None? ==> r.None?
    ensures text.Some? ==> (r == Some(true) <==> AsksFanOn(text.value))
    ensures text.Some? ==> (r == Some(false) <==> !AsksFanOn(text.value) && AsksFanOff(text.value))
    ensures text.Some? ==> (r.None? <==> !AsksFanOn(text.value) && !AsksFanOff(text.value))
    ensures r.Some? ==> text.Some? && Occurs("fan", text.value)
  {
    if text.None? {
      return None;
    }
    var t := text.value;
    PatternsMentionFan();
    for m := 0 to |FanOn|
      invariant forall n :: 0 <= n < m ==> !Found(FanOn[n], t)
    {
      if Search(FanOn[m], t) {
        FoundHasWord(FanOn[m], t, "fan");
        return Some(true);
      }
    }
    for m := 0 to |FanOff|
      invariant forall n :: 0 <= n < m ==> !Found(FanOff[n], t)
    {
      if Search(FanOff[m], t) {
        FoundHasWord(FanOff[m], t, "fan");
        return Some(false);
      }
    }
    return None;
  }
}
