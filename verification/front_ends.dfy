/**
 How the two voice front ends relate: the standalone fan script and the
 hybrid window parse the same sentences with different patterns. The first
 three "on" and "off" patterns of the script start with the window's action
 patterns, so those sentences carry over; the short forms do not.
 */
module FrontEnds {
  import opened Wrappers
  import opened Devices
  import opened Patterns
  import opened Gestures
  import opened HybridUi
  import opened Voice

  /** The part every long fan pattern shares after its action words: `\s+.*fan`. */
  const ToFan: Pattern := [Spaces, Line, Lit("fan")]

  lemma LongPatternsExtendActions()
    ensures FanOn[0] == TurnOn + ToFan && FanOn[1] == SwitchOn + ToFan && FanOn[2] == [Lit("start")] + ToFan
    ensures FanOff[0] == TurnOff + ToFan && FanOff[1] == SwitchOff + ToFan && FanOff[2] == [Lit("stop")] + ToFan
  {
  }

  /** A text where some pattern ending in "fan" is found mentions the fan. */
  lemma FanMentioned(p: Pattern, t: string)
    requires Found(p + ToFan, t)
    ensures Mentions(t, Fan)
  {
    assert (p + ToFan)[|p| + 2] == Lit("fan");
    FoundHasWord(p + ToFan, t, "fan");
  }

  /** A sentence the script switches the fan on by one of its long patterns
      switches the fan on in the window too, unless it also mentions the light. */
  lemma FanOnCarriesOver(t: string)
    ensures (Found(FanOn[0], t) || Found(FanOn[1], t) || Found(FanOn[2], t)) && !Occurs("light", t) ==>
      VoiceCommand(t) == Some(Command(Fan, true))
  {
    LongPatternsExtendActions();
    if Occurs("light", t) {
    } else if Found(FanOn[0], t) {
      FoundPrefix(TurnOn, ToFan, t);
      FanMentioned(TurnOn, t);
    } else if Found(FanOn[1], t) {
      FoundPrefix(SwitchOn, ToFan, t);
      FanMentioned(SwitchOn, t);
    } else if Found(FanOn[2], t) {
      FoundPrefix([Lit("start")], ToFan, t);
      FoundWordIffOccurs("start", t);
      FanMentioned([Lit("start")], t);
    }
  }

  /** Likewise for switching off, provided the window does not see an "on"
      request in the same sentence, which it would let win. */
  lemma FanOffCarriesOver(t: string)
    ensures (Found(FanOff[0], t) || Found(FanOff[1], t) || Found(FanOff[2], t)) && !Occurs("light", t) && !SaysOn(t) ==>
      VoiceCommand(t) == Some(Command(Fan, false))
  {
    LongPatternsExtendActions();
    if Occurs("light", t) || SaysOn(t) {
    } else if Found(FanOff[0], t) {
      FoundPrefix(TurnOff, ToFan, t);
      FanMentioned(TurnOff, t);
    } else if Found(FanOff[1], t) {
      FoundPrefix(SwitchOff, ToFan, t);
      FanMentioned(SwitchOff, t);
    } else if Found(FanOff[2], t) {
      FoundPrefix([Lit("stop")], ToFan, t);
      FoundWordIffOccurs("stop", t);
      FanMentioned([Lit("stop")], t);
    }
  }

  /** The short form does not carry over: "fan on" switches the fan on in the
      script, but the window finds no action in it. */
  lemma FanOnOnlyInScript(s: string)
    requires s == "fan on"
    ensures AsksFanOn(s) && VoiceCommand(s) == None
  {
    FanOnAsked(s);
    FanOnNoAction(s);
  }

  lemma FanOnAsked(s: string)
    requires s == "fan on"
    ensures AsksFanOn(s)
  {
    TwoWordsFound(s, "fan", "on");
    assert FanOn[3] == [Lit("fan"), Spaces, Lit("on")];
  }

  lemma FanOnNoAction(s: string)
    requires s == "fan on"
    ensures !SaysOn(s) && !SaysOff(s)
  {
    AbsentLetterBlocks("turn", s, 't');
    AbsentLetterBlocks("switch", s, 's');
    AbsentLetterBlocks("start", s, 's');
    AbsentLetterBlocks("stop", s, 's');
    MissingWordNotFound(TurnOn, s, "turn");
    MissingWordNotFound(TurnOff, s, "turn");
    MissingWordNotFound(SwitchOn, s, "switch");
    MissingWordNotFound(SwitchOff, s, "switch");
  }
}
