/**
 Worked sentences for the hybrid assistant's voice dispatcher and chatbot,
 showing the keyword order, the precedence of "on" over "off", and that
 keywords are matched as plain substrings.
 */
module HybridUiExamples {
  import opened Wrappers
  import opened Devices
  import opened Patterns
  import opened Gestures
  import opened HybridUi

  lemma TurnOnTheLight(s: string)
    requires s == "turn on the light"
    ensures VoiceCommand(s) == Some(Command(Light, true))
  {
    TurnOnTheLightSaysOn(s);
    TurnOnTheLightMentionsLight(s);
  }

  lemma TurnOnTheLightSaysOn(s: string)
    requires s == "turn on the light"
    ensures SaysOn(s)
  {
    assert s == "" + ("turn" + " " + "on") + " the light";
    SpacedWordsFound("turn", "on", "", " the light");
  }

  lemma TurnOnTheLightMentionsLight(s: string)
    requires s == "turn on the light"
    ensures Mentions(s, Light)
  {
    WordInside("turn on the ", "light", "");
    assert s == "turn on the " + "light" + "";
  }

  lemma TurnOffFan(s: string)
    requires s == "turn off fan"
    ensures VoiceCommand(s) == Some(Command(Fan, false))
  {
    TurnOffFanAbsent(s);
    TurnOffFanPresent(s);
  }

  lemma TurnOffFanAbsent(s: string)
    requires s == "turn off fan"
    ensures !SaysOn(s) && !Mentions(s, Light)
  {
    PairAbsentThree("on", "turn ", "off fa", "n");
    assert s == "turn " + "off fa" + "n";
    MissingWordNotFound(TurnOn, s, "on");
    AbsentLetterBlocks("switch", s, 's');
    MissingWordNotFound(SwitchOn, s, "switch");
    AbsentLetterBlocks("start", s, 's');
    AbsentLetterBlocks("light", s, 'l');
  }

  lemma TurnOffFanPresent(s: string)
    requires s == "turn off fan"
    ensures SaysOff(s) && Mentions(s, Fan)
  {
    TurnOffFanSaysOff(s);
    TurnOffFanMentionsFan(s);
  }

  lemma TurnOffFanSaysOff(s: string)
    requires s == "turn off fan"
    ensures SaysOff(s)
  {
    assert s == "" + ("turn" + " " + "off") + " fan";
    SpacedWordsFound("turn", "off", "", " fan");
  }

  lemma TurnOffFanMentionsFan(s: string)
    requires s == "turn off fan"
    ensures Mentions(s, Fan)
  {
    WordInside("turn off ", "fan", "");
    assert s == "turn off " + "fan" + "";
  }

  lemma HelloThereIsNoCommand(s: string)
    requires s == "hello there"
    ensures VoiceCommand(s) == None
  {
    AbsentLetterBlocks("turn", s, 'u');
    AbsentLetterBlocks("switch", s, 's');
    AbsentLetterBlocks("start", s, 's');
    AbsentLetterBlocks("stop", s, 's');
    MissingWordNotFound(TurnOn, s, "turn");
    MissingWordNotFound(TurnOff, s, "turn");
    MissingWordNotFound(SwitchOn, s, "switch");
    MissingWordNotFound(SwitchOff, s, "switch");
    assert !SaysOn(s) && !SaysOff(s);
  }

  /** The long name of the air conditioner selects it too. */
  lemma StartAirConditioner(s: string)
    requires s == "start air conditioner"
    ensures VoiceCommand(s) == Some(Command(Ac, true))
  {
    NoLightFanTv(s);
    StartAirConditionerPresent(s);
  }

  lemma StartAirConditionerPresent(s: string)
    requires s == "start air conditioner"
    ensures Occurs("start", s) && Occurs("air conditioner", s)
  {
    WordInside("", "start", " air conditioner");
    assert s == "" + "start" + " air conditioner";
    WordInside("start ", "air conditioner", "");
    assert s == "start " + "air conditioner" + "";
  }

  /** "switch on" with the long name. */
  lemma SwitchOnAirConditioner(s: string)
    requires s == "switch on air conditioner"
    ensures VoiceCommand(s) == Some(Command(Ac, true))
  {
    SwitchOnAirConditionerNoOther(s);
    SwitchOnAirConditionerPresent(s);
    OnlyAcOn(s);
  }

  /** "switch on air conditioner" has no letter of "light", "fan" or "tv" in it. Kept apart
      from the lemma above: discharging the letter tests on the literal there is too costly. */
  lemma SwitchOnAirConditionerNoOther(s: string)
    requires s == "switch on air conditioner"
    ensures !Mentions(s, Light) && !Mentions(s, Fan) && !Mentions(s, Tv)
  {
    NoLightFanTv(s);
  }

  /** An "on" request that names the air conditioner and no earlier device switches it on. */
  lemma OnlyAcOn(s: string)
    requires SaysOn(s) && Mentions(s, Ac)
    requires !Mentions(s, Light) && !Mentions(s, Fan) && !Mentions(s, Tv)
    ensures VoiceCommand(s) == Some(Command(Ac, true))
  {
  }

  lemma SwitchOnAirConditionerPresent(s: string)
    requires s == "switch on air conditioner"
    ensures SaysOn(s) && Mentions(s, Ac)
  {
    SwitchOnAirConditionerSaysOn(s);
    SwitchOnAirConditionerNamesAc(s);
  }

  lemma SwitchOnAirConditionerSaysOn(s: string)
    requires s == "switch on air conditioner"
    ensures SaysOn(s)
  {
    assert s == "" + ("switch" + " " + "on") + " air conditioner";
    SpacedWordsFound("switch", "on", "", " air conditioner");
  }

  lemma SwitchOnAirConditionerNamesAc(s: string)
    requires s == "switch on air conditioner"
    ensures Occurs("air conditioner", s)
  {
    WordInside("switch on ", "air conditioner", "");
    assert s == "switch on " + "air conditioner" + "";
  }

  /** "ac" is found inside "space": the heater sentence switches the air conditioner on. */
  lemma SpaceHeaterSwitchesAc(s: string)
    requires s == "turn on the space heater"
    ensures VoiceCommand(s) == Some(Command(Ac, true))
  {
    NoLightFanTv(s);
    SpaceHeaterPresent(s);
  }

  lemma SpaceHeaterPresent(s: string)
    requires s == "turn on the space heater"
    ensures SaysOn(s) && Mentions(s, Ac)
  {
    SpaceHeaterSaysOn(s);
    WordInside("turn on the sp", "ac", "e heater");
    assert s == "turn on the sp" + "ac" + "e heater";
  }

  lemma SpaceHeaterSaysOn(s: string)
    requires s == "turn on the space heater"
    ensures SaysOn(s)
  {
    assert s == "" + ("turn" + " " + "on") + " the space heater";
    SpacedWordsFound("turn", "on", "", " the space heater");
  }

  /** A sentence without the letters l, f and v names none of the first three devices. */
  lemma NoLightFanTv(s: string)
    requires 'l' !in s && 'f' !in s && 'v' !in s
    ensures !Mentions(s, Light) && !Mentions(s, Fan) && !Mentions(s, Tv)
  {
    AbsentLetterBlocks("light", s, 'l');
    AbsentLetterBlocks("fan", s, 'f');
    AbsentLetterBlocks("tv", s, 'v');
  }

  /** Action and device are found independently: "start" makes the sentence an
      "on" command, and "light" is the first device keyword, so the light goes on. */
  lemma OffAndStartMeansLightOn(s: string)
    requires s == "turn off the light and start the fan"
    ensures VoiceCommand(s) == Some(Command(Light, true))
  {
    OffAndStartPresent(s);
  }

  lemma OffAndStartPresent(s: string)
    requires s == "turn off the light and start the fan"
    ensures SaysOn(s) && Mentions(s, Light)
  {
    OffAndStartSaysOn(s);
    OffAndStartMentionsLight(s);
  }

  lemma OffAndStartSaysOn(s: string)
    requires s == "turn off the light and start the fan"
    ensures SaysOn(s)
  {
    WordInside("turn off the light and ", "start", " the fan");
    assert s == "turn off the light and " + "start" + " the fan";
  }

  lemma OffAndStartMentionsLight(s: string)
    requires s == "turn off the light and start the fan"
    ensures Mentions(s, Light)
  {
    WordInside("turn off the ", "light", " and start the fan");
    assert s == "turn off the " + "light" + " and start the fan";
  }

  lemma AskAboutLight(m: string, s: DeviceState)
    requires m == "light?" && WellFormed(s)
    ensures ChatbotReply(m, s) == "Light is " + OnOff(s[Light])
  {
    AbsentLetterBlocks("hello", m, 'e');
    AbsentLetterBlocks("status", m, 's');
    AbsentLetterBlocks("devices", m, 'd');
    WordInside("", "light", "?");
    assert m == "" + "light" + "?";
  }

  lemma AskForDevices(m: string, s: DeviceState)
    requires m == "show devices" && WellFormed(s)
    ensures ChatbotReply(m, s) == StatusReport(s)
  {
    AbsentLetterBlocks("hello", m, 'l');
    WordInside("show ", "devices", "");
    assert m == "show " + "devices" + "";
  }

  lemma AskSomethingElse(m: string, s: DeviceState)
    requires m == "what time is it" && WellFormed(s)
    ensures ChatbotReply(m, s) == NotUnderstood
  {
    AbsentLetterBlocks("hello", m, 'o');
    AbsentLetterBlocks("status", m, 'u');
    AbsentLetterBlocks("devices", m, 'd');
    AbsentLetterBlocks("light", m, 'l');
    AbsentLetterBlocks("fan", m, 'f');
  }

  /** The chat reads back what a gesture wrote. */
  lemma ChatSeesGesture(m: string, v: bool, s: DeviceState)
    requires m == "light?" && WellFormed(s)
    ensures ChatbotReply(m, ProcessGestureCommand(CommandName(Command(Light, v)), s)) == "Light is " + OnOff(v)
  {
    var r := ProcessGestureCommand(CommandName(Command(Light, v)), s);
    DispatchIsSet(Command(Light, v), s, r);
    AskAboutLight(m, r);
  }
}
