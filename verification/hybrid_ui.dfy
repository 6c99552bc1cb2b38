/**
 The decision logic of the hybrid assistant window: the gesture loop's finger
 classifier and command table, the gesture and voice dispatchers that write
 the device store, and the chatbot's keyword replies. Widgets, threads, the
 camera and the microphone are not modelled; each operation takes the device
 store as a value and returns the new one.
 */
module HybridUi {
  import opened Wrappers
  import opened Devices
  import opened Patterns
  import opened Gestures
  import GestureControl

  // ---------------------------------------------------------------------------
  // Gestures

  /**
   `get_finger_status`: the thumb is up when its tip (landmark 4) lies left of
   landmark 3; each other finger is up when its tip lies strictly above the
   joint two landmarks below it. It gives the same list as the standalone
   script's classifier.
   */
  method GetFingerStatus(hand: Hand) returns (status: seq<int>)
    requires Readable(hand)
    ensures |status| == 5 && forall k :: 0 <= k < 5 ==> status[k] == 0 || status[k] == 1
    ensures status[0] == 1 <==> hand[4].x < hand[3].x
    ensures status[1] == 1 <==> hand[8].y < hand[6].y
    ensures status[2] == 1 <==> hand[12].y < hand[10].y
    ensures status[3] == 1 <==> hand[16].y < hand[14].y
    ensures status[4] == 1 <==> hand[20].y < hand[18].y
    ensures status == GestureControl.FingerStatus(hand)
  {
    status := [];
    if hand[TipIds[0]].x < hand[TipIds[0] - 1].x {
      status := status + [1];
    } else {
      status := status + [0];
    }
    for id := 1 to 5
      invariant |status| == id
      invariant status[0] == Bit(hand[4].x < hand[3].x)
      invariant forall k :: 1 <= k < id ==> status[k] == Bit(hand[TipIds[k]].y < hand[TipIds[k] - 2].y)
    {
      if hand[TipIds[id]].y < hand[TipIds[id] - 2].y {
        status := status + [1];
      } else {
        status := status + [0];
      }
    }
  }

  /**
   The if/elif chain of the gesture loop: a finger list that is one of the
   eight table vectors names that vector's command, any other list names none.
   */
  function GestureTable(fingers: seq<int>): (r: Option<Command>)
    ensures forall c :: r == Some(c) <==> fingers == CanonicalVector(c)
    ensures r == None <==> forall c :: fingers != CanonicalVector(c)
  {
    VectorsIdentifyCommands();
    if fingers == [0, 1, 0, 0, 0] then Some(Command(Light, true))
    else if fingers == [0, 0, 0, 0, 0] then Some(Command(Light, false))
    else if fingers == [0, 1, 1, 0, 0] then Some(Command(Fan, true))
    else if fingers == [1, 1, 1, 1, 1] then Some(Command(Fan, false))
    else if fingers == [0, 1, 1, 1, 0] then Some(Command(Tv, true))
    else if fingers == [1, 0, 0, 0, 1] then Some(Command(Tv, false))
    else if fingers == [1, 0, 0, 0, 0] then Some(Command(Ac, true))
    else if fingers == [0, 0, 0, 0, 1] then Some(Command(Ac, false))
    else None
  }

  /** The two copies of the table agree: the standalone script's chain replaces
      its command exactly when this one names a command, and with its name. */
  lemma TablesAgree(command: string, fingers: seq<int>)
    ensures GestureControl.Classify(command, fingers) ==
      match GestureTable(fingers)
      case Some(c) => CommandName(c)
      case None => command
  {
  }

  /**
   `process_gesture_command`: a recognised command string sets its one device
   to its value and leaves the other three alone; any other string changes
   nothing.
   */
  function ProcessGestureCommand(action: string, s: DeviceState): (r: DeviceState)
    requires WellFormed(s)
    ensures WellFormed(r) && r.Keys == s.Keys
    ensures forall c :: action == CommandName(c) ==>
      r[c.device] == c.on && forall e :: e != c.device ==> r[e] == s[e]
    ensures (forall c :: action != CommandName(c)) ==> r == s
  {
    NamesIdentifyCommands();
    if action == "Light ON" then Set(s, Light, true)
    else if action == "Light OFF" then Set(s, Light, false)
    else if action == "Fan ON" then Set(s, Fan, true)
    else if action == "Fan OFF" then Set(s, Fan, false)
    else if action == "TV ON" then Set(s, Tv, true)
    else if action == "TV OFF" then Set(s, Tv, false)
    else if action == "AC ON" then Set(s, Ac, true)
    else if action == "AC OFF" then Set(s, Ac, false)
    else s
  }

  /** Dispatching a command's own name writes exactly that command's flag. */
  lemma DispatchIsSet(c: Command, s: DeviceState, r: DeviceState)
    requires WellFormed(s) && r == ProcessGestureCommand(CommandName(c), s)
    ensures r == Set(s, c.device, c.on)
  {
  }

  /**
   The hand loop of `gesture_loop`: classify every detected hand and keep the
   command of the last one the table recognises. The result agrees with the
   standalone script's `command` variable at the end of its hand loop.
   */
  method RecogniseHands(hands: seq<Hand>) returns (command: Option<Command>)
    requires GestureControl.AllReadable(hands)
    ensures command.None? <==> GestureControl.FrameCommand(hands) == GestureControl.NoCommand
    ensures command.Some? ==> GestureControl.FrameCommand(hands) == CommandName(command.value)
  {
    command := None;
    for k := 0 to |hands|
      invariant command.None? <==> GestureControl.CommandAfter(hands, k) == GestureControl.NoCommand
      invariant command.Some? ==> GestureControl.CommandAfter(hands, k) == CommandName(command.value)
    {
      var fingers := GetFingerStatus(hands[k]);
      var recognised := GestureTable(fingers);
      ghost var before := GestureControl.CommandAfter(hands, k);
      assert GestureControl.CommandAfter(hands, k + 1) == GestureControl.Classify(before, fingers);
      TablesAgree(before, fingers);
      if recognised.Some? {
        command := recognised;
        NamesIdentifyCommands();
      }
    }
  }

  /**
   One iteration of `gesture_loop` after detection: find the command the hands
   show and, if there is one, dispatch its name, so that only the commanded
   device changes.
   */
  method GestureFrame(hands: seq<Hand>, s: DeviceState) returns (command: Option<Command>, s': DeviceState)
    requires GestureControl.AllReadable(hands) && WellFormed(s)
    ensures command.None? <==> GestureControl.FrameCommand(hands) == GestureControl.NoCommand
    ensures command.Some? ==> GestureControl.FrameCommand(hands) == CommandName(command.value)
    ensures command.None? ==> s' == s
    ensures command.Some? ==> s' == Set(s, command.value.device, command.value.on)
  {
    command := RecogniseHands(hands);
    if command.Some? {
      s' := ProcessGestureCommand(CommandName(command.value), s);
      DispatchIsSet(command.value, s, s');
    } else {
      s' := s;
    }
  }

  // ---------------------------------------------------------------------------
  // Voice

  const TurnOn: Pattern := [Lit("turn"), Spaces, Lit("on")]
  const SwitchOn: Pattern := [Lit("switch"), Spaces, Lit("on")]
  const TurnOff: Pattern := [Lit("turn"), Spaces, Lit("off")]
  const SwitchOff: Pattern := [Lit("switch"), Spaces, Lit("off")]

  /** `on_patterns` and `off_patterns`, in the order they are tried. */
  const OnPatterns: seq<Pattern> := [TurnOn, SwitchOn, [Lit("start")]]
  const OffPatterns: seq<Pattern> := [TurnOff, SwitchOff, [Lit("stop")]]

  /** The command asks for "on": "turn" or "switch", whitespace, "on"; or "start" anywhere. */
  ghost predicate SaysOn(command: string) {
    Found(TurnOn, command) || Found(SwitchOn, command) || Occurs("start", command)
  }

  /** The command asks for "off": "turn" or "switch", whitespace, "off"; or "stop" anywhere. */
  ghost predicate SaysOff(command: string) {
    Found(TurnOff, command) || Found(SwitchOff, command) || Occurs("stop", command)
  }

  lemma OnPatternsMean(command: string)
    ensures SearchAny(OnPatterns, command, 0) <==> SaysOn(command)
  {
    FoundWordIffOccurs("start", command);
    assert OnPatterns[0] == TurnOn && OnPatterns[1] == SwitchOn && OnPatterns[2] == [Lit("start")];
  }

  lemma OffPatternsMean(command: string)
    ensures SearchAny(OffPatterns, command, 0) <==> SaysOff(command)
  {
    FoundWordIffOccurs("stop", command);
    assert OffPatterns[0] == TurnOff && OffPatterns[1] == SwitchOff && OffPatterns[2] == [Lit("stop")];
  }

  /**
   The action of a voice command: "on" wins whenever the command also says
   "off", since the on patterns are tried first.
   */
  function VoiceAction(command: string): (r: Option<bool>)
    ensures r == Some(true) <==> SaysOn(command)
    ensures r == Some(false) <==> !SaysOn(command) && SaysOff(command)
    ensures r == None <==> !SaysOn(command) && !SaysOff(command)
  {
    OnPatternsMean(command);
    OffPatternsMean(command);
    if SearchAny(OnPatterns, command, 0) then Some(true)
    else if SearchAny(OffPatterns, command, 0) then Some(false)
    else None
  }

  /** The command mentions device `d` by one of its keywords, as a plain substring. */
  ghost predicate Mentions(command: string, d: Device) {
    match d
    case Light => Occurs("light", command)
    case Fan => Occurs("fan", command)
    case Tv => Occurs("tv", command)
    case Ac => Occurs("ac", command) || Occurs("air conditioner", command)
  }

  /**
   The device of a voice command: the keywords are tried in the panel's order,
   light, fan, TV, then AC under either of its two names.
   */
  function VoiceDevice(command: string): (r: Option<Device>)
    ensures r == Some(Light) <==> Mentions(command, Light)
    ensures r == Some(Fan) <==> !Mentions(command, Light) && Mentions(command, Fan)
    ensures r == Some(Tv) <==> !Mentions(command, Light) && !Mentions(command, Fan) && Mentions(command, Tv)
    ensures r == Some(Ac) <==>
      !Mentions(command, Light) && !Mentions(command, Fan) && !Mentions(command, Tv) && Mentions(command, Ac)
    ensures r == None <==> forall d :: !Mentions(command, d)
  {
    if Contains(command, "light") then Some(Light)
    else if Contains(command, "fan") then Some(Fan)
    else if Contains(command, "tv") then Some(Tv)
    else if Contains(command, "ac") || Contains(command, "air conditioner") then Some(Ac)
    else None
  }

  /** Equivalently: the device chosen is the first one in the panel's order that the command mentions. */
  lemma VoiceDeviceIsFirstMentioned(command: string, d: Device)
    ensures VoiceDevice(command) == Some(d) <==>
      Mentions(command, d) && forall e :: Position(e) < Position(d) ==> !Mentions(command, e)
  {
    PositionsIdentifyDevices();
  }

  /** The command a spoken sentence stands for, when it names both a device and an action. */
  function VoiceCommand(command: string): (r: Option<Command>)
    ensures r.Some? <==> VoiceDevice(command).Some? && VoiceAction(command).Some?
    ensures r.Some? ==> r.value.device == VoiceDevice(command).value && r.value.on == VoiceAction(command).value
  {
    match (VoiceDevice(command), VoiceAction(command))
    case (Some(d), Some(v)) => Some(Command(d, v))
    case _ => None
  }

  /**
   `process_voice_command`: a sentence naming a device and an action sets that
   device's flag to the action; only that flag can change, and a sentence
   lacking either changes nothing (the window reports it as not recognised).
   */
  function ProcessVoiceCommand(command: string, s: DeviceState): (r: DeviceState)
    requires WellFormed(s)
    ensures WellFormed(r) && r.Keys == s.Keys
    ensures forall d :: r[d] != s[d] ==> VoiceDevice(command) == Some(d) && VoiceAction(command) == Some(r[d])
    ensures VoiceDevice(command).Some? && VoiceAction(command).Some? ==>
      r[VoiceDevice(command).value] == VoiceAction(command).value
    ensures VoiceDevice(command).None? || VoiceAction(command).None? ==> r == s
  {
    match VoiceCommand(command)
    case Some(c) => Set(s, c.device, c.on)
    case None => s
  }

  /** Voice and gesture write the store the same way: a recognised sentence has
      the effect of the gesture command with the same device and action, and an
      unrecognised one has no effect at all. */
  lemma VoiceAgreesWithGesture(command: string, s: DeviceState)
    requires WellFormed(s)
    ensures VoiceCommand(command).Some? ==>
      ProcessVoiceCommand(command, s) == ProcessGestureCommand(CommandName(VoiceCommand(command).value), s)
    ensures VoiceCommand(command).None? ==> ProcessVoiceCommand(command, s) == s
  {
    if c :| VoiceCommand(command) == Some(c) {
      DispatchIsSet(c, s, ProcessGestureCommand(CommandName(c), s));
    }
  }

  /** Saying the same sentence twice has no further effect. */
  lemma VoiceIdempotent(command: string, s: DeviceState)
    requires WellFormed(s)
    ensures ProcessVoiceCommand(command, ProcessVoiceCommand(command, s)) == ProcessVoiceCommand(command, s)
  {
    if c :| VoiceCommand(command) == Some(c) {
      SetIdempotent(s, c.device, c.on);
    }
  }

  /** Gesture commands are absolute too: repeating one in the next frame changes nothing. */
  lemma GestureIdempotent(action: string, s: DeviceState)
    requires WellFormed(s)
    ensures ProcessGestureCommand(action, ProcessGestureCommand(action, s)) == ProcessGestureCommand(action, s)
  {
    if c :| action == CommandName(c) {
      DispatchIsSet(c, s, ProcessGestureCommand(action, s));
      DispatchIsSet(c, Set(s, c.device, c.on), ProcessGestureCommand(action, Set(s, c.device, c.on)));
      SetIdempotent(s, c.device, c.on);
    }
  }

  // ---------------------------------------------------------------------------
  // Chatbot

  const Greeting: string := "Hi! How can I assist you today?"
  const NotUnderstood: string := "Sorry, I didn't understand. Try asking about devices!"
  const StatusHeading: string := "Here\U{2019}s the current device status:\n"

  /** One entry of the status list: the device's key, a space, ON or OFF. */
  function StatusLine(s: DeviceState, d: Device): (line: string)
    requires WellFormed(s)
  {
    Label(d) + " " + OnOff(s[d])
  }

  /** Python's `sep.join(parts)`. */
  function Join(sep: string, parts: seq<string>): (joined: string)
    decreases |parts|
  {
    if |parts| == 0 then ""
    else if |parts| == 1 then parts[0]
    else parts[0] + sep + Join(sep, parts[1..])
  }

  lemma JoinFour(sep: string, a: string, b: string, c: string, d: string)
    ensures Join(sep, [a, b, c, d]) == a + sep + b + sep + c + sep + d
  {
    assert [a, b, c, d][1..] == [b, c, d] && [b, c, d][1..] == [c, d] && [c, d][1..] == [d];
    assert Join(sep, [c, d]) == c + sep + d;
    assert Join(sep, [b, c, d]) == b + sep + (c + sep + d);
  }

  /** The status reply: the heading, then one line per device in the dictionary's order. */
  function StatusReport(s: DeviceState): (report: string)
    requires WellFormed(s)
  {
    StatusHeading + Join("\n", seq(|DeclaredOrder|, i requires 0 <= i < |DeclaredOrder| => StatusLine(s, DeclaredOrder[i])))
  }

  /** The report spelled out: four lines, light, fan, TV, AC, separated by newlines. */
  lemma StatusReportLines(s: DeviceState)
    requires WellFormed(s)
    ensures StatusReport(s) == StatusHeading +
      (StatusLine(s, Light) + "\n" + StatusLine(s, Fan) + "\n" + StatusLine(s, Tv) + "\n" + StatusLine(s, Ac))
  {
    var lines := seq(|DeclaredOrder|, i requires 0 <= i < |DeclaredOrder| => StatusLine(s, DeclaredOrder[i]));
    assert DeclaredOrder[0] == Light && DeclaredOrder[1] == Fan && DeclaredOrder[2] == Tv && DeclaredOrder[3] == Ac;
    assert lines == [StatusLine(s, Light), StatusLine(s, Fan), StatusLine(s, Tv), StatusLine(s, Ac)];
    JoinFour("\n", StatusLine(s, Light), StatusLine(s, Fan), StatusLine(s, Tv), StatusLine(s, Ac));
  }

  lemma ReportShape(h: string, l0: string, l1: string, l2: string, l3: string,
                    o0: string, o1: string, o2: string, o3: string, sep: string)
    ensures h + ((l0 + " " + o0) + sep + (l1 + " " + o1) + sep + (l2 + " " + o2) + sep + (l3 + " " + o3))
      == (h + l0 + " ") + o0 + ((sep + l1 + " ") + o1 + ((sep + l2 + " ") + o2 + ((sep + l3 + " ") + o3 + "")))
  {
  }

  /** The status reply determines the whole store: two stores with the same
      report are the same store. */
  lemma StatusReportFaithful(s: DeviceState, t: DeviceState)
    requires WellFormed(s) && WellFormed(t) && StatusReport(s) == StatusReport(t)
    ensures s == t
  {
    StatusReportLines(s);
    StatusReportLines(t);
    var sep := "\n";
    var os := [OnOff(s[Light]), OnOff(s[Fan]), OnOff(s[Tv]), OnOff(s[Ac])];
    var ot := [OnOff(t[Light]), OnOff(t[Fan]), OnOff(t[Tv]), OnOff(t[Ac])];
    ReportShape(StatusHeading, Label(Light), Label(Fan), Label(Tv), Label(Ac), os[0], os[1], os[2], os[3], sep);
    ReportShape(StatusHeading, Label(Light), Label(Fan), Label(Tv), Label(Ac), ot[0], ot[1], ot[2], ot[3], sep);
    var p3, p2, p1 := sep + Label(Ac) + " ", sep + Label(Tv) + " ", sep + Label(Fan) + " ";
    var x3s, x3t := p3 + os[3] + "", p3 + ot[3] + "";
    var x2s, x2t := p2 + os[2] + x3s, p2 + ot[2] + x3t;
    var x1s, x1t := p1 + os[1] + x2s, p1 + ot[1] + x2t;
    OnOffDecides(StatusHeading + Label(Light) + " ", s[Light], t[Light], x1s, x1t);
    OnOffDecides(p1, s[Fan], t[Fan], x2s, x2t);
    OnOffDecides(p2, s[Tv], t[Tv], x3s, x3t);
    OnOffDecides(p3, s[Ac], t[Ac], "", "");
    forall d ensures s[d] == t[d] {
      match d {
        case Light =>
        case Fan =>
        case Tv =>
        case Ac =>
      }
    }
  }

  /** Each of four lines joined by newlines after a heading occurs in the result. */
  lemma LinesOccur(h: string, l: string, f: string, t: string, a: string)
    ensures var x := h + (l + "\n" + f + "\n" + t + "\n" + a);
      Occurs(l, x) && Occurs(f, x) && Occurs(t, x) && Occurs(a, x)
  {
    var nl := "\n";
    var x := h + (l + nl + f + nl + t + nl + a);
    assert OccursAt(l, x, |h|) by {
      assert x == h + l + (nl + f + nl + t + nl + a);
    }
    assert OccursAt(f, x, |h + l + nl|) by {
      assert x == (h + l + nl) + f + (nl + t + nl + a);
    }
    assert OccursAt(t, x, |h + l + nl + f + nl|) by {
      assert x == (h + l + nl + f + nl) + t + (nl + a);
    }
    assert OccursAt(a, x, |h + l + nl + f + nl + t + nl|) by {
      assert x == (h + l + nl + f + nl + t + nl) + a;
    }
  }

  /** After a gesture command, the status report carries that device's line
      with the value the gesture wrote. */
  lemma GestureInReport(c: Command, s: DeviceState)
    requires WellFormed(s)
    ensures var r := ProcessGestureCommand(CommandName(c), s);
      WellFormed(r) && Occurs(Label(c.device) + " " + OnOff(c.on), StatusReport(r))
  {
    var r := ProcessGestureCommand(CommandName(c), s);
    DispatchIsSet(c, s, r);
    StatusReportLines(r);
    LinesOccur(StatusHeading, StatusLine(r, Light), StatusLine(r, Fan), StatusLine(r, Tv), StatusLine(r, Ac));
    assert StatusLine(r, c.device) == Label(c.device) + " " + OnOff(c.on);
    match c.device {
      case Light =>
      case Fan =>
      case Tv =>
      case Ac =>
    }
  }

  /** Asking the chat for the status after a gesture shows the line the gesture wrote. */
  lemma StatusQuerySeesGesture(c: Command, msg: string, s: DeviceState)
    requires WellFormed(s)
    ensures var r := ProcessGestureCommand(CommandName(c), s);
      !Occurs("hello", msg) && (Occurs("status", msg) || Occurs("devices", msg)) ==>
        Occurs(Label(c.device) + " " + OnOff(c.on), ChatbotReply(msg, r))
  {
    GestureInReport(c, s);
  }

  /** `chatbot_reply` on an already lower-cased message. */
  function ChatbotReply(msg: string, s: DeviceState): (r: string)
    requires WellFormed(s)
    ensures Occurs("hello", msg) ==> r == Greeting
    ensures !Occurs("hello", msg) && (Occurs("status", msg) || Occurs("devices", msg)) ==> r == StatusReport(s)
    ensures !Occurs("hello", msg) && !Occurs("status", msg) && !Occurs("devices", msg) && Occurs("light", msg) ==>
      r == "Light is " + OnOff(s[Light])
    ensures (!Occurs("hello", msg) && !Occurs("status", msg) && !Occurs("devices", msg) && !Occurs("light", msg) &&
      Occurs("fan", msg)) ==> r == "Fan is " + OnOff(s[Fan])
    ensures (!Occurs("hello", msg) && !Occurs("status", msg) && !Occurs("devices", msg) && !Occurs("light", msg) &&
      !Occurs("fan", msg)) ==> r == NotUnderstood
  {
    if Contains(msg, "hello") then Greeting
    else if Contains(msg, "status") || Contains(msg, "devices") then StatusReport(s)
    else if Contains(msg, "light") then "Light is " + OnOff(s[Light])
    else if Contains(msg, "fan") then "Fan is " + OnOff(s[Fan])
    else NotUnderstood
  }
}
