# Smart appliance control: decision logic in Dafny

This project models the decision logic of a small smart-home demo. Four
appliances (light, fan, TV and air conditioner) are switched by hand
gestures seen by a webcam, by spoken sentences and by a keyword chatbot.
The modelled pieces are:

- the finger classifier, which turns the 21 hand landmarks of a detected hand into a
  0/1 vector for thumb, index, middle, ring and little finger;
- the gesture table, which maps eight vectors to the command strings "Light ON" … "AC OFF";
- the two gesture loops. In the standalone script, the `command` variable
  holds the last recognised hand's command when the frame's hand loop ends,
  or "No Command" if no hand was recognised. The hybrid window dispatches that
  same command to its device store;
- the hybrid window's voice dispatcher: "turn on", "switch on" or "start" anywhere in
  the sentence means on, and the off words mean off, with on winning when both appear.
  The first device keyword in the order light, fan, tv, then "ac" or
  "air conditioner" picks the device. Keywords match as plain substrings;
- the chatbot's keyword replies, including the status report built from the store;
- the standalone fan script's ten regular expressions and its first-match-wins answer.

Regular expressions are modelled exactly for the shapes the program uses.
A pattern is a sequence of literal words, `\s+` (Python's whitespace set)
and `.*` (anything but a newline). It has a declarative meaning, `Found`,
and an executable backtracking search, `Search`, proved equal to it.
Substring tests `"w" in s` are `Contains`, proved equal to `Occurs`.

Modules:

- `Devices`: the store, a map from device to flag;
- `Gestures`: landmarks, commands and the table vectors;
- `GestureControl`: the standalone gesture script;
- `HybridUi`: the hybrid window;
- `Voice`: the fan script;
- `Patterns`: the regular expressions;
- `FrontEnds`: how the two voice parsers relate;
- `HybridUiExamples` and `VoiceExamples`: worked sentences.

The camera, the microphone, the widgets and the threads are left out. Each
operation takes the landmarks, the recognised text or the current store as a
value, and it returns the command, the answer or the new store.

Keywords and patterns match as plain substrings, with no word boundaries,
so "ac" matches inside "space". In the finger classifier, ties count as a
finger down, and the thumb test ignores which hand is shown.

## Model

| member | source | states |
|---|---|---|
| Devices.Initial | hybrid_ui.py:62-67 | the store has exactly the four devices, and every flag starts off |
| Devices.Set | hybrid_ui.py:134 | writing a flag keeps the key set, gives that device the value and leaves every other device unchanged |
| Devices.SetIdempotent | hybrid_ui.py:134 | writes are absolute: repeating one changes nothing, and writing the current value is a no-op |
| Devices.Position | hybrid_ui.py:62-67 | each device sits at its place in the dictionary's insertion order |
| Gestures.VectorsIdentifyCommands | Gesture_Control.py:79-100 | each of the eight table vectors belongs to exactly one command |
| Gestures.CanonicalVectorsDistinct | Gesture_Control.py:79-100 | no two commands share a vector, so the order of the elif chain cannot change its result |
| Gestures.CommandNamesDistinct | hybrid_ui.py:212-229 | command strings are pairwise distinct, and none of them is "No Command" |
| GestureControl.FingerStatus | Gesture_Control.py:38-56 | five 0/1 entries: the thumb is up iff landmark 4 is left of landmark 3, and each other finger is up iff its tip is above the joint two landmarks below it |
| GestureControl.Classify | Gesture_Control.py:79-100 | a table vector replaces the current value of `command` by its command's name; any other vector keeps the value |
| GestureControl.CommandAfter | Gesture_Control.py:67-100 | after the table has run on the first k hands, `command` holds the name of the last hand showing a known gesture, or "No Command" if there is none |
| GestureControl.StepReports | Gesture_Control.py:70-100 | running the table on one more hand keeps the last-recognised-hand description true |
| GestureControl.FrameCommand | Gesture_Control.py:67-100 | the value of `command` when the frame's hand loop ends is the last recognised hand's command, or "No Command" |
| HybridUi.GetFingerStatus | hybrid_ui.py:146-164 | the window's loop-based classifier gives the same five bits as the standalone script's |
| HybridUi.GestureTable | hybrid_ui.py:182-197 | a vector names the command whose vector it is, and a vector outside the table names none |
| HybridUi.TablesAgree | hybrid_ui.py:181-197 | the window's table and the standalone script's table agree on every vector |
| HybridUi.ProcessGestureCommand | hybrid_ui.py:212-229 | a command string sets exactly its device to its value; any other string leaves the store unchanged |
| HybridUi.DispatchIsSet | hybrid_ui.py:212-229 | dispatching a command's own name is the single write of that command |
| HybridUi.RecogniseHands | hybrid_ui.py:175-197 | the window's hand loop picks the command that the standalone script's `command` holds after its hand loop; no command is picked exactly when that value is "No Command" |
| HybridUi.GestureFrame | hybrid_ui.py:175-200 | one frame writes the recognised command's flag, or leaves the store alone when nothing was recognised |
| HybridUi.GestureIdempotent | hybrid_ui.py:212-229 | holding a gesture over several frames has the effect of showing it once |
| HybridUi.OnPatternsMean | hybrid_ui.py:113-119 | the `any(...)` search over the on patterns holds iff the sentence contains "turn", whitespace, "on", or "switch", whitespace, "on", or "start" |
| HybridUi.OffPatternsMean | hybrid_ui.py:114-121 | the same for the off patterns, with "off" and "stop" |
| HybridUi.VoiceAction | hybrid_ui.py:119-122 | on is chosen iff an on pattern is found; off iff an off pattern is found and no on pattern is; otherwise there is no action |
| HybridUi.VoiceDevice | hybrid_ui.py:124-131 | the device is light if "light" occurs, else fan if "fan" occurs, else TV if "tv" occurs, else AC if "ac" or "air conditioner" occurs, else none |
| HybridUi.VoiceDeviceIsFirstMentioned | hybrid_ui.py:124-131 | equivalently, the chosen device is the first one in the panel's order that the sentence mentions |
| HybridUi.VoiceCommand | hybrid_ui.py:133 | a sentence is a command iff it yields both a device and an action |
| HybridUi.ProcessVoiceCommand | hybrid_ui.py:110-137 | only the named device can change, and only to the requested action; without both a device and an action the store is unchanged |
| HybridUi.VoiceAgreesWithGesture | hybrid_ui.py:133-137 | a recognised sentence has exactly the effect of the gesture command with the same device and action, and an unrecognised one leaves the store unchanged |
| HybridUi.VoiceIdempotent | hybrid_ui.py:133-135 | saying the same sentence twice has no further effect |
| HybridUi.StatusReportLines | hybrid_ui.py:244-245 | the status reply is the heading, then light, fan, TV and AC lines of the form "<key> ON/OFF", joined by newlines |
| HybridUi.StatusReportFaithful | hybrid_ui.py:244-245 | the status reply determines the whole store: stores with equal reports are equal |
| HybridUi.GestureInReport | hybrid_ui.py:212-229 | after any gesture command, the status report contains that device's key followed by the value the gesture wrote |
| HybridUi.StatusQuerySeesGesture | hybrid_ui.py:240-245 | a status or devices question asked after a gesture gets a reply containing the line the gesture wrote |
| HybridUi.ChatbotReply | hybrid_ui.py:240-251 | the reply follows the keyword priority hello, then status or devices, then light, then fan, then the fallback, and reports the current flags |
| HybridUiExamples.TurnOnTheLight | hybrid_ui.py:110-137 | "turn on the light" is Light ON |
| HybridUiExamples.TurnOffFan | hybrid_ui.py:110-137 | "turn off fan" is Fan OFF |
| HybridUiExamples.HelloThereIsNoCommand | hybrid_ui.py:133-137 | "hello there" is not recognised |
| HybridUiExamples.StartAirConditioner | hybrid_ui.py:130 | "start air conditioner" is AC ON, through the long name |
| HybridUiExamples.SwitchOnAirConditioner | hybrid_ui.py:119-130 | "switch on air conditioner" is AC ON: the switch-on pattern gives the action, and the long name the device |
| HybridUiExamples.SpaceHeaterSwitchesAc | hybrid_ui.py:130 | "turn on the space heater" is AC ON, because "ac" occurs inside "space" |
| HybridUiExamples.OffAndStartMeansLightOn | hybrid_ui.py:119-125 | "turn off the light and start the fan" is Light ON: "start" makes the action on, and light is tried first |
| HybridUiExamples.AskAboutLight | hybrid_ui.py:246-247 | "light?" gets the light's state |
| HybridUiExamples.AskForDevices | hybrid_ui.py:243-245 | "show devices" gets the status report |
| HybridUiExamples.AskSomethingElse | hybrid_ui.py:250-251 | a message with no keyword gets the fallback |
| HybridUiExamples.ChatSeesGesture | hybrid_ui.py:246-247 | after a Light gesture, asking about the light reports the value the gesture wrote |
| Voice.PatternsMentionFan | voice.py:46-61 | every one of the ten patterns contains the word "fan" |
| Voice.ProcessFanCommand | voice.py:37-74 | no text gives no answer; True iff an on pattern is found; False iff no on pattern is found and an off pattern is; None otherwise; an answer implies the text contains "fan" |
| VoiceExamples.TurnOnTheFan | voice.py:47 | "turn on the fan" is an on request |
| VoiceExamples.SwitchOnFan | voice.py:48 | "switch on fan" is an on request, with `.*` matching nothing |
| VoiceExamples.TurnOffTheFan | voice.py:46-61 | "turn off the fan" is an off request and no on pattern matches it |
| VoiceExamples.FanOffShort | voice.py:46-61 | "fan off" is an off request and no on pattern matches it |
| VoiceExamples.OnPatternsNeedOn | voice.py:46-52 | without "on" and "start", no on pattern can match |
| FrontEnds.FanOnCarriesOver | voice.py:47-49 | a sentence the fan script turns on by a long pattern is Fan ON in the hybrid window too, unless it mentions the light |
| FrontEnds.FanOffCarriesOver | voice.py:56-58 | the same for off, provided the window sees no on request in the sentence |
| FrontEnds.FanOnOnlyInScript | voice.py:50 | "fan on" is understood by the fan script but not by the hybrid window |
| Patterns.Search | voice.py:65 | the backtracking search succeeds iff the pattern derives some slice of the text, as `re.search` does |
| Patterns.Contains | hybrid_ui.py:124 | the substring test holds iff the word occurs at some position |
| Patterns.SearchAny | hybrid_ui.py:119 | `any(re.search(p, s) for p in ps)` holds iff some pattern of the list is found |
| Patterns.MatchAtCorrect | voice.py:65 | the matcher succeeds at a position iff the remaining pieces derive some prefix of the rest of the text |
| Patterns.FoundHasWord | voice.py:46-61 | every literal word of a pattern that is found occurs in the text |
| Patterns.FoundPrefix | hybrid_ui.py:113 | a text in which a pattern is found also contains a match of each of its prefixes |

## Left out

- Camera capture, frame flipping, landmark detection, drawing and the Tk image
  updates are left out. The detector is an input: the model takes the detected
  hands as a sequence of landmark lists.
- Speech capture and recognition are left out, along with their error messages
  and the lower-casing of recognised text. The parsers take the recognised text as given.
  `voiceInput.py` is only a capture loop and is not part of this model.
- The widgets, the checkbuttons and the chat window's text handling are left out.
  This includes `send_chat`'s strip and lower-case step before `chatbot_reply`.
- Threads and the gesture-loop start/stop flag are left out.
- `update_devices` only prints the status list, so it is left out. Its list is
  the one `StatusReport` models.
- The "Command not recognized" label text is left out. `HybridUi.ProcessVoiceCommand`
  leaves the store unchanged in that case, and `VoiceCommand` returns `None`.
- `HybridUi.ChatbotReply` takes a message that is already lower-case. Python's
  `str.lower` on arbitrary Unicode is not modelled.
- GestureControl.FrameCommand: drawing the command text is left out. The model
  gives the value of `command` after the hand loop. The script draws the text
  inside the hand loop, once per hand, always at the same position. So a frame
  without a detected hand draws no text at all, and a frame with several hands
  draws overlapping texts.
- Landmark coordinates are real numbers, and only `<` between them is used.
  Floating-point rounding does not arise.
