/**
 The vocabulary shared by the two gesture front ends: hand landmarks as the
 detector reports them, the eight appliance commands with their display names,
 and the finger vector that selects each command.
 */
module Gestures {
  import opened Devices

  /** One normalised keypoint. Only `x` and `y` are ever compared, and only with `<`. */
  datatype Landmark = Landmark(x: real, y: real, z: real)

  /** The detector's 21 keypoints of one hand, in its fixed order. */
  type Hand = seq<Landmark>

  /** The classifier reads landmarks 3 to 20, so a hand must have at least 21. */
  predicate Readable(hand: Hand) {
    |hand| > 20
  }

  /** Landmark index of the tip of the thumb, index, middle, ring and little finger. */
  const TipIds: seq<nat> := [4, 8, 12, 16, 20]

  /** Python's `1 if up else 0` entries of the finger list. */
  function Bit(up: bool): (b: int) {
    if up then 1 else 0
  }

  /** An appliance command: which device, and whether it is switched on. */
  datatype Command = Command(device: Device, on: bool)

  /** The command string the gesture loops produce and the dispatcher compares against. */
  function CommandName(c: Command): (name: string) {
    match c
    case Command(Light, true) => "Light ON"
    case Command(Light, false) => "Light OFF"
    case Command(Fan, true) => "Fan ON"
    case Command(Fan, false) => "Fan OFF"
    case Command(Tv, true) => "TV ON"
    case Command(Tv, false) => "TV OFF"
    case Command(Ac, true) => "AC ON"
    case Command(Ac, false) => "AC OFF"
  }

  /**
   The finger vector (thumb, index, middle, ring, little finger; 1 = up) the
   two tables map to each command. The standalone script's banner announces
   "thumbs down" for AC OFF, but the table entry is the raised little finger.
   */
  function CanonicalVector(c: Command): (fingers: seq<int>) {
    match c
    case Command(Light, true) => [0, 1, 0, 0, 0]   // index finger up
    case Command(Light, false) => [0, 0, 0, 0, 0]  // fist
    case Command(Fan, true) => [0, 1, 1, 0, 0]     // peace sign
    case Command(Fan, false) => [1, 1, 1, 1, 1]    // open palm
    case Command(Tv, true) => [0, 1, 1, 1, 0]      // three fingers
    case Command(Tv, false) => [1, 0, 0, 0, 1]     // thumb and little finger
    case Command(Ac, true) => [1, 0, 0, 0, 0]      // thumb up
    case Command(Ac, false) => [0, 0, 0, 0, 1]     // little finger up
  }

  /** Each table vector belongs to exactly one command. */
  lemma VectorsIdentifyCommands()
    ensures CanonicalVector(Command(Light, true)) == [0, 1, 0, 0, 0]
    ensures CanonicalVector(Command(Light, false)) == [0, 0, 0, 0, 0]
    ensures CanonicalVector(Command(Fan, true)) == [0, 1, 1, 0, 0]
    ensures CanonicalVector(Command(Fan, false)) == [1, 1, 1, 1, 1]
    ensures CanonicalVector(Command(Tv, true)) == [0, 1, 1, 1, 0]
    ensures CanonicalVector(Command(Tv, false)) == [1, 0, 0, 0, 1]
    ensures CanonicalVector(Command(Ac, true)) == [1, 0, 0, 0, 0]
    ensures CanonicalVector(Command(Ac, false)) == [0, 0, 0, 0, 1]
    ensures forall c ::
      && (CanonicalVector(c) == [0, 1, 0, 0, 0] <==> c == Command(Light, true))
      && (CanonicalVector(c) == [0, 0, 0, 0, 0] <==> c == Command(Light, false))
      && (CanonicalVector(c) == [0, 1, 1, 0, 0] <==> c == Command(Fan, true))
      && (CanonicalVector(c) == [1, 1, 1, 1, 1] <==> c == Command(Fan, false))
      && (CanonicalVector(c) == [0, 1, 1, 1, 0] <==> c == Command(Tv, true))
      && (CanonicalVector(c) == [1, 0, 0, 0, 1] <==> c == Command(Tv, false))
      && (CanonicalVector(c) == [1, 0, 0, 0, 0] <==> c == Command(Ac, true))
      && (CanonicalVector(c) == [0, 0, 0, 0, 1] <==> c == Command(Ac, false))
  {
  }

  /** No two commands share a gesture, so the order of the tables cannot matter. */
  lemma CanonicalVectorsDistinct(c: Command, c': Command)
    requires c != c'
    ensures CanonicalVector(c) != CanonicalVector(c')
  {
  }

  /** Each command string belongs to exactly one command, and "No Command" to none. */
  lemma NamesIdentifyCommands()
    ensures CommandName(Command(Light, true)) == "Light ON"
    ensures CommandName(Command(Light, false)) == "Light OFF"
    ensures CommandName(Command(Fan, true)) == "Fan ON"
    ensures CommandName(Command(Fan, false)) == "Fan OFF"
    ensures CommandName(Command(Tv, true)) == "TV ON"
    ensures CommandName(Command(Tv, false)) == "TV OFF"
    ensures CommandName(Command(Ac, true)) == "AC ON"
    ensures CommandName(Command(Ac, false)) == "AC OFF"
    ensures forall c ::
      && (CommandName(c) == "Light ON" <==> c == Command(Light, true))
      && (CommandName(c) == "Light OFF" <==> c == Command(Light, false))
      && (CommandName(c) == "Fan ON" <==> c == Command(Fan, true))
      && (CommandName(c) == "Fan OFF" <==> c == Command(Fan, false))
      && (CommandName(c) == "TV ON" <==> c == Command(Tv, true))
      && (CommandName(c) == "TV OFF" <==> c == Command(Tv, false))
      && (CommandName(c) == "AC ON" <==> c == Command(Ac, true))
      && (CommandName(c) == "AC OFF" <==> c == Command(Ac, false))
      && CommandName(c) != "No Command"
  {
  }

  /** Command names are pairwise distinct, and none is "No Command". */
  lemma CommandNamesDistinct(c: Command, c': Command)
    ensures CommandName(c) == CommandName(c') <==> c == c'
    ensures CommandName(c) != "No Command"
  {
    NamesIdentifyCommands();
  }
}
