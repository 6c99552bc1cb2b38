/**
 The device state store: the `devices` dictionary of the hybrid assistant, one
 boolean flag per appliance, all off when the window opens. Its key set is
 fixed; the input modalities only ever overwrite one flag with an absolute
 value.
 */
module Devices {

  datatype Device = Light | Fan | Tv | Ac

  /** The dictionary's insertion order, which is also its iteration order. */
  const DeclaredOrder: seq<Device> := [Light, Fan, Tv, Ac]

  /** Where a device sits in the dictionary's order. */
  function Position(d: Device): (i: nat)
    ensures i < |DeclaredOrder| && DeclaredOrder[i] == d
  {
    match d
    case Light => 0
    case Fan => 1
    case Tv => 2
    case Ac => 3
  }

  /** Each position of the order holds exactly one device. */
  lemma PositionsIdentifyDevices()
    ensures forall d: Device ::
      && (Position(d) == 0 <==> d == Light)
      && (Position(d) == 1 <==> d == Fan)
      && (Position(d) == 2 <==> d == Tv)
      && (Position(d) == 3 <==> d == Ac)
  {
  }

  const AllDevices: set<Device> := {Light, Fan, Tv, Ac}

  lemma AllDevicesComplete()
    ensures forall d: Device :: d in AllDevices
  {
    forall d: Device ensures d in AllDevices {
      match d {
        case Light =>
        case Fan =>
        case Tv =>
        case Ac =>
      }
    }
  }

  type DeviceState = map<Device, bool>

  /** Exactly one entry per known device. */
  predicate WellFormed(s: DeviceState) {
    forall d: Device :: d in s
  }

  /** A fresh `tk.BooleanVar()` holds False. */
  function Initial(): (s: DeviceState)
    ensures WellFormed(s)
    ensures forall d :: !s[d]
  {
    AllDevicesComplete();
    var s := map[Light := false, Fan := false, Tv := false, Ac := false];
    assert forall d :: d in AllDevices ==> d in s;
    s
  }

  /** `self.devices[d].set(v)`: overwrite one flag, nothing else changes. */
  function Set(s: DeviceState, d: Device, v: bool): (r: DeviceState)
    requires WellFormed(s)
    ensures WellFormed(r) && r.Keys == s.Keys
    ensures r[d] == v
    ensures forall e :: e != d ==> r[e] == s[e]
  {
    s[d := v]
  }

  /** Setting a flag to the value it already has leaves the store as it was,
      so writing the same value twice has no further effect. */
  lemma SetIdempotent(s: DeviceState, d: Device, v: bool)
    requires WellFormed(s)
    ensures Set(Set(s, d, v), d, v) == Set(s, d, v)
    ensures s[d] == v ==> Set(s, d, v) == s
  {
  }

  /** Dictionary key of each device, as displayed in the panel and the chat. */
  function Label(d: Device): (key: string) {
    match d
    case Light => "\U{1F4A1} Light"
    case Fan => "\U{1F32C}\U{FE0F} Fan"
    case Tv => "\U{1F4FA} TV"
    case Ac => "\U{2744}\U{FE0F} AC"
  }

  function OnOff(v: bool): (text: string) {
    if v then "ON" else "OFF"
  }

  /** "ON" and "OFF" differ in their second letter, so a flag's text can be read
      back from anything that follows a known prefix. */
  lemma OnOffDecides(p: string, a: bool, b: bool, x: string, y: string)
    requires p + OnOff(a) + x == p + OnOff(b) + y
    ensures a == b && x == y
  {
    var u := p + OnOff(a) + x;
    var v := p + OnOff(b) + y;
    assert u[|p| + 1] == (if a then 'N' else 'F');
    assert v[|p| + 1] == (if b then 'N' else 'F');
    assert x == u[|p| + |OnOff(a)|..];
    assert y == v[|p| + |OnOff(b)|..];
  }
}
