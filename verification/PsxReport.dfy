/** How the firmware turns the PlayStation controller's state into gamepad reports. */
module PsxReport {
  import opened Bits
  import opened HidDescriptor
  import opened GamepadDescriptor
  import opened GamepadLayout
  import opened GamepadReport
  import opened GamepadBegin
  import opened BleGamepad
  import opened PowerManager

  datatype Entry = Entry(psxBit: nat, hidButton: byte)

  const MAP: seq<Entry> := [
    Entry(15, 1), Entry(14, 2), Entry(13, 3), Entry(12, 4), Entry(10, 5), Entry(11, 6),
    Entry(8, 7), Entry(9, 8), Entry(1, 9), Entry(2, 10), Entry(0, 11), Entry(3, 12)]

  const HAT_CENTERED: int8 := 0
  const HAT_UP: int8 := 1
  const HAT_UP_RIGHT: int8 := 2
  const HAT_RIGHT: int8 := 3
  const HAT_DOWN_RIGHT: int8 := 4
  const HAT_DOWN: int8 := 5
  const HAT_DOWN_LEFT: int8 := 6
  const HAT_LEFT: int8 := 7
  const HAT_UP_LEFT: int8 := 8

  /** The library's default configuration with the firmware's three settings. */
  const PSX_CONFIG: Config := Config(
    0x05, 3, 16, 1,
    [false, false, false, false, false, false, false, false],
    [true, true, true, true, true, true, true, true],
    [false, false, false, false, false],
    false, false, 0, 0x7FFF, 0, 0x7FFF, 0, 0x7FFF, false, 64)

  function AxisToHid(v: byte): int16 {
    ((v as int) * 32767 + 127) / 255
  }

  function Hat(buttons: uint32): int8 {
    var up, right, down, left := Bit(buttons, 4), Bit(buttons, 5), Bit(buttons, 6), Bit(buttons, 7);
    if up && right then HAT_UP_RIGHT
    else if right && down then HAT_DOWN_RIGHT
    else if down && left then HAT_DOWN_LEFT
    else if left && up then HAT_UP_LEFT
    else if up then HAT_UP
    else if right then HAT_RIGHT
    else if down then HAT_DOWN
    else if left then HAT_LEFT
    else HAT_CENTERED
  }

  /** Is gamepad button b asked for? */
  predicate MapBit(buttons: uint32, b: nat)
    requires 1 <= b <= 12
  {
    Bit(buttons, MAP[b - 1].psxBit)
  }

  ghost function Asked(buttons: uint32): set<nat> {
    set b: nat | 1 <= b <= 12 && MapBit(buttons, b)
  }

  /** The whole controller state as a host should read it: a function of that state alone. */
  function PsxView(s: ControllerState): seq<Reading> {
    seq(16, i requires 0 <= i < 16 => Reading(Usage(0x09, i + 1), Flag(i < 12 && MapBit(s.buttons, i + 1))))
    + [Reading(Usage(0x01, 0x30), Low16(AxisToHid(s.lx))), Reading(Usage(0x01, 0x31), Low16(AxisToHid(s.ly))),
       Reading(Usage(0x01, 0x32), Low16(AxisToHid(s.rx))), Reading(Usage(0x01, 0x35), Low16(AxisToHid(s.ry))),
       Reading(Usage(0x01, 0x33), 0), Reading(Usage(0x01, 0x34), 0),
       Reading(Usage(0x01, 0x36), 0), Reading(Usage(0x01, 0x36), 0)]
    + [Reading(Usage(0x01, 0x39), Low8(Hat(s.buttons)))]
  }

  /** What the firmware keeps true of its one gamepad object. */
  ghost predicate Ours(pad: Gamepad)
    reads pad, pad.buttons, pad.descriptor, pad.descriptor.bytes
  {
    && pad.Valid() && pad.config == PSX_CONFIG && !pad.autoReport
    && (forall b :: b in pad.pressed ==> 1 <= b <= 12)
    && pad.axes[RX] == 0 && pad.axes[RY] == 0 && pad.axes[SLIDER1] == 0 && pad.axes[SLIDER2] == 0
  }

  method Begin() returns (pad: Gamepad)
    ensures Ours(pad) && pad.sent == [] && pad.pressed == {} && pad.pressedSpecial == {}
    ensures pad.axes == [0, 0, 0, 0, 0, 0, 0, 0] && pad.hats == [0, 0, 0, 0]
    ensures fresh(pad) && fresh(pad.buttons) && fresh(pad.descriptor) && fresh(pad.descriptor.bytes)
  {
    hide Items, Represents, InScope, Encode;
    PsxConfigInScope();
    pad := new Gamepad();
    pad.Begin(PSX_CONFIG, false);
  }

  lemma PsxConfigInScope()
    ensures InScope(PSX_CONFIG) && DescriptorLength(PSX_CONFIG) == 82 && ReportSize(PSX_CONFIG) == 19
  {
    hide Count;
    var c := PSX_CONFIG;
    CountEight(c.special);
    CountEight(c.axes);
    CountFive(c.simulation);
  }

  /** Presses and releases through the map: afterwards exactly the mapped buttons are down. */
  method UpdateButtons(pad: Gamepad, buttons: uint32, connected: bool)
    requires Ours(pad)
    modifies pad, pad.buttons
    ensures Ours(pad) && pad.sent == old(pad.sent) && unchanged(pad.descriptor, pad.descriptor.bytes)
    ensures pad.Holding() == old(pad.Holding()).(buttons := Asked(buttons), hats := old(pad.hats)[0 := Hat(buttons)])
  {
    hide Items, Represents, InScope, Encode, Bit, ReportSize, Pack;
    ghost var before := pad.pressed;
    for i := 0 to 12
      invariant Ours(pad) && pad.sent == old(pad.sent) && unchanged(pad.descriptor, pad.descriptor.bytes)
      invariant pad.Holding() == old(pad.Holding()).(buttons := pad.pressed)
      invariant forall b :: 1 <= b <= i ==> (b in pad.pressed <==> MapBit(buttons, b))
    {
      if Bit(buttons, MAP[i].psxBit) {
        pad.Press(MAP[i].hidButton, connected);
      } else {
        pad.Release(MAP[i].hidButton, connected);
      }
    }
    assert pad.pressed == Asked(buttons);
    pad.SetHat1(Hat(buttons), connected);
  }

  method UpdateControls(pad: Gamepad, s: ControllerState, connected: bool)
    requires Ours(pad)
    modifies pad, pad.buttons
    ensures Ours(pad) && pad.sent == old(pad.sent) && unchanged(pad.descriptor, pad.descriptor.bytes)
    ensures FullView(pad.Holding()) && HostView(PSX_CONFIG, pad.Holding()) == PsxView(s)
  {
    hide Items, Represents, InScope, Encode, ReportSize, Pack, Hat, Asked, PsxView, HostView, AxisToHid;
    pad.Sizes();
    UpdateButtons(pad, s.buttons, connected);
    pad.Sizes();
    AxisInRange(s.lx);
    AxisInRange(s.ly);
    AxisInRange(s.rx);
    AxisInRange(s.ry);
    pad.SetLeftThumb(AxisToHid(s.lx), AxisToHid(s.ly), connected);
    pad.SetRightThumb(AxisToHid(s.rx), AxisToHid(s.ry), connected);
    ViewIsState(s, pad.Holding());
  }

  /** One update: nothing while disconnected; otherwise at most one report goes out, and what a
      host reads from it is the current controller state, whatever was reported before. */
  method Update(pad: Gamepad, s: ControllerState, connected: bool, connectedAtSend: bool)
    requires Ours(pad)
    modifies pad, pad.buttons
    ensures Ours(pad) && unchanged(pad.descriptor, pad.descriptor.bytes)
    ensures !connected || !connectedAtSend ==> pad.sent == old(pad.sent)
    ensures connected && connectedAtSend ==>
              |pad.sent| == |old(pad.sent)| + 1 && pad.sent[..|old(pad.sent)|] == old(pad.sent)
              && pad.HostReads(pad.sent[|old(pad.sent)|]) == PsxView(s)
  {
    hide Items, Represents, InScope, Encode, Bit, ReportSize, Pack, Hat, Asked, PsxView, HostView, AxisToHid, Parse;
    if !connected {
      return;
    }
    UpdateControls(pad, s, connected);
    pad.HostReadsReport();
    pad.SendReport(connectedAtSend);
  }

  /** Stick positions land in the logical range the descriptor declares, end to end. */
  lemma AxisInRange(v: byte)
    ensures PSX_CONFIG.axesMin <= AxisToHid(v) <= PSX_CONFIG.axesMax
    ensures AxisToHid(0) == PSX_CONFIG.axesMin && AxisToHid(255) == PSX_CONFIG.axesMax
  {
  }

  /** No two stick positions collapse, and their order is kept. */
  lemma AxisKeepsOrder(a: byte, b: byte)
    ensures a < b <==> AxisToHid(a) < AxisToHid(b)
  {
  }

  lemma ViewIsState(s: ControllerState, g: Held)
    requires FullView(g) && g.buttons == Asked(s.buttons)
    requires g.axes[X] == AxisToHid(s.lx) && g.axes[Y] == AxisToHid(s.ly)
    requires g.axes[Z] == AxisToHid(s.rx) && g.axes[RZ] == AxisToHid(s.ry)
    requires g.axes[RX] == g.axes[RY] == g.axes[SLIDER1] == g.axes[SLIDER2] == 0
    requires g.hats[0] == Hat(s.buttons)
    ensures HostView(PSX_CONFIG, g) == PsxView(s)
  {
    hide Bit, AxisToHid, Hat, Pick, Count, AxisView, SimulationView, Low16, Low8;
    var c := PSX_CONFIG;
    NoSpecials(g);
    AllAxes(g.axes);
    assert Low16(0) == 0 by { ZeroWord(); }
    assert ButtonView(c, g)
           == seq(16, i requires 0 <= i < 16 => Reading(Usage(0x09, i + 1), Flag(i < 12 && MapBit(s.buttons, i + 1))));
    assert HatView(1, g.hats) == [Reading(Usage(0x01, 0x39), Low8(Hat(s.buttons)))];
  }

  lemma ZeroWord()
    ensures Low16(0) == 0
  {
  }

  lemma NoSpecials(g: Held)
    requires FullView(g)
    ensures SpecialView(PSX_CONFIG, g) == [] && SimulationView(PSX_CONFIG, g.simulation) == []
  {
    hide Count, Pick, Flag, Low16;
    var c := PSX_CONFIG;
    CountThree(c.special[..3]);
    CountFive(c.special[3..]);
    CountFive(c.simulation);
  }

  lemma AllAxes(a: seq<int16>)
    requires |a| == 8
    ensures AxisView(PSX_CONFIG, a) == [
      Reading(Usage(0x01, 0x30), Low16(a[X])), Reading(Usage(0x01, 0x31), Low16(a[Y])),
      Reading(Usage(0x01, 0x32), Low16(a[Z])), Reading(Usage(0x01, 0x35), Low16(a[RZ])),
      Reading(Usage(0x01, 0x33), Low16(a[RX])), Reading(Usage(0x01, 0x34), Low16(a[RY])),
      Reading(Usage(0x01, 0x36), Low16(a[SLIDER1])), Reading(Usage(0x01, 0x36), Low16(a[SLIDER2]))]
  {
    hide Low16, Pick;
    PickAll(AxisFlags(PSX_CONFIG), [
      Reading(Usage(0x01, 0x30), Low16(a[X])), Reading(Usage(0x01, 0x31), Low16(a[Y])),
      Reading(Usage(0x01, 0x32), Low16(a[Z])), Reading(Usage(0x01, 0x35), Low16(a[RZ])),
      Reading(Usage(0x01, 0x33), Low16(a[RX])), Reading(Usage(0x01, 0x34), Low16(a[RY])),
      Reading(Usage(0x01, 0x36), Low16(a[SLIDER1])), Reading(Usage(0x01, 0x36), Low16(a[SLIDER2]))]);
  }

  lemma {:induction false} PickAll<T>(flags: seq<bool>, xs: seq<T>)
    requires |flags| == |xs| && forall k :: 0 <= k < |flags| ==> flags[k]
    ensures Pick(flags, xs) == xs
  {
    if xs != [] {
      var n := |xs| - 1;
      PickAll(flags[..n], xs[..n]);
    }
  }
}
