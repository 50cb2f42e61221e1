/** What the controller's own terms come to at the host: packets, named buttons, directions and
    sticks, with no word of how the firmware gets from one to the other. */
module PsxMeaning {
  import opened Bits
  import opened HidDescriptor
  import opened GamepadReport
  import opened PowerManager
  import opened PsxReport

  // ---------------------------------------------------------------- the controller

  const SELECT := 0
  const L3 := 1
  const R3 := 2
  const START := 3
  const UP := 4
  const RIGHT := 5
  const DOWN := 6
  const LEFT := 7
  const L2 := 8
  const R2 := 9
  const L1 := 10
  const R1 := 11
  const TRIANGLE := 12
  const CIRCLE := 13
  const CROSS := 14
  const SQUARE := 15

  /** The controls in the order of the gamepad buttons they appear as. */
  const IN_BUTTON_ORDER: seq<nat> := [
    SQUARE, CROSS, CIRCLE, TRIANGLE, L1, R1, L2, R2, L3, R3, SELECT, START]

  /** The packet a controller sends while the controls in held are held down: its buttons are
      active low, and the right stick comes first. */
  function Transmit(held: uint16, rx: byte, ry: byte, lx: byte, ly: byte, mode: byte, ack: byte): (packet: seq<byte>)
    ensures |packet| == 9
  {
    [0xFF, mode, ack, 0xFF - held % 256, 0xFF - held / 256, rx, ry, lx, ly]
  }

  /** Decoding undoes the transmission: each control and each stick comes out as it was, with ones
      in the upper half of the button word. Anything that does not start with 0xFF changes nothing. */
  lemma DecodeTransmitted(held: uint16, rx: byte, ry: byte, lx: byte, ly: byte, mode: byte, ack: byte,
                          was: ControllerState)
    ensures Decode(Transmit(held, rx, ry, lx, ly, mode, ack), was)
         == ControllerState(0xFFFF_0000 + held, lx, ly, rx, ry)
  {
  }

  lemma RejectedPacket(packet: seq<byte>, was: ControllerState)
    requires |packet| >= 9 && packet[0] != 0xFF
    ensures Decode(packet, was) == was
  {
  }

  /** The bits of the upper half do not disturb the lower ones. */
  lemma {:induction false} LowBits(high: nat, low: nat, width: nat, k: nat)
    requires k < width && low < Pow2(width)
    ensures Bit(high * Pow2(width) + low, k) == Bit(low, k)
  {
    var p := Pow2(width - 1);
    assert high * Pow2(width) == 2 * (high * p);
    if k > 0 {
      assert (high * Pow2(width) + low) / 2 == high * p + low / 2;
      LowBits(high, low / 2, width - 1, k - 1);
    }
  }

  // ---------------------------------------------------------------- the host

  /** Which way a hat value points, right and up counted positive; eight values clockwise from
      north, and none for the centre. */
  function Direction(hat: nat): (int, int) {
    match hat
    case 1 => (0, 1)
    case 2 => (1, 1)
    case 3 => (1, 0)
    case 4 => (1, -1)
    case 5 => (0, -1)
    case 6 => (-1, -1)
    case 7 => (-1, 0)
    case 8 => (-1, 1)
    case _ => (0, 0)
  }

  function Toward(plus: bool, minus: bool): int {
    if plus then 1 else if minus then -1 else 0
  }

  /** The hat points where the directional pad is pressed. Of left and right held together right
      counts, and of up and down held together up, but down with left alone. */
  lemma HatPoints(s: ControllerState)
    ensures var (up, right, down, left) :=
              (Bit(s.buttons, UP), Bit(s.buttons, RIGHT), Bit(s.buttons, DOWN), Bit(s.buttons, LEFT));
            && PsxView(s)[24].usage == Usage(0x01, 0x39) && PsxView(s)[24].value <= 8
            && Direction(PsxView(s)[24].value)
               == (Toward(right, left), Toward(up && !(down && left && !right), down))
  {
    hide Bit;
  }

  /** Every control but the directional pad has a gamepad button of its own, in that order; the
      last four buttons are never down. */
  lemma ButtonsShow(s: ControllerState, i: nat)
    requires i < 16
    ensures PsxView(s)[i].usage == Usage(0x09, i + 1)
    ensures PsxView(s)[i].value == if i < 12 && Bit(s.buttons, IN_BUTTON_ORDER[i]) then 1 else 0
  {
    hide Bit;
    assert PsxView(s)[i] == Reading(Usage(0x09, i + 1), Flag(i < 12 && MapBit(s.buttons, i + 1)));
    assert i < 12 ==> MAP[i].psxBit == IN_BUTTON_ORDER[i];
  }

  /** No control is left out and none appears twice. */
  lemma EveryControlOnce(bit: nat)
    requires bit < 16
    ensures (exists i :: 0 <= i < 12 && IN_BUTTON_ORDER[i] == bit) <==> !(UP <= bit <= LEFT)
    ensures forall i, j :: 0 <= i < j < 12 ==> IN_BUTTON_ORDER[i] != IN_BUTTON_ORDER[j]
  {
    var place := [10, 8, 9, 11, 0, 0, 0, 0, 6, 7, 4, 5, 3, 2, 1, 0];
    if !(UP <= bit <= LEFT) {
      assert IN_BUTTON_ORDER[place[bit]] == bit;
    }
  }

  /** The value of v is within one unit of v / 255 of the full range. */
  predicate Scaled(v: byte, value: nat) {
    -127 <= 255 * value - 32767 * v <= 127
  }

  /** The sticks appear on X, Y and Z, Rz, each scaled to the nearest value of the declared range,
      and the other four axes rest at zero. */
  lemma SticksShow(s: ControllerState)
    ensures var v := PsxView(s);
            && |v| == 25
            && v[16].usage == Usage(0x01, 0x30) && Scaled(s.lx, v[16].value)
            && v[17].usage == Usage(0x01, 0x31) && Scaled(s.ly, v[17].value)
            && v[18].usage == Usage(0x01, 0x32) && Scaled(s.rx, v[18].value)
            && v[19].usage == Usage(0x01, 0x35) && Scaled(s.ry, v[19].value)
            && v[20] == Reading(Usage(0x01, 0x33), 0) && v[21] == Reading(Usage(0x01, 0x34), 0)
            && v[22] == Reading(Usage(0x01, 0x36), 0) && v[23] == Reading(Usage(0x01, 0x36), 0)
  {
    hide Bit, Hat, AxisToHid;
    NearestValue(s.lx);
    NearestValue(s.ly);
    NearestValue(s.rx);
    NearestValue(s.ry);
  }

  lemma NearestValue(v: byte)
    ensures 0 <= AxisToHid(v) && Low16(AxisToHid(v)) == AxisToHid(v) && Scaled(v, AxisToHid(v))
  {
  }

  /** From the controller to the host: a control of the first twelve is down at the host exactly
      if it was held when the packet was sent. */
  lemma HeldIsShown(held: uint16, rx: byte, ry: byte, lx: byte, ly: byte, mode: byte, ack: byte,
                    was: ControllerState, i: nat)
    requires i < 12
    ensures var v := PsxView(Decode(Transmit(held, rx, ry, lx, ly, mode, ack), was));
            v[i] == Reading(Usage(0x09, i + 1), if Bit(held, IN_BUTTON_ORDER[i]) then 1 else 0)
  {
    hide Bit, PsxView;
    DecodeTransmitted(held, rx, ry, lx, ly, mode, ack, was);
    ButtonsShow(Decode(Transmit(held, rx, ry, lx, ly, mode, ack), was), i);
    Pow2Of16();
    LowBits(0xFFFF, held, 16, IN_BUTTON_ORDER[i]);
  }

  lemma Pow2Of16()
    ensures Pow2(16) == 0x1_0000
  {
    Pow2Values();
    Pow2Sum(8, 8);
  }

  // ---------------------------------------------------------------- what keeps the device awake

  /** A stick within eight steps of the centre. */
  predicate AtRest(v: byte) {
    0x78 <= v <= 0x88
  }

  /** An update is quiet exactly if there was no analog event, the state is what it was, no button
      bit is set and all four sticks are at rest. */
  lemma QuietUpdate(last: ControllerState, s: ControllerState, analogEvent: bool)
    ensures !Activity(last, s, analogEvent) <==>
            !analogEvent && s == last && s.buttons == 0
            && AtRest(s.lx) && AtRest(s.ly) && AtRest(s.rx) && AtRest(s.ry)
  {
  }
}
