/** The gamepad object: begin, sendReport, and the calls that hold and release controls. */
module BleGamepad {
  import opened Bits
  import opened HidDescriptor
  import opened GamepadDescriptor
  import opened GamepadLayout
  import opened GamepadReport
  import opened GamepadBegin
  import opened GamepadPacking

  /** What begin() has room for: at most 128 buttons and four hats, a report no smaller than
      the 16-byte button store, and a descriptor that fits its buffer. */
  ghost predicate InScope(c: Config) {
    Supported(c) && DescriptorLength(c) <= DESCRIPTOR_CAPACITY
  }

  function NotMinimum(v: int16): int16 {
    if v == -32768 then -32767 else v
  }

  /** Of all values that are not the minimum it is the nearest. */
  lemma NotMinimumIsNearest(v: int16, w: int16)
    requires w != -32768
    ensures NotMinimum(v) != -32768 && (v != -32768 ==> NotMinimum(v) == v)
    ensures v == -32768 ==> v < NotMinimum(v) <= w
  {
  }

  /** The included special buttons whose bit a call for button b touches. */
  ghost function Touched(c: Config, b: nat): set<nat>
    requires WellSized(c) && b < 8
  {
    set j: nat | j < 8 && c.special[j] && Rank(c, j) == Rank(c, b)
  }

  class Gamepad {
    const descriptor: Descriptor
    var config: Config
    var autoReport: bool
    var hidReportSize: byte
    var numOfButtonBytes: byte
    const buttons: array<byte>
    var specialButtons: byte
    var axes: seq<int16>
    var simulation: seq<int16>
    var gyroscope: seq<int16>
    var accelerometer: seq<int16>
    var hats: seq<int8>

    /** Reports handed to the input characteristic, oldest first. */
    var sent: seq<seq<byte>>

    ghost var pressed: set<nat>
    ghost var pressedSpecial: set<nat>

    ghost function Fields(): Controls
      reads this, buttons
    {
      Controls(buttons[..], specialButtons, axes, simulation, gyroscope, accelerometer, hats)
    }

    ghost function Holding(): Held
      reads this
    {
      Held(pressed, pressedSpecial, axes, simulation, gyroscope, accelerometer, hats)
    }

    ghost predicate Apart()
      reads this
    {
      buttons != descriptor.bytes
    }

    /** Just constructed: nothing written, nothing held. */
    ghost predicate Unused()
      reads this, buttons, descriptor, descriptor.bytes
    {
      && Apart() && descriptor.Valid() && descriptor.size == 0 && descriptor.items == []
      && FullSize(Fields()) && buttons[..] == seq(16, _ => 0) && specialButtons == 0
      && pressed == {} && pressedSpecial == {}
    }

    /** After begin: the descriptor describes the configuration, and the stored bits are the
        controls held. */
    ghost predicate Valid()
      reads this, buttons, descriptor, descriptor.bytes
    {
      && Apart() && InScope(config)
      && descriptor.Valid() && descriptor.items == Items(config)
      && hidReportSize == ReportSize(config) && numOfButtonBytes == BytesFor(config.buttonCount)
      && Represents(config, Fields(), Holding())
    }

    /** The report map a host reads when it connects. */
    ghost function ReportMap(): seq<byte>
      reads this, descriptor, descriptor.bytes
      requires descriptor.Valid()
    {
      descriptor.bytes[..descriptor.size]
    }

    constructor ()
      ensures Unused() && fresh(buttons) && fresh(descriptor) && fresh(descriptor.bytes) && sent == []
      ensures axes == [0, 0, 0, 0, 0, 0, 0, 0] && hats == [0, 0, 0, 0]
    {
      descriptor := new Descriptor();
      buttons := new byte[16](_ => 0);
      specialButtons, autoReport := 0, true;
      axes, simulation := [0, 0, 0, 0, 0, 0, 0, 0], [0, 0, 0, 0, 0];
      gyroscope, accelerometer, hats := [0, 0, 0], [0, 0, 0], [0, 0, 0, 0];
      hidReportSize, numOfButtonBytes := 0, 0;
      config := *;
      sent, pressed, pressedSpecial := [], {}, {};
    }

    /** Compiles the configuration: exactly DescriptorLength bytes, which a host parses into
        exactly 8 * hidReportSize input bits. */
    method Begin(c: Config, auto: bool)
      requires Unused() && InScope(c)
      modifies this, descriptor, descriptor.bytes
      ensures Valid() && config == c && autoReport == auto
      ensures Fields() == old(Fields()) && Holding() == old(Holding()) && sent == old(sent)
      ensures ReportMap() == Encode(Items(c)) && |ReportMap()| == DescriptorLength(c)
    {
      hide Encode, Items, Represents, ReportSize, ButtonItems, SpecialItems, AxisItems, SimulationItems, MotionItems,
           HatItems, OutputItems, ButtonLength, SpecialLength, WordControlsLength, HatLength, OutputLength,
           Descriptor.Valid;
      config, autoReport := c, auto;
      var buttonPadding := MissingBits(c.buttonCount);
      var specialCount := CountIncluded(c.special, 0, 8);
      assert c.special[0..8] == c.special;
      var specialPadding := MissingBits(specialCount);
      var axisCount := CountIncluded(c.axes, 0, 8);
      assert c.axes[0..8] == c.axes;
      var simulationCount := CountIncluded(c.simulation, 0, 5);
      assert c.simulation[0..5] == c.simulation;
      SizeReport(c, buttonPadding, specialCount, specialPadding, axisCount, simulationCount);
      Compile(c, buttonPadding, specialCount, specialPadding, axisCount, simulationCount);
      NothingHeld(c, Fields(), Holding());
      descriptor.Written();
    }

    method SizeReport(c: Config, buttonPadding: byte, specialCount: byte, specialPadding: byte, axisCount: byte,
                      simulationCount: byte)
      requires InScope(c) && buttonPadding == PaddingBits(c.buttonCount) && specialCount == Count(c.special)
      requires specialPadding == PaddingBits(specialCount) && axisCount == Count(c.axes)
      requires simulationCount == Count(c.simulation)
      modifies this`numOfButtonBytes, this`hidReportSize
      ensures numOfButtonBytes == BytesFor(c.buttonCount) && hidReportSize == ReportSize(c)
    {
      hide Count, DescriptorLength;
      SizeBound(c);
      numOfButtonBytes := c.buttonCount / 8;
      if buttonPadding > 0 {
        numOfButtonBytes := numOfButtonBytes + 1;
      }
      var specialBytes: byte := specialCount / 8;
      if specialPadding > 0 {
        specialBytes := specialBytes + 1;
      }
      var motionBytes: byte := 0;
      if c.accelerometer {
        motionBytes := motionBytes + 6;
      }
      if c.gyroscope {
        motionBytes := motionBytes + 6;
      }
      hidReportSize := numOfButtonBytes + specialBytes + axisCount * 2 + simulationCount * 2 + motionBytes
          + c.hatSwitchCount;
    }

    method Compile(c: Config, buttonPadding: byte, specialCount: byte, specialPadding: byte, axisCount: byte,
                   simulationCount: byte)
      requires InScope(c) && buttonPadding == PaddingBits(c.buttonCount) && specialCount == Count(c.special)
      requires specialPadding == PaddingBits(specialCount) && axisCount == Count(c.axes)
      requires simulationCount == Count(c.simulation)
      requires descriptor.Valid() && descriptor.size == 0 && descriptor.items == []
      modifies descriptor, descriptor.bytes
      ensures descriptor.Valid() && descriptor.items == Items(c) && descriptor.size == DescriptorLength(c)
    {
      hide Encode, ReportSize, Items, ButtonItems, SpecialItems, AxisItems, SimulationItems, MotionItems, HatItems,
           OutputItems, Descriptor.Valid, ButtonLength, SpecialLength, WordControlsLength, HatLength, OutputLength,
           PaddingBits, Count;
      var d := descriptor;
      d.Emit4(Item(0x05, [0x01]), Item(0x09, [c.controllerType]), Item(0xA1, [0x01]), Item(0x85, [c.hidReportId]));
      d.EmitButtons(c, buttonPadding);
      d.EmitSpecialButtons(c, specialCount, specialPadding);
      d.EmitAxes(c, axisCount);
      d.EmitSimulation(c, simulationCount);
      d.EmitMotion(c.gyroscope, c, 0x33, 0x34, 0x35);
      d.EmitMotion(c.accelerometer, c, 0x40, 0x41, 0x42);
      d.EmitHats(c);
      d.EmitOutput(c);
      d.Emit(Item(0xC0, []));
      SectionBySection(c);
    }

    /** The button copy, then the special buttons and the axes over whatever it spilled into. */
    method PackControls(m: array<byte>) returns (i: nat)
      requires Valid() && m.Length == hidReportSize && m != buttons && m != descriptor.bytes
      modifies m
      ensures i == SimulationAt(config) && i <= m.Length
      ensures m[..i] == buttons[..][..BytesFor(config.buttonCount)] + SpecialByte(config, Fields())
                        + Words(Pick(AxisFlags(config), AxisValues(Fields())))
    {
      hide Pick, Count, Words, BytesFor, Represents, InScope, Items, AxisFlags, SpecialByte;
      ghost var k := Fields();
      Sizes();
      var count := CountIncluded(config.special, 0, 8);
      assert config.special[0..8] == config.special;
      PutButtons(m, buttons);
      assert m[..numOfButtonBytes] == m[..16][..numOfButtonBytes];
      i := PutSpecial(m, numOfButtonBytes, config, k, specialButtons, count);
      i := PutAxes(m, i, config, axes, AxisValues(k));
    }

    /** sendReport's buffer: exactly the report of the current state. */
    method Report() returns (m: array<byte>)
      requires Valid()
      ensures fresh(m) && m[..] == Pack(config, Fields())
    {
      hide Pick, Count, Words, BytesFor, Represents, InScope, Items, AxisFlags, AxisValues, SpecialByte, HatBytes;
      Sizes();
      m := new byte[hidReportSize](_ => 0);
      var i := PackControls(m);
      i := PutSimulation(m, i, config, simulation);
      i := PutMotion(m, i, config.gyroscope, gyroscope[0], gyroscope[1], gyroscope[2]);
      i := PutMotion(m, i, config.accelerometer, accelerometer[0], accelerometer[1], accelerometer[2]);
      i := PutHats(m, i, config.hatSwitchCount, hats);
      assert gyroscope == [gyroscope[0], gyroscope[1], gyroscope[2]];
      assert accelerometer == [accelerometer[0], accelerometer[1], accelerometer[2]];
      assert m[..] == m[..i];
    }

    lemma Sizes()
      requires Valid()
      ensures Supported(config) && FullSize(Fields()) && hidReportSize == ReportSize(config) >= 16
      ensures numOfButtonBytes == BytesFor(config.buttonCount) <= 16
    {
      CountBytes(config);
    }

    /** What a host holding the report map makes of the latest report: every included control
        under its own usage, with the state it is held in. */
    ghost function HostReads(report: seq<byte>): seq<Reading>
      reads this, descriptor, descriptor.bytes
      requires descriptor.Valid()
    {
      ReadFields(Parse(ReportMap(), INITIAL_PARSER).fields, report)
    }

    /** The report map a host parses is well-formed and lays out exactly the report's bits. */
    lemma ReportMapParses()
      requires Valid()
      ensures var p := Parse(ReportMap(), INITIAL_PARSER);
              p.ok && p.depth == 0 && p.offset == 8 * hidReportSize && p.fields == AllFields(config)
    {
      hide Encode, Parse, ApplyAll, Items, AllFields, ReportSize, WellFormed, Represents;
      descriptor.Written();
      ParseEncode(descriptor.items, INITIAL_PARSER);
      ItemsLaidOut(config);
    }

    lemma HostReadsReport()
      requires Valid()
      ensures HostReads(Pack(config, Fields())) == HostView(config, Holding())
    {
      hide Parse, Represents, Pack, HostView, AllFields, ReadFields, InScope, Items;
      ReportMapParses();
      Sizes();
      ReportReadsBack(config, Fields(), Holding());
    }

    method SendReport(connected: bool)
      requires Valid()
      modifies this`sent
      ensures Valid()
      ensures sent == if connected then old(sent) + [Pack(config, Fields())] else old(sent)
    {
      hide Pack, Represents, InScope, Items;
      if connected {
        var m := Report();
        sent := sent + [m[..]];
      }
    }

    /** What every call that changes a control does afterwards. */
    method Update(connected: bool)
      requires Valid()
      modifies this`sent
      ensures Valid()
      ensures sent == if autoReport && connected then old(sent) + [Pack(config, Fields())] else old(sent)
    {
      hide Valid, Pack;
      if autoReport {
        SendReport(connected);
      }
    }

    /** Reports go out exactly when connected with automatic reports on, and say the new state. */
    twostate predicate Reported(connected: bool)
      reads this, buttons
      requires Supported(config) && FullSize(Fields())
    {
      sent == if autoReport && connected then old(sent) + [Pack(config, Fields())] else old(sent)
    }

    twostate predicate SameSettings()
      reads this, descriptor, descriptor.bytes
    {
      config == old(config) && autoReport == old(autoReport) && unchanged(descriptor, descriptor.bytes)
    }

    method Press(b: byte, connected: bool)
      requires Valid() && 1 <= b <= 128
      modifies this, buttons
      ensures Valid() && SameSettings() && Reported(connected)
      ensures Holding() == old(Holding()).(buttons := old(pressed) + {b as nat})
    {
      hide InScope, Items, Pack, ReportSize;
      var index, bit := (b - 1) / 8, (b - 1) % 8;
      var result := Or(buttons[index], Pow2(bit));
      PressBits(config, Fields(), Holding(), b, result);
      if result != buttons[index] {
        buttons[index] := result;
      }
      pressed := pressed + {b as nat};
      assert buttons[..] == old(buttons[..])[index := result];
      Update(connected);
    }

    method Release(b: byte, connected: bool)
      requires Valid() && 1 <= b <= 128
      modifies this, buttons
      ensures Valid() && SameSettings() && Reported(connected)
      ensures Holding() == old(Holding()).(buttons := old(pressed) - {b as nat})
    {
      hide InScope, Items, Pack, ReportSize;
      var index, bit := (b - 1) / 8, (b - 1) % 8;
      var result := AndNot(buttons[index], Pow2(bit));
      ReleaseBits(config, Fields(), Holding(), b, result);
      if result != buttons[index] {
        buttons[index] := result;
      }
      pressed := pressed - {b as nat};
      assert buttons[..] == old(buttons[..])[index := result];
      Update(connected);
    }

    /** Position among the included special buttons; not ok from 8 on, where it throws. */
    method SpecialButtonBitPosition(b: byte) returns (bit: nat, ok: bool)
      requires Valid()
      ensures ok == (b < 8)
      ensures ok ==> bit == Rank(config, b) <= b
    {
      hide InScope, Items, ReportSize;
      bit, ok := 0, b < 8;
      if ok {
        for i := 0 to b
          invariant bit == Count(config.special[..i]) <= i
        {
          assert config.special[..i + 1][..i] == config.special[..i];
          if config.special[i] {
            bit := bit + 1;
          }
        }
      }
    }

    /** Touches the included buttons that share the position: only b itself if b is included. */
    method PressSpecial(b: byte, connected: bool) returns (ok: bool)
      requires Valid()
      modifies this
      ensures Valid() && SameSettings() && ok == (b < 8)
      ensures !ok ==> Holding() == old(Holding()) && sent == old(sent)
      ensures ok ==>
                Reported(connected) && Holding() == old(Holding()).(special := old(pressedSpecial) + Touched(config, b))
    {
      hide InScope, Items, Pack, ReportSize, Touched, Or, Pow2, Bit, Rank, ButtonBit;
      var position;
      position, ok := SpecialButtonBitPosition(b);
      if ok {
        var result := Or(specialButtons, Pow2(position % 8));
        PressSpecialBits(config, Fields(), Holding(), b, result);
        if result != specialButtons {
          specialButtons := result;
        }
        pressedSpecial := pressedSpecial + Touched(config, b);
        Update(connected);
      }
    }

    method ReleaseSpecial(b: byte, connected: bool) returns (ok: bool)
      requires Valid()
      modifies this
      ensures Valid() && SameSettings() && ok == (b < 8)
      ensures !ok ==> Holding() == old(Holding()) && sent == old(sent)
      ensures ok ==>
                Reported(connected) && Holding() == old(Holding()).(special := old(pressedSpecial) - Touched(config, b))
    {
      hide InScope, Items, Pack, ReportSize, Touched, AndNot, Pow2, Bit, Rank, ButtonBit;
      var position;
      position, ok := SpecialButtonBitPosition(b);
      if ok {
        var result := AndNot(specialButtons, Pow2(position % 8));
        ReleaseSpecialBits(config, Fields(), Holding(), b, result);
        if result != specialButtons {
          specialButtons := result;
        }
        pressedSpecial := pressedSpecial - Touched(config, b);
        Update(connected);
      }
    }

    method SetLeftThumb(x: int16, y: int16, connected: bool)
      requires Valid()
      modifies this
      ensures Valid() && SameSettings() && Reported(connected)
      ensures Holding() == old(Holding()).(axes := old(axes)[X := NotMinimum(x)][Y := NotMinimum(y)])
    {
      hide InScope, Items, Pack, ReportSize, ButtonBit, Rank;
      axes := axes[X := NotMinimum(x)][Y := NotMinimum(y)];
      Update(connected);
    }

    method SetRightThumb(z: int16, rZ: int16, connected: bool)
      requires Valid()
      modifies this
      ensures Valid() && SameSettings() && Reported(connected)
      ensures Holding() == old(Holding()).(axes := old(axes)[Z := NotMinimum(z)][RZ := NotMinimum(rZ)])
    {
      hide InScope, Items, Pack, ReportSize, ButtonBit, Rank;
      axes := axes[Z := NotMinimum(z)][RZ := NotMinimum(rZ)];
      Update(connected);
    }

    method SetHat1(hat: int8, connected: bool)
      requires Valid()
      modifies this
      ensures Valid() && SameSettings() && Reported(connected)
      ensures Holding() == old(Holding()).(hats := old(hats)[0 := hat])
    {
      hide InScope, Items, Pack, ReportSize, ButtonBit, Rank;
      hats := hats[0 := hat];
      Update(connected);
    }
  }

  lemma SectionBySection(c: Config)
    requires WellSized(c) && c.buttonCount <= 128
    ensures Items(c) == [] + HeaderItems(c) + ButtonItems(c) + SpecialItems(c) + AxisItems(c) + SimulationItems(c)
                        + MotionItems(c.gyroscope, c, GYROSCOPE_USAGES)
                        + MotionItems(c.accelerometer, c, ACCELEROMETER_USAGES)
                        + HatItems(c) + OutputItems(c) + [Item(0xC0, [])]
  {
    hide HeaderItems, ButtonItems, SpecialItems, AxisItems, SimulationItems, MotionItems, HatItems, OutputItems;
  }

  /** begin()'s padding computation. */
  method MissingBits(n: nat) returns (bits: byte)
    ensures bits == PaddingBits(n)
  {
    bits := 8 - n % 8;
    if bits == 8 {
      bits := 0;
    }
  }

  lemma SizeBound(c: Config)
    requires Supported(c)
    ensures ReportSize(c) < 64 && Count(c.special) <= 8 && Count(c.axes) <= 8 && Count(c.simulation) <= 5
  {
    hide Count;
    CountBound(c.special);
    CountBound(c.axes);
    CountBound(c.simulation);
  }

  lemma NothingHeld(c: Config, k: Controls, g: Held)
    requires WellSized(c) && FullSize(k) && k.buttons == seq(16, _ => 0) && k.special == 0
    requires g == Held({}, {}, k.axes, k.simulation, k.gyroscope, k.accelerometer, k.hats)
    ensures Represents(c, k, g)
  {
    hide Bit, Count;
    forall b | 1 <= b <= 128
      ensures !ButtonBit(k.buttons, b)
    {
      ZeroBits((b - 1) % 8);
    }
    forall b | 0 <= b < 8
      ensures !Bit(0, Rank(c, b))
    {
      ZeroBits(Rank(c, b));
    }
  }

  // ------------------------------------------------------------ bits and what is held

  lemma PressBits(c: Config, k: Controls, g: Held, b: nat, result: nat)
    requires Represents(c, k, g) && 1 <= b <= 128
    requires result == Or(k.buttons[(b - 1) / 8], Pow2((b - 1) % 8))
    ensures result < 256
    ensures Represents(c, k.(buttons := k.buttons[(b - 1) / 8 := result]), g.(buttons := g.buttons + {b}))
  {
    hide Bit, Or, Rank;
    var index, bit := (b - 1) / 8, (b - 1) % 8;
    Pow2Values();
    OrWidth(k.buttons[index], Pow2(bit), 8);
    forall b' | 1 <= b' <= 128
      ensures ButtonBit(k.buttons[index := result], b') <==> b' in g.buttons + {b}
    {
      OrBits(k.buttons[index], Pow2(bit), (b' - 1) % 8);
      SingleBit(bit, (b' - 1) % 8);
      assert b' in g.buttons <==> ButtonBit(k.buttons, b');
    }
  }

  lemma ReleaseBits(c: Config, k: Controls, g: Held, b: nat, result: nat)
    requires Represents(c, k, g) && 1 <= b <= 128
    requires result == AndNot(k.buttons[(b - 1) / 8], Pow2((b - 1) % 8))
    ensures result < 256
    ensures Represents(c, k.(buttons := k.buttons[(b - 1) / 8 := result]), g.(buttons := g.buttons - {b}))
  {
    hide Bit, AndNot, Rank;
    var index, bit := (b - 1) / 8, (b - 1) % 8;
    AndNotBound(k.buttons[index], Pow2(bit));
    forall b' | 1 <= b' <= 128
      ensures ButtonBit(k.buttons[index := result], b') <==> b' in g.buttons - {b}
    {
      AndNotBits(k.buttons[index], Pow2(bit), (b' - 1) % 8);
      SingleBit(bit, (b' - 1) % 8);
      assert b' in g.buttons <==> ButtonBit(k.buttons, b');
    }
  }

  lemma PressSpecialBits(c: Config, k: Controls, g: Held, b: nat, result: nat)
    requires Represents(c, k, g) && b < 8 && Rank(c, b) < 8 && result == Or(k.special, Pow2(Rank(c, b)))
    ensures result < 256
    ensures Represents(c, k.(special := result), g.(special := g.special + Touched(c, b)))
  {
    hide Bit, Or, Rank, ButtonBit;
    Pow2Values();
    Pow2Grows(Rank(c, b), 7);
    OrWidth(k.special, Pow2(Rank(c, b)), 8);
    forall j | 0 <= j < 8 && c.special[j]
      ensures Bit(result, Rank(c, j)) <==> j in g.special + Touched(c, b)
    {
      OrBits(k.special, Pow2(Rank(c, b)), Rank(c, j));
      SingleBit(Rank(c, b), Rank(c, j));
    }
  }

  lemma ReleaseSpecialBits(c: Config, k: Controls, g: Held, b: nat, result: nat)
    requires Represents(c, k, g) && b < 8 && Rank(c, b) < 8 && result == AndNot(k.special, Pow2(Rank(c, b)))
    ensures result < 256
    ensures Represents(c, k.(special := result), g.(special := g.special - Touched(c, b)))
  {
    hide Bit, AndNot, Rank, ButtonBit;
    AndNotBound(k.special, Pow2(Rank(c, b)));
    forall j | 0 <= j < 8 && c.special[j]
      ensures Bit(result, Rank(c, j)) <==> j in g.special - Touched(c, b)
    {
      AndNotBits(k.special, Pow2(Rank(c, b)), Rank(c, j));
      SingleBit(Rank(c, b), Rank(c, j));
    }
  }

  lemma {:induction false} Pow2Grows(a: nat, b: nat)
    requires a <= b
    ensures Pow2(a) <= Pow2(b)
    decreases b
  {
    if a < b {
      Pow2Grows(a, b - 1);
    }
  }

  // ------------------------------------------------------------ special button positions

  /** Positions follow the order of the included buttons and stay below their number. */
  lemma RankIsOrderPreserving(c: Config, a: nat, b: nat)
    requires WellSized(c) && a < b < 8 && c.special[a] && c.special[b]
    ensures Rank(c, a) < Rank(c, b) < Count(c.special)
  {
    hide Pick;
    PickAt(c.special[..b], c.special[..b], a);
    assert c.special[..b][..a] == c.special[..a];
    PickAt(c.special, c.special, b);
  }

  /** An included special button's bit is its own. */
  lemma IncludedTouchesItself(c: Config, b: nat)
    requires WellSized(c) && b < 8 && c.special[b]
    ensures Touched(c, b) == {b}
  {
    hide Rank;
    forall j: nat | j in Touched(c, b)
      ensures j == b
    {
      if j < b {
        RankIsOrderPreserving(c, j, b);
      } else if b < j {
        RankIsOrderPreserving(c, b, j);
      }
    }
  }

  /** Calling with a button that is not included is harmless exactly when no included button
      follows it; otherwise it works the next included one. */
  lemma UndeclaredTouchesNext(c: Config, b: nat)
    requires WellSized(c) && b < 8 && !c.special[b]
    ensures Touched(c, b) == {} <==> forall j :: b < j < 8 ==> !c.special[j]
    ensures forall n :: b < n < 8 && c.special[n] && (forall j :: b < j < n ==> !c.special[j]) ==> Touched(c, b) == {n}
  {
    hide Count;
    forall j: nat | j < b && c.special[j]
      ensures j !in Touched(c, b)
    {
      PickAt(c.special[..b], c.special[..b], j);
      assert c.special[..b][..j] == c.special[..j];
    }
    forall n | b < n < 8 && c.special[n] && (forall j :: b < j < n ==> !c.special[j])
      ensures Touched(c, b) == {n}
    {
      SameRank(c, b, n);
      IncludedTouchesItself(c, n);
      assert Touched(c, b) == Touched(c, n);
    }
    if j :| b < j < 8 && c.special[j] {
      var n := NextIncluded(c, b, j);
      assert Touched(c, b) == {n};
    }
  }

  lemma {:induction false} SameRank(c: Config, b: nat, n: nat)
    requires WellSized(c) && b <= n < 8 && forall j :: b <= j < n ==> !c.special[j]
    ensures Rank(c, b) == Rank(c, n)
    decreases n
  {
    if b < n {
      SameRank(c, b, n - 1);
      assert c.special[..n][..n - 1] == c.special[..n - 1];
    }
  }

  lemma {:induction false} NextIncluded(c: Config, b: nat, j: nat) returns (n: nat)
    requires WellSized(c) && b < j < 8 && c.special[j]
    ensures b < n <= j && c.special[n] && forall i :: b < i < n ==> !c.special[i]
    decreases j
  {
    n := j;
    if i :| b < i < j && c.special[i] {
      n := NextIncluded(c, b, i);
    }
  }
}
