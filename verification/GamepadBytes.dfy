/** The very bytes a host receives: the report map section by section with everything included, and
    the whole of it for the firmware's configuration. */
module GamepadBytes {
  import opened Bits
  import opened HidDescriptor
  import opened GamepadDescriptor
  import opened GamepadReport
  import opened PsxReport

  lemma EncodeFour(a: Item, b: Item, c: Item, d: Item)
    ensures Encode([a, b, c, d]) == ItemBytes(a) + ItemBytes(b) + ItemBytes(c) + ItemBytes(d)
  {
    hide Encode;
    EncodeSnoc([a, b, c], d);
    EncodeThree(a, b, c);
    assert [a, b, c] + [d] == [a, b, c, d];
  }

  lemma EncodeThree(a: Item, b: Item, c: Item)
    ensures Encode([a, b, c]) == ItemBytes(a) + ItemBytes(b) + ItemBytes(c)
  {
    hide Encode;
    EncodeSnoc([a, b], c);
    EncodeTwo(a, b);
    assert [a, b] + [c] == [a, b, c];
  }

  lemma EncodeTwo(a: Item, b: Item)
    ensures Encode([a, b]) == ItemBytes(a) + ItemBytes(b)
  {
    hide Encode;
    EncodeSnoc([a], b);
    EncodeOne(a);
    assert [a] + [b] == [a, b];
  }

  lemma EncodeOne(a: Item)
    ensures Encode([a]) == ItemBytes(a) && Encode([]) == []
  {
    EncodeSnoc([], a);
    assert [] + [a] == [a];
    assert [] + ItemBytes(a) == ItemBytes(a);
  }

  lemma {:induction false} UsageBytes(ids: seq<nat>, k: nat)
    requires k < |ids| && forall j :: 0 <= j < |ids| ==> ids[j] < 256
    ensures var b := Encode(UsageItems(ids));
            |b| == 2 * |ids| && b[2 * k] == 0x09 && b[2 * k + 1] == ids[k]
  {
    hide Encode;
    var n := |ids| - 1;
    EncodeSnoc(UsageItems(ids[..n]), UsageItem(ids[n]));
    if n == 0 {
      EncodeOne(UsageItem(ids[0]));
      assert UsageItems(ids[..0]) == [];
    } else {
      UsageBytes(ids[..n], if k < n then k else 0);
    }
  }

  /** Readings are the values in two's complement, in as many bits as the field has. */
  lemma ReadingsAreSigned(v: int16, h: int8)
    ensures Low16(v) == (if v < 0 then v + 0x1_0000 else v) && Signed(Word(v)) == v
    ensures Low8(h) == (if h < 0 then h + 0x100 else h)
  {
    SignedWord(v);
  }

  /** Hats stand at the end of the report, the first one last. */
  lemma HatsFromTheEnd(c: Config, k: Controls, i: nat)
    requires Supported(c) && FullSize(k) && i < c.hatSwitchCount
    ensures var r := Pack(c, k); |r| > i && r[|r| - 1 - i] == Low8(k.hats[i])
  {
    hide Words, Pick, Low8;
  }

  // ---------------------------------------------------------------- section by section

  lemma HeaderMap(c: Config)
    ensures Encode(HeaderItems(c)) == [0x05, 0x01, 0x09, c.controllerType, 0xA1, 0x01, 0x85, c.hidReportId]
  {
    hide Encode;
    EncodeFour(Item(0x05, [0x01]), Item(0x09, [c.controllerType]), Item(0xA1, [0x01]), Item(0x85, [c.hidReportId]));
  }

  lemma BitGlobalsMap()
    ensures Encode(BitGlobals()) == [0x15, 0x00, 0x25, 0x01, 0x75, 0x01]
  {
    hide Encode;
    EncodeThree(Item(0x15, [0x00]), Item(0x25, [0x01]), Item(0x75, [0x01]));
  }

  lemma NoPadding()
    ensures Encode(PaddingItems(0)) == []
  {
  }

  lemma PaddingMap(bits: nat)
    requires 0 < bits < 8
    ensures Encode(PaddingItems(bits)) == [0x75, 0x01, 0x95, bits, 0x81, 0x03]
  {
    hide Encode;
    EncodeThree(Item(0x75, [0x01]), Item(0x95, [bits]), Item(0x81, [0x03]));
  }

  /** A button section: numbered buttons of one bit each, and the bits to a full byte as constants. */
  lemma ButtonMap(c: Config)
    requires 0 < c.buttonCount <= 128
    ensures Encode(ButtonItems(c))
         == [0x05, 0x09, 0x15, 0x00, 0x25, 0x01, 0x75, 0x01, 0x19, 0x01, 0x29, c.buttonCount, 0x95, c.buttonCount,
             0x81, 0x02]
            + if c.buttonCount % 8 == 0 then [] else [0x75, 0x01, 0x95, 8 - c.buttonCount % 8, 0x81, 0x03]
  {
    hide Encode, BitGlobals, PaddingItems;
    NoPadding();
    var n := c.buttonCount;
    var head := [Item(0x19, [0x01]), Item(0x29, [n]), Item(0x95, [n]), Item(0x81, [0x02])];
    EncodeOne(Item(0x05, [0x09]));
    BitGlobalsMap();
    EncodeFour(Item(0x19, [0x01]), Item(0x29, [n]), Item(0x95, [n]), Item(0x81, [0x02]));
    EncodeAppend([Item(0x05, [0x09])], BitGlobals());
    EncodeAppend([Item(0x05, [0x09])] + BitGlobals(), head);
    EncodeAppend([Item(0x05, [0x09])] + BitGlobals() + head, PaddingItems(PaddingBits(n)));
    if n % 8 != 0 {
      PaddingMap(8 - n % 8);
    }
  }

  lemma WordControlsMap(page: byte, lmin: int16, lmax: int16, count: byte, ids: seq<nat>)
    requires Small(ids)
    ensures Encode(WordControls(page, lmin, lmax, count, ids))
         == [0x05, page, 0x16] + Word(lmin) + [0x26] + Word(lmax) + [0x75, 0x10, 0x95, count, 0xA1, 0x00]
            + Encode(UsageItems(ids)) + [0x81, 0x02, 0xC0]
  {
    hide Encode, Word, UsageItems;
    var a := [Item(0x05, [page]), Item(0x16, Word(lmin)), Item(0x26, Word(lmax)), Item(0x75, [0x10])];
    var b := [Item(0x95, [count]), Item(0xA1, [0x00])];
    var d := [Item(0x81, [0x02]), Item(0xC0, [])];
    EncodeFour(a[0], a[1], a[2], a[3]);
    EncodeTwo(b[0], b[1]);
    EncodeTwo(d[0], d[1]);
    EncodeAppend(a, b);
    EncodeAppend(a + b, UsageItems(ids));
    EncodeAppend(a + b + UsageItems(ids), d);
  }

  /** The axis section with all eight axes. */
  lemma AxisMap(c: Config)
    requires |c.special| == 8 && |c.simulation| == 5 && c.axes == [true, true, true, true, true, true, true, true]
    ensures Encode(AxisItems(c))
         == [0x05, 0x01, 0x16] + Word(c.axesMin) + [0x26] + Word(c.axesMax)
            + [0x75, 0x10, 0x95, 0x08, 0xA1, 0x00, 0x09, 0x30, 0x09, 0x31, 0x09, 0x32, 0x09, 0x35, 0x09, 0x33,
               0x09, 0x34, 0x09, 0x36, 0x09, 0x36, 0x81, 0x02, 0xC0]
  {
    hide Encode, Word, UsageItems, WordControls, AxisItems, AxisFlags;
    AllAxesItems(c);
    WordControlsMap(0x01, c.axesMin, c.axesMax, 8, AXIS_USAGES);
    EightUsages(AXIS_USAGES);
  }

  lemma AllAxesItems(c: Config)
    requires |c.special| == 8 && |c.simulation| == 5 && c.axes == [true, true, true, true, true, true, true, true]
    ensures WellSized(c) && Small(AXIS_USAGES) && forall j :: 0 <= j < 8 ==> AXIS_USAGES[j] < 256
    ensures AxisItems(c) == WordControls(0x01, c.axesMin, c.axesMax, 8, AXIS_USAGES)
  {
    hide WordControls, Pick, Count;
    PickAll(AxisFlags(c), AXIS_USAGES);
    AllCounted(c.axes);
  }

  lemma EightUsages(ids: seq<nat>)
    requires |ids| == 8 && Small(ids) && forall j :: 0 <= j < 8 ==> ids[j] < 256
    ensures Encode(UsageItems(ids))
         == [0x09, ids[0], 0x09, ids[1], 0x09, ids[2], 0x09, ids[3],
             0x09, ids[4], 0x09, ids[5], 0x09, ids[6], 0x09, ids[7]]
  {
    hide Encode, UsageItems;
    UsageBytes(ids, 0);
    UsageBytes(ids, 1);
    UsageBytes(ids, 2);
    UsageBytes(ids, 3);
    UsageBytes(ids, 4);
    UsageBytes(ids, 5);
    UsageBytes(ids, 6);
    UsageBytes(ids, 7);
  }

  lemma {:induction false} AllCounted(flags: seq<bool>)
    requires forall k :: 0 <= k < |flags| ==> flags[k]
    ensures Count(flags) == |flags|
  {
    if flags != [] {
      AllCounted(flags[..|flags| - 1]);
    }
  }

  /** The simulation section with all five controls. */
  lemma SimulationMap(c: Config)
    requires |c.special| == 8 && |c.axes| == 8 && c.simulation == [true, true, true, true, true]
    ensures Encode(SimulationItems(c))
         == [0x05, 0x02, 0x16] + Word(c.simulationMin) + [0x26] + Word(c.simulationMax)
            + [0x75, 0x10, 0x95, 0x05, 0xA1, 0x00, 0x09, 0xBA, 0x09, 0xBB, 0x09, 0xC4, 0x09, 0xC5, 0x09, 0xC8,
               0x81, 0x02, 0xC0]
  {
    hide Encode, Word, UsageItems, WordControls, SimulationItems;
    AllSimulationItems(c);
    WordControlsMap(0x02, c.simulationMin, c.simulationMax, 5, SIMULATION_USAGES);
    FiveUsages(SIMULATION_USAGES);
  }

  lemma AllSimulationItems(c: Config)
    requires |c.special| == 8 && |c.axes| == 8 && c.simulation == [true, true, true, true, true]
    ensures WellSized(c) && Small(SIMULATION_USAGES) && forall j :: 0 <= j < 5 ==> SIMULATION_USAGES[j] < 256
    ensures SimulationItems(c) == WordControls(0x02, c.simulationMin, c.simulationMax, 5, SIMULATION_USAGES)
  {
    hide WordControls, Pick, Count;
    PickAll(c.simulation, SIMULATION_USAGES);
    AllCounted(c.simulation);
  }

  lemma FiveUsages(ids: seq<nat>)
    requires |ids| == 5 && Small(ids) && forall j :: 0 <= j < 5 ==> ids[j] < 256
    ensures Encode(UsageItems(ids))
         == [0x09, ids[0], 0x09, ids[1], 0x09, ids[2], 0x09, ids[3], 0x09, ids[4]]
  {
    hide Encode, UsageItems;
    UsageBytes(ids, 0);
    UsageBytes(ids, 1);
    UsageBytes(ids, 2);
    UsageBytes(ids, 3);
    UsageBytes(ids, 4);
  }

  /** The section of a motion sensor: three controls, usages first. */
  lemma MotionMap(c: Config, ids: seq<nat>)
    requires |ids| == 3 && Small(ids) && forall j :: 0 <= j < 3 ==> ids[j] < 256
    ensures Encode(MotionItems(true, c, ids))
         == [0xA1, 0x00, 0x05, 0x01, 0x09, ids[0], 0x09, ids[1], 0x09, ids[2]]
            + ([0x16] + Word(c.motionMin) + [0x26] + Word(c.motionMax) + [0x75, 0x10, 0x95, 0x03])
            + [0x81, 0x02, 0xC0]
  {
    hide Encode, Word, UsageItems, ItemBytes;
    var a := [Item(0xA1, [0x00]), Item(0x05, [0x01])];
    var b := [Item(0x16, Word(c.motionMin)), Item(0x26, Word(c.motionMax)), Item(0x75, [0x10]), Item(0x95, [0x03])];
    var d := [Item(0x81, [0x02]), Item(0xC0, [])];
    MotionParts(c, a, b, d);
    ThreeUsages(ids);
    EncodeAppend(a, UsageItems(ids));
    EncodeAppend(a + UsageItems(ids), b);
    EncodeAppend(a + UsageItems(ids) + b, d);
  }

  lemma MotionParts(c: Config, a: seq<Item>, b: seq<Item>, d: seq<Item>)
    requires a == [Item(0xA1, [0x00]), Item(0x05, [0x01])] && d == [Item(0x81, [0x02]), Item(0xC0, [])]
    requires b == [Item(0x16, Word(c.motionMin)), Item(0x26, Word(c.motionMax)), Item(0x75, [0x10]), Item(0x95, [0x03])]
    ensures Encode(a) == [0xA1, 0x00, 0x05, 0x01] && Encode(d) == [0x81, 0x02, 0xC0]
    ensures Encode(b) == [0x16] + Word(c.motionMin) + [0x26] + Word(c.motionMax) + [0x75, 0x10, 0x95, 0x03]
  {
    hide Encode, Word;
    EncodeTwo(a[0], a[1]);
    EncodeFour(b[0], b[1], b[2], b[3]);
    EncodeTwo(d[0], d[1]);
  }

  lemma ThreeUsages(ids: seq<nat>)
    requires |ids| == 3 && Small(ids) && forall j :: 0 <= j < 3 ==> ids[j] < 256
    ensures Encode(UsageItems(ids)) == [0x09, ids[0], 0x09, ids[1], 0x09, ids[2]]
  {
    hide Encode, UsageItems;
    UsageBytes(ids, 0);
    UsageBytes(ids, 1);
    UsageBytes(ids, 2);
  }

  /** The special button section with all eight: three on the desktop page, five on the consumer
      page, Home and Back with two-byte usages. */
  lemma SpecialMap(c: Config)
    requires |c.axes| == 8 && |c.simulation| == 5 && c.special == [true, true, true, true, true, true, true, true]
    ensures Encode(SpecialItems(c))
         == [0x15, 0x00, 0x25, 0x01, 0x75, 0x01]
            + ([0x05, 0x01, 0x95, 0x03, 0x09, 0x3D, 0x09, 0x3E, 0x09, 0x86, 0x81, 0x02])
            + ([0x05, 0x0C, 0x95, 0x05]
               + [0x0A, 0x23, 0x02, 0x0A, 0x24, 0x02, 0x09, 0xE9, 0x09, 0xEA, 0x09, 0xE2] + [0x81, 0x02])
  {
    hide Encode, UsageItems, SpecialGroup, SpecialItems, BitGlobals, Pick;
    AllSpecialItems(c);
    var head, desktop, consumer := BitGlobals(), SpecialGroup(0x01, c.special[..3], DESKTOP_BUTTONS),
        SpecialGroup(0x0C, c.special[3..], CONSUMER_BUTTONS);
    BitGlobalsMap();
    GroupMap(0x01, c.special[..3], DESKTOP_BUTTONS);
    GroupMap(0x0C, c.special[3..], CONSUMER_BUTTONS);
    ThreeUsages(DESKTOP_BUTTONS);
    ConsumerUsages();
    EncodeAppend(head, desktop);
    EncodeAppend(head + desktop, consumer);
  }

  lemma AllSpecialItems(c: Config)
    requires |c.axes| == 8 && |c.simulation| == 5 && c.special == [true, true, true, true, true, true, true, true]
    ensures Small(Pick(c.special[..3], DESKTOP_BUTTONS)) && Small(Pick(c.special[3..], CONSUMER_BUTTONS))
    ensures SpecialItems(c)
         == BitGlobals() + SpecialGroup(0x01, c.special[..3], DESKTOP_BUTTONS)
            + SpecialGroup(0x0C, c.special[3..], CONSUMER_BUTTONS)
  {
    hide SpecialGroup, Pick, Count;
    PickSmall(c.special[..3], DESKTOP_BUTTONS);
    PickSmall(c.special[3..], CONSUMER_BUTTONS);
    AllCounted(c.special);
    assert PaddingItems(PaddingBits(8)) == [];
  }

  lemma GroupMap(page: byte, flags: seq<bool>, ids: seq<nat>)
    requires 0 < |flags| == |ids| <= 8 && Small(ids) && Small(Pick(flags, ids))
    requires forall k :: 0 <= k < |flags| ==> flags[k]
    ensures Encode(SpecialGroup(page, flags, ids))
         == [0x05, page, 0x95, |ids|] + Encode(UsageItems(ids)) + [0x81, 0x02]
  {
    hide Encode, UsageItems, Pick, Count;
    PickAll(flags, ids);
    AllCounted(flags);
    var head, last := [Item(0x05, [page]), Item(0x95, [|ids|])], [Item(0x81, [0x02])];
    EncodeTwo(head[0], head[1]);
    EncodeOne(last[0]);
    EncodeAppend(head, UsageItems(ids));
    EncodeAppend(head + UsageItems(ids), last);
  }

  lemma ConsumerUsages()
    ensures Encode(UsageItems(CONSUMER_BUTTONS))
         == [0x0A, 0x23, 0x02, 0x0A, 0x24, 0x02, 0x09, 0xE9, 0x09, 0xEA, 0x09, 0xE2]
  {
    hide Encode, UsageItems;
    var ids := CONSUMER_BUTTONS;
    NextUsage(ids, 0);
    NextUsage(ids, 1);
    NextUsage(ids, 2);
    NextUsage(ids, 3);
    NextUsage(ids, 4);
    assert ids[..5] == ids;
  }

  lemma NextUsage(ids: seq<nat>, k: nat)
    requires k < |ids| && Small(ids)
    ensures Encode(UsageItems(ids[..0])) == []
    ensures Encode(UsageItems(ids[..k + 1])) == Encode(UsageItems(ids[..k]))
            + (if ids[k] < 256 then [0x09, ids[k]] else [0x0A, ids[k] % 256, ids[k] / 256])
  {
    assert ids[..k + 1][..k] == ids[..k];
    EncodeSnoc(UsageItems(ids[..k]), UsageItem(ids[k]));
  }

  /** The output section: one or two bytes of count, as the length needs. */
  lemma OutputMap(c: Config)
    requires c.enableOutputReport
    ensures Encode(OutputItems(c))
         == [0x06, 0x00, 0xFF, 0x09, 0x01, 0x09, 0x01, 0x15, 0x00]
            + ([0x26, 0xFF, 0x00, 0x75, 0x08]
               + (if c.outputReportLength <= 0xFF then [0x95, c.outputReportLength]
                  else [0x96, c.outputReportLength % 256, c.outputReportLength / 256])
               + [0x91, 0x02])
  {
    hide Encode;
    var n := c.outputReportLength;
    var count := if n <= 0xFF then Item(0x95, [n]) else Item(0x96, Word(n));
    var head := [Item(0x06, [0x00, 0xFF]), Item(0x09, [0x01]), Item(0x09, [0x01]), Item(0x15, [0x00])];
    EncodeFour(head[0], head[1], head[2], head[3]);
    EncodeFour(Item(0x26, [0xFF, 0x00]), Item(0x75, [0x08]), count, Item(0x91, [0x02]));
    EncodeAppend(head, [Item(0x26, [0xFF, 0x00]), Item(0x75, [0x08]), count, Item(0x91, [0x02])]);
  }

  /** The hat section with one hat: eight directions over 315 degrees, and a null state. */
  lemma HatMap(c: Config)
    requires c.hatSwitchCount == 1
    ensures Encode(HatItems(c))
         == [0xA1, 0x00, 0x05, 0x01, 0x09, 0x39, 0x15, 0x01, 0x25, 0x08, 0x35, 0x00, 0x46, 0x3B, 0x01,
             0x65, 0x12, 0x75, 0x08, 0x95, 0x01, 0x81, 0x42, 0xC0]
  {
    hide Encode, UsageItems, Repeat, ItemBytes;
    OneHat();
    var a, u := [Item(0xA1, [0x00]), Item(0x05, [0x01])], UsageItems(Repeat(HAT_USAGE, 1));
    HatParts(a, HatRange(), HatShape(1));
    EncodeAppend(a, u);
    EncodeAppend(a + u, HatRange());
    EncodeAppend(a + u + HatRange(), HatShape(1));
    EncodeAppend(a + u + HatRange() + HatShape(1), [Item(0xC0, [])]);
    assert HatItems(c) == a + u + HatRange() + HatShape(1) + [Item(0xC0, [])];
  }

  function HatRange(): seq<Item> {
    [Item(0x15, [0x01]), Item(0x25, [0x08]), Item(0x35, [0x00]), Item(0x46, [0x3B, 0x01])]
  }

  function HatShape(count: byte): seq<Item> {
    [Item(0x65, [0x12]), Item(0x75, [0x08]), Item(0x95, [count]), Item(0x81, [0x42])]
  }

  lemma HatParts(a: seq<Item>, b: seq<Item>, d: seq<Item>)
    requires a == [Item(0xA1, [0x00]), Item(0x05, [0x01])] && b == HatRange() && d == HatShape(1)
    ensures Encode(a) == [0xA1, 0x00, 0x05, 0x01]
    ensures Encode(b) == [0x15, 0x01, 0x25, 0x08, 0x35, 0x00, 0x46, 0x3B, 0x01]
    ensures Encode(d) == [0x65, 0x12, 0x75, 0x08, 0x95, 0x01, 0x81, 0x42]
    ensures Encode([Item(0xC0, [])]) == [0xC0]
  {
    hide Encode;
    EncodeTwo(a[0], a[1]);
    EncodeFour(b[0], b[1], b[2], b[3]);
    EncodeFour(d[0], d[1], d[2], d[3]);
    EncodeOne(Item(0xC0, []));
  }

  lemma OneHat()
    ensures Small(Repeat(HAT_USAGE, 1)) && Encode(UsageItems(Repeat(HAT_USAGE, 1))) == [0x09, 0x39]
  {
    assert Repeat(HAT_USAGE, 0) == [];
    assert Repeat(HAT_USAGE, 1) == [HAT_USAGE];
    UsageBytes([HAT_USAGE], 0);
  }

  /** The report map the firmware's configuration compiles to, byte by byte. */
  lemma PsxReportMap()
    ensures Encode(Items(PSX_CONFIG))
         == [0x05, 0x01, 0x09, 0x05, 0xA1, 0x01, 0x85, 0x03]
            + [0x05, 0x09, 0x15, 0x00, 0x25, 0x01, 0x75, 0x01, 0x19, 0x01, 0x29, 0x10, 0x95, 0x10, 0x81, 0x02]
            + [0x05, 0x01, 0x16, 0x00, 0x00, 0x26, 0xFF, 0x7F, 0x75, 0x10, 0x95, 0x08, 0xA1, 0x00,
               0x09, 0x30, 0x09, 0x31, 0x09, 0x32, 0x09, 0x35, 0x09, 0x33, 0x09, 0x34, 0x09, 0x36, 0x09, 0x36,
               0x81, 0x02, 0xC0]
            + [0xA1, 0x00, 0x05, 0x01, 0x09, 0x39, 0x15, 0x01, 0x25, 0x08, 0x35, 0x00, 0x46, 0x3B, 0x01,
               0x65, 0x12, 0x75, 0x08, 0x95, 0x01, 0x81, 0x42, 0xC0]
            + [0xC0]
  {
    hide *;
    var c := PSX_CONFIG;
    NothingElse();
    SectionsInOrder(c);
    PsxHeaderAndButtons();
    PsxAxes();
    PsxHat();
  }

  lemma PsxHeaderAndButtons()
    ensures Encode(HeaderItems(PSX_CONFIG)) == [0x05, 0x01, 0x09, 0x05, 0xA1, 0x01, 0x85, 0x03]
    ensures Encode(ButtonItems(PSX_CONFIG))
         == [0x05, 0x09, 0x15, 0x00, 0x25, 0x01, 0x75, 0x01, 0x19, 0x01, 0x29, 0x10, 0x95, 0x10, 0x81, 0x02]
  {
    hide Encode, HeaderItems, ButtonItems;
    HeaderMap(PSX_CONFIG);
    ButtonMap(PSX_CONFIG);
  }

  lemma PsxAxes()
    ensures Encode(AxisItems(PSX_CONFIG))
         == [0x05, 0x01, 0x16, 0x00, 0x00, 0x26, 0xFF, 0x7F, 0x75, 0x10, 0x95, 0x08, 0xA1, 0x00,
             0x09, 0x30, 0x09, 0x31, 0x09, 0x32, 0x09, 0x35, 0x09, 0x33, 0x09, 0x34, 0x09, 0x36, 0x09, 0x36,
             0x81, 0x02, 0xC0]
  {
    hide Encode, AxisItems;
    AxisMap(PSX_CONFIG);
  }

  lemma PsxHat()
    ensures Encode(HatItems(PSX_CONFIG))
         == [0xA1, 0x00, 0x05, 0x01, 0x09, 0x39, 0x15, 0x01, 0x25, 0x08, 0x35, 0x00, 0x46, 0x3B, 0x01,
             0x65, 0x12, 0x75, 0x08, 0x95, 0x01, 0x81, 0x42, 0xC0]
  {
    hide Encode, HatItems;
    HatMap(PSX_CONFIG);
  }

  /** The sections follow each other in a fixed order, and one end-of-collection byte closes all. */
  lemma SectionsInOrder(c: Config)
    requires WellSized(c) && c.buttonCount <= 128
    ensures Encode(Items(c))
         == Encode(HeaderItems(c)) + Encode(ButtonItems(c)) + Encode(SpecialItems(c)) + Encode(AxisItems(c))
            + Encode(SimulationItems(c)) + Encode(MotionItems(c.gyroscope, c, GYROSCOPE_USAGES))
            + Encode(MotionItems(c.accelerometer, c, ACCELEROMETER_USAGES)) + Encode(HatItems(c))
            + Encode(OutputItems(c)) + [0xC0]
  {
    hide Encode, HeaderItems, ButtonItems, SpecialItems, AxisItems, SimulationItems, MotionItems, HatItems, OutputItems;
    var s1 := ButtonItems(c) + SpecialItems(c);
    var s2 := s1 + AxisItems(c) + SimulationItems(c);
    var s3 := s2 + MotionItems(c.gyroscope, c, GYROSCOPE_USAGES);
    var s4 := s3 + MotionItems(c.accelerometer, c, ACCELEROMETER_USAGES);
    EncodeOne(Item(0xC0, []));
    EncodeAppend(HeaderItems(c) + BodyItems(c), [Item(0xC0, [])]);
    EncodeAppend(HeaderItems(c), BodyItems(c));
    EncodeAppend(s4 + HatItems(c), OutputItems(c));
    EncodeAppend(s4, HatItems(c));
    EncodeAppend(s3, MotionItems(c.accelerometer, c, ACCELEROMETER_USAGES));
    EncodeAppend(s2, MotionItems(c.gyroscope, c, GYROSCOPE_USAGES));
    EncodeAppend(s1 + AxisItems(c), SimulationItems(c));
    EncodeAppend(s1, AxisItems(c));
    EncodeAppend(ButtonItems(c), SpecialItems(c));
  }

  lemma NothingElse()
    ensures WellSized(PSX_CONFIG) && PSX_CONFIG.buttonCount <= 128 && Encode([]) == []
    ensures SpecialItems(PSX_CONFIG) == SimulationItems(PSX_CONFIG) == OutputItems(PSX_CONFIG) == []
    ensures MotionItems(PSX_CONFIG.gyroscope, PSX_CONFIG, GYROSCOPE_USAGES) == []
    ensures MotionItems(PSX_CONFIG.accelerometer, PSX_CONFIG, ACCELEROMETER_USAGES) == []
  {
    NoneCounted(PSX_CONFIG.special);
    NoneCounted(PSX_CONFIG.simulation);
  }

  lemma {:induction false} NoneCounted(flags: seq<bool>)
    requires forall k :: 0 <= k < |flags| ==> !flags[k]
    ensures Count(flags) == 0
  {
    if flags != [] {
      NoneCounted(flags[..|flags| - 1]);
    }
  }
}
