/** The report descriptor BleGamepad::begin compiles from a configuration, as a list of
    short items, and what a host reads off it. */
module GamepadDescriptor {
  import opened Bits
  import opened HidDescriptor

  const X := 0
  const Y := 1
  const Z := 2
  const RX := 3
  const RY := 4
  const RZ := 5
  const SLIDER1 := 6
  const SLIDER2 := 7

  const BUTTON_PAGE := 0x09
  const DESKTOP_PAGE := 0x01
  const CONSUMER_PAGE := 0x0C
  const SIMULATION_PAGE := 0x02

  const DESKTOP_BUTTONS: seq<nat> := [0x3D, 0x3E, 0x86]
  const CONSUMER_BUTTONS: seq<nat> := [0x223, 0x224, 0xE9, 0xEA, 0xE2]
  const AXIS_USAGES: seq<nat> := [0x30, 0x31, 0x32, 0x35, 0x33, 0x34, 0x36, 0x36]
  const SIMULATION_USAGES: seq<nat> := [0xBA, 0xBB, 0xC4, 0xC5, 0xC8]
  const GYROSCOPE_USAGES: seq<nat> := [0x33, 0x34, 0x35]
  const ACCELEROMETER_USAGES: seq<nat> := [0x40, 0x41, 0x42]
  const HAT_USAGE: nat := 0x39

  /** BleGamepadConfiguration, as far as descriptor and report depend on it. */
  datatype Config = Config(
    controllerType: byte, hidReportId: byte,
    buttonCount: uint16, hatSwitchCount: byte,
    special: seq<bool>, axes: seq<bool>, simulation: seq<bool>,
    gyroscope: bool, accelerometer: bool,
    axesMin: int16, axesMax: int16,
    simulationMin: int16, simulationMax: int16,
    motionMin: int16, motionMax: int16,
    enableOutputReport: bool, outputReportLength: uint16)

  /** The fixed sizes of the configuration's flag arrays. */
  ghost predicate WellSized(c: Config) {
    |c.special| == 8 && |c.axes| == 8 && |c.simulation| == 5
  }

  /** The elements whose flag is set, in order. */
  function Pick<T>(flags: seq<bool>, xs: seq<T>): (r: seq<T>)
    requires |flags| == |xs|
    ensures |r| == Count(flags)
  {
    if xs == [] then []
    else
      var n := |xs| - 1;
      Pick(flags[..n], xs[..n]) + if flags[n] then [xs[n]] else []
  }

  lemma PickGrows<T>(flags: seq<bool>, xs: seq<T>, k: nat)
    requires k < |flags| == |xs|
    ensures Pick(flags[..k + 1], xs[..k + 1]) == Pick(flags[..k], xs[..k]) + if flags[k] then [xs[k]] else []
  {
    assert flags[..k + 1][..k] == flags[..k] && xs[..k + 1][..k] == xs[..k];
  }

  function Count(flags: seq<bool>): nat {
    if flags == [] then 0
    else Count(flags[..|flags| - 1]) + if flags[|flags| - 1] then 1 else 0
  }

  /** Bits missing to a full byte. */
  function PaddingBits(n: nat): nat {
    if n % 8 == 0 then 0 else 8 - n % 8
  }

  function BytesFor(bits: nat): nat {
    (bits + PaddingBits(bits)) / 8
  }

  /** The axis flags in the order descriptor and report list the axes. */
  function AxisFlags(c: Config): (f: seq<bool>)
    requires WellSized(c)
    ensures |f| == 8
  {
    [c.axes[X], c.axes[Y], c.axes[Z], c.axes[RZ], c.axes[RX], c.axes[RY], c.axes[SLIDER1], c.axes[SLIDER2]]
  }

  function MotionBytes(c: Config): nat {
    (if c.accelerometer then 6 else 0) + (if c.gyroscope then 6 else 0)
  }

  /** hidReportSize. */
  function ReportSize(c: Config): nat {
    BytesFor(c.buttonCount) + BytesFor(Count(c.special)) + 2 * Count(c.axes) + 2 * Count(c.simulation)
    + MotionBytes(c) + c.hatSwitchCount
  }

  // ------------------------------------------------------------ items

  function Word(v: int): seq<byte> {
    [v % 256, (v / 256) % 256]
  }

  function UsageItem(id: nat): Item
    requires id < 0x1_0000
  {
    if id < 256 then Item(0x09, [id]) else Item(0x0A, [id % 256, id / 256])
  }

  ghost predicate Small(ids: seq<nat>) {
    forall k :: 0 <= k < |ids| ==> ids[k] < 0x1_0000
  }

  function UsageItems(ids: seq<nat>): seq<Item>
    requires Small(ids)
  {
    if ids == [] then [] else UsageItems(ids[..|ids| - 1]) + [UsageItem(ids[|ids| - 1])]
  }

  function HeaderItems(c: Config): seq<Item> {
    [Item(0x05, [0x01]), Item(0x09, [c.controllerType]), Item(0xA1, [0x01]), Item(0x85, [c.hidReportId])]
  }

  function BitGlobals(): seq<Item> {
    [Item(0x15, [0x00]), Item(0x25, [0x01]), Item(0x75, [0x01])]
  }

  function PaddingItems(bits: nat): seq<Item>
    requires bits < 8
  {
    if bits > 0 then [Item(0x75, [0x01]), Item(0x95, [bits]), Item(0x81, [0x03])] else []
  }

  function ButtonItems(c: Config): seq<Item>
    requires c.buttonCount <= 128
  {
    if c.buttonCount == 0 then []
    else [Item(0x05, [0x09])] + BitGlobals()
         + [Item(0x19, [0x01]), Item(0x29, [c.buttonCount]), Item(0x95, [c.buttonCount]), Item(0x81, [0x02])]
         + PaddingItems(PaddingBits(c.buttonCount))
  }

  /** One page of special buttons, if any of its buttons is included. */
  function SpecialGroup(page: byte, flags: seq<bool>, ids: seq<nat>): seq<Item>
    requires |flags| == |ids| && |flags| <= 8 && Small(Pick(flags, ids))
  {
    if Count(flags) == 0 then []
    else [Item(0x05, [page]), Item(0x95, [CountByte(flags)])] + UsageItems(Pick(flags, ids)) + [Item(0x81, [0x02])]
  }

  function CountByte(flags: seq<bool>): (b: byte)
    requires |flags| <= 8
    ensures b == Count(flags)
  {
    CountBound(flags);
    Count(flags)
  }

  lemma {:induction false} CountBound(flags: seq<bool>)
    ensures Count(flags) <= |flags|
  {
    if flags != [] {
      CountBound(flags[..|flags| - 1]);
    }
  }

  lemma {:induction false} PickSmall(flags: seq<bool>, ids: seq<nat>)
    requires |flags| == |ids| && Small(ids)
    ensures Small(Pick(flags, ids))
  {
    if ids != [] {
      var n := |ids| - 1;
      PickSmall(flags[..n], ids[..n]);
    }
  }

  function SpecialItems(c: Config): seq<Item>
    requires WellSized(c)
  {
    PickSmall(c.special[..3], DESKTOP_BUTTONS);
    PickSmall(c.special[3..], CONSUMER_BUTTONS);
    if Count(c.special) == 0 then []
    else BitGlobals()
         + SpecialGroup(0x01, c.special[..3], DESKTOP_BUTTONS)
         + SpecialGroup(0x0C, c.special[3..], CONSUMER_BUTTONS)
         + PaddingItems(PaddingBits(Count(c.special)))
  }

  /** Sixteen-bit controls of one page, in a physical collection. */
  function WordControls(page: byte, lmin: int16, lmax: int16, count: byte, ids: seq<nat>): seq<Item>
    requires Small(ids)
  {
    [Item(0x05, [page]), Item(0x16, Word(lmin)), Item(0x26, Word(lmax)), Item(0x75, [0x10])]
    + [Item(0x95, [count]), Item(0xA1, [0x00])]
    + UsageItems(ids)
    + [Item(0x81, [0x02]), Item(0xC0, [])]
  }

  function AxisItems(c: Config): seq<Item>
    requires WellSized(c)
  {
    PickSmall(AxisFlags(c), AXIS_USAGES);
    if Count(c.axes) == 0 then []
    else WordControls(0x01, c.axesMin, c.axesMax, CountByte(c.axes), Pick(AxisFlags(c), AXIS_USAGES))
  }

  function SimulationItems(c: Config): seq<Item>
    requires WellSized(c)
  {
    PickSmall(c.simulation, SIMULATION_USAGES);
    if Count(c.simulation) == 0 then []
    else WordControls(0x02, c.simulationMin, c.simulationMax, CountByte(c.simulation),
                      Pick(c.simulation, SIMULATION_USAGES))
  }

  /** Three motion controls; here the usages come before the globals. */
  function MotionItems(included: bool, c: Config, ids: seq<nat>): seq<Item>
    requires Small(ids)
  {
    if !included then []
    else [Item(0xA1, [0x00]), Item(0x05, [0x01])]
         + UsageItems(ids)
         + [Item(0x16, Word(c.motionMin)), Item(0x26, Word(c.motionMax)), Item(0x75, [0x10]), Item(0x95, [0x03])]
         + [Item(0x81, [0x02]), Item(0xC0, [])]
  }

  function Repeat<T>(x: T, n: nat): (r: seq<T>)
    ensures |r| == n
  {
    if n == 0 then [] else Repeat(x, n - 1) + [x]
  }

  lemma {:induction false} RepeatSmall(n: nat)
    ensures Small(Repeat(HAT_USAGE, n))
  {
    if n > 0 {
      RepeatSmall(n - 1);
    }
  }

  function HatItems(c: Config): seq<Item> {
    RepeatSmall(c.hatSwitchCount);
    if c.hatSwitchCount == 0 then []
    else [Item(0xA1, [0x00]), Item(0x05, [0x01])]
         + UsageItems(Repeat(HAT_USAGE, c.hatSwitchCount))
         + [Item(0x15, [0x01]), Item(0x25, [0x08]), Item(0x35, [0x00]), Item(0x46, [0x3B, 0x01])]
         + [Item(0x65, [0x12]), Item(0x75, [0x08]), Item(0x95, [c.hatSwitchCount]), Item(0x81, [0x42])]
         + [Item(0xC0, [])]
  }

  function OutputItems(c: Config): seq<Item> {
    if !c.enableOutputReport then []
    else [Item(0x06, [0x00, 0xFF]), Item(0x09, [0x01]), Item(0x09, [0x01]), Item(0x15, [0x00])]
         + [Item(0x26, [0xFF, 0x00]), Item(0x75, [0x08]),
            if c.outputReportLength <= 0xFF then Item(0x95, [c.outputReportLength])
            else Item(0x96, Word(c.outputReportLength)),
            Item(0x91, [0x02])]
  }

  function BodyItems(c: Config): seq<Item>
    requires WellSized(c) && c.buttonCount <= 128
  {
    ButtonItems(c) + SpecialItems(c) + AxisItems(c) + SimulationItems(c)
    + MotionItems(c.gyroscope, c, GYROSCOPE_USAGES) + MotionItems(c.accelerometer, c, ACCELEROMETER_USAGES)
    + HatItems(c) + OutputItems(c)
  }

  /** The whole descriptor, item by item. */
  function Items(c: Config): seq<Item>
    requires WellSized(c) && c.buttonCount <= 128
  {
    HeaderItems(c) + BodyItems(c) + [Item(0xC0, [])]
  }

  // ------------------------------------------------------------ what a host lays out

  /** Between sections: no pending usages, so every section starts from a clean slate. */
  ghost predicate Ready(s: Parser) {
    s.ok && s.usages == [] && s.usageMin == 0
  }

  /** t is s after a section that laid out the given fields over the given bits. */
  ghost predicate LaidOut(s: Parser, t: Parser, bits: nat, fields: seq<Field>) {
    Ready(t) && t.depth == s.depth && t.offset == s.offset + bits && t.fields == s.fields + fields
  }

  function On(page: nat, ids: seq<nat>): (u: seq<Usage>)
    ensures |u| == |ids|
  {
    seq(|ids|, k requires 0 <= k < |ids| => Usage(page, ids[k]))
  }

  lemma {:induction false} ApplyUsages(ids: seq<nat>, s: Parser)
    requires Small(ids)
    ensures ApplyAll(UsageItems(ids), s) == s.(usages := s.usages + On(s.page, ids))
  {
    hide Apply, Unsigned, Signed, UsageItem;
    if ids == [] {
      assert s.usages + On(s.page, ids) == s.usages;
    } else {
      var n := |ids| - 1;
      ApplyUsages(ids[..n], s);
      ApplySnoc(UsageItems(ids[..n]), UsageItem(ids[n]), s);
      ApplyUsage(ids[n], s.(usages := s.usages + On(s.page, ids[..n])));
      assert On(s.page, ids) == On(s.page, ids[..n]) + [Usage(s.page, ids[n])];
    }
  }

  lemma ApplyUsage(id: nat, s: Parser)
    requires id < 0x1_0000
    ensures Apply(UsageItem(id), s) == s.(usages := s.usages + [Usage(s.page, id)])
  {
    hide Unsigned, Signed, UsageItem, Input, UsageRange;
    UsageItemValue(id);
  }

  lemma UsageItemValue(id: nat)
    requires id < 0x1_0000
    ensures Unsigned(UsageItem(id).data) == id
    ensures UsageItem(id).prefix - UsageItem(id).prefix % 4 == 0x08
  {
    if id < 256 {
      OneByte(id);
    } else {
      TwoBytes(id % 256, id / 256);
    }
  }

  lemma OneByte(b: byte)
    ensures Unsigned([b]) == b
  {
    assert [b][1..] == [];
  }

  lemma TwoBytes(low: byte, high: byte)
    ensures Unsigned([low, high]) == (low as int) + 256 * (high as int)
  {
    assert [low, high][1..] == [high];
    OneByte(high);
  }

  lemma SignedByte(b: byte)
    requires b < 128
    ensures Signed([b]) == b
  {
    OneByte(b);
  }

  lemma SignedWord(v: int16)
    ensures Signed(Word(v)) == v
  {
    TwoBytes(v % 256, (v / 256) % 256);
    Pow2Values();
    Pow2Sum(8, 8);
  }

  lemma AllAssigned(usages: seq<Usage>)
    requires usages != []
    ensures Assigned(usages, |usages|) == usages
  {
  }
}
