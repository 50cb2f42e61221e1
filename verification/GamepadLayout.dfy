/** Section by section, what a host lays out when it parses the gamepad's descriptor. */
module GamepadLayout {
  import opened Bits
  import opened HidDescriptor
  import opened GamepadDescriptor

  function PaddingFields(offset: nat, bits: nat): seq<Field> {
    if bits > 0 then [Padding(offset, bits)] else []
  }

  function ButtonFields(c: Config, offset: nat): seq<Field> {
    Layout(offset, 1, UsageRange(BUTTON_PAGE, 1, c.buttonCount), 0, 1)
    + PaddingFields(offset + c.buttonCount, PaddingBits(c.buttonCount))
  }

  function SpecialFields(c: Config, offset: nat): seq<Field>
    requires WellSized(c)
  {
    var desktop, consumer := Pick(c.special[..3], DESKTOP_BUTTONS), Pick(c.special[3..], CONSUMER_BUTTONS);
    Layout(offset, 1, On(DESKTOP_PAGE, desktop), 0, 1)
    + Layout(offset + |desktop|, 1, On(CONSUMER_PAGE, consumer), 0, 1)
    + PaddingFields(offset + Count(c.special), PaddingBits(Count(c.special)))
  }

  function AxisFields(c: Config, offset: nat): seq<Field>
    requires WellSized(c)
  {
    Layout(offset, 16, On(DESKTOP_PAGE, Pick(AxisFlags(c), AXIS_USAGES)), c.axesMin, c.axesMax)
  }

  function SimulationFields(c: Config, offset: nat): seq<Field>
    requires WellSized(c)
  {
    Layout(offset, 16, On(SIMULATION_PAGE, Pick(c.simulation, SIMULATION_USAGES)), c.simulationMin, c.simulationMax)
  }

  function MotionFields(included: bool, c: Config, ids: seq<nat>, offset: nat): seq<Field> {
    if included then Layout(offset, 16, On(DESKTOP_PAGE, ids), c.motionMin, c.motionMax) else []
  }

  function HatFields(c: Config, offset: nat): seq<Field> {
    Layout(offset, 8, On(DESKTOP_PAGE, Repeat(HAT_USAGE, c.hatSwitchCount)), 1, 8)
  }

  /** Byte offsets at which the sections start. */
  function SpecialAt(c: Config): nat { BytesFor(c.buttonCount) }
  function AxesAt(c: Config): nat { SpecialAt(c) + BytesFor(Count(c.special)) }
  function SimulationAt(c: Config): nat { AxesAt(c) + 2 * Count(c.axes) }
  function GyroscopeAt(c: Config): nat { SimulationAt(c) + 2 * Count(c.simulation) }
  function AccelerometerAt(c: Config): nat { GyroscopeAt(c) + if c.gyroscope then 6 else 0 }
  function HatsAt(c: Config): nat { AccelerometerAt(c) + if c.accelerometer then 6 else 0 }

  function AllFields(c: Config): seq<Field>
    requires WellSized(c)
  {
    ButtonFields(c, 0) + SpecialFields(c, 8 * SpecialAt(c)) + AxisFields(c, 8 * AxesAt(c))
    + SimulationFields(c, 8 * SimulationAt(c))
    + MotionFields(c.gyroscope, c, GYROSCOPE_USAGES, 8 * GyroscopeAt(c))
    + MotionFields(c.accelerometer, c, ACCELEROMETER_USAGES, 8 * AccelerometerAt(c))
    + HatFields(c, 8 * HatsAt(c))
  }

  // ------------------------------------------------------------ items one by one

  lemma ByteItem(b: byte, s: Parser)
    ensures Apply(Item(0x05, [b]), s) == s.(page := b)
    ensures Apply(Item(0x75, [b]), s) == s.(size := b)
    ensures Apply(Item(0x95, [b]), s) == s.(count := b)
    ensures Apply(Item(0x19, [b]), s) == s.(usageMin := b)
    ensures Apply(Item(0x29, [b]), s) == s.(usages := s.usages + UsageRange(s.page, s.usageMin, b))
  {
    hide Unsigned, Signed, Input, UsageRange;
    OneByte(b);
  }

  lemma MainItem(b: byte, s: Parser)
    ensures Apply(Item(0x81, [b]), s) == Input(b, s)
    ensures Apply(Item(0xA1, [b]), s) == EndMain(s.(depth := s.depth + 1))
    ensures s.depth > 0 ==> Apply(Item(0xC0, []), s) == EndMain(s.(depth := s.depth - 1))
  {
    hide Unsigned, Signed, Input, UsageRange;
    OneByte(b);
  }

  lemma LogicalByte(b: byte, s: Parser)
    requires b < 128
    ensures Apply(Item(0x15, [b]), s) == s.(lmin := b)
    ensures Apply(Item(0x25, [b]), s) == s.(lmax := b)
  {
    hide Unsigned, Signed, Input, UsageRange;
    SignedByte(b);
  }

  lemma LogicalWord(v: int16, s: Parser)
    ensures Apply(Item(0x16, Word(v)), s) == s.(lmin := v)
    ensures Apply(Item(0x26, Word(v)), s) == s.(lmax := v)
  {
    hide Unsigned, Signed, Input, UsageRange, Word;
    SignedWord(v);
  }

  // ------------------------------------------------------------ sections

  lemma Chained(s: Parser, t: Parser, u: Parser, b1: nat, f1: seq<Field>, b2: nat, f2: seq<Field>)
    requires LaidOut(s, t, b1, f1) && LaidOut(t, u, b2, f2)
    ensures LaidOut(s, u, b1 + b2, f1 + f2)
  {
  }

  lemma NothingLaidOut(s: Parser)
    requires Ready(s)
    ensures LaidOut(s, ApplyAll([], s), 0, [])
  {
  }

  /** Data variables: as many controls as pending usages. */
  lemma InputOf(s: Parser, flags: nat)
    requires s.ok && s.usages != [] && s.count == |s.usages| && flags % 4 == 2
    ensures Input(flags, s) == EndMain(s.(offset := s.offset + s.size * |s.usages|,
                    fields := s.fields + Layout(s.offset, s.size, s.usages, s.lmin, s.lmax)))
  {
    hide Assigned, Layout;
    AllAssigned(s.usages);
  }

  lemma PaddingSection(bits: nat, s: Parser)
    requires bits < 8 && Ready(s)
    ensures LaidOut(s, ApplyAll(PaddingItems(bits), s), bits, PaddingFields(s.offset, bits))
  {
    hide ApplyAll, Apply, Layout, Assigned;
    if bits == 0 {
      NothingLaidOut(s);
    } else {
      var a, b, c := Item(0x75, [0x01]), Item(0x95, [bits]), Item(0x81, [0x03]);
      assert PaddingItems(bits) == [a, b] + [c];
      ApplyAppend([a, b], [c], s);
      Apply2(a, b, s);
      ByteItem(1, s);
      ByteItem(bits, s.(size := 1));
      var t := s.(size := 1, count := bits);
      Apply1(c, t);
      MainItem(3, t);
    }
  }

  lemma BitGlobalsApplied(s: Parser)
    ensures ApplyAll(BitGlobals(), s) == s.(lmin := 0, lmax := 1, size := 1)
  {
    hide ApplyAll, Apply;
    var a, b, c := Item(0x15, [0x00]), Item(0x25, [0x01]), Item(0x75, [0x01]);
    assert BitGlobals() == [a, b] + [c];
    ApplyAppend([a, b], [c], s);
    Apply2(a, b, s);
    LogicalByte(0, s);
    LogicalByte(1, s.(lmin := 0));
    var t := s.(lmin := 0, lmax := 1);
    Apply1(c, t);
    ByteItem(1, t);
  }

  lemma ButtonSection(c: Config, s: Parser)
    requires c.buttonCount <= 128 && Ready(s)
    ensures LaidOut(s, ApplyAll(ButtonItems(c), s), 8 * BytesFor(c.buttonCount), ButtonFields(c, s.offset))
  {
    hide ApplyAll, Apply, Layout, UsageRange, PaddingItems, BitGlobals;
    var n := c.buttonCount;
    assert 8 * BytesFor(n) == n + PaddingBits(n);
    if n == 0 {
      NothingLaidOut(s);
      NoButtons(c, s.offset);
    } else {
      var page, pad := Item(0x05, [0x09]), PaddingItems(PaddingBits(n));
      var rest := [Item(0x19, [0x01]), Item(0x29, [n]), Item(0x95, [n]), Item(0x81, [0x02])];
      ApplyAppend([page] + BitGlobals() + rest, pad, s);
      ApplyAppend([page] + BitGlobals(), rest, s);
      ApplyAppend([page], BitGlobals(), s);
      Apply1(page, s);
      ByteItem(9, s);
      BitGlobalsApplied(s.(page := 9));
      ButtonBlock(n, s.(page := 9, lmin := 0, lmax := 1, size := 1));
      PaddingSection(PaddingBits(n), ApplyAll([page] + BitGlobals() + rest, s));
    }
  }

  lemma NoButtons(c: Config, offset: nat)
    requires c.buttonCount == 0
    ensures ButtonFields(c, offset) == []
  {
  }

  lemma ButtonBlock(n: byte, s: Parser)
    requires 0 < n && Ready(s) && s.page == 9 && s.lmin == 0 && s.lmax == 1 && s.size == 1
    ensures LaidOut(s, ApplyAll([Item(0x19, [0x01]), Item(0x29, [n]), Item(0x95, [n]), Item(0x81, [0x02])], s),
                    n, Layout(s.offset, 1, UsageRange(BUTTON_PAGE, 1, n), 0, 1))
  {
    hide ApplyAll, Apply, Layout, Input;
    var us := UsageRange(BUTTON_PAGE, 1, n);
    Apply4(Item(0x19, [0x01]), Item(0x29, [n]), Item(0x95, [n]), Item(0x81, [0x02]), s);
    ByteItem(1, s);
    ByteItem(n, s.(usageMin := 1));
    assert [] + us == us;
    ByteItem(n, s.(usageMin := 1, usages := us));
    var t := s.(usageMin := 1, usages := us, count := n);
    MainItem(2, t);
    InputOf(t, 2);
  }

  lemma SpecialGroupSection(page: byte, flags: seq<bool>, ids: seq<nat>, s: Parser)
    requires |flags| == |ids| && |flags| <= 8 && Small(Pick(flags, ids))
    requires Ready(s) && s.lmin == 0 && s.lmax == 1 && s.size == 1
    ensures var t := ApplyAll(SpecialGroup(page, flags, ids), s);
            LaidOut(s, t, Count(flags), Layout(s.offset, 1, On(page, Pick(flags, ids)), 0, 1))
            && t.lmin == 0 && t.lmax == 1 && t.size == 1
  {
    hide ApplyAll, Apply, UsageItems, Pick, Count, CountByte, On;
    if Count(flags) == 0 {
      NothingLaidOut(s);
      NoItems(s);
    } else {
      OneBitControls(page, CountByte(flags), Pick(flags, ids), s);
    }
  }

  lemma OneBitControls(page: byte, n: byte, us: seq<nat>, s: Parser)
    requires Small(us) && n == |us| > 0 && Ready(s) && s.lmin == 0 && s.lmax == 1 && s.size == 1
    ensures var t := ApplyAll([Item(0x05, [page]), Item(0x95, [n])] + UsageItems(us) + [Item(0x81, [0x02])], s);
            LaidOut(s, t, n, Layout(s.offset, 1, On(page, us), 0, 1)) && t.lmin == 0 && t.lmax == 1 && t.size == 1
  {
    hide ApplyAll, Apply, UsageItems, Input, Layout, On, Small;
    var a, b, input := Item(0x05, [page]), Item(0x95, [n]), Item(0x81, [0x02]);
    ApplyAppend([a, b] + UsageItems(us), [input], s);
    ApplyAppend([a, b], UsageItems(us), s);
    Apply2(a, b, s);
    ByteItem(page, s);
    ByteItem(n, s.(page := page));
    var s1 := s.(page := page, count := n);
    ApplyUsages(us, s1);
    assert [] + On(page, us) == On(page, us);
    var s2 := s1.(usages := On(page, us));
    Apply1(input, s2);
    MainItem(2, s2);
    InputOf(s2, 2);
  }

  lemma NoItems(s: Parser)
    ensures ApplyAll([], s) == s
  {
  }

  lemma SpecialSection(c: Config, s: Parser)
    requires WellSized(c) && Ready(s)
    ensures LaidOut(s, ApplyAll(SpecialItems(c), s), 8 * BytesFor(Count(c.special)), SpecialFields(c, s.offset))
  {
    hide ApplyAll, Apply, SpecialGroup, Pick, Count, On, PaddingItems, BitGlobals, Small;
    PickSmall(c.special[..3], DESKTOP_BUTTONS);
    PickSmall(c.special[3..], CONSUMER_BUTTONS);
    CountSplit(c.special, 3);
    var n := Count(c.special);
    var d, k := SpecialGroup(0x01, c.special[..3], DESKTOP_BUTTONS),
        SpecialGroup(0x0C, c.special[3..], CONSUMER_BUTTONS);
    var pad := PaddingItems(PaddingBits(n));
    assert 8 * BytesFor(n) == n + PaddingBits(n);
    if n == 0 {
      NothingLaidOut(s);
      assert |Pick(c.special[..3], DESKTOP_BUTTONS)| == 0 && |Pick(c.special[3..], CONSUMER_BUTTONS)| == 0;
    } else {
      ApplyAppend(BitGlobals() + d + k, pad, s);
      ApplyAppend(BitGlobals() + d, k, s);
      ApplyAppend(BitGlobals(), d, s);
      BitGlobalsApplied(s);
      var s1 := s.(lmin := 0, lmax := 1, size := 1);
      SpecialGroupSection(0x01, c.special[..3], DESKTOP_BUTTONS, s1);
      var s2 := ApplyAll(d, s1);
      SpecialGroupSection(0x0C, c.special[3..], CONSUMER_BUTTONS, s2);
      PaddingSection(PaddingBits(n), ApplyAll(k, s2));
    }
  }

  lemma {:induction false} CountSplit(flags: seq<bool>, k: nat)
    requires k <= |flags|
    ensures Count(flags) == Count(flags[..k]) + Count(flags[k..])
  {
    if k == |flags| {
      assert flags[..k] == flags;
    } else {
      var n := |flags| - 1;
      CountSplit(flags[..n], k);
      assert flags[..n][..k] == flags[..k];
      assert flags[..n][k..] == flags[k..][..n - k];
    }
  }

  lemma WordControlsSection(page: byte, lmin: int16, lmax: int16, count: byte, ids: seq<nat>, s: Parser)
    requires Small(ids) && count == |ids| > 0 && Ready(s)
    ensures LaidOut(s, ApplyAll(WordControls(page, lmin, lmax, count, ids), s), 16 * |ids|,
                    Layout(s.offset, 16, On(page, ids), lmin, lmax))
  {
    hide ApplyAll, Apply, UsageItems, Layout, On, Word;
    var a := [Item(0x05, [page]), Item(0x16, Word(lmin)), Item(0x26, Word(lmax)), Item(0x75, [0x10])];
    var b := [Item(0x95, [count]), Item(0xA1, [0x00])];
    var e := [Item(0x81, [0x02]), Item(0xC0, [])];
    ApplyAppend(a + b + UsageItems(ids), e, s);
    ApplyAppend(a + b, UsageItems(ids), s);
    ApplyAppend(a, b, s);
    Apply4(a[0], a[1], a[2], a[3], s);
    ByteItem(page, s);
    LogicalWord(lmin, s.(page := page));
    LogicalWord(lmax, s.(page := page, lmin := lmin));
    ByteItem(0x10, s.(page := page, lmin := lmin, lmax := lmax));
    var s1 := s.(page := page, lmin := lmin, lmax := lmax, size := 16);
    Apply2(b[0], b[1], s1);
    ByteItem(count, s1);
    MainItem(0, s1.(count := count));
    WordControlsTail(page, ids, s1.(count := count, depth := s.depth + 1));
  }

  lemma WordControlsTail(page: nat, ids: seq<nat>, s: Parser)
    requires Small(ids) && s.page == page && s.count == |ids| > 0 && s.size == 16 && Ready(s) && s.depth > 0
    ensures LaidOut(s.(depth := s.depth - 1),
                    ApplyAll([Item(0x81, [0x02]), Item(0xC0, [])], ApplyAll(UsageItems(ids), s)),
                    16 * |ids|, Layout(s.offset, 16, On(page, ids), s.lmin, s.lmax))
  {
    hide ApplyAll, Apply, UsageItems, Layout, On, Input, LaidOut;
    ApplyUsages(ids, s);
    assert [] + On(page, ids) == On(page, ids);
    WordControlsEnd(On(page, ids), s);
  }

  lemma WordControlsEnd(us: seq<Usage>, s: Parser)
    requires s.count == |us| > 0 && s.size == 16 && Ready(s) && s.depth > 0
    ensures LaidOut(s.(depth := s.depth - 1), ApplyAll([Item(0x81, [0x02]), Item(0xC0, [])], s.(usages := us)),
                    16 * |us|, Layout(s.offset, 16, us, s.lmin, s.lmax))
  {
    hide ApplyAll, Apply, Layout, Input;
    var t := s.(usages := us);
    Apply2(Item(0x81, [0x02]), Item(0xC0, []), t);
    MainItem(2, t);
    InputOf(t, 2);
    MainItem(2, Input(2, t));
  }

  lemma AxisSection(c: Config, s: Parser)
    requires WellSized(c) && Ready(s)
    ensures LaidOut(s, ApplyAll(AxisItems(c), s), 16 * Count(c.axes), AxisFields(c, s.offset))
  {
    hide ApplyAll, Pick, Count, WordControls, Small;
    PickSmall(AxisFlags(c), AXIS_USAGES);
    SameAxisCount(c);
    if Count(c.axes) == 0 {
      NothingLaidOut(s);
    } else {
      WordControlsSection(0x01, c.axesMin, c.axesMax, CountByte(c.axes), Pick(AxisFlags(c), AXIS_USAGES), s);
    }
  }

  /** Listing the axes in another order does not change how many there are. */
  lemma SameAxisCount(c: Config)
    requires WellSized(c)
    ensures Count(AxisFlags(c)) == Count(c.axes)
  {
    CountEight(AxisFlags(c));
    CountEight(c.axes);
  }

  function One(b: bool): nat {
    if b then 1 else 0
  }

  lemma CountEight(f: seq<bool>)
    requires |f| == 8
    ensures Count(f) == One(f[0]) + One(f[1]) + One(f[2]) + One(f[3]) + One(f[4]) + One(f[5]) + One(f[6]) + One(f[7])
  {
    hide Count;
    CountSplit(f, 4);
    CountFour(f[..4]);
    CountFour(f[4..]);
  }

  /** How many of four flags from k on are set. */
  function Four(f: seq<bool>, k: nat): nat
    requires k + 4 <= |f|
  {
    One(f[k]) + One(f[k + 1]) + One(f[k + 2]) + One(f[k + 3])
  }

  lemma CountFours(f: seq<bool>)
    requires |f| == 8
    ensures Count(f) == Four(f, 0) + Four(f, 4)
  {
    hide Count;
    CountEight(f);
  }

  lemma CountFour(f: seq<bool>)
    requires |f| == 4
    ensures Count(f) == One(f[0]) + One(f[1]) + One(f[2]) + One(f[3])
  {
    assert f[..3][..2] == f[..2] && f[..2][..1] == f[..1] && f[..1][..0] == [];
    assert Count(f[..1]) == One(f[0]);
    assert Count(f[..2]) == Count(f[..1]) + One(f[1]);
    assert Count(f[..3]) == Count(f[..2]) + One(f[2]);
  }

  lemma SimulationSection(c: Config, s: Parser)
    requires WellSized(c) && Ready(s)
    ensures LaidOut(s, ApplyAll(SimulationItems(c), s), 16 * Count(c.simulation), SimulationFields(c, s.offset))
  {
    hide ApplyAll, Pick, Count, WordControls, Small;
    PickSmall(c.simulation, SIMULATION_USAGES);
    if Count(c.simulation) == 0 {
      NothingLaidOut(s);
    } else {
      WordControlsSection(0x02, c.simulationMin, c.simulationMax, CountByte(c.simulation),
                          Pick(c.simulation, SIMULATION_USAGES), s);
    }
  }

  /** Opening a physical collection, choosing the desktop page and naming the usages. */
  lemma CollectionOpened(ids: seq<nat>, s: Parser)
    requires Small(ids) && Ready(s)
    ensures ApplyAll([Item(0xA1, [0x00]), Item(0x05, [0x01])] + UsageItems(ids), s)
            == s.(depth := s.depth + 1, page := 1, usages := On(1, ids))
  {
    hide ApplyAll, Apply, UsageItems, On;
    var a := [Item(0xA1, [0x00]), Item(0x05, [0x01])];
    ApplyAppend(a, UsageItems(ids), s);
    Apply2(a[0], a[1], s);
    MainItem(0, s);
    ByteItem(1, EndMain(s.(depth := s.depth + 1)));
    ApplyUsages(ids, s.(depth := s.depth + 1, page := 1));
    assert [] + On(1, ids) == On(1, ids);
  }

  lemma MotionSection(included: bool, c: Config, ids: seq<nat>, s: Parser)
    requires Small(ids) && |ids| == 3 && Ready(s)
    ensures LaidOut(s, ApplyAll(MotionItems(included, c, ids), s), if included then 48 else 0,
                    MotionFields(included, c, ids, s.offset))
  {
    hide ApplyAll, Apply, UsageItems, Layout, On, Word, Input;
    if !included {
      NothingLaidOut(s);
    } else {
      var a := [Item(0xA1, [0x00]), Item(0x05, [0x01])] + UsageItems(ids);
      var b := [Item(0x16, Word(c.motionMin)), Item(0x26, Word(c.motionMax)), Item(0x75, [0x10]), Item(0x95, [0x03])];
      var e := [Item(0x81, [0x02]), Item(0xC0, [])];
      ApplyAppend(a + b, e, s);
      ApplyAppend(a, b, s);
      CollectionOpened(ids, s);
      var s2 := s.(depth := s.depth + 1, page := 1, usages := On(1, ids));
      Apply4(b[0], b[1], b[2], b[3], s2);
      LogicalWord(c.motionMin, s2);
      LogicalWord(c.motionMax, s2.(lmin := c.motionMin));
      ByteItem(0x10, s2.(lmin := c.motionMin, lmax := c.motionMax));
      ByteItem(3, s2.(lmin := c.motionMin, lmax := c.motionMax, size := 16));
      var s3 := s2.(lmin := c.motionMin, lmax := c.motionMax, size := 16, count := 3);
      Apply2(e[0], e[1], s3);
      MainItem(2, s3);
      InputOf(s3, 2);
      MainItem(2, Input(2, s3));
    }
  }

  lemma HatSection(c: Config, s: Parser)
    requires Ready(s)
    ensures LaidOut(s, ApplyAll(HatItems(c), s), 8 * c.hatSwitchCount, HatFields(c, s.offset))
  {
    hide ApplyAll, Apply, UsageItems, On, Repeat, Small, Input;
    var n, ids := c.hatSwitchCount, Repeat(HAT_USAGE, c.hatSwitchCount);
    RepeatSmall(n);
    if n == 0 {
      NothingLaidOut(s);
    } else {
      var a := [Item(0xA1, [0x00]), Item(0x05, [0x01])] + UsageItems(ids);
      var b := [Item(0x15, [0x01]), Item(0x25, [0x08]), Item(0x35, [0x00]), Item(0x46, [0x3B, 0x01])];
      var d := [Item(0x65, [0x12]), Item(0x75, [0x08]), Item(0x95, [n]), Item(0x81, [0x42])];
      var e := [Item(0xC0, [])];
      ApplyAppend(a + b + d, e, s);
      ApplyAppend(a + b, d, s);
      ApplyAppend(a, b, s);
      CollectionOpened(ids, s);
      var s2 := s.(depth := s.depth + 1, page := 1, usages := On(1, ids));
      HatRange(b, s2);
      var s3 := s2.(lmin := 1, lmax := 8);
      HatTail(n, d, s3);
      Apply1(e[0], ApplyAll(d, s3));
      MainItem(0, ApplyAll(d, s3));
    }
  }

  lemma HatRange(b: seq<Item>, s: Parser)
    requires b == [Item(0x15, [0x01]), Item(0x25, [0x08]), Item(0x35, [0x00]), Item(0x46, [0x3B, 0x01])]
    ensures ApplyAll(b, s) == s.(lmin := 1, lmax := 8)
  {
    hide ApplyAll, Unsigned, Signed;
    Apply4(b[0], b[1], b[2], b[3], s);
    LogicalByte(1, s);
    LogicalByte(8, s.(lmin := 1));
  }

  lemma HatTail(n: byte, d: seq<Item>, s: Parser)
    requires n > 0 && s.ok && |s.usages| == n && s.usageMin == 0
    requires d == [Item(0x65, [0x12]), Item(0x75, [0x08]), Item(0x95, [n]), Item(0x81, [0x42])]
    ensures LaidOut(s.(usages := []), ApplyAll(d, s), 8 * n, Layout(s.offset, 8, s.usages, s.lmin, s.lmax))
  {
    hide ApplyAll, Unsigned, Signed, Layout, Input;
    Apply4(d[0], d[1], d[2], d[3], s);
    ByteItem(8, s);
    ByteItem(n, s.(size := 8));
    var t := s.(size := 8, count := n);
    MainItem(0x42, t);
    InputOf(t, 0x42);
  }

  lemma OutputSection(c: Config, s: Parser)
    requires Ready(s)
    ensures LaidOut(s, ApplyAll(OutputItems(c), s), 0, [])
  {
    hide ApplyAll, Unsigned, Signed, Layout, Word, Input;
    if !c.enableOutputReport {
      NothingLaidOut(s);
    } else {
      var a := [Item(0x06, [0x00, 0xFF]), Item(0x09, [0x01]), Item(0x09, [0x01]), Item(0x15, [0x00])];
      var count := if c.outputReportLength <= 0xFF then Item(0x95, [c.outputReportLength])
                   else Item(0x96, Word(c.outputReportLength));
      var b := [Item(0x26, [0xFF, 0x00]), Item(0x75, [0x08]), count, Item(0x91, [0x02])];
      ApplyAppend(a, b, s);
      Apply4(a[0], a[1], a[2], a[3], s);
      Apply4(b[0], b[1], b[2], b[3], ApplyAll(a, s));
      assert s.fields + [] == s.fields;
    }
  }

  // ------------------------------------------------------------ the whole descriptor

  lemma HeaderApplied(c: Config)
    ensures ApplyAll(HeaderItems(c), INITIAL_PARSER) == INITIAL_PARSER.(page := 1, depth := 1)
  {
    hide ApplyAll, Signed;
    var a, b, d, e := Item(0x05, [0x01]), Item(0x09, [c.controllerType]), Item(0xA1, [0x01]),
        Item(0x85, [c.hidReportId]);
    Apply4(a, b, d, e, INITIAL_PARSER);
  }

  /** Sections laid out one after the other. */
  lemma BitSections(c: Config, s: Parser)
    requires WellSized(c) && c.buttonCount <= 128 && Ready(s) && s.offset == 0
    ensures LaidOut(s, ApplyAll(ButtonItems(c) + SpecialItems(c), s), 8 * AxesAt(c),
                    ButtonFields(c, 0) + SpecialFields(c, 8 * SpecialAt(c)))
  {
    hide ApplyAll, ButtonItems, SpecialItems, ButtonFields, SpecialFields, BytesFor;
    var s1 := ApplyAll(ButtonItems(c), s);
    ButtonSection(c, s);
    SpecialSection(c, s1);
    ApplyAppend(ButtonItems(c), SpecialItems(c), s);
    Chained(s, s1, ApplyAll(SpecialItems(c), s1), 8 * SpecialAt(c), ButtonFields(c, 0),
            8 * BytesFor(Count(c.special)), SpecialFields(c, 8 * SpecialAt(c)));
  }

  lemma ControlSections(c: Config, s: Parser)
    requires WellSized(c) && Ready(s) && s.offset == 8 * AxesAt(c)
    ensures LaidOut(s, ApplyAll(AxisItems(c) + SimulationItems(c), s), 8 * GyroscopeAt(c) - 8 * AxesAt(c),
                    AxisFields(c, 8 * AxesAt(c)) + SimulationFields(c, 8 * SimulationAt(c)))
  {
    hide ApplyAll, AxisItems, SimulationItems, AxisFields, SimulationFields, BytesFor;
    var s1 := ApplyAll(AxisItems(c), s);
    AxisSection(c, s);
    SimulationSection(c, s1);
    ApplyAppend(AxisItems(c), SimulationItems(c), s);
    Chained(s, s1, ApplyAll(SimulationItems(c), s1), 16 * Count(c.axes), AxisFields(c, 8 * AxesAt(c)),
            16 * Count(c.simulation), SimulationFields(c, 8 * SimulationAt(c)));
  }

  lemma MotionSections(c: Config, s: Parser)
    requires Ready(s) && s.offset == 8 * GyroscopeAt(c)
    ensures LaidOut(s, ApplyAll(MotionItems(c.gyroscope, c, GYROSCOPE_USAGES)
                                + MotionItems(c.accelerometer, c, ACCELEROMETER_USAGES), s),
                    8 * HatsAt(c) - 8 * GyroscopeAt(c),
                    MotionFields(c.gyroscope, c, GYROSCOPE_USAGES, 8 * GyroscopeAt(c))
                    + MotionFields(c.accelerometer, c, ACCELEROMETER_USAGES, 8 * AccelerometerAt(c)))
  {
    hide ApplyAll, MotionItems, MotionFields, BytesFor;
    var g, a := MotionItems(c.gyroscope, c, GYROSCOPE_USAGES), MotionItems(c.accelerometer, c, ACCELEROMETER_USAGES);
    var s1 := ApplyAll(g, s);
    MotionSection(c.gyroscope, c, GYROSCOPE_USAGES, s);
    MotionSection(c.accelerometer, c, ACCELEROMETER_USAGES, s1);
    ApplyAppend(g, a, s);
    Chained(s, s1, ApplyAll(a, s1), 8 * AccelerometerAt(c) - 8 * GyroscopeAt(c),
            MotionFields(c.gyroscope, c, GYROSCOPE_USAGES, 8 * GyroscopeAt(c)),
            8 * HatsAt(c) - 8 * AccelerometerAt(c),
            MotionFields(c.accelerometer, c, ACCELEROMETER_USAGES, 8 * AccelerometerAt(c)));
  }

  lemma LastSections(c: Config, s: Parser)
    requires Ready(s) && s.offset == 8 * HatsAt(c)
    ensures LaidOut(s, ApplyAll(HatItems(c) + OutputItems(c), s), 8 * c.hatSwitchCount, HatFields(c, 8 * HatsAt(c)))
  {
    hide ApplyAll, HatItems, OutputItems, HatFields, BytesFor;
    var s1 := ApplyAll(HatItems(c), s);
    HatSection(c, s);
    OutputSection(c, s1);
    ApplyAppend(HatItems(c), OutputItems(c), s);
    Chained(s, s1, ApplyAll(OutputItems(c), s1), 8 * c.hatSwitchCount, HatFields(c, 8 * HatsAt(c)), 0, []);
    assert HatFields(c, 8 * HatsAt(c)) + [] == HatFields(c, 8 * HatsAt(c));
  }

  lemma BodyLaidOut(c: Config, s: Parser)
    requires WellSized(c) && c.buttonCount <= 128 && Ready(s) && s.offset == 0
    ensures LaidOut(s, ApplyAll(BodyItems(c), s), 8 * ReportSize(c), AllFields(c))
  {
    hide ApplyAll, ButtonItems, SpecialItems, AxisItems, SimulationItems, MotionItems, HatItems, OutputItems;
    hide ButtonFields, SpecialFields, AxisFields, SimulationFields, MotionFields, HatFields, BytesFor;
    var i1, i2 := ButtonItems(c) + SpecialItems(c), AxisItems(c) + SimulationItems(c);
    var i3 := MotionItems(c.gyroscope, c, GYROSCOPE_USAGES) + MotionItems(c.accelerometer, c, ACCELEROMETER_USAGES);
    var i4 := HatItems(c) + OutputItems(c);
    var s1 := ApplyAll(i1, s);
    var s2 := ApplyAll(i2, s1);
    var s3 := ApplyAll(i3, s2);
    assert BodyItems(c) == i1 + i2 + i3 + i4;
    ApplyAppend(i1 + i2 + i3, i4, s);
    ApplyAppend(i1 + i2, i3, s);
    ApplyAppend(i1, i2, s);
    BitSections(c, s);
    ControlSections(c, s1);
    MotionSections(c, s2);
    LastSections(c, s3);
  }

  /** What a host lays out from the descriptor's items: exactly the fields of the report, over
      exactly 8 * hidReportSize bits, and every collection is closed. */
  lemma ItemsLaidOut(c: Config)
    requires WellSized(c) && c.buttonCount <= 128
    ensures var t := ApplyAll(Items(c), INITIAL_PARSER);
            t.ok && t.depth == 0 && t.offset == 8 * ReportSize(c) && t.fields == AllFields(c)
  {
    hide ApplyAll, BodyItems, HeaderItems, AllFields, ReportSize;
    var s := INITIAL_PARSER.(page := 1, depth := 1);
    ApplyAppend(HeaderItems(c) + BodyItems(c), [Item(0xC0, [])], INITIAL_PARSER);
    ApplyAppend(HeaderItems(c), BodyItems(c), INITIAL_PARSER);
    HeaderApplied(c);
    BodyLaidOut(c, s);
    var t := ApplyAll(BodyItems(c), s);
    Apply1(Item(0xC0, []), t);
    MainItem(0, t);
  }
}
