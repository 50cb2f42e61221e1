/** How BleGamepad::begin writes the descriptor into its fixed buffer, byte by byte. */
module GamepadBegin {
  import opened Bits
  import opened HidDescriptor
  import opened GamepadDescriptor
  import opened GamepadLayout

  const DESCRIPTOR_CAPACITY: nat := 150

  function PaddingLength(bits: nat): nat {
    if bits % 8 == 0 then 0 else 6
  }

  function ButtonLength(c: Config): nat {
    if c.buttonCount == 0 then 0 else 16 + PaddingLength(c.buttonCount)
  }

  function DesktopLength(f: seq<bool>): nat
    requires |f| == 3
  {
    if Count(f) == 0 then 0 else 6 + 2 * Count(f)
  }

  /** The first two consumer usages take a two-byte item. */
  function ConsumerLength(f: seq<bool>): nat
    requires |f| == 5
  {
    if Count(f) == 0 then 0 else 6 + 2 * Count(f) + One(f[0]) + One(f[1])
  }

  function SpecialLength(c: Config): nat
    requires WellSized(c)
  {
    if Count(c.special) == 0 then 0
    else 6 + DesktopLength(c.special[..3]) + ConsumerLength(c.special[3..]) + PaddingLength(Count(c.special))
  }

  function WordControlsLength(n: nat): nat {
    if n == 0 then 0 else 17 + 2 * n
  }

  function HatLength(n: nat): nat {
    if n == 0 then 0 else 22 + 2 * n
  }

  function OutputLength(c: Config): nat {
    if !c.enableOutputReport then 0 else if c.outputReportLength <= 0xFF then 18 else 19
  }

  /** Bytes begin() writes. */
  function DescriptorLength(c: Config): nat
    requires WellSized(c)
  {
    8 + ButtonLength(c) + SpecialLength(c) + WordControlsLength(Count(c.axes)) + WordControlsLength(Count(c.simulation))
    + (if c.gyroscope then 23 else 0) + (if c.accelerometer then 23 else 0) + HatLength(c.hatSwitchCount)
    + OutputLength(c) + 1
  }

  lemma {:induction false} PickStep(flags: seq<bool>, ids: seq<nat>, k: nat)
    requires k < |flags| == |ids| && Small(ids)
    ensures Small(Pick(flags[..k], ids[..k])) && Small(Pick(flags[..k + 1], ids[..k + 1]))
    ensures UsageItems(Pick(flags[..k + 1], ids[..k + 1]))
            == UsageItems(Pick(flags[..k], ids[..k])) + if flags[k] then [UsageItem(ids[k])] else []
  {
    hide Pick;
    PickSmall(flags[..k], ids[..k]);
    PickSmall(flags[..k + 1], ids[..k + 1]);
    PickGrows(flags, ids, k);
    var before := Pick(flags[..k], ids[..k]);
    if flags[k] {
      assert (before + [ids[k]])[..|before|] == before;
    } else {
      assert before + [] == before;
    }
  }

  /** tempHidReportDescriptor with hidReportDescriptorSize. */
  class Descriptor {
    const bytes: array<byte>
    var size: nat
    ghost var items: seq<Item>

    ghost predicate Valid()
      reads this, bytes
    {
      && bytes.Length == DESCRIPTOR_CAPACITY && size <= bytes.Length
      && bytes[..size] == Encode(items)
      && forall k :: 0 <= k < |items| ==> WellFormed(items[k])
    }

    ghost predicate Room(n: nat)
      reads this
    {
      size + n <= DESCRIPTOR_CAPACITY
    }

    constructor ()
      ensures Valid() && size == 0 && items == [] && fresh(bytes)
    {
      bytes := new byte[DESCRIPTOR_CAPACITY](_ => 0);
      size, items := 0, [];
    }

    lemma Written()
      requires Valid()
      ensures size <= bytes.Length && bytes[..size] == Encode(items)
    {
    }

    method Put(b: byte)
      requires size < bytes.Length
      modifies this`size, bytes
      ensures size == old(size) + 1 && bytes[..size] == old(bytes[..size]) + [b]
    {
      bytes[size] := b;
      size := size + 1;
    }

    method Emit(i: Item)
      requires Valid() && WellFormed(i) && |i.data| <= 2 && Room(1 + |i.data|)
      modifies this, bytes
      ensures Valid() && items == old(items) + [i] && size == old(size) + 1 + |i.data|
    {
      hide Encode, DataSize;
      Put(i.prefix);
      if |i.data| > 0 {
        Put(i.data[0]);
      }
      if |i.data| > 1 {
        Put(i.data[1]);
      }
      EncodeSnoc(items, i);
      assert bytes[..size] == old(bytes[..size]) + ItemBytes(i);
      items := items + [i];
    }

    method Emit2(a: Item, b: Item)
      requires Valid() && WellFormed(a) && WellFormed(b) && |a.data| <= 2 && |b.data| <= 2
      requires Room(2 + |a.data| + |b.data|)
      modifies this, bytes
      ensures Valid() && items == old(items) + [a, b] && size == old(size) + 2 + |a.data| + |b.data|
    {
      hide Encode, WellFormed, Valid;
      Emit(a);
      Emit(b);
    }

    method Emit4(a: Item, b: Item, c: Item, d: Item)
      requires Valid() && WellFormed(a) && WellFormed(b) && WellFormed(c) && WellFormed(d)
      requires |a.data| <= 2 && |b.data| <= 2 && |c.data| <= 2 && |d.data| <= 2
      requires Room(4 + |a.data| + |b.data| + |c.data| + |d.data|)
      modifies this, bytes
      ensures Valid() && items == old(items) + [a, b, c, d]
      ensures size == old(size) + 4 + |a.data| + |b.data| + |c.data| + |d.data|
    {
      hide Encode, WellFormed, Valid;
      Emit2(a, b);
      Emit2(c, d);
    }

    /** Since before, the included ones among the first k controls have been named. */
    ghost predicate Named(before: seq<Item>, flags: seq<bool>, ids: seq<nat>, k: nat)
      reads this
    {
      k <= |flags| == |ids| && Small(Pick(flags[..k], ids[..k]))
          && items == before + UsageItems(Pick(flags[..k], ids[..k]))
    }

    lemma NoneNamed(flags: seq<bool>, ids: seq<nat>)
      requires |flags| == |ids|
      ensures Named(items, flags, ids, 0)
    {
    }

    lemma AllNamed(before: seq<Item>, flags: seq<bool>, ids: seq<nat>)
      requires Named(before, flags, ids, |flags|)
      ensures Small(Pick(flags, ids)) && items == before + UsageItems(Pick(flags, ids))
    {
      assert flags[..|flags|] == flags && ids[..|flags|] == ids;
    }

    /** Names one control if it is included; flags, ids and k say which one it is. */
    method EmitUsage(included: bool, id: nat, ghost flags: seq<bool>, ghost ids: seq<nat>, ghost k: nat,
                     ghost before: seq<Item>)
      requires Valid() && k < |flags| == |ids| && Small(ids) && flags[k] == included && ids[k] == id
      requires Named(before, flags, ids, k)
      requires included ==> Room(if id < 256 then 2 else 3)
      modifies this, bytes
      ensures Valid() && Named(before, flags, ids, k + 1)
      ensures size == old(size) + if !included then 0 else if id < 256 then 2 else 3
    {
      hide Encode, Pick, UsageItems, Valid;
      PickStep(flags, ids, k);
      if included {
        Emit(UsageItem(id));
      } else {
        assert items + [] == items;
      }
    }

    method EmitPadding(bits: byte)
      requires Valid() && bits < 8 && Room(if bits == 0 then 0 else 6)
      modifies this, bytes
      ensures Valid() && items == old(items) + PaddingItems(bits) && size == old(size) + if bits == 0 then 0 else 6
    {
      hide Encode, Valid;
      if bits > 0 {
        Emit2(Item(0x75, [0x01]), Item(0x95, [bits]));
        Emit(Item(0x81, [0x03]));
      }
    }

    method EmitBitGlobals()
      requires Valid() && Room(6)
      modifies this, bytes
      ensures Valid() && items == old(items) + BitGlobals() && size == old(size) + 6
    {
      hide Encode, Valid;
      Emit2(Item(0x15, [0x00]), Item(0x25, [0x01]));
      Emit(Item(0x75, [0x01]));
    }

    method EmitButtons(c: Config, paddingBits: byte)
      requires Valid() && c.buttonCount <= 128 && paddingBits == PaddingBits(c.buttonCount) && Room(ButtonLength(c))
      modifies this, bytes
      ensures Valid() && items == old(items) + ButtonItems(c) && size == old(size) + ButtonLength(c)
    {
      hide Encode, Valid, PaddingItems, BitGlobals;
      if c.buttonCount > 0 {
        Emit(Item(0x05, [0x09]));
        EmitBitGlobals();
        Emit4(Item(0x19, [0x01]), Item(0x29, [c.buttonCount]), Item(0x95, [c.buttonCount]), Item(0x81, [0x02]));
        EmitPadding(paddingBits);
      }
    }

    method EmitDesktopButtons(c: Config)
      requires Valid() && WellSized(c) && Room(DesktopLength(c.special[..3]))
      modifies this, bytes
      ensures Valid() && Small(Pick(c.special[..3], DESKTOP_BUTTONS))
      ensures items == old(items) + SpecialGroup(0x01, c.special[..3], DESKTOP_BUTTONS)
      ensures size == old(size) + DesktopLength(c.special[..3])
    {
      hide Encode, Valid, Pick, Count, UsageItems, CountByte, Named;
      ghost var f, ids := c.special[..3], DESKTOP_BUTTONS;
      PickSmall(f, ids);
      var count := CountIncluded(c.special, 0, 3);
      if count > 0 {
        Emit2(Item(0x05, [0x01]), Item(0x95, [count]));
        ghost var before := items;
        NoneNamed(f, ids);
        CountThree(f);
        EmitUsage(c.special[0], 0x3D, f, ids, 0, before);
        EmitUsage(c.special[1], 0x3E, f, ids, 1, before);
        EmitUsage(c.special[2], 0x86, f, ids, 2, before);
        AllNamed(before, f, ids);
        Emit(Item(0x81, [0x02]));
      }
    }

    method EmitConsumerButtons(c: Config)
      requires Valid() && WellSized(c) && Room(ConsumerLength(c.special[3..]))
      modifies this, bytes
      ensures Valid() && Small(Pick(c.special[3..], CONSUMER_BUTTONS))
      ensures items == old(items) + SpecialGroup(0x0C, c.special[3..], CONSUMER_BUTTONS)
      ensures size == old(size) + ConsumerLength(c.special[3..])
    {
      hide Encode, Valid, Pick, Count, UsageItems, CountByte, Named;
      ghost var f, ids := c.special[3..], CONSUMER_BUTTONS;
      PickSmall(f, ids);
      var count := CountIncluded(c.special, 3, 8);
      assert c.special[3..8] == f;
      if count > 0 {
        Emit2(Item(0x05, [0x0C]), Item(0x95, [count]));
        NameConsumerButtons(c, f, ids);
        Emit(Item(0x81, [0x02]));
      }
    }

    method NameConsumerButtons(c: Config, ghost f: seq<bool>, ghost ids: seq<nat>)
      requires Valid() && WellSized(c) && f == c.special[3..] && ids == CONSUMER_BUTTONS
      requires Room(2 * Count(f) + One(f[0]) + One(f[1]))
      modifies this, bytes
      ensures Valid() && Small(Pick(f, ids)) && items == old(items) + UsageItems(Pick(f, ids))
      ensures size == old(size) + 2 * Count(f) + One(f[0]) + One(f[1])
    {
      hide Encode, Valid, Pick, Count, UsageItems, Named;
      CountFive(f);
      ghost var before := items;
      NoneNamed(f, ids);
      EmitUsage(c.special[3], 0x223, f, ids, 0, before);
      EmitUsage(c.special[4], 0x224, f, ids, 1, before);
      EmitUsage(c.special[5], 0xE9, f, ids, 2, before);
      EmitUsage(c.special[6], 0xEA, f, ids, 3, before);
      EmitUsage(c.special[7], 0xE2, f, ids, 4, before);
      AllNamed(before, f, ids);
    }

    method EmitSpecialButtons(c: Config, total: byte, paddingBits: byte)
      requires Valid() && WellSized(c) && total == Count(c.special) && paddingBits == PaddingBits(total)
      requires Room(SpecialLength(c))
      modifies this, bytes
      ensures Valid() && items == old(items) + SpecialItems(c) && size == old(size) + SpecialLength(c)
    {
      hide Encode, Valid, PaddingItems, BitGlobals, SpecialGroup, Pick, Count, DesktopLength, ConsumerLength;
      if total > 0 {
        EmitBitGlobals();
        EmitDesktopButtons(c);
        EmitConsumerButtons(c);
        EmitPadding(paddingBits);
      }
    }

    /** Everything of a sixteen-bit section before its usages. */
    method OpenWordControls(page: byte, lmin: int16, lmax: int16, count: byte)
      requires Valid() && Room(14)
      modifies this, bytes
      ensures Valid() && size == old(size) + 14
      ensures items == old(items)
              + [Item(0x05, [page]), Item(0x16, Word(lmin)), Item(0x26, Word(lmax)), Item(0x75, [0x10])]
                       + [Item(0x95, [count]), Item(0xA1, [0x00])]
    {
      hide Encode, Valid;
      Emit4(Item(0x05, [page]), Item(0x16, Word(lmin)), Item(0x26, Word(lmax)), Item(0x75, [0x10]));
      Emit2(Item(0x95, [count]), Item(0xA1, [0x00]));
    }

    method EmitAxes(c: Config, count: byte)
      requires Valid() && WellSized(c) && count == Count(c.axes) && Room(WordControlsLength(count))
      modifies this, bytes
      ensures Valid() && items == old(items) + AxisItems(c) && size == old(size) + WordControlsLength(count)
    {
      hide Encode, Valid, Pick, Count, UsageItems, Word, CountByte, Named;
      ghost var f, ids := AxisFlags(c), AXIS_USAGES;
      PickSmall(f, ids);
      SameAxisCount(c);
      if count > 0 {
        OpenWordControls(0x01, c.axesMin, c.axesMax, count);
        NameAxes(c, f, ids);
        Emit2(Item(0x81, [0x02]), Item(0xC0, []));
      }
    }

    method NameAxes(c: Config, ghost f: seq<bool>, ghost ids: seq<nat>)
      requires Valid() && WellSized(c) && f == AxisFlags(c) && IsAxisTable(ids) && Room(2 * Count(f))
      modifies this, bytes
      ensures Valid() && Small(Pick(f, ids)) && items == old(items) + UsageItems(Pick(f, ids))
      ensures size == old(size) + 2 * Count(f)
    {
      hide Encode, Valid, Pick, Count, UsageItems, Named, Small, AxisFlags, IsAxisTable, Four;
      AxisTable(c, f, ids);
      CountFours(f);
      ghost var before := items;
      NoneNamed(f, ids);
      NameFour(c.axes[X], c.axes[Y], c.axes[Z], c.axes[RZ], 0x30, 0x31, 0x32, 0x35, f, ids, 0, before);
      NameFour(c.axes[RX], c.axes[RY], c.axes[SLIDER1], c.axes[SLIDER2], 0x33, 0x34, 0x36, 0x36, f, ids, 4, before);
      AllNamed(before, f, ids);
    }

    method NameFour(a: bool, b: bool, c: bool, d: bool, idA: byte, idB: byte, idC: byte, idD: byte,
                        ghost f: seq<bool>, ghost ids: seq<nat>, ghost k: nat, ghost before: seq<Item>)
      requires Valid() && k + 4 <= |f| == |ids| && Small(ids) && Named(before, f, ids, k)
      requires f[k] == a && f[k + 1] == b && f[k + 2] == c && f[k + 3] == d
      requires ids[k] == idA && ids[k + 1] == idB && ids[k + 2] == idC && ids[k + 3] == idD
      requires Room(2 * Four(f, k))
      modifies this, bytes
      ensures Valid() && Named(before, f, ids, k + 4)
      ensures size == old(size) + 2 * Four(f, k)
    {
      hide Encode, Valid, Pick, UsageItems, Named, Small;
      EmitUsage(a, idA, f, ids, k, before);
      EmitUsage(b, idB, f, ids, k + 1, before);
      EmitUsage(c, idC, f, ids, k + 2, before);
      EmitUsage(d, idD, f, ids, k + 3, before);
    }

    method EmitSimulation(c: Config, count: byte)
      requires Valid() && WellSized(c) && count == Count(c.simulation) && Room(WordControlsLength(count))
      modifies this, bytes
      ensures Valid() && items == old(items) + SimulationItems(c) && size == old(size) + WordControlsLength(count)
    {
      hide Encode, Valid, Pick, Count, UsageItems, Word, CountByte, Named;
      ghost var f, ids := c.simulation, SIMULATION_USAGES;
      PickSmall(f, ids);
      if count > 0 {
        OpenWordControls(0x02, c.simulationMin, c.simulationMax, count);
        NameSimulation(c, f, ids);
        Emit2(Item(0x81, [0x02]), Item(0xC0, []));
      }
    }

    method NameSimulation(c: Config, ghost f: seq<bool>, ghost ids: seq<nat>)
      requires Valid() && WellSized(c) && f == c.simulation && ids == SIMULATION_USAGES && Room(2 * Count(f))
      modifies this, bytes
      ensures Valid() && Small(Pick(f, ids)) && items == old(items) + UsageItems(Pick(f, ids))
      ensures size == old(size) + 2 * Count(f)
    {
      hide Encode, Valid, Pick, Count, UsageItems, Named;
      CountFive(f);
      ghost var before := items;
      NoneNamed(f, ids);
      NameFour(c.simulation[0], c.simulation[1], c.simulation[2], c.simulation[3], 0xBA, 0xBB, 0xC4, 0xC5, f, ids, 0,
               before);
      EmitUsage(c.simulation[4], 0xC8, f, ids, 4, before);
      AllNamed(before, f, ids);
    }

    method EmitMotion(included: bool, c: Config, x: byte, y: byte, z: byte)
      requires Valid() && Room(if included then 23 else 0)
      modifies this, bytes
      ensures Valid() && Small([x, y, z]) && items == old(items) + MotionItems(included, c, [x, y, z])
      ensures size == old(size) + if included then 23 else 0
    {
      hide Encode, Valid, UsageItems, Word;
      if included {
        Emit2(Item(0xA1, [0x00]), Item(0x05, [0x01]));
        ThreeUsages(x, y, z);
        Emit2(Item(0x09, [x]), Item(0x09, [y]));
        Emit(Item(0x09, [z]));
        WordSize(c.motionMin);
        WordSize(c.motionMax);
        Emit4(Item(0x16, Word(c.motionMin)), Item(0x26, Word(c.motionMax)), Item(0x75, [0x10]), Item(0x95, [0x03]));
        Emit2(Item(0x81, [0x02]), Item(0xC0, []));
      }
    }

    method EmitHats(c: Config)
      requires Valid() && Room(HatLength(c.hatSwitchCount))
      modifies this, bytes
      ensures Valid() && items == old(items) + HatItems(c) && size == old(size) + HatLength(c.hatSwitchCount)
    {
      hide Encode, Valid, Repeat, UsageItems;
      var n := c.hatSwitchCount;
      RepeatSmall(n);
      if n > 0 {
        Emit2(Item(0xA1, [0x00]), Item(0x05, [0x01]));
        NameHats(n);
        Emit4(Item(0x15, [0x01]), Item(0x25, [0x08]), Item(0x35, [0x00]), Item(0x46, [0x3B, 0x01]));
        Emit4(Item(0x65, [0x12]), Item(0x75, [0x08]), Item(0x95, [n]), Item(0x81, [0x42]));
        Emit(Item(0xC0, []));
      }
    }

    method NameHats(n: byte)
      requires Valid() && Room(2 * n)
      modifies this, bytes
      ensures Valid() && Small(Repeat(HAT_USAGE, n)) && size == old(size) + 2 * n
      ensures items == old(items) + UsageItems(Repeat(HAT_USAGE, n))
    {
      hide Encode, Valid, Repeat, UsageItems, Small;
      HatUsages(0);
      for i := 0 to n
        invariant Valid() && size == old(size) + 2 * i
        invariant Small(Repeat(HAT_USAGE, i)) && items == old(items) + UsageItems(Repeat(HAT_USAGE, i))
      {
        HatUsages(i);
        Emit(Item(0x09, [0x39]));
      }
    }

    method EmitOutput(c: Config)
      requires Valid() && Room(OutputLength(c))
      modifies this, bytes
      ensures Valid() && items == old(items) + OutputItems(c) && size == old(size) + OutputLength(c)
    {
      hide Encode, Valid, Word;
      if c.enableOutputReport {
        Emit4(Item(0x06, [0x00, 0xFF]), Item(0x09, [0x01]), Item(0x09, [0x01]), Item(0x15, [0x00]));
        Emit2(Item(0x26, [0xFF, 0x00]), Item(0x75, [0x08]));
        if c.outputReportLength <= 0xFF {
          Emit(Item(0x95, [c.outputReportLength]));
        } else {
          WordSize(c.outputReportLength);
          Emit(Item(0x96, Word(c.outputReportLength)));
        }
        Emit(Item(0x91, [0x02]));
      }
    }
  }

  /** The counting loops of BleGamepadConfiguration. */
  method CountIncluded(flags: seq<bool>, first: nat, end: nat) returns (count: byte)
    requires first <= end <= |flags| && end - first <= 8
    ensures count == Count(flags[first..end])
  {
    count := 0;
    for i := first to end
      invariant count <= i - first && count == Count(flags[first..i])
    {
      assert flags[first..i + 1][..i - first] == flags[first..i];
      count := count + if flags[i] then 1 else 0;
    }
  }

  // ------------------------------------------------------------ small facts

  lemma CountThree(f: seq<bool>)
    requires |f| == 3
    ensures Count(f) == One(f[0]) + One(f[1]) + One(f[2])
  {
    assert f[..2][..1] == f[..1] && f[..1][..0] == [];
    assert Count(f[..1]) == One(f[0]);
    assert Count(f[..2]) == Count(f[..1]) + One(f[1]);
  }

  lemma CountFive(f: seq<bool>)
    requires |f| == 5
    ensures Count(f) == One(f[0]) + One(f[1]) + One(f[2]) + One(f[3]) + One(f[4])
  {
    CountFour(f[..4]);
  }

  lemma ThreeUsages(x: byte, y: byte, z: byte)
    ensures Small([x, y, z]) && UsageItems([x, y, z]) == [Item(0x09, [x]), Item(0x09, [y]), Item(0x09, [z])]
  {
    assert [x, y, z][..2] == [x, y] && [x, y][..1] == [x];
    assert UsageItems([x]) == [Item(0x09, [x])];
  }

  lemma WordSize(v: int)
    ensures |Word(v)| == 2
  {
  }

  lemma HatUsages(i: nat)
    ensures Small(Repeat(HAT_USAGE, i)) && Small(Repeat(HAT_USAGE, i + 1))
    ensures UsageItems(Repeat(HAT_USAGE, i + 1)) == UsageItems(Repeat(HAT_USAGE, i)) + [Item(0x09, [0x39])]
    ensures i == 0 ==> UsageItems(Repeat(HAT_USAGE, 0)) == []
  {
    RepeatSmall(i);
    RepeatSmall(i + 1);
    assert Repeat(HAT_USAGE, i + 1)[..i] == Repeat(HAT_USAGE, i);
  }

  ghost predicate IsAxisTable(ids: seq<nat>) {
    ids == AXIS_USAGES
  }

  lemma AxisTable(c: Config, f: seq<bool>, ids: seq<nat>)
    requires WellSized(c) && f == AxisFlags(c) && IsAxisTable(ids)
    ensures f[0] == c.axes[X] && f[1] == c.axes[Y] && f[2] == c.axes[Z] && f[3] == c.axes[RZ]
    ensures f[4] == c.axes[RX] && f[5] == c.axes[RY] && f[6] == c.axes[SLIDER1] && f[7] == c.axes[SLIDER2]
    ensures |ids| == 8 && Small(ids)
    ensures ids[0] == 0x30 && ids[1] == 0x31 && ids[2] == 0x32 && ids[3] == 0x35
    ensures ids[4] == 0x33 && ids[5] == 0x34 && ids[6] == 0x36 && ids[7] == 0x36
  {
  }
}
