/** The input report as BleGamepad::sendReport packs it, and what a host that parsed the
    descriptor reads back from it. */
module GamepadReport {
  import opened Bits
  import opened HidDescriptor
  import opened GamepadDescriptor
  import opened GamepadLayout

  const START := 0
  const SELECT := 1
  const MENU := 2
  const HOME := 3
  const BACK := 4
  const VOLUME_INC := 5
  const VOLUME_DEC := 6
  const VOLUME_MUTE := 7

  const RUDDER := 0
  const THROTTLE := 1
  const ACCELERATOR := 2
  const BRAKE := 3
  const STEERING := 4

  /** The fields sendReport reads. */
  datatype Controls = Controls(
    buttons: seq<byte>, special: byte,
    axes: seq<int16>, simulation: seq<int16>,
    gyroscope: seq<int16>, accelerometer: seq<int16>,
    hats: seq<int8>)

  ghost predicate FullSize(k: Controls) {
    |k.buttons| == 16 && |k.axes| == 8 && |k.simulation| == 5
    && |k.gyroscope| == 3 && |k.accelerometer| == 3 && |k.hats| == 4
  }

  /** Configurations the report format has room for. */
  ghost predicate Supported(c: Config) {
    WellSized(c) && c.buttonCount <= 128 && c.hatSwitchCount <= 4 && ReportSize(c) >= 16
  }

  function Words(vs: seq<int16>): (r: seq<byte>)
    ensures |r| == 2 * |vs|
  {
    if vs == [] then [] else Words(vs[..|vs| - 1]) + Word(vs[|vs| - 1])
  }

  function AxisValues(k: Controls): (v: seq<int16>)
    requires FullSize(k)
    ensures |v| == 8
  {
    [k.axes[X], k.axes[Y], k.axes[Z], k.axes[RZ], k.axes[RX], k.axes[RY], k.axes[SLIDER1], k.axes[SLIDER2]]
  }

  function Low8(v: int8): byte {
    (v as int) % 0x100
  }

  /** Hat bytes, last hat first. */
  function HatBytes(hats: seq<int8>, n: nat): (r: seq<byte>)
    requires n <= |hats|
    ensures |r| == n
  {
    seq(n, i requires 0 <= i < n => Low8(hats[n - 1 - i]))
  }

  function SpecialByte(c: Config, k: Controls): seq<byte> {
    if Count(c.special) > 0 then [k.special] else []
  }

  /** The report, byte by byte. */
  function Pack(c: Config, k: Controls): (r: seq<byte>)
    requires Supported(c) && FullSize(k)
  {
    k.buttons[..BytesFor(c.buttonCount)]
    + SpecialByte(c, k)
    + Words(Pick(AxisFlags(c), AxisValues(k)))
    + Words(Pick(c.simulation, k.simulation))
    + Words(if c.gyroscope then k.gyroscope else [])
    + Words(if c.accelerometer then k.accelerometer else [])
    + HatBytes(k.hats, c.hatSwitchCount)
  }

  // ------------------------------------------------------------ what the user holds

  /** The buttons held down and the positions of the analog controls. */
  datatype Held = Held(
    buttons: set<nat>, special: set<nat>,
    axes: seq<int16>, simulation: seq<int16>,
    gyroscope: seq<int16>, accelerometer: seq<int16>,
    hats: seq<int8>)

  function Flag(b: bool): nat {
    if b then 1 else 0
  }

  function Low16(v: int16): nat {
    (v as int) % 0x1_0000
  }

  /** Position of a special button among the included ones. */
  function Rank(c: Config, b: nat): nat
    requires b < |c.special|
  {
    Count(c.special[..b])
  }

  ghost predicate Represents(c: Config, k: Controls, g: Held) {
    && WellSized(c) && FullSize(k)
    && (forall b :: 1 <= b <= 128 ==> (b in g.buttons <==> ButtonBit(k.buttons, b)))
    && (forall b :: 0 <= b < 8 && c.special[b] ==> (b in g.special <==> Bit(k.special, Rank(c, b))))
    && g.axes == k.axes && g.simulation == k.simulation
    && g.gyroscope == k.gyroscope && g.accelerometer == k.accelerometer && g.hats == k.hats
  }

  predicate ButtonBit(buttons: seq<byte>, b: nat)
    requires |buttons| == 16 && 1 <= b <= 128
  {
    Bit(buttons[(b - 1) / 8], (b - 1) % 8)
  }

  ghost predicate FullView(g: Held) {
    |g.axes| == 8 && |g.simulation| == 5 && |g.gyroscope| == 3 && |g.accelerometer| == 3 && |g.hats| == 4
  }

  function ButtonView(c: Config, g: Held): seq<Reading> {
    seq(c.buttonCount, i requires 0 <= i => Reading(Usage(0x09, i + 1), Flag(i + 1 in g.buttons)))
  }

  function SpecialView(c: Config, g: Held): seq<Reading>
    requires WellSized(c)
  {
    Pick(c.special[..3], [
      Reading(Usage(0x01, 0x3D), Flag(START in g.special)),
      Reading(Usage(0x01, 0x3E), Flag(SELECT in g.special)),
      Reading(Usage(0x01, 0x86), Flag(MENU in g.special))])
    + Pick(c.special[3..], [
      Reading(Usage(0x0C, 0x223), Flag(HOME in g.special)),
      Reading(Usage(0x0C, 0x224), Flag(BACK in g.special)),
      Reading(Usage(0x0C, 0xE9), Flag(VOLUME_INC in g.special)),
      Reading(Usage(0x0C, 0xEA), Flag(VOLUME_DEC in g.special)),
      Reading(Usage(0x0C, 0xE2), Flag(VOLUME_MUTE in g.special))])
  }

  function AxisView(c: Config, axes: seq<int16>): seq<Reading>
    requires WellSized(c) && |axes| == 8
  {
    Pick(AxisFlags(c), [
      Reading(Usage(0x01, 0x30), Low16(axes[X])), Reading(Usage(0x01, 0x31), Low16(axes[Y])),
      Reading(Usage(0x01, 0x32), Low16(axes[Z])), Reading(Usage(0x01, 0x35), Low16(axes[RZ])),
      Reading(Usage(0x01, 0x33), Low16(axes[RX])), Reading(Usage(0x01, 0x34), Low16(axes[RY])),
      Reading(Usage(0x01, 0x36), Low16(axes[SLIDER1])), Reading(Usage(0x01, 0x36), Low16(axes[SLIDER2]))])
  }

  function SimulationView(c: Config, simulation: seq<int16>): seq<Reading>
    requires WellSized(c) && |simulation| == 5
  {
    Pick(c.simulation, [
      Reading(Usage(0x02, 0xBA), Low16(simulation[RUDDER])),
      Reading(Usage(0x02, 0xBB), Low16(simulation[THROTTLE])),
      Reading(Usage(0x02, 0xC4), Low16(simulation[ACCELERATOR])),
      Reading(Usage(0x02, 0xC5), Low16(simulation[BRAKE])),
      Reading(Usage(0x02, 0xC8), Low16(simulation[STEERING]))])
  }

  function GyroscopeView(c: Config, v: seq<int16>): seq<Reading>
    requires |v| == 3
  {
    if !c.gyroscope then []
    else [Reading(Usage(0x01, 0x33), Low16(v[0])), Reading(Usage(0x01, 0x34), Low16(v[1])),
          Reading(Usage(0x01, 0x35), Low16(v[2]))]
  }

  function AccelerometerView(c: Config, v: seq<int16>): seq<Reading>
    requires |v| == 3
  {
    if !c.accelerometer then []
    else [Reading(Usage(0x01, 0x40), Low16(v[0])), Reading(Usage(0x01, 0x41), Low16(v[1])),
          Reading(Usage(0x01, 0x42), Low16(v[2]))]
  }

  function HatView(n: nat, hats: seq<int8>): seq<Reading>
    requires n <= |hats|
  {
    seq(n, i requires 0 <= i < n => Reading(Usage(0x01, 0x39), Low8(hats[n - 1 - i])))
  }

  /** What the host should see: every included control under its own usage, carrying its own
      state. Only the hats, which all share one usage, come last to first. */
  function HostView(c: Config, g: Held): seq<Reading>
    requires WellSized(c) && c.hatSwitchCount <= 4 && FullView(g)
  {
    ButtonView(c, g) + SpecialView(c, g) + AxisView(c, g.axes) + SimulationView(c, g.simulation)
    + GyroscopeView(c, g.gyroscope) + AccelerometerView(c, g.accelerometer) + HatView(c.hatSwitchCount, g.hats)
  }

  // ------------------------------------------------------------ picking

  lemma {:induction false} PickAt<T>(flags: seq<bool>, xs: seq<T>, j: nat)
    requires |flags| == |xs| && j < |flags| && flags[j]
    ensures Count(flags[..j]) < Count(flags)
    ensures Pick(flags, xs)[Count(flags[..j])] == xs[j]
  {
    var n := |xs| - 1;
    if j < n {
      PickAt(flags[..n], xs[..n], j);
      assert flags[..n][..j] == flags[..j];
    }
  }

  function Zip(us: seq<Usage>, vs: seq<nat>): (r: seq<Reading>)
    requires |us| == |vs|
    ensures |r| == |us|
  {
    seq(|us|, i requires 0 <= i < |us| => Reading(us[i], vs[i]))
  }

  /** Reading the picked controls one by one is picking from the readings of all controls. */
  lemma {:induction false} PickZip(flags: seq<bool>, page: nat, ids: seq<nat>, read: seq<nat>, values: seq<nat>)
    requires |flags| == |ids| == |values| && |read| == Count(flags)
    requires forall j :: 0 <= j < |flags| && flags[j] && Count(flags[..j]) < |read| ==>
               read[Count(flags[..j])] == values[j]
    ensures Zip(On(page, Pick(flags, ids)), read) == Pick(flags, Zip(On(page, ids), values))
  {
    hide Zip, On, Pick, Count;
    if ids == [] {
      assert flags == [] && values == [];
      NothingToPick(page);
    } else {
      var n := |ids| - 1;
      var m := Count(flags[..n]);
      PickLast(flags, ids);
      forall j | 0 <= j < n && flags[..n][j] && Count(flags[..n][..j]) < m
        ensures read[..m][Count(flags[..n][..j])] == values[..n][j]
      {
        assert flags[..n][..j] == flags[..j];
      }
      PickZip(flags[..n], page, ids[..n], read[..m], values[..n]);
      var z := Zip(On(page, ids[..n]), values[..n]);
      ZipSnoc(page, ids[..n], ids[n], values[..n], values[n]);
      PickLast(flags, Zip(On(page, ids), values));
      assert ids == ids[..n] + [ids[n]] && values == values[..n] + [values[n]];
      assert (z + [Reading(Usage(page, ids[n]), values[n])])[..n] == z;
      if flags[n] {
        assert read == read[..m] + [values[n]];
        ZipSnoc(page, Pick(flags[..n], ids[..n]), ids[n], read[..m], values[n]);
      } else {
        assert read == read[..m];
      }
    }
  }

  lemma NothingToPick(page: nat)
    ensures Count([]) == 0 && Pick<nat>([], []) == [] && Pick<Reading>([], []) == [] && Zip(On(page, []), []) == []
  {
  }

  lemma PickLast<T>(flags: seq<bool>, xs: seq<T>)
    requires |flags| == |xs| > 0
    ensures var n := |xs| - 1;
            && Count(flags) == Count(flags[..n]) + (if flags[n] then 1 else 0)
            && Pick(flags, xs) == if flags[n] then Pick(flags[..n], xs[..n]) + [xs[n]] else Pick(flags[..n], xs[..n])
  {
  }

  lemma ZipSnoc(page: nat, ids: seq<nat>, id: nat, vs: seq<nat>, v: nat)
    requires |ids| == |vs|
    ensures Zip(On(page, ids + [id]), vs + [v]) == Zip(On(page, ids), vs) + [Reading(Usage(page, id), v)]
  {
  }

  lemma {:induction false} ReadLayout(offset: nat, size: nat, us: seq<Usage>, lmin: int, lmax: int, r: seq<byte>)
    ensures ReadFields(Layout(offset, size, us, lmin, lmax), r)
            == Zip(us, seq(|us|, i requires 0 <= i < |us| => FieldValue(r, offset + i * size, size)))
    decreases |us|
  {
    hide FieldValue;
    if us != [] {
      var first, rest := Data(offset, size, us[0], lmin, lmax), Layout(offset + size, size, us[1..], lmin, lmax);
      ReadAppend([first], rest, r);
      ReadLayout(offset + size, size, us[1..], lmin, lmax, r);
      assert ReadFields([first], r) == [Reading(us[0], FieldValue(r, offset, size))] by {
        assert [first][..0] == [];
        assert ReadFields([], r) == [];
      }
      forall i | 1 <= i < |us|
        ensures offset + size + (i - 1) * size == offset + i * size
      {
      }
    }
  }

  /** A section of picked controls reads as the controls picked from their intended readings. */
  lemma SectionRead(flags: seq<bool>, page: nat, ids: seq<nat>, values: seq<nat>,
                    offset: nat, size: nat, lmin: int, lmax: int, r: seq<byte>)
    requires |flags| == |ids| == |values|
    requires forall j :: 0 <= j < |flags| && flags[j] ==>
               FieldValue(r, offset + Count(flags[..j]) * size, size) == values[j]
    ensures ReadFields(Layout(offset, size, On(page, Pick(flags, ids)), lmin, lmax), r)
            == Pick(flags, Zip(On(page, ids), values))
  {
    hide FieldValue, Layout, ReadFields, Count, Pick;
    var us := On(page, Pick(flags, ids));
    var read := seq(|us|, i requires 0 <= i < |us| => FieldValue(r, offset + i * size, size));
    ReadLayout(offset, size, us, lmin, lmax, r);
    PickZip(flags, page, ids, read, values);
  }

  // ------------------------------------------------------------ section by section

  lemma {:induction false} WordsAt(vs: seq<int16>, i: nat)
    requires i < |vs|
    ensures Words(vs)[2 * i..2 * i + 2] == Word(vs[i])
  {
    var n := |vs| - 1;
    if i < n {
      WordsAt(vs[..n], i);
      assert Words(vs)[2 * i..2 * i + 2] == Words(vs[..n])[2 * i..2 * i + 2];
    }
  }

  /** Part p of the report starts at byte at. */
  ghost predicate Holds(r: seq<byte>, at: nat, p: seq<byte>) {
    at + |p| <= |r| && r[at..at + |p|] == p
  }

  lemma WordRead(r: seq<byte>, at: nat, vs: seq<int16>, i: nat)
    requires Holds(r, at, Words(vs)) && i < |vs|
    ensures FieldValue(r, 8 * at + i * 16, 16) == Low16(vs[i])
  {
    hide FieldValue, Words;
    WordsAt(vs, i);
    var k := at + 2 * i;
    assert r[k] == Words(vs)[2 * i..2 * i + 2][0];
    assert r[k + 1] == Words(vs)[2 * i..2 * i + 2][1];
    WordValue(r, k);
    assert 8 * at + i * 16 == 8 * k;
    WordParts(vs[i]);
  }

  lemma WordParts(v: int16)
    ensures (Word(v)[0] as int) + 256 * (Word(v)[1] as int) == Low16(v)
  {
    var q := (v as int) / 256;
    assert (v as int) == 0x1_0000 * (q / 256) + (256 * (q % 256) + (v as int) % 256);
  }

  /** Sixteen-bit controls picked by flags read as picked from the readings of all. */
  lemma PickedWords(r: seq<byte>, at: nat, flags: seq<bool>, page: nat, ids: seq<nat>, vs: seq<int16>, lmin: int,
                    lmax: int)
    requires |flags| == |ids| == |vs| && Holds(r, at, Words(Pick(flags, vs)))
    ensures ReadFields(Layout(8 * at, 16, On(page, Pick(flags, ids)), lmin, lmax), r)
            == Pick(flags, Zip(On(page, ids), Lows(vs)))
  {
    hide FieldValue, Layout, ReadFields, Count, Pick, Words, Low16;
    forall j | 0 <= j < |flags| && flags[j]
      ensures FieldValue(r, 8 * at + Count(flags[..j]) * 16, 16) == Lows(vs)[j]
    {
      PickAt(flags, vs, j);
      WordRead(r, at, Pick(flags, vs), Count(flags[..j]));
    }
    SectionRead(flags, page, ids, Lows(vs), 8 * at, 16, lmin, lmax, r);
  }

  function Lows(vs: seq<int16>): (r: seq<nat>)
    ensures |r| == |vs|
  {
    seq(|vs|, i requires 0 <= i < |vs| => Low16(vs[i]))
  }

  lemma AxesRead(c: Config, k: Controls, r: seq<byte>, at: nat)
    requires WellSized(c) && FullSize(k) && Holds(r, at, Words(Pick(AxisFlags(c), AxisValues(k))))
    ensures ReadFields(AxisFields(c, 8 * at), r) == AxisView(c, k.axes)
  {
    hide Layout, ReadFields, Pick, Words, Low16;
    PickedWords(r, at, AxisFlags(c), DESKTOP_PAGE, AXIS_USAGES, AxisValues(k), c.axesMin, c.axesMax);
    var a := k.axes;
    assert Zip(On(DESKTOP_PAGE, AXIS_USAGES), Lows(AxisValues(k))) == [
      Reading(Usage(0x01, 0x30), Low16(a[X])), Reading(Usage(0x01, 0x31), Low16(a[Y])),
      Reading(Usage(0x01, 0x32), Low16(a[Z])), Reading(Usage(0x01, 0x35), Low16(a[RZ])),
      Reading(Usage(0x01, 0x33), Low16(a[RX])), Reading(Usage(0x01, 0x34), Low16(a[RY])),
      Reading(Usage(0x01, 0x36), Low16(a[SLIDER1])), Reading(Usage(0x01, 0x36), Low16(a[SLIDER2]))];
  }

  lemma SimulationRead(c: Config, k: Controls, r: seq<byte>, at: nat)
    requires WellSized(c) && FullSize(k) && Holds(r, at, Words(Pick(c.simulation, k.simulation)))
    ensures ReadFields(SimulationFields(c, 8 * at), r) == SimulationView(c, k.simulation)
  {
    hide Layout, ReadFields, Pick, Words, Low16;
    PickedWords(r, at, c.simulation, SIMULATION_PAGE, SIMULATION_USAGES, k.simulation, c.simulationMin,
                c.simulationMax);
    var v := k.simulation;
    assert Zip(On(SIMULATION_PAGE, SIMULATION_USAGES), Lows(v)) == [
      Reading(Usage(0x02, 0xBA), Low16(v[RUDDER])), Reading(Usage(0x02, 0xBB), Low16(v[THROTTLE])),
      Reading(Usage(0x02, 0xC4), Low16(v[ACCELERATOR])), Reading(Usage(0x02, 0xC5), Low16(v[BRAKE])),
      Reading(Usage(0x02, 0xC8), Low16(v[STEERING]))];
  }

  lemma MotionRead(c: Config, ids: seq<nat>, v: seq<int16>, r: seq<byte>, at: nat)
    requires |ids| == |v| == 3 && Holds(r, at, Words(v))
    ensures ReadFields(MotionFields(true, c, ids, 8 * at), r)
            == [Reading(Usage(0x01, ids[0]), Low16(v[0])), Reading(Usage(0x01, ids[1]), Low16(v[1])),
                Reading(Usage(0x01, ids[2]), Low16(v[2]))]
  {
    hide FieldValue, Layout, ReadFields, Words, Low16;
    ReadLayout(8 * at, 16, On(DESKTOP_PAGE, ids), c.motionMin, c.motionMax, r);
    WordRead(r, at, v, 0);
    WordRead(r, at, v, 1);
    WordRead(r, at, v, 2);
  }

  lemma HatsRead(c: Config, hats: seq<int8>, r: seq<byte>, at: nat)
    requires c.hatSwitchCount <= |hats| && Holds(r, at, HatBytes(hats, c.hatSwitchCount))
    ensures ReadFields(HatFields(c, 8 * at), r) == HatView(c.hatSwitchCount, hats)
  {
    hide FieldValue, Layout, ReadFields, Repeat, Low8;
    var n, us := c.hatSwitchCount, On(DESKTOP_PAGE, Repeat(HAT_USAGE, c.hatSwitchCount));
    ReadLayout(8 * at, 8, us, 1, 8, r);
    forall i | 0 <= i < n
      ensures us[i] == Usage(0x01, 0x39) && FieldValue(r, 8 * at + i * 8, 8) == Low8(hats[n - 1 - i])
    {
      RepeatAt(HAT_USAGE, n, i);
      assert 8 * at + i * 8 == 8 * (at + i);
      ByteValue(r, at + i);
      assert r[at + i] == HatBytes(hats, n)[i];
    }
  }

  lemma {:induction false} RepeatAt<T>(x: T, n: nat, i: nat)
    requires i < n
    ensures Repeat(x, n)[i] == x
  {
    if i < n - 1 {
      RepeatAt(x, n - 1, i);
    }
  }

  lemma PaddingUnread(offset: nat, bits: nat, r: seq<byte>)
    ensures ReadFields(PaddingFields(offset, bits), r) == []
  {
    if bits > 0 {
      assert [Padding(offset, bits)][..0] == [];
    }
  }

  lemma ButtonsRead(c: Config, k: Controls, g: Held, r: seq<byte>)
    requires Represents(c, k, g) && c.buttonCount <= 128
    requires Holds(r, 0, k.buttons[..BytesFor(c.buttonCount)])
    ensures ReadFields(ButtonFields(c, 0), r) == ButtonView(c, g)
  {
    hide FieldValue, Layout, ReadFields, Bit, Count, Rank;
    var n, us := c.buttonCount, UsageRange(BUTTON_PAGE, 1, c.buttonCount);
    var bits := Layout(0, 1, us, 0, 1);
    ReadAppend(bits, PaddingFields(n, PaddingBits(n)), r);
    PaddingUnread(n, PaddingBits(n), r);
    ReadLayout(0, 1, us, 0, 1, r);
    forall i | 0 <= i < n
      ensures us[i] == Usage(0x09, i + 1) && FieldValue(r, 0 + i * 1, 1) == Flag(i + 1 in g.buttons)
    {
      SingleBitValue(r, i);
      assert i / 8 < BytesFor(n);
      assert r[i / 8] == r[0..BytesFor(n)][i / 8] == k.buttons[i / 8];
      assert i + 1 in g.buttons <==> ButtonBit(k.buttons, i + 1);
    }
  }

  /** A special button's bit, at its rank among the included buttons. */
  lemma SpecialBitRead(c: Config, k: Controls, g: Held, r: seq<byte>, at: nat, b: nat)
    requires Represents(c, k, g) && b < 8 && c.special[b]
    requires at < |r| && r[at] == k.special
    ensures Rank(c, b) < 8
    ensures FieldValue(r, 8 * at + Rank(c, b), 1) == Flag(b in g.special)
  {
    hide FieldValue, Count, Bit, ButtonBit;
    PickAt(c.special, c.special, b);
    CountBound(c.special);
    var i := 8 * at + Rank(c, b);
    SingleBitValue(r, i);
    assert i / 8 == at && i % 8 == Rank(c, b);
  }

  lemma DesktopRead(c: Config, k: Controls, g: Held, r: seq<byte>, at: nat)
    requires Represents(c, k, g) && at < |r| && r[at] == k.special
    ensures ReadFields(Layout(8 * at, 1, On(DESKTOP_PAGE, Pick(c.special[..3], DESKTOP_BUTTONS)), 0, 1), r)
            == Pick(c.special[..3], [
                 Reading(Usage(0x01, 0x3D), Flag(START in g.special)),
                 Reading(Usage(0x01, 0x3E), Flag(SELECT in g.special)),
                 Reading(Usage(0x01, 0x86), Flag(MENU in g.special))])
  {
    hide FieldValue, Layout, ReadFields, Count, Bit, ButtonBit, Pick;
    var flags := c.special[..3];
    var values := [Flag(START in g.special), Flag(SELECT in g.special), Flag(MENU in g.special)];
    forall j | 0 <= j < 3 && flags[j]
      ensures FieldValue(r, 8 * at + Count(flags[..j]) * 1, 1) == values[j]
    {
      assert flags[..j] == c.special[..j];
      SpecialBitRead(c, k, g, r, at, j);
    }
    SectionRead(flags, DESKTOP_PAGE, DESKTOP_BUTTONS, values, 8 * at, 1, 0, 1, r);
    assert Zip(On(DESKTOP_PAGE, DESKTOP_BUTTONS), values) == [
      Reading(Usage(0x01, 0x3D), Flag(START in g.special)),
      Reading(Usage(0x01, 0x3E), Flag(SELECT in g.special)),
      Reading(Usage(0x01, 0x86), Flag(MENU in g.special))];
  }

  lemma ConsumerRead(c: Config, k: Controls, g: Held, r: seq<byte>, at: nat)
    requires Represents(c, k, g) && at < |r| && r[at] == k.special
    ensures ReadFields(Layout(8 * at + Count(c.special[..3]), 1,
                              On(CONSUMER_PAGE, Pick(c.special[3..], CONSUMER_BUTTONS)), 0, 1), r)
            == Pick(c.special[3..], [
                 Reading(Usage(0x0C, 0x223), Flag(HOME in g.special)),
                 Reading(Usage(0x0C, 0x224), Flag(BACK in g.special)),
                 Reading(Usage(0x0C, 0xE9), Flag(VOLUME_INC in g.special)),
                 Reading(Usage(0x0C, 0xEA), Flag(VOLUME_DEC in g.special)),
                 Reading(Usage(0x0C, 0xE2), Flag(VOLUME_MUTE in g.special))])
  {
    hide FieldValue, Layout, ReadFields, Count, Bit, ButtonBit, Pick, Zip, On;
    var flags, first := c.special[3..], Count(c.special[..3]);
    var values := [Flag(HOME in g.special), Flag(BACK in g.special), Flag(VOLUME_INC in g.special),
                   Flag(VOLUME_DEC in g.special), Flag(VOLUME_MUTE in g.special)];
    forall j | 0 <= j < 5 && flags[j]
      ensures FieldValue(r, 8 * at + first + Count(flags[..j]) * 1, 1) == values[j]
    {
      CountSplit(c.special[..3 + j], 3);
      assert c.special[..3 + j][..3] == c.special[..3] && c.special[..3 + j][3..] == flags[..j];
      SpecialBitRead(c, k, g, r, at, 3 + j);
    }
    SectionRead(flags, CONSUMER_PAGE, CONSUMER_BUTTONS, values, 8 * at + first, 1, 0, 1, r);
    ConsumerZip(values);
  }

  lemma ConsumerZip(v: seq<nat>)
    requires |v| == 5
    ensures Zip(On(CONSUMER_PAGE, CONSUMER_BUTTONS), v) == [
              Reading(Usage(0x0C, 0x223), v[0]), Reading(Usage(0x0C, 0x224), v[1]), Reading(Usage(0x0C, 0xE9), v[2]),
              Reading(Usage(0x0C, 0xEA), v[3]), Reading(Usage(0x0C, 0xE2), v[4])]
  {
  }

  lemma SpecialRead(c: Config, k: Controls, g: Held, r: seq<byte>, at: nat)
    requires Represents(c, k, g) && Holds(r, at, SpecialByte(c, k))
    ensures ReadFields(SpecialFields(c, 8 * at), r) == SpecialView(c, g)
  {
    hide FieldValue, Layout, ReadFields, Count, Bit, ButtonBit, Pick, PaddingFields, SpecialByte, On, Holds;
    var d, u := Pick(c.special[..3], DESKTOP_BUTTONS), Pick(c.special[3..], CONSUMER_BUTTONS);
    var f1, f2 := Layout(8 * at, 1, On(DESKTOP_PAGE, d), 0, 1), Layout(8 * at + |d|, 1, On(CONSUMER_PAGE, u), 0, 1);
    var n := Count(c.special);
    var f3 := PaddingFields(8 * at + n, PaddingBits(n));
    CountSplit(c.special, 3);
    ReadAppend(f1 + f2, f3, r);
    ReadAppend(f1, f2, r);
    PaddingUnread(8 * at + n, PaddingBits(n), r);
    if n == 0 {
      ReadNothing(f1, r);
      ReadNothing(f2, r);
    } else {
      SpecialByteHere(c, k, r, at);
      DesktopRead(c, k, g, r, at);
      ConsumerRead(c, k, g, r, at);
    }
  }

  lemma SpecialByteHere(c: Config, k: Controls, r: seq<byte>, at: nat)
    requires Holds(r, at, SpecialByte(c, k)) && Count(c.special) > 0
    ensures at < |r| && r[at] == k.special
  {
    assert SpecialByte(c, k) == [k.special];
    assert r[at] == r[at..at + 1][0];
  }

  lemma ReadNothing(fields: seq<Field>, r: seq<byte>)
    requires fields == []
    ensures ReadFields(fields, r) == []
  {
  }

  // ------------------------------------------------------------ the whole report

  lemma PackParts(c: Config, k: Controls)
    requires Supported(c) && FullSize(k)
    ensures |Pack(c, k)| == ReportSize(c)
    ensures Holds(Pack(c, k), 0, k.buttons[..BytesFor(c.buttonCount)])
    ensures Holds(Pack(c, k), SpecialAt(c), SpecialByte(c, k))
    ensures Holds(Pack(c, k), AxesAt(c), Words(Pick(AxisFlags(c), AxisValues(k))))
    ensures Holds(Pack(c, k), SimulationAt(c), Words(Pick(c.simulation, k.simulation)))
    ensures Holds(Pack(c, k), GyroscopeAt(c), Words(if c.gyroscope then k.gyroscope else []))
    ensures Holds(Pack(c, k), AccelerometerAt(c), Words(if c.accelerometer then k.accelerometer else []))
    ensures Holds(Pack(c, k), HatsAt(c), HatBytes(k.hats, c.hatSwitchCount))
  {
    hide Words, Pick, Count, AxisFlags, AxisValues, HatBytes, SpecialByte, Holds, BytesFor;
    SameAxisCount(c);
    SpecialByteSize(c, k);
    CountBytes(c);
    Concatenated(k.buttons[..BytesFor(c.buttonCount)], SpecialByte(c, k), Words(Pick(AxisFlags(c), AxisValues(k))),
                 Words(Pick(c.simulation, k.simulation)), Words(if c.gyroscope then k.gyroscope else []),
                 Words(if c.accelerometer then k.accelerometer else []), HatBytes(k.hats, c.hatSwitchCount));
  }

  lemma CountBytes(c: Config)
    requires c.buttonCount <= 128
    ensures BytesFor(c.buttonCount) <= 16
  {
  }

  lemma Concatenated(a: seq<byte>, b: seq<byte>, d: seq<byte>, e: seq<byte>, f: seq<byte>, g: seq<byte>, h: seq<byte>)
    ensures var r := a + b + d + e + f + g + h;
            && Holds(r, 0, a) && Holds(r, |a|, b) && Holds(r, |a| + |b|, d) && Holds(r, |a| + |b| + |d|, e)
            && Holds(r, |a| + |b| + |d| + |e|, f) && Holds(r, |a| + |b| + |d| + |e| + |f|, g)
            && Holds(r, |a| + |b| + |d| + |e| + |f| + |g|, h)
  {
    hide Holds;
    Extended([], a);
    assert [] + a == a;
    Extended(a, b);
    Extended(a + b, d);
    Extended(a + b + d, e);
    Extended(a + b + d + e, f);
    Extended(a + b + d + e + f, g);
    Extended(a + b + d + e + f + g, h);
  }

  lemma Extended(r: seq<byte>, q: seq<byte>)
    ensures Holds(r + q, |r|, q)
    ensures forall at: nat, p {:trigger Holds(r, at, p)} :: Holds(r, at, p) ==> Holds(r + q, at, p)
  {
    forall at: nat, p | Holds(r, at, p)
      ensures Holds(r + q, at, p)
    {
      assert (r + q)[at..at + |p|] == r[at..at + |p|];
    }
  }

  lemma SpecialByteSize(c: Config, k: Controls)
    requires WellSized(c)
    ensures |SpecialByte(c, k)| == BytesFor(Count(c.special))
  {
    CountBound(c.special);
  }

  /** The host, reading the packed report through the descriptor's fields, sees every included
      control under its own usage with its own state, and nothing else. */
  lemma ReportReadsBack(c: Config, k: Controls, g: Held)
    requires Supported(c) && Represents(c, k, g)
    ensures ReadFields(AllFields(c), Pack(c, k)) == HostView(c, g)
  {
    hide Words, Pick, Count, AxisFlags, AxisValues, HatBytes, SpecialByte, Pack, Layout, ReadFields, FieldValue,
         BytesFor;
    hide ButtonFields, SpecialFields, AxisFields, SimulationFields, HatFields;
    hide ButtonView, SpecialView, AxisView, SimulationView, HatView, Holds, Bit, ButtonBit;
    var r := Pack(c, k);
    PackParts(c, k);
    ButtonsRead(c, k, g, r);
    SpecialRead(c, k, g, r, SpecialAt(c));
    AxesRead(c, k, r, AxesAt(c));
    SimulationRead(c, k, r, SimulationAt(c));
    HatsRead(c, k.hats, r, HatsAt(c));
    var fg := MotionFields(c.gyroscope, c, GYROSCOPE_USAGES, 8 * GyroscopeAt(c));
    var fa := MotionFields(c.accelerometer, c, ACCELEROMETER_USAGES, 8 * AccelerometerAt(c));
    if c.gyroscope {
      MotionRead(c, GYROSCOPE_USAGES, k.gyroscope, r, GyroscopeAt(c));
    } else {
      ReadNothing(fg, r);
    }
    if c.accelerometer {
      MotionRead(c, ACCELEROMETER_USAGES, k.accelerometer, r, AccelerometerAt(c));
    } else {
      ReadNothing(fa, r);
    }
    SplitReading(c, r);
  }

  lemma SplitReading(c: Config, r: seq<byte>)
    requires WellSized(c)
    ensures ReadFields(AllFields(c), r)
            == ReadFields(ButtonFields(c, 0), r) + ReadFields(SpecialFields(c, 8 * SpecialAt(c)), r)
               + ReadFields(AxisFields(c, 8 * AxesAt(c)), r) + ReadFields(SimulationFields(c, 8 * SimulationAt(c)), r)
               + ReadFields(MotionFields(c.gyroscope, c, GYROSCOPE_USAGES, 8 * GyroscopeAt(c)), r)
               + ReadFields(MotionFields(c.accelerometer, c, ACCELEROMETER_USAGES, 8 * AccelerometerAt(c)), r)
               + ReadFields(HatFields(c, 8 * HatsAt(c)), r)
  {
    hide ReadFields, ButtonFields, SpecialFields, AxisFields, SimulationFields, MotionFields, HatFields;
    hide SpecialAt, AxesAt, SimulationAt, GyroscopeAt, AccelerometerAt, HatsAt;
    var f1, f2, f3 := ButtonFields(c, 0), SpecialFields(c, 8 * SpecialAt(c)), AxisFields(c, 8 * AxesAt(c));
    var f4 := SimulationFields(c, 8 * SimulationAt(c));
    var f5 := MotionFields(c.gyroscope, c, GYROSCOPE_USAGES, 8 * GyroscopeAt(c));
    var f6 := MotionFields(c.accelerometer, c, ACCELEROMETER_USAGES, 8 * AccelerometerAt(c));
    var f7 := HatFields(c, 8 * HatsAt(c));
    ReadAppend(f1 + f2 + f3 + f4 + f5 + f6, f7, r);
    ReadAppend(f1 + f2 + f3 + f4 + f5, f6, r);
    ReadAppend(f1 + f2 + f3 + f4, f5, r);
    ReadAppend(f1 + f2 + f3, f4, r);
    ReadAppend(f1 + f2, f3, r);
    ReadAppend(f1, f2, r);
  }
}
