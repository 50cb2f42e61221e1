/** A host's reading of a HID report descriptor: the short-item subset of the Device Class
    Definition for HID 1.11, sections 6.2.2.2 (short items), 6.2.2.4 and 6.2.2.5 (main
    items), 6.2.2.7 (global items) and 6.2.2.8 (local items), for one report identifier. */
module HidDescriptor {
  import opened Bits

  /** A short item: the prefix byte (tag, type, data size) and its data. */
  datatype Item = Item(prefix: byte, data: seq<byte>)

  datatype Usage = Usage(page: nat, id: nat)

  /** A piece of the input report: data with a usage and a logical range, or padding. */
  datatype Field =
    | Data(offset: nat, size: nat, usage: Usage, lmin: int, lmax: int)
    | Padding(offset: nat, size: nat)

  /** The item state table: globals, locals, open collections, and what was laid out. */
  datatype Parser = Parser(
    ok: bool,
    page: nat, lmin: int, lmax: int, size: nat, count: nat,
    usages: seq<Usage>, usageMin: nat,
    depth: nat,
    offset: nat, fields: seq<Field>)

  const INITIAL_PARSER := Parser(true, 0, 0, 0, 0, 0, [], 0, 0, 0, [])

  /** Data bytes announced by a prefix: size code 3 means four. */
  function DataSize(prefix: byte): nat {
    if prefix % 4 == 3 then 4 else prefix % 4
  }

  ghost predicate WellFormed(i: Item) {
    |i.data| == DataSize(i.prefix) && i.prefix != 0xFE
  }

  /** Unsigned little-endian value. */
  function Unsigned(data: seq<byte>): nat {
    if data == [] then 0 else data[0] + 256 * Unsigned(data[1..])
  }

  /** Two's-complement little-endian value. */
  function Signed(data: seq<byte>): int {
    if data == [] then 0
    else if data[|data| - 1] >= 128 then Unsigned(data) - Pow2(8 * |data|)
    else Unsigned(data)
  }

  function EndMain(s: Parser): Parser {
    s.(usages := [], usageMin := 0)
  }

  /** The i-th of count controls takes the i-th usage; the last usage covers the rest. */
  function Assigned(usages: seq<Usage>, count: nat): (r: seq<Usage>)
    requires usages != []
    ensures |r| == count
  {
    seq(count, i requires 0 <= i < count => if i < |usages| then usages[i] else usages[|usages| - 1])
  }

  /** Equal-sized data fields one after the other. */
  function Layout(offset: nat, size: nat, usages: seq<Usage>, lmin: int, lmax: int): (r: seq<Field>)
    ensures |r| == |usages|
    decreases |usages|
  {
    if usages == [] then []
    else [Data(offset, size, usages[0], lmin, lmax)] + Layout(offset + size, size, usages[1..], lmin, lmax)
  }

  /** Main item Input: constant fields are padding; data variables take the usages. */
  function Input(flags: nat, s: Parser): Parser {
    if flags % 2 == 1 then
      EndMain(s.(offset := s.offset + s.size * s.count,
                 fields := s.fields + [Padding(s.offset, s.size * s.count)]))
    else if (flags / 2) % 2 == 1 && s.usages != [] then
      EndMain(s.(offset := s.offset + s.size * s.count,
                 fields := s.fields + Layout(s.offset, s.size, Assigned(s.usages, s.count), s.lmin, s.lmax)))
    else s.(ok := false)
  }

  function UsageRange(page: nat, first: nat, last: nat): seq<Usage> {
    if first > last then [] else seq(last - first + 1, i requires 0 <= i => Usage(page, first + i))
  }

  function Apply(i: Item, s: Parser): Parser {
    var kind := i.prefix - i.prefix % 4;
    var u := Unsigned(i.data);
    if kind == 0x80 then Input(u, s)
    else if kind == 0x90 then EndMain(s)
    else if kind == 0xA0 then EndMain(s.(depth := s.depth + 1))
    else if kind == 0xC0 then
      if s.depth == 0 then s.(ok := false) else EndMain(s.(depth := s.depth - 1))
    else if kind == 0x04 then s.(page := u)
    else if kind == 0x14 then s.(lmin := Signed(i.data))
    else if kind == 0x24 then s.(lmax := Signed(i.data))
    else if kind == 0x34 || kind == 0x44 || kind == 0x64 || kind == 0x84 then s
    else if kind == 0x74 then s.(size := u)
    else if kind == 0x94 then s.(count := u)
    else if kind == 0x08 then s.(usages := s.usages + [Usage(s.page, u)])
    else if kind == 0x18 then s.(usageMin := u)
    else if kind == 0x28 then s.(usages := s.usages + UsageRange(s.page, s.usageMin, u))
    else s.(ok := false)
  }

  /** Reads a descriptor byte by byte: a prefix, then as many data bytes as it announces. */
  function Parse(d: seq<byte>, s: Parser): Parser
    decreases |d|
  {
    if d == [] then s
    else
      var n := DataSize(d[0]);
      if d[0] == 0xFE || |d| < 1 + n then s.(ok := false)
      else Parse(d[1 + n..], Apply(Item(d[0], d[1..1 + n]), s))
  }

  // ------------------------------------------------------------ items and bytes

  function ItemBytes(i: Item): seq<byte> {
    [i.prefix] + i.data
  }

  function Encode(items: seq<Item>): seq<byte> {
    if items == [] then [] else Encode(items[..|items| - 1]) + ItemBytes(items[|items| - 1])
  }

  function ApplyAll(items: seq<Item>, s: Parser): Parser {
    if items == [] then s else Apply(items[|items| - 1], ApplyAll(items[..|items| - 1], s))
  }

  lemma EncodeSnoc(items: seq<Item>, i: Item)
    ensures Encode(items + [i]) == Encode(items) + ItemBytes(i)
  {
    assert (items + [i])[..|items|] == items;
  }

  lemma ApplySnoc(items: seq<Item>, i: Item, s: Parser)
    ensures ApplyAll(items + [i], s) == Apply(i, ApplyAll(items, s))
  {
    assert (items + [i])[..|items|] == items;
  }

  lemma {:induction false} ApplyAppend(a: seq<Item>, b: seq<Item>, s: Parser)
    ensures ApplyAll(a + b, s) == ApplyAll(b, ApplyAll(a, s))
  {
    if b == [] {
      assert a + b == a;
    } else {
      var n := |b| - 1;
      assert a + b == (a + b[..n]) + [b[n]];
      ApplySnoc(a + b[..n], b[n], s);
      ApplyAppend(a, b[..n], s);
    }
  }

  lemma {:induction false} EncodeAppend(a: seq<Item>, b: seq<Item>)
    ensures Encode(a + b) == Encode(a) + Encode(b)
  {
    if b == [] {
      assert a + b == a;
    } else {
      var n := |b| - 1;
      assert a + b == (a + b[..n]) + [b[n]];
      EncodeSnoc(a + b[..n], b[n]);
      EncodeAppend(a, b[..n]);
      assert Encode(b) == Encode(b[..n]) + ItemBytes(b[n]);
    }
  }

  /** Parsing the bytes of well-formed items is applying the items. */
  lemma {:induction false} ParseEncode(items: seq<Item>, s: Parser)
    requires forall k :: 0 <= k < |items| ==> WellFormed(items[k])
    ensures Parse(Encode(items), s) == ApplyAll(items, s)
    decreases |items|
  {
    hide Apply, Parse, Encode, ApplyAll, ItemBytes, WellFormed;
    if items == [] {
      ParseNothing(s);
    } else {
      var i, rest := items[0], items[1..];
      assert items == [i] + rest;
      EncodeAppend([i], rest);
      ApplyAppend([i], rest, s);
      EncodeSnoc([], i);
      ParseNothing(s);
      assert [] + [i] == [i];
      assert [] + ItemBytes(i) == ItemBytes(i);
      Apply1(i, s);
      ParseItem(i, Encode(rest), s);
      ParseEncode(rest, Apply(i, s));
    }
  }

  lemma ParseNothing(s: Parser)
    ensures Encode([]) == [] && Parse([], s) == s && ApplyAll([], s) == s
  {
  }

  /** One item's bytes are taken off the front. */
  lemma ParseItem(i: Item, rest: seq<byte>, s: Parser)
    requires WellFormed(i)
    ensures Parse(ItemBytes(i) + rest, s) == Parse(rest, Apply(i, s))
  {
    hide Apply;
    var d := ItemBytes(i) + rest;
    assert d[0] == i.prefix;
    assert d[1..1 + |i.data|] == i.data && d[1 + |i.data|..] == rest;
  }

  lemma Apply1(a: Item, s: Parser)
    ensures ApplyAll([a], s) == Apply(a, s)
  {
    ApplySnoc([], a, s);
    assert [] + [a] == [a];
  }

  lemma Apply2(a: Item, b: Item, s: Parser)
    ensures ApplyAll([a, b], s) == Apply(b, Apply(a, s))
  {
    Apply1(a, s);
    ApplySnoc([a], b, s);
    assert [a] + [b] == [a, b];
  }

  lemma Apply4(a: Item, b: Item, c: Item, d: Item, s: Parser)
    ensures ApplyAll([a, b, c, d], s) == Apply(d, Apply(c, Apply(b, Apply(a, s))))
  {
    Apply2(a, b, s);
    ApplySnoc([a, b], c, s);
    ApplySnoc([a, b, c], d, s);
    assert [a, b] + [c] == [a, b, c];
    assert [a, b, c] + [d] == [a, b, c, d];
  }

  // ------------------------------------------------------------ reading a report

  predicate ReportBit(report: seq<byte>, i: nat) {
    i / 8 < |report| && Bit(report[i / 8], i % 8)
  }

  /** The unsigned value of size bits from offset on, least significant first. */
  function FieldValue(report: seq<byte>, offset: nat, size: nat): nat
    decreases size
  {
    if size == 0 then 0
    else (if ReportBit(report, offset) then 1 else 0) + 2 * FieldValue(report, offset + 1, size - 1)
  }

  /** A control as the host sees it. */
  datatype Reading = Reading(usage: Usage, value: nat)

  /** What the host makes of a report: every data field in order, padding skipped. */
  function ReadFields(fields: seq<Field>, report: seq<byte>): seq<Reading> {
    if fields == [] then []
    else
      var before, f := ReadFields(fields[..|fields| - 1], report), fields[|fields| - 1];
      match f
      case Padding(_, _) => before
      case Data(offset, size, usage, _, _) => before + [Reading(usage, FieldValue(report, offset, size))]
  }

  lemma {:induction false} ReadAppend(a: seq<Field>, b: seq<Field>, report: seq<byte>)
    ensures ReadFields(a + b, report) == ReadFields(a, report) + ReadFields(b, report)
  {
    if b == [] {
      assert a + b == a;
    } else {
      var n := |b| - 1;
      assert (a + b)[..|a| + n] == a + b[..n];
      assert (a + b)[|a| + n] == b[n];
      ReadAppend(a, b[..n], report);
    }
  }

  function Shr(x: nat, k: nat): nat {
    if k == 0 then x else Shr(x / 2, k - 1)
  }

  lemma {:induction false} ShrFacts(x: nat, k: nat)
    ensures Bit(x, k) <==> Shr(x, k) % 2 == 1
    ensures Shr(x, k + 1) == Shr(x, k) / 2
  {
    if k > 0 {
      ShrFacts(x / 2, k - 1);
    }
  }

  /** Bits inside one byte: what is left of the byte after shifting, if it all fits. */
  lemma {:induction false} BitsInByte(report: seq<byte>, k: nat, j: nat, size: nat)
    requires k < |report| && j + size == 8
    requires Shr(report[k], j) < Pow2(size)
    ensures FieldValue(report, 8 * k + j, size) == Shr(report[k], j)
    decreases size
  {
    if size > 0 {
      ShrFacts(report[k], j);
      assert (8 * k + j) / 8 == k && (8 * k + j) % 8 == j;
      BitsInByte(report, k, j + 1, size - 1);
    }
  }

  lemma {:induction false} SplitValue(report: seq<byte>, offset: nat, a: nat, b: nat)
    ensures FieldValue(report, offset, a + b)
            == FieldValue(report, offset, a) + Pow2(a) * FieldValue(report, offset + a, b)
    decreases a
  {
    hide ReportBit;
    if a > 0 {
      SplitValue(report, offset + 1, a - 1, b);
      var v := FieldValue(report, offset + a, b);
      assert offset + 1 + (a - 1) == offset + a;
      DoubleProduct(Pow2(a - 1), v);
    }
  }

  lemma DoubleProduct(p: nat, v: nat)
    ensures 2 * (p * v) == (2 * p) * v
  {
  }

  /** A byte-aligned field of eight bits is that byte. */
  lemma ByteValue(report: seq<byte>, k: nat)
    requires k < |report|
    ensures FieldValue(report, 8 * k, 8) == report[k]
  {
    hide FieldValue;
    Pow2Values();
    BitsInByte(report, k, 0, 8);
  }

  /** A byte-aligned field of sixteen bits is two bytes, low byte first. */
  lemma WordValue(report: seq<byte>, k: nat)
    requires k + 1 < |report|
    ensures FieldValue(report, 8 * k, 16) == (report[k] as int) + 256 * (report[k + 1] as int)
  {
    hide FieldValue;
    Pow2Values();
    ByteValue(report, k);
    ByteValue(report, k + 1);
    SplitValue(report, 8 * k, 8, 8);
    assert 8 * k + 8 == 8 * (k + 1);
  }

  lemma SingleBitValue(report: seq<byte>, offset: nat)
    ensures FieldValue(report, offset, 1) == if ReportBit(report, offset) then 1 else 0
  {
    assert FieldValue(report, offset + 1, 0) == 0;
  }
}
