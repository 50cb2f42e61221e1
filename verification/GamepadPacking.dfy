/** The packing steps of BleGamepad::sendReport, writing the report buffer in place. */
module GamepadPacking {
  import opened Bits
  import opened HidDescriptor
  import opened GamepadDescriptor
  import opened GamepadLayout
  import opened GamepadReport

  /** One sixteen-bit value, low byte first. */
  method PutWord(m: array<byte>, i: nat, v: int16) returns (j: nat)
    requires i + 2 <= m.Length
    modifies m
    ensures j == i + 2 && m[..j] == old(m[..i]) + Word(v)
  {
    m[i] := v % 256;
    m[i + 1] := (v / 256) % 256;
    j := i + 2;
  }

  /** Before the section came `before`; then the included ones among the first k values. */
  ghost predicate Packed(p: seq<byte>, before: seq<byte>, flags: seq<bool>, vs: seq<int16>, k: nat) {
    k <= |flags| == |vs| && p == before + Words(Pick(flags[..k], vs[..k]))
  }

  lemma PackedStep(p: seq<byte>, before: seq<byte>, flags: seq<bool>, vs: seq<int16>, k: nat)
    requires k < |flags| && Packed(p, before, flags, vs, k)
    ensures Packed(p + if flags[k] then Word(vs[k]) else [], before, flags, vs, k + 1)
  {
    hide Word, Words, Pick;
    var picked := Pick(flags[..k], vs[..k]);
    PickGrows(flags, vs, k);
    if flags[k] {
      WordsSnoc(picked, vs[k]);
    } else {
      assert picked + [] == picked && p + [] == p;
    }
  }

  lemma WordsSnoc(vs: seq<int16>, v: int16)
    ensures Words(vs + [v]) == Words(vs) + Word(v)
  {
    assert (vs + [v])[..|vs|] == vs;
  }

  lemma NothingPacked(p: seq<byte>, flags: seq<bool>, vs: seq<int16>)
    requires |flags| == |vs|
    ensures Packed(p, p, flags, vs, 0)
  {
    assert p + [] == p;
  }

  lemma AllPacked(p: seq<byte>, before: seq<byte>, flags: seq<bool>, vs: seq<int16>)
    requires |flags| == |vs| && Packed(p, before, flags, vs, |flags|)
    ensures p == before + Words(Pick(flags, vs))
  {
    assert flags[..|flags|] == flags && vs[..|flags|] == vs;
  }

  method PutIncluded(m: array<byte>, i: nat, included: bool, v: int16,
                     ghost before: seq<byte>, ghost flags: seq<bool>, ghost vs: seq<int16>, ghost k: nat)
    returns (j: nat)
    requires k < |flags| && i <= m.Length && Packed(m[..i], before, flags, vs, k)
    requires flags[k] == included && vs[k] == v && i + 2 * One(included) <= m.Length
    modifies m
    ensures j == i + 2 * One(included) && Packed(m[..j], before, flags, vs, k + 1)
  {
    hide Packed, Word;
    PackedStep(m[..i], before, flags, vs, k);
    j := i;
    if included {
      j := PutWord(m, i, v);
    } else {
      assert m[..i] + [] == m[..i];
    }
  }

  method PutFour(m: array<byte>, i: nat, a: bool, b: bool, c: bool, d: bool, va: int16, vb: int16, vc: int16, vd: int16,
                 ghost before: seq<byte>, ghost flags: seq<bool>, ghost vs: seq<int16>, ghost k: nat)
    returns (j: nat)
    requires k + 4 <= |flags| == |vs| && i <= m.Length && Packed(m[..i], before, flags, vs, k)
    requires flags[k] == a && flags[k + 1] == b && flags[k + 2] == c && flags[k + 3] == d
    requires vs[k] == va && vs[k + 1] == vb && vs[k + 2] == vc && vs[k + 3] == vd
    requires i + 2 * Four(flags, k) <= m.Length
    modifies m
    ensures j == i + 2 * Four(flags, k) && Packed(m[..j], before, flags, vs, k + 4)
  {
    hide Packed;
    j := PutIncluded(m, i, a, va, before, flags, vs, k);
    j := PutIncluded(m, j, b, vb, before, flags, vs, k + 1);
    j := PutIncluded(m, j, c, vc, before, flags, vs, k + 2);
    j := PutIncluded(m, j, d, vd, before, flags, vs, k + 3);
  }

  method PutAxes(m: array<byte>, i: nat, c: Config, axes: seq<int16>, ghost vs: seq<int16>) returns (j: nat)
    requires WellSized(c) && |axes| == 8 && i + 2 * Count(c.axes) <= m.Length
    requires vs == [axes[X], axes[Y], axes[Z], axes[RZ], axes[RX], axes[RY], axes[SLIDER1], axes[SLIDER2]]
    modifies m
    ensures j == i + 2 * Count(c.axes) && m[..j] == old(m[..i]) + Words(Pick(AxisFlags(c), vs))
  {
    hide Packed, Words, Pick, Count, Four, AxisFlags;
    ghost var f, before := AxisFlags(c), m[..i];
    SameAxisCount(c);
    CountFours(f);
    AxisOrder(c);
    NothingPacked(before, f, vs);
    j := PutFour(m, i, c.axes[X], c.axes[Y], c.axes[Z], c.axes[RZ], axes[X], axes[Y], axes[Z], axes[RZ], before, f, vs,
                 0);
    j := PutFour(m, j, c.axes[RX], c.axes[RY], c.axes[SLIDER1], c.axes[SLIDER2],
                 axes[RX], axes[RY], axes[SLIDER1], axes[SLIDER2], before, f, vs, 4);
    AllPacked(m[..j], before, f, vs);
  }

  lemma AxisOrder(c: Config)
    requires WellSized(c)
    ensures var f := AxisFlags(c);
            && f[0] == c.axes[X] && f[1] == c.axes[Y] && f[2] == c.axes[Z] && f[3] == c.axes[RZ]
            && f[4] == c.axes[RX] && f[5] == c.axes[RY] && f[6] == c.axes[SLIDER1] && f[7] == c.axes[SLIDER2]
  {
  }

  method PutSimulation(m: array<byte>, i: nat, c: Config, vs: seq<int16>) returns (j: nat)
    requires WellSized(c) && |vs| == 5 && i + 2 * Count(c.simulation) <= m.Length
    modifies m
    ensures j == i + 2 * Count(c.simulation) && m[..j] == old(m[..i]) + Words(Pick(c.simulation, vs))
  {
    hide Packed, Words, Pick, Count;
    ghost var before := m[..i];
    var f := c.simulation;
    CountSplit(f, 4);
    CountFour(f[..4]);
    CountOne(f[4..]);
    NothingPacked(before, f, vs);
    j := PutFour(m, i, f[RUDDER], f[THROTTLE], f[ACCELERATOR], f[BRAKE],
                 vs[RUDDER], vs[THROTTLE], vs[ACCELERATOR], vs[BRAKE], before, f, vs, 0);
    j := PutIncluded(m, j, f[STEERING], vs[STEERING], before, f, vs, 4);
    AllPacked(m[..j], before, f, vs);
  }

  lemma CountOne(f: seq<bool>)
    requires |f| == 1
    ensures Count(f) == One(f[0])
  {
    assert f[..0] == [];
  }

  method PutMotion(m: array<byte>, i: nat, included: bool, x: int16, y: int16, z: int16) returns (j: nat)
    requires i + (if included then 6 else 0) <= m.Length
    modifies m
    ensures j == i + (if included then 6 else 0)
    ensures m[..j] == old(m[..i]) + Words(if included then [x, y, z] else [])
  {
    hide Words, Word;
    ThreeWords(x, y, z);
    j := i;
    if included {
      j := PutWord(m, j, x);
      j := PutWord(m, j, y);
      j := PutWord(m, j, z);
    }
  }

  lemma ThreeWords(x: int16, y: int16, z: int16)
    ensures Words([x, y, z]) == Word(x) + Word(y) + Word(z) && Words([]) == []
  {
    hide Word;
    assert [x, y, z][..2] == [x, y] && [x, y][..1] == [x] && [x][..0] == [];
    assert Words([x]) == Word(x);
    assert Words([x, y]) == Word(x) + Word(y);
  }

  /** Hats go in from the last to the first. */
  method PutHats(m: array<byte>, i: nat, n: nat, hats: seq<int8>) returns (j: nat)
    requires n <= |hats| && i + n <= m.Length
    modifies m
    ensures j == i + n && m[..j] == old(m[..i]) + HatBytes(hats, n)
  {
    hide Low8;
    j := i;
    for k := n downto 0
      invariant j == i + (n - k)
      invariant m[..j] == old(m[..i]) + seq(n - k, x requires 0 <= x < n - k => Low8(hats[n - 1 - x]))
    {
      m[j] := Low8(hats[k]);
      j := j + 1;
    }
  }

  method PutSpecial(m: array<byte>, i: nat, c: Config, ghost k: Controls, special: byte, count: nat) returns (j: nat)
    requires WellSized(c) && count == Count(c.special) && k.special == special && i + BytesFor(count) <= m.Length
    modifies m
    ensures j == i + BytesFor(count) && m[..j] == old(m[..i]) + SpecialByte(c, k)
  {
    hide Count;
    CountBound(c.special);
    j := i;
    if count > 0 {
      m[j] := special;
      j := j + 1;
    }
  }

  method PutButtons(m: array<byte>, buttons: array<byte>)
    requires m != buttons && buttons.Length == 16 <= m.Length
    modifies m
    ensures m[..16] == buttons[..]
  {
    for i := 0 to 16
      invariant m[..i] == buttons[..i]
    {
      m[i] := buttons[i];
    }
  }
}
