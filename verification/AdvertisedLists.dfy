/** What a scanner makes of the lists a builder writes, and when two UUIDs are the same service. */
module AdvertisedLists {
  import opened AdvertisedDevice
  import opened AdvertisementData
  import opened Bits
  import opened Options

  // ------------------------------------------------------------ lists of UUIDs

  /** The positions of the UUIDs of this size, in order. */
  ghost predicate PlacesOf(uuids: seq<Uuid>, size: nat, at: seq<nat>) {
    && (forall k :: 0 <= k < |at| ==> at[k] < |uuids| && |uuids[at[k]]| == size)
    && (forall j, k :: 0 <= j < k < |at| ==> at[j] < at[k])
    && (forall i :: 0 <= i < |uuids| && |uuids[i]| == size ==> i in at)
  }

  function Shifted(at: seq<nat>): (r: seq<nat>)
    ensures |r| == |at|
  {
    seq(|at|, k requires 0 <= k < |at| => at[k] + 1)
  }

  lemma PlacesOneMore(u: Uuid, rest: seq<Uuid>, size: nat, at: seq<nat>)
    requires PlacesOf(rest, size, at)
    ensures PlacesOf([u] + rest, size, (if |u| == size then [0] else []) + Shifted(at))
  {
    var more := (if |u| == size then [0] else []) + Shifted(at);
    forall i | 0 <= i < |rest| + 1 && |([u] + rest)[i]| == size
      ensures i in more
    {
      if i > 0 {
        assert |rest[i - 1]| == size;
        var k :| 0 <= k < |at| && at[k] == i - 1;
        assert Shifted(at)[k] == i && Shifted(at)[k] in Shifted(at);
      } else {
        assert more[0] == 0;
      }
    }
  }

  /** The elements of r are those of uuids at these positions. */
  ghost predicate Taken(uuids: seq<Uuid>, at: seq<nat>, r: seq<Uuid>) {
    |r| == |at| && forall k :: 0 <= k < |at| ==> at[k] < |uuids| && r[k] == uuids[at[k]]
  }

  lemma TakenOneMore(u: Uuid, rest: seq<Uuid>, at: seq<nat>, r: seq<Uuid>)
    requires Taken(rest, at, r)
    ensures Taken([u] + rest, Shifted(at), r) && Taken([u] + rest, [0] + Shifted(at), [u] + r)
  {
  }

  lemma TakenNone(size: nat)
    ensures PlacesOf([], size, []) && Taken([], [], [])
  {
  }

  /** A list of one size takes all UUIDs of that size, no other, and keeps their order. */
  lemma {:induction false} OfSizeTakes(uuids: seq<Uuid>, size: nat) returns (at: seq<nat>)
    ensures PlacesOf(uuids, size, at) && Taken(uuids, at, OfSize(uuids, size))
  {
    hide PlacesOf, Taken;
    if uuids == [] {
      at := [];
      TakenNone(size);
    } else {
      var rest := OfSizeTakes(uuids[1..], size);
      assert [uuids[0]] + uuids[1..] == uuids;
      PlacesOneMore(uuids[0], uuids[1..], size, rest);
      TakenOneMore(uuids[0], uuids[1..], rest, OfSize(uuids[1..], size));
      at := (if |uuids[0]| == size then [0] else []) + Shifted(rest);
      assert [] + Shifted(rest) == Shifted(rest) && [] + OfSize(uuids[1..], size) == OfSize(uuids[1..], size);
    }
  }

  /** The k-th UUID stands k entries into the list data. */
  lemma {:induction false} JoinedAt(uuids: seq<Uuid>, size: nat, k: nat)
    requires k < |uuids| && forall u :: u in uuids ==> |u| == size
    ensures size * k + size <= |Joined(uuids)| == size * |uuids|
    ensures Joined(uuids)[size * k..size * k + size] == uuids[k]
  {
    JoinedLength(uuids, size);
    assert uuids[0] in uuids;
    Product(size, k, |uuids|);
    if k > 0 {
      JoinedAt(uuids[1..], size, k - 1);
      assert Joined(uuids)[size * k..size * k + size] == Joined(uuids[1..])[size * (k - 1)..size * (k - 1) + size];
    }
  }

  lemma Product(size: nat, k: nat, n: nat)
    requires k < n
    ensures size * k + size <= size * n && (k > 0 ==> size * k == size * (k - 1) + size)
  {
    OneMore(size, k);
    Monotone(size, k + 1, n);
    if k > 0 {
      OneMore(size, k - 1);
    }
  }

  lemma Monotone(size: nat, m: nat, n: nat)
    requires m <= n
    ensures size * m <= size * n
  {
  }

  /** The list types say the entries' size and whether the list is complete: odd types are. */
  lemma ListTypes(size: nat, complete: bool, u: Uuid)
    requires (size == 2 || size == 4 || size == 16) && IsUuid(u)
    ensures EntrySize(ServicesKind(size, complete)) == size && IsList(ServicesKind(size, complete))
    ensures ServicesKind(size, complete) % 2 == 1 <==> complete
    ensures ListKind(u) == ServicesKind(|u|, true)
  {
  }

  lemma EntryCount(s: Slot, n: nat, j: nat, length: nat)
    requires IsList(s.kind) && EntrySize(s.kind) == n && s.length == length + 1 && n * j + n <= length
    ensures j < Entries(s, s.kind)
  {
    ListEntrySize(s.kind);
  }

  /** Whatever stands at a whole number of entries into a list is among the places a scanner
      enumerates. */
  lemma PlaceInList(fs: seq<AdField>, k: nat, n: nat, j: nat, i: nat)
    requires Small(fs) && k < |fs| && IsList(fs[k].kind) && EntrySize(fs[k].kind) == n
    requires i == n * j && i + n <= |fs[k].data|
    ensures var (p, place) := (Encode(fs), Place(At(fs, k) + 2 + i, n));
            && place in AllPlaces(p, INCOMP_UUIDS16) && InPayload(p, place)
            && Bytes(p, place) == fs[k].data[i..i + n]
  {
    hide Encode, Slots, SlotsOf, Places, SlotPlaces, AllPlaces, At, EntrySize, Entries, Small, Stands;
    ListEntrySize(fs[k].kind);
    SmallParts(fs, k);
    var s := Slot(At(fs, k), |fs[k].data| + 1, fs[k].kind);
    DataStands(fs, k);
    SliceInside(Encode(fs), At(fs, k) + 2, fs[k].data, i, n);
    PayloadParses(fs);
    SlotOfField(fs, 0, k);
    EntryCount(s, n, j, |fs[k].data|);
    SlotPlacesListed(Slots(Encode(fs), 0), s.kind, s, j);
    SlotPlaceAt(s, j);
    PlacesOfType(Encode(fs), INCOMP_UUIDS16, s.kind, SlotPlaces(s)[j]);
  }

  /** The fields setServices leaves: a list of these UUIDs behind what was there. */
  function WithServices(fs: seq<AdField>, size: nat, complete: bool, uuids: seq<Uuid>): seq<AdField>
    requires size == 2 || size == 4 || size == 16
  {
    fs + [AdField(ServicesKind(size, complete), Joined(uuids))]
  }

  lemma ServicesKeepLists(fs: seq<AdField>, size: nat, complete: bool, uuids: seq<Uuid>)
    requires (size == 2 || size == 4 || size == 16) && forall u :: u in uuids ==> |u| == size
    requires WholeLists(fs) && SingleLists(fs) && FieldsOf(fs, ServicesKind(size, complete)) == 0
    ensures WholeLists(WithServices(fs, size, complete, uuids)) && SingleLists(WithServices(fs, size, complete, uuids))
  {
    hide FieldsOf, Joined, ServicesKind, EntrySize;
    ListTypes(size, complete, [0, 0]);
    JoinedLength(uuids, size);
    Multiple(size, |uuids|);
    forall t: byte | IsList(t)
      ensures FieldsOf(WithServices(fs, size, complete, uuids), t) <= 1
    {
      FieldsOfAppended(fs, AdField(ServicesKind(size, complete), Joined(uuids)), t);
    }
  }

  lemma Multiple(size: nat, n: nat)
    requires size == 2 || size == 4 || size == 16
    ensures (size * n) % size == 0
  {
    if size == 2 {
      assert (2 * n) % 2 == 0;
    } else if size == 4 {
      assert (4 * n) % 4 == 0;
    } else {
      assert (16 * n) % 16 == 0;
    }
  }

  /** Every UUID that setServices lists is advertised, complete list or not. */
  lemma ServicesAreAdvertised(fs: seq<AdField>, size: nat, complete: bool, uuids: seq<Uuid>, j: nat)
    requires (size == 2 || size == 4 || size == 16) && (forall u :: u in uuids ==> |u| == size) && j < |uuids|
    requires WholeLists(fs) && SingleLists(fs) && FieldsOf(fs, ServicesKind(size, complete)) == 0
    requires Small(WithServices(fs, size, complete, uuids))
    requires |Encode(WithServices(fs, size, complete, uuids))| <= MAX_SIZE
    ensures Advertises(Encode(WithServices(fs, size, complete, uuids)), uuids[j])
  {
    hide Encode, Slots, Advertises, WholeLists, SingleLists, AllPlaces, Balanced, Shaped, At, Joined, ServicesKind;
    hide Small;
    var g := WithServices(fs, size, complete, uuids);
    ServicesKeepLists(fs, size, complete, uuids);
    ListTypes(size, complete, [0, 0]);
    JoinedAt(uuids, size, j);
    BuiltPayloadBalanced(g);
    ListedFits(Encode(g));
    PlaceInList(g, |fs|, size, j, size * j);
    ListedIsAdvertised(Encode(g), Place(At(g, |fs|) + 2 + size * j, size));
  }

  /** Service data types are apart from each other and from the list types. */
  lemma ServiceDataTypes(u: Uuid, v: Uuid)
    requires IsUuid(u) && IsUuid(v)
    ensures ServiceDataKind(u) == ServiceDataKind(v) <==> |u| == |v|
    ensures !IsList(ServiceDataKind(u))
    ensures ServiceDataKind(u) == if |u| == 2 then 0x16 else if |u| == 4 then 0x20 else 0x21
  {
  }

  // ------------------------------------------------------------ single values

  /** The flags as given, with the bit that says classic Bluetooth is not supported. */
  lemma FlagBits(flag: byte, k: nat)
    ensures Bit(FlagByte(flag), k) <==> Bit(flag, k) || k == 2
  {
    OrBits(flag, BREDR_UNSUP, k);
    Pow2Values();
    SingleBit(2, k);
  }

  /** No value of the range is nearer to the one asked for. */
  lemma ClampIsNearest(x: uint16, low: uint16, high: uint16, y: int)
    requires low <= y <= high
    ensures Distance(Clamp(x, low, high), x) <= Distance(y, x)
  {
  }

  function Distance(a: int, b: int): nat {
    if a < b then b - a else a - b
  }

  // ------------------------------------------------------------ the same service

  /** A short UUID stands for the 128-bit one that is the base UUID with its bytes in front of the
      zeros at the end; two UUIDs of one size are the same exactly if their bytes are. */
  lemma SameUuidMeans(a: Uuid, b: Uuid)
    requires |a| <= |b|
    ensures |a| == |b| ==> (SameUuid(a, b) <==> IsUuid(a) && a == b)
    ensures |a| < |b| ==>
              (SameUuid(a, b) <==>
               IsUuid(a) && |b| == 16 && b[..12] == BASE_UUID[..12] && b[12..12 + |a|] == a
               && forall k :: 12 + |a| <= k < 16 ==> b[k] == 0)
  {
    if |a| < |b| && |b| == 16 && IsUuid(a) {
      var c := Long(a);
      assert |c| == 16 && c[..12] == BASE_UUID[..12] && c[12..12 + |a|] == a;
      assert forall k :: 12 + |a| <= k < 16 ==> c[k] == 0;
      if b[..12] == BASE_UUID[..12] && b[12..12 + |a|] == a && forall k :: 12 + |a| <= k < 16 ==> b[k] == 0 {
        assert b == b[..12] + b[12..12 + |a|] + b[12 + |a|..];
        assert c == c[..12] + c[12..12 + |a|] + c[12 + |a|..];
        assert b[12 + |a|..] == c[12 + |a|..];
      }
    }
  }

  /** The comparison is symmetric, and transitive but for one case: a 16-bit and a 32-bit UUID never
      count as the same, even if both are the same as one 128-bit UUID. */
  lemma SameUuidChains(a: Uuid, b: Uuid, c: Uuid)
    ensures SameUuid(a, b) <==> SameUuid(b, a)
    ensures SameUuid(a, b) && SameUuid(b, c) ==>
              (SameUuid(a, c) <==> !(|a| != |c| && |a| < 16 && |c| < 16))
  {
    hide Long;
    if SameUuid(a, b) && SameUuid(b, c) && |a| == |c| && |a| < 16 && |b| == 16 {
      SameUuidMeans(a, b);
      SameUuidMeans(c, b);
    }
    LongIsItself(a);
    LongIsItself(b);
    LongIsItself(c);
  }

  lemma LongIsItself(u: Uuid)
    ensures |u| == 16 ==> Long(u) == u
  {
  }

  /** The exception is real. */
  lemma ShortUuidsApart()
    ensures var long := BASE_UUID[..12] + [0x0D, 0x18, 0, 0];
            SameUuid([0x0D, 0x18], long) && SameUuid(long, [0x0D, 0x18, 0, 0])
            && !SameUuid([0x0D, 0x18], [0x0D, 0x18, 0, 0])
  {
    var long := BASE_UUID[..12] + [0x0D, 0x18, 0, 0];
    SameUuidMeans([0x0D, 0x18], long);
    SameUuidMeans([0x0D, 0x18, 0, 0], long);
    SameUuidChains([0x0D, 0x18, 0, 0], long, []);
  }
}
