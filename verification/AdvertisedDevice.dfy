/** The advertisement parser: finding AD fields in a received payload and enumerating the
    service UUIDs it lists (Bluetooth Core Specification Vol 3, Part C, section 11). */
module AdvertisedDevice {
  import opened Bits
  import opened Options

  const INCOMP_UUIDS16: byte := 0x02
  const COMP_UUIDS16: byte := 0x03
  const INCOMP_UUIDS32: byte := 0x04
  const COMP_UUIDS32: byte := 0x05
  const INCOMP_UUIDS128: byte := 0x06
  const COMP_UUIDS128: byte := 0x07
  const INCOMP_NAME: byte := 0x08
  const COMP_NAME: byte := 0x09
  const PUBLIC_TGT_ADDR: byte := 0x17
  const RANDOM_TGT_ADDR: byte := 0x18

  /** A UUID as bytes, least significant first; any length but 2, 4 or 16 is an invalid UUID. */
  type Uuid = seq<byte>

  const BASE_UUID: seq<byte> := [0xFB, 0x34, 0x9B, 0x5F, 0x80, 0x00, 0x00, 0x80, 0x00, 0x10, 0x00, 0x00, 0, 0, 0, 0]

  predicate IsUuid(u: Uuid) {
    |u| == 2 || |u| == 4 || |u| == 16
  }

  /** A short UUID written out over the Bluetooth base UUID. */
  function Long(u: Uuid): seq<byte>
    requires IsUuid(u)
  {
    if |u| == 16 then u else BASE_UUID[..12] + u + BASE_UUID[12 + |u|..]
  }

  /** The UUID comparison: equal bytes, or a short UUID against its 128-bit form. */
  predicate SameUuid(a: Uuid, b: Uuid) {
    IsUuid(a) && IsUuid(b)
    && if |a| == |b| then a == b else (|a| == 16 || |b| == 16) && Long(a) == Long(b)
  }

  // ------------------------------------------------------------ walking the payload

  /** An AD field in a payload: where its length byte is, that length, and its type. */
  datatype Slot = Slot(at: nat, length: byte, kind: byte)

  /** The fields the parser visits from position d on. It stops where fewer than three bytes
      are left, and at a field that claims more bytes than there are. */
  function Slots(p: seq<byte>, d: nat): seq<Slot>
    requires d <= |p|
    decreases |p| - d
  {
    if |p| - d <= 2 || p[d] >= |p| - d then []
    else [Slot(d, p[d], p[d + 1])] + Slots(p, d + 1 + p[d])
  }

  /** How many bytes an entry of a UUID list has; 0 for other kinds. */
  function EntrySize(kind: byte): nat {
    if kind == INCOMP_UUIDS16 || kind == COMP_UUIDS16 then 2
    else if kind == INCOMP_UUIDS32 || kind == COMP_UUIDS32 then 4
    else if kind == INCOMP_UUIDS128 || kind == COMP_UUIDS128 then 16
    else 0
  }

  predicate Matches(s: Slot, kind: byte) {
    s.kind == kind || (kind == COMP_NAME && s.kind == INCOMP_NAME)
  }

  /** How many entries a field of that kind counts for. */
  function Entries(s: Slot, kind: byte): nat {
    if kind == INCOMP_UUIDS16 || kind == COMP_UUIDS16 then s.length / 2
    else if kind == INCOMP_UUIDS32 || kind == COMP_UUIDS32 then s.length / 4
    else if kind == INCOMP_UUIDS128 || kind == COMP_UUIDS128 then s.length / 16
    else if kind == PUBLIC_TGT_ADDR || kind == RANDOM_TGT_ADDR then s.length / 6
    else 1
  }

  /** Eight-bit addition. */
  function Plus(a: byte, n: nat): byte {
    (a + n) % 256
  }

  lemma PlusPlus(a: byte, n: nat, m: nat)
    ensures Plus(Plus(a, n), m) == Plus(a, n + m)
  {
  }

  lemma PlusSmall(a: byte, n: nat)
    ensures Plus(a, 0) == a
    ensures a + n <= 255 ==> Plus(a, n) == a + n
    ensures n <= 127 && a + n > 255 ==> Plus(a, n) < a
  {
  }

  /** What findAdvField returns over the remaining fields: the eight-bit count, and the place it
      stores. */
  function Find(slots: seq<Slot>, kind: byte, index: byte, locate: bool, count: byte, at: nat): (byte, nat) {
    if slots == [] then (count, at)
    else if !Matches(slots[0], kind) then Find(slots[1..], kind, index, locate, count, at)
    else
      var s := slots[0];
      var fallback := locate && kind == COMP_NAME && s.kind == INCOMP_NAME;
      var wanted := if fallback then Plus(index, 1) else index;
      var sofar := Plus(count, Entries(s, kind));
      if locate && sofar > wanted then (sofar, s.at)
      else Find(slots[1..], kind, wanted, locate, sofar, if fallback then s.at else at)
  }

  /** findAdvField; loc is read and returned in place of the optional out-pointer. */
  method FindAdvField(p: seq<byte>, kind: byte, index: byte, locate: bool, loc: nat) returns (count: byte, at: nat)
    ensures (count, at) == Find(Slots(p, 0), kind, index, locate, 0, loc)
  {
    hide Plus, Entries;
    var length, data: nat := |p|, 0;
    var wanted := index;
    count, at := 0, loc;
    while length > 2
      invariant data <= |p| && length == |p| - data
      invariant locate ==> count <= wanted
      invariant Find(Slots(p, data), kind, wanted, locate, count, at) == Find(Slots(p, 0), kind, index, locate, 0, loc)
    {
      if p[data] >= length {
        return;
      }
      var s := Slot(data, p[data], p[data + 1]);
      if Matches(s, kind) {
        if locate && kind == COMP_NAME && s.kind == INCOMP_NAME {
          at := data;
          wanted := Plus(wanted, 1);
        }
        count := Plus(count, Entries(s, kind));
        if locate && count > wanted {
          break;
        }
      }
      length := length - 1 - p[data];
      data := data + 1 + p[data];
    }
    if locate && count > wanted {
      at := data;
    }
  }

  // ------------------------------------------------------------ enumerating service UUIDs

  /** A UUID in the payload: where its bytes start and how many there are. */
  datatype Place = Place(at: nat, size: nat)

  predicate IsList(kind: byte) {
    INCOMP_UUIDS16 <= kind <= COMP_UUIDS128
  }

  lemma ListEntrySize(kind: byte)
    requires IsList(kind)
    ensures EntrySize(kind) == 2 || EntrySize(kind) == 4 || EntrySize(kind) == 16
  {
  }

  function SlotPlaces(s: Slot): (r: seq<Place>)
    requires IsList(s.kind)
    ensures |r| == Entries(s, s.kind)
  {
    var e := EntrySize(s.kind);
    seq(Entries(s, s.kind), k requires 0 <= k => Place(s.at + 2 + e * k, e))
  }

  /** All UUIDs listed under one type, in payload order. */
  function Places(slots: seq<Slot>, kind: byte): seq<Place>
    requires IsList(kind)
  {
    if slots == [] then []
    else (if slots[0].kind == kind then SlotPlaces(slots[0]) else []) + Places(slots[1..], kind)
  }

  /** All UUIDs, by type and then by position. */
  function AllPlaces(p: seq<byte>, kind: byte): seq<Place>
    requires IsList(kind)
    decreases COMP_UUIDS128 - kind
  {
    Places(Slots(p, 0), kind) + if kind < COMP_UUIDS128 then AllPlaces(p, kind + 1) else []
  }

  /** A UUID list whose last UUID lacks its last byte. The length counts the type byte, so the
      division counts that UUID as well. */
  predicate Short(s: Slot) {
    IsList(s.kind) && s.length > 0 && s.length % EntrySize(s.kind) == 0
  }

  ghost predicate ShortList(slots: seq<Slot>, kind: byte) {
    exists s :: s in slots && s.kind == kind && Short(s)
  }

  /** No UUID list is one byte short. */
  ghost predicate Shaped(slots: seq<Slot>) {
    forall s :: s in slots ==> !Short(s)
  }

  /** The end of getServiceUUID, once findAdvField has stopped at field s with its count. */
  function Pick(s: Slot, count: nat, index: nat): Option<Place>
    requires IsList(s.kind) && count - Entries(s, s.kind) <= index
  {
    var e := EntrySize(s.kind);
    var j := if s.length < (index + 1) * e then index + 1 - (count - Entries(s, s.kind)) else index + 1;
    if s.length > e * j then Some(Place(s.at + 2 + e * (j - 1), e)) else None
  }

  /** Does the walk for entry number index stop at a field, with before entries counted so far? */
  predicate Stops(slots: seq<Slot>, kind: byte, index: byte, before: byte)
    requires IsList(kind)
  {
    slots != [] &&
    if slots[0].kind != kind then Stops(slots[1..], kind, index, before)
    else Plus(before, Entries(slots[0], kind)) > index
         || Stops(slots[1..], kind, index, Plus(before, Entries(slots[0], kind)))
  }

  /** The field where it stops, and the count before that field. */
  function Hit(slots: seq<Slot>, kind: byte, index: byte, before: byte): (Slot, byte)
    requires IsList(kind) && Stops(slots, kind, index, before)
  {
    var s := slots[0];
    if s.kind != kind then Hit(slots[1..], kind, index, before)
    else if Plus(before, Entries(s, kind)) > index then (s, before)
    else Hit(slots[1..], kind, index, Plus(before, Entries(s, kind)))
  }

  /** The count through the field where the walk stops has not wrapped there. */
  lemma {:induction false} FindHits(slots: seq<Slot>, kind: byte, index: byte, before: byte, at: nat)
    requires IsList(kind) && before <= index
    ensures var (count, found) := Find(slots, kind, index, true, before, at);
            if Stops(slots, kind, index, before) then
              var (s, prev) := Hit(slots, kind, index, before);
              && s in slots && s.kind == kind && prev <= index < prev + Entries(s, kind)
              && count == prev + Entries(s, kind) && found == s.at
            else count == Plus(before, |Places(slots, kind)|) && count <= index
  {
    hide SlotPlaces, EntrySize, Entries, Plus;
    PlusSmall(before, 0);
    if slots != [] {
      var s := slots[0];
      if s.kind != kind {
        FindHits(slots[1..], kind, index, before, at);
      } else {
        ListEntries(s);
        PlusSmall(before, Entries(s, kind));
        PlusPlus(before, Entries(s, kind), |Places(slots[1..], kind)|);
        if Plus(before, Entries(s, kind)) <= index {
          FindHits(slots[1..], kind, index, Plus(before, Entries(s, kind)), at);
        }
      }
    }
  }

  lemma ListEntries(s: Slot)
    requires IsList(s.kind)
    ensures Entries(s, s.kind) <= 127
  {
    ListEntrySize(s.kind);
  }

  /** While the entries fit eight bits, the walk stops exactly for the indices that exist. */
  lemma {:induction false} StopsWithin(slots: seq<Slot>, kind: byte, index: byte, before: byte)
    requires IsList(kind) && before <= index && before + |Places(slots, kind)| <= 255
    ensures Stops(slots, kind, index, before) <==> index < before + |Places(slots, kind)|
    ensures Plus(before, |Places(slots, kind)|) == before + |Places(slots, kind)|
  {
    hide SlotPlaces, EntrySize, Entries;
    if slots != [] {
      var s := slots[0];
      if s.kind != kind {
        StopsWithin(slots[1..], kind, index, before);
      } else if before + Entries(s, kind) <= index {
        StopsWithin(slots[1..], kind, index, before + Entries(s, kind));
      }
    }
  }

  /** Where the i-th entry of the lists lies. */
  lemma PlacesAt(slots: seq<Slot>, kind: byte, i: nat)
    requires IsList(kind) && slots != [] && i < |Places(slots, kind)|
    ensures var (s, all, rest) := (slots[0], Places(slots, kind), Places(slots[1..], kind));
            if s.kind != kind then all == rest
            else
              && |all| == Entries(s, kind) + |rest|
              && (i < Entries(s, kind) ==> all[i] == Place(s.at + 2 + EntrySize(kind) * i, EntrySize(kind)))
              && (i >= Entries(s, kind) ==> all[i] == rest[i - Entries(s, kind)])
  {
    hide EntrySize, Entries, SlotPlaces;
    var s := slots[0];
    if s.kind == kind && i < Entries(s, kind) {
      SlotPlaceAt(s, i);
    }
  }

  lemma {:induction false} HitPlace(slots: seq<Slot>, kind: byte, index: byte, before: byte)
    requires IsList(kind) && before <= index < before + |Places(slots, kind)| <= 255
    ensures Stops(slots, kind, index, before)
    ensures var (s, prev) := Hit(slots, kind, index, before);
            prev <= index
            && Places(slots, kind)[index - before]
                == Place(s.at + 2 + EntrySize(kind) * (index - prev), EntrySize(kind))
  {
    hide EntrySize, Entries, Places, Plus;
    NoPlaces(slots, kind);
    var s := slots[0];
    PlacesAt(slots, kind, index - before);
    if s.kind != kind {
      HitPlace(slots[1..], kind, index, before);
    } else {
      PlusSmall(before, Entries(s, kind));
      if index >= before + Entries(s, kind) {
        HitPlace(slots[1..], kind, index, before + Entries(s, kind));
      }
    }
  }

  lemma NoPlaces(slots: seq<Slot>, kind: byte)
    requires IsList(kind)
    ensures Places(slots, kind) != [] ==> slots != []
  {
  }

  lemma {:induction false} CountsPlaces(slots: seq<Slot>, kind: byte, before: byte, at: nat)
    requires IsList(kind)
    ensures Find(slots, kind, 0, false, before, at).0 == Plus(before, |Places(slots, kind)|)
  {
    hide SlotPlaces, Entries, Plus;
    PlusSmall(before, 0);
    if slots != [] {
      var s := slots[0];
      if s.kind == kind {
        PlusPlus(before, Entries(s, kind), |Places(slots[1..], kind)|);
      }
      CountsPlaces(slots[1..], kind, if s.kind == kind then Plus(before, Entries(s, kind)) else before, at);
    }
  }

  /** Each list of a type but the first nonempty one is no longer than all before it together. */
  predicate Balanced(slots: seq<Slot>, kind: byte, before: nat)
    requires IsList(kind)
  {
    slots == [] ||
    if slots[0].kind == kind then
      (before == 0 || Entries(slots[0], kind) <= before) && Balanced(slots[1..], kind, before + Entries(slots[0], kind))
    else Balanced(slots[1..], kind, before)
  }

  lemma {:induction false} BalancedHit(slots: seq<Slot>, kind: byte, index: byte, before: byte)
    requires IsList(kind) && before <= index < before + |Places(slots, kind)| <= 255 && Balanced(slots, kind, before)
    ensures Stops(slots, kind, index, before)
    ensures var (s, prev) := Hit(slots, kind, index, before); prev == 0 || Entries(s, kind) <= prev
  {
    hide SlotPlaces, Entries;
    var s := slots[0];
    if s.kind != kind {
      BalancedHit(slots[1..], kind, index, before);
    } else if index >= before + Entries(s, kind) {
      BalancedHit(slots[1..], kind, index, before + Entries(s, kind));
    }
  }

  lemma {:induction false} UnbalancedHit(slots: seq<Slot>, kind: byte, before: byte) returns (index: byte)
    requires IsList(kind) && before + |Places(slots, kind)| <= 255 && !Balanced(slots, kind, before)
    ensures before <= index < before + |Places(slots, kind)| && Stops(slots, kind, index, before)
    ensures var (s, prev) := Hit(slots, kind, index, before); prev == index > 0 && Entries(s, kind) > index
  {
    hide SlotPlaces, Entries;
    var s := slots[0];
    if s.kind != kind {
      index := UnbalancedHit(slots[1..], kind, before);
    } else if before > 0 && Entries(s, kind) > before {
      index := before;
    } else {
      index := UnbalancedHit(slots[1..], kind, before + Entries(s, kind));
    }
  }

  /** The adjustment lands on entry index - prev when it applies, and on entry index otherwise. */
  lemma PickLands(s: Slot, prev: nat, index: nat)
    requires IsList(s.kind) && !Short(s) && prev <= index < prev + Entries(s, s.kind)
    ensures var e, n := EntrySize(s.kind), Entries(s, s.kind);
            Pick(s, prev + n, index) == Some(Place(s.at + 2 + e * (if index >= n then index - prev else index), e))
  {
    ListEntrySize(s.kind);
  }

  /** The UUID that lacks a byte is not answered. */
  lemma PickShort(s: Slot, prev: nat)
    requires Short(s)
    ensures Entries(s, s.kind) > 0
    ensures var n := Entries(s, s.kind); Pick(s, prev + n, prev + n - 1) == None
  {
    ListEntrySize(s.kind);
  }

  /** getServiceUUID up to reading the bytes. */
  function Locate(p: seq<byte>, kind: byte, index: byte): Option<Place>
    requires IsList(kind)
    decreases COMP_UUIDS128 - kind
  {
    var slots := Slots(p, 0);
    FindHits(slots, kind, index, 0, 0);
    var count := Find(slots, kind, index, true, 0, 0).0;
    if count > index then Pick(Hit(slots, kind, index, 0).0, count, index)
    else if kind < COMP_UUIDS128 then Locate(p, kind + 1, index - count)
    else None
  }

  lemma {:induction false} SlotInPayload(p: seq<byte>, d: nat, s: Slot)
    requires d <= |p| && s in Slots(p, d)
    ensures d <= s.at && s.at + 1 < |p| && s.at + 1 + s.length <= |p|
    ensures s.length == p[s.at] && s.kind == p[s.at + 1]
    decreases |p| - d
  {
    if s != Slot(d, p[d], p[d + 1]) {
      SlotInPayload(p, d + 1 + p[d], s);
    }
  }

  predicate InPayload(p: seq<byte>, place: Place) {
    place.at + place.size <= |p|
  }

  lemma PickInPayload(p: seq<byte>, s: Slot, count: nat, index: nat)
    requires IsList(s.kind) && s in Slots(p, 0) && count - Entries(s, s.kind) <= index
    ensures Pick(s, count, index).Some? ==> InPayload(p, Pick(s, count, index).value)
  {
    SlotInPayload(p, 0, s);
    ListEntrySize(s.kind);
  }

  lemma {:induction false} LocateInPayload(p: seq<byte>, kind: byte, index: byte)
    requires IsList(kind)
    ensures Locate(p, kind, index).Some? ==> InPayload(p, Locate(p, kind, index).value)
    decreases COMP_UUIDS128 - kind
  {
    hide Slots, Pick, Find, Hit, Entries;
    var slots := Slots(p, 0);
    FindHits(slots, kind, index, 0, 0);
    var count := Find(slots, kind, index, true, 0, 0).0;
    if count > index {
      PickInPayload(p, Hit(slots, kind, index, 0).0, count, index);
    } else if kind < COMP_UUIDS128 {
      LocateInPayload(p, kind + 1, index - count);
    }
  }

  function Bytes(p: seq<byte>, place: Place): Uuid
    requires InPayload(p, place)
  {
    p[place.at..place.at + place.size]
  }

  /** The UUID getServiceUUID answers, empty if none. */
  function UuidAt(p: seq<byte>, index: byte): Uuid {
    LocateInPayload(p, INCOMP_UUIDS16, index);
    match Locate(p, INCOMP_UUIDS16, index)
    case None => []
    case Some(place) => Bytes(p, place)
  }

  method GetServiceUuid(p: seq<byte>, index: byte) returns (u: Uuid)
    ensures u == UuidAt(p, index)
  {
    hide Slots, Find, Hit, Entries, EntrySize, Pick;
    var kind, i := INCOMP_UUIDS16, index;
    LocateInPayload(p, INCOMP_UUIDS16, index);
    while kind <= COMP_UUIDS128
      invariant INCOMP_UUIDS16 <= kind <= COMP_UUIDS128 + 1
      invariant kind <= COMP_UUIDS128 ==> Locate(p, kind, i) == Locate(p, INCOMP_UUIDS16, index)
      invariant kind > COMP_UUIDS128 ==> Locate(p, INCOMP_UUIDS16, index) == None
      decreases COMP_UUIDS128 + 1 - kind
    {
      FindHits(Slots(p, 0), kind, i, 0, 0);
      var count, at := FindAdvField(p, kind, i, true, 0);
      if count > i {
        var bytes := if kind < INCOMP_UUIDS32 then 2 else if kind < INCOMP_UUIDS128 then 4 else 16;
        WidthOf(kind);
        u := ReadEntry(p, at, bytes, i, count, Hit(Slots(p, 0), kind, i, 0).0);
        return;
      }
      kind := kind + 1;
      i := i - count;
    }
    u := [];
  }

  method ReadEntry(p: seq<byte>, at: nat, bytes: nat, i: nat, count: nat, ghost s: Slot) returns (u: Uuid)
    requires IsList(s.kind) && s in Slots(p, 0) && s.at == at && bytes == EntrySize(s.kind)
    requires count - Entries(s, s.kind) <= i < count
    ensures match Pick(s, count, i)
            case None => u == []
            case Some(place) => InPayload(p, place) && u == Bytes(p, place)
  {
    hide Slots, EntrySize;
    SlotInPayload(p, 0, s);
    EntriesOf(s);
    PickInPayload(p, s, count, i);
    u := [];
    var j := i + 1;
    if p[at] < j * bytes {
      j := j - (count - p[at] / bytes);
    }
    if p[at] > bytes * j {
      EntryBounds(bytes, j, p[at]);
      u := p[at + 2 + bytes * (j - 1)..at + 2 + bytes * j];
    }
  }

  lemma EntryBounds(bytes: nat, j: int, length: nat)
    requires j >= 1 && length > bytes * j
    ensures 0 <= bytes * (j - 1) && bytes * (j - 1) + bytes == bytes * j <= length - 1
  {
  }

  lemma WidthOf(kind: byte)
    requires IsList(kind)
    ensures EntrySize(kind) == if kind < INCOMP_UUIDS32 then 2 else if kind < INCOMP_UUIDS128 then 4 else 16
  {
  }

  lemma EntriesOf(s: Slot)
    requires IsList(s.kind)
    ensures EntrySize(s.kind) > 0 && Entries(s, s.kind) == s.length / EntrySize(s.kind)
  {
  }

  /** What the list types from kind on hold. */
  function Remaining(p: seq<byte>, kind: nat): nat
    requires INCOMP_UUIDS16 <= kind <= COMP_UUIDS128 + 1
  {
    if kind <= COMP_UUIDS128 then |AllPlaces(p, kind)| else 0
  }

  lemma CountOn(p: seq<byte>, kind: byte, count: byte, n: byte)
    requires IsList(kind) && n == Plus(0, |Places(Slots(p, 0), kind)|)
    ensures (Plus(count, n) + Remaining(p, kind + 1)) % 256 == (count + Remaining(p, kind)) % 256
  {
    hide Places, Slots;
    var here := |Places(Slots(p, 0), kind)|;
    assert Remaining(p, kind) == here + Remaining(p, kind + 1);
    WrapOnce(count, here, Remaining(p, kind + 1));
  }

  lemma WrapOnce(a: nat, b: nat, c: nat)
    ensures ((a + b % 256) % 256 + c) % 256 == (a + b + c) % 256
  {
  }

  /** The number of listed UUIDs, in eight bits. */
  method GetServiceUuidCount(p: seq<byte>) returns (count: byte)
    ensures count == |AllPlaces(p, INCOMP_UUIDS16)| % 256
  {
    hide Slots, Find, Places, Plus;
    count := 0;
    for kind := INCOMP_UUIDS16 to COMP_UUIDS128 + 1
      invariant (count + Remaining(p, kind)) % 256 == |AllPlaces(p, INCOMP_UUIDS16)| % 256
    {
      CountsPlaces(Slots(p, 0), kind, 0, 0);
      var n, _ := FindAdvField(p, kind, 0, false, 0);
      CountOn(p, kind, count, n);
      count := Plus(count, n);
    }
  }

  /** Some enumerated UUID is the wanted one. */
  ghost predicate Advertises(p: seq<byte>, u: Uuid) {
    exists i: byte :: i < |AllPlaces(p, INCOMP_UUIDS16)| % 256 && SameUuid(u, UuidAt(p, i))
  }

  method IsAdvertisingService(p: seq<byte>, u: Uuid) returns (found: bool)
    ensures found == Advertises(p, u)
  {
    hide UuidAt, AllPlaces, SameUuid;
    var count := GetServiceUuidCount(p);
    for i := 0 to count
      invariant forall k: byte :: k < i ==> !SameUuid(u, UuidAt(p, k))
    {
      var v := GetServiceUuid(p, i);
      if SameUuid(u, v) {
        return true;
      }
    }
    return false;
  }

  // ------------------------------------------------------------ when the count does not wrap

  /** Entries of all list types from kind on. */
  function ListedFrom(slots: seq<Slot>, kind: byte): nat
    requires IsList(kind)
    decreases COMP_UUIDS128 - kind
  {
    |Places(slots, kind)| + if kind < COMP_UUIDS128 then ListedFrom(slots, kind + 1) else 0
  }

  lemma {:induction false} AllPlacesCount(p: seq<byte>, kind: byte)
    requires IsList(kind)
    ensures |AllPlaces(p, kind)| == ListedFrom(Slots(p, 0), kind)
    decreases COMP_UUIDS128 - kind
  {
    hide Slots, Places;
    if kind < COMP_UUIDS128 {
      AllPlacesCount(p, kind + 1);
    }
  }

  lemma {:induction false} ListedFromCons(slots: seq<Slot>, kind: byte)
    requires IsList(kind) && slots != []
    ensures ListedFrom(slots, kind)
            == ListedFrom(slots[1..], kind)
               + if kind <= slots[0].kind <= COMP_UUIDS128 then |SlotPlaces(slots[0])| else 0
    decreases COMP_UUIDS128 - kind
  {
    hide SlotPlaces;
    if kind < COMP_UUIDS128 {
      ListedFromCons(slots, kind + 1);
    }
  }

  lemma {:induction false} NoneListed(kind: byte)
    requires IsList(kind)
    ensures ListedFrom([], kind) == 0
    decreases COMP_UUIDS128 - kind
  {
    if kind < COMP_UUIDS128 {
      NoneListed(kind + 1);
    }
  }

  lemma {:induction false} ListedBound(p: seq<byte>, d: nat)
    requires d <= |p|
    ensures 2 * ListedFrom(Slots(p, d), INCOMP_UUIDS16) <= |p| - d
    decreases |p| - d
  {
    hide SlotPlaces, ListedFrom, Entries;
    var slots := Slots(p, d);
    if slots == [] {
      NoneListed(INCOMP_UUIDS16);
    } else {
      ListedBound(p, d + 1 + p[d]);
      ListedFromCons(slots, INCOMP_UUIDS16);
      if IsList(slots[0].kind) {
        ListEntriesBound(slots[0]);
      }
    }
  }

  lemma ListEntriesBound(s: Slot)
    requires IsList(s.kind)
    ensures 2 * Entries(s, s.kind) <= s.length
  {
    ListEntrySize(s.kind);
  }

  /** A payload of n bytes lists at most n / 2 UUIDs; in particular the eight-bit count is the
      true one for every payload below 512 bytes. */
  lemma ListedFits(p: seq<byte>)
    ensures 2 * |AllPlaces(p, INCOMP_UUIDS16)| <= |p|
  {
    AllPlacesCount(p, INCOMP_UUIDS16);
    ListedBound(p, 0);
  }

  // ------------------------------------------------------------ when the enumeration is right

  /** One lookup inside its type: right if the field is the first nonempty one or not longer
      than what precedes it. */
  lemma HitIsRight(slots: seq<Slot>, kind: byte, index: byte)
    requires IsList(kind) && !ShortList(slots, kind) && index < |Places(slots, kind)| <= 255
    ensures Stops(slots, kind, index, 0)
    ensures var ((s, prev), count) := (Hit(slots, kind, index, 0), Find(slots, kind, index, true, 0, 0).0);
            && s.kind == kind && count - Entries(s, kind) <= index
            && (Pick(s, count, index) == Some(Places(slots, kind)[index]) <==> prev == 0 || Entries(s, kind) <= index)
  {
    hide Find, Hit, Places, EntrySize, Entries, Stops, Pick, Short, Plus;
    FindHits(slots, kind, index, 0, 0);
    HitPlace(slots, kind, index, 0);
    var (s, prev) := Hit(slots, kind, index, 0);
    PickLands(s, prev, index);
    ListEntrySize(kind);
  }

  /** The last entry of a short list is one the walk stops at. */
  lemma {:induction false} ShortHit(slots: seq<Slot>, kind: byte, before: byte) returns (index: byte)
    requires IsList(kind) && before + |Places(slots, kind)| <= 255 && ShortList(slots, kind)
    ensures before <= index < before + |Places(slots, kind)| && Stops(slots, kind, index, before)
    ensures var (s, prev) := Hit(slots, kind, index, before);
            s.kind == kind && Short(s) && index == prev + Entries(s, kind) - 1
  {
    hide SlotPlaces, Entries, Short, Plus, Pick;
    var s := slots[0];
    if s.kind != kind {
      index := ShortHit(slots[1..], kind, before);
    } else {
      PlusSmall(before, Entries(s, kind));
      if Short(s) {
        PickShort(s, before);
        index := before + Entries(s, kind) - 1;
      } else {
        index := ShortHit(slots[1..], kind, before + Entries(s, kind));
      }
    }
  }

  /** A type that is unbalanced or has a short list has an index that is answered wrongly. */
  lemma WrongInType(p: seq<byte>, kind: byte) returns (index: byte)
    requires IsList(kind) && |Places(Slots(p, 0), kind)| <= 255
    requires ShortList(Slots(p, 0), kind) || !Balanced(Slots(p, 0), kind, 0)
    ensures index < |Places(Slots(p, 0), kind)| && Locate(p, kind, index) != Some(Places(Slots(p, 0), kind)[index])
  {
    hide Find, Hit, Places, EntrySize, Entries, Slots, Pick, Short, ShortList, Balanced, Stops, Plus;
    var slots := Slots(p, 0);
    if ShortList(slots, kind) {
      index := ShortHit(slots, kind, 0);
      FindHits(slots, kind, index, 0, 0);
      var (s, prev) := Hit(slots, kind, index, 0);
      PickShort(s, prev);
    } else {
      index := UnbalancedHit(slots, kind, 0);
      FindHits(slots, kind, index, 0, 0);
      HitIsRight(slots, kind, index);
    }
  }

  lemma {:induction false} LocateRight(p: seq<byte>, kind: byte, index: byte)
    requires IsList(kind) && Shaped(Slots(p, 0)) && index < |AllPlaces(p, kind)| <= 255
    requires forall k: byte :: kind <= k <= COMP_UUIDS128 ==> Balanced(Slots(p, 0), k, 0)
    ensures Locate(p, kind, index) == Some(AllPlaces(p, kind)[index])
    decreases COMP_UUIDS128 - kind
  {
    hide Find, Hit, Places, EntrySize, Entries, Slots, Pick, Short, Stops, Plus;
    var slots := Slots(p, 0);
    FindHits(slots, kind, index, 0, 0);
    StopsWithin(slots, kind, index, 0);
    if index < |Places(slots, kind)| {
      HitIsRight(slots, kind, index);
      BalancedHit(slots, kind, index, 0);
    } else {
      LocateRight(p, kind + 1, index - |Places(slots, kind)|);
    }
  }

  lemma {:induction false} LocateWrong(p: seq<byte>, kind: byte, bad: byte) returns (index: byte)
    requires IsList(kind) && |AllPlaces(p, kind)| <= 255 && kind <= bad <= COMP_UUIDS128
    requires ShortList(Slots(p, 0), bad) || !Balanced(Slots(p, 0), bad, 0)
    ensures index < |AllPlaces(p, kind)| && Locate(p, kind, index) != Some(AllPlaces(p, kind)[index])
    decreases COMP_UUIDS128 - kind
  {
    hide Places, Slots, Locate, ShortList, Balanced;
    if kind == bad {
      index := WrongInType(p, kind);
    } else {
      var i := LocateWrong(p, kind + 1, bad);
      index := i + |Places(Slots(p, 0), kind)|;
      PassedOn(p, kind, index);
    }
  }

  /** No list is one byte short, and eight bits can count the UUIDs. */
  ghost predicate Countable(p: seq<byte>) {
    Shaped(Slots(p, 0)) && |AllPlaces(p, INCOMP_UUIDS16)| <= 255
  }

  /** Every index below the count is answered with exactly its UUID, by type and then by position. */
  ghost predicate EnumeratesAll(p: seq<byte>) {
    |AllPlaces(p, INCOMP_UUIDS16)| <= 255
    && forall i: byte :: i < |AllPlaces(p, INCOMP_UUIDS16)| ==>
         Locate(p, INCOMP_UUIDS16, i) == Some(AllPlaces(p, INCOMP_UUIDS16)[i])
  }

  ghost predicate AllBalanced(p: seq<byte>) {
    forall k: byte :: IsList(k) ==> Balanced(Slots(p, 0), k, 0)
  }

  /** For every payload: getServiceUUID(0..count-1) enumerates exactly the counted UUIDs, by type
      and then by position, if and only if eight bits can count them, no list is one byte short,
      and within each type every list but the first nonempty one is no longer than the lists
      before it together. */
  lemma EnumerationExact(p: seq<byte>)
    ensures EnumeratesAll(p) <==> Countable(p) && AllBalanced(p)
  {
    hide Locate, AllPlaces, Slots, Balanced, Short;
    if Countable(p) && AllBalanced(p) {
      forall i: byte | i < |AllPlaces(p, INCOMP_UUIDS16)|
        ensures Locate(p, INCOMP_UUIDS16, i) == Some(AllPlaces(p, INCOMP_UUIDS16)[i])
      {
        LocateRight(p, INCOMP_UUIDS16, i);
      }
    } else if |AllPlaces(p, INCOMP_UUIDS16)| <= 255 {
      var bad := WrongType(p);
      var i := LocateWrong(p, INCOMP_UUIDS16, bad);
    }
  }

  lemma WrongType(p: seq<byte>) returns (bad: byte)
    requires !Shaped(Slots(p, 0)) || !AllBalanced(p)
    ensures IsList(bad) && (ShortList(Slots(p, 0), bad) || !Balanced(Slots(p, 0), bad, 0))
  {
    hide Slots, Balanced;
    if !Shaped(Slots(p, 0)) {
      var s :| s in Slots(p, 0) && Short(s);
      bad := s.kind;
    } else {
      bad :| IsList(bad) && !Balanced(Slots(p, 0), bad, 0);
    }
  }

  lemma {:induction false} SlotPlacesListed(slots: seq<Slot>, kind: byte, s: Slot, k: nat)
    requires IsList(kind) && s in slots && s.kind == kind && k < Entries(s, kind)
    ensures SlotPlaces(s)[k] in Places(slots, kind)
  {
    hide SlotPlaces, EntrySize;
    if s == slots[0] {
      assert Places(slots, kind)[k] == SlotPlaces(s)[k];
    } else {
      SlotPlacesListed(slots[1..], kind, s, k);
    }
  }

  lemma SlotPlaceAt(s: Slot, k: nat)
    requires IsList(s.kind) && k < Entries(s, s.kind)
    ensures SlotPlaces(s)[k] == Place(s.at + 2 + EntrySize(s.kind) * k, EntrySize(s.kind))
  {
  }

  lemma OfEitherKind(p: seq<byte>, kind: byte, place: Place)
    requires IsList(kind)
    ensures place in Places(Slots(p, 0), kind) ==> place in AllPlaces(p, kind)
    ensures kind < COMP_UUIDS128 && place in AllPlaces(p, kind + 1) ==> place in AllPlaces(p, kind)
  {
    hide Places, Slots;
  }

  /** Inside its type an index is answered with some UUID of that type. */
  lemma AnsweredInType(p: seq<byte>, kind: byte, index: byte)
    requires IsList(kind) && Shaped(Slots(p, 0)) && index < |Places(Slots(p, 0), kind)| <= 255
    ensures Locate(p, kind, index).Some? && Locate(p, kind, index).value in Places(Slots(p, 0), kind)
  {
    hide Find, Hit, Places, EntrySize, Entries, Slots, Pick, SlotPlaces, Stops, Plus, Short;
    var slots := Slots(p, 0);
    FindHits(slots, kind, index, 0, 0);
    StopsWithin(slots, kind, index, 0);
    var (s, prev) := Hit(slots, kind, index, 0);
    PickLands(s, prev, index);
    var k := if index >= Entries(s, kind) then index - prev else index;
    SlotPlacesListed(slots, kind, s, k);
    SlotPlaceAt(s, k);
    assert Locate(p, kind, index) == Some(SlotPlaces(s)[k]);
  }

  /** An index beyond its type is passed on to the next type. */
  lemma PassedOn(p: seq<byte>, kind: byte, index: byte)
    requires IsList(kind) && kind < COMP_UUIDS128 && |Places(Slots(p, 0), kind)| <= index
    ensures Locate(p, kind, index) == Locate(p, kind + 1, index - |Places(Slots(p, 0), kind)|)
  {
    hide Find, Hit, Places, Entries, Slots, Pick, Stops, Plus;
    FindHits(Slots(p, 0), kind, index, 0, 0);
    StopsWithin(Slots(p, 0), kind, index, 0);
  }

  /** Balanced or not, an index below the count is always answered with some listed UUID. */
  lemma {:induction false} AnswersAreListed(p: seq<byte>, kind: byte, index: byte)
    requires IsList(kind) && Shaped(Slots(p, 0)) && index < |AllPlaces(p, kind)| <= 255
    ensures Locate(p, kind, index).Some? && Locate(p, kind, index).value in AllPlaces(p, kind)
    decreases COMP_UUIDS128 - kind
  {
    hide Places, Slots, Locate, Shaped;
    var here := |Places(Slots(p, 0), kind)|;
    if index < here {
      AnsweredInType(p, kind, index);
    } else {
      PassedOn(p, kind, index);
      AnswersAreListed(p, kind + 1, index - here);
    }
    OfEitherKind(p, kind, Locate(p, kind, index).value);
  }

  /** Where the enumeration is exact, every listed UUID is found. */
  lemma ListedIsAdvertised(p: seq<byte>, place: Place)
    requires Countable(p) && AllBalanced(p)
    requires place in AllPlaces(p, INCOMP_UUIDS16) && InPayload(p, place) && IsUuid(Bytes(p, place))
    ensures Advertises(p, Bytes(p, place))
  {
    hide Locate, AllPlaces, Slots, Balanced, Shaped;
    EnumerationExact(p);
    var i: byte :| i < |AllPlaces(p, INCOMP_UUIDS16)| && AllPlaces(p, INCOMP_UUIDS16)[i] == place;
    assert UuidAt(p, i) == Bytes(p, place);
  }

  function Lists(slots: seq<Slot>, kind: byte): nat {
    if slots == [] then 0 else (if slots[0].kind == kind then 1 else 0) + Lists(slots[1..], kind)
  }

  /** A payload with at most one list of each type is enumerated exactly. */
  lemma {:induction false} SingleListIsBalanced(slots: seq<Slot>, kind: byte, before: nat)
    requires IsList(kind) && Lists(slots, kind) <= if before == 0 then 1 else 0
    ensures Balanced(slots, kind, before)
  {
    hide Entries;
    if slots != [] {
      if slots[0].kind == kind {
        NoListIsBalanced(slots[1..], kind, before + Entries(slots[0], kind));
      } else {
        SingleListIsBalanced(slots[1..], kind, before);
      }
    }
  }

  lemma {:induction false} NoListIsBalanced(slots: seq<Slot>, kind: byte, before: nat)
    requires IsList(kind) && Lists(slots, kind) == 0
    ensures Balanced(slots, kind, before)
  {
    if slots != [] {
      NoListIsBalanced(slots[1..], kind, before);
    }
  }

  /** Two lists of one type, the second longer: entry 1 is [c, d], but getServiceUUID(1) answers
      the second entry of the second list. */
  lemma LongerSecondList(a: byte, b: byte, c: byte, d: byte, e: byte, f: byte)
    ensures var p: seq<byte> := [3, 0x03, a, b, 5, 0x03, c, d, e, f];
            && |AllPlaces(p, INCOMP_UUIDS16)| > 1 && AllPlaces(p, INCOMP_UUIDS16)[1] == Place(6, 2)
            && Locate(p, INCOMP_UUIDS16, 1) == Some(Place(8, 2))
  {
    hide AllPlaces, Locate;
    var p: seq<byte> := [3, 0x03, a, b, 5, 0x03, c, d, e, f];
    assert Slots(p, 10) == [];
    assert Slots(p, 4) == [Slot(4, 5, 0x03)];
    assert Slots(p, 0) == [Slot(0, 3, 0x03), Slot(4, 5, 0x03)];
    LongerSecondPlaces(p);
    LongerSecondLocate(p);
  }

  lemma LongerSecondPlaces(p: seq<byte>)
    requires Slots(p, 0) == [Slot(0, 3, 0x03), Slot(4, 5, 0x03)]
    ensures |AllPlaces(p, INCOMP_UUIDS16)| > 1 && AllPlaces(p, INCOMP_UUIDS16)[1] == Place(6, 2)
  {
    hide Slots;
    var s0, s1 := Slot(0, 3, 0x03), Slot(4, 5, 0x03);
    assert [s0, s1][1..] == [s1] && [s1][1..] == [];
    assert Places([s1], 0x03) == SlotPlaces(s1) + [];
    assert Places([s0, s1], 0x03) == SlotPlaces(s0) + SlotPlaces(s1);
    assert Places([s1], 0x02) == [];
    assert Places([s0, s1], 0x02) == [];
    assert AllPlaces(p, 0x02) == AllPlaces(p, 0x03);
    assert AllPlaces(p, 0x03)[1] == Places([s0, s1], 0x03)[1] == Place(6, 2);
  }

  lemma LongerSecondLocate(p: seq<byte>)
    requires Slots(p, 0) == [Slot(0, 3, 0x03), Slot(4, 5, 0x03)]
    ensures Locate(p, INCOMP_UUIDS16, 1) == Some(Place(8, 2))
  {
    hide Slots, Places;
    var s0, s1 := Slot(0, 3, 0x03), Slot(4, 5, 0x03);
    assert [s0, s1][1..] == [s1] && [s1][1..] == [];
    assert Find([s0, s1], 0x02, 1, true, 0, 0).0 == Find([s1], 0x02, 1, true, 0, 0).0 == 0;
    assert Find([s0, s1], 0x03, 1, true, 0, 0) == Find([s1], 0x03, 1, true, 1, 0) == (3, 4);
    FindHits([s0, s1], 0x03, 1, 0, 0);
    assert Hit([s0, s1], 0x03, 1, 0) == Hit([s1], 0x03, 1, 1) == (s1, 1);
    assert Pick(s1, 3, 1) == Some(Place(8, 2));
    assert Locate(p, 0x03, 1) == Some(Place(8, 2));
  }

  // ------------------------------------------------------------ the name

  /** The first complete name; failing that, the last shortened one seen. */
  function NameSlot(slots: seq<Slot>, shortened: Option<Slot>): (r: Option<Slot>)
    ensures r.Some? ==> r == shortened || r.value in slots
  {
    if slots == [] then shortened
    else if slots[0].kind == COMP_NAME then Some(slots[0])
    else NameSlot(slots[1..], if slots[0].kind == INCOMP_NAME then Some(slots[0]) else shortened)
  }

  /** The field a name is taken from: the first complete one, or the last shortened one if none is
      complete. */
  ghost predicate HoldsName(slots: seq<Slot>, k: nat)
    requires k < |slots|
  {
    if slots[k].kind == COMP_NAME then forall j :: 0 <= j < k ==> slots[j].kind != COMP_NAME
    else
      && slots[k].kind == INCOMP_NAME
      && (forall j :: 0 <= j < |slots| ==> slots[j].kind != COMP_NAME)
      && (forall j :: k < j < |slots| ==> slots[j].kind != INCOMP_NAME)
  }

  lemma {:induction false} NameChoice(slots: seq<Slot>, shortened: Option<Slot>) returns (k: nat)
    ensures k <= |slots|
    ensures k < |slots| ==> HoldsName(slots, k) && NameSlot(slots, shortened) == Some(slots[k])
    ensures k == |slots| ==>
              NameSlot(slots, shortened) == shortened && forall j :: 0 <= j < k ==> !Matches(slots[j], COMP_NAME)
  {
    k := 0;
    if slots != [] && slots[0].kind != COMP_NAME {
      var rest := slots[1..];
      var n := NameChoice(rest, if slots[0].kind == INCOMP_NAME then Some(slots[0]) else shortened);
      assert forall j :: 0 <= j < |rest| ==> rest[j] == slots[j + 1];
      k := if n < |rest| || slots[0].kind != INCOMP_NAME then n + 1 else 0;
    }
  }

  /** How many shortened names there are. */
  function ShortNames(slots: seq<Slot>): nat {
    if slots == [] then 0 else (if slots[0].kind == INCOMP_NAME then 1 else 0) + ShortNames(slots[1..])
  }

  /** The fallback search: every shortened name raises the count and the index together, so
      only a complete name ends it, as long as they can be counted in eight bits. */
  lemma {:induction false} NameSearch(slots: seq<Slot>, n: byte, shortened: Option<Slot>)
    requires (shortened.Some? <==> n > 0) && n + ShortNames(slots) < 255
    ensures var (count, at) := Find(slots, COMP_NAME, n, true, n, if shortened.Some? then shortened.value.at else 0);
            match NameSlot(slots, shortened)
            case None => count == 0
            case Some(s) => count > 0 && at == s.at
  {
    if slots != [] && slots[0].kind != COMP_NAME {
      if slots[0].kind == INCOMP_NAME {
        NameSearch(slots[1..], n + 1, Some(slots[0]));
      } else {
        NameSearch(slots[1..], n, shortened);
      }
    }
  }

  /** However many names there are, the place that is stored is that of one of them. */
  lemma {:induction false} FoundIsName(slots: seq<Slot>, index: byte, count: byte, at: nat)
    ensures var (c, found) := Find(slots, COMP_NAME, index, true, count, at);
            || (found == at && (index == count == 0 ==> c == 0))
            || exists s :: s in slots && Matches(s, COMP_NAME) && s.at == found
  {
    hide Entries, Plus;
    if slots != [] {
      var s := slots[0];
      if !Matches(s, COMP_NAME) {
        FoundIsName(slots[1..], index, count, at);
      } else {
        OneName(s);
        var short := s.kind == INCOMP_NAME;
        FoundIsName(slots[1..], if short then Plus(index, 1) else index, Plus(count, 1), if short then s.at else at);
      }
    }
  }

  lemma OneName(s: Slot)
    ensures Entries(s, COMP_NAME) == 1 && Plus(0, 1) == 1
  {
  }

  /** The data of a field, empty if there is none. */
  function DataOf(p: seq<byte>, s: Slot): seq<byte>
    requires s.at + 1 + s.length <= |p|
  {
    if s.length > 1 then p[s.at + 2..s.at + 1 + s.length] else []
  }

  /** What the name search finds: the right name, unless there are too many to count, and then
      some name or nothing. */
  lemma NameFound(slots: seq<Slot>) returns (s: Option<Slot>)
    ensures var (count, at) := Find(slots, COMP_NAME, 0, true, 0, 0);
            if count == 0 then s == None else s.Some? && s.value.at == at
    ensures s.Some? ==> s.value in slots && Matches(s.value, COMP_NAME)
    ensures ShortNames(slots) < 255 ==> NameSlot(slots, None).Some? == s.Some?
    ensures ShortNames(slots) < 255 && s.Some?
            ==> NameSlot(slots, None).value in slots && NameSlot(slots, None).value.at == s.value.at
  {
    hide Find, ShortNames, NameSlot;
    var (count, at) := Find(slots, COMP_NAME, 0, true, 0, 0);
    FoundIsName(slots, 0, 0, 0);
    if ShortNames(slots) < 255 {
      NameSearch(slots, 0, None);
    }
    s := None;
    if count > 0 {
      var f :| f in slots && Matches(f, COMP_NAME) && f.at == at;
      s := Some(f);
    }
  }

  lemma SameData(p: seq<byte>, s: Slot, t: Slot)
    requires s in Slots(p, 0) && t in Slots(p, 0) && s.at == t.at
    ensures s == t
  {
    SlotInPayload(p, 0, s);
    SlotInPayload(p, 0, t);
  }

  lemma SlotsInPayload(p: seq<byte>)
    ensures forall s :: s in Slots(p, 0) ==> s.at + 1 + s.length <= |p|
  {
    forall s | s in Slots(p, 0)
      ensures s.at + 1 + s.length <= |p|
    {
      SlotInPayload(p, 0, s);
    }
  }

  /** getName: the bytes of the first complete name, or else of the last shortened one. The
      shortened names are counted in eight bits; from 255 of them on, which takes 511 bytes, it
      is still some name or nothing. */
  method GetName(p: seq<byte>) returns (name: seq<byte>)
    ensures forall s :: s in Slots(p, 0) ==> s.at + 1 + s.length <= |p|
    ensures ShortNames(Slots(p, 0)) < 255 ==>
              match NameSlot(Slots(p, 0), None)
              case None => name == []
              case Some(s) => name == DataOf(p, s)
    ensures name == [] || exists s :: s in Slots(p, 0) && Matches(s, COMP_NAME) && name == DataOf(p, s)
  {
    hide Slots, Find, ShortNames, NameSlot, Matches;
    SlotsInPayload(p);
    ghost var s := NameFound(Slots(p, 0));
    var count, at := FindAdvField(p, COMP_NAME, 0, true, 0);
    name := [];
    if count > 0 {
      SlotInPayload(p, 0, s.value);
      if ShortNames(Slots(p, 0)) < 255 {
        SameData(p, s.value, NameSlot(Slots(p, 0), None).value);
      }
      if p[at] > 1 {
        name := p[at + 2..at + 1 + p[at]];
      }
    }
  }
}
