/** The advertisement builder: a payload edited in place, always a sequence of AD fields. */
module AdvertisementData {
  import opened AdvertisedDevice
  import opened Bits
  import opened Options

  const MAX_SIZE: nat := 31
  const MAX_FIELD_SIZE: nat := 29

  const FLAGS: byte := 0x01
  const SLAVE_ITVL_RANGE: byte := 0x12
  const SVC_DATA_UUID16: byte := 0x16
  const SVC_DATA_UUID32: byte := 0x20
  const SVC_DATA_UUID128: byte := 0x21
  const APPEARANCE: byte := 0x19
  const URI: byte := 0x24
  const MFG_DATA: byte := 0xFF
  const BREDR_UNSUP: byte := 0x04

  datatype AdField = AdField(kind: byte, data: seq<byte>)

  ghost predicate Small(fs: seq<AdField>) {
    forall f :: f in fs ==> |f.data| <= 254
  }

  function FieldBytes(f: AdField): (r: seq<byte>)
    requires |f.data| <= 254
    ensures |r| == |f.data| + 2
  {
    [|f.data| + 1, f.kind] + f.data
  }

  function Encode(fs: seq<AdField>): seq<byte>
    requires Small(fs)
  {
    if fs == [] then [] else FieldBytes(fs[0]) + Encode(fs[1..])
  }

  /** Position of the first field of a type; the number of fields if there is none. */
  function First(fs: seq<AdField>, kind: byte): (k: nat)
    ensures k <= |fs| && (k < |fs| ==> fs[k].kind == kind)
    ensures forall i :: 0 <= i < k ==> fs[i].kind != kind
  {
    if fs == [] || fs[0].kind == kind then 0 else 1 + First(fs[1..], kind)
  }

  function Without(fs: seq<AdField>, k: nat): seq<AdField>
    requires k < |fs|
  {
    fs[..k] + fs[k + 1..]
  }

  lemma {:induction false} EncodeAppend(a: seq<AdField>, b: seq<AdField>)
    requires Small(a) && Small(b)
    ensures Small(a + b) && Encode(a + b) == Encode(a) + Encode(b)
  {
    hide FieldBytes;
    if a == [] {
      assert a + b == b;
    } else {
      EncodeAppend(a[1..], b);
      assert (a + b)[0] == a[0] && (a + b)[1..] == a[1..] + b;
    }
  }

  lemma SmallParts(fs: seq<AdField>, k: nat)
    requires Small(fs) && k < |fs|
    ensures Small(fs[..k]) && Small([fs[k]]) && Small(fs[k + 1..]) && |fs[k].data| <= 254
  {
  }

  /** The payload around one field. */
  lemma EncodeAround(fs: seq<AdField>, k: nat)
    requires Small(fs) && k < |fs|
    ensures Small(fs[..k]) && Small(fs[k + 1..]) && Small(Without(fs, k))
    ensures Encode(fs) == Encode(fs[..k]) + FieldBytes(fs[k]) + Encode(fs[k + 1..])
    ensures Encode(Without(fs, k)) == Encode(fs[..k]) + Encode(fs[k + 1..])
  {
    hide FieldBytes, Encode, Small;
    var a, f, b := fs[..k], [fs[k]], fs[k + 1..];
    SmallParts(fs, k);
    EncodeAppend(a, b);
    EncodeAppend(a, f);
    EncodeAppend(a + f, b);
    EncodeOne(fs[k]);
    assert fs == a + f + b;
  }

  lemma EncodeReplaced(fs: seq<AdField>, k: nat, f: AdField)
    requires Small(fs) && k < |fs| && |f.data| <= 254
    ensures Small(fs[k := f]) && Small(fs[..k]) && Small(fs[k + 1..])
    ensures Encode(fs[k := f]) == Encode(fs[..k]) + FieldBytes(f) + Encode(fs[k + 1..])
  {
    hide FieldBytes, Encode;
    EncodeAround(fs[k := f], k);
    assert fs[k := f][..k] == fs[..k] && fs[k := f][k + 1..] == fs[k + 1..];
  }

  lemma EncodeOne(f: AdField)
    requires |f.data| <= 254
    ensures Encode([f]) == FieldBytes(f)
  {
  }

  /** Where the k-th field starts. */
  function At(fs: seq<AdField>, k: nat): nat
    requires Small(fs) && k <= |fs|
  {
    |Encode(fs[..k])|
  }

  /** The list type that addServiceUUID uses for a UUID. */
  function ListKind(u: Uuid): byte
    requires IsUuid(u)
  {
    if |u| == 2 then COMP_UUIDS16 else if |u| == 4 then COMP_UUIDS32 else COMP_UUIDS128
  }

  /** The fields with one more UUID listed. */
  function Listing(fs: seq<AdField>, u: Uuid): seq<AdField>
    requires IsUuid(u)
  {
    var k := First(fs, ListKind(u));
    if k < |fs| then fs[k := fs[k].(data := fs[k].data + u)] else fs + [AdField(ListKind(u), u)]
  }

  /** The fields with the bytes [i, i + n) of field k's data gone, or all of it if that was all. */
  function Dropping(fs: seq<AdField>, k: nat, i: nat, n: nat): seq<AdField>
    requires k < |fs| && i + n <= |fs[k].data|
  {
    if |fs[k].data| == n then Without(fs, k) else fs[k := fs[k].(data := fs[k].data[..i] + fs[k].data[i + n..])]
  }

  /** The first position from i on, in steps of the UUID's size, where the UUID's bytes stand;
      it looks on to the end of p. */
  function ScanFor(p: seq<byte>, i: nat, u: Uuid): (r: Option<nat>)
    requires |u| > 0
    ensures r.Some? ==> i <= r.value && r.value + |u| <= |p| && p[r.value..r.value + |u|] == u
    decreases |p| - i
  {
    if i >= |p| then None
    else if i + |u| <= |p| && p[i..i + |u|] == u then Some(i)
    else ScanFor(p, i + |u|, u)
  }

  /** Inserting behind a field's data and raising its length byte extends the field. */
  lemma InsertedBytes(before: seq<byte>, f: AdField, after: seq<byte>, u: seq<byte>)
    requires |f.data| + |u| <= 254
    ensures var p, x := before + FieldBytes(f) + after, |before| + |f.data| + 2;
            (p[..x] + u + p[x..])[|before| := |f.data| + 1 + |u|] == before + FieldBytes(f.(data := f.data + u)) + after
  {
    var p, x := before + FieldBytes(f) + after, |before| + |f.data| + 2;
    assert p[..x] == before + FieldBytes(f) && p[x..] == after;
    assert p[..x] + u + p[x..] == before + ([|f.data| + 1, f.kind] + f.data + u) + after;
  }

  /** Erasing inside a field's data and lowering its length byte shortens the field. */
  lemma ErasedBytes(before: seq<byte>, f: AdField, after: seq<byte>, i: nat, n: nat)
    requires |f.data| <= 254 && i + n <= |f.data|
    ensures var p, x := before + FieldBytes(f) + after, |before| + 2 + i;
            (p[..x] + p[x + n..])[|before| := |f.data| + 1 - n]
            == before + FieldBytes(f.(data := f.data[..i] + f.data[i + n..])) + after
  {
    var p, x := before + FieldBytes(f) + after, |before| + 2 + i;
    assert p[..x] == before + ([|f.data| + 1, f.kind] + f.data[..i]);
    assert p[x + n..] == f.data[i + n..] + after;
    assert p[..x] + p[x + n..] == before + ([|f.data| + 1, f.kind] + (f.data[..i] + f.data[i + n..])) + after;
  }

  lemma ErasedFields(fs: seq<AdField>, k: nat, i: nat, n: nat)
    requires Small(fs) && k < |fs| && i + n <= |fs[k].data| && n < |fs[k].data|
    ensures var (p, loc) := (Encode(fs), At(fs, k));
            && Small(Dropping(fs, k, i, n)) && loc + 2 + |fs[k].data| <= |p|
            && Encode(Dropping(fs, k, i, n)) == (p[..loc + 2 + i] + p[loc + 2 + i + n..])[loc := |fs[k].data| + 1 - n]
  {
    hide Encode, FieldBytes;
    var f := fs[k].(data := fs[k].data[..i] + fs[k].data[i + n..]);
    EncodeAround(fs, k);
    EncodeReplaced(fs, k, f);
    ErasedBytes(Encode(fs[..k]), fs[k], Encode(fs[k + 1..]), i, n);
  }

  /** Dropping a field makes the payload shorter. */
  lemma ShorterPayload(fs: seq<AdField>, k: nat)
    requires Small(fs) && k < |fs|
    ensures Small(Without(fs, k)) && |Encode(Without(fs, k))| < |Encode(fs)|
  {
    hide Encode;
    EncodeAround(fs, k);
  }

  class AdvertisementData {
    var payload: seq<byte>
    ghost var fields: seq<AdField>

    ghost predicate Valid()
      reads this
    {
      Small(fields) && payload == Encode(fields) && |payload| <= MAX_SIZE
    }

    constructor ()
      ensures Valid() && fields == [] && payload == []
    {
      payload, fields := [], [];
    }

    /** Raw bytes. If they are fields, the payload goes on being fields. */
    method AddData(data: seq<byte>, ghost more: seq<AdField>) returns (ok: bool)
      modifies this
      ensures ok == (|old(payload)| + |data| <= MAX_SIZE)
      ensures payload == if ok then old(payload) + data else old(payload)
      ensures fields == if ok then old(fields) + more else old(fields)
      ensures old(Valid()) && Small(more) && data == Encode(more) ==> Valid()
    {
      hide Encode;
      if |payload| + |data| > MAX_SIZE {
        return false;
      }
      if Small(fields) && Small(more) {
        EncodeAppend(fields, more);
      }
      payload := payload + data;
      fields := fields + more;
      return true;
    }

    method AddField(kind: byte, data: seq<byte>) returns (ok: bool)
      requires Valid() && |data| <= 254
      modifies this
      ensures Valid() && ok == (|old(payload)| + |data| + 2 <= MAX_SIZE)
      ensures fields == if ok then old(fields) + [AdField(kind, data)] else old(fields)
    {
      hide Encode;
      EncodeOne(AdField(kind, data));
      ok := AddData([|data| + 1, kind] + data, [AdField(kind, data)]);
    }

    /** Start of the first field of the type, or -1. */
    method GetDataLocation(kind: byte) returns (loc: int)
      requires Valid()
      ensures var k := First(fields, kind);
              if k == |fields| then loc == -1 else loc == At(fields, k) && loc + 2 + |fields[k].data| <= |payload|
    {
      hide Encode, FieldBytes;
      var index := 0;
      ghost var k := 0;
      StartsAtZero();
      while index < |payload|
        invariant k <= |fields| && index == At(fields, k)
        invariant forall i :: 0 <= i < k ==> fields[i].kind != kind
        decreases |fields| - k
      {
        FieldHere(k);
        if payload[index + 1] == kind {
          return index;
        }
        index := index + payload[index] + 1;
        k := k + 1;
      }
      loc := -1;
      if k < |fields| {
        FieldHere(k);
      }
    }

    lemma StartsAtZero()
      requires Valid()
      ensures At(fields, 0) == 0
    {
    }

    /** What the bytes at a field's start say. */
    lemma FieldHere(k: nat)
      requires Valid() && k <= |fields|
      ensures k == |fields| ==> At(fields, k) == |payload|
      ensures k < |fields| ==> var loc := At(fields, k);
                && loc + 2 + |fields[k].data| <= |payload|
                && payload[loc] == |fields[k].data| + 1 && payload[loc + 1] == fields[k].kind
                && payload[loc + 2..loc + 2 + |fields[k].data|] == fields[k].data
                && At(fields, k + 1) == loc + payload[loc] + 1
    {
      if k < |fields| {
        hide Encode;
        EncodeAround(fields, k);
        EncodeAppend(fields[..k], [fields[k]]);
        EncodeOne(fields[k]);
        assert fields[..k + 1] == fields[..k] + [fields[k]];
      } else {
        assert fields[..k] == fields;
      }
    }

    /** Deletes exactly the first field of the type. */
    method RemoveData(kind: byte) returns (ok: bool)
      requires Valid()
      modifies this
      ensures Valid() && ok == (First(old(fields), kind) < |old(fields)|)
      ensures fields == if ok then Without(old(fields), First(old(fields), kind)) else old(fields)
    {
      hide Encode;
      ghost var k := First(fields, kind);
      var loc := GetDataLocation(kind);
      ok := loc != -1;
      if ok {
        FieldHere(k);
        EncodeAround(fields, k);
        payload := payload[..loc] + payload[loc + payload[loc] + 1..];
        fields := Without(fields, k);
      }
    }

    /** Succeeds exactly when the UUID has a valid size and there is room; changes only its own
        list, which is created if missing. */
    method AddServiceUuid(u: Uuid) returns (ok: bool)
      requires Valid()
      modifies this
      ensures Valid()
      ensures var header := if IsUuid(u) && First(old(fields), ListKind(u)) == |old(fields)| then 2 else 0;
              ok == (IsUuid(u) && |old(payload)| + |u| + header <= MAX_SIZE)
      ensures fields == if ok then Listing(old(fields), u) else old(fields)
    {
      hide Encode, FieldBytes;
      if !IsUuid(u) {
        return false;
      }
      var kind := ListKind(u);
      ghost var k := First(fields, kind);
      var loc := GetDataLocation(kind);
      var length := if loc == -1 then |u| + 2 else |u|;
      if length + |payload| > MAX_SIZE {
        return false;
      }
      if loc == -1 {
        ok := AddField(kind, u);
        return;
      }
      FieldHere(k);
      EncodeAround(fields, k);
      EncodeReplaced(fields, k, fields[k].(data := fields[k].data + u));
      InsertedBytes(Encode(fields[..k]), fields[k], Encode(fields[k + 1..]), u);
      var insertAt := loc + payload[loc] + 1;
      payload := payload[..insertAt] + u + payload[insertAt..];
      payload := payload[loc := payload[loc] + |u|];
      fields := Listing(fields, u);
      return true;
    }

    /** Where the scan for a UUID stops: nowhere without a list of its type. */
    ghost function FoundAt(u: Uuid): Option<nat>
      requires Valid()
      reads this
    {
      if IsUuid(u) && First(fields, ListKind(u)) < |fields|
      then ScanFor(payload, At(fields, First(fields, ListKind(u))) + 2, u)
      else None
    }

    /** The payload is left alone if and only if the scan finds nothing. Otherwise a list of one
        UUID goes as a whole, wherever the match stands; from a longer or an empty one the match
        is taken if it stands inside. A match elsewhere is erased all the same, and the list's
        length byte lowered: then the payload may no longer be fields. */
    method RemoveServiceUuid(u: Uuid) returns (ok: bool)
      requires Valid()
      modifies this
      ensures ok == IsUuid(u)
      ensures payload == old(payload) <==> old(FoundAt(u)) == None
      ensures old(FoundAt(u)) == None ==> Valid() && fields == old(fields)
      ensures old(FoundAt(u)).Some? ==>
                var (was, at) := (old(fields), old(FoundAt(u)).value);
                var k := First(was, ListKind(u));
                var loc := At(was, k);
                if |was[k].data| == |u| then
                  Valid() && fields == Without(was, k)
                else if at + |u| <= EndOf(was, k) then
                  Valid() && fields == Dropping(was, k, at - loc - 2, |u|)
                else
                  payload == (old(payload)[..at] + old(payload)[at + |u|..])[loc := (|was[k].data| + 257 - |u|) % 256]
    {
      hide Encode, ScanFor, Small, Dropping, Without, At, EndOf, ListKind;
      if !IsUuid(u) {
        return false;
      }
      var kind := ListKind(u);
      ghost var k := First(fields, kind);
      var loc := GetDataLocation(kind);
      if loc == -1 {
        return true;
      }
      var uuidLoc := FindUuid(loc + 2, u);
      if uuidLoc == -1 {
        return true;
      }
      FieldHere(k);
      if payload[loc] - |u| == 1 {
        ok := RemoveData(kind);
        ShorterPayload(old(fields), k);
        return;
      }
      EraseUuid(loc, uuidLoc, |u|, k);
      return true;
    }

    /** Takes n bytes out of the payload and out of field k's length byte. */
    method EraseUuid(loc: nat, uuidLoc: nat, n: nat, ghost k: nat)
      requires Valid() && k < |fields| && loc == At(fields, k)
      requires loc + 2 <= uuidLoc && uuidLoc + n <= |payload| && 0 < n <= 16 && n != |fields[k].data|
      modifies this
      ensures loc < |old(payload)| - n
      ensures var rest := old(payload)[..uuidLoc] + old(payload)[uuidLoc + n..];
              payload == rest[loc := (|old(fields)[k].data| + 257 - n) % 256]
      ensures uuidLoc + n <= EndOf(old(fields), k) ==>
                n < |old(fields)[k].data| && Valid() && fields == Dropping(old(fields), k, uuidLoc - loc - 2, n)
    {
      hide Encode, FieldBytes, Small, Dropping;
      FieldHere(k);
      payload := payload[..uuidLoc] + payload[uuidLoc + n..];
      payload := payload[loc := (payload[loc] + 256 - n) % 256];
      if uuidLoc + n <= EndOf(fields, k) {
        ErasedFields(fields, k, uuidLoc - loc - 2, n);
        fields := Dropping(fields, k, uuidLoc - loc - 2, n);
      }
    }

    /** The scanning loop. */
    method FindUuid(start: nat, u: Uuid) returns (at: int)
      requires |u| > 0
      ensures match ScanFor(payload, start, u) case None => at == -1 case Some(i) => at == i
    {
      var i := start;
      while i < |payload|
        invariant ScanFor(payload, i, u) == ScanFor(payload, start, u)
      {
        if i + |u| <= |payload| && payload[i..i + |u|] == u {
          return i;
        }
        i := i + |u|;
      }
      return -1;
    }

    /** A present flags field is patched or, for no flags, removed; a missing one is added with
        the BR/EDR bit even when no flags are asked for. The patch goes behind the type byte
        unseen: if the field is empty, into the next field's length byte. */
    method SetFlags(flag: byte) returns (ok: bool)
      requires Valid()
      requires var k := First(fields, FLAGS); flag != 0 && k < |fields| && fields[k].data == [] ==> k + 1 < |fields|
      modifies this
      ensures var (was, k) := (old(fields), First(old(fields), FLAGS));
              if k == |was| then
                Valid() && ok == (|old(payload)| + 3 <= MAX_SIZE)
                && fields == if ok then was + [AdField(FLAGS, [FlagByte(flag)])] else was
              else if flag == 0 then
                Valid() && ok && fields == Without(was, k)
              else if was[k].data != [] then
                Valid() && ok && fields == was[k := was[k].(data := was[k].data[0 := FlagByte(flag)])]
              else
                ok && At(was, k) + 2 < |old(payload)| && payload == old(payload)[At(was, k) + 2 := FlagByte(flag)]
    {
      hide Encode, FieldBytes, FlagByte;
      ghost var k := First(fields, FLAGS);
      var loc := GetDataLocation(FLAGS);
      if loc != -1 {
        if flag != 0 {
          FieldHere(k);
          if fields[k].data != [] {
            PatchedFields(fields, k, FlagByte(flag));
            fields := fields[k := fields[k].(data := fields[k].data[0 := FlagByte(flag)])];
          } else {
            FieldHere(k + 1);
          }
          payload := payload[loc + 2 := FlagByte(flag)];
          return true;
        } else {
          ok := RemoveData(FLAGS);
          return;
        }
      }
      ok := AddField(FLAGS, [FlagByte(flag)]);
    }

    method SetAppearance(appearance: uint16) returns (ok: bool)
      requires Valid()
      modifies this
      ensures Valid()
      ensures appearance == 0 ==>
                var k := First(old(fields), APPEARANCE);
                ok == (k < |old(fields)|) && fields == if ok then Without(old(fields), k) else old(fields)
      ensures appearance != 0 ==>
                ok == (|old(payload)| + 4 <= MAX_SIZE)
                && fields == if !ok then old(fields)
                             else old(fields) + [AdField(APPEARANCE, [appearance % 256, appearance / 256])]
    {
      hide Encode;
      if appearance == 0 {
        ok := RemoveData(APPEARANCE);
      } else {
        ok := AddField(APPEARANCE, [appearance % 256, appearance / 256]);
      }
    }

    /** Clamped to 6..0xC80 and the maximum to no less than the minimum. */
    method SetPreferredParams(minInterval: uint16, maxInterval: uint16) returns (ok: bool)
      requires Valid()
      modifies this
      ensures Valid() && ok == (|old(payload)| + 6 <= MAX_SIZE)
      ensures var low := Clamp(minInterval, 0x6, 0xC80);
              var high := Clamp(maxInterval, low, 0xC80);
              fields == if !ok then old(fields)
                        else old(fields) + [AdField(SLAVE_ITVL_RANGE, [low % 256, low / 256, high % 256, high / 256])]
    {
      hide Encode;
      var low: uint16 := if minInterval < 0x6 then 0x6 else minInterval;
      low := if low > 0xC80 then 0xC80 else low;
      var high: uint16 := if maxInterval < 0x6 then 0x6 else maxInterval;
      high := if high > 0xC80 then 0xC80 else high;
      high := if high < low then low else high;
      ok := AddField(SLAVE_ITVL_RANGE, [low % 256, low / 256, high % 256, high / 256]);
    }

    method SetManufacturerData(data: seq<byte>) returns (ok: bool)
      requires Valid()
      modifies this
      ensures Valid() && ok == (|data| <= MAX_FIELD_SIZE && |old(payload)| + |data| + 2 <= MAX_SIZE)
      ensures fields == if ok then old(fields) + [AdField(MFG_DATA, data)] else old(fields)
    {
      hide Encode;
      if |data| > MAX_FIELD_SIZE {
        return false;
      }
      ok := AddField(MFG_DATA, data);
    }

    method SetUri(uri: seq<byte>) returns (ok: bool)
      requires Valid()
      modifies this
      ensures Valid() && ok == (|uri| <= MAX_FIELD_SIZE && |old(payload)| + |uri| + 2 <= MAX_SIZE)
      ensures fields == if ok then old(fields) + [AdField(URI, uri)] else old(fields)
    {
      hide Encode;
      if |uri| > MAX_FIELD_SIZE {
        return false;
      }
      ok := AddField(URI, uri);
    }

    /** A name longer than 29 bytes is marked as shortened and cut there, or earlier: its length is
        taken in eight bits, so that of 256 bytes nothing is left. */
    method SetName(name: seq<byte>, isComplete: bool) returns (ok: bool)
      requires Valid()
      modifies this
      ensures Valid()
      ensures var shown := name[..ShownLength(|name|)];
              && ok == (|old(payload)| + |shown| + 2 <= MAX_SIZE)
              && fields == if !ok then old(fields) else
                   old(fields) + [AdField(if isComplete && shown == name then COMP_NAME else INCOMP_NAME, shown)]
    {
      hide Encode;
      var complete := isComplete;
      if |name| > MAX_FIELD_SIZE {
        complete := false;
      }
      var narrow := |name| % 256;
      var length := if narrow < MAX_FIELD_SIZE then narrow else MAX_FIELD_SIZE;
      assert |name| <= MAX_FIELD_SIZE ==> name[..length] == name;
      ok := AddField(if complete then COMP_NAME else INCOMP_NAME, name[..length]);
    }

    /** Lists the UUIDs of the given size, in order, as many as fit, and calls the list complete
        only if none of them was left out. Succeeds exactly for the three sizes if the payload
        has room for that list. */
    method SetServices(isComplete: bool, size: byte, uuids: seq<Uuid>) returns (ok: bool)
      requires Valid()
      modifies this
      ensures Valid()
      ensures size != 2 && size != 4 && size != 16 ==> !ok && fields == old(fields)
      ensures size == 2 || size == 4 || size == 16 ==>
                var fitting := OfSize(uuids, size);
                var n := if |fitting| <= 28 / size then |fitting| else 28 / size;
                && ok == (|old(payload)| + 2 + size * n <= MAX_SIZE)
                && fields == if !ok then old(fields) else
                     old(fields) + [AdField(ServicesKind(size, isComplete && n == |fitting|), Joined(fitting[..n]))]
    {
      hide Encode;
      var complete, data := isComplete, [];
      var i := 0;
      while i < |uuids|
        invariant 0 <= i <= |uuids| && |data| <= 28 && complete == isComplete
        invariant Fitting(uuids[i..], size, data) == Fitting(uuids, size, [])
      {
        assert uuids[i..][0] == uuids[i] && uuids[i..][1..] == uuids[i + 1..];
        if |uuids[i]| == size {
          if 2 + |data| + size >= MAX_SIZE {
            complete := false;
            break;
          }
          data := data + uuids[i];
        }
        i := i + 1;
      }
      if size != 2 && size != 4 && size != 16 {
        return false;
      }
      FittingIs(uuids, size, []);
      JoinedLength(OfSize(uuids, size)[..Room(uuids, size, [])], size);
      assert [] + Joined(OfSize(uuids, size)[..Room(uuids, size, [])])
             == Joined(OfSize(uuids, size)[..Room(uuids, size, [])]);
      ok := AddField(ServicesKind(size, complete), data);
    }

    /** No data removes the first service data field of that UUID size instead. The total is
        taken in eight bits: callers must not pass so much data that it only then seems to fit. */
    method SetServiceData(u: Uuid, data: seq<byte>) returns (ok: bool)
      requires Valid()
      requires IsUuid(u) && 2 + |u| + |data| > 255 ==> (2 + |u| + |data|) % 256 > MAX_SIZE
      modifies this
      ensures Valid()
      ensures !ok ==> fields == old(fields)
      ensures var total := 2 + |u| + |data|;
              ok == (IsUuid(u) && total <= MAX_SIZE && (data == [] || |old(payload)| + total <= MAX_SIZE))
      ensures ok && data != [] ==> fields == old(fields) + [AdField(ServiceDataKind(u), u + data)]
      ensures ok && data == [] ==>
                var k := First(old(fields), ServiceDataKind(u));
                fields == if k < |old(fields)| then Without(old(fields), k) else old(fields)
    {
      hide Encode;
      if (2 + |u| + |data|) % 256 > MAX_SIZE || !IsUuid(u) {
        return false;
      }
      if data == [] {
        var _ := RemoveData(ServiceDataKind(u));
        return true;
      }
      ok := AddField(ServiceDataKind(u), u + data);
    }
  }

  /** How much of a name of n bytes is advertised: all of it up to 29 bytes, 29 bytes of a longer
      one, but less where n is little more than a multiple of 256. */
  function ShownLength(n: nat): (r: nat)
    ensures r <= n && r <= MAX_FIELD_SIZE
    ensures n <= MAX_FIELD_SIZE ==> r == n
    ensures r < MAX_FIELD_SIZE <==> n % 256 < MAX_FIELD_SIZE
  {
    if n % 256 < MAX_FIELD_SIZE then n % 256 else MAX_FIELD_SIZE
  }

  function FlagByte(flag: byte): (r: byte) {
    FlagWidth(flag);
    Or(flag, BREDR_UNSUP)
  }

  lemma FlagWidth(flag: byte)
    ensures Or(flag, BREDR_UNSUP) < 256
  {
    Pow2Values();
    OrWidth(flag, BREDR_UNSUP, 8);
  }

  lemma PatchedFields(fs: seq<AdField>, k: nat, b: byte)
    requires Small(fs) && k < |fs| && fs[k].data != []
    ensures var g := fs[k := fs[k].(data := fs[k].data[0 := b])];
            Small(g) && At(fs, k) + 2 < |Encode(fs)| && Encode(g) == Encode(fs)[At(fs, k) + 2 := b]
  {
    hide Encode;
    EncodeAround(fs, k);
    EncodeReplaced(fs, k, fs[k].(data := fs[k].data[0 := b]));
  }

  function ServiceDataKind(u: Uuid): byte
    requires IsUuid(u)
  {
    if |u| == 2 then SVC_DATA_UUID16 else if |u| == 4 then SVC_DATA_UUID32 else SVC_DATA_UUID128
  }

  function ServicesKind(size: nat, complete: bool): byte
    requires size == 2 || size == 4 || size == 16
  {
    if size == 2 then (if complete then COMP_UUIDS16 else INCOMP_UUIDS16)
    else if size == 4 then (if complete then COMP_UUIDS32 else INCOMP_UUIDS32)
    else if complete then COMP_UUIDS128 else INCOMP_UUIDS128
  }

  function OfSize(uuids: seq<Uuid>, size: nat): (r: seq<Uuid>)
    ensures forall u :: u in r ==> |u| == size
  {
    if uuids == [] then [] else (if |uuids[0]| == size then [uuids[0]] else []) + OfSize(uuids[1..], size)
  }

  function Clamp(x: uint16, low: uint16, high: uint16): (r: uint16)
    requires low <= high
    ensures low <= r <= high && (low <= x <= high ==> r == x)
  {
    if x < low then low else if x > high then high else x
  }

  function Joined(uuids: seq<Uuid>): seq<byte> {
    if uuids == [] then [] else uuids[0] + Joined(uuids[1..])
  }

  lemma {:induction false} JoinedLength(uuids: seq<Uuid>, size: nat)
    requires forall u :: u in uuids ==> |u| == size
    ensures |Joined(uuids)| == size * |uuids|
  {
    if uuids != [] {
      JoinedLength(uuids[1..], size);
      OneMore(size, |uuids| - 1);
    }
  }

  lemma OneMore(size: nat, n: nat)
    ensures size * (n + 1) == size + size * n
  {
  }

  /** The list data collected from the remaining UUIDs, and whether one was left out. */
  function Fitting(uuids: seq<Uuid>, size: nat, data: seq<byte>): (seq<byte>, bool) {
    if uuids == [] then (data, false)
    else if |uuids[0]| != size then Fitting(uuids[1..], size, data)
    else if 2 + |data| + size >= MAX_SIZE then (data, true)
    else Fitting(uuids[1..], size, data + uuids[0])
  }

  function Quotient(a: nat, b: nat): nat
    requires b > 0
  {
    a / b
  }

  /** How many more UUIDs fit behind the data collected so far. */
  function Room(uuids: seq<Uuid>, size: nat, data: seq<byte>): (n: nat)
    requires size > 0 && |data| <= 28
    ensures n <= |OfSize(uuids, size)|
  {
    var all, most := |OfSize(uuids, size)|, Quotient(28 - |data|, size);
    if all <= most then all else most
  }

  lemma {:induction false} FittingIs(uuids: seq<Uuid>, size: nat, data: seq<byte>)
    requires (size == 2 || size == 4 || size == 16) && |data| <= 28
    ensures var (out, left) := Fitting(uuids, size, data);
            && out == data + Joined(OfSize(uuids, size)[..Room(uuids, size, data)])
            && left == (Room(uuids, size, data) < |OfSize(uuids, size)|)
  {
    hide Room, Joined, OfSize;
    NoneFits(uuids, size, data);
    if uuids == [] {
    } else if |uuids[0]| != size {
      FittingIs(uuids[1..], size, data);
      RoomStep(uuids, size, data);
    } else if 2 + |data| + size < MAX_SIZE {
      FittingIs(uuids[1..], size, data + uuids[0]);
      RoomStep(uuids, size, data);
      FittingTakes(data, uuids[0], OfSize(uuids[1..], size), Room(uuids[1..], size, data + uuids[0]));
    }
  }

  lemma FittingTakes(data: seq<byte>, u: Uuid, rest: seq<Uuid>, n: nat)
    requires n <= |rest|
    ensures data + u + Joined(rest[..n]) == data + Joined(([u] + rest)[..n + 1])
  {
    hide Joined;
    assert ([u] + rest)[..n + 1] == [u] + rest[..n];
    JoinedCons(u, rest[..n]);
  }

  lemma RoomStep(uuids: seq<Uuid>, size: nat, data: seq<byte>)
    requires (size == 2 || size == 4 || size == 16) && |data| <= 28 && uuids != []
    ensures |uuids[0]| != size ==> Room(uuids, size, data) == Room(uuids[1..], size, data)
    ensures |uuids[0]| == size && |data| + size <= 28 ==>
              Room(uuids, size, data) == Room(uuids[1..], size, data + uuids[0]) + 1
    ensures OfSize(uuids, size) == (if |uuids[0]| == size then [uuids[0]] else []) + OfSize(uuids[1..], size)
  {
  }

  lemma NoneFits(uuids: seq<Uuid>, size: nat, data: seq<byte>)
    requires (size == 2 || size == 4 || size == 16) && |data| <= 28
    ensures |data| + size > 28 ==> Room(uuids, size, data) == 0
    ensures uuids == [] ==> Room(uuids, size, data) == 0
    ensures OfSize(uuids, size)[..0] == [] && data + Joined([]) == data
    ensures uuids != [] && |uuids[0]| == size ==> |OfSize(uuids, size)| > 0
    ensures uuids == [] ==> OfSize(uuids, size) == []
  {
    hide Quotient;
    QuotientIsZero(28 - |data|, size);
  }

  lemma QuotientIsZero(a: nat, b: nat)
    requires b == 2 || b == 4 || b == 16
    ensures a < b ==> Quotient(a, b) == 0
  {
  }

  lemma JoinedCons(u: Uuid, rest: seq<Uuid>)
    ensures Joined([u] + rest) == u + Joined(rest)
  {
    assert ([u] + rest)[1..] == rest;
  }

  // ------------------------------------------------------------ what a scanner sees

  /** The fields as the parser visits them: all, but for an empty one at the very end. */
  function SlotsOf(fs: seq<AdField>, d: nat): seq<Slot>
    requires Small(fs)
  {
    if fs == [] || (|fs| == 1 && fs[0].data == []) then []
    else [Slot(d, |fs[0].data| + 1, fs[0].kind)] + SlotsOf(fs[1..], d + 2 + |fs[0].data|)
  }

  lemma {:induction false} ParsedFields(before: seq<byte>, fs: seq<AdField>)
    requires Small(fs)
    ensures Slots(before + Encode(fs), |before|) == SlotsOf(fs, |before|)
    decreases |fs|
  {
    hide Encode, FieldBytes;
    if fs == [] {
      EncodeNothing();
    } else {
      EncodeFirst(fs);
      FieldAt(before, fs[0], Encode(fs[1..]));
      RestNonempty(fs[1..]);
      assert before + Encode(fs) == before + FieldBytes(fs[0]) + Encode(fs[1..]);
      if |fs| > 1 || fs[0].data != [] {
        ParsedFields(before + FieldBytes(fs[0]), fs[1..]);
      } else {
        EncodeNothing();
      }
    }
  }

  lemma FieldAt(before: seq<byte>, f: AdField, after: seq<byte>)
    requires |f.data| <= 254
    ensures var (p, d) := (before + FieldBytes(f) + after, |before|);
            p[d] == |f.data| + 1 && p[d + 1] == f.kind && |p| == d + 2 + |f.data| + |after|
  {
  }

  lemma EncodeNothing()
    ensures Encode([]) == []
  {
  }

  lemma EncodeFirst(fs: seq<AdField>)
    requires Small(fs) && fs != []
    ensures Encode(fs) == FieldBytes(fs[0]) + Encode(fs[1..])
  {
  }

  lemma RestNonempty(fs: seq<AdField>)
    requires Small(fs)
    ensures fs != [] ==> |Encode(fs)| >= 2
  {
  }

  /** The scanner parses exactly the builder's fields. */
  lemma PayloadParses(fs: seq<AdField>)
    requires Small(fs)
    ensures Slots(Encode(fs), 0) == SlotsOf(fs, 0)
  {
    ParsedFields([], fs);
    assert [] + Encode(fs) == Encode(fs);
  }

  ghost predicate WholeLists(fs: seq<AdField>) {
    forall f :: f in fs && IsList(f.kind) ==> |f.data| % EntrySize(f.kind) == 0
  }

  function FieldsOf(fs: seq<AdField>, kind: byte): nat {
    if fs == [] then 0 else (if fs[0].kind == kind then 1 else 0) + FieldsOf(fs[1..], kind)
  }

  ghost predicate SingleLists(fs: seq<AdField>) {
    forall k: byte :: IsList(k) ==> FieldsOf(fs, k) <= 1
  }

  lemma {:induction false} SlotsAreShaped(fs: seq<AdField>, d: nat)
    requires Small(fs) && WholeLists(fs)
    ensures Shaped(SlotsOf(fs, d))
  {
    hide EntrySize, Shaped;
    if fs != [] && !(|fs| == 1 && fs[0].data == []) {
      SlotsAreShaped(fs[1..], d + 2 + |fs[0].data|);
      if IsList(fs[0].kind) {
        ListEntrySize(fs[0].kind);
        OneMoreThanWhole(|fs[0].data|, EntrySize(fs[0].kind));
      }
      ShapedCons(Slot(d, |fs[0].data| + 1, fs[0].kind), SlotsOf(fs[1..], d + 2 + |fs[0].data|));
    } else {
      NoneShaped();
    }
  }

  lemma OneMoreThanWhole(a: nat, n: nat)
    requires (n == 2 || n == 4 || n == 16) && a % n == 0
    ensures (a + 1) % n == 1
  {
    if n == 2 {
      Pairs(a);
    } else if n == 4 {
      Fours(a);
    } else {
      Sixteens(a);
    }
  }

  lemma Pairs(a: nat)
    requires a % 2 == 0
    ensures (a + 1) % 2 == 1 && (a + 2) % 2 == 0 && (a > 0 ==> a >= 2 && (a - 2) % 2 == 0)
  {
  }

  lemma Fours(a: nat)
    requires a % 4 == 0
    ensures (a + 1) % 4 == 1 && (a + 4) % 4 == 0 && (a > 0 ==> a >= 4 && (a - 4) % 4 == 0)
  {
  }

  lemma Sixteens(a: nat)
    requires a % 16 == 0
    ensures (a + 1) % 16 == 1 && (a + 16) % 16 == 0 && (a > 0 ==> a >= 16 && (a - 16) % 16 == 0)
  {
  }

  lemma NoneShaped()
    ensures Shaped([])
  {
  }

  lemma ShapedCons(s: Slot, slots: seq<Slot>)
    requires Shaped(slots) && (IsList(s.kind) ==> s.length % EntrySize(s.kind) == 1)
    ensures Shaped([s] + slots)
  {
  }

  lemma {:induction false} SlotsAreSingle(fs: seq<AdField>, d: nat, kind: byte)
    requires Small(fs)
    ensures Lists(SlotsOf(fs, d), kind) <= FieldsOf(fs, kind)
  {
    if fs != [] && !(|fs| == 1 && fs[0].data == []) {
      SlotsAreSingle(fs[1..], d + 2 + |fs[0].data|, kind);
    }
  }

  /** With whole lists, at most one of each type, every listed UUID is enumerated exactly. */
  lemma BuiltPayloadEnumerates(fs: seq<AdField>)
    requires Small(fs) && WholeLists(fs) && SingleLists(fs) && |Encode(fs)| <= MAX_SIZE
    ensures EnumeratesAll(Encode(fs))
  {
    hide Encode, Slots, Shaped, Balanced, WholeLists, SingleLists, AllPlaces, Locate, EnumeratesAll;
    BuiltPayloadBalanced(fs);
    ListedFits(Encode(fs));
    EnumerationExact(Encode(fs));
  }

  lemma BuiltPayloadBalanced(fs: seq<AdField>)
    requires Small(fs) && WholeLists(fs) && SingleLists(fs)
    ensures Shaped(Slots(Encode(fs), 0)) && AllBalanced(Encode(fs))
  {
    hide Encode, Slots, SlotsOf, Shaped, Balanced, WholeLists;
    PayloadParses(fs);
    SlotsAreShaped(fs, 0);
    forall k: byte | IsList(k)
      ensures Balanced(Slots(Encode(fs), 0), k, 0)
    {
      SlotsAreSingle(fs, 0, k);
      SingleListIsBalanced(Slots(Encode(fs), 0), k, 0);
    }
  }

  lemma {:induction false} SlotOfField(fs: seq<AdField>, d: nat, k: nat)
    requires Small(fs) && k < |fs| && fs[k].data != []
    ensures Small(fs[..k]) && Slot(d + At(fs, k), |fs[k].data| + 1, fs[k].kind) in SlotsOf(fs, d)
  {
    if k > 0 {
      SlotOfField(fs[1..], d + 2 + |fs[0].data|, k - 1);
      assert fs[1..][..k - 1] == fs[..k][1..];
    }
  }

  lemma {:induction false} PlacesOfType(p: seq<byte>, kind: byte, wanted: byte, place: Place)
    requires IsList(kind) && IsList(wanted) && kind <= wanted && place in Places(Slots(p, 0), wanted)
    ensures place in AllPlaces(p, kind)
    decreases COMP_UUIDS128 - kind
  {
    hide Places, Slots, AllPlaces;
    OfEitherKind(p, kind, place);
    if kind < wanted {
      PlacesOfType(p, kind + 1, wanted, place);
    }
  }

  lemma ListKindFits(u: Uuid)
    requires IsUuid(u)
    ensures IsList(ListKind(u)) && EntrySize(ListKind(u)) == |u| && (|u| == 2 || |u| == 4 || |u| == 16)
  {
  }

  /** The last UUID of a list is among the enumerated places. */
  lemma LastOfList(fs: seq<AdField>, k: nat, rest: seq<byte>, u: Uuid)
    requires Small(fs) && k < |fs| && IsUuid(u) && fs[k] == AdField(ListKind(u), rest + u) && |rest| % |u| == 0
    ensures var (p, place) := (Encode(fs), Place(At(fs, k) + 2 + |rest|, |u|));
            place in AllPlaces(p, INCOMP_UUIDS16) && InPayload(p, place) && Bytes(p, place) == u
  {
    hide Encode, Slots, SlotsOf, Places, SlotPlaces, AllPlaces, At, ListKind, EntrySize, Entries, IsUuid, Small;
    ListKindFits(u);
    var kind := ListKind(u);
    LastBytes(fs, k, rest, u);
    var s := Slot(At(fs, k), |fs[k].data| + 1, kind);
    PayloadParses(fs);
    SlotOfField(fs, 0, k);
    var j := |rest| / |u|;
    WholeEntries(s, |rest|, |u|);
    SlotPlacesListed(Slots(Encode(fs), 0), kind, s, j);
    SlotPlaceAt(s, j);
    PlacesOfType(Encode(fs), INCOMP_UUIDS16, kind, SlotPlaces(s)[j]);
  }

  lemma WholeEntries(s: Slot, before: nat, n: nat)
    requires IsList(s.kind) && EntrySize(s.kind) == n && (n == 2 || n == 4 || n == 16) && before % n == 0
    requires s.length == before + n + 1
    ensures before / n < Entries(s, s.kind) && n * (before / n) == before
  {
  }

  lemma LastBytes(fs: seq<AdField>, k: nat, rest: seq<byte>, u: seq<byte>)
    requires Small(fs) && k < |fs| && fs[k].data == rest + u
    ensures Small(fs[..k]) && |fs[k].data| <= 254
    ensures var (p, x) := (Encode(fs), At(fs, k) + 2 + |rest|); x + |u| <= |p| && p[x..x + |u|] == u
  {
    hide Encode, Small;
    SmallParts(fs, k);
    EncodeAround(fs, k);
    var head := [|fs[k].data| + 1, fs[k].kind] + rest;
    assert FieldBytes(fs[k]) == head + u;
    Middle(Encode(fs[..k]), head, u, Encode(fs[k + 1..]));
  }

  lemma Middle(a: seq<byte>, head: seq<byte>, u: seq<byte>, b: seq<byte>)
    ensures (a + (head + u) + b)[|a| + |head|..|a| + |head| + |u|] == u
  {
    assert a + (head + u) + b == (a + head) + u + b;
  }

  /** After a successful addServiceUUID, a scanner finds the service advertised. */
  lemma AddedIsAdvertised(fs: seq<AdField>, u: Uuid)
    requires IsUuid(u) && Small(fs) && Small(Listing(fs, u)) && WholeLists(fs) && SingleLists(fs)
    requires |Encode(Listing(fs, u))| <= MAX_SIZE
    ensures Advertises(Encode(Listing(fs, u)), u)
  {
    hide Encode, Slots, Advertises, SingleLists, AllPlaces, Balanced, Shaped, At;
    var k, g := First(fs, ListKind(u)), Listing(fs, u);
    ListingKeepsLists(fs, u);
    BuiltPayloadBalanced(g);
    ListedFits(Encode(g));
    var rest := if k < |fs| then fs[k].data else [];
    assert [] + u == u;
    LastOfList(g, k, rest, u);
    ListedIsAdvertised(Encode(g), Place(At(g, k) + 2 + |rest|, |u|));
  }

  lemma ListingKeepsLists(fs: seq<AdField>, u: Uuid)
    requires IsUuid(u) && WholeLists(fs) && SingleLists(fs)
    ensures WholeLists(Listing(fs, u)) && SingleLists(Listing(fs, u))
    ensures IsList(ListKind(u)) && EntrySize(ListKind(u)) == |u|
    ensures var k := First(fs, ListKind(u)); k < |fs| ==> |fs[k].data| % |u| == 0
  {
    hide FieldsOf, WholeLists, ListKind, IsUuid;
    var k, kind := First(fs, ListKind(u)), ListKind(u);
    ListKindFits(u);
    ListingKeepsWhole(fs, u);
    forall t: byte | IsList(t)
      ensures FieldsOf(Listing(fs, u), t) <= 1
    {
      if k < |fs| {
        FieldsOfReplaced(fs, k, fs[k].(data := fs[k].data + u), t);
      } else {
        FieldsOfAppended(fs, AdField(kind, u), t);
      }
    }
  }

  lemma ListingKeepsWhole(fs: seq<AdField>, u: Uuid)
    requires IsUuid(u) && WholeLists(fs)
    ensures WholeLists(Listing(fs, u))
    ensures var k := First(fs, ListKind(u)); k < |fs| ==> |fs[k].data| % |u| == 0
  {
    hide ListKind, EntrySize, IsUuid;
    ListKindFits(u);
    var k, n := First(fs, ListKind(u)), |u|;
    if k < |fs| {
      assert fs[k] in fs;
      WholeSum(|fs[k].data|, n);
    }
  }

  lemma WholeSum(a: nat, n: nat)
    requires (n == 2 || n == 4 || n == 16) && a % n == 0
    ensures (a + n) % n == 0
  {
    if n == 2 {
      Pairs(a);
    } else if n == 4 {
      Fours(a);
    } else {
      Sixteens(a);
    }
  }

  lemma {:induction false} FieldsOfReplaced(fs: seq<AdField>, k: nat, f: AdField, kind: byte)
    requires k < |fs| && f.kind == fs[k].kind
    ensures FieldsOf(fs[k := f], kind) == FieldsOf(fs, kind)
  {
    if k > 0 {
      FieldsOfReplaced(fs[1..], k - 1, f, kind);
      assert fs[k := f][1..] == fs[1..][k - 1 := f];
    } else {
      assert fs[0 := f][1..] == fs[1..];
    }
  }

  lemma {:induction false} FieldsOfAppended(fs: seq<AdField>, f: AdField, kind: byte)
    ensures FieldsOf(fs + [f], kind) == FieldsOf(fs, kind) + if f.kind == kind then 1 else 0
    ensures First(fs, f.kind) == |fs| ==> FieldsOf(fs, f.kind) == 0
  {
    if fs != [] {
      FieldsOfAppended(fs[1..], f, kind);
      assert (fs + [f])[1..] == fs[1..] + [f];
    } else {
      assert [f][1..] == [];
    }
  }

  // ------------------------------------------------------------ removing

  ghost predicate Stands(p: seq<byte>, at: nat, data: seq<byte>) {
    at + |data| <= |p| && p[at..at + |data|] == data
  }

  lemma SliceInside(p: seq<byte>, at: nat, data: seq<byte>, i: nat, n: nat)
    requires Stands(p, at, data) && i + n <= |data|
    ensures at + i + n <= |p| && p[at + i..at + i + n] == data[i..i + n]
  {
    var l, r := p[at + i..at + i + n], data[i..i + n];
    forall x | 0 <= x < n
      ensures l[x] == r[x]
    {
      assert p[at..at + |data|][i + x] == p[at + i + x];
    }
  }

  lemma ScanHere(p: seq<byte>, i: nat, u: Uuid)
    requires |u| > 0
    ensures i + |u| <= |p| ==> ScanFor(p, i, u) == if p[i..i + |u|] == u then Some(i) else ScanFor(p, i + |u|, u)
    ensures i + |u| > |p| ==> ScanFor(p, i, u) == None
  {
  }

  /** A match inside the list is the one the payload scan finds first. */
  lemma {:induction false} ScanFindsListed(p: seq<byte>, at: nat, data: seq<byte>, i: nat, u: Uuid)
    requires Stands(p, at, data) && |u| > 0 && ScanFor(data, i, u).Some?
    ensures ScanFor(p, at + i, u) == Some(at + ScanFor(data, i, u).value)
    decreases |data| - i
  {
    hide Stands, ScanFor;
    ScanHere(data, i, u);
    if i + |u| <= |data| {
      SliceInside(p, at, data, i, |u|);
      ScanHere(p, at + i, u);
      if data[i..i + |u|] != u {
        ScanFindsListed(p, at, data, i + |u|, u);
      }
    }
  }

  /** Without a match in the list the scan goes on behind it. */
  lemma {:induction false} ScanPassesList(p: seq<byte>, at: nat, data: seq<byte>, i: nat, u: Uuid)
    requires Stands(p, at, data) && IsUuid(u) && i <= |data| && (|data| - i) % |u| == 0 && ScanFor(data, i, u) == None
    ensures ScanFor(p, at + i, u) == ScanFor(p, at + |data|, u)
    decreases |data| - i
  {
    hide Stands, ScanFor;
    if i < |data| {
      WholeStep(|data| - i, |u|);
      ScanHere(data, i, u);
      ScanHere(p, at + i, u);
      SliceInside(p, at, data, i, |u|);
      ScanPassesList(p, at, data, i + |u|, u);
    }
  }

  lemma WholeStep(rest: nat, n: nat)
    requires (n == 2 || n == 4 || n == 16) && rest > 0 && rest % n == 0
    ensures rest >= n && (rest - n) % n == 0
  {
    if n == 2 {
      Pairs(rest);
    } else if n == 4 {
      Fours(rest);
    } else {
      Sixteens(rest);
    }
  }

  ghost predicate Listed(fs: seq<AdField>, k: nat, u: Uuid)
    requires k < |fs| && |u| > 0
  {
    ScanFor(fs[k].data, 0, u).Some?
  }

  /** End of field k in the payload. */
  function EndOf(fs: seq<AdField>, k: nat): nat
    requires Small(fs) && k < |fs|
  {
    At(fs, k) + 2 + |fs[k].data|
  }

  /** Removing a listed UUID hits its first occurrence; removing an unlisted one leaves the
      payload alone if and only if no match stands behind the list, and otherwise the scan
      answers a place in somebody else's bytes. */
  lemma RemoveScan(fs: seq<AdField>, k: nat, u: Uuid)
    requires Small(fs) && k < |fs| && IsUuid(u) && |fs[k].data| % |u| == 0
    ensures var (p, scan) := (Encode(fs), ScanFor(Encode(fs), At(fs, k) + 2, u));
            && (Listed(fs, k, u) ==> scan == Some(At(fs, k) + 2 + ScanFor(fs[k].data, 0, u).value)
                                     && scan.value + |u| <= EndOf(fs, k))
            && (!Listed(fs, k, u) ==> (scan == None <==> ScanFor(p, EndOf(fs, k), u) == None)
                                      && (scan.Some? ==> scan.value >= EndOf(fs, k)))
  {
    hide Encode, ScanFor, At, Small, Stands;
    DataStands(fs, k);
    if Listed(fs, k, u) {
      ListedScan(Encode(fs), At(fs, k) + 2, fs[k].data, u);
    } else {
      UnlistedScan(Encode(fs), At(fs, k) + 2, fs[k].data, u);
    }
  }

  lemma ListedScan(p: seq<byte>, at: nat, data: seq<byte>, u: Uuid)
    requires Stands(p, at, data) && IsUuid(u) && ScanFor(data, 0, u).Some?
    ensures ScanFor(p, at, u) == Some(at + ScanFor(data, 0, u).value) && ScanFor(data, 0, u).value + |u| <= |data|
  {
    hide ScanFor, Stands;
    ScanBounds(data, 0, u);
    ScanFindsListed(p, at, data, 0, u);
  }

  lemma UnlistedScan(p: seq<byte>, at: nat, data: seq<byte>, u: Uuid)
    requires Stands(p, at, data) && IsUuid(u) && |data| % |u| == 0 && ScanFor(data, 0, u) == None
    ensures ScanFor(p, at, u) == ScanFor(p, at + |data|, u)
    ensures ScanFor(p, at, u).Some? ==> ScanFor(p, at, u).value >= at + |data|
  {
    hide ScanFor, Stands;
    ScanPassesList(p, at, data, 0, u);
    ScanBounds(p, at + |data|, u);
  }

  lemma ScanBounds(p: seq<byte>, i: nat, u: Uuid)
    requires |u| > 0
    ensures var r := ScanFor(p, i, u); r.Some? ==> i <= r.value && r.value + |u| <= |p|
  {
  }

  lemma DataStands(fs: seq<AdField>, k: nat)
    requires Small(fs) && k < |fs|
    ensures Stands(Encode(fs), At(fs, k) + 2, fs[k].data)
  {
    hide Encode, Small;
    SmallParts(fs, k);
    EncodeAround(fs, k);
    Middle(Encode(fs[..k]), [|fs[k].data| + 1, fs[k].kind], fs[k].data, Encode(fs[k + 1..]));
  }

  /** The stray match: removing a service that was never listed finds the manufacturer data. */
  lemma StrayMatch(a: byte, b: byte, c: byte, d: byte)
    requires (a, b) != (c, d) && (c, d) != (3, 0xFF)
    ensures var fs := [AdField(COMP_UUIDS16, [a, b]), AdField(MFG_DATA, [c, d])];
            !Listed(fs, 0, [c, d]) && ScanFor(Encode(fs), 2, [c, d]) == Some(6) && EndOf(fs, 0) == 4
  {
    var fs := [AdField(COMP_UUIDS16, [a, b]), AdField(MFG_DATA, [c, d])];
    var p: seq<byte> := [3, 0x03, a, b, 3, 0xFF, c, d];
    assert fs[1..] == [AdField(MFG_DATA, [c, d])];
    EncodeOne(fs[1]);
    assert Encode(fs) == FieldBytes(fs[0]) + Encode(fs[1..]) == p;
    assert p[2..4] == [a, b] && p[4..6] == [3, 0xFF] && p[6..8] == [c, d];
    assert [a, b][0] == a && [a, b][1] == b && [c, d][0] == c && [c, d][1] == d && [3, 0xFF][0] == 3
           && [3, 0xFF][1] == 0xFF;
    assert ScanFor(p, 6, [c, d]) == Some(6);
    assert ScanFor(p, 4, [c, d]) == ScanFor(p, 6, [c, d]);
    assert [a, b][0..2] == [a, b];
    assert ScanFor([a, b], 0, [c, d]) == ScanFor([a, b], 2, [c, d]) == None;
  }

  /** What the call then does: the service that was advertised goes instead. */
  method StrayRemoval(a: byte, b: byte, c: byte, d: byte) returns (adv: AdvertisementData)
    requires (a, b) != (c, d) && (c, d) != (3, 0xFF)
    ensures adv.Valid() && adv.fields == [AdField(MFG_DATA, [c, d])]
  {
    hide Encode, ScanFor, EndOf;
    adv := StrayPayload(a, b, c, d);
    StrayMatch(a, b, c, d);
    EncodeNothing();
    var _ := adv.RemoveServiceUuid([c, d]);
  }

  method StrayPayload(a: byte, b: byte, c: byte, d: byte) returns (adv: AdvertisementData)
    ensures fresh(adv) && adv.Valid() && adv.fields == [AdField(COMP_UUIDS16, [a, b]), AdField(MFG_DATA, [c, d])]
  {
    hide Encode;
    adv := new AdvertisementData();
    EncodeNothing();
    var _ := adv.AddServiceUuid([a, b]);
    assert adv.fields == [AdField(COMP_UUIDS16, [a, b])];
    EncodeOne(adv.fields[0]);
    var _ := adv.SetManufacturerData([c, d]);
  }

  /** The data of the UUID's list, if there is one. */
  function ListData(fs: seq<AdField>, u: Uuid): seq<byte>
    requires IsUuid(u)
  {
    var k := First(fs, ListKind(u));
    if k < |fs| then fs[k].data else []
  }

  /** Where a UUID stands first once it is added to a list. */
  function FirstAt(data: seq<byte>, u: Uuid): nat
    requires |u| > 0
  {
    match ScanFor(data, 0, u) case None => |data| case Some(j) => j
  }

  lemma AddedIsFound(data: seq<byte>, u: Uuid)
    requires IsUuid(u) && |data| % |u| == 0
    ensures var i := FirstAt(data, u);
            ScanFor(data + u, 0, u) == Some(i) && i <= |data| && (i < |data| ==> i + |u| <= |data|)
  {
    hide ScanFor;
    ScanBounds(data, 0, u);
    if ScanFor(data, 0, u).None? {
      LastIsFound(data, u);
    } else {
      FirstIsFound(data, u);
    }
  }

  /** Removing what was just added takes out the first occurrence: the one just added if the UUID
      was not listed before, and then the fields are as they were, but for a list that was empty,
      which goes as a whole. Of a UUID listed before, the first occurrence has moved to the end. */
  lemma AddThenRemove(fs: seq<AdField>, u: Uuid)
    requires IsUuid(u) && Small(fs) && Small(Listing(fs, u)) && WholeLists(fs)
    ensures var (k, g, data) := (First(fs, ListKind(u)), Listing(fs, u), ListData(fs, u));
            var i := FirstAt(data, u);
            && First(g, ListKind(u)) == k < |g| && i + |u| <= |g[k].data|
            && ScanFor(Encode(g), At(g, k) + 2, u) == Some(At(g, k) + 2 + i)
            && Dropping(g, k, i, |u|) ==
               if k == |fs| then fs
               else if data == [] then Without(fs, k)
               else if i == |data| then fs
               else fs[k := fs[k].(data := data[..i] + data[i + |u|..] + u)]
  {
    hide Encode, ListKind, At, WholeLists, ScanFor, Small, EntrySize, Dropping, Without, FirstAt, First, IsUuid;
    AddedIsScanned(fs, u);
    DroppedAt(fs, First(fs, ListKind(u)), ListData(fs, u), FirstAt(ListData(fs, u), u), u);
  }

  /** The removal looks in the same list, and stops at the first occurrence there. */
  lemma AddedIsScanned(fs: seq<AdField>, u: Uuid)
    requires IsUuid(u) && Small(fs) && Small(Listing(fs, u)) && WholeLists(fs)
    ensures |u| > 0
    ensures var (k, g, data) := (First(fs, ListKind(u)), Listing(fs, u), ListData(fs, u));
            var i := FirstAt(data, u);
            && First(g, ListKind(u)) == k < |g| && i <= |data| && (i < |data| ==> i + |u| <= |data|)
            && ScanFor(Encode(g), At(g, k) + 2, u) == Some(At(g, k) + 2 + i)
  {
    hide Encode, ListKind, At, WholeLists, ScanFor, Small, EntrySize, EndOf, FirstAt, Listing, First, ListData, IsUuid;
    ListKindFits(u);
    ListedLast(fs, u);
    var k, g, data := First(fs, ListKind(u)), Listing(fs, u), ListData(fs, u);
    AddedIsFound(data, u);
    ListingKeepsWhole(fs, u);
    FirstIs(g, ListKind(u), k);
    ListIsWhole(g, k);
    RemoveScan(g, k, u);
  }

  /** What dropping |u| bytes at i from the extended list leaves. */
  lemma DroppedAt(fs: seq<AdField>, k: nat, data: seq<byte>, i: nat, u: Uuid)
    requires IsUuid(u) && k <= |fs| && i <= |data| && (i < |data| ==> i + |u| <= |data|)
    requires if k < |fs| then data == fs[k].data else data == []
    ensures var g := if k < |fs| then fs[k := fs[k].(data := data + u)] else fs + [AdField(ListKind(u), u)];
            k < |g| && i + |u| <= |g[k].data|
            && Dropping(g, k, i, |u|) ==
               if k == |fs| then fs
               else if data == [] then Without(fs, k)
               else if i == |data| then fs
               else fs[k := fs[k].(data := data[..i] + data[i + |u|..] + u)]
  {
    var g := if k < |fs| then fs[k := fs[k].(data := data + u)] else fs + [AdField(ListKind(u), u)];
    if k < |fs| {
      CutOut(data, i, u);
      assert fs[k := fs[k].(data := data)] == fs;
    } else {
      assert Without(g, k) == fs;
    }
  }

  lemma CutOut(data: seq<byte>, i: nat, u: seq<byte>)
    requires i <= |data| && (i < |data| ==> i + |u| <= |data|)
    ensures (data + u)[..i] + (data + u)[i + |u|..] == if i == |data| then data else data[..i] + data[i + |u|..] + u
  {
  }

  lemma ListedLast(fs: seq<AdField>, u: Uuid)
    requires IsUuid(u) && WholeLists(fs)
    ensures var (k, g, data) := (First(fs, ListKind(u)), Listing(fs, u), ListData(fs, u));
            && k < |g| && g[k] == AdField(ListKind(u), data + u) && |data| % |u| == 0
            && (forall i :: 0 <= i < k ==> g[i].kind != ListKind(u))
  {
    hide ListKind, IsUuid, WholeLists;
    ListKindFits(u);
    ListingKeepsWhole(fs, u);
    if First(fs, ListKind(u)) == |fs| {
      assert [] + u == u;
    }
  }

  lemma FirstIsFound(data: seq<byte>, u: Uuid)
    requires IsUuid(u) && ScanFor(data, 0, u).Some?
    ensures ScanFor(data + u, 0, u) == ScanFor(data, 0, u)
  {
    hide ScanFor;
    assert (data + u)[..|data|] == data;
    ScanFindsListed(data + u, 0, data, 0, u);
  }

  lemma ListIsWhole(fs: seq<AdField>, k: nat)
    requires WholeLists(fs) && k < |fs| && IsList(fs[k].kind)
    ensures |fs[k].data| % EntrySize(fs[k].kind) == 0
  {
  }

  lemma FirstIs(fs: seq<AdField>, kind: byte, k: nat)
    requires k < |fs| && fs[k].kind == kind && forall i :: 0 <= i < k ==> fs[i].kind != kind
    ensures First(fs, kind) == k
  {
  }

  lemma LastIsFound(data: seq<byte>, u: Uuid)
    requires IsUuid(u) && |data| % |u| == 0 && ScanFor(data, 0, u) == None
    ensures ScanFor(data + u, 0, u) == Some(|data|)
  {
    ScanPassesList(data + u, 0, data, 0, u);
    assert (data + u)[|data|..|data| + |u|] == u;
  }
}
