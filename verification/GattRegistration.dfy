/** GATT server start: the definition tables, the reset that drops deleted attributes, and the
    registration callback that hands out handles by first match. */
module GattRegistration {
  import AdvertisedDevice
  import opened Options

  /** A UUID of 2, 4 or 16 bytes. A short one equals its 128-bit form. */
  type Uuid = u: AdvertisedDevice.Uuid | AdvertisedDevice.IsUuid(u) witness [0, 0]

  // 1 stands for hidden: not registered, but not deleted either.
  const KEEP := 0
  const DELETE := 2

  /** What services, characteristics and descriptors share. */
  datatype Attr = Attr(uuid: Uuid, removed: nat, handle: nat)

  datatype Chr = Chr(attr: Attr, dscs: seq<Attr>)

  datatype Svc = Svc(attr: Attr, chrs: seq<Chr>)

  // ------------------------------------------------------------ reset

  function ClearDscs(ds: seq<Attr>): seq<Attr> {
    if ds == [] then []
    else
      var d := ds[|ds| - 1];
      ClearDscs(ds[..|ds| - 1]) + if d.removed == DELETE then [] else [d.(handle := 0)]
  }

  function ClearChr(c: Chr): Chr {
    Chr(c.attr.(handle := 0), ClearDscs(c.dscs))
  }

  function ClearChrs(cs: seq<Chr>): seq<Chr> {
    if cs == [] then []
    else
      var c := cs[|cs| - 1];
      ClearChrs(cs[..|cs| - 1]) + if c.attr.removed == DELETE then [] else [ClearChr(c)]
  }

  function ClearSvc(s: Svc): Svc {
    Svc(s.attr.(handle := 0), ClearChrs(s.chrs))
  }

  /** Deleted attributes are gone at every level; the others are there without handles. */
  function ClearSvcs(ss: seq<Svc>): seq<Svc> {
    if ss == [] then []
    else
      var s := ss[|ss| - 1];
      ClearSvcs(ss[..|ss| - 1]) + if s.attr.removed == DELETE then [] else [ClearSvc(s)]
  }

  // ------------------------------------------------------------ definition tables

  /** Table entries; the entry without a UUID ends a table. */
  datatype DscDef = EndDsc | DscDef(uuid: Uuid)

  datatype ChrDef = EndChr | ChrDef(uuid: Uuid, dscs: seq<DscDef>)

  datatype SvcDef = SvcDef(uuid: Uuid, chrs: seq<ChrDef>)

  function DscDefs(ds: seq<Attr>): seq<DscDef> {
    if ds == [] then []
    else DscDefs(ds[..|ds| - 1]) + if ds[|ds| - 1].removed != KEEP then [] else [DscDef(ds[|ds| - 1].uuid)]
  }

  /** No table at all for an empty list. */
  function DscTable(ds: seq<Attr>): seq<DscDef> {
    if DscDefs(ds) == [] then [] else DscDefs(ds) + [EndDsc]
  }

  function ChrDefs(cs: seq<Chr>): seq<ChrDef> {
    if cs == [] then []
    else
      var c := cs[|cs| - 1];
      ChrDefs(cs[..|cs| - 1]) + if c.attr.removed != KEEP then [] else [ChrDef(c.attr.uuid, DscTable(c.dscs))]
  }

  function ChrTable(cs: seq<Chr>): seq<ChrDef> {
    if ChrDefs(cs) == [] then [] else ChrDefs(cs) + [EndChr]
  }

  function SvcDefs(ss: seq<Svc>): seq<SvcDef> {
    if ss == [] then []
    else
      var s := ss[|ss| - 1];
      SvcDefs(ss[..|ss| - 1]) + if s.attr.removed != KEEP then [] else [SvcDef(s.attr.uuid, ChrTable(s.chrs))]
  }

  // ------------------------------------------------------------ registrations

  datatype Reg =
    | RegSvc(uuid: Uuid, handle: nat)
    | RegChr(uuid: Uuid, handle: nat)
    | RegDsc(uuid: Uuid, handle: nat)

  /** The registrations that announce exactly the handles of the attributes in place, in
      definition order, nothing for removed ones or below them. */
  function DscRegs(ds: seq<Attr>): seq<Reg> {
    if ds == [] then []
    else (if ds[0].removed != KEEP then [] else [RegDsc(ds[0].uuid, ds[0].handle)]) + DscRegs(ds[1..])
  }

  function ChrRegs(cs: seq<Chr>): seq<Reg> {
    if cs == [] then []
    else
      (if cs[0].attr.removed != KEEP then []
       else [RegChr(cs[0].attr.uuid, cs[0].attr.handle)] + DscRegs(cs[0].dscs)) + ChrRegs(cs[1..])
  }

  function SvcRegs(ss: seq<Svc>): seq<Reg> {
    if ss == [] then []
    else
      (if ss[0].attr.removed != KEEP then []
       else [RegSvc(ss[0].attr.uuid, ss[0].attr.handle)] + ChrRegs(ss[0].chrs)) + SvcRegs(ss[1..])
  }

  /** Everything not removed, nor below something removed, has a handle; nothing else does. */
  predicate DscsAssigned(ds: seq<Attr>, live: bool) {
    forall d :: d in ds ==> (d.handle != 0 <==> live && d.removed == KEEP)
  }

  predicate ChrAssigned(c: Chr, live: bool) {
    (c.attr.handle != 0 <==> live && c.attr.removed == KEEP) && DscsAssigned(c.dscs, live && c.attr.removed == KEEP)
  }

  predicate ChrsAssigned(cs: seq<Chr>, live: bool) {
    forall c :: c in cs ==> ChrAssigned(c, live)
  }

  predicate SvcAssigned(s: Svc) {
    (s.attr.handle != 0 <==> s.attr.removed == KEEP) && ChrsAssigned(s.chrs, s.attr.removed == KEEP)
  }

  predicate Assigned(ss: seq<Svc>) {
    forall s :: s in ss ==> SvcAssigned(s)
  }

  // ------------------------------------------------------------ first match

  /** The first attribute that is not removed, has no handle yet and has this UUID. */
  function FirstFree(attrs: seq<Attr>, uuid: Uuid): (k: nat)
    ensures k <= |attrs|
    ensures k < |attrs| ==> Free(attrs[k], uuid)
    ensures forall i :: 0 <= i < k ==> !Free(attrs[i], uuid)
  {
    if attrs == [] || Free(attrs[0], uuid) then 0 else 1 + FirstFree(attrs[1..], uuid)
  }

  predicate Free(a: Attr, uuid: Uuid) {
    a.removed == KEEP && a.handle == 0 && AdvertisedDevice.SameUuid(a.uuid, uuid)
  }

  function SvcAttrs(ss: seq<Svc>): (r: seq<Attr>)
    ensures |r| == |ss|
  {
    seq(|ss|, i requires 0 <= i < |ss| => ss[i].attr)
  }

  function ChrAttrs(cs: seq<Chr>): (r: seq<Attr>)
    ensures |r| == |cs|
  {
    seq(|cs|, i requires 0 <= i < |cs| => cs[i].attr)
  }

  /** The services and the callback's memory: the service it is in, and the characteristic it
      saw last, by service and position. A new service does not clear the latter. */
  datatype State = State(svcs: seq<Svc>, svc: Option<nat>, chr: Option<(nat, nat)>)

  ghost predicate Sound(st: State) {
    && (st.svc.Some? ==> st.svc.value < |st.svcs|)
    && (st.chr.Some? ==> st.chr.value.0 < |st.svcs| && st.chr.value.1 < |st.svcs[st.chr.value.0].chrs|)
  }

  function SetChrs(ss: seq<Svc>, i: nat, cs: seq<Chr>): seq<Svc>
    requires i < |ss|
  {
    ss[i := ss[i].(chrs := cs)]
  }

  /** One registration event. */
  function Register(st: State, r: Reg): (t: State)
    requires Sound(st)
    ensures Sound(t) && |t.svcs| == |st.svcs|
  {
    match r
    case RegSvc(uuid, handle) =>
      var k := FirstFree(SvcAttrs(st.svcs), uuid);
      if k == |st.svcs| then st.(svc := None)
      else st.(svcs := st.svcs[k := st.svcs[k].(attr := st.svcs[k].attr.(handle := handle))], svc := Some(k))
    case RegChr(uuid, handle) =>
      if st.svc.None? then st
      else
        var i := st.svc.value;
        var cs := st.svcs[i].chrs;
        var k := FirstFree(ChrAttrs(cs), uuid);
        if k == |cs| then st.(chr := None)
        else st.(svcs := SetChrs(st.svcs, i, cs[k := cs[k].(attr := cs[k].attr.(handle := handle))]),
                 chr := Some((i, k)))
    case RegDsc(uuid, handle) =>
      if st.svc.None? || st.chr.None? then st
      else
        var (i, j) := st.chr.value;
        var cs := st.svcs[i].chrs;
        var ds := cs[j].dscs;
        var k := FirstFree(ds, uuid);
        if k == |ds| then st
        else st.(svcs := SetChrs(st.svcs, i, cs[j := cs[j].(dscs := ds[k := ds[k].(handle := handle)])]))
  }

  function Replay(st: State, rs: seq<Reg>): (t: State)
    requires Sound(st)
    ensures Sound(t)
    decreases |rs|
  {
    if rs == [] then st else Replay(Register(st, rs[0]), rs[1..])
  }

  lemma {:induction false} ReplayAppend(st: State, a: seq<Reg>, b: seq<Reg>)
    requires Sound(st)
    ensures Replay(st, a + b) == Replay(Replay(st, a), b)
    decreases |a|
  {
    if a == [] {
      assert a + b == b;
    } else {
      assert (a + b)[0] == a[0] && (a + b)[1..] == a[1..] + b;
      ReplayAppend(Register(st, a[0]), a[1..], b);
    }
  }

  // ------------------------------------------------------------ replay hands out every handle

  /** The same attributes before any handle was given. */
  function Blank(a: Attr): Attr {
    a.(handle := 0)
  }

  function BlankDscs(ds: seq<Attr>): (r: seq<Attr>)
    ensures |r| == |ds|
  {
    seq(|ds|, i requires 0 <= i < |ds| => Blank(ds[i]))
  }

  function BlankChrs(cs: seq<Chr>): (r: seq<Chr>)
    ensures |r| == |cs|
  {
    seq(|cs|, i requires 0 <= i < |cs| => Chr(Blank(cs[i].attr), BlankDscs(cs[i].dscs)))
  }

  function BlankSvcs(ss: seq<Svc>): (r: seq<Svc>)
    ensures |r| == |ss|
  {
    seq(|ss|, i requires 0 <= i < |ss| => Svc(Blank(ss[i].attr), BlankChrs(ss[i].chrs)))
  }

  /** Earlier attributes are taken, later ones still blank: the next one is the first match. */
  lemma NextIsFirst(attrs: seq<Attr>, k: nat)
    requires k < |attrs| && attrs[k].removed == KEEP && attrs[k].handle == 0
    requires forall i :: 0 <= i < k ==> attrs[i].removed != KEEP || attrs[i].handle != 0
    ensures FirstFree(attrs, attrs[k].uuid) == k
  {
  }

  ghost predicate InDscs(st: State, i: nat, j: nat) {
    Sound(st) && st.svc.Some? && st.chr == Some((i, j))
  }

  function WithDscs(st: State, i: nat, j: nat, ds: seq<Attr>): (t: State)
    requires InDscs(st, i, j)
    ensures InDscs(t, i, j) && t.svcs[i].chrs[j].dscs == ds
  {
    var cs := st.svcs[i].chrs;
    st.(svcs := SetChrs(st.svcs, i, cs[j := cs[j].(dscs := ds)]))
  }

  lemma WithDscsTwice(st: State, i: nat, j: nat, a: seq<Attr>, b: seq<Attr>)
    requires InDscs(st, i, j)
    ensures WithDscs(WithDscs(st, i, j, a), i, j, b) == WithDscs(st, i, j, b)
    ensures WithDscs(st, i, j, st.svcs[i].chrs[j].dscs) == st
  {
    var t := WithDscs(st, i, j, a);
    assert t.svcs[i].chrs[j := t.svcs[i].chrs[j].(dscs := b)] == st.svcs[i].chrs[j := st.svcs[i].chrs[j].(dscs := b)];
    var cs := st.svcs[i].chrs;
    assert cs[j := cs[j]] == cs;
    assert SetChrs(st.svcs, i, cs) == st.svcs;
  }

  lemma RegisterDsc(st: State, i: nat, j: nat, k: nat, handle: nat)
    requires InDscs(st, i, j) && k < |st.svcs[i].chrs[j].dscs|
    requires FirstFree(st.svcs[i].chrs[j].dscs, st.svcs[i].chrs[j].dscs[k].uuid) == k
    ensures var ds := st.svcs[i].chrs[j].dscs;
            Register(st, RegDsc(ds[k].uuid, handle)) == WithDscs(st, i, j, ds[k := ds[k].(handle := handle)])
  {
  }

  /** Descriptors of the current characteristic: k are done, the rest are blank. */
  lemma {:induction false} ReplayDscs(st: State, i: nat, j: nat, ds: seq<Attr>, k: nat)
    requires InDscs(st, i, j) && k <= |ds| && DscsAssigned(ds, true)
    requires st.svcs[i].chrs[j].dscs == ds[..k] + BlankDscs(ds[k..])
    ensures Replay(st, DscRegs(ds[k..])) == WithDscs(st, i, j, ds)
    decreases |ds| - k
  {
    hide Replay, FirstFree, Register, WithDscs;
    var now := st.svcs[i].chrs[j].dscs;
    WithDscsTwice(st, i, j, now, ds);
    if k == |ds| {
      ReplayNothing(st);
      assert now == ds;
    } else {
      assert ds[k..][1..] == ds[k + 1..];
      var next := ds[..k + 1] + BlankDscs(ds[k + 1..]);
      if ds[k].removed != KEEP {
        assert ds[k] in ds;
        assert now == next;
        assert DscRegs(ds[k..]) == DscRegs(ds[k + 1..]);
        ReplayDscs(st, i, j, ds, k + 1);
      } else {
        var r := RegDsc(ds[k].uuid, ds[k].handle);
        NextIsFirst(now, k);
        RegisterDsc(st, i, j, k, ds[k].handle);
        assert now[k := now[k].(handle := ds[k].handle)] == next;
        ReplayOne(st, r, DscRegs(ds[k + 1..]));
        WithDscsTwice(st, i, j, next, ds);
        ReplayDscs(WithDscs(st, i, j, next), i, j, ds, k + 1);
      }
    }
  }

  lemma ReplayNothing(st: State)
    requires Sound(st)
    ensures Replay(st, []) == st
  {
  }

  lemma ReplayOne(st: State, r: Reg, rest: seq<Reg>)
    requires Sound(st)
    ensures Replay(st, [r] + rest) == Replay(Register(st, r), rest)
  {
    assert ([r] + rest)[1..] == rest;
  }

  ghost predicate InChrs(st: State, i: nat) {
    Sound(st) && st.svc == Some(i)
  }

  function WithChrs(st: State, i: nat, cs: seq<Chr>, chr: Option<(nat, nat)>): (t: State)
    requires InChrs(st, i) && (chr.Some? ==> chr.value.0 < |st.svcs|)
    requires chr.Some? ==> chr.value.1 < if chr.value.0 == i then |cs| else |st.svcs[chr.value.0].chrs|
    ensures InChrs(t, i) && t.svcs[i].chrs == cs && t.chr == chr && |t.svcs| == |st.svcs|
  {
    st.(svcs := SetChrs(st.svcs, i, cs), chr := chr)
  }

  /** A characteristic's own registration and those of its descriptors. */
  lemma ReplayChr(st: State, i: nat, k: nat, c: Chr)
    requires InChrs(st, i) && k < |st.svcs[i].chrs| && ChrAssigned(c, true) && c.attr.removed == KEEP
    requires st.svcs[i].chrs[k] == Chr(Blank(c.attr), BlankDscs(c.dscs))
    requires FirstFree(ChrAttrs(st.svcs[i].chrs), c.attr.uuid) == k
    ensures Replay(st, [RegChr(c.attr.uuid, c.attr.handle)] + DscRegs(c.dscs))
            == WithChrs(st, i, st.svcs[i].chrs[k := c], Some((i, k)))
  {
    hide Replay, FirstFree;
    var cs := st.svcs[i].chrs;
    var r := RegChr(c.attr.uuid, c.attr.handle);
    var named := cs[k].(attr := c.attr);
    var t := Register(st, r);
    assert t == WithChrs(st, i, cs[k := named], Some((i, k)));
    ReplayOne(st, r, DscRegs(c.dscs));
    assert c.dscs[0..] == c.dscs && c.dscs[..0] == [] && [] + BlankDscs(c.dscs) == BlankDscs(c.dscs);
    ReplayDscs(t, i, k, c.dscs, 0);
    assert cs[k := named][k := named.(dscs := c.dscs)] == cs[k := c];
    assert SetChrs(SetChrs(st.svcs, i, cs[k := named]), i, cs[k := c]) == SetChrs(st.svcs, i, cs[k := c]);
  }

  /** The characteristic the callback is left with after the last of cs from k on. */
  function LastChr(cs: seq<Chr>, i: nat, k: nat, before: Option<(nat, nat)>): Option<(nat, nat)>
    requires k <= |cs|
    decreases |cs| - k
  {
    if k == |cs| then before
    else LastChr(cs, i, k + 1, if cs[k].attr.removed == KEEP then Some((i, k)) else before)
  }

  lemma {:induction false} LastChrIsThere(cs: seq<Chr>, i: nat, k: nat, before: Option<(nat, nat)>)
    requires k <= |cs|
    ensures var r := LastChr(cs, i, k, before); r == before || (r.Some? && r.value.0 == i && r.value.1 < |cs|)
    decreases |cs| - k
  {
    if k < |cs| {
      LastChrIsThere(cs, i, k + 1, if cs[k].attr.removed == KEEP then Some((i, k)) else before);
    }
  }

  /** Characteristics of the current service: k are done, the rest are blank. */
  lemma {:induction false} ReplayChrs(st: State, i: nat, cs: seq<Chr>, k: nat)
    requires InChrs(st, i) && k <= |cs| && ChrsAssigned(cs, true)
    requires st.svcs[i].chrs == cs[..k] + BlankChrs(cs[k..])
    ensures var chr := LastChr(cs, i, k, st.chr);
            && (chr.Some? ==>
                  chr.value.0 < |st.svcs|
                  && chr.value.1 < if chr.value.0 == i then |cs| else |st.svcs[chr.value.0].chrs|)
            && Replay(st, ChrRegs(cs[k..])) == WithChrs(st, i, cs, chr)
    decreases |cs| - k
  {
    hide Replay, FirstFree, Register;
    var now := st.svcs[i].chrs;
    LastChrIsThere(cs, i, k, st.chr);
    if k == |cs| {
      ReplayNothing(st);
      assert now == cs;
      assert SetChrs(st.svcs, i, cs) == st.svcs;
    } else {
      var c := cs[k];
      assert c in cs;
      assert cs[k..][1..] == cs[k + 1..];
      var next := cs[..k + 1] + BlankChrs(cs[k + 1..]);
      if c.attr.removed != KEEP {
        BlankAlready(c.dscs);
        assert now == next;
        assert ChrRegs(cs[k..]) == ChrRegs(cs[k + 1..]);
        ReplayChrs(st, i, cs, k + 1);
      } else {
        var here := [RegChr(c.attr.uuid, c.attr.handle)] + DscRegs(c.dscs);
        TakenBefore(cs, k);
        NextIsFirst(ChrAttrs(now), k);
        ReplayChr(st, i, k, c);
        assert now[k := c] == next;
        ReplayAppend(st, here, ChrRegs(cs[k + 1..]));
        var t := WithChrs(st, i, next, Some((i, k)));
        ReplayChrs(t, i, cs, k + 1);
        assert SetChrs(SetChrs(st.svcs, i, next), i, cs) == SetChrs(st.svcs, i, cs);
      }
    }
  }

  lemma TakenBefore(cs: seq<Chr>, k: nat)
    requires k <= |cs| && ChrsAssigned(cs, true)
    ensures forall i :: 0 <= i < k ==> cs[i].attr.removed != KEEP || cs[i].attr.handle != 0
  {
    forall i | 0 <= i < k
      ensures cs[i].attr.removed != KEEP || cs[i].attr.handle != 0
    {
      assert cs[i] in cs;
    }
  }

  lemma BlankAlready(ds: seq<Attr>)
    requires DscsAssigned(ds, false)
    ensures BlankDscs(ds) == ds
  {
    forall i | 0 <= i < |ds|
      ensures BlankDscs(ds)[i] == ds[i]
    {
      assert ds[i] in ds;
    }
  }

  lemma BlankChrsAlready(cs: seq<Chr>)
    requires ChrsAssigned(cs, false)
    ensures BlankChrs(cs) == cs
  {
    forall i | 0 <= i < |cs|
      ensures BlankChrs(cs)[i] == cs[i]
    {
      assert cs[i] in cs;
      BlankAlready(cs[i].dscs);
    }
  }

  /** A service's own registration and those of everything in it. */
  lemma ReplaySvc(st: State, k: nat, s: Svc) returns (t: State)
    requires Sound(st) && k < |st.svcs| && SvcAssigned(s) && s.attr.removed == KEEP
    requires st.svcs[k] == Svc(Blank(s.attr), BlankChrs(s.chrs))
    requires FirstFree(SvcAttrs(st.svcs), s.attr.uuid) == k
    ensures Sound(t) && t == Replay(st, [RegSvc(s.attr.uuid, s.attr.handle)] + ChrRegs(s.chrs))
    ensures t.svcs == st.svcs[k := s]
  {
    hide Replay, FirstFree;
    var r := RegSvc(s.attr.uuid, s.attr.handle);
    var named := st.svcs[k].(attr := s.attr);
    var u := Register(st, r);
    assert u == st.(svcs := st.svcs[k := named], svc := Some(k));
    ReplayOne(st, r, ChrRegs(s.chrs));
    assert s.chrs[0..] == s.chrs && s.chrs[..0] == [] && [] + BlankChrs(s.chrs) == BlankChrs(s.chrs);
    ReplayChrs(u, k, s.chrs, 0);
    t := Replay(u, ChrRegs(s.chrs));
    assert SetChrs(st.svcs[k := named], k, s.chrs) == st.svcs[k := s];
  }

  /** All services: k are done, the rest are blank. */
  lemma {:induction false} ReplaySvcs(st: State, ss: seq<Svc>, k: nat)
    requires Sound(st) && k <= |ss| && Assigned(ss)
    requires st.svcs == ss[..k] + BlankSvcs(ss[k..])
    ensures Replay(st, SvcRegs(ss[k..])).svcs == ss
    decreases |ss| - k
  {
    hide Replay, FirstFree, Register;
    if k == |ss| {
      ReplayNothing(st);
    } else {
      var s := ss[k];
      assert s in ss;
      assert ss[k..][1..] == ss[k + 1..];
      var next := ss[..k + 1] + BlankSvcs(ss[k + 1..]);
      if s.attr.removed != KEEP {
        BlankChrsAlready(s.chrs);
        assert st.svcs == next;
        assert SvcRegs(ss[k..]) == SvcRegs(ss[k + 1..]);
        ReplaySvcs(st, ss, k + 1);
      } else {
        SvcsTakenBefore(ss, k);
        NextIsFirst(SvcAttrs(st.svcs), k);
        var t := ReplaySvc(st, k, s);
        assert st.svcs[k := s] == next;
        ReplayAppend(st, [RegSvc(s.attr.uuid, s.attr.handle)] + ChrRegs(s.chrs), SvcRegs(ss[k + 1..]));
        ReplaySvcs(t, ss, k + 1);
      }
    }
  }

  lemma SvcsTakenBefore(ss: seq<Svc>, k: nat)
    requires k <= |ss| && Assigned(ss)
    ensures forall i :: 0 <= i < k ==> ss[i].attr.removed != KEEP || ss[i].attr.handle != 0
  {
    forall i | 0 <= i < k
      ensures ss[i].attr.removed != KEEP || ss[i].attr.handle != 0
    {
      assert ss[i] in ss;
    }
  }

  /** Registrations of services the server does not own: every one starts with a service whose
      UUID none of the server's own services has, in any form. */
  ghost predicate BuiltIn(rs: seq<Reg>, ss: seq<Svc>) {
    && (rs != [] ==> rs[0].RegSvc?)
    && forall r, s :: r in rs && r.RegSvc? && s in ss && s.attr.removed == KEEP ==>
         !AdvertisedDevice.SameUuid(s.attr.uuid, r.uuid)
  }

  lemma NoneFree(attrs: seq<Attr>, uuid: Uuid)
    requires forall i :: 0 <= i < |attrs| ==> !Free(attrs[i], uuid)
    ensures FirstFree(attrs, uuid) == |attrs|
  {
  }

  lemma {:induction false} BuiltInSkipped(st: State, rs: seq<Reg>)
    requires Sound(st)
    requires forall r, s :: r in rs && r.RegSvc? && s in st.svcs && s.attr.removed == KEEP ==>
               !AdvertisedDevice.SameUuid(s.attr.uuid, r.uuid)
    requires rs != [] && !rs[0].RegSvc? ==> st.svc == None
    ensures Replay(st, rs).svcs == st.svcs
    decreases |rs|
  {
    if rs != [] {
      var t := Register(st, rs[0]);
      if rs[0].RegSvc? {
        assert rs[0] in rs;
        forall i | 0 <= i < |st.svcs|
          ensures !Free(SvcAttrs(st.svcs)[i], rs[0].uuid)
        {
          assert st.svcs[i] in st.svcs;
        }
        NoneFree(SvcAttrs(st.svcs), rs[0].uuid);
      }
      assert t.svcs == st.svcs && t.svc == None;
      BuiltInSkipped(t, rs[1..]);
    }
  }

  /** A characteristic the current service does not have, or has no more without a handle, is
      skipped together with its descriptors: they never land on the characteristic before it. */
  lemma UnknownChrSkipped(st: State, uuid: Uuid, handle: nat, ds: seq<Reg>)
    requires Sound(st) && forall r :: r in ds ==> r.RegDsc?
    requires st.svc.Some? ==> forall c :: c in st.svcs[st.svc.value].chrs ==> !Free(c.attr, uuid)
    ensures Replay(st, [RegChr(uuid, handle)] + ds).svcs == st.svcs
  {
    hide FirstFree, Free;
    var rs := [RegChr(uuid, handle)] + ds;
    assert rs[0] == RegChr(uuid, handle) && rs[1..] == ds;
    if st.svc.Some? {
      var cs := st.svcs[st.svc.value].chrs;
      assert forall i :: 0 <= i < |cs| ==> ChrAttrs(cs)[i] == cs[i].attr && cs[i] in cs;
      NoneFree(ChrAttrs(cs), uuid);
    }
    DscsSkipped(Register(st, rs[0]), ds);
  }

  lemma {:induction false} DscsSkipped(st: State, ds: seq<Reg>)
    requires Sound(st) && (st.svc == None || st.chr == None) && forall r :: r in ds ==> r.RegDsc?
    ensures Replay(st, ds) == st
    decreases |ds|
  {
    if ds != [] {
      assert ds[0] in ds;
      DscsSkipped(st, ds[1..]);
    }
  }

  /** Whatever non-zero handles the stack gives, replaying the registrations in definition
      order after the built-in services leaves every attribute that is not removed, nor below
      a removed one, with exactly its own handle, and all others with none. UUIDs may repeat. */
  lemma EveryAttributeGetsItsHandle(ss: seq<Svc>, builtIn: seq<Reg>)
    requires Assigned(ss) && BuiltIn(builtIn, ss)
    ensures Replay(State(BlankSvcs(ss), None, None), builtIn + SvcRegs(ss)).svcs == ss
  {
    hide Replay, Register;
    var st := State(BlankSvcs(ss), None, None);
    ReplayAppend(st, builtIn, SvcRegs(ss));
    forall r, s | r in builtIn && r.RegSvc? && s in st.svcs && s.attr.removed == KEEP
      ensures !AdvertisedDevice.SameUuid(s.attr.uuid, r.uuid)
    {
      var i :| 0 <= i < |ss| && s == BlankSvcs(ss)[i];
      assert ss[i] in ss;
    }
    BuiltInSkipped(st, builtIn);
    assert ss[0..] == ss && ss[..0] == [] && [] + BlankSvcs(ss) == BlankSvcs(ss);
    ReplaySvcs(Replay(st, builtIn), ss, 0);
  }

  // ------------------------------------------------------------ tables fix the order

  datatype Op = OpSvc(uuid: Uuid) | OpChr(uuid: Uuid) | OpDsc(uuid: Uuid)

  function OpOf(r: Reg): Op {
    match r
    case RegSvc(uuid, _) => OpSvc(uuid)
    case RegChr(uuid, _) => OpChr(uuid)
    case RegDsc(uuid, _) => OpDsc(uuid)
  }

  function Ops(rs: seq<Reg>): (r: seq<Op>)
    ensures |r| == |rs|
  {
    seq(|rs|, i requires 0 <= i < |rs| => OpOf(rs[i]))
  }

  /** What the stack registers from a table, which it reads up to the ending entry. */
  function DscOps(t: seq<DscDef>): seq<Op> {
    if t == [] || t[0].EndDsc? then [] else [OpDsc(t[0].uuid)] + DscOps(t[1..])
  }

  function ChrOps(t: seq<ChrDef>): seq<Op> {
    if t == [] || t[0].EndChr? then [] else [OpChr(t[0].uuid)] + DscOps(t[0].dscs) + ChrOps(t[1..])
  }

  function SvcOps(t: seq<SvcDef>): seq<Op> {
    if t == [] then [] else [OpSvc(t[0].uuid)] + ChrOps(t[0].chrs) + SvcOps(t[1..])
  }

  lemma OpsAppend(a: seq<Reg>, b: seq<Reg>)
    ensures Ops(a + b) == Ops(a) + Ops(b)
  {
  }

  lemma {:induction false} DscDefsAppend(a: seq<Attr>, b: seq<Attr>)
    ensures DscDefs(a + b) == DscDefs(a) + DscDefs(b)
  {
    if b == [] {
      assert a + b == a;
    } else {
      assert (a + b)[..|a + b| - 1] == a + b[..|b| - 1];
      DscDefsAppend(a, b[..|b| - 1]);
    }
  }

  lemma {:induction false} ChrDefsAppend(a: seq<Chr>, b: seq<Chr>)
    ensures ChrDefs(a + b) == ChrDefs(a) + ChrDefs(b)
  {
    hide DscTable;
    if b == [] {
      assert a + b == a;
    } else {
      assert (a + b)[..|a + b| - 1] == a + b[..|b| - 1];
      ChrDefsAppend(a, b[..|b| - 1]);
    }
  }

  lemma {:induction false} SvcDefsAppend(a: seq<Svc>, b: seq<Svc>)
    ensures SvcDefs(a + b) == SvcDefs(a) + SvcDefs(b)
  {
    hide ChrTable;
    if b == [] {
      assert a + b == a;
    } else {
      assert (a + b)[..|a + b| - 1] == a + b[..|b| - 1];
      SvcDefsAppend(a, b[..|b| - 1]);
    }
  }

  lemma {:induction false} DscOrder(ds: seq<Attr>)
    ensures Ops(DscRegs(ds)) == DscOps(DscTable(ds))
    ensures Ops(DscRegs(ds)) == DscOps(DscDefs(ds) + [EndDsc])
  {
    if ds != [] {
      assert ds == [ds[0]] + ds[1..];
      DscDefsAppend([ds[0]], ds[1..]);
      DscOrder(ds[1..]);
      assert [ds[0]][..0] == [];
      if ds[0].removed == KEEP {
        OpsAppend([RegDsc(ds[0].uuid, ds[0].handle)], DscRegs(ds[1..]));
        var t := [DscDef(ds[0].uuid)] + DscDefs(ds[1..]) + [EndDsc];
        assert DscDefs(ds) + [EndDsc] == t;
        assert t[1..] == DscDefs(ds[1..]) + [EndDsc];
      } else {
        assert DscDefs(ds) == DscDefs(ds[1..]);
      }
    }
  }

  lemma {:induction false} ChrOrder(cs: seq<Chr>)
    ensures Ops(ChrRegs(cs)) == ChrOps(ChrTable(cs))
    ensures Ops(ChrRegs(cs)) == ChrOps(ChrDefs(cs) + [EndChr])
  {
    hide DscTable, DscRegs, DscOps;
    if cs != [] {
      var c := cs[0];
      assert cs == [c] + cs[1..];
      ChrDefsAppend([c], cs[1..]);
      ChrOrder(cs[1..]);
      assert [c][..0] == [];
      if c.attr.removed == KEEP {
        DscOrder(c.dscs);
        var r := RegChr(c.attr.uuid, c.attr.handle);
        OpsAppend([r], DscRegs(c.dscs));
        OpsAppend([r] + DscRegs(c.dscs), ChrRegs(cs[1..]));
        var t := [ChrDef(c.attr.uuid, DscTable(c.dscs))] + ChrDefs(cs[1..]) + [EndChr];
        assert ChrDefs(cs) + [EndChr] == t;
        assert t[1..] == ChrDefs(cs[1..]) + [EndChr];
      } else {
        assert ChrDefs(cs) == ChrDefs(cs[1..]);
      }
    }
  }

  /** The stack, reading the tables, registers the kept attributes in exactly the order of the
      vectors: services, then their characteristics, then their descriptors. */
  lemma {:induction false} TablesFixTheOrder(ss: seq<Svc>)
    ensures SvcOps(SvcDefs(ss)) == Ops(SvcRegs(ss))
  {
    hide ChrTable, ChrRegs, ChrOps;
    if ss != [] {
      var s := ss[0];
      assert ss == [s] + ss[1..];
      SvcDefsAppend([s], ss[1..]);
      TablesFixTheOrder(ss[1..]);
      assert [s][..0] == [];
      if s.attr.removed == KEEP {
        ChrOrder(s.chrs);
        var r := RegSvc(s.attr.uuid, s.attr.handle);
        OpsAppend([r], ChrRegs(s.chrs));
        OpsAppend([r] + ChrRegs(s.chrs), SvcRegs(ss[1..]));
        assert SvcDefs(ss)[1..] == SvcDefs(ss[1..]);
      } else {
        assert SvcDefs(ss) == SvcDefs(ss[1..]);
      }
    }
  }

  lemma {:induction false} BlankDscDefs(ds: seq<Attr>)
    ensures DscDefs(BlankDscs(ds)) == DscDefs(ds)
  {
    if ds != [] {
      var n := |ds| - 1;
      assert BlankDscs(ds)[..n] == BlankDscs(ds[..n]);
      BlankDscDefs(ds[..n]);
    }
  }

  lemma {:induction false} BlankChrDefs(cs: seq<Chr>)
    ensures ChrDefs(BlankChrs(cs)) == ChrDefs(cs)
  {
    if cs != [] {
      var n := |cs| - 1;
      assert BlankChrs(cs)[..n] == BlankChrs(cs[..n]);
      BlankChrDefs(cs[..n]);
      BlankDscDefs(cs[n].dscs);
    }
  }

  lemma {:induction false} BlankSvcDefs(ss: seq<Svc>)
    ensures SvcDefs(BlankSvcs(ss)) == SvcDefs(ss)
  {
    hide ChrDefs;
    if ss != [] {
      var n := |ss| - 1;
      assert BlankSvcs(ss)[..n] == BlankSvcs(ss[..n]);
      BlankSvcDefs(ss[..n]);
      BlankChrDefs(ss[n].chrs);
    }
  }
}
