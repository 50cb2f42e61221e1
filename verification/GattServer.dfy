/** NimBLEServer::start: reset, building the definition tables, and the registration callback. */
module GattServer {
  import AdvertisedDevice
  import opened GattRegistration
  import opened Options

  /** Number of kept entries: the first pass of start_internal over descriptors. */
  method CountDscs(ds: seq<Attr>) returns (n: nat)
    ensures n == |DscDefs(ds)|
  {
    n := 0;
    for i := 0 to |ds|
      invariant n == |DscDefs(ds[..i])|
    {
      assert ds[..i + 1][..i] == ds[..i];
      if ds[i].removed == KEEP {
        n := n + 1;
      }
    }
    assert ds[..|ds|] == ds;
  }

  lemma {:induction false} FewerDscs(ds: seq<Attr>, i: nat)
    requires i <= |ds|
    ensures |DscDefs(ds[..i])| <= |DscDefs(ds)|
    decreases |ds|
  {
    if i < |ds| {
      FewerDscs(ds[..|ds| - 1], i);
      assert ds[..|ds| - 1][..i] == ds[..i];
    } else {
      assert ds[..i] == ds;
    }
  }

  lemma {:induction false} FewerChrs(cs: seq<Chr>, i: nat)
    requires i <= |cs|
    ensures |ChrDefs(cs[..i])| <= |ChrDefs(cs)|
    decreases |cs|
  {
    if i < |cs| {
      FewerChrs(cs[..|cs| - 1], i);
      assert cs[..|cs| - 1][..i] == cs[..i];
    } else {
      assert cs[..i] == cs;
    }
  }

  /** Second pass: an array one longer than the count, filled in order, ended by a blank. */
  method BuildDscs(ds: seq<Attr>) returns (t: seq<DscDef>)
    ensures t == DscTable(ds)
  {
    hide DscDefs;
    var n := CountDscs(ds);
    if n == 0 {
      return [];
    }
    var defs := new DscDef[n + 1](_ => EndDsc);
    var j := 0;
    NoDefs(ds, []);
    for i := 0 to |ds|
      invariant j == |DscDefs(ds[..i])| <= n && defs[..j] == DscDefs(ds[..i])
      invariant forall k :: j <= k <= n ==> defs[k] == EndDsc
    {
      DscDefsStep(ds, i);
      FewerDscs(ds, i + 1);
      if ds[i].removed == KEEP {
        defs[j] := DscDef(ds[i].uuid);
        j := j + 1;
      }
    }
    assert ds[..|ds|] == ds;
    t := defs[..];
    assert t == defs[..n] + [defs[n]];
  }

  lemma DscDefsStep(ds: seq<Attr>, i: nat)
    requires i < |ds|
    ensures DscDefs(ds[..i + 1]) == DscDefs(ds[..i]) + if ds[i].removed == KEEP then [DscDef(ds[i].uuid)] else []
  {
    assert ds[..i + 1][..i] == ds[..i];
  }

  lemma ChrDefsStep(cs: seq<Chr>, i: nat)
    requires i < |cs|
    ensures ChrDefs(cs[..i + 1])
            == ChrDefs(cs[..i])
               + if cs[i].attr.removed == KEEP then [ChrDef(cs[i].attr.uuid, DscTable(cs[i].dscs))] else []
  {
    assert cs[..i + 1][..i] == cs[..i];
  }

  lemma NoDefs(ds: seq<Attr>, cs: seq<Chr>)
    ensures DscDefs(ds[..0]) == [] && ChrDefs(cs[..0]) == []
  {
  }

  method CountChrs(cs: seq<Chr>) returns (n: nat)
    ensures n == |ChrDefs(cs)|
  {
    hide ChrDefs;
    n := 0;
    NoDefs([], cs);
    for i := 0 to |cs|
      invariant n == |ChrDefs(cs[..i])|
    {
      ChrDefsStep(cs, i);
      if cs[i].attr.removed == KEEP {
        n := n + 1;
      }
    }
    assert cs[..|cs|] == cs;
  }

  method BuildChrs(cs: seq<Chr>) returns (t: seq<ChrDef>)
    ensures t == ChrTable(cs)
  {
    hide ChrDefs, DscTable;
    var n := CountChrs(cs);
    if n == 0 {
      return [];
    }
    var defs := new ChrDef[n + 1](_ => EndChr);
    var j := 0;
    NoDefs([], cs);
    for i := 0 to |cs|
      invariant j == |ChrDefs(cs[..i])| <= n && defs[..j] == ChrDefs(cs[..i])
      invariant forall k :: j <= k <= n ==> defs[k] == EndChr
    {
      ChrDefsStep(cs, i);
      FewerChrs(cs, i + 1);
      if cs[i].attr.removed == KEEP {
        var dscs := BuildDscs(cs[i].dscs);
        defs[j] := ChrDef(cs[i].attr.uuid, dscs);
        j := j + 1;
      }
    }
    assert cs[..|cs|] == cs;
    t := defs[..];
    assert t == defs[..n] + [defs[n]];
  }

  /** The search loop of the callback. */
  method FindFree(attrs: seq<Attr>, uuid: Uuid) returns (k: nat)
    ensures k == FirstFree(attrs, uuid)
  {
    k := 0;
    while k < |attrs|
      invariant k <= |attrs|
      invariant forall i :: 0 <= i < k ==> !Free(attrs[i], uuid)
    {
      if attrs[k].removed == KEEP && attrs[k].handle == 0 && AdvertisedDevice.SameUuid(attrs[k].uuid, uuid) {
        return;
      }
      k := k + 1;
    }
  }

  /** Working through a list in place: k of all are done, the rest is untouched. */
  lemma InPlace<T>(r: seq<T>, done: seq<T>, all: seq<T>, k: nat, y: T)
    requires k < |all| && r == done + all[k..]
    ensures |done| < |r| && r[|done|] == all[k]
    ensures r[..|done|] + r[|done| + 1..] == done + all[k + 1..]
    ensures r[|done| := y] == done + [y] + all[k + 1..]
  {
  }

  lemma ClearDscsStep(ds: seq<Attr>, k: nat)
    requires k < |ds|
    ensures ClearDscs(ds[..k + 1]) == ClearDscs(ds[..k]) + if ds[k].removed == DELETE then [] else [ds[k].(handle := 0)]
  {
    assert ds[..k + 1][..k] == ds[..k];
  }

  lemma ClearChrsStep(cs: seq<Chr>, k: nat)
    requires k < |cs|
    ensures ClearChrs(cs[..k + 1])
            == ClearChrs(cs[..k]) + if cs[k].attr.removed == DELETE then [] else [ClearChr(cs[k])]
  {
    assert cs[..k + 1][..k] == cs[..k];
  }

  lemma NoneCleared(ds: seq<Attr>, cs: seq<Chr>, ss: seq<Svc>)
    ensures ClearDscs(ds[..0]) == [] && ClearChrs(cs[..0]) == [] && ClearSvcs(ss[..0]) == []
  {
  }

  /** Erases deleted descriptors and clears the others' handles. */
  method ResetDscs(ds: seq<Attr>) returns (r: seq<Attr>)
    ensures r == ClearDscs(ds)
  {
    hide ClearDscs;
    r := ds;
    var i := 0;
    ghost var k := 0;
    NoneCleared(ds, [], []);
    while i < |r|
      invariant 0 <= k <= |ds| && r == ClearDscs(ds[..k]) + ds[k..] && i == |ClearDscs(ds[..k])|
      decreases |ds| - k
    {
      InPlace(r, ClearDscs(ds[..k]), ds, k, r[i].(handle := 0));
      ClearDscsStep(ds, k);
      if r[i].removed == DELETE {
        r := r[..i] + r[i + 1..];
      } else {
        r := r[i := r[i].(handle := 0)];
        i := i + 1;
      }
      k := k + 1;
    }
    assert ds[..k] == ds;
  }

  method ResetChrs(cs: seq<Chr>) returns (r: seq<Chr>)
    ensures r == ClearChrs(cs)
  {
    hide ClearDscs, ClearChrs;
    r := cs;
    var i := 0;
    ghost var k := 0;
    NoneCleared([], cs, []);
    while i < |r|
      invariant 0 <= k <= |cs| && r == ClearChrs(cs[..k]) + cs[k..] && i == |ClearChrs(cs[..k])|
      decreases |cs| - k
    {
      InPlace(r, ClearChrs(cs[..k]), cs, k, ClearChr(r[i]));
      ClearChrsStep(cs, k);
      if r[i].attr.removed == DELETE {
        r := r[..i] + r[i + 1..];
      } else {
        var dscs := ResetDscs(r[i].dscs);
        r := r[i := Chr(r[i].attr.(handle := 0), dscs)];
        i := i + 1;
      }
      k := k + 1;
    }
    assert cs[..k] == cs;
  }

  class Server {
    var services: seq<Svc>

    /** The tables handed to the stack since its last reset. */
    var tables: seq<SvcDef>

    /** The callback's argument. */
    var svc: Option<nat>
    var chr: Option<(nat, nat)>

    var gattsStarted: bool
    var svcChanged: bool

    ghost function Now(): State
      reads this
    {
      State(services, svc, chr)
    }

    constructor ()
      ensures services == [] && tables == [] && Sound(Now()) && !gattsStarted && !svcChanged
    {
      services, tables, svc, chr := [], [], None, None;
      gattsStarted, svcChanged := false, false;
    }

    method RegisterCallback(r: Reg)
      requires Sound(Now())
      modifies this`services, this`svc, this`chr
      ensures Now() == Register(old(Now()), r) && Sound(Now())
    {
      match r
      case RegSvc(uuid, handle) =>
        svc := None;
        var k := FindFree(SvcAttrs(services), uuid);
        if k < |services| {
          services := services[k := services[k].(attr := services[k].attr.(handle := handle))];
          svc := Some(k);
        }
      case RegChr(uuid, handle) =>
        if svc.Some? {
          var i := svc.value;
          chr := None;
          var cs := services[i].chrs;
          var k := FindFree(ChrAttrs(cs), uuid);
          if k < |cs| {
            services := SetChrs(services, i, cs[k := cs[k].(attr := cs[k].attr.(handle := handle))]);
            chr := Some((i, k));
          }
        }
      case RegDsc(uuid, handle) =>
        if svc.Some? && chr.Some? {
          var (i, j) := chr.value;
          var cs := services[i].chrs;
          var ds := cs[j].dscs;
          var k := FindFree(ds, uuid);
          if k < |ds| {
            services := SetChrs(services, i, cs[j := cs[j].(dscs := ds[k := ds[k].(handle := handle)])]);
          }
        }
    }

    /** start_internal: builds the service's tables; refused or not is up to the stack. */
    method StartInternal(s: Svc, accepts: nat -> bool) returns (ok: bool)
      modifies this`tables
      ensures ok == accepts(|old(tables)|)
      ensures tables == if ok then old(tables) + [SvcDef(s.attr.uuid, ChrTable(s.chrs))] else old(tables)
    {
      hide ChrTable;
      var t := BuildChrs(s.chrs);
      ok := accepts(|tables|);
      if ok {
        tables := tables + [SvcDef(s.attr.uuid, t)];
      }
    }

    /** One service that stays: its characteristics reset, its tables handed over if it is
        kept, its own handle cleared last. */
    method ResetService(s: Svc, accepts: nat -> bool) returns (ok: bool, r: Svc)
      modifies this`tables
      ensures ok == (s.attr.removed == KEEP ==> accepts(|old(tables)|))
      ensures r == if ok then ClearSvc(s) else Refused(s)
      ensures tables == if ok && s.attr.removed == KEEP
                        then old(tables) + [SvcDef(s.attr.uuid, ChrTable(ClearChrs(s.chrs)))] else old(tables)
    {
      hide ClearChrs, ChrTable;
      var chrs := ResetChrs(s.chrs);
      r, ok := s.(chrs := chrs), true;
      if s.attr.removed == KEEP {
        ok := StartInternal(r, accepts);
      }
      if ok {
        r := r.(attr := r.attr.(handle := 0));
      }
    }

    /** The first k services are done, the rest are as they were, and i is where they start. */
    ghost predicate ResetUpTo(all: seq<Svc>, k: nat, i: nat, accepts: nat -> bool)
      reads this
    {
      && k <= |all| && services == ClearSvcs(all[..k]) + all[k..] && i == |ClearSvcs(all[..k])|
      && tables == SvcDefs(ClearSvcs(all[..k])) && AllAccepted(accepts, |tables|)
    }

    lemma ResetStarts(accepts: nat -> bool)
      requires tables == []
      ensures ResetUpTo(services, 0, 0, accepts)
    {
      hide ClearSvcs, SvcDefs;
      NoneCleared([], [], services);
      NoTables();
    }

    lemma ResetEnds(all: seq<Svc>, k: nat, i: nat, accepts: nat -> bool)
      requires ResetUpTo(all, k, i, accepts)
      ensures i < |services| <==> k < |all|
      ensures k == |all| ==> services == ClearSvcs(all) && tables == SvcDefs(services) && AllAccepted(accepts, |tables|)
    {
      hide ClearSvcs, SvcDefs, AllAccepted;
      assert k == |all| ==> all[..k] == all && all[k..] == [];
    }

    /** One round: the next service is dropped, or cleared and handed over. */
    method ResetNext(i: nat, accepts: nat -> bool, ghost all: seq<Svc>, ghost k: nat) returns (ok: bool, next: nat)
      requires k < |all| && ResetUpTo(all, k, i, accepts)
      modifies this`services, this`tables
      ensures ok ==> ResetUpTo(all, k + 1, next, accepts)
      ensures !ok ==> services == RefusedAt(all, k) && !AllAccepted(accepts, |SvcDefs(ClearSvcs(all))|)
      ensures !ok ==> RefusedFirst(all, k, accepts) && tables == SvcDefs(ClearSvcs(all[..k]))
    {
      hide ClearSvc, ClearSvcs, SvcDefs, AllAccepted, ChrTable, Refused;
      InPlace(services, ClearSvcs(all[..k]), all, k, services[i]);
      ResetStep(all, k);
      AcceptStep(accepts, |tables|, |SvcDefs(ClearSvcs(all))|);
      if services[i].attr.removed == DELETE {
        services := services[..i] + services[i + 1..];
        return true, i;
      }
      var s;
      ok, s := ResetService(services[i], accepts);
      InPlace(services, ClearSvcs(all[..k]), all, k, s);
      services := services[i := s];
      next := i + 1;
    }

    /** Empties the stack, drops what was deleted, clears every handle and hands over one table
        per kept service; gives up at the first service the stack refuses. */
    method ResetGatt(accepts: nat -> bool) returns (ok: bool)
      modifies this`services, this`tables
      ensures ok ==> services == ClearSvcs(old(services)) && tables == SvcDefs(services)
      ensures ok == AllAccepted(accepts, |SvcDefs(ClearSvcs(old(services)))|)
      ensures !ok ==> exists k: nat ::
                        && k < |old(services)| && services == RefusedAt(old(services), k)
                        && RefusedFirst(old(services), k, accepts) && tables == SvcDefs(ClearSvcs(old(services)[..k]))
    {
      hide ResetUpTo, ClearSvcs, SvcDefs, AllAccepted, RefusedAt;
      ghost var all := services;
      tables := [];
      var i: nat := 0;
      ghost var k := 0;
      ResetStarts(accepts);
      ResetEnds(all, k, i, accepts);
      while i < |services|
        invariant k <= |all| && ResetUpTo(all, k, i, accepts)
        invariant i < |services| <==> k < |all|
        decreases |all| - k
      {
        ok, i := ResetNext(i, accepts, all, k);
        if !ok {
          return;
        }
        k := k + 1;
        ResetEnds(all, k, i, accepts);
      }
      ResetEnds(all, k, i, accepts);
      return true;
    }

    /** Starting with handles chosen by the stack: once it succeeds, every attribute that is not
        removed has exactly the handle the stack announced for it, in table order. */
    method Start(connected: nat, accepts: nat -> bool, stackStarts: bool, regs: seq<Reg>,
                 ghost builtIn: seq<Reg>, ghost target: seq<Svc>)
      returns (ok: bool)
      requires Assigned(target) && BlankSvcs(target) == ClearSvcs(services) && BuiltIn(builtIn, target)
      requires regs == builtIn + SvcRegs(target)
      modifies this
      ensures old(gattsStarted) && !(old(svcChanged) && connected == 0) ==>
                && ok && services == old(services) && tables == old(tables)
                && gattsStarted && svcChanged == old(svcChanged)
      ensures !old(gattsStarted) || (old(svcChanged) && connected == 0) ==>
                && ok == (stackStarts && AllAccepted(accepts, |SvcDefs(target)|))
                && gattsStarted == ok
                && (ok ==> services == target && tables == SvcDefs(target)
                           && SvcOps(tables) == Ops(SvcRegs(services)) && !svcChanged)
                && (!ok ==> svcChanged == old(svcChanged))
    {
      hide SvcDefs, SvcRegs, ClearSvcs, BlankSvcs, Register, Replay;
      if svcChanged && connected == 0 {
        gattsStarted := false;
      }
      if gattsStarted {
        return true;
      }
      BlankSvcDefs(target);
      var reset := ResetGatt(accepts);
      if !reset {
        return false;
      }
      svc, chr := None, None;
      ghost var first := Now();
      var i := 0;
      assert regs[0..] == regs;
      while i < |regs|
        invariant 0 <= i <= |regs| && Sound(Now()) && tables == SvcDefs(target)
        invariant Replay(Now(), regs[i..]) == Replay(first, regs)
        invariant svcChanged == old(svcChanged) && !gattsStarted
      {
        assert regs[i..] == [regs[i]] + regs[i + 1..];
        ReplayOne(Now(), regs[i], regs[i + 1..]);
        RegisterCallback(regs[i]);
        i := i + 1;
      }
      ReplayNothing(Now());
      EveryAttributeGetsItsHandle(target, builtIn);
      TablesFixTheOrder(target);
      if !stackStarts {
        return false;
      }
      svcChanged := false;
      gattsStarted := true;
      return true;
    }
  }

  /** The service whose tables the stack refused: everything in it is reset but its own handle. */
  function Refused(s: Svc): Svc {
    s.(chrs := ClearChrs(s.chrs))
  }

  /** Where a refusal at position k leaves the services: reset up to there, untouched behind. */
  ghost function RefusedAt(ss: seq<Svc>, k: nat): seq<Svc>
    requires k < |ss|
  {
    ClearSvcs(ss[..k]) + [Refused(ss[k])] + ss[k + 1..]
  }

  /** A service the stack refuses keeps its own handle and mark, and the ones behind it everything;
      below it, as below the ones in front of it, all handles are gone. */
  lemma RefusalLeaves(ss: seq<Svc>, k: nat, i: nat)
    requires k < |ss| && i < |RefusedAt(ss, k)|
    ensures var n := |ClearSvcs(ss[..k])|;
            && |RefusedAt(ss, k)| == n + |ss| - k
            && (i < n ==> RefusedAt(ss, k)[i] == ClearSvcs(ss[..k])[i])
            && (i == n ==> RefusedAt(ss, k)[i] == Svc(ss[k].attr, ClearChrs(ss[k].chrs)))
            && (i > n ==> RefusedAt(ss, k)[i] == ss[i - n + k])
  {
    hide ClearSvcs, ClearChrs;
  }

  /** The service at k is the first whose table the stack refuses. */
  ghost predicate RefusedFirst(ss: seq<Svc>, k: nat, accepts: nat -> bool)
    requires k < |ss|
  {
    var before := |SvcDefs(ClearSvcs(ss[..k]))|;
    ss[k].attr.removed == KEEP && AllAccepted(accepts, before) && !accepts(before)
  }

  /** The stack takes the first n tables. */
  ghost predicate AllAccepted(accepts: nat -> bool, n: nat) {
    forall k: nat :: k < n ==> accepts(k)
  }

  lemma AcceptStep(accepts: nat -> bool, n: nat, total: nat)
    ensures AllAccepted(accepts, 0)
    ensures AllAccepted(accepts, n) && accepts(n) ==> AllAccepted(accepts, n + 1)
    ensures n < total && !accepts(n) ==> !AllAccepted(accepts, total)
  {
  }

  /** One more service looked at: dropped, or there without handles and in the tables if kept. */
  lemma ResetStep(ss: seq<Svc>, k: nat)
    requires k < |ss|
    ensures var (before, after, s) := (ClearSvcs(ss[..k]), ClearSvcs(ss[..k + 1]), ss[k]);
            && (s.attr.removed == DELETE ==> after == before)
            && (s.attr.removed != DELETE ==> after == before + [ClearSvc(s)])
            && (s.attr.removed != KEEP ==> SvcDefs(after) == SvcDefs(before))
            && (s.attr.removed == KEEP
                ==> SvcDefs(after) == SvcDefs(before) + [SvcDef(s.attr.uuid, ChrTable(ClearChrs(s.chrs)))])
            && |SvcDefs(after)| <= |SvcDefs(ClearSvcs(ss))|
  {
    hide ClearChrs, ChrTable;
    assert ss[..k + 1][..k] == ss[..k];
    var before, s := ClearSvcs(ss[..k]), ss[k];
    SvcDefsAppend(before, [ClearSvc(s)]);
    OneTable(ClearSvc(s));
    assert SvcDefs(before) + [] == SvcDefs(before) && before + [] == before;
    MoreTables(ss, k + 1);
  }

  lemma OneTable(s: Svc)
    ensures SvcDefs([s]) == if s.attr.removed == KEEP then [SvcDef(s.attr.uuid, ChrTable(s.chrs))] else []
  {
    assert [s][..0] == [];
  }

  lemma NoTables()
    ensures SvcDefs([]) == []
  {
  }

  lemma {:induction false} MoreTables(ss: seq<Svc>, k: nat)
    requires k <= |ss|
    ensures |SvcDefs(ClearSvcs(ss[..k]))| <= |SvcDefs(ClearSvcs(ss))|
    decreases |ss|
  {
    hide SvcDefs;
    if k == |ss| {
      assert ss[..k] == ss;
    } else {
      var n := |ss| - 1;
      MoreTables(ss[..n], k);
      assert ss[..n][..k] == ss[..k];
      var last := if ss[n].attr.removed == DELETE then [] else [ClearSvc(ss[n])];
      assert ClearSvcs(ss) == ClearSvcs(ss[..n]) + last;
      SvcDefsAppend(ClearSvcs(ss[..n]), last);
    }
  }
}
