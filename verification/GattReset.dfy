/** What a reset of the GATT server keeps: told by position, not by how the vectors are edited. */
module GattReset {
  import opened GattRegistration

  /** The positions that are not marked for deletion, in order. */
  ghost predicate Survivors(marks: seq<nat>, at: seq<nat>) {
    && (forall k :: 0 <= k < |at| ==> at[k] < |marks| && marks[at[k]] != DELETE)
    && (forall j, k :: 0 <= j < k < |at| ==> at[j] < at[k])
    && (forall i :: 0 <= i < |marks| && marks[i] != DELETE ==> i in at)
  }

  function Marks(attrs: seq<Attr>): (r: seq<nat>)
    ensures |r| == |attrs|
  {
    seq(|attrs|, i requires 0 <= i < |attrs| => attrs[i].removed)
  }

  lemma OneMoreMark(marks: seq<nat>, at: seq<nat>)
    requires marks != [] && Survivors(marks[..|marks| - 1], at)
    ensures Survivors(marks, if marks[|marks| - 1] == DELETE then at else at + [|marks| - 1])
  {
    var n := |marks| - 1;
    var more := if marks[n] == DELETE then at else at + [n];
    forall i | 0 <= i < |marks| && marks[i] != DELETE
      ensures i in more
    {
      if i < n {
        assert marks[..n][i] == marks[i];
      } else {
        assert more[|at|] == n;
      }
    }
  }

  /** The elements of ys are those of xs at these positions, each as f leaves it. */
  ghost predicate Picked<T, U>(xs: seq<T>, at: seq<nat>, ys: seq<U>, f: T -> U) {
    |ys| == |at| && forall k :: 0 <= k < |at| ==> at[k] < |xs| && ys[k] == f(xs[at[k]])
  }

  /** Only the handle goes: UUID and mark stay. */
  function Bare(a: Attr): Attr {
    Attr(a.uuid, a.removed, 0)
  }

  function BareChr(c: Chr): Chr {
    Chr(Bare(c.attr), ClearDscs(c.dscs))
  }

  function BareSvc(s: Svc): Svc {
    Svc(Bare(s.attr), ClearChrs(s.chrs))
  }

  lemma PickedNone<T, U>(f: T -> U)
    ensures Survivors([], []) && Picked([], [], [], f)
  {
  }

  lemma PickedMore<T, U>(xs: seq<T>, at: seq<nat>, ys: seq<U>, f: T -> U)
    requires xs != [] && Picked(xs[..|xs| - 1], at, ys, f)
    ensures Picked(xs, at, ys, f)
    ensures Picked(xs, at + [|xs| - 1], ys + [f(xs[|xs| - 1])], f)
  {
  }

  /** The last element stays or goes. */
  lemma PickedOn<T, U>(xs: seq<T>, marks: seq<nat>, at: seq<nat>, ys: seq<U>, f: T -> U) returns (more: seq<nat>)
    requires xs != [] && |marks| == |xs|
    requires Survivors(marks[..|marks| - 1], at) && Picked(xs[..|xs| - 1], at, ys, f)
    ensures Survivors(marks, more)
    ensures Picked(xs, more, ys + if marks[|marks| - 1] == DELETE then [] else [f(xs[|xs| - 1])], f)
  {
    hide Picked, Survivors;
    OneMoreMark(marks, at);
    PickedMore(xs, at, ys, f);
    assert ys + [] == ys;
    more := if marks[|marks| - 1] == DELETE then at else at + [|marks| - 1];
  }

  /** Exactly the descriptors not marked for deletion are left, hidden ones included, in order,
      each as it was but without a handle. */
  lemma {:induction false} DscsSurvive(ds: seq<Attr>) returns (at: seq<nat>)
    ensures Survivors(Marks(ds), at) && Picked(ds, at, ClearDscs(ds), Bare)
  {
    hide Picked, Survivors;
    if ds == [] {
      at := [];
      PickedNone(Bare);
      assert Marks(ds) == [];
    } else {
      var n := |ds| - 1;
      at := DscsSurvive(ds[..n]);
      assert Marks(ds)[..n] == Marks(ds[..n]);
      at := PickedOn(ds, Marks(ds), at, ClearDscs(ds[..n]), Bare);
    }
  }

  /** The same of characteristics, each with what is left of its own descriptors. */
  lemma {:induction false} ChrsSurvive(cs: seq<Chr>) returns (at: seq<nat>)
    ensures Survivors(Marks(ChrAttrs(cs)), at) && Picked(cs, at, ClearChrs(cs), BareChr)
  {
    hide ClearDscs, Picked, Survivors;
    if cs == [] {
      at := [];
      PickedNone(BareChr);
      assert Marks(ChrAttrs(cs)) == [];
    } else {
      var n := |cs| - 1;
      at := ChrsSurvive(cs[..n]);
      assert Marks(ChrAttrs(cs))[..n] == Marks(ChrAttrs(cs[..n]));
      at := PickedOn(cs, Marks(ChrAttrs(cs)), at, ClearChrs(cs[..n]), BareChr);
    }
  }

  /** And of services, each with what is left of its own characteristics. */
  lemma {:induction false} SvcsSurvive(ss: seq<Svc>) returns (at: seq<nat>)
    ensures Survivors(Marks(SvcAttrs(ss)), at) && Picked(ss, at, ClearSvcs(ss), BareSvc)
  {
    hide ClearChrs, Picked, Survivors;
    if ss == [] {
      at := [];
      PickedNone(BareSvc);
      assert Marks(SvcAttrs(ss)) == [];
    } else {
      var n := |ss| - 1;
      at := SvcsSurvive(ss[..n]);
      assert Marks(SvcAttrs(ss))[..n] == Marks(SvcAttrs(ss[..n]));
      at := PickedOn(ss, Marks(SvcAttrs(ss)), at, ClearSvcs(ss[..n]), BareSvc);
    }
  }

  // ------------------------------------------------------------ nothing marked

  ghost predicate NoneMarked(attrs: seq<Attr>) {
    forall a :: a in attrs ==> a.removed != DELETE
  }

  ghost predicate NoChrMarked(cs: seq<Chr>) {
    forall c :: c in cs ==> c.attr.removed != DELETE && NoneMarked(c.dscs)
  }

  ghost predicate NothingMarked(ss: seq<Svc>) {
    forall s :: s in ss ==> s.attr.removed != DELETE && NoChrMarked(s.chrs)
  }

  lemma {:induction false} DscsStay(ds: seq<Attr>)
    requires NoneMarked(ds)
    ensures ClearDscs(ds) == BlankDscs(ds)
  {
    if ds != [] {
      var n := |ds| - 1;
      DscsStay(ds[..n]);
      assert BlankDscs(ds) == BlankDscs(ds[..n]) + [Blank(ds[n])];
    }
  }

  lemma {:induction false} ChrsStay(cs: seq<Chr>)
    requires NoChrMarked(cs)
    ensures ClearChrs(cs) == BlankChrs(cs)
  {
    if cs != [] {
      var n := |cs| - 1;
      ChrsStay(cs[..n]);
      DscsStay(cs[n].dscs);
      assert BlankChrs(cs) == BlankChrs(cs[..n]) + [Chr(Blank(cs[n].attr), BlankDscs(cs[n].dscs))];
    }
  }

  /** A reset deletes nothing that is not marked, at any level: it only takes the handles. */
  lemma {:induction false} UnmarkedStay(ss: seq<Svc>)
    requires NothingMarked(ss)
    ensures ClearSvcs(ss) == BlankSvcs(ss)
  {
    hide ClearChrs, BlankChrs, NoChrMarked;
    if ss != [] {
      var n := |ss| - 1;
      UnmarkedStay(ss[..n]);
      ChrsStay(ss[n].chrs);
      assert BlankSvcs(ss) == BlankSvcs(ss[..n]) + [Svc(Blank(ss[n].attr), BlankChrs(ss[n].chrs))];
    }
  }

  /** A blank attribute is the same one without a handle. */
  lemma BlankKeeps(ss: seq<Svc>, i: nat, j: nat, k: nat)
    requires i < |ss| && j < |ss[i].chrs| && k < |ss[i].chrs[j].dscs|
    ensures var (s, b) := (ss[i], BlankSvcs(ss)[i]);
            && b.attr == Attr(s.attr.uuid, s.attr.removed, 0)
            && |b.chrs| == |s.chrs| && b.chrs[j].attr == Attr(s.chrs[j].attr.uuid, s.chrs[j].attr.removed, 0)
            && |b.chrs[j].dscs| == |s.chrs[j].dscs|
            && b.chrs[j].dscs[k] == Attr(s.chrs[j].dscs[k].uuid, s.chrs[j].dscs[k].removed, 0)
  {
  }

  // ------------------------------------------------------------ the ends of the tables

  /** A table exists exactly if something is kept, and then has one end entry, its last one. */
  lemma {:induction false} TableEnds(ds: seq<Attr>)
    ensures DscTable(ds) == [] <==> forall d :: d in ds ==> d.removed != KEEP
    ensures DscTable(ds) != [] ==> DscTable(ds)[|DscTable(ds)| - 1] == EndDsc
    ensures forall k :: 0 <= k < |DscTable(ds)| - 1 ==> DscTable(ds)[k] != EndDsc
  {
    NoEndWithin(ds);
  }

  lemma {:induction false} NoEndWithin(ds: seq<Attr>)
    ensures EndDsc !in DscDefs(ds)
    ensures DscDefs(ds) == [] <==> forall d :: d in ds ==> d.removed != KEEP
  {
    if ds != [] {
      NoEndWithin(ds[..|ds| - 1]);
      assert ds == ds[..|ds| - 1] + [ds[|ds| - 1]];
      assert ds[|ds| - 1] in ds;
    }
  }

  /** The same of characteristics. */
  lemma {:induction false} ChrTableEnds(cs: seq<Chr>)
    ensures ChrTable(cs) == [] <==> forall c :: c in cs ==> c.attr.removed != KEEP
    ensures ChrTable(cs) != [] ==> ChrTable(cs)[|ChrTable(cs)| - 1] == EndChr
    ensures forall k :: 0 <= k < |ChrTable(cs)| - 1 ==> ChrTable(cs)[k] != EndChr
  {
    NoChrEndWithin(cs);
  }

  lemma {:induction false} NoChrEndWithin(cs: seq<Chr>)
    ensures EndChr !in ChrDefs(cs)
    ensures ChrDefs(cs) == [] <==> forall c :: c in cs ==> c.attr.removed != KEEP
  {
    hide DscTable;
    if cs != [] {
      NoChrEndWithin(cs[..|cs| - 1]);
      assert cs == cs[..|cs| - 1] + [cs[|cs| - 1]];
      assert cs[|cs| - 1] in cs;
    }
  }
}
