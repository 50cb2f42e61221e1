/** Rewriting stored security records between two formats, slot by slot, over a storage whose
    calls may fail. */
module BondMigration {
  import opened Bits
  import opened Options

  const KEY_SIZE: nat := 16
  const V1_SIZE: nat := 80
  const CURRENT_SIZE: nat := 88
  const LOCAL_IRK_V1_SIZE: nat := 16
  const LOCAL_IRK_CURRENT_SIZE: nat := 23

  const OUR_SEC := "our_sec"
  const PEER_SEC := "peer_sec"
  const LOCAL_IRK := "local_irk"

  const DEFAULT_LOCAL_IRK: seq<byte> := [
    0xEF, 0x8D, 0xE2, 0x16, 0x4F, 0xEC, 0x43, 0x0D, 0xBF, 0x5B, 0xDD, 0x34, 0xC0, 0x53, 0x1E, 0xB8]

  datatype Addr = Addr(kind: byte, val: seq<byte>)

  datatype SecV1 = SecV1(
    peerAddr: Addr,
    keySize: byte, ediv: uint16, randNum: nat,
    ltk: seq<byte>, ltkPresent: bool,
    irk: seq<byte>, irkPresent: bool,
    csrk: seq<byte>, csrkPresent: bool,
    authenticated: bool, sc: bool)

  datatype SecCurrent = SecCurrent(
    peerAddr: Addr, bondCount: uint16,
    keySize: byte, ediv: uint16, randNum: nat,
    ltk: seq<byte>, ltkPresent: bool,
    irk: seq<byte>, irkPresent: bool,
    csrk: seq<byte>, csrkPresent: bool, signCounter: uint32,
    authenticated: bool, sc: bool)

  /** A stored blob. The program tells the formats apart by size alone, so a blob of any other
      size is just bytes. */
  datatype Blob = V1(v1: SecV1) | Current(current: SecCurrent) | Other(bytes: seq<byte>)

  predicate RealBlob(b: Blob) {
    b.Other? ==> |b.bytes| != V1_SIZE && |b.bytes| != CURRENT_SIZE
  }

  function Size(b: Blob): nat {
    match b
    case V1(_) => V1_SIZE
    case Current(_) => CURRENT_SIZE
    case Other(bytes) => |bytes|
  }

  type Store = map<string, Blob>

  ghost predicate RealStore(s: Store) {
    forall k :: k in s ==> RealBlob(s[k])
  }

  function Lookup(s: Store, key: string): Option<Blob> {
    if key in s then Some(s[key]) else None
  }

  // ------------------------------------------------------------ keys

  /** The decimal digits of n, as %u prints them. */
  function Decimal(n: nat): (r: string)
    ensures r != []
    ensures forall c :: c in r ==> '0' <= c <= '9'
  {
    var digit := ('0' as int + n % 10) as char;
    if n < 10 then [digit] else Decimal(n / 10) + [digit]
  }

  lemma {:induction false} DecimalIsInjective(a: nat, b: nat)
    requires Decimal(a) == Decimal(b)
    ensures a == b
    decreases a
  {
    var x, y := Decimal(a), Decimal(b);
    assert x[|x| - 1] == y[|y| - 1];
    if a >= 10 && b >= 10 {
      assert x[..|x| - 1] == Decimal(a / 10) && y[..|y| - 1] == Decimal(b / 10);
      DecimalIsInjective(a / 10, b / 10);
    }
  }

  function Pow10(d: nat): nat {
    if d == 0 then 1 else 10 * Pow10(d - 1)
  }

  lemma {:induction false} DecimalLength(n: nat, d: nat)
    requires d > 0 && n < Pow10(d)
    ensures |Decimal(n)| <= d
  {
    if n >= 10 {
      DecimalLength(n / 10, d - 1);
    }
  }

  function Key(prefix: string, index: nat): string {
    prefix + "_" + Decimal(index)
  }

  predicate IsPrefix(p: string) {
    p == OUR_SEC || p == PEER_SEC || p == LOCAL_IRK
  }

  /** No two slots share a key. */
  lemma KeysAreDistinct(p: string, i: nat, q: string, j: nat)
    requires IsPrefix(p) && IsPrefix(q) && Key(p, i) == Key(q, j)
    ensures p == q && i == j
  {
    assert Key(p, i)[0] == p[0] && Key(q, j)[0] == q[0];
    assert p == q;
    assert Key(p, i)[|p| + 1..] == Decimal(i) && Key(q, j)[|q| + 1..] == Decimal(j);
    DecimalIsInjective(i, j);
  }

  /** makeBondKey: the key, if it fits the buffer with its terminator. */
  method MakeBondKey(prefix: string, index: uint16) returns (key: string, ok: bool)
    requires IsPrefix(prefix)
    ensures ok && key == Key(prefix, index) && |key| < KEY_SIZE
  {
    key := Key(prefix, index);
    assert Pow10(1) == 10 && Pow10(2) == 100 && Pow10(3) == 1000 && Pow10(4) == 10000 && Pow10(5) == 100000;
    DecimalLength(index, 5);
    ok := |key| > 0 && |key| < KEY_SIZE;
  }

  // ------------------------------------------------------------ records

  function ToCurrent(r: SecV1, index: uint16): SecCurrent {
    SecCurrent(r.peerAddr, index, r.keySize, r.ediv, r.randNum, r.ltk, r.ltkPresent,
               r.irk, r.irkPresent, r.csrk, r.csrkPresent, 0, r.authenticated, r.sc)
  }

  function ToV1(r: SecCurrent): SecV1 {
    SecV1(r.peerAddr, r.keySize, r.ediv, r.randNum, r.ltk, r.ltkPresent,
          r.irk, r.irkPresent, r.csrk, r.csrkPresent, r.authenticated, r.sc)
  }

  /** Every v1 field has the same value in both records. */
  ghost predicate SameFields(a: SecV1, b: SecCurrent) {
    && a.peerAddr == b.peerAddr && a.keySize == b.keySize && a.ediv == b.ediv && a.randNum == b.randNum
    && a.ltk == b.ltk && a.ltkPresent == b.ltkPresent && a.irk == b.irk && a.irkPresent == b.irkPresent
    && a.csrk == b.csrk && a.csrkPresent == b.csrkPresent
    && a.authenticated == b.authenticated && a.sc == b.sc
  }

  lemma ConversionKeepsFields(r: SecV1, c: SecCurrent, index: uint16)
    ensures SameFields(r, ToCurrent(r, index)) && SameFields(ToV1(c), c)
    ensures ToV1(ToCurrent(r, index)) == r
  {
  }

  // ------------------------------------------------------------ one slot

  /** What the migration is to do with one key. */
  datatype Task = Sec(key: string, index: uint16) | SetIrk(key: string) | EraseIrk(key: string)

  /** The slot after its task, from what was there before. */
  function Effect(t: Task, toCurrent: bool, b: Option<Blob>): Option<Blob> {
    match t
    case SetIrk(_) => Some(Other(LocalIrkBytes()))
    case EraseIrk(_) => None
    case Sec(_, index) =>
      if b.None? then None
      else if toCurrent then Some(if b.value.V1? then Current(ToCurrent(b.value.v1, index)) else b.value)
      else Some(if b.value.Current? then V1(ToV1(b.value.current)) else b.value)
  }

  /** An all-zero address and the fixed key. */
  function LocalIrkBytes(): (r: seq<byte>)
    ensures |r| == LOCAL_IRK_CURRENT_SIZE
  {
    [0, 0, 0, 0, 0, 0, 0] + DEFAULT_LOCAL_IRK
  }

  function Put(s: Store, key: string, b: Option<Blob>): Store {
    if b.Some? then s[key := b.value] else s - {key}
  }

  function Apply(s: Store, t: Task, toCurrent: bool): Store {
    Put(s, t.key, Effect(t, toCurrent, Lookup(s, t.key)))
  }

  function ApplyAll(s: Store, ts: seq<Task>, toCurrent: bool): Store {
    if ts == [] then s else Apply(ApplyAll(s, ts[..|ts| - 1], toCurrent), ts[|ts| - 1], toCurrent)
  }

  function SecTasks(n: nat): seq<Task>
    requires n < 0x1_0000
  {
    if n == 0 then [] else SecTasks(n - 1) + [Sec(Key(OUR_SEC, n), n), Sec(Key(PEER_SEC, n), n)]
  }

  function EraseTasks(n: nat): seq<Task> {
    if n == 0 then [] else EraseTasks(n - 1) + [EraseIrk(Key(LOCAL_IRK, n))]
  }

  /** Everything a migration does, in order. */
  function Tasks(toCurrent: bool, n: nat): seq<Task>
    requires n < 0x1_0000
  {
    SecTasks(n) + if toCurrent then [SetIrk(Key(LOCAL_IRK, 1))] else EraseTasks(n)
  }

  ghost predicate DistinctKeys(ts: seq<Task>) {
    forall i, j :: 0 <= i < j < |ts| ==> ts[i].key != ts[j].key
  }

  // ------------------------------------------------------------ a run cut short and run again

  lemma EffectIsIdempotent(t: Task, toCurrent: bool, b: Option<Blob>)
    ensures Effect(t, toCurrent, Effect(t, toCurrent, b)) == Effect(t, toCurrent, b)
  {
  }

  /** Keys are independent: a key holds its own task's effect, and all others are untouched. */
  lemma {:induction false} KeyByKey(s: Store, ts: seq<Task>, toCurrent: bool, key: string)
    requires DistinctKeys(ts)
    ensures (forall i :: 0 <= i < |ts| ==> ts[i].key != key)
            ==> Lookup(ApplyAll(s, ts, toCurrent), key) == Lookup(s, key)
    ensures forall i :: 0 <= i < |ts| && ts[i].key == key ==>
              Lookup(ApplyAll(s, ts, toCurrent), key) == Effect(ts[i], toCurrent, Lookup(s, key))
  {
    hide Effect;
    if ts != [] {
      var n := |ts| - 1;
      KeyByKey(s, ts[..n], toCurrent, key);
    }
  }

  lemma SameStore(a: Store, b: Store)
    requires forall key :: Lookup(a, key) == Lookup(b, key)
    ensures a == b
  {
    forall key
      ensures key in a <==> key in b
      ensures key in a ==> a[key] == b[key]
    {
      assert Lookup(a, key) == Lookup(b, key);
    }
  }

  /** Running all tasks after any first part of them is the same as one clean run. */
  lemma CutAndRerun(s: Store, ts: seq<Task>, k: nat, toCurrent: bool)
    requires k <= |ts| && DistinctKeys(ts)
    ensures ApplyAll(ApplyAll(s, ts[..k], toCurrent), ts, toCurrent) == ApplyAll(s, ts, toCurrent)
  {
    hide ApplyAll, Effect;
    var cut := ApplyAll(s, ts[..k], toCurrent);
    forall key
      ensures Lookup(ApplyAll(cut, ts, toCurrent), key) == Lookup(ApplyAll(s, ts, toCurrent), key)
    {
      KeyByKey(s, ts[..k], toCurrent, key);
      KeyByKey(cut, ts, toCurrent, key);
      KeyByKey(s, ts, toCurrent, key);
      if i :| 0 <= i < |ts| && ts[i].key == key {
        EffectIsIdempotent(ts[i], toCurrent, Lookup(s, key));
        if i < k {
          assert ts[..k][i].key == key;
        } else {
          assert forall j :: 0 <= j < k ==> ts[..k][j].key != key;
        }
      } else {
        assert forall j :: 0 <= j < k ==> ts[..k][j].key != key;
      }
    }
    SameStore(ApplyAll(cut, ts, toCurrent), ApplyAll(s, ts, toCurrent));
  }

  lemma {:induction false} SecTaskAt(n: nat, i: nat)
    requires n < 0x1_0000 && i < |SecTasks(n)|
    ensures |SecTasks(n)| == 2 * n
    ensures var t := SecTasks(n)[i]; t == Sec(Key(if i % 2 == 0 then OUR_SEC else PEER_SEC, i / 2 + 1), i / 2 + 1)
  {
    SecTaskCount(n);
    if i < 2 * (n - 1) {
      SecTaskAt(n - 1, i);
    } else {
      SecTaskCount(n - 1);
    }
  }

  lemma {:induction false} SecTaskCount(n: nat)
    requires n < 0x1_0000
    ensures |SecTasks(n)| == 2 * n
  {
    if n > 0 {
      SecTaskCount(n - 1);
    }
  }

  lemma {:induction false} EraseTaskAt(n: nat, i: nat)
    requires i < |EraseTasks(n)|
    ensures |EraseTasks(n)| == n && EraseTasks(n)[i] == EraseIrk(Key(LOCAL_IRK, i + 1))
  {
    EraseTaskCount(n);
    if i < n - 1 {
      EraseTaskAt(n - 1, i);
    } else {
      EraseTaskCount(n - 1);
    }
  }

  lemma {:induction false} EraseTaskCount(n: nat)
    ensures |EraseTasks(n)| == n
  {
    if n > 0 {
      EraseTaskCount(n - 1);
    }
  }

  /** Prefix and slot number of the i-th task. */
  function Slot(toCurrent: bool, n: nat, i: nat): (string, nat) {
    if i < 2 * n then (if i % 2 == 0 then OUR_SEC else PEER_SEC, i / 2 + 1)
    else if toCurrent then (LOCAL_IRK, 1)
    else (LOCAL_IRK, i - 2 * n + 1)
  }

  lemma TaskAt(toCurrent: bool, n: nat, i: nat)
    requires n < 0x1_0000 && i < |Tasks(toCurrent, n)|
    ensures |Tasks(toCurrent, n)| == 2 * n + if toCurrent then 1 else n
    ensures Tasks(toCurrent, n)[i].key == Key(Slot(toCurrent, n, i).0, Slot(toCurrent, n, i).1)
  {
    hide Key;
    SecTaskCount(n);
    EraseTaskCount(n);
    if i < 2 * n {
      SecTaskAt(n, i);
    } else if !toCurrent {
      EraseTaskAt(n, i - 2 * n);
    }
  }

  lemma TasksAreDistinct(toCurrent: bool, n: nat)
    requires n < 0x1_0000
    ensures DistinctKeys(Tasks(toCurrent, n))
  {
    hide Key, Tasks;
    var ts := Tasks(toCurrent, n);
    forall i, j | 0 <= i < j < |ts|
      ensures ts[i].key != ts[j].key
    {
      TaskAt(toCurrent, n, i);
      TaskAt(toCurrent, n, j);
      var (p, a) := Slot(toCurrent, n, i);
      var (q, b) := Slot(toCurrent, n, j);
      assert (p, a) != (q, b);
      if ts[i].key == ts[j].key {
        KeysAreDistinct(p, a, q, b);
      }
    }
  }

  /** A migration cut short anywhere and then run again leaves what one clean run leaves; in
      particular running it twice changes nothing more. */
  lemma MigrationIsRestartable(s: Store, toCurrent: bool, n: nat, k: nat)
    requires n < 0x1_0000 && k <= |Tasks(toCurrent, n)|
    ensures var ts := Tasks(toCurrent, n);
            ApplyAll(ApplyAll(s, ts[..k], toCurrent), ts, toCurrent) == ApplyAll(s, ts, toCurrent)
  {
    hide Tasks;
    TasksAreDistinct(toCurrent, n);
    CutAndRerun(s, Tasks(toCurrent, n), k, toCurrent);
  }

  predicate IsSecKey(key: string, n: nat) {
    exists i: nat :: 1 <= i <= n && (key == Key(OUR_SEC, i) || key == Key(PEER_SEC, i))
  }

  /** To current and back: a v1 record in a slot is there again field for field, a current one
      has become its v1 form, a blob of unknown size and an empty slot are as before. */
  lemma ToV1UndoesToCurrent(s: Store, n: nat, key: string)
    requires n < 0x1_0000 && IsSecKey(key, n)
    ensures var there := ApplyAll(s, Tasks(true, n), true);
            var back := ApplyAll(there, Tasks(false, n), false);
            Lookup(back, key) == match Lookup(s, key)
                                 case Some(Current(c)) => Some(V1(ToV1(c)))
                                 case b => b
  {
    hide ApplyAll, Tasks, Key;
    var i: nat :| 1 <= i <= n && (key == Key(OUR_SEC, i) || key == Key(PEER_SEC, i));
    var j := if key == Key(OUR_SEC, i) then 2 * (i - 1) else 2 * (i - 1) + 1;
    TasksAreDistinct(true, n);
    TasksAreDistinct(false, n);
    SecTaskIn(true, n, j);
    SecTaskIn(false, n, j);
    KeyByKey(s, Tasks(true, n), true, key);
    KeyByKey(ApplyAll(s, Tasks(true, n), true), Tasks(false, n), false, key);
  }

  lemma SecTaskIn(toCurrent: bool, n: nat, j: nat)
    requires n < 0x1_0000 && j < 2 * n
    ensures j < |Tasks(toCurrent, n)|
    ensures Tasks(toCurrent, n)[j] == Sec(Key(if j % 2 == 0 then OUR_SEC else PEER_SEC, j / 2 + 1), j / 2 + 1)
  {
    SecTaskCount(n);
    SecTaskAt(n, j);
  }

  /** Keys that are no slot of this migration keep their blobs. */
  lemma OtherKeysUntouched(s: Store, toCurrent: bool, n: nat, key: string)
    requires n < 0x1_0000 && !IsSecKey(key, n) && (forall i: nat :: key != Key(LOCAL_IRK, i))
    ensures Lookup(ApplyAll(s, Tasks(toCurrent, n), toCurrent), key) == Lookup(s, key)
  {
    hide ApplyAll, Tasks, Key;
    TasksAreDistinct(toCurrent, n);
    forall i | 0 <= i < |Tasks(toCurrent, n)|
      ensures Tasks(toCurrent, n)[i].key != key
    {
      TaskAt(toCurrent, n, i);
    }
    KeyByKey(s, Tasks(toCurrent, n), toCurrent, key);
  }

  /** Blobs of unknown size in the security slots stay as they are in both directions. */
  lemma UnknownSizesUntouched(s: Store, toCurrent: bool, n: nat, key: string)
    requires n < 0x1_0000 && IsSecKey(key, n) && key in s && s[key].Other?
    ensures Lookup(ApplyAll(s, Tasks(toCurrent, n), toCurrent), key) == Some(s[key])
  {
    hide ApplyAll, Tasks, Key;
    var i: nat :| 1 <= i <= n && (key == Key(OUR_SEC, i) || key == Key(PEER_SEC, i));
    var j := if key == Key(OUR_SEC, i) then 2 * (i - 1) else 2 * (i - 1) + 1;
    TasksAreDistinct(toCurrent, n);
    SecTaskIn(toCurrent, n, j);
    KeyByKey(s, Tasks(toCurrent, n), toCurrent, key);
  }

  // ------------------------------------------------------------ what a run writes

  /** Is there something to write to the slot, given what is there? */
  predicate Writes(t: Task, toCurrent: bool, b: Option<Blob>) {
    match t
    case SetIrk(_) => true
    case EraseIrk(_) => b.Some?
    case Sec(_, _) => b.Some? && if toCurrent then b.value.V1? else b.value.Current?
  }

  function One(b: bool): nat {
    if b then 1 else 0
  }

  /** How many slots have something to be written in this store. */
  function WriteCount(s: Store, ts: seq<Task>, toCurrent: bool): nat {
    if ts == [] then 0
    else WriteCount(s, ts[..|ts| - 1], toCurrent) + One(Writes(ts[|ts| - 1], toCurrent, Lookup(s, ts[|ts| - 1].key)))
  }

  lemma WriteCountStep(s: Store, ts: seq<Task>, k: nat, toCurrent: bool)
    requires k < |ts|
    ensures WriteCount(s, ts[..k + 1], toCurrent)
            == WriteCount(s, ts[..k], toCurrent) + One(Writes(ts[k], toCurrent, Lookup(s, ts[k].key)))
  {
    assert ts[..k + 1][..k] == ts[..k];
  }

  lemma {:induction false} WriteCountAppend(s: Store, a: seq<Task>, b: seq<Task>, toCurrent: bool)
    ensures WriteCount(s, a + b, toCurrent) == WriteCount(s, a, toCurrent) + WriteCount(s, b, toCurrent)
  {
    if b == [] {
      assert a + b == a;
    } else {
      var n := |b| - 1;
      assert (a + b)[..|a| + n] == a + b[..n];
      WriteCountAppend(s, a, b[..n], toCurrent);
    }
  }

  /** A slot not reached yet still holds what it held. */
  lemma NotReachedYet(s: Store, ts: seq<Task>, k: nat, toCurrent: bool)
    requires k < |ts| && DistinctKeys(ts)
    ensures Lookup(ApplyAll(s, ts[..k], toCurrent), ts[k].key) == Lookup(s, ts[k].key)
  {
    KeyByKey(s, ts[..k], toCurrent, ts[k].key);
  }

  /** After the whole work of a migration to v1, nothing is left to write. */
  lemma {:induction false} NothingLeftToWrite(s: Store, n: nat, k: nat)
    requires n < 0x1_0000 && k <= |Tasks(false, n)|
    ensures WriteCount(ApplyAll(s, Tasks(false, n), false), Tasks(false, n)[..k], false) == 0
  {
    hide ApplyAll, Tasks, Key, Writes, Effect;
    if k > 0 {
      var ts := Tasks(false, n);
      NothingLeftToWrite(s, n, k - 1);
      WriteCountStep(ApplyAll(s, ts, false), ts, k - 1, false);
      TasksAreDistinct(false, n);
      KeyByKey(s, ts, false, ts[k - 1].key);
      NoSetIrk(n, k - 1);
      EffectLeavesNothing(ts[k - 1], Lookup(s, ts[k - 1].key));
    }
  }

  lemma NoSetIrk(n: nat, i: nat)
    requires n < 0x1_0000 && i < |Tasks(false, n)|
    ensures !Tasks(false, n)[i].SetIrk?
  {
    SecTaskCount(n);
    if i < 2 * n {
      SecTaskAt(n, i);
    } else {
      EraseTaskAt(n, i - 2 * n);
    }
  }

  lemma EffectLeavesNothing(t: Task, b: Option<Blob>)
    requires !t.SetIrk?
    ensures !Writes(t, false, Effect(t, false, b))
  {
  }

  /** The conversion counter has sixteen bits: a store whose 32768 slot pairs all hold current
      records needs exactly 65536 writes, which it counts as none. */
  lemma FullStoreWraps(s: Store)
    requires forall i: nat :: 1 <= i <= 32768 ==> IsCurrent(s, Key(OUR_SEC, i)) && IsCurrent(s, Key(PEER_SEC, i))
    requires forall i: nat :: Key(LOCAL_IRK, i) !in s
    ensures WriteCount(s, Tasks(false, 32768), false) == 0x1_0000
  {
    hide Key;
    AllWritten(s, 32768);
    NoneErased(s, 32768);
    WriteCountAppend(s, SecTasks(32768), EraseTasks(32768), false);
  }

  predicate IsCurrent(s: Store, key: string) {
    key in s && s[key].Current?
  }

  lemma {:induction false} AllWritten(s: Store, n: nat)
    requires n < 0x1_0000
    requires forall i: nat :: 1 <= i <= n ==> IsCurrent(s, Key(OUR_SEC, i)) && IsCurrent(s, Key(PEER_SEC, i))
    ensures WriteCount(s, SecTasks(n), false) == 2 * n
  {
    hide Key;
    if n > 0 {
      AllWritten(s, n - 1);
      var a, b := Sec(Key(OUR_SEC, n), n), Sec(Key(PEER_SEC, n), n);
      assert IsCurrent(s, a.key) && IsCurrent(s, b.key);
      WriteCountAppend(s, SecTasks(n - 1), [a, b], false);
      TwoTasks(s, a, b, false);
    }
  }

  lemma TwoTasks(s: Store, a: Task, b: Task, toCurrent: bool)
    ensures WriteCount(s, [a, b], toCurrent)
            == One(Writes(a, toCurrent, Lookup(s, a.key))) + One(Writes(b, toCurrent, Lookup(s, b.key)))
  {
    hide Writes;
    assert [a, b][..1] == [a] && [a][..0] == [];
    assert WriteCount(s, [a], toCurrent) == One(Writes(a, toCurrent, Lookup(s, a.key)));
  }

  lemma {:induction false} NoneErased(s: Store, n: nat)
    requires forall i: nat :: Key(LOCAL_IRK, i) !in s
    ensures WriteCount(s, EraseTasks(n), false) == 0
  {
    hide Key;
    if n > 0 {
      NoneErased(s, n - 1);
    }
  }
}
