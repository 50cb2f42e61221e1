/** What a migration leaves in the storage, slot by slot, and how much of it it writes. */
module BondOutcome {
  import opened Bits
  import opened BondMigration
  import opened Options

  /** The current form of a v1 record in the slot with this key. */
  ghost predicate UpgradeOf(a: SecV1, c: SecCurrent, key: string) {
    && SameFields(a, c) && c.signCounter == 0
    && (key == Key(OUR_SEC, c.bondCount) || key == Key(PEER_SEC, c.bondCount))
  }

  /** What a slot holds after its migration to the current format, by what it held before. */
  ghost predicate Upgraded(key: string, before: Option<Blob>, after: Option<Blob>) {
    match before
    case Some(V1(a)) => after.Some? && after.value.Current? && UpgradeOf(a, after.value.current, key)
    case _ => after == before
  }

  /** The same after one to v1. */
  ghost predicate Downgraded(before: Option<Blob>, after: Option<Blob>) {
    match before
    case Some(Current(c)) => after.Some? && after.value.V1? && SameFields(after.value.v1, c)
    case _ => after == before
  }

  /** A security slot's key has one task, and its effect is all that happens to it. */
  lemma SlotEffect(s: Store, toCurrent: bool, n: nat, key: string) returns (i: nat)
    requires n < 0x1_0000 && IsSecKey(key, n)
    ensures 1 <= i <= n && (key == Key(OUR_SEC, i) || key == Key(PEER_SEC, i))
    ensures Lookup(ApplyAll(s, Tasks(toCurrent, n), toCurrent), key)
         == Effect(Sec(key, i), toCurrent, Lookup(s, key))
  {
    hide ApplyAll, Tasks, Key, Effect;
    i :| 1 <= i <= n && (key == Key(OUR_SEC, i) || key == Key(PEER_SEC, i));
    var j := if key == Key(OUR_SEC, i) then 2 * (i - 1) else 2 * (i - 1) + 1;
    TasksAreDistinct(toCurrent, n);
    SecTaskIn(toCurrent, n, j);
    KeyByKey(s, Tasks(toCurrent, n), toCurrent, key);
  }

  /** A migration to the current format turns every v1 record in a security slot into a current one
      with the same fields, numbered like its slot and with its counter at zero. Empty slots stay
      empty; current records and blobs of unknown size stay as they are. */
  lemma ToCurrentConverts(s: Store, n: nat, key: string)
    requires n < 0x1_0000 && IsSecKey(key, n)
    ensures Upgraded(key, Lookup(s, key), Lookup(ApplyAll(s, Tasks(true, n), true), key))
  {
    hide ApplyAll, Tasks, Key;
    var i := SlotEffect(s, true, n, key);
  }

  /** A migration to v1 turns every current record in a security slot into a v1 one with the same
      fields, and leaves all others as they are. */
  lemma ToV1Converts(s: Store, n: nat, key: string)
    requires n < 0x1_0000 && IsSecKey(key, n)
    ensures Downgraded(Lookup(s, key), Lookup(ApplyAll(s, Tasks(false, n), false), key))
  {
    hide ApplyAll, Tasks, Key;
    var i := SlotEffect(s, false, n, key);
  }

  /** After a migration to the current format the first local key slot holds an address of zeros
      and the fixed key, whatever it held; the others are untouched. */
  lemma LocalKeysUpgraded(s: Store, n: nat, i: nat)
    requires n < 0x1_0000
    ensures var t := ApplyAll(s, Tasks(true, n), true);
            && (i != 1 ==> Lookup(t, Key(LOCAL_IRK, i)) == Lookup(s, Key(LOCAL_IRK, i)))
            && (i == 1 ==> Lookup(t, Key(LOCAL_IRK, i)) == Some(Other([0, 0, 0, 0, 0, 0, 0] + DEFAULT_LOCAL_IRK)))
  {
    hide ApplyAll, Tasks, Key;
    TasksAreDistinct(true, n);
    KeyByKey(s, Tasks(true, n), true, Key(LOCAL_IRK, i));
    if i == 1 {
      SetIrkTask(n);
    } else {
      NoTaskFor(true, n, i);
    }
  }

  /** After a migration to v1 the first n local key slots are empty, and the others untouched. */
  lemma LocalKeysErased(s: Store, n: nat, i: nat)
    requires n < 0x1_0000
    ensures Lookup(ApplyAll(s, Tasks(false, n), false), Key(LOCAL_IRK, i))
         == if 1 <= i <= n then None else Lookup(s, Key(LOCAL_IRK, i))
  {
    hide ApplyAll, Tasks, Key;
    TasksAreDistinct(false, n);
    KeyByKey(s, Tasks(false, n), false, Key(LOCAL_IRK, i));
    if 1 <= i <= n {
      EraseIrkTask(n, i);
    } else {
      NoTaskFor(false, n, i);
    }
  }

  lemma SetIrkTask(n: nat)
    requires n < 0x1_0000
    ensures |Tasks(true, n)| == 2 * n + 1 && Tasks(true, n)[2 * n] == SetIrk(Key(LOCAL_IRK, 1))
  {
    hide Key;
    SecTaskCount(n);
  }

  lemma EraseIrkTask(n: nat, i: nat)
    requires n < 0x1_0000 && 1 <= i <= n
    ensures |Tasks(false, n)| == 3 * n && Tasks(false, n)[2 * n + i - 1] == EraseIrk(Key(LOCAL_IRK, i))
  {
    hide Key;
    SecTaskCount(n);
    EraseTaskCount(n);
    EraseTaskAt(n, i - 1);
  }

  lemma NoTaskFor(toCurrent: bool, n: nat, i: nat)
    requires n < 0x1_0000 && if toCurrent then i != 1 else i == 0 || i > n
    ensures forall k :: 0 <= k < |Tasks(toCurrent, n)| ==> Tasks(toCurrent, n)[k].key != Key(LOCAL_IRK, i)
  {
    hide Tasks, Key;
    forall k | 0 <= k < |Tasks(toCurrent, n)|
      ensures Tasks(toCurrent, n)[k].key != Key(LOCAL_IRK, i)
    {
      TaskAt(toCurrent, n, k);
      var (p, a) := Slot(toCurrent, n, k);
      assert (p, a) != (LOCAL_IRK, i);
      if Key(p, a) == Key(LOCAL_IRK, i) {
        KeysAreDistinct(p, a, LOCAL_IRK, i);
      }
    }
  }

  // ------------------------------------------------------------ writes are changes

  /** The keys that two stores disagree on. */
  ghost function Changed(s: Store, t: Store): set<string> {
    set key | key in s.Keys + t.Keys && Lookup(s, key) != Lookup(t, key)
  }

  /** What the migration counts as writes is what it changes: it writes exactly the slots whose
      contents come out different, each once. */
  lemma {:induction false} WritesAreChanges(s: Store, ts: seq<Task>, toCurrent: bool)
    requires DistinctKeys(ts) && forall t :: t in ts ==> !t.SetIrk?
    ensures WriteCount(s, ts, toCurrent) == |Changed(s, ApplyAll(s, ts, toCurrent))|
  {
    hide Effect, Writes, Apply;
    if ts == [] {
      assert Changed(s, s) == {};
    } else {
      var n := |ts| - 1;
      var before := ApplyAll(s, ts[..n], toCurrent);
      WritesAreChanges(s, ts[..n], toCurrent);
      KeyByKey(s, ts[..n], toCurrent, ts[n].key);
      assert ts[n] in ts;
      OneMoreChange(s, before, ts[n], toCurrent);
    }
  }

  lemma OneMoreChange(s: Store, before: Store, t: Task, toCurrent: bool)
    requires !t.SetIrk? && Lookup(before, t.key) == Lookup(s, t.key)
    ensures |Changed(s, Apply(before, t, toCurrent))|
         == |Changed(s, before)| + One(Writes(t, toCurrent, Lookup(s, t.key)))
  {
    hide Writes, Effect, Apply, Changed;
    WritesIfChanged(t, toCurrent, Lookup(s, t.key));
    var after := Apply(before, t, toCurrent);
    ApplyLooks(before, t, toCurrent);
    ChangedOnce(s, before, after, t.key);
  }

  lemma ApplyLooks(s: Store, t: Task, toCurrent: bool)
    ensures Lookup(Apply(s, t, toCurrent), t.key) == Effect(t, toCurrent, Lookup(s, t.key))
    ensures forall key :: key != t.key ==> Lookup(Apply(s, t, toCurrent), key) == Lookup(s, key)
  {
    hide Effect;
  }

  lemma ChangedOnce(s: Store, before: Store, after: Store, key: string)
    requires Lookup(before, key) == Lookup(s, key)
    requires forall other :: other != key ==> Lookup(after, other) == Lookup(before, other)
    ensures |Changed(s, after)| == |Changed(s, before)| + One(Lookup(after, key) != Lookup(s, key))
  {
    hide Changed, Lookup;
    var was, now := Changed(s, before), Changed(s, after);
    forall k
      ensures k in was <==> Lookup(s, k) != Lookup(before, k)
      ensures k in now <==> Lookup(s, k) != Lookup(after, k)
    {
      ChangedIn(s, before, k);
      ChangedIn(s, after, k);
    }
    if Lookup(after, key) == Lookup(s, key) {
      assert forall k :: k in now <==> k in was;
      assert now == was;
    } else {
      assert forall k :: k in now <==> k in was || k == key;
      assert now == was + {key};
    }
  }

  lemma ChangedIn(s: Store, t: Store, key: string)
    ensures key in Changed(s, t) <==> Lookup(s, key) != Lookup(t, key)
  {
  }

  lemma WritesIfChanged(t: Task, toCurrent: bool, b: Option<Blob>)
    requires !t.SetIrk?
    ensures Writes(t, toCurrent, b) <==> Effect(t, toCurrent, b) != b
  {
  }

  /** So a migration to v1 counts the slots it changes, and one to the current format the security
      slots it changes and one for the local key, which it always writes. */
  lemma MigrationWrites(s: Store, n: nat)
    requires n < 0x1_0000
    ensures WriteCount(s, Tasks(false, n), false) == |Changed(s, ApplyAll(s, Tasks(false, n), false))|
    ensures WriteCount(s, Tasks(true, n), true) == |Changed(s, ApplyAll(s, SecTasks(n), true))| + 1
  {
    hide ApplyAll, Key, Changed, SecTasks, EraseTasks, DistinctKeys;
    TasksAreDistinct(false, n);
    forall t | t in Tasks(false, n)
      ensures !t.SetIrk?
    {
      var i :| 0 <= i < |Tasks(false, n)| && Tasks(false, n)[i] == t;
      NoSetIrk(n, i);
    }
    WritesAreChanges(s, Tasks(false, n), false);
    FirstTasks(n);
    WritesAreChanges(s, SecTasks(n), true);
    assert Tasks(true, n)[..|SecTasks(n)|] == SecTasks(n);
  }

  lemma FirstTasks(n: nat)
    requires n < 0x1_0000
    ensures DistinctKeys(SecTasks(n)) && forall t :: t in SecTasks(n) ==> !t.SetIrk?
  {
    hide Key, SecTasks;
    TasksAreDistinct(true, n);
    assert forall i :: 0 <= i < |SecTasks(n)| ==> SecTasks(n)[i] == Tasks(true, n)[i];
    forall t | t in SecTasks(n)
      ensures !t.SetIrk?
    {
      var i :| 0 <= i < |SecTasks(n)| && SecTasks(n)[i] == t;
      SecTaskAt(n, i);
    }
  }
}
