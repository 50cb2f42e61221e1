/** The migration loops over a key-value storage whose calls may fail. */
module BondStore {
  import opened Bits
  import opened BondMigration
  import opened Options

  datatype Err = Ok | NotFound | Failed

  datatype Stats = Stats(scanned: uint16, converted: uint16, alreadyTarget: uint16, skipped: uint16)

  /** Sixteen-bit counters. */
  function Inc(n: uint16): uint16 {
    (n + 1) % 0x1_0000
  }

  /** The counter after something that may have been a write. */
  function Counted(n: uint16, wrote: bool): uint16 {
    (n + One(wrote)) % 0x1_0000
  }

  /** Nothing, or a local key in one of the two formats. */
  predicate LocalIrkSize(n: nat) {
    n == 0 || n == LOCAL_IRK_V1_SIZE || n == LOCAL_IRK_CURRENT_SIZE
  }

  /** Counters after one security slot. */
  function Tally(stats: Stats, toCurrent: bool, b: Option<Blob>): Stats {
    if b.None? then stats
    else
      var t := stats.(scanned := Inc(stats.scanned));
      match b.value
      case Other(_) => t.(skipped := Inc(t.skipped))
      case V1(_) => if toCurrent then t.(converted := Inc(t.converted)) else t.(alreadyTarget := Inc(t.alreadyTarget))
      case Current(_) =>
        if toCurrent then t.(alreadyTarget := Inc(t.alreadyTarget)) else t.(converted := Inc(t.converted))
  }

  /** Every blob looked at is counted as scanned and as one other thing: as converted if the
      migration changes it, as skipped if its size is unknown, and otherwise as in the target
      format already. */
  lemma TallyExact(stats: Stats, toCurrent: bool, key: string, index: uint16, b: Option<Blob>)
    ensures var t := Tally(stats, toCurrent, b);
            var changed := Effect(Sec(key, index), toCurrent, b) != b;
            var skipped := b.Some? && b.value.Other?;
            && t.scanned == Counted(stats.scanned, b.Some?)
            && t.converted == Counted(stats.converted, changed)
            && t.skipped == Counted(stats.skipped, skipped)
            && t.alreadyTarget == Counted(stats.alreadyTarget, b.Some? && !changed && !skipped)
  {
  }

  /** The namespace "nimble_bond". Its blobs and the question whether some write still awaits a
      commit belong to the namespace: they outlast the handle a run opens and closes.
      fails(n) says whether the n-th call to open, read, write or erase fails, and then changes
      nothing; commitFails(n) says so of the n-th commit. */
  class Nvs {
    var store: Store
    var uncommitted: bool
    var handles: nat
    var calls: nat
    var commits: nat
    const fails: nat -> bool
    const commitFails: nat -> bool

    constructor (contents: Store, fails: nat -> bool, commitFails: nat -> bool)
      ensures store == contents && !uncommitted && handles == 0 && commits == 0
      ensures this.fails == fails && this.commitFails == commitFails
    {
      store, uncommitted, handles, calls, commits := contents, false, 0, 0, 0;
      this.fails, this.commitFails := fails, commitFails;
    }

    /** Nothing but a commit ever fails. */
    ghost predicate Reliable() {
      forall n: nat :: !fails(n)
    }

    method Open() returns (ok: bool)
      modifies this`calls, this`handles
      ensures handles == if ok then old(handles) + 1 else old(handles)
      ensures Reliable() ==> ok
    {
      calls := calls + 1;
      ok := !fails(calls);
      if ok {
        handles := handles + 1;
      }
    }

    method Close()
      requires handles > 0
      modifies this`handles
      ensures handles == old(handles) - 1
    {
      handles := handles - 1;
    }

    method GetSize(key: string) returns (err: Err, size: nat)
      modifies this`calls
      ensures err == Failed || (err == NotFound && key !in store)
              || (err == Ok && key in store && size == Size(store[key]))
      ensures Reliable() ==> err != Failed
    {
      calls := calls + 1;
      if fails(calls) {
        return Failed, 0;
      }
      if key !in store {
        return NotFound, 0;
      }
      return Ok, Size(store[key]);
    }

    method Get(key: string) returns (err: Err, blob: Blob)
      requires key in store
      modifies this`calls
      ensures err == Ok || err == Failed
      ensures err == Ok ==> blob == store[key]
      ensures Reliable() ==> err == Ok
    {
      calls := calls + 1;
      blob := store[key];
      err := if fails(calls) then Failed else Ok;
    }

    method Set(key: string, blob: Blob) returns (err: Err)
      modifies this`store, this`uncommitted, this`calls
      ensures err == Ok || err == Failed
      ensures store == if err == Ok then old(store)[key := blob] else old(store)
      ensures uncommitted == (old(uncommitted) || err == Ok)
      ensures Reliable() ==> err == Ok
    {
      calls := calls + 1;
      if fails(calls) {
        return Failed;
      }
      store, uncommitted := store[key := blob], true;
      return Ok;
    }

    method Erase(key: string) returns (err: Err)
      requires key in store
      modifies this`store, this`uncommitted, this`calls
      ensures err == Ok || err == Failed
      ensures store == if err == Ok then old(store) - {key} else old(store)
      ensures uncommitted == (old(uncommitted) || err == Ok)
      ensures Reliable() ==> err == Ok
    {
      calls := calls + 1;
      if fails(calls) {
        return Failed;
      }
      store, uncommitted := store - {key}, true;
      return Ok;
    }

    method Commit() returns (err: Err)
      modifies this`commits, this`uncommitted
      ensures commits == old(commits) + 1 && err == if commitFails(commits) then Failed else Ok
      ensures uncommitted == (old(uncommitted) && err != Ok)
    {
      commits := commits + 1;
      if commitFails(commits) {
        return Failed;
      }
      uncommitted := false;
      return Ok;
    }

    /** A record slot on its way to the current format: done, or untouched by a failing call. */
    method EntryToCurrent(key: string, index: uint16, stats: Stats) returns (ok: bool, tally: Stats)
      requires RealStore(store)
      modifies this`store, this`uncommitted, this`calls
      ensures RealStore(store)
      ensures store == if ok then Apply(old(store), Sec(key, index), true) else old(store)
      ensures ok ==> tally == Tally(stats, true, Lookup(old(store), key))
      ensures ok ==> tally.converted == Counted(stats.converted, Writes(Sec(key, index), true, Lookup(old(store), key)))
      ensures uncommitted == (old(uncommitted) || (ok && Writes(Sec(key, index), true, Lookup(old(store), key))))
      ensures Reliable() ==> ok
    {
      tally := stats;
      var err, size := GetSize(key);
      if err == NotFound {
        assert store - {key} == store;
        return true, tally;
      }
      if err != Ok {
        return false, tally;
      }
      tally := tally.(scanned := Inc(tally.scanned));
      if size == CURRENT_SIZE {
        assert store[key := store[key]] == store;
        return true, tally.(alreadyTarget := Inc(tally.alreadyTarget));
      }
      if size != V1_SIZE {
        assert store[key := store[key]] == store;
        return true, tally.(skipped := Inc(tally.skipped));
      }
      var blob;
      err, blob := Get(key);
      if err != Ok {
        return false, tally;
      }
      var r := blob.v1;
      err := Set(key, Current(SecCurrent(r.peerAddr, index, r.keySize, r.ediv, r.randNum, r.ltk, r.ltkPresent,
                                         r.irk, r.irkPresent, r.csrk, r.csrkPresent, 0, r.authenticated, r.sc)));
      if err != Ok {
        return false, tally;
      }
      return true, tally.(converted := Inc(tally.converted));
    }

    method EntryToV1(key: string, index: uint16, stats: Stats) returns (ok: bool, tally: Stats)
      requires RealStore(store)
      modifies this`store, this`uncommitted, this`calls
      ensures RealStore(store)
      ensures store == if ok then Apply(old(store), Sec(key, index), false) else old(store)
      ensures ok ==> tally == Tally(stats, false, Lookup(old(store), key))
      ensures ok ==>
                tally.converted == Counted(stats.converted, Writes(Sec(key, index), false, Lookup(old(store), key)))
      ensures uncommitted == (old(uncommitted) || (ok && Writes(Sec(key, index), false, Lookup(old(store), key))))
      ensures Reliable() ==> ok
    {
      tally := stats;
      var err, size := GetSize(key);
      if err == NotFound {
        assert store - {key} == store;
        return true, tally;
      }
      if err != Ok {
        return false, tally;
      }
      tally := tally.(scanned := Inc(tally.scanned));
      if size == V1_SIZE {
        assert store[key := store[key]] == store;
        return true, tally.(alreadyTarget := Inc(tally.alreadyTarget));
      }
      if size != CURRENT_SIZE {
        assert store[key := store[key]] == store;
        return true, tally.(skipped := Inc(tally.skipped));
      }
      var blob;
      err, blob := Get(key);
      if err != Ok {
        return false, tally;
      }
      var c := blob.current;
      err := Set(key, V1(SecV1(c.peerAddr, c.keySize, c.ediv, c.randNum, c.ltk, c.ltkPresent,
                               c.irk, c.irkPresent, c.csrk, c.csrkPresent, c.authenticated, c.sc)));
      if err != Ok {
        return false, tally;
      }
      return true, tally.(converted := Inc(tally.converted));
    }

    /** Whatever was there, the fixed local key is written. */
    method LocalIrkToCurrent(key: string, stats: Stats) returns (ok: bool, tally: Stats)
      requires RealStore(store)
      modifies this`store, this`uncommitted, this`calls
      ensures RealStore(store)
      ensures store == if ok then Apply(old(store), SetIrk(key), true) else old(store)
      ensures ok ==> tally.converted == Counted(stats.converted, Writes(SetIrk(key), true, Lookup(old(store), key)))
      ensures ok ==>
                var b := Lookup(old(store), key);
                && tally.scanned == Counted(stats.scanned, b.Some?) && tally.alreadyTarget == stats.alreadyTarget
                && tally.skipped == Counted(stats.skipped, b.Some? && !LocalIrkSize(Size(b.value)))
      ensures uncommitted == (old(uncommitted) || (ok && Writes(SetIrk(key), true, Lookup(old(store), key))))
      ensures Reliable() ==> ok
    {
      tally := stats;
      var err, size := GetSize(key);
      if err == NotFound {
        size := 0;
      } else if err != Ok {
        return false, tally;
      } else {
        tally := tally.(scanned := Inc(tally.scanned));
      }
      if size != 0 && size != LOCAL_IRK_CURRENT_SIZE && size != LOCAL_IRK_V1_SIZE {
        tally := tally.(skipped := Inc(tally.skipped));
      }
      err := Set(key, Other(LocalIrkBytes()));
      if err != Ok {
        return false, tally;
      }
      return true, tally.(converted := Inc(tally.converted));
    }

    method LocalIrkToV1(key: string, stats: Stats) returns (ok: bool, tally: Stats)
      requires RealStore(store)
      modifies this`store, this`uncommitted, this`calls
      ensures RealStore(store)
      ensures store == if ok then Apply(old(store), EraseIrk(key), false) else old(store)
      ensures ok ==> tally.converted == Counted(stats.converted, Writes(EraseIrk(key), false, Lookup(old(store), key)))
      ensures ok ==>
                && tally.scanned == Counted(stats.scanned, Lookup(old(store), key).Some?)
                && tally.alreadyTarget == stats.alreadyTarget && tally.skipped == stats.skipped
      ensures uncommitted == (old(uncommitted) || (ok && Writes(EraseIrk(key), false, Lookup(old(store), key))))
      ensures Reliable() ==> ok
    {
      tally := stats;
      var err, size := GetSize(key);
      if err == NotFound {
        assert store - {key} == store;
        return true, tally;
      }
      if err != Ok {
        return false, tally;
      }
      tally := tally.(scanned := Inc(tally.scanned));
      err := Erase(key);
      if err != Ok {
        return false, tally;
      }
      return true, tally.(converted := Inc(tally.converted));
    }

    method Entry(toCurrent: bool, key: string, index: uint16, stats: Stats) returns (ok: bool, tally: Stats)
      requires RealStore(store)
      modifies this`store, this`uncommitted, this`calls
      ensures RealStore(store)
      ensures store == if ok then Apply(old(store), Sec(key, index), toCurrent) else old(store)
      ensures ok ==> tally == Tally(stats, toCurrent, Lookup(old(store), key))
      ensures ok ==>
                tally.converted == Counted(stats.converted, Writes(Sec(key, index), toCurrent, Lookup(old(store), key)))
      ensures uncommitted == (old(uncommitted) || (ok && Writes(Sec(key, index), toCurrent, Lookup(old(store), key))))
      ensures Reliable() ==> ok
    {
      hide RealStore, Apply, Tally, Writes;
      if toCurrent {
        ok, tally := EntryToCurrent(key, index, stats);
      } else {
        ok, tally := EntryToV1(key, index, stats);
      }
    }

    /** The first done tasks of ts are carried out: the store shows their effects, the counter
        their number of writes, and something is uncommitted if they wrote or it was before. */
    ghost predicate Done(s: Store, was: bool, ts: seq<Task>, done: nat, toCurrent: bool, stats: Stats)
      reads this
    {
      && RealStore(store) && done <= |ts|
      && store == ApplyAll(s, ts[..done], toCurrent)
      && stats.converted == WriteCount(s, ts[..done], toCurrent) % 0x1_0000
      && uncommitted == (was || WriteCount(s, ts[..done], toCurrent) > 0)
    }

    /** The same before anything is done. */
    lemma NothingDone(ts: seq<Task>, toCurrent: bool, stats: Stats)
      requires RealStore(store) && stats.converted == 0
      ensures Done(store, uncommitted, ts, 0, toCurrent, stats)
    {
    }

    /** One of the security tasks. */
    method SecuritySlot(ghost s: Store, ghost was: bool, ghost ts: seq<Task>, ghost done: nat, toCurrent: bool,
                        prefix: string, i: uint16, stats: Stats)
      returns (ok: bool, tally: Stats)
      requires done < |ts| && DistinctKeys(ts) && IsPrefix(prefix) && ts[done] == Sec(Key(prefix, i), i)
      requires Done(s, was, ts, done, toCurrent, stats)
      modifies this`store, this`uncommitted, this`calls
      ensures ok ==> Done(s, was, ts, done + 1, toCurrent, tally)
      ensures !ok ==> Done(s, was, ts, done, toCurrent, stats)
      ensures Reliable() ==> ok
    {
      hide RealStore, Apply, ApplyAll, Tally, Key, Writes, WriteCount;
      NextTask(s, ts, done, toCurrent);
      var key;
      key, ok := MakeBondKey(prefix, i);
      tally := stats;
      if ok {
        ok, tally := Entry(toCurrent, key, i, stats);
      }
    }

    /** The loop over the security slots: all of them done, or a first part of them. */
    method SecuritySlots(ghost s: Store, ghost was: bool, ghost ts: seq<Task>, toCurrent: bool, maxEntries: uint16,
                         stats: Stats)
      returns (ok: bool, tally: Stats, ghost done: nat)
      requires maxEntries < 0xFFFF && SecTasks(maxEntries) <= ts && DistinctKeys(ts)
      requires Done(s, was, ts, 0, toCurrent, stats)
      modifies this`store, this`uncommitted, this`calls
      ensures Done(s, was, ts, done, toCurrent, tally)
      ensures ok ==> done == |SecTasks(maxEntries)|
      ensures Reliable() ==> ok
    {
      hide Done, SecTasks, Key, DistinctKeys;
      tally, done := stats, 0;
      var i: uint16 := 1;
      SecTaskCount(maxEntries);
      while i <= maxEntries
        invariant 1 <= i <= maxEntries + 1 && done == 2 * (i - 1)
        invariant Done(s, was, ts, done, toCurrent, tally)
        decreases maxEntries - i
      {
        SecTaskAt(maxEntries, done);
        SecTaskAt(maxEntries, done + 1);
        var next;
        ok, next := SecuritySlot(s, was, ts, done, toCurrent, OUR_SEC, i, tally);
        if !ok {
          return;
        }
        tally, done := next, done + 1;
        ok, next := SecuritySlot(s, was, ts, done, toCurrent, PEER_SEC, i, tally);
        if !ok {
          return;
        }
        tally, done := next, done + 1;
        i := i + 1;
      }
      ok := true;
    }

    /** The local key on the way to the current format. */
    method SetLocalIrk(ghost s: Store, ghost was: bool, ghost ts: seq<Task>, ghost done: nat, stats: Stats)
      returns (ok: bool, tally: Stats)
      requires done < |ts| && DistinctKeys(ts) && ts[done] == SetIrk(Key(LOCAL_IRK, 1))
      requires Done(s, was, ts, done, true, stats)
      modifies this`store, this`uncommitted, this`calls
      ensures ok ==> Done(s, was, ts, done + 1, true, tally)
      ensures !ok ==> Done(s, was, ts, done, true, stats)
      ensures Reliable() ==> ok
    {
      hide RealStore, Apply, ApplyAll, Key, Writes, WriteCount;
      NextTask(s, ts, done, true);
      var key;
      key, ok := MakeBondKey(LOCAL_IRK, 1);
      tally := stats;
      if ok {
        ok, tally := LocalIrkToCurrent(key, stats);
      }
    }

    method EraseLocalIrk(ghost s: Store, ghost was: bool, ghost ts: seq<Task>, ghost done: nat, i: uint16, stats: Stats)
      returns (ok: bool, tally: Stats)
      requires done < |ts| && DistinctKeys(ts) && ts[done] == EraseIrk(Key(LOCAL_IRK, i))
      requires Done(s, was, ts, done, false, stats)
      modifies this`store, this`uncommitted, this`calls
      ensures ok ==> Done(s, was, ts, done + 1, false, tally)
      ensures !ok ==> Done(s, was, ts, done, false, stats)
      ensures Reliable() ==> ok
    {
      hide RealStore, Apply, ApplyAll, Key, Writes, WriteCount;
      NextTask(s, ts, done, false);
      var key;
      key, ok := MakeBondKey(LOCAL_IRK, i);
      tally := stats;
      if ok {
        ok, tally := LocalIrkToV1(key, stats);
      }
    }

    /** The loop that erases local keys on the way back to v1. */
    method EraseLocalIrks(ghost s: Store, ghost was: bool, ghost ts: seq<Task>, ghost first: nat, maxEntries: uint16,
                          stats: Stats)
      returns (ok: bool, tally: Stats, ghost done: nat)
      requires maxEntries < 0xFFFF && DistinctKeys(ts) && first <= |ts| && ts[first..] == EraseTasks(maxEntries)
      requires Done(s, was, ts, first, false, stats)
      modifies this`store, this`uncommitted, this`calls
      ensures Done(s, was, ts, done, false, tally)
      ensures ok ==> done == |ts|
      ensures Reliable() ==> ok
    {
      hide Done, EraseTasks, Key, DistinctKeys;
      tally, done := stats, first;
      var i: uint16 := 1;
      EraseTaskCount(maxEntries);
      while i <= maxEntries
        invariant 1 <= i <= maxEntries + 1 && done == first + i - 1
        invariant Done(s, was, ts, done, false, tally)
        decreases maxEntries - i
      {
        EraseTaskAt(maxEntries, i - 1);
        assert ts[done] == ts[first..][i - 1];
        var next;
        ok, next := EraseLocalIrk(s, was, ts, done, i, tally);
        if !ok {
          return;
        }
        tally, done := next, done + 1;
        i := i + 1;
      }
      ok := true;
    }

    /** All the work of a run, in order, until a call fails. */
    method DoTasks(toCurrent: bool, maxEntries: uint16) returns (ok: bool, tally: Stats, ghost done: nat)
      requires RealStore(store) && maxEntries < 0xFFFF
      modifies this`store, this`uncommitted, this`calls
      ensures Done(old(store), old(uncommitted), Tasks(toCurrent, maxEntries), done, toCurrent, tally)
      ensures ok ==> done == |Tasks(toCurrent, maxEntries)|
      ensures Reliable() ==> ok
    {
      hide Done, SecTasks, EraseTasks, Key, DistinctKeys, RealStore;
      ghost var ts, s, was := Tasks(toCurrent, maxEntries), store, uncommitted;
      TasksAreDistinct(toCurrent, maxEntries);
      tally := Stats(0, 0, 0, 0);
      NothingDone(ts, toCurrent, tally);
      ok, tally, done := SecuritySlots(s, was, ts, toCurrent, maxEntries, tally);
      if !ok {
        return;
      }
      if toCurrent {
        var next;
        ok, next := SetLocalIrk(s, was, ts, done, tally);
        if ok {
          tally, done := next, done + 1;
        }
      } else {
        assert ts[done..] == EraseTasks(maxEntries);
        ok, tally, done := EraseLocalIrks(s, was, ts, done, maxEntries, tally);
      }
    }

    /** The whole migration. Success means every task was done; any failure leaves a first part
        of them done, so that running again completes the same store. Whether something is left
        uncommitted is told exactly: a successful run commits if and only if the number of its
        writes is not a multiple of 65536, nothing to write included. Every path closes the
        handle it opened. */
    method MigrateBondStore(toCurrent: bool, maxEntries: uint16) returns (ok: bool, ghost done: nat)
      requires RealStore(store) && maxEntries < 0xFFFF
      modifies this
      ensures RealStore(store) && handles == old(handles)
      ensures ok ==> store == ApplyAll(old(store), Tasks(toCurrent, maxEntries), toCurrent)
      ensures done <= |Tasks(toCurrent, maxEntries)|
      ensures store == ApplyAll(old(store), Tasks(toCurrent, maxEntries)[..done], toCurrent)
      ensures ApplyAll(store, Tasks(toCurrent, maxEntries), toCurrent)
              == ApplyAll(old(store), Tasks(toCurrent, maxEntries), toCurrent)
      ensures var all := WriteCount(old(store), Tasks(toCurrent, maxEntries), toCurrent);
              ok ==> (uncommitted <==> all % 0x1_0000 == 0 && (old(uncommitted) || all > 0))
      ensures !ok ==>
                (uncommitted <==> old(uncommitted)
                                  || WriteCount(old(store), Tasks(toCurrent, maxEntries)[..done], toCurrent) > 0)
      ensures var all := WriteCount(old(store), Tasks(toCurrent, maxEntries), toCurrent);
              Reliable() ==>
                && done == |Tasks(toCurrent, maxEntries)|
                && commits == old(commits) + One(all % 0x1_0000 != 0)
                && ok == (all % 0x1_0000 != 0 ==> !commitFails(commits))
    {
      hide ApplyAll, Tasks, WriteCount, RealStore;
      ghost var ts := Tasks(toCurrent, maxEntries);
      var gotHandle := Open();
      if !gotHandle {
        NoTasks(store, toCurrent);
        MigrationIsRestartable(store, toCurrent, maxEntries, 0);
        NothingWritten(store, ts, toCurrent);
        return false, 0;
      }
      var stats;
      ok, stats, done := DoTasks(toCurrent, maxEntries);
      MigrationIsRestartable(old(store), toCurrent, maxEntries, done);
      assert ok ==> ts[..done] == ts;
      if ok && stats.converted > 0 {
        var err := Commit();
        ok := err == Ok;
      }
      Close();
    }
  }

  lemma NothingWritten(s: Store, ts: seq<Task>, toCurrent: bool)
    ensures WriteCount(s, ts[..0], toCurrent) == 0
  {
  }

  /** A first run that does all its work but cannot commit, and a second one that succeeds: it
      finds nothing to write, never commits, and leaves the first run's writes uncommitted. */
  method RerunNeverCommits(nvs: Nvs, maxEntries: uint16) returns (first: bool, second: bool)
    requires RealStore(nvs.store) && maxEntries < 0xFFFF && nvs.Reliable()
    requires WriteCount(nvs.store, Tasks(false, maxEntries), false) % 0x1_0000 != 0
    requires nvs.commitFails(nvs.commits + 1)
    modifies nvs
    ensures !first && second && nvs.uncommitted
    ensures nvs.store == ApplyAll(old(nvs.store), Tasks(false, maxEntries), false)
  {
    hide ApplyAll, Tasks, WriteCount, RealStore;
    ghost var ts, done := Tasks(false, maxEntries), 0;
    first, done := nvs.MigrateBondStore(false, maxEntries);
    assert ts[..|ts|] == ts;
    NothingLeftToWrite(old(nvs.store), maxEntries, |ts|);
    MigrationIsRestartable(old(nvs.store), false, maxEntries, |ts|);
    second, done := nvs.MigrateBondStore(false, maxEntries);
  }

  /** Such a store: one current record and a first commit that fails. */
  method UncommittedRerun(record: SecCurrent) returns (nvs: Nvs, first: bool, second: bool)
    ensures !first && second && nvs.uncommitted
    ensures nvs.store == map[Key(OUR_SEC, 1) := V1(ToV1(record))]
  {
    hide Key;
    nvs := new Nvs(map[Key(OUR_SEC, 1) := Current(record)], n => false, n => n == 1);
    OneRecord(record);
    first, second := RerunNeverCommits(nvs, 1);
  }

  lemma OneRecord(record: SecCurrent)
    ensures var s: Store := map[Key(OUR_SEC, 1) := Current(record)];
            && WriteCount(s, Tasks(false, 1), false) == 1
            && ApplyAll(s, Tasks(false, 1), false) == map[Key(OUR_SEC, 1) := V1(ToV1(record))]
  {
    hide Key, ApplyAll, WriteCount, Apply;
    var s: Store := map[Key(OUR_SEC, 1) := Current(record)];
    var t: Store := map[Key(OUR_SEC, 1) := V1(ToV1(record))];
    var a, b, c := Sec(Key(OUR_SEC, 1), 1), Sec(Key(PEER_SEC, 1), 1), EraseIrk(Key(LOCAL_IRK, 1));
    OtherKeys();
    assert Tasks(false, 1) == [a, b, c] by {
      assert SecTasks(0) == [] && EraseTasks(0) == [];
    }
    ThreeTasks(s, a, b, c, false);
    assert Apply(s, a, false) == t by {
      OneRecordStep(s, a, t);
    }
    OneRecordStep(t, b, t);
    OneRecordStep(t, c, t);
  }

  /** What one task of a migration to v1 makes of a store that holds it or has nothing there. */
  lemma OneRecordStep(s: Store, t: Task, after: Store)
    requires !t.SetIrk? && (t.key !in s || (t.Sec? && s[t.key].Current?))
    requires after == if t.key in s then s[t.key := V1(ToV1(s[t.key].current))] else s
    ensures Apply(s, t, false) == after
  {
    if t.key !in s {
      assert s - {t.key} == s;
    }
  }

  lemma ThreeTasks(s: Store, a: Task, b: Task, c: Task, toCurrent: bool)
    ensures ApplyAll(s, [a, b, c], toCurrent) == Apply(Apply(Apply(s, a, toCurrent), b, toCurrent), c, toCurrent)
    ensures WriteCount(s, [a, b, c], toCurrent)
            == One(Writes(a, toCurrent, Lookup(s, a.key))) + One(Writes(b, toCurrent, Lookup(s, b.key)))
               + One(Writes(c, toCurrent, Lookup(s, c.key)))
  {
    hide Apply, Writes;
    assert [a, b, c][..2] == [a, b] && [a, b][..1] == [a] && [a][..0] == [];
    assert ApplyAll(s, [a], toCurrent) == Apply(s, a, toCurrent);
    assert ApplyAll(s, [a, b], toCurrent) == Apply(Apply(s, a, toCurrent), b, toCurrent);
    TwoTasks(s, a, b, toCurrent);
  }

  lemma OtherKeys()
    ensures Key(PEER_SEC, 1) != Key(OUR_SEC, 1) && Key(LOCAL_IRK, 1) != Key(OUR_SEC, 1)
  {
    assert Key(PEER_SEC, 1)[0] == 'p' && Key(OUR_SEC, 1)[0] == 'o' && Key(LOCAL_IRK, 1)[0] == 'l';
  }

  lemma NoTasks(s: Store, toCurrent: bool)
    ensures forall ts: seq<Task> :: ApplyAll(s, ts[..0], toCurrent) == s
  {
  }

  lemma NextTask(s: Store, ts: seq<Task>, k: nat, toCurrent: bool)
    requires k < |ts| && DistinctKeys(ts)
    ensures ApplyAll(s, ts[..k + 1], toCurrent) == Apply(ApplyAll(s, ts[..k], toCurrent), ts[k], toCurrent)
    ensures WriteCount(s, ts[..k + 1], toCurrent)
            == WriteCount(s, ts[..k], toCurrent)
               + One(Writes(ts[k], toCurrent, Lookup(ApplyAll(s, ts[..k], toCurrent), ts[k].key)))
  {
    hide Apply, Writes;
    assert ts[..k + 1][..k] == ts[..k];
    WriteCountStep(s, ts, k, toCurrent);
    NotReachedYet(s, ts, k, toCurrent);
  }
}
