/** The scan engine on the heap: an intrusive singly linked waiting list through the stored
    devices (a device pointing to itself is off the list), the result vector that owns them,
    and the scan-response timer. Every handler is proved to do what ScanSpec says. */
module Scan {
  import opened Bits
  import Spec = ScanSpec

  class Device {
    const addr: int
    const advType: nat
    var time: uint32
    var sent: nat
    var next: Device?
    ghost var stamp: nat

    /** A new device points to itself: not in the list. */
    constructor (addr: int, advType: nat, now: nat)
      ensures next == this && sent == 0
      ensures this.addr == addr && this.advType == advType
      ensures stamp == now && time == now % Spec.CLOCK_MODULUS
    {
      this.addr, this.advType := addr, advType;
      time, sent, stamp := now % Spec.CLOCK_MODULUS, 0, now;
      next := this;
    }

    ghost function View(): Spec.Dev
      reads this`stamp, this`sent
    {
      Spec.Dev(advType, stamp, sent)
    }

    method Restamp(now: nat)
      modifies this`time, this`stamp
      ensures stamp == now && time == now % Spec.CLOCK_MODULUS
    {
      time, stamp := now % Spec.CLOCK_MODULUS, now;
    }
  }

  datatype Timer = Idle | Armed(ticks: nat)

  ghost function Addrs(devices: seq<Device>): (a: seq<int>)
    ensures |a| == |devices|
  {
    seq(|devices|, i requires 0 <= i < |devices| => devices[i].addr)
  }

  ghost function IndexIn(devices: seq<Device>, d: Device): (k: nat)
    requires d in devices
    ensures k < |devices| && devices[k] == d
  {
    var k :| 0 <= k < |devices| && devices[k] == d;
    k
  }

  lemma AddrsAppend(devices: seq<Device>, d: Device)
    ensures Addrs(devices + [d]) == Addrs(devices) + [d.addr]
  {
  }

  /** A vector of distinct devices minus one: what is in it, and that it stays distinct. */
  lemma VectorWithout(devices: seq<Device>, k: nat)
    requires k < |devices| && Spec.Distinct(devices) && Injective(devices)
    ensures var rest := devices[..k] + devices[k + 1..];
            && Spec.Distinct(rest) && Injective(rest)
            && rest == Spec.Remove(devices, devices[k])
            && Addrs(rest) == Spec.Remove(Addrs(devices), devices[k].addr)
            && (forall d :: d in rest <==> d in devices && d != devices[k])
            && (forall i :: 0 <= i < |rest| ==> rest[i].addr != devices[k].addr)
  {
    Spec.RemoveAt(devices, k);
    MembersWithout(devices, k);
    AddrsRemove(devices, devices[k]);
    RestInjective(devices, k);
  }

  lemma RestInjective(devices: seq<Device>, k: nat)
    requires k < |devices| && Spec.Distinct(devices) && Injective(devices)
    ensures var rest := devices[..k] + devices[k + 1..];
            && Spec.Distinct(rest) && Injective(rest)
            && forall i :: 0 <= i < |rest| ==> rest[i].addr != devices[k].addr
  {
    var rest := devices[..k] + devices[k + 1..];
    assert forall i :: 0 <= i < |rest| ==> rest[i] == devices[if i < k then i else i + 1];
  }

  lemma AddrsElsewhere(devices: seq<Device>, k: nat, a: int)
    requires k < |devices| && a in Addrs(devices) && a != devices[k].addr
    ensures a in Addrs(devices[..k] + devices[k + 1..])
  {
    var j :| 0 <= j < |devices| && Addrs(devices)[j] == a;
    assert Addrs(devices[..k] + devices[k + 1..])[if j < k then j else j - 1] == a;
  }

  lemma MembersWithout(devices: seq<Device>, k: nat)
    requires k < |devices| && Spec.Distinct(devices)
    ensures forall d :: d in devices[..k] + devices[k + 1..] <==> d in devices && d != devices[k]
  {
    Spec.RemoveAt(devices, k);
    Spec.RemoveFacts(devices, devices[k]);
  }

  /** No two devices among these share an address. */
  ghost predicate Injective(devices: seq<Device>) {
    forall i, j :: 0 <= i < j < |devices| ==> devices[i].addr != devices[j].addr
  }

  lemma {:induction false} AddrsRemove(w: seq<Device>, d: Device)
    requires forall i :: 0 <= i < |w| && w[i].addr == d.addr ==> w[i] == d
    ensures Addrs(Spec.Remove(w, d)) == Spec.Remove(Addrs(w), d.addr)
    ensures d in w <==> d.addr in Addrs(w)
  {
    if w != [] {
      AddrsRemove(w[1..], d);
      assert Addrs(w)[0] == w[0].addr;
      assert Addrs(w[1..]) == Addrs(w)[1..];
      assert w == [w[0]] + w[1..];
      if w[0] != d {
        var r := Spec.Remove(w[1..], d);
        assert Addrs([w[0]] + r) == [w[0].addr] + Addrs(r);
        assert Addrs(w) == [w[0].addr] + Addrs(w[1..]);
      }
    }
  }

  /** Devices of one vector with distinct addresses are told apart by them. */
  lemma SameAddressSameDevice(results: seq<Device>, d: Device, e: Device)
    requires Injective(results) && d in results && e in results && d.addr == e.addr
    ensures d == e
  {
    var i :| 0 <= i < |results| && results[i] == d;
    var j :| 0 <= j < |results| && results[j] == e;
  }

  /** The next-pointer of every stored device. */
  ghost function NextMap(repr: set<Device>): (m: map<Device, Device?>)
    reads repr`next
  {
    map d | d in repr :: d.next
  }

  /** The list runs null-terminated from head to tail through waiting, without repeats,
      inside the result vector; a stored device points to itself iff it is off the list. */
  ghost predicate LinkedBy(m: map<Device, Device?>, results: seq<Device>, waiting: seq<Device>, head: Device?,
                           tail: Device?)
  {
    && Spec.Distinct(results)
    && Spec.Distinct(waiting)
    && (forall d :: d in m ==> d in results)
    && (forall i :: 0 <= i < |results| ==> results[i] in m)
    && (forall i :: 0 <= i < |waiting| ==> waiting[i] in m)
    && (waiting == [] ==> head == null && tail == null)
    && (waiting != [] ==> head == waiting[0] && tail == waiting[|waiting| - 1] && m[waiting[|waiting| - 1]] == null)
    && (forall i :: 0 <= i < |waiting| - 1 ==> m[waiting[i]] == waiting[i + 1])
    && (forall d :: d in m ==> (m[d] == d <==> d !in waiting))
  }

  ghost predicate Linked(repr: set<Device>, results: seq<Device>, waiting: seq<Device>, head: Device?, tail: Device?)
    reads repr`next
  {
    LinkedBy(NextMap(repr), results, waiting, head, tail)
  }

  /** What the list structure says about one stored device. */
  lemma LinkFacts(m: map<Device, Device?>, results: seq<Device>, w: seq<Device>, head: Device?, tail: Device?,
                  d: Device)
    requires LinkedBy(m, results, w, head, tail) && d in results
    ensures d in m && (m[d] == d <==> d !in w)
    ensures head == d <==> w != [] && w[0] == d
    ensures tail == null <==> w == []
    ensures w != [] ==> tail == w[|w| - 1] && tail in m
    ensures Spec.Distinct(w) && Spec.Distinct(results)
  {
  }

  lemma EmptyLinks(m: map<Device, Device?>)
    requires m == map[]
    ensures LinkedBy(m, [], [], null, null)
  {
  }

  lemma EmptyEnds(m: map<Device, Device?>, results: seq<Device>, w: seq<Device>, head: Device?, tail: Device?)
    requires LinkedBy(m, results, w, head, tail)
    ensures head == null <==> w == []
    ensures tail == null <==> w == []
  {
  }

  // Pure link surgery: what each pointer update does to the list.

  lemma AppendLinks(m: map<Device, Device?>, results: seq<Device>, w: seq<Device>, head: Device?, tail: Device?,
                    d: Device)
    requires LinkedBy(m, results, w, head, tail) && d in m && d !in w
    ensures w == [] ==> LinkedBy(m[d := null], results, [d], d, d)
    ensures w != [] ==> LinkedBy(m[d := null][w[|w| - 1] := d], results, w + [d], head, d)
  {
    if w != [] {
      var n := m[d := null][w[|w| - 1] := d];
      forall i | 0 <= i < |w|
        ensures n[(w + [d])[i]] == (w + [d])[i + 1]
      {
      }
    }
  }

  lemma UnlinkHeadLinks(m: map<Device, Device?>, results: seq<Device>, w: seq<Device>, head: Device?, tail: Device?)
    requires LinkedBy(m, results, w, head, tail) && w != []
    ensures w[0] in m && head == w[0] && (m[w[0]] == null <==> |w| == 1)
    ensures LinkedBy(m[w[0] := w[0]], results, w[1..], m[w[0]], if |w| == 1 then null else tail)
  {
    HeadChain(m, w);
    HeadSelf(m, w);
  }

  /** The chain part of taking off the head. */
  lemma HeadChain(m: map<Device, Device?>, w: seq<Device>)
    requires w != [] && Spec.Distinct(w)
    requires forall i :: 0 <= i < |w| ==> w[i] in m
    requires forall i :: 0 <= i < |w| - 1 ==> m[w[i]] == w[i + 1]
    requires m[w[|w| - 1]] == null
    ensures m[w[0]] == null <==> |w| == 1
    ensures var (n, r) := (m[w[0] := w[0]], w[1..]);
            && (forall i :: 0 <= i < |r| ==> r[i] in n)
            && (forall i :: 0 <= i < |r| - 1 ==> n[r[i]] == r[i + 1])
            && (r != [] ==> m[w[0]] == r[0] && n[r[|r| - 1]] == null)
  {
    var n, r := m[w[0] := w[0]], w[1..];
    if |w| > 1 {
      assert m[w[0]] == w[1];
    }
    forall i | 0 <= i < |r|
      ensures r[i] in n && n[r[i]] == if i < |r| - 1 then r[i + 1] else null
    {
      assert r[i] == w[i + 1] && w[i + 1] != w[0];
    }
  }

  /** The self-pointer part: exactly the old head joins those off the list. */
  lemma HeadSelf(m: map<Device, Device?>, w: seq<Device>)
    requires w != [] && Spec.Distinct(w)
    requires forall d :: d in m ==> (m[d] == d <==> d !in w)
    ensures Spec.Distinct(w[1..])
    ensures var (n, r) := (m[w[0] := w[0]], w[1..]); forall d :: d in n ==> (n[d] == d <==> d !in r)
  {
    assert w[..0] + w[1..] == w[1..];
    MembersWithout(w, 0);
  }

  /** The chain part of linking around w[k]. */
  lemma InnerChain(m: map<Device, Device?>, w: seq<Device>, k: nat, n: map<Device, Device?>, r: seq<Device>)
    requires 0 < k < |w| && Spec.Distinct(w)
    requires forall i :: 0 <= i < |w| ==> w[i] in m
    requires forall i :: 0 <= i < |w| - 1 ==> m[w[i]] == w[i + 1]
    requires m[w[|w| - 1]] == null
    requires n == m[w[k - 1] := m[w[k]]][w[k] := w[k]] && r == w[..k] + w[k + 1..]
    ensures forall j :: 0 <= j < |r| ==> r[j] in n
    ensures forall j :: 0 <= j < |r| - 1 ==> n[r[j]] == r[j + 1]
    ensures n[r[|r| - 1]] == null
  {
    forall i | 0 <= i < |w| && i != k - 1 && i != k
      ensures n[w[i]] == m[w[i]]
    {
    }
    assert n[w[k - 1]] == m[w[k]];
    hide Spec.Distinct;
    forall j | 0 <= j < |r|
      ensures n[r[j]] == if j < |r| - 1 then r[j + 1] else null
    {
      var i := if j < k then j else j + 1;
      assert r[j] == w[i];
      assert i == k - 1 && k < |w| - 1 ==> m[w[k]] == w[k + 1];
      assert i != k - 1 && i < |w| - 1 ==> m[w[i]] == w[i + 1];
    }
  }

  /** The self-pointer part: exactly w[k] joins those off the list. */
  lemma InnerSelf(m: map<Device, Device?>, w: seq<Device>, k: nat, n: map<Device, Device?>, r: seq<Device>)
    requires 0 < k < |w| && Spec.Distinct(w)
    requires w[k - 1] in m && w[k] in m && m[w[k]] != w[k - 1]
    requires forall d :: d in m ==> (m[d] == d <==> d !in w)
    requires n == m[w[k - 1] := m[w[k]]][w[k] := w[k]] && r == w[..k] + w[k + 1..]
    ensures forall d :: d in n ==> (n[d] == d <==> d !in r)
  {
    MembersWithout(w, k);
    assert w[k - 1] != w[k];
  }

  lemma UnlinkInnerLinks(m: map<Device, Device?>, results: seq<Device>, w: seq<Device>, head: Device?, tail: Device?,
                         k: nat)
    requires LinkedBy(m, results, w, head, tail) && 0 < k < |w|
    ensures w[k - 1] in m && w[k] in m && (tail == w[k] <==> k == |w| - 1)
    ensures LinkedBy(m[w[k - 1] := m[w[k]]][w[k] := w[k]], results, w[..k] + w[k + 1..], head,
                     if k == |w| - 1 then w[k - 1] else tail)
  {
    var n, r := m[w[k - 1] := m[w[k]]][w[k] := w[k]], w[..k] + w[k + 1..];
    InnerNeighbours(m, results, w, head, tail, k);
    assert Spec.Distinct(r) by {
      Spec.RemoveAt(w, k);
      Spec.RemoveFacts(w, w[k]);
    }
    hide Spec.Distinct;
    InnerChain(m, w, k, n, r);
    InnerSelf(m, w, k, n, r);
    assert r[0] == w[0] && r[|r| - 1] == if k == |w| - 1 then w[k - 1] else w[|w| - 1];
  }

  lemma InnerNeighbours(m: map<Device, Device?>, results: seq<Device>, w: seq<Device>, head: Device?, tail: Device?,
                        k: nat)
    requires LinkedBy(m, results, w, head, tail) && 0 < k < |w|
    ensures w[k - 1] in m && w[k] in m && m[w[k]] != w[k - 1]
    ensures tail == w[k] <==> k == |w| - 1
  {
    assert k < |w| - 1 ==> m[w[k]] == w[k + 1] && w[k + 1] != w[k - 1];
    assert k < |w| - 1 ==> w[|w| - 1] != w[k];
  }

  lemma StoreLinks(m: map<Device, Device?>, results: seq<Device>, w: seq<Device>, head: Device?, tail: Device?,
                   d: Device)
    requires LinkedBy(m, results, w, head, tail) && d !in results
    ensures LinkedBy(m[d := d], results + [d], w, head, tail)
  {
    assert d !in m;
    assert forall i :: 0 <= i < |w| ==> w[i] in m;
    assert d !in w;
  }

  lemma DropLinks(m: map<Device, Device?>, results: seq<Device>, w: seq<Device>, head: Device?, tail: Device?, k: nat)
    requires LinkedBy(m, results, w, head, tail) && k < |results| && results[k] !in w
    ensures LinkedBy(m - {results[k]}, results[..k] + results[k + 1..], w, head, tail)
  {
    hide Spec.Distinct;
    var rest := results[..k] + results[k + 1..];
    RestDistinct(results, k);
    assert forall i :: 0 <= i < |rest| ==> rest[i] in rest;
    assert forall i :: 0 <= i < |w| ==> w[i] in w;
  }

  lemma RestDistinct(devices: seq<Device>, k: nat)
    requires k < |devices| && Spec.Distinct(devices)
    ensures var rest := devices[..k] + devices[k + 1..];
            Spec.Distinct(rest) && forall d :: d in rest <==> d in devices && d != devices[k]
  {
    MembersWithout(devices, k);
  }

  /** The clock wraps, its differences do not notice. */
  lemma ClockDifference(stamp: nat)
    ensures forall now: nat ::
              (now % Spec.CLOCK_MODULUS - stamp % Spec.CLOCK_MODULUS) % Spec.CLOCK_MODULUS == Spec.Elapsed(stamp, now)
  {
    forall now: nat
      ensures (now % Spec.CLOCK_MODULUS - stamp % Spec.CLOCK_MODULUS) % Spec.CLOCK_MODULUS == Spec.Elapsed(stamp, now)
    {
      ClockDifferenceAt(stamp, now);
    }
  }

  lemma ClockDifferenceAt(stamp: nat, now: nat)
    ensures (now % Spec.CLOCK_MODULUS - stamp % Spec.CLOCK_MODULUS) % Spec.CLOCK_MODULUS == Spec.Elapsed(stamp, now)
  {
    var m := Spec.CLOCK_MODULUS;
    assert now - stamp == m * (now / m - stamp / m) + (now % m - stamp % m);
  }

  /** order and info describe the result vector. */
  ghost predicate Described(repr: set<Device>, results: seq<Device>, order: seq<int>, info: map<int, Spec.Dev>)
    reads repr`time, repr`sent, repr`stamp
  {
    && (forall i :: 0 <= i < |results| ==> results[i] in repr)
    && order == Addrs(results)
    && Injective(results)
    && (forall a :: a in info ==> a in order)
    && (forall i :: 0 <= i < |results| ==> results[i].addr in info && info[results[i].addr] == results[i].View())
    && (forall i :: 0 <= i < |results| ==> results[i].time == results[i].stamp % Spec.CLOCK_MODULUS)
  }

  /** d is first in line and others wait behind it: the one case in which a removal sets the timer. */
  ghost predicate HeadLeaves(w: seq<Device>, d: Device) {
    |w| > 1 && w[0] == d
  }

  class Scanner {
    const maxResults: nat
    const passive: bool
    const timeoutTicks: uint32
    const calloutOk: bool
    var results: seq<Device>
    var head: Device?
    var tail: Device?
    var timerInitialized: bool
    var timer: Timer
    ghost var waiting: seq<Device>
    ghost var repr: set<Device>
    ghost var view: Spec.State

    ghost function Cfg(): Spec.Config {
      Spec.Config(maxResults, passive, timeoutTicks)
    }

    ghost predicate ListValid()
      reads this`repr, this`results, this`waiting, this`head, this`tail, repr`next
    {
      Linked(repr, results, waiting, head, tail)
    }

    /** view tells the same story as the heap. */
    ghost predicate ViewValid()
      reads this`repr, this`results, this`waiting, this`view, repr`time, repr`sent, repr`stamp
    {
      && view.waiting == Addrs(waiting)
      && Described(repr, results, view.order, view.info)
    }

    ghost predicate Valid()
      reads this, repr
    {
      ListValid() && ViewValid()
    }

    /** While scanning actively with a timeout, someone waiting means the timer is running. */
    ghost predicate Covered()
      reads this
    {
      !passive && timeoutTicks > 0 && calloutOk && waiting != [] ==> timer.Armed?
    }

    constructor (maxResults: nat, passive: bool, timeoutTicks: uint32, calloutOk: bool)
      ensures Valid() && Covered() && view == Spec.NOTHING_SEEN && results == [] && repr == {} && timer == Idle
      ensures Cfg() == Spec.Config(maxResults, passive, timeoutTicks) && this.calloutOk == calloutOk
    {
      this.maxResults, this.passive, this.timeoutTicks, this.calloutOk := maxResults, passive, timeoutTicks, calloutOk;
      results, head, tail, timerInitialized, timer := [], null, null, false, Idle;
      waiting, view, repr := [], Spec.NOTHING_SEEN, {};
    }

    // ------------------------------------------------------------ the waiting list

    /** Appends d at the tail, unless it is listed already. */
    method AddWaiting(d: Device)
      requires ListValid() && d in results
      modifies this`head, this`tail, this`waiting, repr`next
      ensures ListValid()
      ensures waiting == if d in old(waiting) then old(waiting) else old(waiting) + [d]
    {
      hide LinkedBy;
      LinkFacts(NextMap(repr), results, waiting, head, tail, d);
      if d.next != d {
        return;
      }
      ghost var m: map<Device, Device?> := NextMap(repr);
      AppendLinks(m, results, waiting, head, tail, d);
      assert waiting == [] ==> waiting + [d] == [d];
      waiting := waiting + [d];
      d.next := null;
      if tail == null {
        head := d;
        tail := d;
        assert NextMap(repr) == m[d := null];
      } else {
        ghost var t: Device := tail;
        tail.next := d;
        tail := d;
        assert NextMap(repr) == m[d := null][t := d];
      }
    }

    /** Unlinks d from any position and puts its self-pointer back. When the head goes
        and others wait, the timer is set for the new head. */
    method RemoveWaiting(d: Device, now: nat)
      requires ListValid() && d in results
      modifies this`head, this`tail, this`waiting, this`timer, this`timerInitialized, repr`next
      ensures ListValid()
      ensures waiting == Spec.Remove(old(waiting), d)
      ensures old(Covered() || head == d) ==> Covered()
      ensures timer == old(timer) || HeadLeaves(old(waiting), d)
    {
      hide LinkedBy, Spec.Remove, Spec.Distinct;
      ghost var m: map<Device, Device?> := NextMap(repr);
      LinkFacts(m, results, waiting, head, tail, d);
      if d.next == d {
        Spec.RemoveAbsent(waiting, d);
        return;
      }
      ghost var k := IndexIn(waiting, d);
      Spec.RemoveAt(waiting, k);
      var resetTimer := false;
      if head == d {
        assert waiting[..0] + waiting[1..] == waiting[1..];
        Spec.RemoveAt(waiting, 0);
        resetTimer := UnlinkHead(d);
      } else {
        UnlinkInner(d, k);
      }
      if resetTimer {
        ResetWaitingTimer(now);
      }
    }

    /** The successor of the head becomes the head. */
    method UnlinkHead(d: Device) returns (resetTimer: bool)
      requires ListValid() && waiting != [] && waiting[0] == d && d in results
      modifies this`head, this`tail, this`waiting, repr`next
      ensures ListValid() && waiting == old(waiting)[1..]
      ensures resetTimer <==> waiting != []
    {
      hide LinkedBy;
      ghost var m: map<Device, Device?> := NextMap(repr);
      UnlinkHeadLinks(m, results, waiting, head, tail);
      resetTimer := false;
      head := d.next;
      if head == null {
        tail := null;
      } else {
        resetTimer := true;
      }
      d.next := d;
      waiting := waiting[1..];
      assert NextMap(repr) == m[d := d];
    }

    /** Links around d, which is not the head. */
    method UnlinkInner(d: Device, ghost k: nat)
      requires ListValid() && d in results && 0 < k < |waiting| && waiting[k] == d
      modifies this`tail, this`waiting, repr`next
      ensures ListValid() && waiting == old(waiting)[..k] + old(waiting)[k + 1..]
    {
      hide LinkedBy;
      ghost var m: map<Device, Device?> := NextMap(repr);
      UnlinkInnerLinks(m, results, waiting, head, tail, k);
      var current: Device := FindBefore(d, k);
      current.next := d.next;
      if tail == d {
        tail := current;
      }
      d.next := d;
      waiting := waiting[..k] + waiting[k + 1..];
      assert NextMap(repr) == m[current := m[d]][d := d];
    }

    /** The search half of the removal. */
    method FindBefore(d: Device, ghost k: nat) returns (current: Device)
      requires ListValid()
      requires 0 < k < |waiting| && waiting[k] == d
      ensures current in results && current == waiting[k - 1]
    {
      var cursor := head;
      ghost var i := 0;
      while cursor != null
        invariant 0 <= i < k && cursor == waiting[i]
        decreases k - i
      {
        assert NextMap(repr)[waiting[i]] == waiting[i + 1];
        if cursor.next == d {
          return cursor;
        }
        cursor := cursor.next;
        i := i + 1;
      }
    }

    /** Empties the list, giving every device its self-pointer back. */
    method ClearWaitingList()
      requires ListValid()
      modifies this`head, this`tail, this`waiting, this`timer, repr`next
      ensures ListValid() && waiting == [] && head == null && tail == null
    {
      hide LinkedBy;
      if timerInitialized {
        timer := Idle;
      }
      UnchainAll(head, waiting, tail);
      ghost var m: map<Device, Device?> := NextMap(repr);
      head, tail := null, null;
      waiting := [];
      assert NextMap(repr) == m;
    }

    /** The loop: every listed device gets its self-pointer back. */
    method UnchainAll(first: Device?, ghost listed: seq<Device>, ghost last: Device?)
      requires Linked(repr, results, listed, first, last)
      modifies repr`next
      ensures Linked(repr, results, [], null, null)
    {
      hide LinkedBy;
      var current := first;
      ghost var w, end := listed, last;
      EmptyEnds(NextMap(repr), results, w, current, end);
      while current != null
        invariant Linked(repr, results, w, current, end)
        invariant (current == null <==> w == []) && (end == null <==> w == [])
        decreases |w|
      {
        current, end := PointToSelf(current, w, end);
        w := w[1..];
      }
    }

    /** One turn of that loop. */
    method PointToSelf(current: Device, ghost w: seq<Device>, ghost end: Device?)
      returns (next: Device?, ghost end': Device?)
      requires Linked(repr, results, w, current, end)
      modifies repr`next
      ensures w != [] && Linked(repr, results, w[1..], next, end')
      ensures (next == null <==> w[1..] == []) && (end' == null <==> w[1..] == [])
    {
      hide LinkedBy;
      EmptyEnds(NextMap(repr), results, w, current, end);
      ghost var m: map<Device, Device?> := NextMap(repr);
      UnlinkHeadLinks(m, results, w, current, end);
      next := current.next;
      current.next := current;
      end' := if |w| == 1 then null else end;
      assert NextMap(repr) == m[w[0] := w[0]];
      EmptyEnds(NextMap(repr), results, w[1..], next, end');
    }

    /** Sets the timer for the head of the list: the rest of its timeout, or one tick if
        that is over. */
    method ResetWaitingTimer(now: nat)
      requires ListValid()
      modifies this`timer, this`timerInitialized
      ensures Covered()
      ensures timeoutTicks > 0 && waiting != [] && calloutOk ==>
                timer == Armed(if Spec.Elapsed(waiting[0].time, now) >= timeoutTicks then 1
                               else timeoutTicks - Spec.Elapsed(waiting[0].time, now))
    {
      if timeoutTicks == 0 || head == null {
        if timerInitialized {
          timer := Idle;
        }
        return;
      }
      if !timerInitialized {
        timerInitialized := calloutOk;
        if !timerInitialized {
          return;
        }
      }
      var elapsed := (now % Spec.CLOCK_MODULUS - head.time) % Spec.CLOCK_MODULUS;
      var nextTime := if elapsed >= timeoutTicks then 1 else timeoutTicks - elapsed;
      timer := Armed(nextTime);
    }

    // ------------------------------------------------------------ the same, with the view

    /** Takes d off the list. */
    method Unlist(d: Device, now: nat)
      requires Valid() && d in results
      modifies this`head, this`tail, this`waiting, this`timer, this`timerInitialized, this`view, repr`next
      ensures Valid()
      ensures view == old(view).(waiting := Spec.Remove(old(view).waiting, d.addr))
      ensures waiting == Spec.Remove(old(waiting), d)
      ensures old(Covered() || head == d) ==> Covered()
      ensures timer == old(timer) || HeadLeaves(old(waiting), d)
    {
      hide LinkedBy, Described;
      WaitingAddr(d);
      RemoveWaiting(d, now);
      view := view.(waiting := Spec.Remove(view.waiting, d.addr));
    }

    /** Puts d at the tail, unless listed. */
    method Enlist(d: Device)
      requires Valid() && d in results
      modifies this`head, this`tail, this`waiting, this`view, repr`next
      ensures Valid()
      ensures view == old(view).(waiting := if d.addr in old(view).waiting then old(view).waiting
                                            else old(view).waiting + [d.addr])
      ensures waiting == if d in old(waiting) then old(waiting) else old(waiting) + [d]
    {
      hide LinkedBy, Described;
      WaitingAddr(d);
      AddWaiting(d);
      if d.addr !in view.waiting {
        AddrsAppend(old(waiting), d);
        view := view.(waiting := view.waiting + [d.addr]);
      }
    }

    /** Being listed shows in the addresses. */
    lemma WaitingAddr(d: Device)
      requires Valid() && d in results
      ensures Addrs(Spec.Remove(waiting, d)) == Spec.Remove(view.waiting, d.addr)
      ensures d in waiting <==> d.addr in view.waiting
    {
      forall i | 0 <= i < |waiting| && waiting[i].addr == d.addr
        ensures waiting[i] == d
      {
        SameAddressSameDevice(results, waiting[i], d);
      }
      AddrsRemove(waiting, d);
    }

    lemma StoredAddr(d: Device)
      requires Valid() && d in results
      ensures d.addr in view.info && view.info[d.addr] == d.View()
    {
      var k := IndexIn(results, d);
    }

    method SetSent(d: Device, n: nat)
      requires Valid() && d in results
      modifies this`view, d`sent
      ensures Valid()
      ensures d.addr in old(view).info
      ensures view == old(view).(info := old(view).info[d.addr := old(view).info[d.addr].(sent := n)])
    {
      hide LinkedBy;
      ghost var k := IndexIn(results, d);
      d.sent := n;
      view := view.(info := view.info[d.addr := view.info[d.addr].(sent := n)]);
    }

    method SetStamp(d: Device, now: nat)
      requires Valid() && d in results
      modifies this`view, d`time, d`stamp
      ensures Valid()
      ensures d.addr in old(view).info
      ensures view == old(view).(info := old(view).info[d.addr := old(view).info[d.addr].(stamp := now)])
    {
      hide LinkedBy;
      ghost var k := IndexIn(results, d);
      d.Restamp(now);
      view := view.(info := view.info[d.addr := view.info[d.addr].(stamp := now)]);
    }

    /** The stored device with this address, if any. */
    method FindDevice(addr: int) returns (found: Device?)
      requires Valid()
      ensures found == null <==> addr !in view.info
      ensures found != null ==> found in results && found.addr == addr
    {
      found := null;
      for i := 0 to |results|
        invariant forall j :: 0 <= j < i ==> results[j].addr != addr
      {
        if results[i].addr == addr {
          return results[i];
        }
      }
      assert addr !in view.order;
    }

    /** Stores a new device for an unknown address. */
    method StoreNew(addr: int, evType: nat, now: nat) returns (d: Device)
      requires Valid() && addr !in view.info
      modifies this`results, this`repr, this`view
      ensures Valid() && fresh(d) && results == old(results) + [d] && repr == old(repr) + {d} && d.addr == addr
      ensures waiting == old(waiting) && timer == old(timer)
      ensures view == old(view).(order := old(view).order + [addr],
                                 info := old(view).info[addr := Spec.Dev(evType, now, 0)])
    {
      hide LinkedBy, Described;
      d := new Device(addr, evType, now);
      StoreLinks(NextMap(repr), results, waiting, head, tail, d);
      StoreDescribed(repr, results, view.order, view.info, d);
      ghost var m := NextMap(repr);
      results := results + [d];
      repr := repr + {d};
      view := view.(order := view.order + [addr], info := view.info[addr := Spec.Dev(evType, now, 0)]);
      assert NextMap(repr) == m[d := d];
    }

    /** erase: off the list, then out of the vector, which owned it. */
    method EraseDevice(d: Device, now: nat)
      requires Valid() && d in results
      modifies this`head, this`tail, this`waiting, this`timer, this`timerInitialized, this`view, this`results,
               this`repr, repr`next
      ensures Valid()
      ensures results == Spec.Remove(old(results), d) && repr == old(repr) - {d}
      ensures view == Spec.OnErase(old(view), d.addr)
      ensures old(Covered()) ==> Covered()
      ensures timer == old(timer) || HeadLeaves(old(waiting), d)
      ensures waiting == Spec.Remove(old(waiting), d)
    {
      hide LinkedBy, Described;
      LinkFacts(NextMap(repr), results, waiting, head, tail, d);
      StoredAddr(d);
      Unlist(d, now);
      Spec.RemoveFacts(old(waiting), d);
      var i := PositionOf(d);
      DropFromVector(d, i);
    }

    method PositionOf(d: Device) returns (i: nat)
      requires d in results
      ensures i < |results| && results[i] == d
    {
      ghost var k := IndexIn(results, d);
      i := 0;
      while results[i] != d
        invariant 0 <= i <= k
        decreases k - i
      {
        i := i + 1;
      }
    }

    method DropFromVector(d: Device, i: nat)
      requires Valid() && i < |results| && results[i] == d && d !in waiting
      modifies this`results, this`repr, this`view
      ensures Valid()
      ensures results == Spec.Remove(old(results), d) && repr == old(repr) - {d}
      ensures view == old(view).(order := Spec.Remove(old(view).order, d.addr), info := old(view).info - {d.addr})
    {
      hide LinkedBy, Described, Injective, Addrs, Spec.Remove;
      ghost var was, m := results, NextMap(repr);
      LinkFacts(m, was, waiting, head, tail, d);
      DropLinks(m, was, waiting, head, tail, i);
      DropDescribed(repr, was, i, view.order, view.info);
      results := results[..i] + results[i + 1..];
      repr := repr - {d};
      view := view.(order := Spec.Remove(view.order, d.addr), info := view.info - {d.addr});
      assert NextMap(repr) == m - {d};
    }

    // ------------------------------------------------------------ event handlers

    /** What the list and the vector say about one stored device. */
    lemma DeviceFacts(d: Device)
      requires Valid() && d in results
      ensures d in repr
      ensures head == d <==> waiting != [] && waiting[0] == d
      ensures d in waiting <==> d.addr in view.waiting
      ensures d.addr in view.info && view.info[d.addr] == d.View()
      ensures d.time == d.stamp % Spec.CLOCK_MODULUS
    {
      hide Spec.Remove;
      LinkFacts(NextMap(repr), results, waiting, head, tail, d);
      WaitingAddr(d);
      StoredAddr(d);
    }

    method LogDiscovered(addr: int)
      requires Valid()
      modifies this`view
      ensures Valid() && view == old(view).(discovered := old(view).discovered + [addr])
    {
      hide LinkedBy, Described;
      view := view.(discovered := view.discovered + [addr]);
    }

    method LogReported(addr: int)
      requires Valid()
      modifies this`view
      ensures Valid() && view == old(view).(reported := old(view).reported + [addr])
    {
      hide LinkedBy, Described;
      view := view.(reported := view.reported + [addr]);
    }

    /** The callback half of an advertising report. */
    method Report(d: Device, evType: nat, now: nat)
      requires Valid() && d in results
      requires Covered() || (waiting != [] && waiting[0] == d && evType != Spec.SCAN_RSP && Spec.Scannable(d.advType))
      modifies this, repr
      ensures Valid() && Covered()
      ensures d.addr in old(view).info && view == Spec.Report(Cfg(), old(view), d.addr, evType)
      ensures repr <= old(repr)
      ensures passive ==> timer == old(timer) || HeadLeaves(old(waiting), d)
    {
      hide LinkedBy, Described, Spec.Remove;
      DeviceFacts(d);
      if d.sent == 0 {
        SetSent(d, d.sent + 1);
        LogDiscovered(d.addr);
      }
      DeviceFacts(d);
      ReportOrWait(d, evType, now);
      DeviceFacts(d);
      if maxResults == 0 && d.sent >= 2 {
        EraseDevice(d, now);
      }
    }

    method ReportOrWait(d: Device, evType: nat, now: nat)
      requires Valid() && d in results
      requires Covered() || (waiting != [] && waiting[0] == d && evType != Spec.SCAN_RSP && Spec.Scannable(d.advType))
      modifies this`view, this`head, this`tail, this`waiting, this`timer, this`timerInitialized, repr
      ensures Valid() && Covered()
      ensures d.addr in old(view).info && view == Spec.ReportOrWait(Cfg(), old(view), d.addr, evType)
      ensures passive ==> timer == old(timer) && waiting == old(waiting)
    {
      hide LinkedBy, Described, Spec.Remove;
      DeviceFacts(d);
      if passive || !Spec.Scannable(d.advType) {
        SetSent(d, (d.sent + 1) % 256);
        LogReported(d.addr);
      } else if evType == Spec.SCAN_RSP {
        SetSent(d, (d.sent + 1) % 256);
        LogReported(d.addr);
      } else {
        Enlist(d);
        DeviceFacts(d);
        if head == d {
          ResetWaitingTimer(now);
        }
      }
    }

    /** An advertisement or scan response of a stored device is recorded. */
    method RecordKnown(d: Device, evType: nat, now: nat)
      requires Valid() && d in results && Covered()
      modifies this`view, this`head, this`tail, this`waiting, this`timer, this`timerInitialized, repr
      ensures Valid()
      ensures Covered() || (waiting != [] && waiting[0] == d && evType != Spec.SCAN_RSP && Spec.Scannable(d.advType))
      ensures d.addr in old(view).info && view == Spec.Record(old(view), d.addr, evType, now)
      ensures timer == old(timer) || HeadLeaves(old(waiting), d)
      ensures HeadLeaves(waiting, d) ==> HeadLeaves(old(waiting), d)
    {
      hide LinkedBy, Described, Spec.Remove, HeadLeaves;
      DeviceFacts(d);
      AfterRemoval(d);
      if evType == Spec.SCAN_RSP {
        Unlist(d, now);
      } else {
        SetStamp(d, now);
        SetSent(d, 0);
        if Spec.Scannable(d.advType) {
          Requeue(d, now);
        }
      }
    }

    /** A waiting device moves to the tail; any other joins there. */
    method Requeue(d: Device, now: nat)
      requires Valid() && d in results
      modifies this`view, this`head, this`tail, this`waiting, this`timer, this`timerInitialized, repr`next
      ensures Valid()
      ensures view == old(view).(waiting := Spec.Remove(old(view).waiting, d.addr) + [d.addr])
      ensures waiting == Spec.Remove(old(waiting), d) + [d]
      ensures old(Covered() || head == d) ==> Covered() || waiting == [d]
      ensures timer == old(timer) || HeadLeaves(old(waiting), d)
    {
      hide LinkedBy, Described, Spec.Remove, HeadLeaves;
      UnlistedAfter(d);
      AfterRemoval(d);
      Unlist(d, now);
      Enlist(d);
    }

    /** Once removed, d is nowhere on the list, and at the tail it is not a head others wait behind. */
    lemma AfterRemoval(d: Device)
      requires Valid() && d in results
      ensures d !in Spec.Remove(waiting, d)
      ensures !HeadLeaves(Spec.Remove(waiting, d), d) && !HeadLeaves(Spec.Remove(waiting, d) + [d], d)
    {
      hide Spec.Remove;
      LinkFacts(NextMap(repr), results, waiting, head, tail, d);
      Spec.RemoveFacts(waiting, d);
      var rest := Spec.Remove(waiting, d);
      assert |rest| > 0 ==> rest[0] in rest;
    }

    lemma UnlistedAfter(d: Device)
      requires Valid() && d in results
      ensures d.addr !in Spec.Remove(view.waiting, d.addr)
    {
      forall i, j | 0 <= i < j < |waiting|
        ensures view.waiting[i] != view.waiting[j]
      {
        if waiting[i].addr == waiting[j].addr {
          SameAddressSameDevice(results, waiting[i], waiting[j]);
        }
      }
      Spec.RemoveFacts(view.waiting, d.addr);
    }

    /** An advertising report or scan response event. */
    method HandleAdvert(addr: int, evType: nat, now: nat, scanning: bool, connected: bool)
      requires Valid() && Covered()
      modifies this, repr
      ensures Valid() && Covered() && fresh(repr - old(repr))
      ensures view == if scanning && !connected then Spec.OnAdvert(Cfg(), old(view), addr, evType, now) else old(view)
      ensures passive ==> timer == old(timer) || (|old(waiting)| > 1 && old(waiting)[0].addr == addr)
    {
      hide LinkedBy, Described, Spec.Remove, Spec.Report;
      if !scanning || connected {
        return;
      }
      OrderLength();
      var d := FindDevice(addr);
      if d == null {
        if maxResults > 0 && maxResults < 255 && |results| >= maxResults {
          return;
        }
        d := StoreNew(addr, evType, now);
      } else {
        RecordKnown(d, evType, now);
      }
      Report(d, evType, now);
    }

    lemma OrderLength()
      requires Valid()
      ensures |view.order| == |results|
    {
    }

    /** The scan-response timer fires. */
    method SrTimerCb(now: nat)
      requires Valid() && Covered()
      modifies this, repr
      ensures Valid() && Covered() && repr <= old(repr)
      ensures view == Spec.OnTimer(Cfg(), old(view), now)
    {
      hide LinkedBy, Described, Spec.Remove;
      timer := Idle;
      if head == null {
        EmptyEnds(NextMap(repr), results, waiting, head, tail);
        return;
      }
      var d: Device := head;
      HeadFacts();
      if (now % Spec.CLOCK_MODULUS - d.time) % Spec.CLOCK_MODULUS < timeoutTicks {
        ResetWaitingTimer(now);
        return;
      }
      ReportHead(d, now);
      if maxResults == 0 {
        EraseDevice(d, now);
      }
    }

    lemma HeadFacts()
      requires Valid() && head != null
      ensures waiting != [] && waiting[0] == head && head in results && head in repr
      ensures view.waiting != [] && view.waiting[0] == head.addr && |view.waiting| == |waiting|
      ensures head.addr in view.info && view.info[head.addr] == head.View()
      ensures forall now: nat ::
                (now % Spec.CLOCK_MODULUS - head.time) % Spec.CLOCK_MODULUS == Spec.Elapsed(head.stamp, now)
    {
      hide LinkedBy, Described;
      EmptyEnds(NextMap(repr), results, waiting, head, tail);
      HeadStored();
      DeviceFacts(head);
      ClockDifference(head.stamp);
    }

    lemma HeadStored()
      requires Valid() && waiting != []
      ensures waiting[0] in results && waiting[0] == head
    {
      hide Described;
    }

    /** The scan is over: whoever still waits is reported, oldest first. */
    method DiscComplete(now: nat, scanning: bool)
      requires Valid() && Covered()
      modifies this, repr
      ensures Valid() && Covered() && repr <= old(repr)
      ensures !scanning ==> view == Spec.OnComplete(Cfg(), old(view))
      ensures scanning ==> view == Spec.ReportAll(old(view))
    {
      hide LinkedBy, Described;
      if timerInitialized {
        timer := Idle;
      }
      while head != null
        invariant Valid() && repr == old(repr)
        invariant Spec.ReportAll(view) == Spec.ReportAll(old(view))
        decreases |waiting|
      {
        ReportHead(head, now);
      }
      EmptyEnds(NextMap(repr), results, waiting, head, tail);
      assert view.waiting == [];
      if maxResults == 0 {
        ClearResults(scanning);
      }
    }

    /** clearResults: nothing while a scan runs; else list and vector are emptied. */
    method ClearResults(scanning: bool)
      requires Valid()
      modifies this, repr
      ensures Valid() && repr <= old(repr)
      ensures view == if scanning then old(view) else Spec.OnClear(old(view))
      ensures scanning ==> waiting == old(waiting) && timer == old(timer)
      ensures !scanning ==> results == [] && waiting == []
    {
      hide LinkedBy;
      if scanning {
        return;
      }
      ClearWaitingList();
      results, repr := [], {};
      view := view.(order := [], info := map[], waiting := []);
      assert NextMap(repr) == map[];
      EmptyLinks(map[]);
    }

    /** erase(address). */
    method EraseAddress(addr: int, now: nat)
      requires Valid() && Covered()
      modifies this, repr
      ensures Valid() && Covered() && repr <= old(repr)
      ensures view == Spec.OnErase(old(view), addr)
    {
      hide LinkedBy, Described, Spec.Remove;
      var d := FindDevice(addr);
      if d != null {
        EraseDevice(d, now);
      }
    }

    /** stop: when the stack cancelled the scan, nobody waits any more. */
    method Stop(cancelled: bool, scanning: bool) returns (ok: bool)
      requires Valid() && Covered()
      modifies this, repr
      ensures Valid() && Covered() && repr <= old(repr)
      ensures ok == cancelled
      ensures !ok ==> view == old(view)
      ensures ok && !scanning ==> view == Spec.OnStop(Cfg(), old(view))
      ensures ok && scanning ==> view == old(view).(waiting := [])
      ensures ok ==> waiting == []
    {
      hide LinkedBy, Described;
      if !cancelled {
        return false;
      }
      ClearWaitingList();
      view := view.(waiting := []);
      if maxResults == 0 {
        ClearResults(scanning);
      }
      return true;
    }

    /** Every run of a fresh scanner does what the specification says and leaves the heap
        structure valid. With a timeout and a working callout the timer runs for whoever waits, if
        the scan is active or stores no results; no other scan keeps that (PassiveScanForgetsTimer). */
    method Run(events: seq<Spec.Event>)
      requires Valid() && Covered() && view == Spec.NOTHING_SEEN
      modifies this, repr
      ensures Valid() && Covered()
      ensures view == Spec.Run(Cfg(), events)
      ensures (!passive || maxResults == 0) && timeoutTicks > 0 && calloutOk && waiting != [] ==> timer.Armed?
    {
      hide LinkedBy, Described;
      for i := 0 to |events|
        invariant Valid() && Covered() && fresh(repr - old(repr))
        invariant view == Spec.Run(Cfg(), events[..i])
      {
        assert events[..i + 1][..i] == events[..i];
        match events[i]
        case Advert(addr, evType, now) => HandleAdvert(addr, evType, now, true, false);
        case Timer(now) => SrTimerCb(now);
        case Complete(now) => DiscComplete(now, false);
        case Erase(addr, now) => EraseAddress(addr, now);
        case Clear(_) => ClearResults(false);
        case Stop(_) => var ok := Stop(true, false);
      }
      assert events[..|events|] == events;
      if passive && maxResults == 0 {
        Spec.PassiveUnstoredNeverWaits(Cfg(), events);
        assert |waiting| == |view.waiting|;
      }
    }

    /** The head leaves the list and is reported with what is known of it. */
    method ReportHead(d: Device, now: nat)
      requires Valid() && head == d
      modifies this`view, this`head, this`tail, this`waiting, this`timer, this`timerInitialized, repr
      ensures Valid() && Covered() && d in results
      ensures old(view).waiting != [] && view == Spec.ReportHead(old(view))
      ensures |waiting| == old(|waiting|) - 1 && repr == old(repr)
    {
      hide LinkedBy, Described;
      HeadFacts();
      Unlist(d, now);
      SetSent(d, 2);
      LogReported(d.addr);
    }
  }

  lemma StoreDescribed(repr: set<Device>, devices: seq<Device>, order: seq<int>, info: map<int, Spec.Dev>, d: Device)
    requires Described(repr, devices, order, info) && d.addr !in info
    requires d.time == d.stamp % Spec.CLOCK_MODULUS
    ensures Described(repr + {d}, devices + [d], order + [d.addr], info[d.addr := d.View()])
  {
    assert forall i :: 0 <= i < |devices| ==> devices[i].addr in info;
    AddrsAppend(devices, d);
  }

  lemma DropDescribed(repr: set<Device>, devices: seq<Device>, i: nat, order: seq<int>, info: map<int, Spec.Dev>)
    requires i < |devices| && Spec.Distinct(devices) && Described(repr, devices, order, info)
    ensures devices[..i] + devices[i + 1..] == Spec.Remove(devices, devices[i])
    ensures Described(repr - {devices[i]}, devices[..i] + devices[i + 1..], Spec.Remove(order, devices[i].addr),
                      info - {devices[i].addr})
  {
    hide Spec.Remove;
    var rest := devices[..i] + devices[i + 1..];
    VectorWithout(devices, i);
    forall a | a in info - {devices[i].addr}
      ensures a in Addrs(rest)
    {
      AddrsElsewhere(devices, i, a);
    }
    assert forall j :: 0 <= j < |rest| ==> rest[j] == devices[if j < i then j else j + 1];
  }

  /** A passive scan that stores results hears one scannable device twice: the device then waits
      for a response nobody asked for, and no timer runs that would end the wait. */
  method PassiveScanForgetsTimer(addr: int, maxResults: nat, timeoutTicks: uint32) returns (s: Scanner)
    requires maxResults > 0
    ensures s.Valid() && s.passive && s.calloutOk && s.timeoutTicks == timeoutTicks && s.maxResults == maxResults
    ensures s.view == Spec.Run(s.Cfg(), [Spec.Advert(addr, Spec.ADV_IND, 0), Spec.Advert(addr, Spec.ADV_IND, 1)])
    ensures s.view.waiting == [addr] && |s.waiting| == 1 && s.timer == Idle
  {
    hide LinkedBy, Described, Linked, Spec.OnAdvert;
    s := new Scanner(maxResults, true, timeoutTicks, true);
    Spec.PassiveDuplicateWaits(s.Cfg(), addr);
    s.HandleAdvert(addr, Spec.ADV_IND, 0, true, false);
    assert s.view == Spec.Step(s.Cfg(), Spec.NOTHING_SEEN, Spec.Advert(addr, Spec.ADV_IND, 0));
    assert |s.waiting| == |s.view.waiting| == 0;
    s.HandleAdvert(addr, Spec.ADV_IND, 1, true, false);
    assert |s.waiting| == |s.view.waiting|;
  }
}
