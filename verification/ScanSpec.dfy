/** What the scan engine does, told on values: the stored devices, the first-in first-out
    list of those still waiting for a scan response, and the callbacks made. */
module ScanSpec {

  const CLOCK_MODULUS: nat := 0x1_0000_0000
  const ADV_IND: nat := 0
  const SCAN_IND: nat := 2
  const SCAN_RSP: nat := 4

  /** A stored device. stamp is the real time of its last advertisement; sent counts the
      callbacks made for it, modulo 256. */
  datatype Dev = Dev(advType: nat, stamp: nat, sent: nat)

  datatype Config = Config(maxResults: nat, passive: bool, timeoutTicks: nat)

  /** order lists the stored addresses as the result vector does; info describes each. */
  datatype State = State(order: seq<int>, info: map<int, Dev>, waiting: seq<int>,
                         discovered: seq<int>, reported: seq<int>)

  datatype Event =
    | Advert(addr: int, evType: nat, now: nat)
    | Timer(now: nat)
    | Complete(now: nat)
    | Erase(addr: int, now: nat)
    | Clear(now: nat)
    | Stop(now: nat)

  const NOTHING_SEEN := State([], map[], [], [], [])

  predicate Scannable(advType: nat) {
    advType == ADV_IND || advType == SCAN_IND
  }

  /** s without the first occurrence of x. */
  function Remove<T(==)>(s: seq<T>, x: T): seq<T> {
    if s == [] then []
    else if s[0] == x then s[1..]
    else [s[0]] + Remove(s[1..], x)
  }

  /** 32-bit tick difference. */
  function Elapsed(since: nat, now: nat): nat {
    (now - since) % CLOCK_MODULUS
  }

  function OnErase(s: State, a: int): State {
    if a !in s.info then s
    else s.(order := Remove(s.order, a), info := s.info - {a}, waiting := Remove(s.waiting, a))
  }

  /** onDiscovered, unless it was already made for this advertisement. */
  function Discover(s: State, a: int): State
    requires a in s.info
  {
    if s.info[a].sent != 0 then s
    else s.(info := s.info[a := s.info[a].(sent := 1)], discovered := s.discovered + [a])
  }

  /** onResult right away, or a place in the waiting list. */
  function ReportOrWait(c: Config, s: State, a: int, evType: nat): State
    requires a in s.info
  {
    var d := s.info[a];
    if c.passive || !Scannable(d.advType) || evType == SCAN_RSP then
      s.(info := s.info[a := d.(sent := (d.sent + 1) % 256)], reported := s.reported + [a])
    else
      s.(waiting := if a in s.waiting then s.waiting else s.waiting + [a])
  }

  /** The callback part of an advertising report. */
  function Report(c: Config, s: State, a: int, evType: nat): State
    requires a in s.info
  {
    var t := ReportOrWait(c, Discover(s, a), a, evType);
    if c.maxResults == 0 && t.info[a].sent >= 2 then OnErase(t, a) else t
  }

  predicate Full(c: Config, s: State) {
    0 < c.maxResults < 255 && |s.order| >= c.maxResults
  }

  /** What is recorded of an advertising report or scan response before any callback. */
  function Record(s: State, a: int, evType: nat, now: nat): State {
    if a !in s.info then
      s.(order := s.order + [a], info := s.info[a := Dev(evType, now, 0)])
    else if evType == SCAN_RSP then
      s.(waiting := Remove(s.waiting, a))
    else
      var d := s.info[a];
      s.(info := s.info[a := Again(d, now)],
         waiting := if Scannable(d.advType) then Remove(s.waiting, a) + [a] else s.waiting)
  }

  /** A known device advertises again: stamped afresh and to be reported anew. The new data
      resets the count of callbacks, whether or not the controller filters duplicates. */
  function Again(d: Dev, now: nat): Dev {
    d.(stamp := now, sent := 0)
  }

  function OnAdvert(c: Config, s: State, a: int, evType: nat, now: nat): State {
    if a !in s.info && Full(c, s) then s
    else Report(c, Record(s, a, evType, now), a, evType)
  }

  /** The head of the waiting list is reported without its scan response. */
  function ReportHead(s: State): State
    requires s.waiting != []
  {
    var a := s.waiting[0];
    s.(waiting := s.waiting[1..],
       info := if a in s.info then s.info[a := s.info[a].(sent := 2)] else s.info,
       reported := s.reported + [a])
  }

  predicate Expired(c: Config, s: State, now: nat) {
    s.waiting != [] && s.waiting[0] in s.info
    && Elapsed(s.info[s.waiting[0]].stamp, now) >= c.timeoutTicks
  }

  function OnTimer(c: Config, s: State, now: nat): State {
    if !Expired(c, s, now) then s
    else if c.maxResults == 0 then OnErase(ReportHead(s), s.waiting[0])
    else ReportHead(s)
  }

  function ReportAll(s: State): State
    decreases |s.waiting|
  {
    if s.waiting == [] then s else ReportAll(ReportHead(s))
  }

  function OnClear(s: State): State {
    s.(order := [], info := map[], waiting := [])
  }

  function OnComplete(c: Config, s: State): State {
    var r := ReportAll(s);
    if c.maxResults == 0 then OnClear(r) else r
  }

  function OnStop(c: Config, s: State): State {
    if c.maxResults == 0 then OnClear(s) else s.(waiting := [])
  }

  function Step(c: Config, s: State, e: Event): State {
    match e
    case Advert(a, evType, now) => OnAdvert(c, s, a, evType, now)
    case Timer(now) => OnTimer(c, s, now)
    case Complete(now) => OnComplete(c, s)
    case Erase(a, now) => OnErase(s, a)
    case Clear(now) => OnClear(s)
    case Stop(now) => OnStop(c, s)
  }

  // ---------------------------------------------------------------- invariant

  ghost predicate Distinct<T>(s: seq<T>) {
    forall i, j :: 0 <= i < j < |s| ==> s[i] != s[j]
  }

  ghost predicate Owned(s: State) {
    && Distinct(s.order)
    && (forall a :: a in s.info <==> a in s.order)
    && Distinct(s.waiting)
    && (forall i :: 0 <= i < |s.waiting| ==> s.waiting[i] in s.info)
  }

  /** Waiting devices are queued in the order of their last advertisement. */
  ghost predicate StampedInOrder(s: State)
    requires Owned(s)
  {
    forall i, j :: 0 <= i < j < |s.waiting| ==> s.info[s.waiting[i]].stamp <= s.info[s.waiting[j]].stamp
  }

  ghost predicate Inv(c: Config, s: State, clock: nat) {
    && Owned(s)
    && StampedInOrder(s)
    && (forall a :: a in s.waiting ==> Scannable(s.info[a].advType))
    && (forall a :: a in s.info ==> s.info[a].stamp <= clock)
    && (0 < c.maxResults < 255 ==> |s.order| <= c.maxResults)
  }

  lemma {:induction false} RemoveFacts<T>(s: seq<T>, x: T)
    requires Distinct(s)
    ensures Distinct(Remove(s, x))
    ensures forall y :: y in Remove(s, x) <==> y in s && y != x
    ensures |Remove(s, x)| <= |s|
  {
    if s != [] {
      assert forall y :: y in s <==> y == s[0] || y in s[1..];
      if s[0] == x {
        assert forall i :: 0 < i < |s| ==> s[i] != x;
      } else {
        RemoveFacts(s[1..], x);
        assert s[0] !in s[1..];
      }
    }
  }

  lemma {:induction false} RemoveAbsent<T>(s: seq<T>, x: T)
    requires x !in s
    ensures Remove(s, x) == s
  {
    if s != [] {
      RemoveAbsent(s[1..], x);
      assert s == [s[0]] + s[1..];
    }
  }

  lemma {:induction false} RemoveAt<T>(s: seq<T>, k: nat)
    requires Distinct(s) && k < |s|
    ensures Remove(s, s[k]) == s[..k] + s[k + 1..]
  {
    if k > 0 {
      RemoveAt(s[1..], k - 1);
      assert s[0] != s[k];
      assert s[..k] == [s[0]] + s[1..][..k - 1];
    }
  }

  /** Where element i of what is left stood before x went. */
  ghost function SourceIndex<T>(s: seq<T>, x: T, i: nat): nat {
    if s != [] && s[0] != x && i > 0 then 1 + SourceIndex(s[1..], x, i - 1)
    else if s != [] && s[0] == x then i + 1
    else i
  }

  lemma {:induction false} SourceIndexFacts<T>(s: seq<T>, x: T, i: nat)
    requires i < |Remove(s, x)|
    ensures SourceIndex(s, x, i) < |s| && s[SourceIndex(s, x, i)] == Remove(s, x)[i]
    ensures i + 1 < |Remove(s, x)| ==> SourceIndex(s, x, i) < SourceIndex(s, x, i + 1)
  {
    if s[0] != x && i > 0 {
      SourceIndexFacts(s[1..], x, i - 1);
    } else if s[0] != x && |Remove(s, x)| > 1 {
      SourceIndexFacts(s[1..], x, 0);
    }
  }

  lemma {:induction false} SourceIndexMonotone<T>(s: seq<T>, x: T, i: nat, j: nat)
    requires i < j < |Remove(s, x)|
    ensures SourceIndex(s, x, i) < SourceIndex(s, x, j)
    decreases j
  {
    SourceIndexFacts(s, x, j - 1);
    if i < j - 1 {
      SourceIndexMonotone(s, x, i, j - 1);
    }
  }

  /** Taking a device off the list keeps the others in order. */
  lemma RemoveWaitingInv(c: Config, s: State, a: int, clock: nat)
    requires Inv(c, s, clock)
    ensures Inv(c, s.(waiting := Remove(s.waiting, a)), clock)
  {
    var w := Remove(s.waiting, a);
    RemoveFacts(s.waiting, a);
    assert forall i :: 0 <= i < |w| ==> w[i] in w;
    forall i, j | 0 <= i < j < |w|
      ensures s.info[w[i]].stamp <= s.info[w[j]].stamp
    {
      SourceIndexFacts(s.waiting, a, i);
      SourceIndexFacts(s.waiting, a, j);
      SourceIndexMonotone(s.waiting, a, i, j);
    }
  }

  lemma EraseInv(c: Config, s: State, a: int, clock: nat)
    requires Inv(c, s, clock)
    ensures Inv(c, OnErase(s, a), clock)
  {
    if a in s.info {
      RemoveWaitingInv(c, s, a, clock);
      RemoveFacts(s.waiting, a);
      RemoveFacts(s.order, a);
      var off, t := s.(waiting := Remove(s.waiting, a)), OnErase(s, a);
      forall i | 0 <= i < |off.waiting|
        ensures off.waiting[i] in t.info && t.info[off.waiting[i]] == s.info[off.waiting[i]]
      {
        assert off.waiting[i] in off.waiting;
      }
    }
  }

  /** Callback counts and callback histories play no part in the invariant. */
  lemma SentInv(c: Config, s: State, a: int, sent: nat, clock: nat)
    requires Inv(c, s, clock) && a in s.info
    ensures Inv(c, s.(info := s.info[a := s.info[a].(sent := sent)]), clock)
  {
    var t := s.(info := s.info[a := s.info[a].(sent := sent)]);
    assert forall b :: b in s.waiting ==> t.info[b].stamp == s.info[b].stamp;
  }

  /** The newest advertiser may join the tail. */
  lemma EnqueueInv(c: Config, s: State, a: int, clock: nat)
    requires Inv(c, s, clock) && a in s.info && a !in s.waiting
    requires s.info[a].stamp == clock && Scannable(s.info[a].advType)
    ensures Inv(c, s.(waiting := s.waiting + [a]), clock)
  {
    var w := s.waiting + [a];
    forall i, j | 0 <= i < j < |w|
      ensures w[i] != w[j] && s.info[w[i]].stamp <= s.info[w[j]].stamp
    {
      assert w[i] == s.waiting[i];
      assert w[i] in s.waiting;
      if j < |s.waiting| {
        assert w[j] == s.waiting[j];
      }
    }
  }

  /** A device off the list may be stamped afresh. */
  lemma RestampInv(c: Config, s: State, a: int, now: nat, clock: nat)
    requires Inv(c, s, clock) && clock <= now && a in s.info && a !in s.waiting
    ensures Inv(c, s.(info := s.info[a := Again(s.info[a], now)]), now)
  {
    var t := s.(info := s.info[a := Again(s.info[a], now)]);
    assert forall b :: b in s.waiting ==> b != a && t.info[b] == s.info[b];
  }

  lemma NewDeviceInv(c: Config, s: State, a: int, d: Dev, clock: nat)
    requires Inv(c, s, clock) && a !in s.info && !Full(c, s) && clock <= d.stamp
    ensures Inv(c, s.(order := s.order + [a], info := s.info[a := d]), d.stamp)
  {
    var t := s.(order := s.order + [a], info := s.info[a := d]);
    assert forall b :: b in s.waiting ==> b != a && t.info[b] == s.info[b];
  }

  lemma ReportInv(c: Config, s: State, a: int, evType: nat, clock: nat)
    requires Inv(c, s, clock) && a in s.info
    requires evType == SCAN_RSP || s.info[a].stamp == clock
    ensures Inv(c, Report(c, s, a, evType), clock)
  {
    SentInv(c, s, a, 1, clock);
    var s1 := Discover(s, a);
    assert Inv(c, s1, clock);
    SentInv(c, s1, a, (s1.info[a].sent + 1) % 256, clock);
    var s2 := ReportOrWait(c, s1, a, evType);
    assert Inv(c, s2, clock) by {
      if !c.passive && Scannable(s1.info[a].advType) && evType != SCAN_RSP && a !in s1.waiting {
        EnqueueInv(c, s1, a, clock);
      }
    }
    EraseInv(c, s2, a, clock);
  }

  lemma RecordInv(c: Config, s: State, a: int, evType: nat, now: nat, clock: nat)
    requires Inv(c, s, clock) && clock <= now
    requires a !in s.info ==> !Full(c, s)
    ensures Inv(c, Record(s, a, evType, now), now)
    ensures a in Record(s, a, evType, now).info
    ensures evType == SCAN_RSP || Record(s, a, evType, now).info[a].stamp == now
  {
    if a !in s.info {
      NewDeviceInv(c, s, a, Dev(evType, now, 0), clock);
    } else {
      RemoveWaitingInv(c, s, a, clock);
      RemoveFacts(s.waiting, a);
      var off := s.(waiting := Remove(s.waiting, a));
      if evType != SCAN_RSP {
        if !Scannable(s.info[a].advType) {
          RemoveAbsent(s.waiting, a);
          assert off == s;
        }
        RestampInv(c, off, a, now, clock);
        var restamped := off.(info := off.info[a := Again(off.info[a], now)]);
        if Scannable(s.info[a].advType) {
          EnqueueInv(c, restamped, a, now);
        }
      }
    }
  }

  lemma AdvertInv(c: Config, s: State, a: int, evType: nat, now: nat, clock: nat)
    requires Inv(c, s, clock) && clock <= now
    ensures Inv(c, OnAdvert(c, s, a, evType, now), now)
  {
    if !(a !in s.info && Full(c, s)) {
      RecordInv(c, s, a, evType, now, clock);
      ReportInv(c, Record(s, a, evType, now), a, evType, now);
    }
  }

  lemma ReportHeadInv(c: Config, s: State, clock: nat)
    requires Inv(c, s, clock) && s.waiting != []
    ensures Inv(c, ReportHead(s), clock)
  {
    var a, w := s.waiting[0], s.waiting[1..];
    assert a in s.waiting;
    assert forall i :: 0 <= i < |w| ==> w[i] == s.waiting[i + 1];
    assert forall b :: b in w ==> b in s.waiting;
    assert Inv(c, s.(waiting := w), clock);
    SentInv(c, s.(waiting := w), a, 2, clock);
  }

  lemma {:induction false} ReportAllInv(c: Config, s: State, clock: nat)
    requires Inv(c, s, clock)
    ensures Inv(c, ReportAll(s), clock)
    decreases |s.waiting|
  {
    if s.waiting != [] {
      ReportHeadInv(c, s, clock);
      ReportAllInv(c, ReportHead(s), clock);
    }
  }

  /** Every event keeps the invariant. */
  lemma StepInv(c: Config, s: State, e: Event, clock: nat)
    requires Inv(c, s, clock) && clock <= e.now
    ensures Inv(c, Step(c, s, e), e.now)
  {
    match e
    case Advert(a, evType, now) => AdvertInv(c, s, a, evType, now, clock);
    case Timer(now) =>
      if s.waiting != [] {
        ReportHeadInv(c, s, clock);
        EraseInv(c, ReportHead(s), s.waiting[0], clock);
      }
    case Complete(now) => ReportAllInv(c, s, clock);
    case Erase(a, now) => EraseInv(c, s, a, clock);
    case Clear(now) =>
    case Stop(now) =>
  }

  // ---------------------------------------------------------------- whole runs

  function Run(c: Config, events: seq<Event>): State {
    if events == [] then NOTHING_SEEN
    else Step(c, Run(c, events[..|events| - 1]), events[|events| - 1])
  }

  function Clock(events: seq<Event>): nat {
    if events == [] then 0 else events[|events| - 1].now
  }

  ghost predicate Monotone(events: seq<Event>) {
    forall i, j :: 0 <= i <= j < |events| ==> events[i].now <= events[j].now
  }

  /** In every reachable state addresses are stored once, the waiting list holds stored
      devices once each in the order they last advertised, and the result limit holds. */
  lemma {:induction false} RunInv(c: Config, events: seq<Event>)
    requires Monotone(events)
    ensures Inv(c, Run(c, events), Clock(events))
  {
    if events != [] {
      var before := events[..|events| - 1];
      RunInv(c, before);
      assert before != [] ==> before[|before| - 1] == events[|before| - 1];
      StepInv(c, Run(c, before), events[|events| - 1], Clock(before));
    }
  }

  /** A timer event reports at most the head; when it does, that device has really been
      silent for the timeout, and no waiting device has been silent longer. */
  lemma TimerExpiresOldest(c: Config, events: seq<Event>, now: nat)
    requires Monotone(events + [Timer(now)])
    ensures var s, t := Run(c, events), Run(c, events + [Timer(now)]);
            t == s ||
            (&& s.waiting != []
             && t.reported == s.reported + [s.waiting[0]]
             && t.waiting == s.waiting[1..]
             && s.waiting[0] in s.info
             && now - s.info[s.waiting[0]].stamp >= c.timeoutTicks
             && forall a :: a in s.waiting ==> a in s.info && s.info[s.waiting[0]].stamp <= s.info[a].stamp)
  {
    var s := Run(c, events);
    var all := events + [Timer(now)];
    assert all[..|all| - 1] == events;
    assert forall i :: 0 <= i < |events| ==> all[i] == events[i];
    RunInv(c, events);
    if s.waiting != [] {
      var a := s.waiting[0];
      assert a in s.waiting;
      ElapsedBound(s.info[a].stamp, now, events);
      if c.maxResults == 0 {
        RemoveAbsent(s.waiting[1..], a);
      }
      forall b | b in s.waiting
        ensures s.info[a].stamp <= s.info[b].stamp
      {
        var j :| 0 <= j < |s.waiting| && s.waiting[j] == b;
      }
    }
  }

  lemma ElapsedBound(since: nat, now: nat, events: seq<Event>)
    requires since <= Clock(events) && Monotone(events + [Timer(now)])
    ensures Elapsed(since, now) <= now - since
  {
    if events != [] {
      assert (events + [Timer(now)])[|events| - 1].now <= (events + [Timer(now)])[|events|].now;
    }
  }

  lemma {:induction false} ReportAllReports(s: State)
    ensures ReportAll(s).reported == s.reported + s.waiting
    ensures ReportAll(s).waiting == [] && ReportAll(s).order == s.order
    ensures ReportAll(s).discovered == s.discovered
    decreases |s.waiting|
  {
    if s.waiting != [] {
      ReportAllReports(ReportHead(s));
      assert s.waiting == [s.waiting[0]] + s.waiting[1..];
    }
  }

  /** Reported without its response: two callbacks have been made for the advertisement. */
  lemma {:induction false} ReportAllCounts(s: State, a: int)
    ensures var t := ReportAll(s);
            && (a in t.info <==> a in s.info)
            && (a in s.info ==> t.info[a] == if a in s.waiting then s.info[a].(sent := 2) else s.info[a])
    decreases |s.waiting|
  {
    if s.waiting != [] {
      ReportAllCounts(ReportHead(s), a);
      assert s.waiting == [s.waiting[0]] + s.waiting[1..];
    }
  }

  /** Discovery complete: every waiting device is reported exactly once, oldest first, and the list
      is empty; what is stored stays, if results are stored at all. */
  lemma CompleteReportsEachOnce(c: Config, events: seq<Event>, now: nat)
    requires Monotone(events)
    ensures var s, t := Run(c, events), OnComplete(c, Run(c, events));
            t.reported == s.reported + s.waiting && t.waiting == [] && Distinct(s.waiting)
            && t.order == (if c.maxResults == 0 then [] else s.order)
            && (forall a :: a in t.info <==> a in s.info && c.maxResults != 0)
            && (forall a :: a in t.info ==>
                  t.info[a] == if a in s.waiting then s.info[a].(sent := 2) else s.info[a])
  {
    RunInv(c, events);
    ReportAllReports(Run(c, events));
    forall a {
      ReportAllCounts(Run(c, events), a);
    }
  }

  /** With result storage off, a device is kept exactly while its scan response is awaited. */
  lemma {:induction false} UnstoredOnlyWaiting(c: Config, events: seq<Event>, a: int)
    requires Monotone(events) && c.maxResults == 0
    ensures a in Run(c, events).info <==> a in Run(c, events).waiting
    ensures a in Run(c, events).info ==> Run(c, events).info[a].sent == 1
  {
    if events != [] {
      var before := events[..|events| - 1];
      UnstoredOnlyWaiting(c, before, a);
      RunInv(c, before);
      RunInv(c, events);
      UnstoredStep(c, Run(c, before), events[|events| - 1], a, Clock(before));
    }
  }

  lemma UnstoredStep(c: Config, s: State, e: Event, a: int, clock: nat)
    requires c.maxResults == 0 && Inv(c, s, clock)
    requires a in s.info ==> a in s.waiting && s.info[a].sent == 1
    ensures a in Step(c, s, e).info ==> a in Step(c, s, e).waiting && Step(c, s, e).info[a].sent == 1
    ensures Owned(Step(c, s, e)) ==> (a in Step(c, s, e).waiting ==> a in Step(c, s, e).info)
  {
    RemoveFacts(s.waiting, a);
    match e
    case Advert(b, evType, now) => UnstoredAdvert(c, s, b, evType, now, a);
    case Timer(_) =>
      if s.waiting != [] {
        var h, w := s.waiting[0], s.waiting[1..];
        assert forall i :: 0 < i < |s.waiting| ==> s.waiting[i] == w[i - 1];
        RemoveAbsent(w, h);
      }
    case Erase(b, _) => RemoveFacts(s.waiting, b);
    case _ =>
  }

  lemma UnstoredAdvert(c: Config, s: State, b: int, evType: nat, now: nat, a: int)
    requires c.maxResults == 0 && Owned(s)
    requires a in s.info ==> a in s.waiting && s.info[a].sent == 1
    ensures var t := OnAdvert(c, s, b, evType, now);
            a in t.info ==> a in t.waiting && t.info[a].sent == 1
  {
    if a == b {
      UnstoredSelf(c, s, b, evType, now);
    } else {
      UnstoredOther(c, s, b, evType, now, a);
    }
  }

  lemma UnstoredSelf(c: Config, s: State, b: int, evType: nat, now: nat)
    requires c.maxResults == 0
    requires b in s.info ==> s.info[b].sent == 1
    ensures var t := OnAdvert(c, s, b, evType, now);
            b in t.info ==> b in t.waiting && t.info[b].sent == 1
  {
    var d := Discover(Record(s, b, evType, now), b);
    assert d.info[b].sent == 1;
    var w := ReportOrWait(c, d, b, evType);
    assert w.info[b].sent == 2 || (w.info[b].sent == 1 && b in w.waiting);
  }

  lemma UnstoredOther(c: Config, s: State, b: int, evType: nat, now: nat, a: int)
    requires c.maxResults == 0 && Owned(s) && a != b
    requires a in s.info ==> a in s.waiting && s.info[a].sent == 1
    ensures var t := OnAdvert(c, s, b, evType, now);
            a in t.info ==> a in t.waiting && t.info[a].sent == 1
  {
    hide Record, ReportOrWait, Scannable;
    if b in s.info || !Full(c, s) {
      var r := Record(s, b, evType, now);
      RecordedOther(c, s, b, evType, now, a);
      ReportedOther(c, r, b, evType, a);
      var w := ReportOrWait(c, Discover(r, b), b, evType);
      if a in w.waiting {
        StaysListed(w.waiting, b, a);
      }
    }
  }

  lemma RecordedOther(c: Config, s: State, b: int, evType: nat, now: nat, a: int)
    requires a != b
    ensures var r := Record(s, b, evType, now);
            && b in r.info && (a in r.info <==> a in s.info) && (a in s.info ==> r.info[a] == s.info[a])
            && (a in r.waiting <==> a in s.waiting)
  {
    RemoveMembers(s.waiting, b, a);
  }

  lemma {:induction false} RemoveMembers<T>(s: seq<T>, x: T, y: T)
    requires x != y
    ensures y in Remove(s, x) <==> y in s
  {
    if s != [] {
      RemoveMembers(s[1..], x, y);
      assert s == [s[0]] + s[1..];
      if s[0] != x {
        assert Remove(s, x) == [s[0]] + Remove(s[1..], x);
      }
    }
  }

  lemma ReportedOther(c: Config, r: State, b: int, evType: nat, a: int)
    requires a != b && b in r.info
    ensures var w := ReportOrWait(c, Discover(r, b), b, evType);
            && b in w.info && (a in w.info <==> a in r.info) && (a in r.info ==> w.info[a] == r.info[a])
            && (a in w.waiting <==> a in r.waiting)
  {
  }

  lemma {:induction false} StaysListed<T>(s: seq<T>, x: T, y: T)
    requires x != y && y in s
    ensures y in Remove(s, x)
  {
    if s[0] != x && s[0] != y {
      StaysListed(s[1..], x, y);
      assert Remove(s, x) == [s[0]] + Remove(s[1..], x);
    } else if s[0] == y {
      assert Remove(s, x)[0] == y;
    }
  }

  // ---------------------------------------------------------------- discoveries

  /** Is this an advertisement of a, no response, that the result limit does not turn away? */
  predicate Hears(c: Config, s: State, e: Event, a: int) {
    e.Advert? && e.addr == a && e.evType != SCAN_RSP && (a in s.info || !Full(c, s))
  }

  /** How many such advertisements the run sees. */
  function Heard(c: Config, events: seq<Event>, a: int): nat {
    if events == [] then 0
    else
      var before := events[..|events| - 1];
      Heard(c, before, a) + if Hears(c, Run(c, before), events[|events| - 1], a) then 1 else 0
  }

  ghost predicate NoResponses(events: seq<Event>, a: int) {
    forall e :: e in events ==> !(e.Advert? && e.addr == a && e.evType == SCAN_RSP)
  }

  /** onDiscovered is called for every advertisement of a device, repeated or not, unless the
      device is new and the list of results is full; and for nothing else while the device sends
      no responses. */
  lemma {:induction false} DiscoveredEveryTime(c: Config, events: seq<Event>, a: int)
    ensures multiset(Run(c, events).discovered)[a] >= Heard(c, events, a)
    ensures NoResponses(events, a) ==> multiset(Run(c, events).discovered)[a] == Heard(c, events, a)
  {
    hide Step, Full;
    if events != [] {
      var before, e := events[..|events| - 1], events[|events| - 1];
      assert forall f :: f in before ==> f in events;
      assert e in events;
      DiscoveredEveryTime(c, before, a);
      DiscoveredStep(c, Run(c, before), e, a);
    }
  }

  lemma DiscoveredStep(c: Config, s: State, e: Event, a: int)
    ensures var (was, now) := (multiset(s.discovered)[a], multiset(Step(c, s, e).discovered)[a]);
            && now >= was
            && (!(e.Advert? && e.addr == a && e.evType == SCAN_RSP) ==> now == was + if Hears(c, s, e, a) then 1 else 0)
  {
    hide OnErase, ReportAll, Full;
    match e
    case Advert(b, evType, t) =>
      var r := Record(s, b, evType, t);
      assert Discover(r, b).discovered == s.discovered || Discover(r, b).discovered == s.discovered + [b];
      ErasedDiscovers(ReportOrWait(c, Discover(r, b), b, evType), b);
    case Timer(_) =>
      if s.waiting != [] {
        ErasedDiscovers(ReportHead(s), s.waiting[0]);
      }
    case Complete(_) => CompleteDiscovers(s);
    case Erase(b, _) => ErasedDiscovers(s, b);
    case Clear(_) =>
    case Stop(_) =>
  }

  lemma ErasedDiscovers(s: State, a: int)
    ensures OnErase(s, a).discovered == s.discovered
  {
  }

  lemma {:induction false} CompleteDiscovers(s: State)
    ensures ReportAll(s).discovered == s.discovered
    decreases |s.waiting|
  {
    if s.waiting != [] {
      CompleteDiscovers(ReportHead(s));
    }
  }

  // ---------------------------------------------------------------- passive scans

  /** A passive scan asks for no responses, yet advertisements can still make a device wait for
      one: in every reachable state exactly a stored, scannable device that was not waiting and
      is heard again starts to wait, provided results are stored. Nobody else joins or leaves. */
  lemma PassiveWaitExact(c: Config, events: seq<Event>, a: int, evType: nat, now: nat)
    requires c.passive && Monotone(events) && a !in Run(c, events).waiting
    ensures var s, t := Run(c, events), OnAdvert(c, Run(c, events), a, evType, now);
            && (a in t.waiting <==>
                  a in s.info && Scannable(s.info[a].advType) && evType != SCAN_RSP && c.maxResults != 0)
            && (forall b :: b != a ==> (b in t.waiting <==> b in s.waiting))
  {
    var s := Run(c, events);
    RunInv(c, events);
    RemoveAbsent(s.waiting, a);
    if c.maxResults == 0 {
      UnstoredOnlyWaiting(c, events, a);
    }
    if a in s.info || !Full(c, s) {
      var r := Record(s, a, evType, now);
      assert forall b :: b != a ==> (b in r.waiting <==> b in s.waiting);
      var t := ReportOrWait(c, Discover(r, a), a, evType);
      assert t.waiting == r.waiting;
      if a !in s.info {
        RemoveAbsent(t.waiting, a);
      }
    }
  }

  /** Two advertisements of one device are enough: it has been discovered and reported twice,
      and waits. */
  lemma PassiveDuplicateWaits(c: Config, a: int)
    requires c.passive && c.maxResults > 0
    ensures var first := Advert(a, ADV_IND, 0);
            var events := [first, Advert(a, ADV_IND, 1)];
            var s := Run(c, events);
            && Monotone(events) && s.waiting == [a] && s.discovered == [a, a] && s.reported == [a, a]
            && Step(c, NOTHING_SEEN, first).waiting == []
            && s == Step(c, Step(c, NOTHING_SEEN, first), events[1])
  {
    hide ReportOrWait, Report, Discover;
    var e1, e2 := Advert(a, ADV_IND, 0), Advert(a, ADV_IND, 1);
    assert [e1, e2][..1] == [e1] && [e1][..0] == [];
    var s1 := State([a], map[a := Dev(ADV_IND, 0, 2)], [], [a], [a]);
    FirstHeard(c, a);
    HeardAgain(c, a);
    assert Run(c, [e1]) == Step(c, NOTHING_SEEN, e1) == s1;
    assert Run(c, [e1, e2]) == Step(c, s1, e2);
  }

  lemma FirstHeard(c: Config, a: int)
    requires c.passive && c.maxResults > 0
    ensures OnAdvert(c, NOTHING_SEEN, a, ADV_IND, 0) == State([a], map[a := Dev(ADV_IND, 0, 2)], [], [a], [a])
  {
    var r := Record(NOTHING_SEEN, a, ADV_IND, 0);
    assert r == State([a], map[a := Dev(ADV_IND, 0, 0)], [], [], []);
    assert Discover(r, a) == State([a], map[a := Dev(ADV_IND, 0, 1)], [], [a], []);
  }

  lemma HeardAgain(c: Config, a: int)
    requires c.passive && c.maxResults > 0
    ensures var t := OnAdvert(c, State([a], map[a := Dev(ADV_IND, 0, 2)], [], [a], [a]), a, ADV_IND, 1);
            t.waiting == [a] && t.discovered == [a, a] && t.reported == [a, a]
  {
    var s := State([a], map[a := Dev(ADV_IND, 0, 2)], [], [a], [a]);
    var r := Record(s, a, ADV_IND, 1);
    assert r == State([a], map[a := Dev(ADV_IND, 1, 0)], [a], [a], [a]);
    assert Discover(r, a) == State([a], map[a := Dev(ADV_IND, 1, 1)], [a], [a, a], [a]);
  }

  /** A passive scan that stores nothing never makes anybody wait, whatever the clock does. */
  lemma {:induction false} PassiveUnstoredNeverWaits(c: Config, events: seq<Event>)
    requires c.passive && c.maxResults == 0
    ensures Run(c, events).waiting == [] && Run(c, events).info == map[]
  {
    hide OnAdvert;
    if events != [] {
      var before, e := events[..|events| - 1], events[|events| - 1];
      PassiveUnstoredNeverWaits(c, before);
      if e.Advert? {
        PassiveUnstoredAdvert(c, Run(c, before), e.addr, e.evType, e.now);
      }
    }
  }

  lemma PassiveUnstoredAdvert(c: Config, s: State, a: int, evType: nat, now: nat)
    requires c.passive && c.maxResults == 0 && s.waiting == [] && s.info == map[]
    ensures var t := OnAdvert(c, s, a, evType, now); t.waiting == [] && t.info == map[]
  {
    var d := Discover(Record(s, a, evType, now), a);
    assert d.info == map[a := Dev(evType, now, 1)];
    var t := ReportOrWait(c, d, a, evType);
    assert t.info == map[a := Dev(evType, now, 2)];
  }
}
