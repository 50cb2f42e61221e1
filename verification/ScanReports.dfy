/** When the scan engine reports a device: on every event of every run, told without its
    bookkeeping. */
module ScanReports {
  import opened ScanSpec

  /** A stored device, or room for a new one. */
  predicate Accepted(c: Config, s: State, a: int) {
    a in s.info || !(0 < c.maxResults < 255 && |s.order| >= c.maxResults)
  }

  /** The type a device goes by: that of the event that first brought it in. */
  function TypeOf(s: State, a: int, evType: nat): nat {
    if a in s.info then s.info[a].advType else evType
  }

  /** Nothing more is to come for this event: nobody asks for responses, the device sends none, or
      this is the response. */
  predicate Answered(c: Config, s: State, a: int, evType: nat) {
    c.passive || !(TypeOf(s, a, evType) == ADV_IND || TypeOf(s, a, evType) == SCAN_IND) || evType == SCAN_RSP
  }

  lemma TurnedAway(c: Config, s: State, a: int, evType: nat, now: nat)
    requires !Accepted(c, s, a)
    ensures OnAdvert(c, s, a, evType, now) == s
  {
  }

  /** The callbacks made since the device's last advertisement, this event's included: the first
      one tells of its discovery, each further one is a result. */
  function CallsAfter(c: Config, s: State, a: int, evType: nat): nat {
    var before := if a in s.info && evType == SCAN_RSP then s.info[a].sent else 0;
    var told := if before == 0 then 1 else before;
    if Answered(c, s, a, evType) then (told + 1) % 256 else told
  }

  /** An accepted event is reported at once if nothing more is to come, and otherwise makes the
      device wait last in line; a response ends its wait; nobody else is touched. */
  lemma AdvertOutcome(c: Config, s: State, a: int, evType: nat, now: nat)
    requires Accepted(c, s, a) && Owned(s)
    ensures var t := OnAdvert(c, s, a, evType, now);
            && t.reported == (if Answered(c, s, a, evType) then s.reported + [a] else s.reported)
            && (!Answered(c, s, a, evType) ==> a in t.info && |t.waiting| > 0 && t.waiting[|t.waiting| - 1] == a)
            && (evType == SCAN_RSP ==> a !in t.waiting)
            && (c.maxResults != 0 ==> a in t.info && a in t.order && t.info[a].advType == TypeOf(s, a, evType))
            && (c.maxResults != 0 && (a in s.info ==> evType != SCAN_RSP) ==> t.info[a].stamp == now)
            && (c.maxResults != 0 ==> t.info[a].sent == CallsAfter(c, s, a, evType))
            && (forall b :: b != a ==> Untouched(s, t, b))
  {
    hide Record, ReportOrWait, OnErase, Untouched, Scannable;
    var r := Record(s, a, evType, now);
    RecordOutcome(s, a, evType, now);
    var w := ReportOrWait(c, Discover(r, a), a, evType);
    WaitOutcome(c, r, a, evType);
    EraseOutcome(w, a);
    forall b | b != a
      ensures Untouched(s, OnAdvert(c, s, a, evType, now), b)
    {
      UntouchedOn(s, r, w, b);
      UntouchedOn(s, w, OnErase(w, a), b);
    }
    Types(TypeOf(s, a, evType));
  }

  lemma Types(advType: nat)
    ensures Scannable(advType) <==> advType == ADV_IND || advType == SCAN_IND
  {
  }

  /** Everything about this device is as before. */
  ghost predicate Untouched(s: State, t: State, b: int) {
    && (b in t.waiting <==> b in s.waiting) && (b in t.info <==> b in s.info) && (b in t.order <==> b in s.order)
    && (b in s.info ==> t.info[b] == s.info[b])
  }

  lemma UntouchedOn(s: State, t: State, u: State, b: int)
    requires Untouched(s, t, b) && Untouched(t, u, b)
    ensures Untouched(s, u, b)
  {
  }

  lemma RecordOutcome(s: State, a: int, evType: nat, now: nat)
    requires Owned(s)
    ensures var r := Record(s, a, evType, now);
            && a in r.info && a in r.order && r.info[a].advType == TypeOf(s, a, evType) && r.reported == s.reported
            && (evType != SCAN_RSP || a !in s.info ==> r.info[a].sent == 0 && r.info[a].stamp == now)
            && (evType == SCAN_RSP && a in s.info ==> r.info[a].sent == s.info[a].sent)
            && (a in s.info && evType != SCAN_RSP && Scannable(TypeOf(s, a, evType)) ==>
                  |r.waiting| > 0 && r.waiting[|r.waiting| - 1] == a)
            && (a !in s.info || evType == SCAN_RSP ==> a !in r.waiting)
            && (forall b :: b != a ==> Untouched(s, r, b))
  {
    RemoveFacts(s.waiting, a);
  }

  lemma WaitOutcome(c: Config, r: State, a: int, evType: nat)
    requires a in r.info
    ensures var w := ReportOrWait(c, Discover(r, a), a, evType);
            var answered := c.passive || !Scannable(r.info[a].advType) || evType == SCAN_RSP;
            && a in w.info && w.order == r.order
            && w.info[a].advType == r.info[a].advType && w.info[a].stamp == r.info[a].stamp
            && w.reported == (if answered then r.reported + [a] else r.reported)
            && (!answered ==> w.waiting == if a in r.waiting then r.waiting else r.waiting + [a])
            && w.info[a].sent == (var told := if r.info[a].sent == 0 then 1 else r.info[a].sent;
                                  if answered then (told + 1) % 256 else told)
            && (answered ==> w.waiting == r.waiting)
            && (forall b :: b != a ==> Untouched(r, w, b))
  {
  }

  lemma EraseOutcome(s: State, a: int)
    ensures var t := OnErase(s, a);
            && t.reported == s.reported && t.discovered == s.discovered && a !in t.info
            && (a !in s.waiting ==> a !in t.waiting)
            && (forall b :: b != a ==> Untouched(s, t, b))
  {
    if a !in s.waiting {
      RemoveAbsent(s.waiting, a);
    }
    forall b | b != a
      ensures b in Remove(s.waiting, a) <==> b in s.waiting
      ensures b in Remove(s.order, a) <==> b in s.order
    {
      RemoveMembers(s.waiting, a, b);
      RemoveMembers(s.order, a, b);
    }
  }

  /** Erased devices are forgotten, and only they. */
  lemma EraseForgets(s: State, a: int)
    requires Owned(s)
    ensures var t := OnErase(s, a);
            && a !in t.info && a !in t.order && a !in t.waiting
            && t.reported == s.reported && t.discovered == s.discovered
            && (forall b :: b != a ==> Untouched(s, t, b))
  {
    EraseOutcome(s, a);
    RemoveFacts(s.waiting, a);
    RemoveFacts(s.order, a);
  }

  /** A cancelled scan and a clearing leave nobody waiting and report nobody; what is stored stays
      after the one, if results are stored at all, and goes with the other. */
  lemma StopAndClear(c: Config, s: State)
    ensures var (stopped, cleared) := (OnStop(c, s), OnClear(s));
            && stopped.waiting == [] && cleared.waiting == [] && cleared.order == [] && cleared.info == map[]
            && stopped.reported == s.reported == cleared.reported
            && stopped.discovered == s.discovered == cleared.discovered
            && stopped.order == (if c.maxResults == 0 then [] else s.order)
            && stopped.info == (if c.maxResults == 0 then map[] else s.info)
  {
  }

  // ---------------------------------------------------------------- the timer

  /** The timer expires the first in line exactly when its timeout has passed, and does nothing
      else, as long as nobody waits for as long as the clock takes to wrap. */
  lemma TimerExact(c: Config, events: seq<Event>, now: nat)
    requires Monotone(events + [Timer(now)])
    ensures var s, t := Run(c, events), Step(c, Run(c, events), Timer(now));
            && (s.waiting == [] ==> t == s)
            && (s.waiting != [] ==> s.waiting[0] in s.info)
            && (s.waiting != [] && now - s.info[s.waiting[0]].stamp < CLOCK_MODULUS ==>
                  if now - s.info[s.waiting[0]].stamp >= c.timeoutTicks
                  then t.reported == s.reported + [s.waiting[0]] && t.waiting == s.waiting[1..]
                       && (s.waiting[0] in t.info <==> c.maxResults != 0)
                       && (c.maxResults != 0 ==>
                             t.info == s.info[s.waiting[0] := s.info[s.waiting[0]].(sent := 2)] && t.order == s.order)
                  else t == s)
  {
    var s, all := Run(c, events), events + [Timer(now)];
    assert forall i :: 0 <= i < |events| ==> all[i] == events[i];
    RunInv(c, events);
    if s.waiting != [] {
      var a := s.waiting[0];
      assert a in s.waiting;
      ElapsedBound(s.info[a].stamp, now, events);
      StampBefore(s.info[a].stamp, now, events);
      RemoveAbsent(s.waiting[1..], a);
    }
  }

  lemma StampBefore(since: nat, now: nat, events: seq<Event>)
    requires since <= Clock(events) && Monotone(events + [Timer(now)])
    ensures since <= now && (now - since < CLOCK_MODULUS ==> Elapsed(since, now) == now - since)
  {
    if events != [] {
      assert (events + [Timer(now)])[|events| - 1].now <= (events + [Timer(now)])[|events|].now;
    }
  }

  // ---------------------------------------------------------------- every hearing reported once

  /** No device is taken off the list unheard. */
  predicate Undisturbed(events: seq<Event>) {
    forall e :: e in events ==> e.Advert? || e.Timer? || e.Complete?
  }

  /** Is this an accepted event of a while a is not waiting? */
  predicate Hearing(c: Config, s: State, e: Event, a: int) {
    e.Advert? && e.addr == a && a !in s.waiting && Accepted(c, s, a)
  }

  function Hearings(c: Config, events: seq<Event>, a: int): nat {
    if events == [] then 0
    else
      var before := events[..|events| - 1];
      Hearings(c, before, a) + if Hearing(c, Run(c, before), events[|events| - 1], a) then 1 else 0
  }

  function Waits(s: State, a: int): nat {
    if a in s.waiting then 1 else 0
  }

  /** In an active scan every accepted event of a device that is not waiting is reported exactly
      once, at once or when the wait that it begins ends: by its response, by the timer or by the
      end of the scan. Repetitions during a wait are not reported again. */
  lemma {:induction false} EveryHearingReported(c: Config, events: seq<Event>, a: int)
    requires !c.passive && Monotone(events) && Undisturbed(events)
    ensures multiset(Run(c, events).reported)[a] + Waits(Run(c, events), a) == Hearings(c, events, a)
  {
    hide Step, Hearing, Waits;
    if events == [] {
      NobodyWaits(a);
    } else {
      var before, e := events[..|events| - 1], events[|events| - 1];
      assert e in events;
      assert forall f :: f in before ==> f in events;
      EveryHearingReported(c, before, a);
      RunInv(c, before);
      HearingStep(c, Run(c, before), e, a);
    }
  }

  lemma NobodyWaits(a: int)
    ensures Waits(NOTHING_SEEN, a) == 0
  {
  }

  lemma HearingStep(c: Config, s: State, e: Event, a: int)
    requires !c.passive && Owned(s) && (e.Advert? || e.Timer? || e.Complete?)
    requires forall b :: b in s.waiting ==> Scannable(s.info[b].advType)
    ensures multiset(Step(c, s, e).reported)[a] + Waits(Step(c, s, e), a)
            == multiset(s.reported)[a] + Waits(s, a) + if Hearing(c, s, e, a) then 1 else 0
  {
    hide OnAdvert, OnErase, ReportAll;
    match e
    case Advert(b, evType, now) =>
      if Accepted(c, s, b) {
        AdvertOutcome(c, s, b, evType, now);
        AdvertWaits(c, s, b, evType, now);
        CountSnoc(s.reported, b, a);
        assert a != b ==> Untouched(s, OnAdvert(c, s, b, evType, now), a);
      } else {
        TurnedAway(c, s, b, evType, now);
        assert b !in s.waiting;
      }
    case Timer(now) => HeadLeaves(c, s, now, a);
    case Complete(_) =>
      ReportAllReports(s);
      OnceInList(s.waiting, a);
  }

  /** In an active scan exactly an unanswered device waits after its event. */
  lemma AdvertWaits(c: Config, s: State, a: int, evType: nat, now: nat)
    requires !c.passive && Owned(s) && Accepted(c, s, a)
    requires forall b :: b in s.waiting ==> Scannable(s.info[b].advType)
    ensures a in OnAdvert(c, s, a, evType, now).waiting <==> !Answered(c, s, a, evType)
  {
    AdvertOutcome(c, s, a, evType, now);
    if Answered(c, s, a, evType) && evType != SCAN_RSP {
      assert a !in s.waiting;
      var r := Record(s, a, evType, now);
      var w := ReportOrWait(c, Discover(r, a), a, evType);
      assert w.waiting == s.waiting;
      EraseOutcome(w, a);
    }
  }

  lemma HeadLeaves(c: Config, s: State, now: nat, a: int)
    requires Owned(s)
    ensures multiset(OnTimer(c, s, now).reported)[a] + Waits(OnTimer(c, s, now), a)
            == multiset(s.reported)[a] + Waits(s, a)
  {
    hide OnErase;
    if s.waiting != [] {
      var h, w := s.waiting[0], s.waiting[1..];
      assert s.waiting == [h] + w;
      assert h !in w;
      var r := ReportHead(s);
      EraseOutcome(r, h);
      CountSnoc(s.reported, h, a);
      assert a != h ==> Untouched(r, OnErase(r, h), a);
      assert a in s.waiting <==> a == h || a in w;
    }
  }

  lemma CountSnoc(xs: seq<int>, x: int, a: int)
    ensures multiset(xs + [x])[a] == multiset(xs)[a] + if x == a then 1 else 0
  {
  }

  lemma {:induction false} OnceInList(w: seq<int>, a: int)
    requires Distinct(w)
    ensures multiset(w)[a] == if a in w then 1 else 0
  {
    if w != [] {
      assert w == [w[0]] + w[1..];
      OnceInList(w[1..], a);
    }
  }
}
