/** The client's connection state machine: attempts, retries after an establishment failure,
    and the delayed connect callback. */
module ClientLink {

  const HANDLE_NONE: nat := 0xFFFF
  const EBUSY: int := 15
  const EUNKNOWN: int := 17
  const UNSUPPORTED_REMOTE_FEATURE: int := 0x1A
  /** HCI error 0x3e as the host reports it. */
  const ESTABLISHMENT_FAILED: int := 0x200 + 0x3E
  const MAX_RETRIES: nat := 7

  datatype Status = CONNECTED | DISCONNECTED | CONNECTING | DISCONNECTING

  /** The client's fields. links, attempts and told are not in the program: how many links came
      up, how many attempts the last accepted connect() has made, and the last moment in the life
      of a link the client acted on: 2 * n is link n's onConnect, 2 * n + 1 its end. */
  datatype Link = Link(
    status: Status, handle: nat, pending: bool,
    retryCount: nat, retries: nat, async: bool, waiting: bool,
    links: nat, attempts: nat, told: nat)

  /** What the client does to the stack and to the user. An attempt comes with its answer and
      with the link whose loss it makes up for, a failure or disconnect callback with the link
      that ended; 0 is no link. */
  datatype Act =
    | Attempt(link: nat, rc: int)
    | Cancel
    | Terminate(handle: nat)
    | OnConnect(link: nat)
    | OnConnectFail(link: nat, rc: int)
    | OnDisconnect(link: nat, rc: int)

  /** Calls and stack events. rc is what startConnectionAttempt or ble_gap_terminate returned.
      Traffic stands for every GAP event that carries the connection's handle and shows that
      the link works. WaitTimesOut ends a blocking connect() that nobody released. */
  datatype Event =
    | Connect(synced: bool, nullAddress: bool, async: bool, rc: int)
    | GapConnect(code: int, handle: nat)
    | GapDisconnect(reason: int, retryRc: int)
    | EstablishedTimer
    | Traffic(handle: nat)
    | Disconnect(rc: int)
    | WaitTimesOut

  function Initial(retries: nat): Link {
    Link(DISCONNECTED, HANDLE_NONE, false, 0, retries, false, false, 0, 0, 1)
  }

  function Complete(s: Link): (Link, seq<Act>) {
    if !s.pending then (s, [])
    else (s.(pending := false, waiting := false, told := 2 * s.links), [OnConnect(s.links)])
  }

  predicate Accepted(s: Link, e: Event) {
    e.Connect? && e.synced && s.status == DISCONNECTED && !e.nullAddress
  }

  /** The link a disconnect ends: none if no handle is stored. */
  function Lost(s: Link): nat {
    if s.handle == HANDLE_NONE then 0 else s.links
  }

  /** A lost connection: another attempt without a word, or a callback. */
  function Disconnected(s: Link, reason: int, retryRc: int): (Link, seq<Act>) {
    var retry := reason == ESTABLISHMENT_FAILED && s.retryCount < s.retries;
    var link := Lost(s);
    var t := s.(pending := false, handle := HANDLE_NONE, told := if link == 0 then s.told else 2 * link + 1);
    if retry && retryRc == 0 then
      (t.(status := CONNECTING, retryCount := s.retryCount + 1, attempts := s.attempts + 1), [Attempt(link, 0)])
    else
      var u := if retry then t.(retryCount := s.retryCount + 1, attempts := s.attempts + 1) else t;
      (u.(status := DISCONNECTED, waiting := false),
       (if retry then [Attempt(link, retryRc)] else [])
       + [if reason == ESTABLISHMENT_FAILED then OnConnectFail(link, reason) else OnDisconnect(link, reason)])
  }

  function Step(s: Link, e: Event): (Link, seq<Act>) {
    match e
    case Connect(_, _, async, rc) =>
      if !Accepted(s, e) then (s.(status := DISCONNECTED), [])
      else
        var t := s.(status := CONNECTING, async := async, pending := false, retryCount := 0, attempts := 1);
        (if rc != 0 then t.(status := DISCONNECTED) else t.(waiting := !async), [Attempt(0, rc)])
    case GapConnect(code, handle) =>
      if s.status != CONNECTING then (s, [Terminate(handle)])
      else if code == 0 || code == UNSUPPORTED_REMOTE_FEATURE then
        (s.(status := CONNECTED, handle := handle, pending := true, links := s.links + 1), [])
      else
        (s.(status := DISCONNECTED, handle := HANDLE_NONE, pending := false, waiting := false),
         if s.async then [OnConnectFail(0, code)] else [])
    case GapDisconnect(reason, retryRc) => Disconnected(s, reason, retryRc)
    case EstablishedTimer => if s.status != CONNECTED then (s, []) else Complete(s)
    case Traffic(handle) => if s.handle != handle then (s, []) else Complete(s)
    case Disconnect(rc) => (if rc == 0 then s.(status := DISCONNECTING) else s, [])
    case WaitTimesOut =>
      if s.status != CONNECTED then (s.(waiting := false, status := DISCONNECTED), [Cancel])
      else (s.(waiting := false), [])
  }

  /** What the stack and the caller keep to: real handles, terminate succeeds only on a
      connection, and a wait can only end while somebody waits. */
  predicate Possible(s: Link, e: Event) {
    match e
    case GapConnect(_, handle) => handle != HANDLE_NONE
    case Traffic(handle) => handle != HANDLE_NONE
    case Disconnect(rc) => rc == 0 ==> s.handle != HANDLE_NONE
    case WaitTimesOut => s.waiting
    case _ => true
  }

  function Run(s: Link, es: seq<Event>): (Link, seq<Act>)
    decreases |es|
  {
    if es == [] then (s, [])
    else
      var (t, acts) := Step(s, es[0]);
      var (u, more) := Run(t, es[1..]);
      (u, acts + more)
  }

  predicate AllPossible(s: Link, es: seq<Event>)
    decreases |es|
  {
    es == [] || (Possible(s, es[0]) && AllPossible(Step(s, es[0]).0, es[1..]))
  }

  // ------------------------------------------------------------ counting, on every run

  /** The last told moment lies in the past of every callback still to come. */
  predicate Counted(s: Link) {
    && s.attempts <= s.retryCount + 1
    && s.retryCount <= s.retries
    && 1 <= s.told <= 2 * s.links + 1
    && (s.handle != HANDLE_NONE ==> s.told <= 2 * s.links)
    && (s.pending ==> s.told < 2 * s.links)
  }

  lemma CountedStep(s: Link, e: Event)
    requires Counted(s)
    ensures Counted(Step(s, e).0) && Step(s, e).0.retries == s.retries
  {
  }

  /** The moment in the life of a link an act belongs to, or 0: onConnect, and the link's end by
      a retry that started or by a callback. */
  function Moment(a: Act): nat {
    match a
    case OnConnect(link) => 2 * link
    case Attempt(link, rc) => if link > 0 && rc == 0 then 2 * link + 1 else 0
    case OnConnectFail(link, _) => if link > 0 then 2 * link + 1 else 0
    case OnDisconnect(link, _) => if link > 0 then 2 * link + 1 else 0
    case _ => 0
  }

  function Moments(acts: seq<Act>): seq<nat> {
    if acts == [] then []
    else (if Moment(acts[0]) > 0 then [Moment(acts[0])] else []) + Moments(acts[1..])
  }

  lemma {:induction false} MomentsAppend(a: seq<Act>, b: seq<Act>)
    ensures Moments(a + b) == Moments(a) + Moments(b)
  {
    if a == [] {
      assert a + b == b;
    } else {
      assert (a + b)[0] == a[0] && (a + b)[1..] == a[1..] + b;
      MomentsAppend(a[1..], b);
    }
  }

  /** Strictly increasing numbers above low and up to high. */
  ghost predicate Increasing(xs: seq<nat>, low: nat, high: nat) {
    && (forall i :: 0 <= i < |xs| ==> low < xs[i] <= high)
    && (forall i, j :: 0 <= i < j < |xs| ==> xs[i] < xs[j])
  }

  lemma StepTells(s: Link, e: Event)
    requires Counted(s)
    ensures var (t, acts) := Step(s, e);
            s.told <= t.told && Moments(acts) == if t.told == s.told then [] else [t.told]
  {
    hide Moments;
    var acts := Step(s, e).1;
    if acts == [] {
      NoMoments();
    } else if |acts| == 1 {
      assert acts == [acts[0]];
      OneMoment(acts[0]);
    } else {
      assert acts == [acts[0]] + [acts[1]];
      MomentsAppend([acts[0]], [acts[1]]);
      OneMoment(acts[0]);
      OneMoment(acts[1]);
    }
  }

  lemma OneMoment(a: Act)
    ensures Moments([a]) == if Moment(a) > 0 then [Moment(a)] else []
  {
  }

  lemma NoMoments()
    ensures Moments([]) == []
  {
  }

  /** On every run, whatever the calls and events: at most one attempt more than the retries
      allowed since the last accepted connect(), and the moments of the links come in order.
      So a link's onConnect comes at most once, then at most one end, which is either a retry
      started without a word or one callback, and then only moments of later links. */
  lemma {:induction false} AttemptsAndCallbacks(s: Link, es: seq<Event>)
    requires Counted(s)
    ensures var (t, acts) := Run(s, es);
            && Counted(t) && t.retries == s.retries && t.attempts <= t.retries + 1
            && s.told <= t.told && Increasing(Moments(acts), s.told, t.told)
    decreases |es|
  {
    hide Step, Moments;
    if es == [] {
      NoMoments();
    } else {
      var (t, acts) := Step(s, es[0]);
      CountedStep(s, es[0]);
      StepTells(s, es[0]);
      AttemptsAndCallbacks(t, es[1..]);
      MomentsAppend(acts, Run(t, es[1..]).1);
    }
  }

  /** How many of the moments are ends. */
  function Ends(moments: seq<nat>): nat {
    if moments == [] then 0 else moments[0] % 2 + Ends(moments[1..])
  }

  lemma {:induction false} EndsAppend(a: seq<nat>, b: seq<nat>)
    ensures Ends(a + b) == Ends(a) + Ends(b)
  {
    if a == [] {
      assert a + b == b;
    } else {
      assert (a + b)[0] == a[0] && (a + b)[1..] == a[1..] + b;
      EndsAppend(a[1..], b);
    }
  }

  lemma {:induction false} EndsInOrder(xs: seq<nat>, low: nat, high: nat)
    requires low <= high && Increasing(xs, low, high)
    ensures Ends(xs) <= (high + 1) / 2 - (low + 1) / 2
  {
    if xs != [] {
      EndsInOrder(xs[1..], xs[0], high);
    }
  }

  /** How many links the run loses to a disconnect. */
  function LostLinks(s: Link, es: seq<Event>): nat
    decreases |es|
  {
    if es == [] then 0
    else (if es[0].GapDisconnect? && Lost(s) > 0 then 1 else 0) + LostLinks(Step(s, es[0]).0, es[1..])
  }

  lemma StepEnds(s: Link, e: Event)
    requires Counted(s)
    ensures Ends(Moments(Step(s, e).1)) == if e.GapDisconnect? && Lost(s) > 0 then 1 else 0
  {
    hide Moments;
    StepTells(s, e);
    var told := Step(s, e).0.told;
    assert [told][1..] == [];
    assert Ends([told]) == told % 2;
  }

  /** Every lost link has exactly one end: retries started plus failure and disconnect callbacks
      for a link are as many as the links lost. */
  lemma {:induction false} OneEndPerLostLink(s: Link, es: seq<Event>)
    requires Counted(s)
    ensures Ends(Moments(Run(s, es).1)) == LostLinks(s, es)
    decreases |es|
  {
    hide Step, Moments, Ends, Lost;
    if es == [] {
      NoMoments();
      assert Ends([]) == 0 by {
        EndsInOrder([], 0, 0);
      }
    } else {
      var (t, acts) := Step(s, es[0]);
      CountedStep(s, es[0]);
      StepEnds(s, es[0]);
      OneEndPerLostLink(t, es[1..]);
      MomentsAppend(acts, Run(t, es[1..]).1);
      EndsAppend(Moments(acts), Moments(Run(t, es[1..]).1));
    }
  }

  /** So a client never reports or retries more ends than links came up. */
  lemma NoMoreEndsThanLinks(retries: nat, es: seq<Event>)
    ensures var (t, acts) := Run(Initial(retries), es);
            LostLinks(Initial(retries), es) == Ends(Moments(acts)) <= t.links
  {
    var s := Initial(retries);
    OneEndPerLostLink(s, es);
    AttemptsAndCallbacks(s, es);
    EndsInOrder(Moments(Run(s, es).1), s.told, Run(s, es).0.told);
  }

  // ------------------------------------------------------------ the pending callback

  /** A connect callback is only outstanding on a live link. */
  predicate Settled(s: Link) {
    s.pending ==> (s.status == CONNECTED || s.status == DISCONNECTING) && s.handle != HANDLE_NONE
  }

  /** The end of connect() that sets DISCONNECTED without looking: a rejected call, or a wait
      that timed out on a client that is not CONNECTED. */
  predicate ErrorPath(s: Link, e: Event) {
    (e.Connect? && !Accepted(s, e)) || (e.WaitTimesOut? && s.status != CONNECTED)
  }

  /** The invariant survives a step exactly unless that error path runs while a connect callback
      is outstanding. */
  lemma SettledStep(s: Link, e: Event)
    requires Settled(s) && Possible(s, e)
    ensures Settled(Step(s, e).0) <==> !(ErrorPath(s, e) && s.pending)
  {
  }

  predicate NoErrorWhilePending(s: Link, es: seq<Event>)
    decreases |es|
  {
    es == [] || (!(ErrorPath(s, es[0]) && s.pending) && NoErrorWhilePending(Step(s, es[0]).0, es[1..]))
  }

  /** The invariant holds in every state of the run, the last one included. */
  predicate SettledThroughout(s: Link, es: seq<Event>)
    decreases |es|
  {
    Settled(s) && (es != [] ==> SettledThroughout(Step(s, es[0]).0, es[1..]))
  }

  /** So it holds all along a run exactly if that never happens in it. */
  lemma {:induction false} SettledRun(s: Link, es: seq<Event>)
    requires Settled(s) && AllPossible(s, es)
    ensures SettledThroughout(s, es) <==> NoErrorWhilePending(s, es)
    ensures SettledThroughout(s, es) ==> Settled(Run(s, es).0)
    decreases |es|
  {
    hide Step, Settled, ErrorPath;
    if es != [] {
      SettledStep(s, es[0]);
      if Settled(Step(s, es[0]).0) {
        SettledRun(Step(s, es[0]).0, es[1..]);
      }
    }
  }

  /** In particular connect() called only while disconnected never breaks it; only a blocking
      connect() that times out during somebody else's disconnect() can. */
  lemma ConnectWhenDisconnectedIsSafe(s: Link, e: Event)
    requires Settled(s) && Possible(s, e) && (e.Connect? ==> s.status == DISCONNECTED)
    ensures !Settled(Step(s, e).0) ==> e == WaitTimesOut && s.status == DISCONNECTING && s.pending
  {
  }

  /** connect() on a connected client whose callback is still outstanding: the call is refused,
      but the client now counts as disconnected and later still reports the connection. */
  lemma RejectedConnectDisturbs(handle: nat)
    requires handle != HANDLE_NONE
    ensures var es := [Connect(true, false, true, 0), GapConnect(0, handle), Connect(true, false, true, 0),
                       Traffic(handle)];
            AllPossible(Initial(2), es) && Run(Initial(2), es).1 == [Attempt(0, 0), OnConnect(1)]
            && Run(Initial(2), es).0.status == DISCONNECTED
  {
    var e1, e2, e3, e4 := Connect(true, false, true, 0), GapConnect(0, handle), Connect(true, false, true, 0),
        Traffic(handle);
    var s0 := Initial(2);
    var s1 := Step(s0, e1).0;
    var s2 := Step(s1, e2).0;
    var s3 := Step(s2, e3).0;
    RunOne(s3, e4, []);
    RunOne(s2, e3, [e4]);
    RunOne(s1, e2, [e3, e4]);
    RunOne(s0, e1, [e2, e3, e4]);
    assert [e1] + [e2, e3, e4] == [e1, e2, e3, e4] && [e2] + [e3, e4] == [e2, e3, e4] && [e3] + [e4] == [e3, e4]
           && [e4] + [] == [e4];
  }

  /** A blocking connect() times out while a disconnect() is under way. */
  lemma TimeoutDuringDisconnectDisturbs(handle: nat)
    requires handle != HANDLE_NONE
    ensures var es := [Connect(true, false, false, 0), GapConnect(0, handle), Disconnect(0), WaitTimesOut,
                       Traffic(handle)];
            AllPossible(Initial(2), es) && Run(Initial(2), es).1 == [Attempt(0, 0), Cancel, OnConnect(1)]
            && Run(Initial(2), es).0.status == DISCONNECTED
  {
    var e1, e2, e3, e5 := Connect(true, false, false, 0), GapConnect(0, handle), Disconnect(0), Traffic(handle);
    var s0 := Initial(2);
    var s1 := Step(s0, e1).0;
    var s2 := Step(s1, e2).0;
    var s3 := Step(s2, e3).0;
    var s4 := Step(s3, WaitTimesOut).0;
    RunOne(s4, e5, []);
    RunOne(s3, WaitTimesOut, [e5]);
    RunOne(s2, e3, [WaitTimesOut, e5]);
    RunOne(s1, e2, [e3, WaitTimesOut, e5]);
    RunOne(s0, e1, [e2, e3, WaitTimesOut, e5]);
    assert [e1] + [e2, e3, WaitTimesOut, e5] == [e1, e2, e3, WaitTimesOut, e5];
    assert [e2] + [e3, WaitTimesOut, e5] == [e2, e3, WaitTimesOut, e5]
           && [e3] + [WaitTimesOut, e5] == [e3, WaitTimesOut, e5];
    assert [WaitTimesOut] + [e5] == [WaitTimesOut, e5] && [e5] + [] == [e5];
  }

  lemma RunOne(s: Link, e: Event, rest: seq<Event>)
    ensures Run(s, [e] + rest).0 == Run(Step(s, e).0, rest).0
    ensures Run(s, [e] + rest).1 == Step(s, e).1 + Run(Step(s, e).0, rest).1
    ensures AllPossible(s, [e] + rest) == (Possible(s, e) && AllPossible(Step(s, e).0, rest))
  {
    hide Step, Possible;
    assert ([e] + rest)[1..] == rest;
  }

  // ------------------------------------------------------------ the client object

  /** One answer to ble_gap_connect, and whether stopping the scan worked if it was busy. */
  datatype Reply = Reply(rc: int, scanStopped: bool)

  /** The stack is only asked again after a busy answer whose scan could be stopped. */
  function AttemptResult(replies: seq<Reply>): int
    requires replies != []
  {
    var r := replies[0];
    if r.rc != EBUSY then r.rc
    else if !r.scanStopped then EUNKNOWN
    else if |replies| == 1 then EBUSY
    else AttemptResult(replies[1..])
  }

  class Client {
    var status: Status
    var handle: nat
    var pending: bool
    var retryCount: nat
    var retries: nat
    var async: bool
    var waiting: bool

    ghost var links: nat
    ghost var attempts: nat
    ghost var told: nat
    ghost var log: seq<Act>

    ghost function Now(): Link
      reads this
    {
      Link(status, handle, pending, retryCount, retries, async, waiting, links, attempts, told)
    }

    constructor ()
      ensures Now() == Initial(2) && log == []
    {
      status, handle, pending := DISCONNECTED, HANDLE_NONE, false;
      retryCount, retries, async, waiting := 0, 2, false, false;
      links, attempts, told, log := 0, 0, 1, [];
    }

    /** The busy loop, asking the stack until it gives another answer. */
    method StartConnectionAttempt(replies: seq<Reply>, ghost link: nat) returns (rc: int)
      requires replies != [] && AttemptResult(replies) != EBUSY
      modifies this`log, this`attempts
      ensures rc == AttemptResult(replies) && log == old(log) + [Attempt(link, rc)] && attempts == old(attempts) + 1
    {
      var i := 0;
      assert replies[0..] == replies;
      while true
        invariant 0 <= i < |replies| && AttemptResult(replies[i..]) == AttemptResult(replies)
        decreases |replies| - i
      {
        rc := replies[i].rc;
        if rc == EBUSY && !replies[i].scanStopped {
          rc := EUNKNOWN;
        }
        if rc != EBUSY {
          log, attempts := log + [Attempt(link, rc)], attempts + 1;
          return;
        }
        assert replies[i..][1..] == replies[i + 1..];
        i := i + 1;
      }
    }

    method ConnectTo(synced: bool, nullAddress: bool, asyncConnect: bool, replies: seq<Reply>) returns (started: bool)
      requires replies != [] && AttemptResult(replies) != EBUSY
      modifies this
      ensures var e := Connect(synced, nullAddress, asyncConnect, AttemptResult(replies));
              Now() == Step(old(Now()), e).0 && log == old(log) + Step(old(Now()), e).1
              && started == (Accepted(old(Now()), e) && e.rc == 0)
    {
      if !synced || status != DISCONNECTED || nullAddress {
        status := DISCONNECTED;
        return false;
      }
      status, async, pending, retryCount, attempts := CONNECTING, asyncConnect, false, 0, 0;
      var rc := StartConnectionAttempt(replies, 0);
      if rc != 0 {
        status := DISCONNECTED;
        return false;
      }
      waiting := !asyncConnect;
      return true;
    }

    /** The wait of a blocking connect() ends without a release. */
    method WaitEnds()
      modifies this
      ensures Now() == Step(old(Now()), WaitTimesOut).0 && log == old(log) + Step(old(Now()), WaitTimesOut).1
    {
      waiting := false;
      if status != CONNECTED {
        log := log + [Cancel];
        status := DISCONNECTED;
      }
    }

    method CompleteConnectEstablished() returns (completed: bool)
      modifies this`pending, this`waiting, this`told, this`log
      ensures completed == old(pending)
      ensures Now() == Complete(old(Now())).0 && log == old(log) + Complete(old(Now())).1
    {
      if !pending {
        return false;
      }
      pending, waiting := false, false;
      told, log := 2 * links, log + [OnConnect(links)];
      return true;
    }

    method ConnectEstablishedTimer()
      modifies this
      ensures Now() == Step(old(Now()), EstablishedTimer).0 && log == old(log) + Step(old(Now()), EstablishedTimer).1
    {
      if status == CONNECTED {
        var _ := CompleteConnectEstablished();
      }
    }

    method HandleConnect(code: int, h: nat)
      modifies this
      ensures Now() == Step(old(Now()), GapConnect(code, h)).0
              && log == old(log) + Step(old(Now()), GapConnect(code, h)).1
    {
      if status != CONNECTING {
        log := log + [Terminate(h)];
        return;
      }
      var rc := code;
      if rc == UNSUPPORTED_REMOTE_FEATURE {
        rc := 0;
      }
      if rc == 0 {
        status, handle, pending, links := CONNECTED, h, true, links + 1;
      } else {
        status, handle, pending := DISCONNECTED, HANDLE_NONE, false;
        if async {
          log := log + [OnConnectFail(0, rc)];
        }
        waiting := false;
      }
    }

    method HandleDisconnect(reason: int, replies: seq<Reply>)
      requires replies != [] && AttemptResult(replies) != EBUSY
      modifies this
      ensures var (t, acts) := Disconnected(old(Now()), reason, AttemptResult(replies));
              Now() == t && log == old(log) + acts
    {
      pending := false;
      ghost var link := Lost(Now());
      told := if link == 0 then told else 2 * link + 1;
      if reason == ESTABLISHMENT_FAILED && retryCount < retries {
        handle, retryCount, status := HANDLE_NONE, retryCount + 1, CONNECTING;
        var retryRc := StartConnectionAttempt(replies, link);
        if retryRc == 0 {
          return;
        }
      }
      log := log + [if reason == ESTABLISHMENT_FAILED then OnConnectFail(link, reason) else OnDisconnect(link, reason)];
      handle, status, waiting := HANDLE_NONE, DISCONNECTED, false;
    }

    /** Any event for this connection's handle, as in the notification branch. */
    method HandleTraffic(h: nat)
      modifies this
      ensures Now() == Step(old(Now()), Traffic(h)).0 && log == old(log) + Step(old(Now()), Traffic(h)).1
    {
      if handle == h {
        var _ := CompleteConnectEstablished();
      }
    }

    method DisconnectLink(rc: int)
      modifies this
      ensures Now() == Step(old(Now()), Disconnect(rc)).0 && log == old(log) + Step(old(Now()), Disconnect(rc)).1
    {
      if rc == 0 {
        status := DISCONNECTING;
      }
    }

    method SetConnectRetries(n: nat)
      modifies this`retries
      ensures retries <= MAX_RETRIES && (n <= MAX_RETRIES ==> retries == n)
    {
      retries := if n < MAX_RETRIES then n else MAX_RETRIES;
    }

    method Deliver(e: Event)
      requires e.Connect? ==> e.rc != EBUSY
      requires e.GapDisconnect? ==> e.retryRc != EBUSY
      modifies this
      ensures Now() == Step(old(Now()), e).0 && log == old(log) + Step(old(Now()), e).1
    {
      match e
      case Connect(synced, nullAddress, a, rc) => var _ := ConnectTo(synced, nullAddress, a, [Reply(rc, true)]);
      case GapConnect(code, h) => HandleConnect(code, h);
      case GapDisconnect(reason, retryRc) => HandleDisconnect(reason, [Reply(retryRc, true)]);
      case EstablishedTimer => ConnectEstablishedTimer();
      case Traffic(h) => HandleTraffic(h);
      case Disconnect(rc) => DisconnectLink(rc);
      case WaitTimesOut => WaitEnds();
    }

    /** Any run of calls and events: the object goes through the states and does the acts of Run,
        so never more attempts than allowed, and each link's moments once and in order. */
    method DeliverAll(es: seq<Event>)
      requires Counted(Now())
      requires forall e :: e in es ==> (e.Connect? ==> e.rc != EBUSY) && (e.GapDisconnect? ==> e.retryRc != EBUSY)
      modifies this
      ensures Now() == Run(old(Now()), es).0 && log == old(log) + Run(old(Now()), es).1
      ensures attempts <= retries + 1 && Increasing(Moments(log[|old(log)|..]), old(told), told)
    {
      hide Step, Moments, Increasing;
      var i := 0;
      assert es[0..] == es;
      ghost var done: seq<Act> := [];
      while i < |es|
        invariant 0 <= i <= |es| && log == old(log) + done
        invariant Run(old(Now()), es).0 == Run(Now(), es[i..]).0
                  && Run(old(Now()), es).1 == done + Run(Now(), es[i..]).1
      {
        assert es[i] in es && es[i..][1..] == es[i + 1..];
        ghost var before := Now();
        Deliver(es[i]);
        done := done + Step(before, es[i]).1;
        i := i + 1;
      }
      AttemptsAndCallbacks(old(Now()), es);
      assert log[|old(log)|..] == done;
    }
  }
}
