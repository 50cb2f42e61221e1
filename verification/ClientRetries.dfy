/** Whole lives of a connection: how retries follow each other, and what the user hears of them. */
module ClientRetries {
  import opened ClientLink

  /** A connection the stack reports as up, and then as never established. */
  datatype Failure = Failure(code: int, handle: nat)

  /** Such a report counts as success, and names a real connection. */
  predicate Reported(f: Failure) {
    (f.code == 0 || f.code == UNSUPPORTED_REMOTE_FEATURE) && f.handle != HANDLE_NONE
  }

  predicate AllReported(fs: seq<Failure>) {
    forall i :: 0 <= i < |fs| ==> Reported(fs[i])
  }

  lemma LastReported(fs: seq<Failure>)
    requires AllReported(fs) && fs != []
    ensures AllReported(fs[..|fs| - 1]) && Reported(fs[|fs| - 1])
    ensures fs[..|fs| - 1] + [fs[|fs| - 1]] == fs
  {
  }

  function Failures(fs: seq<Failure>): seq<Event> {
    if fs == [] then []
    else [GapConnect(fs[0].code, fs[0].handle), GapDisconnect(ESTABLISHMENT_FAILED, 0)] + Failures(fs[1..])
  }

  lemma {:induction false} RunAppend(s: Link, a: seq<Event>, b: seq<Event>)
    ensures Run(s, a + b).0 == Run(Run(s, a).0, b).0
    ensures Run(s, a + b).1 == Run(s, a).1 + Run(Run(s, a).0, b).1
    decreases |a|
  {
    hide Step;
    if a == [] {
      assert a + b == b;
    } else {
      assert (a + b)[1..] == a[1..] + b;
      RunAppend(Step(s, a[0]).0, a[1..], b);
    }
  }

  lemma RunSingle(s: Link, e: Event)
    ensures Run(s, [e]) == Step(s, e)
  {
    hide Step;
    assert Run(Step(s, e).0, [e][1..]) == (Step(s, e).0, []);
    assert Step(s, e).1 + [] == Step(s, e).1;
  }

  lemma RunPair(s: Link, e: Event, f: Event)
    ensures var (t, acts) := Step(s, e);
            Run(s, [e, f]) == (Step(t, f).0, acts + Step(t, f).1)
  {
    hide Step;
    assert [e, f] == [e] + [f];
    RunAppend(s, [e], [f]);
    RunSingle(s, e);
    RunSingle(Step(s, e).0, f);
  }

  /** The attempts that make up for n lost links, the first of which is number first. */
  function Retried(first: nat, n: nat): (r: seq<Act>)
    ensures |r| == n
  {
    seq(n, i requires 0 <= i < n => Attempt(first + i, 0))
  }

  /** As long as retries are left, each failed establishment is followed by exactly one new attempt
      and by nothing else: nobody is called, a waiting connect() keeps waiting. */
  lemma {:induction false} RetriesAreSilent(s: Link, fs: seq<Failure>)
    requires s.status == CONNECTING && s.retryCount + |fs| <= s.retries
    requires AllReported(fs)
    ensures var (t, acts) := Run(s, Failures(fs));
            && acts == Retried(s.links + 1, |fs|)
            && t.status == CONNECTING && t.waiting == s.waiting && t.async == s.async && t.retries == s.retries
            && t.retryCount == s.retryCount + |fs| && t.attempts == s.attempts + |fs| && t.links == s.links + |fs|
            && (fs != [] ==> !t.pending && t.handle == HANDLE_NONE)
    decreases |fs|
  {
    if fs != [] {
      assert Reported(fs[0]);
      var e, f := GapConnect(fs[0].code, fs[0].handle), GapDisconnect(ESTABLISHMENT_FAILED, 0);
      var t := Run(s, [e, f]).0;
      RunPair(s, e, f);
      RetriesAreSilent(t, fs[1..]);
      RunAppend(s, [e, f], Failures(fs[1..]));
      assert Retried(s.links + 1, |fs|) == [Attempt(s.links + 1, 0)] + Retried(t.links + 1, |fs| - 1);
    }
  }

  /** The failure after the last retry is told, once, and ends the attempt. */
  lemma LastFailureIsTold(s: Link, f: Failure)
    requires s.status == CONNECTING && s.retryCount >= s.retries && Reported(f)
    ensures var (t, acts) := Run(s, Failures([f]));
            && acts == [OnConnectFail(s.links + 1, ESTABLISHMENT_FAILED)]
            && t.status == DISCONNECTED && !t.waiting && !t.pending && t.handle == HANDLE_NONE
            && t.attempts == s.attempts && t.retryCount == s.retryCount
  {
    var e, d := GapConnect(f.code, f.handle), GapDisconnect(ESTABLISHMENT_FAILED, 0);
    assert Failures([f]) == [e, d] + Failures([]);
    assert [e, d] + [] == [e, d];
    RunPair(s, e, d);
  }

  /** An accepted connect() that starts. */
  lemma Started(s: Link, async: bool)
    requires s.status == DISCONNECTED
    ensures var (t, acts) := Run(s, [Connect(true, false, async, 0)]);
            && acts == [Attempt(0, 0)] && t.status == CONNECTING && t.waiting == !async && t.retries == s.retries
            && t.retryCount == 0 && t.attempts == 1 && t.links == s.links && !t.pending
  {
    RunSingle(s, Connect(true, false, async, 0));
  }

  /** One failure more than there are retries left. */
  lemma SilentThenTold(s: Link, fs: seq<Failure>, last: Failure)
    requires s.status == CONNECTING && s.retryCount + |fs| == s.retries && AllReported(fs) && Reported(last)
    ensures var (t, acts) := Run(s, Failures(fs + [last]));
            && acts == Retried(s.links + 1, |fs|) + [OnConnectFail(s.links + |fs| + 1, ESTABLISHMENT_FAILED)]
            && t.status == DISCONNECTED && !t.waiting && !t.pending && t.attempts == s.attempts + |fs|
  {
    hide Step, Run, Failures, Retried, Reported, AllReported;
    RetriesAreSilent(s, fs);
    FailuresAppend(fs, [last]);
    RunAppend(s, Failures(fs), Failures([last]));
    LastFailureIsTold(Run(s, Failures(fs)).0, last);
  }

  /** connect() on a link that never gets established makes one attempt more than the retries
      allowed, and then reports one failure. */
  lemma RetriesThenFailure(s: Link, async: bool, fs: seq<Failure>)
    requires s.status == DISCONNECTED && |fs| == s.retries + 1 && AllReported(fs)
    ensures var (t, acts) := Run(s, [Connect(true, false, async, 0)] + Failures(fs));
            && acts == [Attempt(0, 0)] + (Retried(s.links + 1, s.retries)
                       + [OnConnectFail(s.links + s.retries + 1, ESTABLISHMENT_FAILED)])
            && t.status == DISCONNECTED && !t.waiting && !t.pending && t.attempts == s.retries + 1
  {
    hide Step, Run, Failures, Retried, Reported, AllReported;
    var e := Connect(true, false, async, 0);
    Started(s, async);
    RunAppend(s, [e], Failures(fs));
    LastReported(fs);
    SilentThenTold(Run(s, [e]).0, fs[..|fs| - 1], fs[|fs| - 1]);
  }

  lemma {:induction false} FailuresAppend(a: seq<Failure>, b: seq<Failure>)
    ensures Failures(a + b) == Failures(a) + Failures(b)
  {
    if a == [] {
      assert a + b == b;
    } else {
      assert (a + b)[1..] == a[1..] + b;
      FailuresAppend(a[1..], b);
    }
  }

  /** What shows that the link on this handle works. */
  predicate ShowsLink(e: Event, handle: nat) {
    e == EstablishedTimer || e == Traffic(handle)
  }

  /** However often the link shows that it works, connection is reported once. */
  lemma {:induction false} EstablishedOnce(s: Link, es: seq<Event>)
    requires s.status == CONNECTED && forall e :: e in es ==> ShowsLink(e, s.handle)
    ensures Run(s, es).1 == if s.pending && es != [] then [OnConnect(s.links)] else []
    ensures var t := Run(s, es).0;
            && t.status == CONNECTED && t.handle == s.handle && t.links == s.links && t.attempts == s.attempts
            && (es != [] ==> !t.pending) && ((s.pending && es != []) || !s.waiting ==> !t.waiting)
    decreases |es|
  {
    if es != [] {
      assert ShowsLink(es[0], s.handle);
      EstablishedOnce(Step(s, es[0]).0, es[1..]);
    }
  }

  /** A connection that comes up is not told yet. */
  lemma CameUp(s: Link, f: Failure)
    requires s.status == CONNECTING && Reported(f)
    ensures var (t, acts) := Run(s, [GapConnect(f.code, f.handle)]);
            && acts == [] && t.status == CONNECTED && t.handle == f.handle && t.links == s.links + 1 && t.pending
            && t.waiting == s.waiting && t.attempts == s.attempts
  {
    RunSingle(s, GapConnect(f.code, f.handle));
  }

  /** A connect() that needs some retries and then gets its link: one callback, of the link that
      works, and the waiting connect() is released. */
  lemma RetriesThenSuccess(s: Link, async: bool, fs: seq<Failure>, last: Failure, es: seq<Event>)
    requires s.status == DISCONNECTED && |fs| <= s.retries && AllReported(fs)
    requires Reported(last) && es != [] && forall e :: e in es ==> ShowsLink(e, last.handle)
    ensures var (t, acts) := Run(s, [Connect(true, false, async, 0)] + Failures(fs)
                                    + ([GapConnect(last.code, last.handle)] + es));
            && acts == [Attempt(0, 0)] + Retried(s.links + 1, |fs|) + [OnConnect(s.links + |fs| + 1)]
            && t.status == CONNECTED && t.handle == last.handle && !t.waiting && !t.pending
            && t.attempts == |fs| + 1
  {
    hide Step, Run, Failures, Retried, Reported, AllReported, ShowsLink;
    var e, g := Connect(true, false, async, 0), GapConnect(last.code, last.handle);
    var t := Run(s, [e]).0;
    var u := Run(t, Failures(fs)).0;
    Started(s, async);
    RunAppend(s, [e], Failures(fs));
    RetriesAreSilent(t, fs);
    RunAppend(s, [e] + Failures(fs), [g] + es);
    CameUp(u, last);
    RunAppend(u, [g], es);
    EstablishedOnce(Run(u, [g]).0, es);
  }

  /** A disconnect for any other reason is told, once, whatever retries are left, and no attempt
      follows. */
  lemma OtherReasonsAreTold(s: Link, code: int, handle: nat, reason: int, retryRc: int)
    requires s.status == CONNECTING && Reported(Failure(code, handle)) && reason != ESTABLISHMENT_FAILED
    ensures var (t, acts) := Run(s, [GapConnect(code, handle), GapDisconnect(reason, retryRc)]);
            && acts == [OnDisconnect(s.links + 1, reason)]
            && t.status == DISCONNECTED && !t.waiting && !t.pending && t.handle == HANDLE_NONE
            && t.attempts == s.attempts && t.retryCount == s.retryCount
  {
    RunPair(s, GapConnect(code, handle), GapDisconnect(reason, retryRc));
  }

  /** If the stack does not take the retry, the failure is told at once. */
  lemma RetryNotStarted(s: Link, code: int, handle: nat, retryRc: int)
    requires s.status == CONNECTING && Reported(Failure(code, handle)) && s.retryCount < s.retries && retryRc != 0
    ensures var (t, acts) := Run(s, [GapConnect(code, handle), GapDisconnect(ESTABLISHMENT_FAILED, retryRc)]);
            && acts == [Attempt(s.links + 1, retryRc), OnConnectFail(s.links + 1, ESTABLISHMENT_FAILED)]
            && t.status == DISCONNECTED && !t.waiting && !t.pending && t.handle == HANDLE_NONE
  {
    RunPair(s, GapConnect(code, handle), GapDisconnect(ESTABLISHMENT_FAILED, retryRc));
  }

  /** A connection the stack could not make ends the attempt: an asynchronous connect() hears of it
      by callback, a blocking one by being released. No retry follows. */
  lemma FailedConnection(s: Link, async: bool, code: int, handle: nat)
    requires s.status == DISCONNECTED && code != 0 && code != UNSUPPORTED_REMOTE_FEATURE
    ensures var (t, acts) := Run(s, [Connect(true, false, async, 0), GapConnect(code, handle)]);
            && acts == [Attempt(0, 0)] + (if async then [OnConnectFail(0, code)] else [])
            && t.status == DISCONNECTED && !t.waiting && !t.pending && t.handle == HANDLE_NONE
            && t.links == s.links && t.attempts == 1
  {
    RunPair(s, Connect(true, false, async, 0), GapConnect(code, handle));
  }

  /** A blocking connect() that times out cancels the attempt, and a connection that comes up all
      the same is dropped without a word. */
  lemma LateConnectionIsDropped(s: Link, code: int, handle: nat)
    requires s.status == CONNECTING
    ensures var (t, acts) := Run(s, [WaitTimesOut, GapConnect(code, handle)]);
            && acts == [Cancel, Terminate(handle)]
            && t == s.(status := DISCONNECTED, waiting := false)
  {
    RunPair(s, WaitTimesOut, GapConnect(code, handle));
  }

  /** disconnect() keeps the outstanding connect callback from the timer, and its end is told. */
  lemma DisconnectIsTold(s: Link, reason: int, retryRc: int)
    requires s.status == CONNECTED && s.handle != HANDLE_NONE && reason != ESTABLISHMENT_FAILED
    ensures var (t, acts) := Run(s, [Disconnect(0), EstablishedTimer] + [GapDisconnect(reason, retryRc)]);
            && acts == [OnDisconnect(s.links, reason)]
            && t.status == DISCONNECTED && !t.waiting && !t.pending && t.handle == HANDLE_NONE
  {
    RunPair(s, Disconnect(0), EstablishedTimer);
    var t := Run(s, [Disconnect(0), EstablishedTimer]).0;
    RunSingle(t, GapDisconnect(reason, retryRc));
    RunAppend(s, [Disconnect(0), EstablishedTimer], [GapDisconnect(reason, retryRc)]);
  }

  /** connect() that is refused or cannot start asks for nothing more and waits for nothing. */
  lemma NotStarted(s: Link, synced: bool, nullAddress: bool, async: bool, rc: int)
    requires s.status == DISCONNECTED && (!synced || nullAddress || rc != 0)
    ensures var (t, acts) := Run(s, [Connect(synced, nullAddress, async, rc)]);
            && acts == (if synced && !nullAddress then [Attempt(0, rc)] else [])
            && t.status == DISCONNECTED && t.waiting == s.waiting && t.handle == s.handle && t.links == s.links
  {
    RunSingle(s, Connect(synced, nullAddress, async, rc));
  }

  /** What does not concern the link changes nothing: traffic on another connection, a disconnect()
      the stack refused, and the end of a wait on a connected client but for the wait itself. */
  lemma NothingHappens(s: Link, other: nat, rc: int)
    requires other != s.handle && rc != 0
    ensures Run(s, [Traffic(other), Disconnect(rc)]) == (s, [])
    ensures s.status == CONNECTED ==> Run(s, [WaitTimesOut]) == (s.(waiting := false), [])
  {
    RunPair(s, Traffic(other), Disconnect(rc));
    RunSingle(s, WaitTimesOut);
  }
}
