/** What the byte stream does, told on values: the two queues, every write with the part of it
    that was taken, and every piece of data that left the TX queue. */
module StreamSpec {
  import opened Bits
  import opened RingBuffer

  // ---------------------------------------------------------------- the RX overflow policy

  /** The last n elements. */
  function Last<T>(s: seq<T>, n: nat): seq<T>
    requires n <= |s|
  {
    s[|s| - n..]
  }

  /** Which pieces of old and new data make up the newest n bytes of both. */
  lemma NewestBytes(was: seq<byte>, data: seq<byte>, n: nat)
    requires |was| <= n
    ensures |data| >= n ==> Last(was + data, n) == data[|data| - n..]
    ensures |was| + |data| <= n ==> Last(was + data, |was| + |data|) == was + data
    ensures |data| < n <= |was| + |data| ==> Last(was + data, n) == was[|was| + |data| - n..] + data
  {
  }

  datatype OverflowAction = DropOlderData | DropNewData

  /** The RX queue after a push: refuse whole, or keep the newest bytes of old-then-new. */
  ghost function AfterPush(was: seq<byte>, data: seq<byte>, capacity: nat, action: OverflowAction): (r: seq<byte>)
    requires |was| <= capacity
    ensures |r| <= capacity
  {
    if |was| + |data| <= capacity then was + data
    else if action == DropNewData then was
    else Last(was + data, capacity)
  }

  lemma PushCases(was: seq<byte>, data: seq<byte>, capacity: nat, action: OverflowAction)
    requires |was| <= capacity
    ensures data[..|data|] == data
    ensures var r := AfterPush(was, data, capacity, action);
            && (|was| + |data| <= capacity ==> r == was + data)
            && (|was| + |data| > capacity && action == DropNewData ==> r == was)
            && (|was| + |data| > capacity && action == DropOlderData ==> r == Last(was + data, capacity))
  {
  }

  lemma Emptied(s: seq<byte>)
    ensures s[|s|..] == []
  {
  }

  /** Under drop-older, pushing piece by piece loses exactly what one big push would. */
  lemma PushesCompose(was: seq<byte>, a: seq<byte>, b: seq<byte>, capacity: nat)
    requires |was| <= capacity
    ensures |AfterPush(was, a, capacity, DropOlderData)| <= capacity
    ensures AfterPush(AfterPush(was, a, capacity, DropOlderData), b, capacity, DropOlderData)
         == AfterPush(was, a + b, capacity, DropOlderData)
         == Last(was + a + b, Min(capacity, |was| + |a| + |b|))
  {
    hide Last, AfterPush;
    AfterPushIsLast(was, a, capacity);
    var mid := AfterPush(was, a, capacity, DropOlderData);
    AfterPushIsLast(mid, b, capacity);
    AfterPushIsLast(was, a + b, capacity);
    assert was + (a + b) == was + a + b;
    LastOfLast(was + a, b, |mid|, Min(capacity, |mid| + |b|));
  }

  lemma AfterPushIsLast(was: seq<byte>, data: seq<byte>, capacity: nat)
    requires |was| <= capacity
    ensures var n := Min(capacity, |was| + |data|);
            |AfterPush(was, data, capacity, DropOlderData)| == n
            && AfterPush(was, data, capacity, DropOlderData) == Last(was + data, n)
  {
  }

  lemma LastOfLast(s: seq<byte>, b: seq<byte>, m: nat, n: nat)
    requires m <= |s| && n <= m + |b|
    ensures Last(Last(s, m) + b, n) == Last(s + b, n)
  {
    assert Last(s, m) + b == (s + b)[|s| - m..];
  }

  // ---------------------------------------------------------------- states and steps

  datatype Config = Config(txSize: nat, rxSize: nat, chunkBufSize: nat)

  /** A write that was tried, and what of it was taken. */
  datatype Write = Write(data: seq<byte>, taken: seq<byte>)

  /** What left the TX queue, oldest first: given to the stack, or given up. */
  datatype Piece = Handed(bytes: seq<byte>) | Lost(bytes: seq<byte>)

  datatype State = State(queue: seq<byte>, rx: seq<byte>, log: seq<Write>, gone: seq<Piece>)

  const EMPTY := State([], [], [], [])

  /** One turn of the drain loop as the environment decides it: what other tasks write between
      the peek and the drop, whether the stack accepts the notification, whether it refused for
      lack of buffers, and what is written before the next turn. */
  datatype Round = Round(during: seq<seq<byte>>, notified: bool, lowOnBuffers: bool, after: seq<seq<byte>>)

  /** One turn of the flush loop: the send, whether the timeout still allows a wait, and what other
      tasks write before the send, before its effect is looked at, and after that. */
  datatype Pass = Pass(start: seq<seq<byte>>, ready: bool, mtu: nat, rounds: seq<Round>, early: seq<seq<byte>>,
                       mayWait: bool, late: seq<seq<byte>>)

  /** Why a drain ended. Preempted: the observed rounds ran out first. */
  datatype Ending = Unready | Drained | OutOfBuffers | Refused | Preempted

  datatype Event =
    | WriteEvent(data: seq<byte>, ready: bool)
    | DrainEvent(ready: bool, mtu: nat, rounds: seq<Round>)
    | FlushEvent(passes: seq<Pass>)
    | PushEvent(received: seq<byte>, ready: bool, action: OverflowAction)

  predicate Fits(c: Config, s: State) {
    |s.queue| <= c.txSize && |s.rx| <= c.rxSize
  }

  /** A write is taken as far as it fits, and not at all while the stream is not ready. */
  function Offer(c: Config, s: State, data: seq<byte>, ready: bool): (t: State)
    requires Fits(c, s)
    ensures Fits(c, t) && s.queue <= t.queue
  {
    var n := if ready then Min(|data|, c.txSize - |s.queue|) else 0;
    s.(queue := s.queue + data[..n], log := s.log + [Write(data, data[..n])])
  }

  function OfferAll(c: Config, s: State, writes: seq<seq<byte>>): (t: State)
    requires Fits(c, s)
    ensures Fits(c, t) && s.queue <= t.queue
  {
    if writes == [] then s
    else Offer(c, OfferAll(c, s, writes[..|writes| - 1]), writes[|writes| - 1], true)
  }

  /** The oldest n bytes go to the stack. */
  function Hand(c: Config, s: State, n: nat): (t: State)
    requires Fits(c, s) && n <= |s.queue|
    ensures Fits(c, t)
  {
    s.(queue := s.queue[n..], gone := s.gone + [Handed(s.queue[..n])])
  }

  /** A turn that the stack accepts. */
  function Turn(c: Config, s: State, n: nat, r: Round): (t: State)
    requires Fits(c, s) && n <= |s.queue|
    ensures Fits(c, t)
  {
    OfferAll(c, Hand(c, OfferAll(c, s, r.during), n), r.after)
  }

  function Drain(c: Config, maxLen: nat, s: State, rounds: seq<Round>): (r: (State, Ending))
    requires Fits(c, s)
    ensures Fits(c, r.0)
    decreases |rounds|
  {
    if s.queue == [] || maxLen == 0 then (s, Drained)
    else if rounds == [] then (s, Preempted)
    else if !rounds[0].notified then
      (OfferAll(c, s, rounds[0].during), if rounds[0].lowOnBuffers then OutOfBuffers else Refused)
    else Drain(c, maxLen, Turn(c, s, Min(maxLen, |s.queue|), rounds[0]), rounds[1..])
  }

  function Send(c: Config, s: State, ready: bool, mtu: nat, rounds: seq<Round>): (r: (State, Ending))
    requires Fits(c, s)
    ensures Fits(c, r.0)
  {
    if !ready || mtu < 23 then (s, Unready) else Drain(c, Min(mtu - 3, c.chunkBufSize), s, rounds)
  }

  /** Both queues are emptied. */
  function GiveUp(s: State): State {
    s.(queue := [], rx := [], gone := s.gone + [Lost(s.queue)])
  }

  /** The state after one turn of the flush loop, and whether the loop goes on; None if the
      observation ends inside the send. */
  function FlushTurn(c: Config, s: State, p: Pass): (r: (State, Ending, bool))
    requires Fits(c, s)
    ensures Fits(c, r.0)
  {
    var (sent, ending) := Send(c, OfferAll(c, s, p.start), p.ready, p.mtu, p.rounds);
    if ending == Preempted then (sent, ending, false)
    else
      var seen := OfferAll(c, sent, p.early);
      if seen.queue == [] then (seen, ending, false)
      else
        var t := OfferAll(c, seen, p.late);
        if |seen.queue| < |s.queue| || (ending == OutOfBuffers && p.mayWait) then (t, ending, true)
        else (GiveUp(t), ending, false)
  }

  /** The flush loop, and whether it came to its end. */
  function Flush(c: Config, s: State, passes: seq<Pass>): (r: (State, bool))
    requires Fits(c, s)
    ensures Fits(c, r.0)
    decreases |passes|
  {
    if s.queue == [] then (s, true)
    else if passes == [] then (s, false)
    else
      var (t, ending, more) := FlushTurn(c, s, passes[0]);
      if more then Flush(c, t, passes[1..]) else (t, ending != Preempted)
  }

  ghost function Step(c: Config, s: State, e: Event): (t: State)
    requires Fits(c, s)
    ensures Fits(c, t)
  {
    match e
    case WriteEvent(data, ready) => Offer(c, s, data, ready)
    case DrainEvent(ready, mtu, rounds) => Send(c, s, ready, mtu, rounds).0
    case FlushEvent(passes) => Flush(c, s, passes).0
    case PushEvent(data, ready, action) => if ready then s.(rx := AfterPush(s.rx, data, c.rxSize, action)) else s
  }

  ghost function Run(c: Config, s: State, events: seq<Event>): (t: State)
    requires Fits(c, s)
    ensures Fits(c, t)
  {
    if events == [] then s else Step(c, Run(c, s, events[..|events| - 1]), events[|events| - 1])
  }

  // ---------------------------------------------------------------- every byte exactly once

  /** Everything taken, in the order of the writes. */
  function TakenBytes(log: seq<Write>): seq<byte> {
    if log == [] then [] else TakenBytes(log[..|log| - 1]) + log[|log| - 1].taken
  }

  /** Everything that left the queue, in order. */
  function GoneBytes(gone: seq<Piece>): seq<byte> {
    if gone == [] then [] else GoneBytes(gone[..|gone| - 1]) + gone[|gone| - 1].bytes
  }

  /** What was taken of each write is its beginning, and what left the queue followed by what is
      in it is everything taken, in order. */
  ghost predicate Accounted(s: State) {
    && (forall w :: w in s.log ==> w.taken <= w.data)
    && GoneBytes(s.gone) + s.queue == TakenBytes(s.log)
  }

  /** Nothing recorded is forgotten, and the account stays in order. */
  ghost predicate Follows(s: State, t: State) {
    s.log <= t.log && s.gone <= t.gone && (Accounted(s) ==> Accounted(t))
  }

  lemma FollowsOn(s: State, t: State, u: State)
    requires Follows(s, t) && Follows(t, u)
    ensures Follows(s, u)
  {
    hide Accounted;
  }

  lemma OfferFollows(c: Config, s: State, data: seq<byte>, ready: bool)
    requires Fits(c, s)
    ensures Follows(s, Offer(c, s, data, ready))
  {
    hide GoneBytes;
    var t := Offer(c, s, data, ready);
    var w := t.log[|s.log|];
    assert t.log == s.log + [w] && t.log[..|s.log|] == s.log;
    assert GoneBytes(s.gone) + (s.queue + w.taken) == GoneBytes(s.gone) + s.queue + w.taken;
  }

  lemma {:induction false} OfferAllFollows(c: Config, s: State, writes: seq<seq<byte>>)
    requires Fits(c, s)
    ensures Follows(s, OfferAll(c, s, writes))
  {
    hide Offer, Accounted;
    if writes != [] {
      var n := |writes| - 1;
      OfferAllFollows(c, s, writes[..n]);
      OfferFollows(c, OfferAll(c, s, writes[..n]), writes[n], true);
      FollowsOn(s, OfferAll(c, s, writes[..n]), OfferAll(c, s, writes));
    }
  }

  /** Moving the front of the queue to what is gone. */
  lemma MovedFollows(s: State, t: State, p: Piece)
    requires t.log == s.log && t.gone == s.gone + [p] && s.queue == p.bytes + t.queue
    ensures Follows(s, t)
  {
    hide TakenBytes;
    assert t.gone[..|s.gone|] == s.gone;
    assert GoneBytes(s.gone) + (p.bytes + t.queue) == GoneBytes(s.gone) + p.bytes + t.queue;
  }

  lemma TurnFollows(c: Config, s: State, n: nat, r: Round)
    requires Fits(c, s) && n <= |s.queue|
    ensures Follows(s, Turn(c, s, n, r))
  {
    hide OfferAll, Follows;
    var a := OfferAll(c, s, r.during);
    var b := Hand(c, a, n);
    OfferAllFollows(c, s, r.during);
    MovedFollows(a, b, Handed(a.queue[..n]));
    FollowsOn(s, a, b);
    OfferAllFollows(c, b, r.after);
    FollowsOn(s, b, OfferAll(c, b, r.after));
  }

  lemma {:induction false} DrainFollows(c: Config, maxLen: nat, s: State, rounds: seq<Round>)
    requires Fits(c, s)
    ensures Follows(s, Drain(c, maxLen, s, rounds).0)
    decreases |rounds|
  {
    hide OfferAll, Turn, Accounted;
    if s.queue != [] && maxLen != 0 && rounds != [] {
      if rounds[0].notified {
        var t := Turn(c, s, Min(maxLen, |s.queue|), rounds[0]);
        TurnFollows(c, s, Min(maxLen, |s.queue|), rounds[0]);
        DrainFollows(c, maxLen, t, rounds[1..]);
        FollowsOn(s, t, Drain(c, maxLen, t, rounds[1..]).0);
      } else {
        OfferAllFollows(c, s, rounds[0].during);
      }
    }
  }

  lemma SendFollows(c: Config, s: State, ready: bool, mtu: nat, rounds: seq<Round>)
    requires Fits(c, s)
    ensures Follows(s, Send(c, s, ready, mtu, rounds).0)
  {
    hide Drain, Accounted;
    if ready && mtu >= 23 {
      DrainFollows(c, Min(mtu - 3, c.chunkBufSize), s, rounds);
    }
  }

  lemma FlushTurnFollows(c: Config, s: State, p: Pass)
    requires Fits(c, s)
    ensures Follows(s, FlushTurn(c, s, p).0)
  {
    hide OfferAll, Send, Follows;
    var first := OfferAll(c, s, p.start);
    OfferAllFollows(c, s, p.start);
    var (sent, ending) := Send(c, first, p.ready, p.mtu, p.rounds);
    SendFollows(c, first, p.ready, p.mtu, p.rounds);
    FollowsOn(s, first, sent);
    var seen := OfferAll(c, sent, p.early);
    OfferAllFollows(c, sent, p.early);
    FollowsOn(s, sent, seen);
    var t := OfferAll(c, seen, p.late);
    OfferAllFollows(c, seen, p.late);
    FollowsOn(s, seen, t);
    MovedFollows(t, GiveUp(t), Lost(t.queue));
    FollowsOn(s, t, GiveUp(t));
  }

  lemma {:induction false} FlushFollows(c: Config, s: State, passes: seq<Pass>)
    requires Fits(c, s)
    ensures Follows(s, Flush(c, s, passes).0)
    decreases |passes|
  {
    hide FlushTurn, Accounted;
    if s.queue != [] && passes != [] {
      var (t, ending, more) := FlushTurn(c, s, passes[0]);
      FlushTurnFollows(c, s, passes[0]);
      if more {
        FlushFollows(c, t, passes[1..]);
        FollowsOn(s, t, Flush(c, t, passes[1..]).0);
      }
    }
  }

  lemma StepFollows(c: Config, s: State, e: Event)
    requires Fits(c, s)
    ensures Follows(s, Step(c, s, e))
  {
    hide Offer, Send, Flush, AfterPush;
    match e
    case WriteEvent(data, ready) => OfferFollows(c, s, data, ready);
    case DrainEvent(ready, mtu, rounds) => SendFollows(c, s, ready, mtu, rounds);
    case FlushEvent(passes) => FlushFollows(c, s, passes);
    case PushEvent(_, _, _) =>
  }

  /** On every run, however writes, drains and flushes interleave: of each write a beginning is
      taken, and the bytes that left the queue, followed by those in it, are exactly the bytes
      taken, each once and in order. */
  lemma {:induction false} EveryByteOnce(c: Config, s: State, events: seq<Event>)
    requires Fits(c, s) && Accounted(s)
    ensures Accounted(Run(c, s, events))
    ensures s.log <= Run(c, s, events).log && s.gone <= Run(c, s, events).gone
  {
    hide Step, Accounted;
    if events != [] {
      var n := |events| - 1;
      EveryByteOnce(c, s, events[..n]);
      StepFollows(c, Run(c, s, events[..n]), events[n]);
    }
  }

  // ---------------------------------------------------------------- what a drain hands over

  ghost predicate NothingLost(gone: seq<Piece>) {
    forall p :: p in gone ==> p.Handed?
  }

  lemma OfferAllKeeps(c: Config, s: State, writes: seq<seq<byte>>)
    requires Fits(c, s)
    ensures OfferAll(c, s, writes).gone == s.gone && OfferAll(c, s, writes).rx == s.rx
  {
  }

  /** A drain hands over one chunk for each round the stack accepts, each nonempty and within the
      limit, the first as long as the queue and the limit allow, and stops for the reason it tells;
      a finished drain has emptied the queue. */
  lemma {:induction false} DrainHands(c: Config, maxLen: nat, s: State, rounds: seq<Round>)
    requires Fits(c, s)
    ensures var (t, ending) := Drain(c, maxLen, s, rounds);
            var n := |t.gone| - |s.gone|;
            && s.gone <= t.gone && 0 <= n <= |rounds| && t.rx == s.rx
            && (forall k :: |s.gone| <= k < |t.gone| ==> t.gone[k].Handed? && 0 < |t.gone[k].bytes| <= maxLen)
            && (forall k :: 0 <= k < n ==> rounds[k].notified)
            && (n > 0 ==> t.gone[|s.gone|].bytes == s.queue[..Min(maxLen, |s.queue|)])
            && ending != Unready && (ending != Drained ==> t.queue != [])
            && (ending == OutOfBuffers ==> n < |rounds| && !rounds[n].notified && rounds[n].lowOnBuffers)
            && (ending == Refused ==> n < |rounds| && !rounds[n].notified && !rounds[n].lowOnBuffers)
            && (ending == Preempted ==> n == |rounds|)
            && (ending == Drained && maxLen > 0 ==> t.queue == [])
    decreases |rounds|
  {
    hide OfferAll, Turn;
    if s.queue != [] && maxLen != 0 && rounds != [] {
      if rounds[0].notified {
        TurnHands(c, s, Min(maxLen, |s.queue|), rounds[0]);
        DrainHands(c, maxLen, Turn(c, s, Min(maxLen, |s.queue|), rounds[0]), rounds[1..]);
      } else {
        OfferAllKeeps(c, s, rounds[0].during);
      }
    }
  }

  /** Whatever is written meanwhile, what is dropped is what was peeked. */
  lemma TurnHands(c: Config, s: State, n: nat, r: Round)
    requires Fits(c, s) && n <= |s.queue|
    ensures Turn(c, s, n, r).gone == s.gone + [Handed(s.queue[..n])] && Turn(c, s, n, r).rx == s.rx
  {
    hide OfferAll;
    var a := OfferAll(c, s, r.during);
    OfferAllKeeps(c, s, r.during);
    OfferAllKeeps(c, Hand(c, a, n), r.after);
    assert a.queue[..n] == s.queue[..n];
  }

  /** A chunk that one notification at this MTU carries and that the chunk buffer holds. */
  predicate Within(c: Config, mtu: nat, chunk: seq<byte>) {
    0 < |chunk| <= c.chunkBufSize && 23 <= mtu && |chunk| + 3 <= mtu
  }

  /** A send at this MTU hands over chunks that fit it, the first as long as possible, and nothing
      at all while the stream is not ready or the MTU is too small. If it ends without being
      refused, nothing is left in the queue. */
  lemma SendHands(c: Config, s: State, ready: bool, mtu: nat, rounds: seq<Round>)
    requires Fits(c, s)
    ensures var (t, ending) := Send(c, s, ready, mtu, rounds);
            && s.gone <= t.gone && t.rx == s.rx
            && (forall k :: |s.gone| <= k < |t.gone| ==> t.gone[k].Handed? && Within(c, mtu, t.gone[k].bytes))
            && (|s.gone| < |t.gone| ==>
                  ready && t.gone[|s.gone|].bytes == s.queue[..Min(Min(mtu - 3, c.chunkBufSize), |s.queue|)])
            && (ending == Unready <==> !ready || mtu < 23)
            && (ending == Unready ==> t == s)
            && (ending == Drained && c.chunkBufSize > 0 ==> t.queue == [])
  {
    hide Drain;
    if ready && mtu >= 23 {
      DrainHands(c, Min(mtu - 3, c.chunkBufSize), s, rounds);
    }
  }

  /** Some pass was ready at an MTU that carries the chunk. */
  ghost predicate FitsSome(c: Config, passes: seq<Pass>, chunk: seq<byte>) {
    exists p :: p in passes && p.ready && Within(c, p.mtu, chunk)
  }

  /** A flush that comes to its end leaves the queue empty. What it gives up, if anything, is the
      whole rest of the queue, and only then the RX queue is emptied as well. What it hands over
      fits the MTU of a pass that was ready. */
  lemma {:induction false} FlushGivesUp(c: Config, s: State, passes: seq<Pass>)
    requires Fits(c, s)
    ensures var (t, finished) := Flush(c, s, passes);
            && s.gone <= t.gone && (finished ==> t.queue == [])
            && (forall k :: |s.gone| <= k < |t.gone| && t.gone[k].Lost? ==>
                  k == |t.gone| - 1 && finished && t.gone[k].bytes != [])
            && (forall k :: |s.gone| <= k < |t.gone| && t.gone[k].Handed? ==> FitsSome(c, passes, t.gone[k].bytes))
            && t.rx == if NothingLost(t.gone[|s.gone|..]) then s.rx else []
    decreases |passes|
  {
    hide FlushTurn, Within;
    assert s.gone[|s.gone|..] == [];
    if s.queue != [] && passes != [] {
      var (t, ending, more) := FlushTurn(c, s, passes[0]);
      FlushTurnGivesUp(c, s, passes[0]);
      if more {
        FlushGivesUp(c, t, passes[1..]);
        var u := Flush(c, t, passes[1..]).0;
        forall k | |t.gone| <= k < |u.gone| && u.gone[k].Handed?
          ensures FitsSome(c, passes, u.gone[k].bytes)
        {
          var p :| p in passes[1..] && p.ready && Within(c, p.mtu, u.gone[k].bytes);
          assert p in passes;
        }
        assert u.gone[|s.gone|..] == t.gone[|s.gone|..] + u.gone[|t.gone|..];
      }
    }
  }

  lemma FlushTurnGivesUp(c: Config, s: State, p: Pass)
    requires Fits(c, s) && s.queue != []
    ensures var (t, ending, more) := FlushTurn(c, s, p);
            && s.gone <= t.gone
            && (!more && ending != Preempted ==> t.queue == [])
            && (forall k :: |s.gone| <= k < |t.gone| && t.gone[k].Lost? ==>
                  k == |t.gone| - 1 && !more && ending != Preempted && t.gone[k].bytes != [])
            && (forall k :: |s.gone| <= k < |t.gone| && t.gone[k].Handed? ==>
                  p.ready && Within(c, p.mtu, t.gone[k].bytes))
            && t.rx == if NothingLost(t.gone[|s.gone|..]) then s.rx else []
  {
    hide OfferAll, Send, NothingLost;
    var first := OfferAll(c, s, p.start);
    OfferAllKeeps(c, s, p.start);
    var (sent, ending) := Send(c, first, p.ready, p.mtu, p.rounds);
    SendHands(c, first, p.ready, p.mtu, p.rounds);
    var seen := OfferAll(c, sent, p.early);
    OfferAllKeeps(c, sent, p.early);
    var t := OfferAll(c, seen, p.late);
    OfferAllKeeps(c, seen, p.late);
    LostLast(s.gone, sent.gone, Lost(t.queue));
  }

  /** Pieces handed over, and one given up behind them. */
  lemma LostLast(a: seq<Piece>, b: seq<Piece>, p: Piece)
    requires a <= b && p.Lost? && forall k :: |a| <= k < |b| ==> b[k].Handed?
    ensures NothingLost(b[|a|..]) && !NothingLost((b + [p])[|a|..])
  {
    assert (b + [p])[|a|..] == b[|a|..] + [p];
    assert p in b[|a|..] + [p];
  }

  /** Nothing but a flush ever loses a byte: without one, the chunks handed to the stack followed
      by the queue are everything taken. */
  lemma {:induction false} OnlyFlushLoses(c: Config, s: State, events: seq<Event>)
    requires Fits(c, s) && NothingLost(s.gone)
    requires forall e :: e in events ==> !e.FlushEvent?
    ensures NothingLost(Run(c, s, events).gone)
  {
    hide Send, Offer, AfterPush;
    if events != [] {
      var before, e := events[..|events| - 1], events[|events| - 1];
      assert e in events;
      OnlyFlushLoses(c, s, before);
      var t := Run(c, s, before);
      match e
      case WriteEvent(data, ready) => OfferKeeps(c, t, data, ready);
      case DrainEvent(ready, mtu, rounds) =>
        SendHands(c, t, ready, mtu, rounds);
        HandedOnly(t.gone, Send(c, t, ready, mtu, rounds).0.gone);
      case PushEvent(_, _, _) =>
    }
  }

  lemma OfferKeeps(c: Config, s: State, data: seq<byte>, ready: bool)
    requires Fits(c, s)
    ensures Offer(c, s, data, ready).gone == s.gone
  {
  }

  lemma HandedOnly(a: seq<Piece>, b: seq<Piece>)
    requires NothingLost(a) && a <= b && forall k :: |a| <= k < |b| ==> b[k].Handed?
    ensures NothingLost(b)
  {
    forall k | 0 <= k < |b|
      ensures b[k].Handed?
    {
      if k < |a| {
        assert b[k] == a[k] && a[k] in a;
      }
    }
  }
}
