/** What the stream promises to writers and to the stack: what a write takes, which chunks every
    notification carries, how much a send delivers, and when a flush gives up. */
module StreamDelivery {
  import opened Bits
  import opened RingBuffer
  import opened StreamSpec

  // ---------------------------------------------------------------- what the writers get

  /** The record of these writes. Each was taken whole as long as there was room; once one was
      cut the queue is full, and later ones got nothing. */
  ghost predicate Greedy(log: seq<Write>, writes: seq<seq<byte>>, full: bool) {
    && |log| == |writes|
    && (forall i :: 0 <= i < |log| ==> TakenOf(writes[i], log[i]))
    && (forall i :: 0 <= i < |log| && log[i].taken != log[i].data ==> full)
    && (forall i, j :: 0 <= i < j < |log| ==> log[i].taken == log[i].data || log[j].taken == [])
  }

  /** Exactly these writes were tried from s on, and nothing else happened. */
  ghost predicate Wrote(c: Config, s: State, t: State, writes: seq<seq<byte>>) {
    && s.log <= t.log && t.gone == s.gone && t.rx == s.rx
    && Greedy(t.log[|s.log|..], writes, |t.queue| == c.txSize)
  }

  predicate TakenOf(data: seq<byte>, w: Write) {
    w.data == data && w.taken <= data
  }

  /** While ready a write is taken whole, or as far as fills the queue; otherwise not at all. What
      is taken goes behind what is queued, and the attempt is on record. */
  lemma OfferTakes(c: Config, s: State, data: seq<byte>, ready: bool)
    requires Fits(c, s)
    ensures var t := Offer(c, s, data, ready);
            && |t.log| == |s.log| + 1 && s.log <= t.log && t.gone == s.gone && t.rx == s.rx
            && TakenOf(data, t.log[|s.log|]) && t.queue == s.queue + t.log[|s.log|].taken
            && (ready ==> t.log[|s.log|].taken == data || |t.queue| == c.txSize)
            && (!ready ==> t.queue == s.queue)
  {
    if ready && |data| <= c.txSize - |s.queue| {
      assert data[..|data|] == data;
    }
  }

  lemma GreedyOneMore(log: seq<Write>, writes: seq<seq<byte>>, full: bool, w: Write, data: seq<byte>, now: bool)
    requires Greedy(log, writes, full) && TakenOf(data, w)
    requires (full ==> now && w.taken == []) && (w.taken == data || now)
    ensures Greedy(log + [w], writes + [data], now)
  {
  }

  /** Several writes share the room that is left in their order. */
  lemma {:induction false} OfferAllTakes(c: Config, s: State, writes: seq<seq<byte>>)
    requires Fits(c, s)
    ensures Wrote(c, s, OfferAll(c, s, writes), writes)
  {
    hide Offer, TakenOf, Greedy;
    if writes == [] {
      assert s.log[|s.log|..] == [];
      GreedyNone(|s.queue| == c.txSize);
    } else {
      var n := |writes| - 1;
      var t := OfferAll(c, s, writes[..n]);
      var u := OfferAll(c, s, writes);
      OfferAllTakes(c, s, writes[..n]);
      OfferTakes(c, t, writes[n], true);
      GreedyOneMore(t.log[|s.log|..], writes[..n], |t.queue| == c.txSize, u.log[|t.log|], writes[n],
                    |u.queue| == c.txSize);
      assert writes == writes[..n] + [writes[n]];
      assert u.log[|s.log|..] == t.log[|s.log|..] + [u.log[|t.log|]];
    }
  }

  lemma GreedyNone(full: bool)
    ensures Greedy([], [], full)
  {
  }

  /** What other tasks write in these rounds, in order. */
  function WritesIn(rounds: seq<Round>): seq<seq<byte>> {
    if rounds == [] then [] else rounds[0].during + rounds[0].after + WritesIn(rounds[1..])
  }

  function Datas(log: seq<Write>): (r: seq<seq<byte>>)
    ensures |r| == |log|
  {
    seq(|log|, i requires 0 <= i < |log| => log[i].data)
  }

  /** A drain records every write of the rounds that took place, the refused one's included, and no
      other. */
  lemma {:induction false} DrainLogs(c: Config, maxLen: nat, s: State, rounds: seq<Round>)
    requires Fits(c, s)
    ensures var (t, ending) := Drain(c, maxLen, s, rounds);
            var n := |t.gone| - |s.gone|;
            && s.log <= t.log && 0 <= n <= |rounds|
            && (ending == OutOfBuffers || ending == Refused ==> n < |rounds|)
            && Datas(t.log[|s.log|..])
               == WritesIn(rounds[..n]) + if ending == OutOfBuffers || ending == Refused then rounds[n].during else []
    decreases |rounds|
  {
    hide OfferAll, Turn;
    assert s.log[|s.log|..] == [];
    if s.queue != [] && maxLen != 0 && rounds != [] {
      if rounds[0].notified {
        var t := Turn(c, s, Min(maxLen, |s.queue|), rounds[0]);
        TurnHands(c, s, Min(maxLen, |s.queue|), rounds[0]);
        TurnLogs(c, s, Min(maxLen, |s.queue|), rounds[0]);
        DrainLogs(c, maxLen, t, rounds[1..]);
        var u := Drain(c, maxLen, t, rounds[1..]).0;
        DatasAppend(s.log, t.log, u.log);
        var n := |u.gone| - |s.gone|;
        assert rounds[..n][1..] == rounds[1..][..n - 1] && rounds[..n][0] == rounds[0];
      } else {
        OfferAllKeeps(c, s, rounds[0].during);
        WroteDatas(c, s, rounds[0].during);
        assert rounds[..0] == [];
      }
    }
  }

  lemma DatasAppend(a: seq<Write>, b: seq<Write>, c: seq<Write>)
    requires a <= b <= c
    ensures Datas(c[|a|..]) == Datas(b[|a|..]) + Datas(c[|b|..])
  {
  }

  lemma WroteDatas(c: Config, s: State, writes: seq<seq<byte>>)
    requires Fits(c, s)
    ensures s.log <= OfferAll(c, s, writes).log && Datas(OfferAll(c, s, writes).log[|s.log|..]) == writes
  {
    hide OfferAll;
    OfferAllTakes(c, s, writes);
    var t := OfferAll(c, s, writes);
    forall i | 0 <= i < |writes|
      ensures t.log[|s.log|..][i].data == writes[i]
    {
      assert TakenOf(writes[i], t.log[|s.log|..][i]);
    }
  }

  lemma TurnLogs(c: Config, s: State, n: nat, r: Round)
    requires Fits(c, s) && n <= |s.queue|
    ensures s.log <= Turn(c, s, n, r).log && Datas(Turn(c, s, n, r).log[|s.log|..]) == r.during + r.after
  {
    hide OfferAll, Datas;
    var a := OfferAll(c, s, r.during);
    WroteDatas(c, s, r.during);
    WroteDatas(c, Hand(c, a, n), r.after);
    DatasAppend(s.log, a.log, Turn(c, s, n, r).log);
  }

  // ---------------------------------------------------------------- chunks, on every run

  /** What an event may take from the queue: a drain hands over chunks that fit its MTU, a flush
      does so at the MTU of one of its passes or gives up, and nothing else takes anything. */
  ghost predicate Allowed(c: Config, e: Event, p: Piece) {
    match e
    case DrainEvent(ready, mtu, _) => p.Handed? && ready && Within(c, mtu, p.bytes)
    case FlushEvent(passes) => p.Handed? ==> FitsSome(c, passes, p.bytes)
    case _ => false
  }

  lemma StepHands(c: Config, s: State, e: Event)
    requires Fits(c, s)
    ensures s.gone <= Step(c, s, e).gone
    ensures forall k :: |s.gone| <= k < |Step(c, s, e).gone| ==> Allowed(c, e, Step(c, s, e).gone[k])
  {
    hide Offer, Send, Flush, AfterPush, Within, FitsSome;
    match e
    case WriteEvent(data, ready) => OfferKeeps(c, s, data, ready);
    case DrainEvent(ready, mtu, rounds) => SendHands(c, s, ready, mtu, rounds);
    case FlushEvent(passes) => FlushGivesUp(c, s, passes);
    case PushEvent(_, _, _) =>
  }

  /** On every run: each piece that leaves the queue leaves it in a drain or a flush of the run, and
      a piece handed to the stack fits the MTU of that very send. */
  lemma {:induction false} EveryChunkFits(c: Config, s: State, events: seq<Event>, k: nat)
    requires Fits(c, s) && |s.gone| <= k < |Run(c, s, events).gone|
    ensures exists i :: 0 <= i < |events| && Allowed(c, events[i], Run(c, s, events).gone[k])
  {
    hide Step, Allowed;
    if events != [] {
      var n := |events| - 1;
      var t := Run(c, s, events[..n]);
      StepHands(c, t, events[n]);
      if k < |t.gone| {
        EveryChunkFits(c, s, events[..n], k);
        var i :| 0 <= i < n && Allowed(c, events[..n][i], t.gone[k]);
        assert Allowed(c, events[i], Run(c, s, events).gone[k]);
      } else {
        assert Allowed(c, events[n], Run(c, s, events).gone[k]);
      }
    }
  }

  // ---------------------------------------------------------------- how much a send delivers

  /** Nobody writes in these rounds. */
  ghost predicate Quiet(rounds: seq<Round>) {
    forall r :: r in rounds ==> r.during == [] && r.after == []
  }

  ghost predicate AllAccepted(rounds: seq<Round>) {
    forall i :: 0 <= i < |rounds| ==> rounds[i].notified
  }

  /** With nobody writing, a drain moves the front of the queue to the stack: nothing is lost or
      reordered, and every chunk is as long as the limit allows but the one that empties the queue. */
  lemma {:induction false} QuietDrain(c: Config, maxLen: nat, s: State, rounds: seq<Round>)
    requires Fits(c, s) && Quiet(rounds)
    ensures var t := Drain(c, maxLen, s, rounds).0;
            && s.gone <= t.gone && t.log == s.log && t.rx == s.rx
            && GoneBytes(t.gone) + t.queue == GoneBytes(s.gone) + s.queue
            && |t.queue| + |t.gone| <= |s.queue| + |s.gone| && (t.gone == s.gone ==> t == s)
            && (t.queue != [] ==> |s.queue| == |t.queue| + (|t.gone| - |s.gone|) * maxLen)
            && (forall k :: |s.gone| <= k < |t.gone| - One(t.queue == []) ==> |t.gone[k].bytes| == maxLen)
    decreases |rounds|
  {
    hide GoneBytes, Turn, OfferAll;
    OfferNothing(c, s);
    if s.queue != [] && maxLen != 0 && rounds != [] {
      assert rounds[0] in rounds;
      if rounds[0].notified {
        var t := Turn(c, s, Min(maxLen, |s.queue|), rounds[0]);
        QuietTurn(c, s, Min(maxLen, |s.queue|), rounds[0]);
        QuietDrain(c, maxLen, t, rounds[1..]);
        Grows((|Drain(c, maxLen, t, rounds[1..]).0.gone| - |t.gone|), maxLen);
      }
    }
  }

  function One(b: bool): nat {
    if b then 1 else 0
  }

  lemma Grows(n: int, m: int)
    ensures (n + 1) * m == n * m + m
  {
  }

  lemma QuietTurn(c: Config, s: State, n: nat, r: Round)
    requires Fits(c, s) && n <= |s.queue| && r.during == [] && r.after == []
    ensures var t := Turn(c, s, n, r);
            && t == State(s.queue[n..], s.rx, s.log, s.gone + [Handed(s.queue[..n])])
            && GoneBytes(t.gone) + t.queue == GoneBytes(s.gone) + s.queue
  {
    var t := Turn(c, s, n, r);
    assert t.gone[..|s.gone|] == s.gone;
    assert GoneBytes(t.gone) == GoneBytes(s.gone) + s.queue[..n];
    assert s.queue == s.queue[..n] + s.queue[n..];
  }

  /** If the stack accepts as many chunks as the queue fills, the whole queue is delivered. */
  lemma QuietDrainDelivers(c: Config, maxLen: nat, s: State, rounds: seq<Round>)
    requires Fits(c, s) && Quiet(rounds) && AllAccepted(rounds) && maxLen > 0 && |s.queue| <= |rounds| * maxLen
    ensures var (t, ending) := Drain(c, maxLen, s, rounds);
            ending == Drained && t.queue == [] && GoneBytes(t.gone) == GoneBytes(s.gone) + s.queue
  {
    hide Drain, GoneBytes;
    QuietDrain(c, maxLen, s, rounds);
    DrainHands(c, maxLen, s, rounds);
    var t := Drain(c, maxLen, s, rounds).0;
    assert GoneBytes(t.gone) + [] == GoneBytes(t.gone);
  }

  // ---------------------------------------------------------------- when a flush gives up

  /** Nobody writes during this pass of a flush. */
  ghost predicate QuietPass(p: Pass) {
    p.start == [] && p.early == [] && p.late == [] && Quiet(p.rounds)
  }

  /** The stack accepts a chunk in this pass. */
  predicate Moves(p: Pass) {
    p.ready && 23 <= p.mtu && p.rounds != [] && p.rounds[0].notified
  }

  /** The stack is out of buffers at once, and the timeout still allows to wait for some. */
  predicate Waits(p: Pass) {
    p.ready && 23 <= p.mtu && p.rounds != [] && !p.rounds[0].notified && p.rounds[0].lowOnBuffers && p.mayWait
  }

  /** The pass is observed to its end, for a queue of n bytes. */
  ghost predicate Observed(p: Pass, n: nat) {
    !p.ready || p.mtu < 23 || (exists r :: r in p.rounds && !r.notified) || |p.rounds| >= n
  }

  lemma QuietSend(c: Config, s: State, p: Pass)
    requires Fits(c, s) && QuietPass(p) && s.queue != [] && c.chunkBufSize > 0
    ensures var (t, ending) := Send(c, s, p.ready, p.mtu, p.rounds);
            && s.gone <= t.gone && t.log == s.log && t.rx == s.rx
            && (forall k :: |s.gone| <= k < |t.gone| ==> t.gone[k].Handed?)
            && GoneBytes(t.gone) + t.queue == GoneBytes(s.gone) + s.queue
            && (if Moves(p) then |t.queue| < |s.queue| else t == s)
            && (Observed(p, |s.queue|) ==> ending != Preempted)
            && (Waits(p) ==> ending == OutOfBuffers)
            && (ending == OutOfBuffers && p.mayWait ==> Moves(p) || Waits(p))
  {
    hide Drain, GoneBytes;
    if p.ready && 23 <= p.mtu {
      var maxLen := Min(p.mtu - 3, c.chunkBufSize);
      QuietDrain(c, maxLen, s, p.rounds);
      DrainHands(c, maxLen, s, p.rounds);
      var (t, ending) := Drain(c, maxLen, s, p.rounds);
      if ending == Preempted && exists r :: r in p.rounds && !r.notified {
        assert false;
      }
    }
  }

  /** One pass with nobody writing: it goes on if the stack took a chunk and left some, or is worth
      waiting for, and otherwise ends with everything delivered or, if no chunk moved, given up. */
  lemma QuietPassEnds(c: Config, s: State, p: Pass)
    requires Fits(c, s) && QuietPass(p) && Observed(p, |s.queue|) && s.queue != [] && c.chunkBufSize > 0
    ensures var (t, ending, more) := FlushTurn(c, s, p);
            && s.gone <= t.gone && t.log == s.log && ending != Preempted
            && (more ==> t.queue != [])
            && (Moves(p) ==> |t.queue| < |s.queue| && (more || t.queue == []))
            && (Waits(p) ==> t == s && more)
            && (Moves(p) || Waits(p) ==>
                  && t.rx == s.rx && GoneBytes(t.gone) + t.queue == GoneBytes(s.gone) + s.queue
                  && (forall k :: |s.gone| <= k < |t.gone| ==> t.gone[k].Handed?))
            && (!Moves(p) && !Waits(p) ==> !more && t == State([], [], s.log, s.gone + [Lost(s.queue)]))
  {
    hide Send, GoneBytes, Observed;
    QuietSend(c, s, p);
  }

  /** Whatever is written meanwhile, the flush goes on after a pass if the queue is shorter than
      before it, or the stack ran out of buffers and there is time left to wait; if neither, it
      gives up all there is. What is written after it has looked does not matter. */
  lemma FlushTurnDecides(c: Config, s: State, p: Pass)
    requires Fits(c, s) && s.queue != []
    ensures var (t, ending, more) := FlushTurn(c, s, p.(late := []));
            && (more ==> t.queue != [] && (|t.queue| < |s.queue| || (ending == OutOfBuffers && p.mayWait)))
            && (!more && ending != Preempted && t.gone != [] && t.gone[|t.gone| - 1].Lost? && s.gone < t.gone ==>
                  |t.gone[|t.gone| - 1].bytes| >= |s.queue| && !(ending == OutOfBuffers && p.mayWait))
            && FlushTurn(c, s, p).1 == ending && FlushTurn(c, s, p).2 == more
            && (more ==> FlushTurn(c, s, p).0 == OfferAll(c, t, p.late))
  {
    hide OfferAll, Send;
    var first := OfferAll(c, s, p.start);
    OfferAllKeeps(c, s, p.start);
    var sent := Send(c, first, p.ready, p.mtu, p.rounds).0;
    SendHands(c, first, p.ready, p.mtu, p.rounds);
    OfferAllKeeps(c, sent, p.early);
    OfferNothing(c, OfferAll(c, sent, p.early));
  }

  lemma OfferNothing(c: Config, s: State)
    requires Fits(c, s)
    ensures OfferAll(c, s, []) == s
  {
  }

  function Movers(passes: seq<Pass>): (n: nat)
    ensures n <= |passes|
  {
    if passes == [] then 0 else (if Moves(passes[0]) then 1 else 0) + Movers(passes[1..])
  }

  /** A flush with nobody else writing gives nothing up while the stack keeps taking chunks or is
      worth waiting for. As every such pass but the waiting ones shortens the queue, it comes to its
      end, with every byte delivered, within as many of them as there are bytes. */
  lemma {:induction false} FlushDelivers(c: Config, s: State, passes: seq<Pass>)
    requires Fits(c, s) && c.chunkBufSize > 0
    requires forall p :: p in passes ==> QuietPass(p) && Observed(p, |s.queue|) && (Moves(p) || Waits(p))
    ensures var (t, finished) := Flush(c, s, passes);
            && t.rx == s.rx && t.log == s.log
            && GoneBytes(t.gone) + t.queue == GoneBytes(s.gone) + s.queue
            && s.gone <= t.gone && (forall k :: |s.gone| <= k < |t.gone| ==> t.gone[k].Handed?)
            && (finished <==> t.queue == []) && (finished || |t.queue| + Movers(passes) <= |s.queue|)
    decreases |passes|
  {
    hide FlushTurn, GoneBytes, Observed, QuietPass, Moves, Waits;
    if s.queue != [] && passes != [] {
      QuietPassEnds(c, s, passes[0]);
      var (t, ending, more) := FlushTurn(c, s, passes[0]);
      if more {
        forall p | p in passes[1..]
          ensures Observed(p, |t.queue|)
        {
          ObservedSooner(p, |s.queue|, |t.queue|);
        }
        FlushDelivers(c, t, passes[1..]);
      }
    }
  }

  lemma ObservedSooner(p: Pass, m: nat, n: nat)
    requires Observed(p, m) && n <= m
    ensures Observed(p, n)
  {
  }

  /** A pass in which no chunk moves and that is not worth waiting for ends the flush at once:
      whatever is queued in either direction is gone. */
  lemma FlushStuck(c: Config, s: State, passes: seq<Pass>)
    requires Fits(c, s) && c.chunkBufSize > 0 && s.queue != [] && passes != []
    requires QuietPass(passes[0]) && Observed(passes[0], |s.queue|) && !Moves(passes[0]) && !Waits(passes[0])
    ensures Flush(c, s, passes) == (State([], [], s.log, s.gone + [Lost(s.queue)]), true)
  {
    hide FlushTurn, Observed;
    QuietPassEnds(c, s, passes[0]);
  }
}
