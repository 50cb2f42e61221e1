/** A byte stream over BLE notifications. Writers queue bytes in the TX ring; a single
    drainer peeks a chunk, hands it to the stack and drops it once the stack took it.
    Received bytes land in the RX ring under an overflow policy. */
module Stream {
  import opened Bits
  import opened RingBuffer
  import opened Spec = StreamSpec

  class StreamServer {
    const tx: ByteRingBuffer
    const rx: ByteRingBuffer
    const chunkBufSize: nat
    ghost var log: seq<Write>
    ghost var gone: seq<Piece>

    ghost predicate Valid()
      reads this, tx, tx.buf, rx, rx.buf
    {
      && tx != rx && tx.buf != rx.buf
      && tx.Valid() && rx.Valid()
    }

    ghost function Cfg(): Config {
      Config(tx.buf.Length, rx.buf.Length, chunkBufSize)
    }

    /** The state of the specification. */
    ghost function Now(): State
      requires Valid()
      reads this, tx, tx.buf, rx, rx.buf
    {
      State(tx.Contents(), rx.Contents(), log, gone)
    }

    constructor (txBufSize: nat, rxBufSize: nat, chunkBufSize: nat)
      ensures Valid() && fresh(tx) && fresh(tx.buf) && fresh(rx) && fresh(rx.buf)
      ensures Now() == EMPTY && Cfg() == Config(txBufSize, rxBufSize, chunkBufSize)
    {
      var t := new ByteRingBuffer(txBufSize);
      var r := new ByteRingBuffer(rxBufSize);
      tx, rx := t, r;
      this.chunkBufSize := chunkBufSize;
      log, gone := [], [];
    }

    /** Queues the prefix of data that fits; nothing while not ready. */
    method Write(data: seq<byte>, ready: bool) returns (written: nat)
      requires Valid()
      modifies this`log, tx, tx.buf
      ensures Valid()
      ensures written == if ready then Min(|data|, tx.buf.Length - old(tx.size)) else 0
      ensures Now() == Offer(Cfg(), old(Now()), data, ready)
    {
      written := 0;
      if ready {
        written := tx.Write(data);
      } else {
        assert data[..0] == [];
      }
      log := log + [Spec.Write(data, data[..written])];
    }

    /** Writes other tasks make at this point. */
    method Interfere(writes: seq<seq<byte>>)
      requires Valid()
      modifies this`log, tx, tx.buf
      ensures Valid() && Now() == OfferAll(Cfg(), old(Now()), writes)
    {
      hide Offer;
      for i := 0 to |writes|
        invariant Valid() && Now() == OfferAll(Cfg(), old(Now()), writes[..i])
      {
        assert writes[..i + 1][..i] == writes[..i];
        var _ := Write(writes[i], true);
      }
      assert writes[..|writes|] == writes;
    }

    /** The stack took a chunk that is still the oldest part of the queue: drop it. */
    method HandOver(chunk: seq<byte>)
      requires Valid() && chunk <= tx.Contents()
      modifies this`gone, tx
      ensures Valid() && Now() == Hand(Cfg(), old(Now()), |chunk|)
    {
      assert chunk == tx.Contents()[..|chunk|];
      var _ := tx.Drop(|chunk|);
      gone := gone + [Handed(chunk)];
    }

    /** send(): drains until the queue is empty or the stack refuses; one chunk is handed over
        for each round the stack accepts. Asks for a retry exactly when the round that stopped it
        was refused for lack of buffers; never drops what was not handed over. */
    method Send(ready: bool, mtu: nat, rounds: seq<Round>) returns (retry: bool, ending: Ending)
      requires Valid()
      modifies this, tx, tx.buf
      ensures Valid() && (Now(), ending) == Spec.Send(Cfg(), old(Now()), ready, mtu, rounds)
      ensures retry <==> ending == OutOfBuffers
    {
      hide Turn, OfferAll;
      if !ready || mtu < 23 {
        return false, Unready;
      }
      var maxDataLen := Min(mtu - 3, chunkBufSize);
      var r := 0;
      assert rounds[0..] == rounds;
      while tx.size > 0
        invariant 0 <= r <= |rounds| && Valid()
        invariant Drain(Cfg(), maxDataLen, Now(), rounds[r..]) == Drain(Cfg(), maxDataLen, old(Now()), rounds)
        decreases |rounds| - r
      {
        var chunk := tx.Peek(maxDataLen);
        if |chunk| == 0 {
          break;
        }
        if r == |rounds| {
          return false, Preempted;
        }
        var round := rounds[r];
        assert rounds[r..][0] == round && rounds[r..][1..] == rounds[r + 1..];
        r := r + 1;
        if !round.notified {
          Interfere(round.during);
          if round.lowOnBuffers {
            return true, OutOfBuffers;
          }
          return false, Refused;
        }
        TakeTurn(chunk, round);
      }
      return false, Drained;
    }

    /** What happens between a peek and the next one, when the stack takes the chunk. */
    method TakeTurn(chunk: seq<byte>, round: Round)
      requires Valid() && chunk <= tx.Contents()
      modifies this, tx, tx.buf
      ensures Valid() && Now() == Turn(Cfg(), old(Now()), |chunk|, round)
    {
      hide OfferAll;
      Interfere(round.during);
      HandOver(chunk);
      Interfere(round.after);
    }

    /** Giving up: both rings are emptied. */
    method ClearBoth()
      requires Valid()
      modifies this`gone, tx, rx
      ensures Valid() && Now() == GiveUp(old(Now()))
    {
      ghost var queue, received := tx.Contents(), rx.Contents();
      gone := gone + [Lost(queue)];
      Emptied(queue);
      Emptied(received);
      var _ := tx.Drop(tx.size);
      var _ := rx.Drop(rx.size);
    }

    /** flush(): sends until the queue is empty, and gives up by clearing both rings. Each pass
        supplies a send's rounds, what is written around it, and whether the timeout allows a wait. */
    method Flush(passes: seq<Pass>) returns (finished: bool)
      requires Valid()
      modifies this, tx, tx.buf, rx
      ensures Valid() && (Now(), finished) == Spec.Flush(Cfg(), old(Now()), passes)
    {
      hide FlushTurn;
      var p := 0;
      assert passes[0..] == passes;
      while tx.size > 0
        invariant 0 <= p <= |passes| && Valid()
        invariant Spec.Flush(Cfg(), Now(), passes[p..]) == Spec.Flush(Cfg(), old(Now()), passes)
        decreases |passes| - p
      {
        if p == |passes| {
          return false;
        }
        assert passes[p..][0] == passes[p] && passes[p..][1..] == passes[p + 1..];
        var ending;
        var more;
        more, ending := OnePass(passes[p]);
        p := p + 1;
        if !more {
          return ending != Preempted;
        }
      }
      return true;
    }

    method OnePass(pass: Pass) returns (more: bool, ending: Ending)
      requires Valid()
      modifies this, tx, tx.buf, rx
      ensures Valid() && (Now(), ending, more) == FlushTurn(Cfg(), old(Now()), pass)
    {
      hide OfferAll, Spec.Send;
      var before := tx.size;
      Interfere(pass.start);
      var retry;
      retry, ending := Send(pass.ready, pass.mtu, pass.rounds);
      if ending == Preempted {
        return false, ending;
      }
      Interfere(pass.early);
      var after := tx.size;
      if after == 0 {
        return false, ending;
      }
      Interfere(pass.late);
      if after < before || (retry && pass.mayWait) {
        return true, ending;
      }
      ClearBoth();
      return false, ending;
    }

    /** Any interleaving of writes, drains, flushes and received data. */
    method Run(events: seq<Event>)
      requires Valid()
      modifies this, tx, tx.buf, rx, rx.buf
      ensures Valid() && Now() == Spec.Run(Cfg(), old(Now()), events)
      ensures old(Accounted(Now())) ==> Accounted(Now())
    {
      hide Offer, Spec.Send, Spec.Flush, AfterPush, Accounted;
      for i := 0 to |events|
        invariant Valid() && Now() == Spec.Run(Cfg(), old(Now()), events[..i])
      {
        assert events[..i + 1][..i] == events[..i];
        match events[i]
        case WriteEvent(data, ready) => var _ := Write(data, ready);
        case DrainEvent(ready, mtu, rounds) => var _, _ := Send(ready, mtu, rounds);
        case FlushEvent(passes) => var _ := Flush(passes);
        case PushEvent(received, ready, action) => var _ := PushRx(received, ready, action);
      }
      assert events[..|events|] == events;
      if Accounted(old(Now())) {
        EveryByteOnce(Cfg(), old(Now()), events);
      }
    }

    /** pushRx(): queues received data. On overflow the policy decides: keep the newest
        bytes of old-then-new, or refuse the new data whole. */
    method PushRx(data: seq<byte>, ready: bool, action: OverflowAction) returns (pushed: nat)
      requires Valid()
      modifies rx, rx.buf
      ensures Valid() && Now() == Step(Cfg(), old(Now()), PushEvent(data, ready, action))
      ensures pushed == if !ready then 0
                        else if |data| <= rx.buf.Length - old(rx.size) then |data|
                        else if action == DropNewData then 0 else Min(|data|, rx.buf.Length)
    {
      hide AfterPush;
      pushed := 0;
      if ready {
        pushed := PushReady(data, action);
      }
    }

    method PushReady(data: seq<byte>, action: OverflowAction) returns (pushed: nat)
      requires Valid()
      modifies rx, rx.buf
      ensures Valid() && tx.Contents() == old(tx.Contents())
      ensures rx.Contents() == AfterPush(old(rx.Contents()), data, rx.buf.Length, action)
      ensures pushed == if |data| <= rx.buf.Length - old(rx.size) then |data|
                        else if action == DropNewData then 0 else Min(|data|, rx.buf.Length)
    {
      hide AfterPush, Last;
      PushCases(rx.Contents(), data, rx.buf.Length, action);
      var freeSize := rx.buf.Length - rx.size;
      if |data| > freeSize {
        if action != DropOlderData {
          return 0;
        }
        pushed := PushNewest(data);
        return;
      }
      pushed := rx.Write(data);
    }

    /** The drop-older branch of pushRx. */
    method PushNewest(data: seq<byte>) returns (pushed: nat)
      requires Valid() && |data| > rx.buf.Length - rx.size
      modifies rx, rx.buf
      ensures Valid() && tx.Contents() == old(tx.Contents())
      ensures pushed == Min(|data|, rx.buf.Length)
      ensures rx.Contents() == Last(old(rx.Contents()) + data, rx.buf.Length)
    {
      var capacity := rx.buf.Length;
      NewestBytes(rx.Contents(), data, capacity);
      if |data| >= capacity {
        var dropped := rx.Drop(rx.size);
        var tail := data[|data| - capacity..];
        pushed := rx.Write(tail);
        assert tail[..capacity] == tail;
      } else {
        var requiredSpace := |data| - (capacity - rx.size);
        var dropped := rx.Drop(requiredSpace);
        assert dropped == requiredSpace; // so the error return for too little dropped is never taken
        pushed := rx.Write(data);
        assert data[..|data|] == data;
      }
    }
  }
}
