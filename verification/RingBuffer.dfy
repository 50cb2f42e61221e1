/** The byte ring buffer behind a stream: two cursors over a fixed array that
    together behave as a bounded first-in first-out queue. */
module RingBuffer {
  import opened Bits

  function Min(a: nat, b: nat): nat {
    if a < b then a else b
  }

  /** An index below 2n brought back below n. */
  function Wrap(x: nat, n: nat): (r: nat)
    requires x < 2 * n
    ensures r < n
  {
    if x < n then x else x - n
  }

  /** That is what % does to every cursor here. */
  lemma WrapIsMod(x: nat, n: nat)
    requires x < 2 * n
    ensures x % n == Wrap(x, n)
  {
    var q, r := x / n, x % n;
    assert x == q * n + r;
    Multiples(q, n);
  }

  lemma Multiples(q: int, n: nat)
    ensures q >= 2 ==> q * n >= 2 * n
    ensures q <= 0 ==> q * n <= 0
  {
  }

  /** How every cursor moves. */
  function Advance(cursor: nat, count: nat, capacity: nat): (r: nat)
    requires cursor < capacity && count <= capacity
    ensures r == Wrap(cursor + count, capacity)
  {
    WrapIsMod(cursor + count, capacity);
    (cursor + count) % capacity
  }

  /** The queue stored in ring, of the given size, starting at tail. */
  ghost function Unroll(ring: seq<byte>, tail: nat, size: nat): (s: seq<byte>)
    requires size <= |ring| && tail <= |ring|
    ensures |s| == size
  {
    seq(size, i requires 0 <= i < size => ring[Wrap(tail + i, |ring|)])
  }

  /** How far index k lies behind head, going round a ring of n. */
  function Behind(head: nat, k: nat, n: nat): (off: nat)
    requires head < n && k < n
    ensures off < n && Wrap(head + off, n) == k
  {
    if k >= head then k - head else k + n - head
  }

  /** The ring after writing data at head, wrapping as needed. */
  ghost function Written(ring: seq<byte>, head: nat, data: seq<byte>): (r: seq<byte>)
    requires head < |ring| && |data| <= |ring|
    ensures |r| == |ring|
  {
    seq(|ring|, k requires 0 <= k < |ring| =>
      if Behind(head, k, |ring|) < |data| then data[Behind(head, k, |ring|)] else ring[k])
  }

  class ByteRingBuffer {
    const buf: array<byte>
    var head: nat
    var tail: nat
    var size: nat

    ghost predicate Valid()
      reads this
    {
      && size <= buf.Length
      && (buf.Length == 0 ==> head == 0 && tail == 0)
      && (buf.Length > 0 ==> tail < buf.Length && head == Wrap(tail + size, buf.Length))
    }

    /** The queue held, oldest byte first. */
    ghost function Contents(): (s: seq<byte>)
      requires Valid()
      reads this, buf
      ensures |s| == size
    {
      Unroll(buf[..], tail, size)
    }

    constructor (capacity: nat)
      ensures Valid() && Contents() == [] && buf.Length == capacity && fresh(buf)
    {
      buf := new byte[capacity];
      head, tail, size := 0, 0, 0;
    }

    /** memcpy into the ring at a given index. */
    method CopyIn(at: nat, data: seq<byte>)
      requires at + |data| <= buf.Length
      modifies buf
      ensures forall k :: 0 <= k < buf.Length ==>
                            buf[k] == if at <= k < at + |data| then data[k - at] else old(buf[k])
    {
      forall i | 0 <= i < |data| {
        buf[at + i] := data[i];
      }
    }

    /** Copies data to the head of the ring, in two pieces when it wraps. */
    method CopyPieces(data: seq<byte>)
      requires head < buf.Length && |data| <= buf.Length
      modifies buf
      ensures buf[..] == Written(old(buf[..]), head, data)
    {
      var first := Min(|data|, buf.Length - head);
      CopyIn(head, data[..first]);
      var remain := |data| - first;
      if remain > 0 {
        CopyIn(0, data[first..]);
      }
    }

    /** What those copies mean for the queue once it is declared longer. */
    method CopyWrapped(data: seq<byte>)
      requires Valid() && 0 < |data| && size + |data| <= buf.Length
      modifies buf
      ensures Unroll(buf[..], tail, size + |data|) == old(Contents()) + data
    {
      UnrollWrite(buf[..], tail, size, data);
      CopyPieces(data);
    }

    /** Appends the longest prefix of data that fits. */
    method Write(data: seq<byte>) returns (count: nat)
      requires Valid()
      modifies this, buf
      ensures Valid()
      ensures count == Min(|data|, buf.Length - old(size))
      ensures Contents() == old(Contents()) + data[..count]
    {
      if |data| == 0 || size >= buf.Length {
        assert data[..0] == [];
        return 0;
      }
      count := Min(|data|, buf.Length - size);
      CopyWrapped(data[..count]);
      head := Advance(head, count, buf.Length);
      size := size + count;
    }

    /** Copies out the oldest len bytes, or all there are, leaving them queued. */
    method Peek(len: nat) returns (out: seq<byte>)
      requires Valid()
      ensures out == Contents()[..Min(len, size)]
    {
      if len == 0 || size == 0 {
        return [];
      }
      var count := Min(len, size);
      var first := Min(count, buf.Length - tail);
      UnrollPrefix(buf[..], tail, size, count);
      out := buf[tail..tail + first];
      var remain := count - first;
      if remain > 0 {
        out := out + buf[..remain];
      } else {
        assert out == out + buf[..remain];
      }
    }

    /** Forgets the oldest len bytes, or all there are. */
    method Drop(len: nat) returns (count: nat)
      requires Valid()
      modifies this
      ensures Valid()
      ensures count == Min(len, old(size))
      ensures Contents() == old(Contents())[count..]
    {
      if len == 0 || size == 0 {
        return 0;
      }
      count := Min(len, size);
      UnrollDrop(buf[..], tail, size, count);
      tail := Advance(tail, count, buf.Length);
      size := size - count;
    }

    /** Takes out the oldest len bytes, or all there are. */
    method Read(len: nat) returns (out: seq<byte>)
      requires Valid()
      modifies this
      ensures Valid()
      ensures out == old(Contents())[..Min(len, old(size))]
      ensures old(Contents()) == out + Contents()
    {
      if len == 0 || size == 0 {
        return [];
      }
      var count := Min(len, size);
      out := Peek(count);
      var dropped := Drop(count);
    }
  }

  /** The head is the tail plus the size, modulo the capacity. */
  lemma CursorsAgree(b: ByteRingBuffer)
    requires b.Valid() && b.buf.Length > 0
    ensures b.head == (b.tail + b.size) % b.buf.Length
  {
    WrapIsMod(b.tail + b.size, b.buf.Length);
  }

  /** Overwriting the free part of the ring appends to the queue. */
  lemma UnrollWrite(ring: seq<byte>, tail: nat, size: nat, data: seq<byte>)
    requires tail < |ring| && size + |data| <= |ring|
    ensures Unroll(Written(ring, Wrap(tail + size, |ring|), data), tail, size + |data|)
         == Unroll(ring, tail, size) + data
  {
    var n, head := |ring|, Wrap(tail + size, |ring|);
    var a, b := Unroll(Written(ring, head, data), tail, size + |data|), Unroll(ring, tail, size) + data;
    forall i | 0 <= i < size + |data|
      ensures a[i] == b[i]
    {
      var k := Wrap(tail + i, n);
      assert a[i] == Written(ring, head, data)[k];
      assert i < size ==> Behind(head, k, n) >= |data|;
      assert i >= size ==> Behind(head, k, n) == i - size;
    }
  }

  /** Moving the tail drops a prefix of the queue. */
  lemma UnrollDrop(ring: seq<byte>, tail: nat, size: nat, count: nat)
    requires tail < |ring| && count <= size <= |ring|
    ensures Unroll(ring, Wrap(tail + count, |ring|), size - count) == Unroll(ring, tail, size)[count..]
  {
    var a, b := Unroll(ring, Wrap(tail + count, |ring|), size - count), Unroll(ring, tail, size);
    forall i | 0 <= i < size - count
      ensures a[i] == b[count..][i]
    {
      assert Wrap(Wrap(tail + count, |ring|) + i, |ring|) == Wrap(tail + (count + i), |ring|);
      assert b[count..][i] == b[count + i];
    }
  }

  /** Reading up to the end of the array and then from its start yields a prefix. */
  lemma UnrollPrefix(ring: seq<byte>, tail: nat, size: nat, count: nat)
    requires tail < |ring| && count <= size <= |ring|
    ensures var first := Min(count, |ring| - tail);
            ring[tail..tail + first] + ring[..count - first] == Unroll(ring, tail, size)[..count]
  {
    var first := Min(count, |ring| - tail);
    var a, b := ring[tail..tail + first] + ring[..count - first], Unroll(ring, tail, size);
    forall i | 0 <= i < count
      ensures a[i] == b[..count][i]
    {
      assert b[i] == ring[Wrap(tail + i, |ring|)];
    }
  }
}
