/** Attribute values: a growing byte buffer kept within a maximum and followed by a
    zero byte, and the two places where a fragmented value is put back together. */
module AttValue {
  import opened Bits
  import opened Options

  const BLE_ATT_ATTR_MAX_LEN: nat := 512

  function Concat(fragments: seq<seq<byte>>): seq<byte> {
    if fragments == [] then [] else fragments[0] + Concat(fragments[1..])
  }

  /** memcpy to the end of what a buffer holds. */
  method CopyAt(dst: array<byte>, at: nat, data: seq<byte>)
    requires at + |data| <= dst.Length
    modifies dst
    ensures dst[..at + |data|] == old(dst[..at]) + data
  {
    forall i | 0 <= i < |data| {
      dst[at + i] := data[i];
    }
    assert dst[..at] == old(dst[..at]);
    assert dst[at..at + |data|] == data;
  }

  /** Copies the fragments one after the other into a buffer of the maximum size, giving
      up at the first that does not fit: so exactly when the total does not. */
  method Collect(fragments: seq<seq<byte>>, maxLen: nat) returns (value: Option<seq<byte>>)
    requires |fragments| > 0
    ensures value == if |Concat(fragments)| <= maxLen then Some(Concat(fragments)) else None
  {
    ConcatStep(fragments, 1);
    assert fragments[..1][1..] == [];
    if |fragments[0]| > maxLen {
      return None;
    }
    var scratch := new byte[maxLen];
    CopyAt(scratch, 0, fragments[0]);
    var n: nat := |fragments[0]|;
    var k := 1;
    while k < |fragments|
      invariant 1 <= k <= |fragments|
      invariant 0 <= n <= maxLen && scratch[..n] == Concat(fragments[..k])
    {
      ConcatStep(fragments, k + 1);
      if n + |fragments[k]| > maxLen {
        return None;
      }
      CopyAt(scratch, n, fragments[k]);
      n := n + |fragments[k]|;
      k := k + 1;
    }
    assert fragments[..k] == fragments;
    return Some(scratch[..n]);
  }

  class Value {
    var buf: array<byte>
    var maxLen: nat
    var len: nat
    var capacity: nat

    /** Length within capacity, room for the terminator, terminator in place. */
    ghost predicate Valid()
      reads this, buf
    {
      && len <= capacity
      && buf.Length == capacity + 1
      && buf[len] == 0
    }

    ghost function Data(): (d: seq<byte>)
      requires Valid()
      reads this, buf
      ensures |d| == len
    {
      buf[..len]
    }

    constructor (initLen: nat, maxLen: nat)
      ensures Valid() && fresh(buf)
      ensures Data() == [] && capacity == initLen
      ensures this.maxLen <= maxLen && this.maxLen <= BLE_ATT_ATTR_MAX_LEN
      ensures this.maxLen == maxLen || this.maxLen == BLE_ATT_ATTR_MAX_LEN
    {
      buf := new byte[initLen + 1](i => 0);
      this.maxLen := if maxLen < BLE_ATT_ATTR_MAX_LEN then maxLen else BLE_ATT_ATTR_MAX_LEN;
      len, capacity := 0, initLen;
    }

    /** The value constructor copies without comparing with the maximum. */
    constructor FromBytes(value: seq<byte>, maxLen: nat)
      ensures Valid() && fresh(buf)
      ensures Data() == value
      ensures len <= this.maxLen <==> |value| <= maxLen && |value| <= BLE_ATT_ATTR_MAX_LEN
    {
      buf := new byte[|value| + 1](i => 0);
      this.maxLen := if maxLen < BLE_ATT_ATTR_MAX_LEN then maxLen else BLE_ATT_ATTR_MAX_LEN;
      len, capacity := |value|, |value|;
      new;
      forall i | 0 <= i < |value| {
        buf[i] := value[i];
      }
    }

    /** realloc: a larger buffer with the old bytes in front. */
    method Grow(newCapacity: nat)
      requires Valid() && newCapacity > capacity
      modifies this`buf, this`capacity
      ensures Valid() && fresh(buf)
      ensures capacity == newCapacity && Data() == old(Data())
    {
      var res := new byte[newCapacity + 1](i => 0);
      forall i | 0 <= i <= len {
        res[i] := buf[i];
      }
      buf, capacity := res, newCapacity;
    }

    /** Appends all of value, or nothing: it must fit the maximum, and a needed
        reallocation must succeed. */
    method Append(value: seq<byte>, allocOk: bool)
      requires Valid()
      modifies this, buf
      ensures Valid() && (buf == old(buf) || fresh(buf))
      ensures maxLen == old(maxLen)
      ensures capacity >= old(capacity)
      ensures Data() == if old(len) + |value| <= maxLen && (allocOk || old(len) + |value| <= old(capacity))
                        then old(Data()) + value else old(Data())
    {
      if |value| == 0 {
        return;
      }
      if len + |value| > maxLen {
        return;
      }
      var newLen := len + |value|;
      if newLen > capacity {
        if !allocOk {
          return;
        }
        Grow(newLen);
      }
      CopyAt(buf, len, value);
      buf[newLen] := 0;
      len := newLen;
    }

    /** Replaces the value. A value that does not fit leaves the attribute empty. */
    method Set(value: seq<byte>, allocOk: bool) returns (ok: bool)
      requires Valid()
      modifies this, buf
      ensures Valid() && (buf == old(buf) || fresh(buf))
      ensures maxLen == old(maxLen)
      ensures capacity >= old(capacity)
      ensures ok <==> |value| == 0 || (|value| <= maxLen && (allocOk || |value| <= old(capacity)))
      ensures Data() == if ok then value else []
    {
      len := 0;
      buf[0] := 0;
      Append(value, allocOk);
      return len == |value|;
    }

    /** Copy assignment: value, limits and allocated size of the other value. */
    method DeepCopy(source: Value, allocOk: bool)
      requires Valid() && source.Valid() && source != this
      modifies this
      ensures Valid() && source.Valid()
      ensures allocOk ==> Data() == old(source.Data()) && maxLen == source.maxLen && capacity == source.capacity
      ensures !allocOk ==> Data() == old(Data()) && maxLen == old(maxLen) && capacity == old(capacity)
    {
      if !allocOk {
        return;
      }
      var res := new byte[source.capacity + 1](i => 0);
      forall i | 0 <= i <= source.len {
        res[i] := source.buf[i];
      }
      buf, maxLen, len, capacity := res, source.maxLen, source.len, source.capacity;
    }

    // ------------------------------------------------------------ reassembly

    /** A GATT write arrives as a chain of fragments, collected in a scratch buffer and
        stored at once: all of it when the total fits, else the old value is kept. */
    method HandleWrite(fragments: seq<seq<byte>>) returns (accepted: bool)
      requires Valid() && |fragments| > 0
      modifies this, buf
      ensures Valid() && maxLen == old(maxLen)
      ensures accepted <==> |Concat(fragments)| <= maxLen
      ensures Data() == if accepted then Concat(fragments) else old(Data())
    {
      var collected := Collect(fragments, maxLen);
      if collected.None? {
        return false;
      }
      var ok := Set(collected.value, true);
      return true;
    }

    /** A notification chain is appended to the cached value fragment by fragment; the
        running length tells whether each one fitted. */
    method HandleNotify(fragments: seq<seq<byte>>) returns (ok: bool)
      requires Valid() && |fragments| > 0
      modifies this, buf
      ensures Valid() && maxLen == old(maxLen)
      ensures ok <==> |Concat(fragments)| <= maxLen
      ensures ok ==> Data() == Concat(fragments)
      ensures !ok ==> Data() <= Concat(fragments)
    {
      hide Concat;
      var n := |fragments[0]|;
      var fits := Set(fragments[0], true);
      ConcatStep(fragments, 1);
      ConcatOne(fragments);
      if !fits {
        return false;
      }
      var k := 1;
      while k < |fragments|
        invariant 1 <= k <= |fragments|
        invariant Valid() && (buf == old(buf) || fresh(buf)) && maxLen == old(maxLen)
        invariant n == len <= maxLen && Data() == Concat(fragments[..k])
      {
        ConcatStep(fragments, k + 1);
        fits := NextFragment(fragments, k, n);
        if !fits {
          return false;
        }
        n := n + |fragments[k]|;
        k := k + 1;
      }
      assert fragments[..k] == fragments;
      return true;
    }

    /** One fragment appended; if it does not fit, the value stays what came before it. */
    method NextFragment(fragments: seq<seq<byte>>, k: nat, n: nat) returns (fits: bool)
      requires Valid() && k < |fragments| && n == len <= maxLen && Data() == Concat(fragments[..k])
      modifies this, buf
      ensures Valid() && maxLen == old(maxLen) && (buf == old(buf) || fresh(buf))
      ensures fits <==> |Concat(fragments[..k + 1])| <= maxLen
      ensures Data() == Concat(fragments[..if fits then k + 1 else k]) && len <= maxLen
    {
      hide Concat;
      ConcatStep(fragments, k + 1);
      Append(fragments[k], true);
      fits := len == n + |fragments[k]|;
    }
  }

  lemma ConcatOne(fragments: seq<seq<byte>>)
    requires fragments != []
    ensures Concat(fragments[..1]) == fragments[0]
  {
    assert fragments[..1][1..] == [];
  }

  /** The first k fragments concatenate to a prefix of the whole, one fragment at a time. */
  lemma ConcatStep(fragments: seq<seq<byte>>, k: nat)
    requires k <= |fragments|
    ensures Concat(fragments) == Concat(fragments[..k]) + Concat(fragments[k..])
    ensures k > 0 ==> Concat(fragments[..k]) == Concat(fragments[..k - 1]) + fragments[k - 1]
  {
    hide Concat;
    var front, rest := fragments[..k], fragments[k..];
    assert fragments == front + rest;
    ConcatAppend(front, rest);
    if k > 0 {
      ConcatSnoc(front);
      assert front[..k - 1] == fragments[..k - 1];
    }
  }

  lemma ConcatSnoc(fragments: seq<seq<byte>>)
    requires fragments != []
    ensures Concat(fragments) == Concat(fragments[..|fragments| - 1]) + fragments[|fragments| - 1]
  {
    hide Concat;
    var before, last := fragments[..|fragments| - 1], [fragments[|fragments| - 1]];
    assert fragments == before + last;
    ConcatAppend(before, last);
    ConcatOne(last);
    assert last[..1] == last;
  }

  lemma {:induction false} ConcatAppend(a: seq<seq<byte>>, b: seq<seq<byte>>)
    ensures Concat(a + b) == Concat(a) + Concat(b)
  {
    hide Concat;
    ConcatNothing();
    if a == [] {
      assert a + b == b;
    } else {
      ConcatAppend(a[1..], b);
      ConcatCons(a[0], a[1..]);
      ConcatCons(a[0], a[1..] + b);
      assert a == [a[0]] + a[1..] && a + b == [a[0]] + (a[1..] + b);
    }
  }

  lemma ConcatNothing()
    ensures Concat([]) == []
  {
  }

  lemma ConcatCons(x: seq<byte>, rest: seq<seq<byte>>)
    ensures Concat([x] + rest) == x + Concat(rest)
  {
    assert ([x] + rest)[1..] == rest;
  }
}
