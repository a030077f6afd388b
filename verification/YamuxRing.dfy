/** The two circular buffers of the multiplexer: the receive ring of a stream and the control queue. */
module YamuxRing {
  import opened Efrp
  import opened YamuxFrames
  import opened YamuxModel

  /** An index below twice `size`, taken around. */
  function Wrap(x: nat, size: nat): nat {
    if x < size then x else x - size
  }

  lemma WrapMod(x: nat, size: nat)
    requires x < 2 * size
    ensures x % size == Wrap(x, size) < size
  {
    if x >= size {
      assert x == size + (x - size);
    }
  }

  /** The `used` elements that start at `head` and wrap around the end of `data`. */
  function Around<T>(data: seq<T>, head: nat, used: nat): (s: seq<T>)
    requires head < |data| && used <= |data|
    ensures |s| == used && forall k :: 0 <= k < used ==> s[k] == data[Wrap(head + k, |data|)]
  {
    seq(used, k requires 0 <= k < used => data[Wrap(head + k, |data|)])
  }

  class Ring {
    const data: array<byte>
    var head: nat
    var used: nat

    ghost predicate Valid()
      reads this
    {
      data.Length == RING_BYTES && head < RING_BYTES && used <= RING_BYTES
    }

    /** The bytes in the ring, oldest first. */
    ghost function Value(): (v: seq<byte>)
      reads this, data
      requires Valid()
      ensures |v| == used
    {
      Around(data[..], head, used)
    }

    constructor ()
      ensures Valid() && Value() == [] && fresh(data)
    {
      data := new byte[RING_BYTES];
      head, used := 0, 0;
    }

    /** `memcpy` into the ring's memory. */
    method Copy(at: nat, bytes: seq<byte>)
      requires at + |bytes| <= data.Length
      modifies data
      ensures forall k :: 0 <= k < data.Length ==>
                data[k] == if at <= k < at + |bytes| then bytes[k - at] else old(data[k])
    {
      forall k | 0 <= k < |bytes| {
        data[at + k] := bytes[k];
      }
    }

    /** Append at the tail: two copies, the second one after the wrap. */
    method Put(bytes: seq<byte>)
      requires Valid() && used + |bytes| <= RING_BYTES
      modifies this`used, data
      ensures Valid() && Value() == old(Value()) + bytes
    {
      var tail := (head + used) % RING_BYTES;
      WrapMod(head + used, RING_BYTES);
      var first := Min(RING_BYTES - tail, |bytes|);
      Copy(tail, bytes[..first]);
      Copy(0, bytes[first..]);
      used := used + |bytes|;
      assert forall k :: 0 <= k < used ==> Value()[k] == (old(Value()) + bytes)[k];
    }

    /** Take from the head: two copies, the second one after the wrap. */
    method Take(n: nat) returns (bytes: seq<byte>)
      requires Valid() && n <= used
      modifies this
      ensures Valid() && bytes == old(Value())[..n] && Value() == old(Value())[n..]
    {
      var first := Min(RING_BYTES - head, n);
      bytes := data[head..head + first] + data[..n - first];
      WrapMod(head + n, RING_BYTES);
      head := (head + n) % RING_BYTES;
      used := used - n;
      assert forall k :: 0 <= k < n ==> bytes[k] == old(Value())[k];
      assert forall k :: 0 <= k < used ==> Value()[k] == old(Value())[n..][k];
    }

    method Clear()
      requires Valid()
      modifies this
      ensures Valid() && Value() == []
    {
      head, used := 0, 0;
    }
  }

  type HeaderBytes = s: seq<byte> | |s| == HEADER_BYTES
    witness [0, 0, 0, 0, 0, 0, 0, 0, 0, 0, 0, 0]

  /** Eight encoded control frames waiting for the output slot. */
  class ControlQueue {
    const slots: array<HeaderBytes>
    var head: nat
    var count: nat

    ghost predicate Valid()
      reads this
    {
      slots.Length == CONTROL_SLOTS && head < CONTROL_SLOTS && count <= CONTROL_SLOTS
    }

    /** The encoded frames, oldest first. */
    ghost function Value(): (v: seq<HeaderBytes>)
      reads this, slots
      requires Valid()
      ensures |v| == count
    {
      Around(slots[..], head, count)
    }

    constructor ()
      ensures Valid() && Value() == [] && fresh(slots)
    {
      slots := new HeaderBytes[CONTROL_SLOTS](_ => [0, 0, 0, 0, 0, 0, 0, 0, 0, 0, 0, 0]);
      head, count := 0, 0;
    }

    method Put(h: HeaderBytes)
      requires Valid() && count < CONTROL_SLOTS
      modifies this`count, slots
      ensures Valid() && Value() == old(Value()) + [h]
    {
      var slot := (head + count) % CONTROL_SLOTS;
      WrapMod(head + count, CONTROL_SLOTS);
      slots[slot] := h;
      count := count + 1;
      assert forall k :: 0 <= k < count ==> Value()[k] == (old(Value()) + [h])[k];
    }

    method Take() returns (h: HeaderBytes)
      requires Valid() && count > 0
      modifies this
      ensures Valid() && h == old(Value())[0] && Value() == old(Value())[1..]
    {
      h := slots[head];
      WrapMod(head + 1, CONTROL_SLOTS);
      head := (head + 1) % CONTROL_SLOTS;
      count := count - 1;
      assert forall k :: 0 <= k < count ==> Value()[k] == old(Value())[1..][k];
    }
  }
}
