/** The four stream slots of the multiplexer, each with its own receive ring. */
module YamuxTable {
  import opened Efrp
  import M = YamuxModel
  import opened YamuxRing

  /** A stream slot; its bytes are in the ring of the same index. */
  datatype Slot = Slot(
    id: nat, sendCredit: nat, receiveCredit: nat, returnCredit: nat,
    openedMs: nat, blockedMs: nat,
    acknowledged: bool, localFin: bool, remoteFin: bool, reset: bool, blocked: bool)

  const Blank: Slot := Slot(0, 0, 0, 0, 0, 0, false, false, false, false, false)

  predicate SlotOk(s: Slot) {
    s.id <= U32_MAX && s.sendCredit <= U32_MAX && s.receiveCredit <= M.INITIAL_WINDOW && s.returnCredit <= U32_MAX
  }

  function WithRing(s: Slot, ring: seq<byte>): M.Stream {
    M.Stream(s.id, s.sendCredit, s.receiveCredit, s.returnCredit, ring, s.openedMs, s.blockedMs,
             s.acknowledged, s.localFin, s.remoteFin, s.reset, s.blocked)
  }

  lemma GrantStep(ss: M.Streams, cursor: nat, k: nat)
    requires k < M.STREAMS
    ensures var slot := (cursor + k) % M.STREAMS;
            M.GrantSlot(ss, cursor, k) == if M.Grantable(ss[slot]) then slot else M.GrantSlot(ss, cursor, k + 1)
  {
  }

  lemma GrantEnd(ss: M.Streams, cursor: nat)
    ensures M.GrantSlot(ss, cursor, M.STREAMS) == M.STREAMS
  {
  }

  lemma VacantBlank()
    ensures WithRing(Blank, []) == M.Vacant && SlotOk(Blank)
  {
  }

  class StreamTable {
    const rings: seq<Ring>
    ghost const memory: set<object>
    var slots: seq<Slot>

    ghost predicate Valid()
      reads this, memory
    {
      && |rings| == M.STREAMS && |slots| == M.STREAMS && this !in memory
      && (forall i :: 0 <= i < M.STREAMS ==>
            rings[i] in memory && rings[i].data in memory && rings[i].Valid() && SlotOk(slots[i]))
      && (forall i, j :: 0 <= i < j < M.STREAMS ==> rings[i] != rings[j] && rings[i].data != rings[j].data)
    }

    ghost function At(i: nat): M.Stream
      reads this, memory
      requires Valid() && i < M.STREAMS
    {
      WithRing(slots[i], rings[i].Value())
    }

    ghost function Value(): (ss: M.Streams)
      reads this, memory
      requires Valid()
      ensures forall i :: 0 <= i < M.STREAMS ==> ss[i] == At(i)
    {
      [At(0), At(1), At(2), At(3)]
    }

    constructor ()
      ensures Valid() && Value() == [M.Vacant, M.Vacant, M.Vacant, M.Vacant]
      ensures fresh(memory)
    {
      var a := new Ring();
      var b := new Ring();
      var c := new Ring();
      var d := new Ring();
      rings := [a, b, c, d];
      memory := {a, b, c, d, a.data, b.data, c.data, d.data};
      slots := [Blank, Blank, Blank, Blank];
      new;
      hide Around, Ring.Value, Ring.Valid, WithRing;
      VacantBlank();
      assert rings[0] == a && rings[1] == b && rings[2] == c && rings[3] == d;
    }

    /** Slot `i` and the number of bytes in its ring. */
    method Get(i: nat) returns (s: Slot, used: nat)
      requires Valid() && i < M.STREAMS
      ensures SlotOk(s) && used == |Value()[i].ring| <= M.RING_BYTES && Value()[i] == WithRing(s, Value()[i].ring)
    {
      return slots[i], rings[i].used;
    }

    /** The slot that holds stream `id`, or the number of slots. */
    method Find(id: nat) returns (i: nat)
      requires Valid()
      ensures i == M.Find(Value(), id) && i <= M.STREAMS
    {
      i := 0;
      if id == 0 {
        return M.STREAMS;
      }
      while i < M.STREAMS
        invariant i <= M.STREAMS
        invariant M.FindFrom(Value(), id, 0) == M.FindFrom(Value(), id, i)
      {
        if slots[i].id == id {
          return;
        }
        i := i + 1;
      }
    }

    /** The first free slot, or the number of slots. */
    method Free() returns (i: nat)
      requires Valid()
      ensures i == M.FindFrom(Value(), 0, 0) && i <= M.STREAMS
    {
      i := 0;
      while i < M.STREAMS && slots[i].id != 0
        invariant i <= M.STREAMS
        invariant M.FindFrom(Value(), 0, 0) == M.FindFrom(Value(), 0, i)
      {
        i := i + 1;
      }
    }

    /** The next slot with credit to return, scanning around from `cursor`. */
    method GrantSlot(cursor: nat) returns (slot: nat)
      requires Valid()
      ensures slot == M.GrantSlot(Value(), cursor, 0) && slot <= M.STREAMS
    {
      hide Ring.Value, Around, M.GrantSlot;
      ghost var ss := Value();
      var k := 0;
      GrantEnd(ss, cursor);
      while k < M.STREAMS
        invariant k <= M.STREAMS && M.GrantSlot(ss, cursor, 0) == M.GrantSlot(ss, cursor, k)
      {
        GrantStep(ss, cursor, k);
        slot := (cursor + k) % M.STREAMS;
        assert ss[slot] == At(slot);
        var s := slots[slot];
        if s.id != 0 && !s.reset && !s.remoteFin && s.returnCredit != 0 {
          return;
        }
        k := k + 1;
      }
      slot := M.STREAMS;
    }

    /** Replace slot `i` without touching its ring. */
    method Set(i: nat, s: Slot)
      requires Valid() && i < M.STREAMS && SlotOk(s)
      modifies this
      ensures Valid()
      ensures Value() == old(Value())[i := WithRing(s, old(Value())[i].ring)]
    {
      slots := slots[i := s];
      hide Around, Ring.Value;
      assert forall k :: 0 <= k < M.STREAMS ==> Value()[k] == old(Value())[i := WithRing(s, old(Value())[i].ring)][k];
    }

    /** Replace slot `i` and empty its ring. */
    method Clear(i: nat, s: Slot)
      requires Valid() && i < M.STREAMS && SlotOk(s)
      modifies this, memory
      ensures Valid()
      ensures Value() == old(Value())[i := WithRing(s, [])]
    {
      hide Around, Ring.Value;
      rings[i].Clear();
      slots := slots[i := s];
      assert forall k :: 0 <= k < M.STREAMS ==> Value()[k] == old(Value())[i := WithRing(s, [])][k];
    }

    /** Put received bytes into the ring of slot `i`. */
    method Put(i: nat, bytes: seq<byte>)
      requires Valid() && i < M.STREAMS && |Value()[i].ring| + |bytes| <= M.RING_BYTES
      modifies memory
      ensures Valid()
      ensures Value() == old(Value())[i := old(Value())[i].(ring := old(Value())[i].ring + bytes)]
    {
      hide Around, Ring.Value, SlotOk;
      ghost var after := WithRing(slots[i], rings[i].Value() + bytes);
      assert after == Value()[i].(ring := Value()[i].ring + bytes);
      hide WithRing;
      rings[i].Put(bytes);
      assert forall k :: 0 <= k < M.STREAMS && k != i ==> rings[k].Value() == old(rings[k].Value());
      assert forall k :: 0 <= k < M.STREAMS ==> Value()[k] == old(Value())[i := after][k];
    }

    /** Take bytes from the ring of slot `i` for the application. */
    method Take(i: nat, n: nat, s: Slot) returns (bytes: seq<byte>)
      requires Valid() && i < M.STREAMS && n <= |Value()[i].ring| && SlotOk(s)
      modifies this, memory
      ensures Valid()
      ensures bytes == old(Value())[i].ring[..n]
      ensures Value() == old(Value())[i := WithRing(s, old(Value())[i].ring[n..])]
    {
      hide Around, Ring.Value, SlotOk;
      ghost var ring := rings[i].Value();
      assert ring == Value()[i].ring;
      hide WithRing;
      bytes := rings[i].Take(n);
      slots := slots[i := s];
      assert forall k :: 0 <= k < M.STREAMS && k != i ==> rings[k].Value() == old(rings[k].Value());
      assert forall k :: 0 <= k < M.STREAMS ==> Value()[k] == old(Value())[i := WithRing(s, ring[n..])][k];
    }
  }
}
