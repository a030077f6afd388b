/**
 The language of the frames the multiplexer sends.

 `loaded` is the byte string of all frames that have entered the output slot,
 `sent` its part that the transport has taken, and `put` maps each stream id to
 the bytes that write calls have accepted for it.
 */
module YamuxLanguage {
  import opened Efrp
  import opened YamuxFrames
  import opened YamuxModel
  import opened YamuxInvariant
  import opened YamuxDelivery

  /** Where a stream stands in its life on the wire. */
  datatype Phase = Fresh | Opening | Half | Dead | Bad

  /** The phase of stream `id` after one more frame for it. */
  function Next(p: Phase, h: Header): Phase {
    match p
    case Fresh =>
      if h.kind == WINDOW && h.flags == SYN && h.id % 2 == 1 then Opening
      else if h.kind == WINDOW && h.flags == RST && h.id % 2 == 0 then Dead
      else Bad
    case Opening =>
      if h.flags == 0 then Opening
      else if h.kind == WINDOW && h.flags == FIN then Half
      else if h.kind == WINDOW && h.flags == RST then Dead
      else Bad
    case Half =>
      if h.kind == WINDOW && h.flags == 0 then Half
      else if h.kind == WINDOW && h.flags == RST then Dead
      else Bad
    case Dead => Bad
    case Bad => Bad
  }

  function PhaseOf(hs: seq<Header>, id: nat): Phase
  {
    if hs == [] then Fresh
    else
      var p := PhaseOf(hs[..|hs| - 1], id);
      if Touches(hs[|hs| - 1], id) then Next(p, hs[|hs| - 1]) else p
  }

  lemma PhaseAppend(hs: seq<Header>, h: Header, id: nat)
    ensures PhaseOf(hs + [h], id) == if Touches(h, id) then Next(PhaseOf(hs, id), h) else PhaseOf(hs, id)
  {
    assert (hs + [h])[..|hs|] == hs;
  }

  /** A prefix of a good sequence is good. */
  lemma {:induction false} PhasePrefix(a: seq<Header>, b: seq<Header>, id: nat)
    requires PhaseOf(a + b, id) != Bad
    ensures PhaseOf(a, id) != Bad
  {
    if b == [] {
      assert a + b == a;
    } else {
      assert a + b == a + b[..|b| - 1] + [b[|b| - 1]];
      PhaseAppend(a + b[..|b| - 1], b[|b| - 1], id);
      PhasePrefix(a, b[..|b| - 1], id);
    }
  }

  /** What a good sequence means for two frames of the same stream, the first before the second. */
  predicate Follows(x: Header, y: Header) {
    && y.flags != SYN
    && (x.flags == FIN ==> y.kind != DATA && y.flags != FIN)
    && x.flags != RST
  }

  ghost predicate Sequence(hs: seq<Header>, id: nat) {
    && (forall j, k :: 0 <= j < k < |hs| && Touches(hs[j], id) && Touches(hs[k], id) ==> Follows(hs[j], hs[k]))
    && (forall k :: 0 <= k < |hs| && Touches(hs[k], id) && id % 2 == 1 ==>
          hs[k].flags == SYN || exists j :: 0 <= j < k && Touches(hs[j], id) && hs[j].flags == SYN)
    && (forall k :: 0 <= k < |hs| && Touches(hs[k], id) ==> FlagsOk(hs[k]))
  }

  /** At most one flag, and no flag on a DATA frame. */
  predicate FlagsOk(h: Header) {
    h.flags in {0, SYN, FIN, RST} && (h.flags != 0 ==> h.kind == WINDOW)
  }

  /** A stream of the peer gets one RST and nothing else. */
  ghost predicate OnlyRefused(hs: seq<Header>, id: nat) {
    && (forall k :: 0 <= k < |hs| && Touches(hs[k], id) ==> hs[k].kind == WINDOW && hs[k].flags == RST)
    && (forall j, k :: 0 <= j < k < |hs| ==> !(Touches(hs[j], id) && Touches(hs[k], id)))
  }

  /** What the frames of a stream must look like: odd ids are ours, even ids the peer's. */
  ghost predicate Orderly(hs: seq<Header>, id: nat) {
    if id % 2 == 1 then Sequence(hs, id) else OnlyRefused(hs, id)
  }

  /** The flags seen so far, as the phase records them. */
  ghost predicate PhaseFlags(hs: seq<Header>, id: nat, p: Phase) {
    && (p == Fresh ==> forall k :: 0 <= k < |hs| ==> !Touches(hs[k], id))
    && (p == Opening ==> forall k :: 0 <= k < |hs| && Touches(hs[k], id) ==> hs[k].flags in {0, SYN})
    && (p == Half ==> forall k :: 0 <= k < |hs| && Touches(hs[k], id) ==> hs[k].flags in {0, SYN, FIN})
    && (p == Half ==> exists k :: 0 <= k < |hs| && Touches(hs[k], id) && hs[k].flags == FIN)
    && (p == Dead ==> exists k :: 0 <= k < |hs| && Touches(hs[k], id) && hs[k].flags == RST)
    && (p != Fresh && id % 2 == 1 ==> exists k :: 0 <= k < |hs| && Touches(hs[k], id) && hs[k].flags == SYN)
    && (id % 2 == 0 ==> p == Fresh || p == Dead)
  }

  /**
   The phase automaton accepts exactly the orderly sequences: SYN first, no DATA or second FIN
   after FIN, nothing after RST; and for the peer's ids one RST at most.
   */
  lemma {:induction false} PhaseMeaning(hs: seq<Header>, id: nat)
    ensures PhaseOf(hs, id) != Bad <==> Orderly(hs, id)
    ensures PhaseOf(hs, id) != Bad ==> Sequence(hs, id) && PhaseFlags(hs, id, PhaseOf(hs, id))
  {
    if hs != [] {
      var a, h := hs[..|hs| - 1], hs[|hs| - 1];
      assert hs == a + [h];
      PhaseAppend(a, h, id);
      PhaseMeaning(a, id);
      hide PhaseOf, Sequence, OnlyRefused, PhaseFlags;
      if PhaseOf(hs, id) != Bad {
        PhaseStep(a, h, id);
        RefusedStep(a, h, id);
      }
      if Orderly(hs, id) {
        OrderlyFront(a, h, id);
        if id % 2 == 1 {
          OddStep(a, h, id);
        } else {
          EvenStep(a, h, id);
        }
      }
    }
  }

  lemma PhaseStep(a: seq<Header>, h: Header, id: nat)
    requires Sequence(a, id) && PhaseFlags(a, id, PhaseOf(a, id)) && PhaseOf(a + [h], id) != Bad
    ensures Sequence(a + [h], id) && PhaseFlags(a + [h], id, PhaseOf(a + [h], id))
  {
    hide PhaseOf, Sequence, PhaseFlags;
    SequenceStep(a, h, id);
    FlagsStep(a, h, id);
  }

  lemma SequenceStep(a: seq<Header>, h: Header, id: nat)
    requires Sequence(a, id) && PhaseFlags(a, id, PhaseOf(a, id)) && PhaseOf(a + [h], id) != Bad
    ensures Sequence(a + [h], id)
  {
    hide PhaseOf;
    PhaseAppend(a, h, id);
    var hs := a + [h];
    assert forall k :: 0 <= k < |a| ==> hs[k] == a[k];
    assert hs[|a|] == h;
  }

  lemma FlagsStep(a: seq<Header>, h: Header, id: nat)
    requires PhaseFlags(a, id, PhaseOf(a, id)) && PhaseOf(a + [h], id) != Bad
    ensures PhaseFlags(a + [h], id, PhaseOf(a + [h], id))
  {
    hide PhaseOf;
    PhaseAppend(a, h, id);
    var hs := a + [h];
    assert forall k :: 0 <= k < |a| ==> hs[k] == a[k];
    assert hs[|a|] == h;
  }

  lemma RefusedStep(a: seq<Header>, h: Header, id: nat)
    requires PhaseOf(a, id) != Bad ==> (id % 2 == 0 ==> OnlyRefused(a, id)) && PhaseFlags(a, id, PhaseOf(a, id))
    requires PhaseOf(a + [h], id) != Bad
    ensures id % 2 == 0 ==> OnlyRefused(a + [h], id)
  {
    PhaseAppend(a, h, id);
    hide PhaseOf;
    var hs := a + [h];
    assert forall k :: 0 <= k < |a| ==> hs[k] == a[k];
    assert hs[|a|] == h;
  }

  /** The front of an orderly sequence is orderly. */
  lemma OrderlyFront(a: seq<Header>, h: Header, id: nat)
    requires Orderly(a + [h], id)
    ensures Orderly(a, id)
  {
    var hs := a + [h];
    assert forall k :: 0 <= k < |a| ==> hs[k] == a[k];
    if id % 2 == 1 {
      forall k | 0 <= k < |a| && Touches(a[k], id)
        ensures a[k].flags == SYN || exists j :: 0 <= j < k && Touches(a[j], id) && a[j].flags == SYN
      {
        assert Touches(hs[k], id);
        if hs[k].flags != SYN {
          var j :| 0 <= j < k && Touches(hs[j], id) && hs[j].flags == SYN;
          assert a[j] == hs[j];
        }
      }
    }
  }

  /** The automaton takes every orderly continuation of one of our streams. */
  lemma OddStep(a: seq<Header>, h: Header, id: nat)
    requires id % 2 == 1 && Sequence(a + [h], id) && PhaseOf(a, id) != Bad && PhaseFlags(a, id, PhaseOf(a, id))
    ensures PhaseOf(a + [h], id) != Bad
  {
    PhaseAppend(a, h, id);
    hide PhaseOf;
    var hs, p := a + [h], PhaseOf(a, id);
    assert hs[|a|] == h && forall k :: 0 <= k < |a| ==> hs[k] == a[k];
    if Touches(h, id) {
      assert FlagsOk(h) && h.id == id;
      if p == Fresh {
        assert forall k :: 0 <= k < |a| ==> !Touches(hs[k], id);
        assert h.flags == SYN;
      } else {
        var k :| 0 <= k < |a| && Touches(a[k], id) && a[k].flags == SYN;
        assert Touches(hs[k], id) && Follows(hs[k], hs[|a|]);
        if p == Half {
          var f :| 0 <= f < |a| && Touches(a[f], id) && a[f].flags == FIN;
          assert Touches(hs[f], id) && Follows(hs[f], hs[|a|]);
        }
      }
    }
  }

  lemma EvenStep(a: seq<Header>, h: Header, id: nat)
    requires id % 2 == 0 && OnlyRefused(a + [h], id) && PhaseOf(a, id) != Bad && PhaseFlags(a, id, PhaseOf(a, id))
    ensures PhaseOf(a + [h], id) != Bad
  {
    PhaseAppend(a, h, id);
    hide PhaseOf;
    var hs := a + [h];
    assert hs[|a|] == h && forall k :: 0 <= k < |a| ==> hs[k] == a[k];
  }

  // ---------- the invariant ----------

  predicate SlotPhase(s: Stream, p: Phase) {
    if s.reset then p in {Opening, Half, Dead} else p == if s.localFin then Half else Opening
  }

  ghost predicate SlotPhases(ss: Streams, hs: seq<Header>) {
    forall i :: 0 <= i < STREAMS ==> ss[i].id != 0 ==> SlotPhase(ss[i], PhaseOf(hs, ss[i].id))
  }

  /** Every stream id, whether it has a slot or not. */
  ghost predicate IdPhases(d: Ids, hs: seq<Header>) {
    forall id :: IdPhase(d, id, PhaseOf(hs, id))
  }

  predicate IdPhase(d: Ids, id: nat, p: Phase) {
    && p != Bad
    && (id % 2 == 1 && !Opened(d.next, id) ==> p == Fresh)
    && (id % 2 == 0 ==> p == Fresh || (p == Dead && id <= d.peerLast))
  }

  predicate IsSyn(h: Header) {
    h.kind == WINDOW && h.flags == SYN
  }

  /** Ids are opened in increasing order. */
  ghost predicate Syns(next: nat, hs: seq<Header>) {
    && (forall k :: 0 <= k < |hs| && IsSyn(hs[k]) ==> Opened(next, hs[k].id))
    && (forall j, k :: 0 <= j < k < |hs| && IsSyn(hs[j]) && IsSyn(hs[k]) ==> hs[j].id < hs[k].id)
  }

  ghost predicate Lang(ss: Streams, d: Ids, hs: seq<Header>) {
    SlotPhases(ss, hs) && IdPhases(d, hs) && Syns(d.next, hs)
  }

  /** All frames so far: those that entered the output slot, then those queued. */
  function Trace(t: Tx, loaded: seq<byte>): seq<Header> {
    Headers(loaded) + t.controls
  }

  /** The part of the output slot that the transport has not taken. */
  function Rest(t: Tx): seq<byte> {
    if t.out.None? then [] else FrameBytes(t.out.value)[t.offset..]
  }

  ghost predicate Wire(t: Tx, loaded: seq<byte>, sent: seq<byte>, put: Book) {
    && Whole(loaded)
    && sent + Rest(t) == loaded
    && forall id :: Payload(loaded, id) == At(put, id)
  }

  // ---------- one more frame ----------

  /** A frame for a stream whose slot changes accordingly. */
  lemma SlotFrame(ss: Streams, d: Ids, hs: seq<Header>, i: nat, s: Stream, h: Header)
    requires Lang(ss, d, hs) && Slots(ss, d.next)
    requires i < STREAMS && StreamWf(s) && s.id == ss[i].id != 0 && Touches(h, s.id) && !IsSyn(h)
    requires SlotPhase(s, Next(PhaseOf(hs, s.id), h))
    ensures Lang(ss[i := s], d, hs + [h])
  {
    hide PhaseOf;
    assert s.id % 2 == 1 && Opened(d.next, s.id);
    forall id: nat
      ensures PhaseOf(hs + [h], id) == if Touches(h, id) then Next(PhaseOf(hs, id), h) else PhaseOf(hs, id)
    {
      PhaseAppend(hs, h, id);
    }
    SynsAppend(d.next, hs, h);
  }

  lemma SynsAppend(next: nat, hs: seq<Header>, h: Header)
    requires Syns(next, hs) && !IsSyn(h)
    ensures Syns(next, hs + [h])
  {
    var g := hs + [h];
    assert forall k :: 0 <= k < |hs| ==> g[k] == hs[k];
    assert g[|hs|] == h;
  }

  /** A frame that belongs to no stream. */
  lemma SessionFrame(ss: Streams, d: Ids, hs: seq<Header>, h: Header)
    requires Lang(ss, d, hs) && h.kind > WINDOW
    ensures Lang(ss, d, hs + [h])
  {
    hide PhaseOf;
    forall id: nat ensures PhaseOf(hs + [h], id) == PhaseOf(hs, id) {
      PhaseAppend(hs, h, id);
    }
    SynsAppend(d.next, hs, h);
  }

  /** A peer's stream is refused, once. */
  lemma RefusalFrame(ss: Streams, d: Ids, hs: seq<Header>, id: nat)
    requires Lang(ss, d, hs) && Slots(ss, d.next)
    requires id % 2 == 0 && d.peerLast < id <= U32_MAX
    ensures Lang(ss, d.(peerLast := id), hs + [Header(0, WINDOW, RST, id, 0)])
  {
    hide PhaseOf;
    var h := Header(0, WINDOW, RST, id, 0);
    forall x: nat
      ensures PhaseOf(hs + [h], x) == if Touches(h, x) then Next(PhaseOf(hs, x), h) else PhaseOf(hs, x)
    {
      PhaseAppend(hs, h, x);
    }
    assert IdPhase(d, id, PhaseOf(hs, id));
    SynsAppend(d.next, hs, h);
  }

  lemma OpenFrame(ss: Streams, d: Ids, hs: seq<Header>, i: nat, s: Stream)
    requires Lang(ss, d, hs) && Slots(ss, d.next)
    requires d.next != 0 && i < STREAMS && s.id == d.next && StreamWf(s) && !s.reset && !s.localFin
    ensures Lang(ss[i := s], Advance(d), hs + [Header(0, WINDOW, SYN, d.next, 0)])
  {
    hide PhaseOf;
    var h := Header(0, WINDOW, SYN, d.next, 0);
    forall x: nat
      ensures PhaseOf(hs + [h], x) == if Touches(h, x) then Next(PhaseOf(hs, x), h) else PhaseOf(hs, x)
    {
      PhaseAppend(hs, h, x);
    }
    assert IdPhase(d, d.next, PhaseOf(hs, d.next));
    SynsOpen(d, hs);
  }

  lemma SynsOpen(d: Ids, hs: seq<Header>)
    requires Syns(d.next, hs) && d.next != 0
    ensures Syns(Advance(d).next, hs + [Header(0, WINDOW, SYN, d.next, 0)])
  {
    var h := Header(0, WINDOW, SYN, d.next, 0);
    var g := hs + [h];
    assert forall k :: 0 <= k < |hs| ==> g[k] == hs[k];
    assert g[|hs|] == h;
  }

  /** Streams may be reset or released, and frames received, without a word. */
  ghost predicate Quiets(a: Streams, b: Streams) {
    forall k :: 0 <= k < STREAMS ==> b[k].id != 0 ==>
      b[k].id == a[k].id && b[k].localFin == a[k].localFin && (a[k].reset ==> b[k].reset)
  }

  lemma QuietLang(ss: Streams, n: Streams, d: Ids, hs: seq<Header>)
    requires Lang(ss, d, hs) && Quiets(ss, n)
    ensures Lang(n, d, hs)
  {
    hide PhaseOf;
  }

  // ---------- the output slot ----------

  /** One frame enters the output slot. */
  lemma LoadWire(t: Tx, u: Tx, loaded: seq<byte>, sent: seq<byte>, put: Book, f: Frame, newPut: Book)
    requires Wire(t, loaded, sent, put) && t.out.None? && u.out == Some(f) && u.offset == 0
    requires forall id :: At(newPut, id) == At(put, id) + (if f.h.kind == DATA && f.h.id == id then f.body else [])
    ensures Wire(u, loaded + FrameBytes(f), sent, newPut)
    ensures Headers(loaded + FrameBytes(f)) == Headers(loaded) + [f.h]
  {
    hide Payload, Whole, Headers, Encode;
    var b := FrameBytes(f);
    assert b == Encode(f.h) + f.body;
    SingleFrame(f.h, f.body, 0);
    WholeAppend(loaded, b);
    HeadersAppend(loaded, b);
    forall id: nat ensures Payload(loaded + b, id) == At(newPut, id) {
      SingleFrame(f.h, f.body, id);
      PayloadAppend(loaded, b, id);
    }
    assert Rest(t) == [];
    assert Rest(u) == b;
  }
}
