/** What every call of the multiplexer keeps, on the multiplexer's own state. */
module YamuxInvariant {
  import opened Efrp
  import opened YamuxFrames
  import opened YamuxModel

  /** A locally opened id: odd and below the next one. */
  predicate Opened(next: nat, id: nat) {
    id % 2 == 1 && (next == 0 || id < next)
  }

  predicate Live(s: Stream) {
    s.id != 0 && !s.reset
  }

  /** Vacant slots are blank; the others hold distinct opened ids. */
  ghost predicate Slots(ss: Streams, next: nat) {
    && (forall i :: 0 <= i < STREAMS ==> if ss[i].id == 0 then ss[i] == Vacant else Opened(next, ss[i].id))
    && (forall i, j :: 0 <= i < j < STREAMS ==> ss[i].id != 0 ==> ss[i].id != ss[j].id)
  }

  /** The active frame is drained exactly when no live stream owns it; a live owner has not seen FIN. */
  ghost predicate Owner(ss: Streams, r: Rx, next: nat) {
    r.active ==>
      && r.id != 0
      && (r.id % 2 == 1 ==> Opened(next, r.id))
      && var i := Find(ss, r.id);
         && r.discard == (i == STREAMS || ss[i].reset)
         && (!r.discard ==> !ss[i].remoteFin)
  }

  ghost predicate Grant(t: Tx, next: nat) {
    t.grantId != 0 ==> t.out.Some? && Opened(next, t.grantId)
  }

  /** Bytes of the active frame that are still to come for stream `id`. */
  function Pending(r: Rx, id: nat): nat {
    if r.active && r.id == id then r.remaining else 0
  }

  /** Credit in a window update that sits in the output slot. */
  function InFlight(grantId: nat, grantBytes: nat, id: nat): nat {
    if grantId == id then grantBytes else 0
  }

  /** Every byte of the receive window is in exactly one place. */
  predicate Conserved(s: Stream, pending: nat, inFlight: nat) {
    s.receiveCredit + pending + |s.ring| + s.returnCredit + inFlight == INITIAL_WINDOW
  }

  ghost predicate Credit(ss: Streams, r: Rx, grantId: nat, grantBytes: nat) {
    forall i :: 0 <= i < STREAMS ==> Live(ss[i]) ==>
      Conserved(ss[i], Pending(r, ss[i].id), InFlight(grantId, grantBytes, ss[i].id))
  }

  /** A stalled stream owns the active frame and its ring is full. */
  ghost predicate Stalls(ss: Streams, r: Rx) {
    forall i :: 0 <= i < STREAMS ==> ss[i].blocked ==>
      Live(ss[i]) && |ss[i].ring| == RING_BYTES && r.active && !r.discard && r.id == ss[i].id
  }

  ghost predicate Clock(m: Mux) {
    && m.rx.progressMs <= m.ses.nowMs && m.rx.headerMs <= m.ses.nowMs && m.rx.drainMs <= m.ses.nowMs
    && m.tx.progressMs <= m.ses.nowMs && m.ses.pingMs <= m.ses.nowMs
    && forall i :: 0 <= i < STREAMS ==>
         m.streams[i].openedMs <= m.ses.nowMs && m.streams[i].blockedMs <= m.ses.nowMs
  }

  ghost predicate Base(m: Mux) {
    && Slots(m.streams, m.ids.next)
    && Owner(m.streams, m.rx, m.ids.next)
    && Grant(m.tx, m.ids.next)
    && Credit(m.streams, m.rx, m.tx.grantId, m.tx.grantBytes)
    && Stalls(m.streams, m.rx)
    && Clock(m)
  }

  // ---------- slots ----------

  lemma FindUnique(ss: Streams, next: nat, i: nat)
    requires Slots(ss, next) && i < STREAMS && ss[i].id != 0
    ensures Find(ss, ss[i].id) == i
  {
  }

  /** Changing one slot matters only to searches for its old or its new id. */
  lemma FindUpdate(ss: seq<Stream>, i: nat, s: Stream, id: nat)
    requires i < |ss| && (s.id == id) == (ss[i].id == id)
    ensures Find(ss[i := s], id) == Find(ss, id)
  {
    FindFromUpdate(ss, i, s, id, 0);
  }

  lemma {:induction false} FindFromUpdate(ss: seq<Stream>, i: nat, s: Stream, id: nat, from: nat)
    requires i < |ss| && (s.id == id) == (ss[i].id == id) && from <= |ss|
    ensures FindFrom(ss[i := s], id, from) == FindFrom(ss, id, from)
    decreases |ss| - from
  {
    if from < |ss| {
      FindFromUpdate(ss, i, s, id, from + 1);
    }
  }

  /** A change of one slot that keeps its id. */
  lemma SlotUpdate(ss: Streams, next: nat, i: nat, s: Stream, r: Rx)
    requires Slots(ss, next) && Owner(ss, r, next) && Stalls(ss, r)
    requires i < STREAMS && StreamWf(s) && s.id == ss[i].id != 0
    requires s.reset == ss[i].reset && (r.active && r.id == s.id ==> s.remoteFin == ss[i].remoteFin)
    requires s.blocked ==> ss[i].blocked && s.ring == ss[i].ring
    ensures Slots(ss[i := s], next) && Owner(ss[i := s], r, next) && Stalls(ss[i := s], r)
  {
    FindUpdate(ss, i, s, r.id);
  }

  /** A change of one slot and of the credit that is in flight for its id. */
  lemma CreditUpdate(ss: Streams, next: nat, i: nat, s: Stream, r: Rx, t: Tx, u: Tx)
    requires Slots(ss, next) && Credit(ss, r, t.grantId, t.grantBytes)
    requires i < STREAMS && StreamWf(s) && s.id == ss[i].id != 0
    requires Live(s) ==> Conserved(s, Pending(r, s.id), InFlight(u.grantId, u.grantBytes, s.id))
    requires forall id :: id != 0 && id != s.id ==>
               InFlight(u.grantId, u.grantBytes, id) == InFlight(t.grantId, t.grantBytes, id)
    ensures Credit(ss[i := s], r, u.grantId, u.grantBytes)
  {
  }

  // ---------- output, read, write ----------

  lemma OpenBase(m: Mux, memory: bool)
    requires Base(m)
    ensures Base(Open(m, memory).0)
  {
    var n := Open(m, memory).0;
    if n != m {
      var i := FindFrom(m.streams, 0, 0);
      if m.rx.active {
        FindUpdate(m.streams, i, n.streams[i], m.rx.id);
      }
    }
  }

  lemma LoadBase(m: Mux)
    requires Base(m)
    ensures Base(Load(m))
  {
    var slot := GrantSlot(m.streams, m.tx.cursor, 0);
    if m.tx.out.None? && m.tx.controls == [] && slot < STREAMS {
      var s := m.streams[slot].(returnCredit := 0);
      SlotUpdate(m.streams, m.ids.next, slot, s, m.rx);
      CreditUpdate(m.streams, m.ids.next, slot, s, m.rx, m.tx, Load(m).tx);
    }
  }

  lemma FinishBase(m: Mux)
    requires Base(m)
    ensures Base(FinishOutput(m).0)
    ensures FinishOutput(m).1 == Ok   // the overflow check after a complete window update never fires
  {
    var n := FinishOutput(m).0;
    var i := Find(m.streams, m.tx.grantId);
    if i < STREAMS && !m.streams[i].reset {
      var s := n.streams[i];
      SlotUpdate(m.streams, m.ids.next, i, s, m.rx);
      CreditUpdate(m.streams, m.ids.next, i, s, m.rx, m.tx, n.tx);
    }
  }

  lemma ConsumeBase(m: Mux, length: nat)
    requires Base(m)
    ensures Base(ConsumeOutput(m, length).0)
  {
    hide Slots, Owner, Credit, Stalls;
    if 0 < length <= OutLength(m.tx.out) - m.tx.offset {
      FinishBase(m.(tx := m.tx.(offset := m.tx.offset + length, progressMs := m.ses.nowMs)));
    }
  }

  lemma PutDataBase(m: Mux, i: nat, body: seq<byte>)
    requires Base(m) && i < STREAMS && m.tx.out.None? && m.streams[i].id != 0
    requires |body| <= m.streams[i].sendCredit
    ensures Base(PutData(m, i, body))
  {
    var n := PutData(m, i, body);
    SlotUpdate(m.streams, m.ids.next, i, n.streams[i], m.rx);
    CreditUpdate(m.streams, m.ids.next, i, n.streams[i], m.rx, m.tx, n.tx);
  }

  lemma ReadBase(m: Mux, id: nat, capacity: nat)
    requires Base(m)
    ensures Base(Read(m, id, capacity).0)
  {
    var (n, r, _) := Read(m, id, capacity);
    if r == Ok {
      var i := Find(m.streams, id);
      SlotUpdate(m.streams, m.ids.next, i, n.streams[i], m.rx);
      CreditUpdate(m.streams, m.ids.next, i, n.streams[i], m.rx, m.tx, m.tx);
    }
  }

  lemma CloseWriteBase(m: Mux, id: nat)
    requires Base(m)
    ensures Base(CloseWrite(m, id).0)
  {
    var n := CloseWrite(m, id).0;
    if n != m {
      var i := Find(m.streams, id);
      SlotUpdate(m.streams, m.ids.next, i, n.streams[i], m.rx);
      CreditUpdate(m.streams, m.ids.next, i, n.streams[i], m.rx, m.tx, n.tx);
    }
  }

  lemma ResetBase(m: Mux, id: nat)
    requires Base(m)
    ensures Base(Reset(m, id).0)
  {
    var n := Reset(m, id).0;
    if n != m {
      var i := Find(m.streams, id);
      FindUnique(m.streams, m.ids.next, i);
      FindUpdate(m.streams, i, n.streams[i], m.rx.id);
    }
  }

  lemma ReleaseBase(m: Mux, id: nat)
    requires Base(m)
    ensures Base(Release(m, id).0)
  {
    var i := Find(m.streams, id);
    if i < STREAMS && m.rx.active && m.rx.id != id {
      FindUpdate(m.streams, i, Vacant, m.rx.id);
    }
  }

  lemma PingBase(m: Mux, id: nat)
    requires Base(m) && id <= U32_MAX
    ensures Base(Ping(m, id).0)
  {
  }

  lemma GoAwayBase(m: Mux)
    requires Base(m)
    ensures Base(GoAway(m).0)
  {
  }

  // ---------- input ----------

  lemma EndFrameBase(m: Mux)
    requires Base(m) && !m.rx.active
    ensures Base(EndFrame(m))
  {
    var n := EndFrame(m);
    var i := Find(m.streams, m.rx.id);
    if i < STREAMS {
      SlotUpdate(m.streams, m.ids.next, i, n.streams[i], m.rx);
      CreditUpdate(m.streams, m.ids.next, i, n.streams[i], m.rx, m.tx, m.tx);
    }
  }

  /** Base, except that the body announced by `h` is charged to its stream but not yet pending. */
  ghost predicate Charged(m: Mux, h: Header) {
    && Slots(m.streams, m.ids.next) && Grant(m.tx, m.ids.next) && Stalls(m.streams, m.rx) && Clock(m)
    && !m.rx.active && h.id != 0 && (h.id % 2 == 1 ==> Opened(m.ids.next, h.id))
    && forall i :: 0 <= i < STREAMS ==> Live(m.streams[i]) ==>
         && Conserved(m.streams[i], if m.streams[i].id == h.id then BodyLength(h) else 0,
                      InFlight(m.tx.grantId, m.tx.grantBytes, m.streams[i].id))
         && (m.streams[i].id == h.id && BodyLength(h) > 0 ==> !m.streams[i].remoteFin)
  }

  lemma BeginBase(m: Mux, h: Header)
    requires Charged(m, h) && |m.rx.header| == HEADER_BYTES
    ensures Base(Begin(m, h).0)
  {
    var i := Find(m.streams, h.id);
    var n := m.(rx := SetFrame(m.rx, h, i == STREAMS || m.streams[i].reset, m.ses.nowMs));
    assert Base(n);
    if !n.rx.active {
      EndFrameBase(n);
    }
  }

  lemma ApplyCharged(m: Mux, i: nat, h: Header)
    requires Base(m) && !m.rx.active && h.id != 0 && i == Find(m.streams, h.id) < STREAMS
    requires Live(m.streams[i]) && Admissible(m.streams[i], h)
    ensures Charged(m.(streams := m.streams[i := Apply(m.streams[i], h)]), h)
  {
  }

  lemma AcceptBase(m: Mux, h: Header)
    requires Base(m) && !m.rx.active && |m.rx.header| == HEADER_BYTES && h.kind <= WINDOW
    requires h.id != 0 && (h.id % 2 == 1 ==> Opened(m.ids.next, h.id))
    ensures Base(Accept(m, h).0)
  {
    var i := Find(m.streams, h.id);
    if i == STREAMS || m.streams[i].reset {
      BeginBase(m, h);
    } else if Admissible(m.streams[i], h) {
      ApplyCharged(m, i, h);
      BeginBase(m.(streams := m.streams[i := Apply(m.streams[i], h)]), h);
    }
  }

  lemma StartStreamBase(m: Mux, h: Header)
    requires Base(m) && !m.rx.active && |m.rx.header| == HEADER_BYTES && h.kind <= WINDOW && Fits(h)
    ensures Base(StartStream(m, h).0)
  {
    hide Slots, Owner, Credit, Stalls;
    if h.id != 0 && Syn(h) {
      if h.id % 2 == 0 {
        var t := Queue(m.tx, Header(0, WINDOW, RST, h.id, 0), m.ses.nowMs).0;
        AcceptBase(m.(tx := t, ids := m.ids.(peerLast := h.id)), h);
      }
    } else if h.id != 0 && (h.id % 2 == 1 ==> Opened(m.ids.next, h.id)) {
      AcceptBase(m, h);
    }
  }

  lemma StartPingBase(m: Mux, h: Header)
    requires Base(m) && !m.rx.active && Fits(h)
    ensures Base(StartPing(m, h).0)
  {
  }

  lemma StartGoAwayBase(m: Mux, h: Header)
    requires Base(m) && !m.rx.active
    ensures Base(StartGoAway(m, h).0)
  {
  }

  lemma StartFrameBase(m: Mux)
    requires Base(m) && !m.rx.active && |m.rx.header| == HEADER_BYTES
    ensures Base(StartFrame(m).0)
  {
    hide Slots, Owner, Credit, Stalls;
    var h := Decode(m.rx.header);
    StartPingBase(m, h);
    StartGoAwayBase(m, h);
    if h.kind <= WINDOW {
      StartStreamBase(m, h);
    }
  }

  lemma StoreBase(m: Mux, bytes: seq<byte>)
    requires Base(m) && Takes(m, bytes)
    ensures Base(Store(m, bytes))
  {
    var i := Find(m.streams, m.rx.id);
    if !m.rx.discard {
      FindUpdate(m.streams, i, Store(m, bytes).streams[i], m.rx.id);
    }
  }

  lemma TakeBodyBase(m: Mux, bytes: seq<byte>)
    requires Base(m) && Takes(m, bytes)
    ensures Base(TakeBody(m, bytes))
  {
    StoreBase(m, bytes);
    if !Store(m, bytes).rx.active {
      EndFrameBase(Store(m, bytes));
    }
  }

  lemma BlockBase(m: Mux, i: nat)
    requires Base(m) && m.rx.active && !m.rx.discard && i == Find(m.streams, m.rx.id)
    requires i < STREAMS && |m.streams[i].ring| == RING_BYTES
    ensures Base(m.(streams := m.streams[i := Block(m.streams[i], m.ses.nowMs)]))
  {
    FindUpdate(m.streams, i, Block(m.streams[i], m.ses.nowMs), m.rx.id);
  }

  lemma HeaderStepBase(m: Mux, bytes: seq<byte>, c: nat)
    requires Base(m) && !m.rx.active && c <= |bytes| && (c < |bytes| || |m.rx.header| == HEADER_BYTES)
    ensures Base(HeaderStep(m, bytes, c).0)
    ensures HeaderStep(m, bytes, c).1 != InvalidState
  {
    hide Base, StartFrame, TakeHeader;
    var n := Min(HEADER_BYTES - |m.rx.header|, |bytes| - c);
    var t := m.(rx := TakeHeader(m.rx, bytes[c..c + n], m.ses.nowMs));
    TakeHeaderBase(m, bytes[c..c + n]);
    if |t.rx.header| == HEADER_BYTES {
      StartFrameBase(t);
      StartFrameResult(t);
    }
  }

  lemma TakeHeaderBase(m: Mux, bytes: seq<byte>)
    requires Base(m) && !m.rx.active && |m.rx.header| + |bytes| <= HEADER_BYTES
    ensures Base(m.(rx := TakeHeader(m.rx, bytes, m.ses.nowMs)))
  {
  }

  lemma StartFrameResult(m: Mux)
    requires !m.rx.active && |m.rx.header| == HEADER_BYTES
    ensures StartFrame(m).1 != InvalidState
  {
  }

  lemma BodyStepBase(m: Mux, bytes: seq<byte>, c: nat)
    requires Base(m) && m.rx.active && c < |bytes|
    ensures Base(BodyStep(m, bytes, c).0)
    ensures BodyStep(m, bytes, c).1 != InvalidState
  {
    hide Slots, Credit, Stalls;
    var n := Room(m, |bytes| - c);
    if m.rx.discard && n > DISCARD_LIMIT - m.rx.discarded {
    } else if n == 0 {
      BlockBase(m, Find(m.streams, m.rx.id));
    } else {
      TakeBodyBase(m, bytes[c..c + n]);
    }
  }

  /** Feeding keeps the invariant and never looks for a stream that is not there. */
  lemma {:induction false} FeedBase(m: Mux, bytes: seq<byte>, c: nat)
    requires Base(m) && c <= |bytes|
    ensures Base(FeedFrom(m, bytes, c).0)
    ensures FeedFrom(m, bytes, c).1 != InvalidState
    decreases |bytes| - c, Rank(m.rx)
  {
    hide Base;
    if !FeedDone(m, bytes, c) {
      if m.rx.active {
        BodyStepBase(m, bytes, c);
      } else {
        HeaderStepBase(m, bytes, c);
      }
      var s := FeedStep(m, bytes, c);
      if s.1 == Ok {
        FeedBase(s.0, bytes, s.2);
      }
    }
  }
}
