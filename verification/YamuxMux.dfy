/**
 The multiplexer as an object that each call updates in place, with circular
 buffers and an encoded output frame.  Every method is proved to do exactly what
 the function of the same name in `YamuxModel` says.
 */
module YamuxMux {
  import opened Efrp
  import opened YamuxFrames
  import M = YamuxModel
  import opened YamuxRing
  import opened YamuxTable
  import opened YamuxSender

  /** The slot after an admissible frame; a reset also empties the ring. */
  function ApplySlot(s: Slot, h: Header): (t: Slot)
    requires SlotOk(s) && M.Admissible(WithRing(s, []), h)
    ensures SlotOk(t)
    ensures forall ring :: M.Admissible(WithRing(s, ring), h) &&
              M.Apply(WithRing(s, ring), h) == WithRing(t, if Rst(h) then [] else ring)
  {
    var t := s.(acknowledged := s.acknowledged || Ack(h),
                receiveCredit := if h.kind == DATA then s.receiveCredit - h.value else s.receiveCredit,
                sendCredit := if h.kind == DATA then s.sendCredit else s.sendCredit + h.value);
    if Rst(h) then t.(reset := true, returnCredit := 0, blocked := false) else t
  }

  /** Whether a frame is admissible does not depend on the bytes in the ring. */
  lemma SameAdmissible(s: Slot, ring: seq<byte>, h: Header)
    ensures M.Admissible(WithRing(s, ring), h) == M.Admissible(WithRing(s, []), h)
  {
  }

  class Yamux {
    const table: StreamTable
    const sender: Sender
    var rx: M.Rx
    var ids: M.Ids
    var ses: M.Session

    /** The objects behind the sender. */
    ghost function Out(): set<object> {
      {sender, sender.queue, sender.queue.slots}
    }

    ghost predicate Valid()
      reads this, table, table.memory, Out()
    {
      && this !in table.memory && Out() !! table.memory
      && table.Valid() && sender.Valid()
    }

    /** The state value this object stands for. */
    ghost function Abs(): M.Mux
      reads this, table, table.memory, Out()
      requires Valid()
    {
      M.Mux(table.Value(), sender.Value(), rx, ids, ses)
    }

    /** `efrp_yamux_init`. */
    constructor (now: nat)
      ensures Valid() && Abs() == M.Init(now)
      ensures fresh(table) && fresh(table.memory) && fresh(Out())
    {
      table := new StreamTable();
      sender := new Sender();
      rx := M.Init(now).rx;
      ids := M.Init(now).ids;
      ses := M.Init(now).ses;
    }

    /** `efrp_yamux_open`. */
    method Open(memory: bool) returns (r: Result, id: nat)
      requires Valid()
      modifies this, table, table.memory, Out()
      ensures Valid() && (Abs(), r, id) == M.Open(old(Abs()), memory)
    {
      hide StreamTable.Value, StreamTable.Valid, Sender.Value, Sender.Valid, M.StreamWf, M.TxWf, M.Find, M.FindFrom,
           M.Queue;
      if ses.failure != Ok {
        return ses.failure, 0;
      }
      if ses.localGoaway || ses.remoteGoaway {
        return SessionClosed, 0;
      }
      if ids.next == 0 {
        return CapacityExceeded, 0;
      }
      var i := table.Free();
      if i == M.STREAMS {
        return CapacityExceeded, 0;
      }
      if sender.queue.count == M.CONTROL_SLOTS {
        return WouldBlock, 0;
      }
      if !memory {
        return NoMemory, 0;
      }
      id := ids.next;
      r := sender.Queue(Header(0, WINDOW, SYN, id, 0), ses.nowMs);
      table.Clear(i, Blank.(id := id, sendCredit := M.INITIAL_WINDOW, receiveCredit := M.INITIAL_WINDOW,
                            openedMs := ses.nowMs));
      ids := M.Advance(ids);
    }

    /** `efrp_yamux_close_write`. */
    method CloseWrite(id: nat) returns (r: Result)
      requires Valid()
      modifies this, table, Out()
      ensures Valid() && (Abs(), r) == M.CloseWrite(old(Abs()), id)
    {
      hide StreamTable.Value, StreamTable.Valid, Sender.Value, Sender.Valid, M.StreamWf, M.TxWf, M.Find, M.FindFrom,
           M.Queue;
      if ses.failure != Ok {
        return ses.failure;
      }
      var i := table.Find(id);
      if i == M.STREAMS {
        return InvalidArgument;
      }
      var s, used := table.Get(i);
      if s.reset {
        return StreamReset;
      }
      if s.localFin {
        return Ok;
      }
      r := sender.Queue(Header(0, WINDOW, FIN, s.id, 0), ses.nowMs);
      if r == Ok {
        table.Set(i, s.(localFin := true));
      }
    }

    /** `efrp_yamux_reset`. */
    method Reset(id: nat) returns (r: Result)
      requires Valid()
      modifies this, table, table.memory, Out()
      ensures Valid() && (Abs(), r) == M.Reset(old(Abs()), id)
    {
      hide StreamTable.Value, StreamTable.Valid, Sender.Value, Sender.Valid, M.StreamWf, M.TxWf, M.Find, M.FindFrom,
           M.Queue;
      if ses.failure != Ok {
        return ses.failure;
      }
      var i := table.Find(id);
      if i == M.STREAMS {
        return InvalidArgument;
      }
      var s, used := table.Get(i);
      if s.reset {
        return Ok;
      }
      r := sender.Queue(Header(0, WINDOW, RST, s.id, 0), ses.nowMs);
      if r == Ok {
        table.Clear(i, s.(reset := true, returnCredit := 0, blocked := false));
        if rx.active && rx.id == s.id && !rx.discard {
          rx := rx.(discard := true, drainMs := ses.nowMs);
        }
      }
    }

    /** Fill the output slot if it is free: a queued control frame first, otherwise one credit grant. */
    method Load()
      requires Valid()
      modifies this, table, Out()
      ensures Valid() && Abs() == M.Load(old(Abs()))
    {
      hide StreamTable.Value, StreamTable.Valid, Sender.Value, Sender.Valid, M.StreamWf, M.TxWf, M.Find, M.FindFrom,
           M.Queue, M.GrantSlot;
      if sender.output != [] {
        return;
      }
      if sender.queue.count > 0 {
        sender.LoadControl();
        return;
      }
      var slot := table.GrantSlot(sender.creditCursor);
      if slot < M.STREAMS {
        var s, used := table.Get(slot);
        sender.LoadGrant(s.id, s.returnCredit, (slot + 1) % M.STREAMS, ses.nowMs);
        table.Set(slot, s.(returnCredit := 0));
      }
    }

    /** `efrp_yamux_output`. */
    method Output() returns (r: Result, bytes: seq<byte>)
      requires Valid()
      modifies this, table, Out()
      ensures Valid() && (Abs(), r, bytes) == M.Output(old(Abs()))
    {
      hide StreamTable.Value, StreamTable.Valid, Sender.Value, Sender.Valid, M.StreamWf, M.TxWf, M.Find, M.FindFrom,
           M.Queue;
      hide M.Load, Encode, Decode;
      if ses.failure != Ok {
        return ses.failure, [];
      }
      Load();
      if sender.output == [] {
        return WouldBlock, [];
      }
      sender.Bytes();
      return Ok, sender.output[sender.outputOffset..];
    }

    /** `efrp_yamux_consume_output`. */
    method ConsumeOutput(length: nat) returns (r: Result)
      requires Valid()
      modifies this, table, Out()
      ensures Valid() && (Abs(), r) == M.ConsumeOutput(old(Abs()), length)
    {
      hide StreamTable.Value, StreamTable.Valid, Sender.Value, Sender.Valid, M.StreamWf, M.TxWf, M.Find, M.FindFrom,
           M.Queue;
      hide M.FinishOutput;
      if length > |sender.output| - sender.outputOffset {
        return InvalidArgument;
      }
      if ses.failure != Ok {
        return ses.failure;
      }
      if length == 0 {
        return Ok;
      }
      sender.Sent(length, ses.nowMs);
      if sender.outputOffset < |sender.output| {
        return Ok;
      }
      r := FinishOutput();
    }

    /** The whole frame in the output slot has reached the transport: the peer's window grows now. */
    method FinishOutput() returns (r: Result)
      requires Valid()
      modifies this, table, Out()
      ensures Valid() && (Abs(), r) == M.FinishOutput(old(Abs()))
    {
      hide StreamTable.Value, StreamTable.Valid, Sender.Value, Sender.Valid, M.StreamWf, M.TxWf, M.Find, M.FindFrom,
           M.Queue;
      var i := table.Find(sender.grantId);
      if i < M.STREAMS {
        var s, used := table.Get(i);
        if !s.reset {
          if sender.grantBytes > M.INITIAL_WINDOW - s.receiveCredit {
            ses := ses.(failure := ProtocolError);
            return ProtocolError;
          }
          table.Set(i, s.(receiveCredit := s.receiveCredit + sender.grantBytes));
        }
      }
      sender.Finish();
      return Ok;
    }

    /** `efrp_yamux_write`. */
    method Write(id: nat, bytes: seq<byte>) returns (r: Result, written: nat)
      requires Valid()
      modifies this, table, Out()
      ensures Valid() && (Abs(), r, written) == M.Write(old(Abs()), id, bytes)
    {
      hide StreamTable.Value, StreamTable.Valid, Sender.Value, Sender.Valid, M.StreamWf, M.TxWf, M.Find, M.FindFrom,
           M.Queue;
      hide M.Yield, M.PutData;
      if ses.failure != Ok {
        return ses.failure, 0;
      }
      var i := table.Find(id);
      if i == M.STREAMS {
        return InvalidArgument, 0;
      }
      var s, used := table.Get(i);
      if s.reset {
        return StreamReset, 0;
      }
      if s.localFin {
        return InvalidState, 0;
      }
      if bytes == [] {
        return Ok, 0;
      }
      Yield();
      s, used := table.Get(i);
      if sender.output != [] || s.sendCredit == 0 {
        return WouldBlock, 0;
      }
      written := Min(Min(|bytes|, M.RING_BYTES), s.sendCredit);
      PutData(i, bytes[..written]);
      return Ok, written;
    }

    /** Let pending control frames go first, and a credit grant every other time. */
    method Yield()
      requires Valid()
      modifies this, table, Out()
      ensures Valid() && Abs() == M.Yield(old(Abs()))
    {
      hide StreamTable.Value, StreamTable.Valid, Sender.Value, Sender.Valid, M.StreamWf, M.TxWf, M.Find, M.FindFrom,
           M.Queue, M.Load;
      if sender.output != [] || sender.queue.count > 0 || !sender.preferData {
        Load();
      }
    }

    /** Put one DATA frame for slot `i` into the free output slot. */
    method PutData(i: nat, body: seq<byte>)
      requires Valid() && i < M.STREAMS && sender.output == [] && |body| <= table.Value()[i].sendCredit
      modifies this, table, Out()
      ensures Valid() && Abs() == M.PutData(old(Abs()), i, body)
    {
      hide StreamTable.Value, StreamTable.Valid, Sender.Value, Sender.Valid, M.StreamWf, M.TxWf, M.Find, M.FindFrom,
           M.Queue;
      var s, used := table.Get(i);
      sender.LoadData(s.id, body, ses.nowMs);
      table.Set(i, s.(sendCredit := s.sendCredit - |body|));
    }

    /** `efrp_yamux_read`. */
    method Read(id: nat, capacity: nat) returns (r: Result, bytes: seq<byte>)
      requires Valid()
      modifies this, table, table.memory
      ensures Valid() && (Abs(), r, bytes) == M.Read(old(Abs()), id, capacity)
    {
      hide StreamTable.Value, StreamTable.Valid, Sender.Value, Sender.Valid, M.StreamWf, M.TxWf, M.Find, M.FindFrom,
           M.Queue;
      if capacity == 0 {
        return InvalidArgument, [];
      }
      if ses.failure != Ok {
        return ses.failure, [];
      }
      var i := table.Find(id);
      if i == M.STREAMS {
        return InvalidArgument, [];
      }
      var s, used := table.Get(i);
      if s.reset {
        return StreamReset, [];
      }
      if used == 0 {
        return if s.remoteFin then Eof else WouldBlock, [];
      }
      var n := Min(capacity, used);
      bytes := table.Take(i, n, s.(blocked := false, returnCredit := (s.returnCredit + n) % (U32_MAX + 1)));
      return Ok, bytes;
    }

    /** `efrp_yamux_release`. */
    method Release(id: nat) returns (r: Result)
      requires Valid()
      modifies this, table, table.memory
      ensures Valid() && (Abs(), r) == M.Release(old(Abs()), id)
    {
      hide StreamTable.Value, StreamTable.Valid, Sender.Value, Sender.Valid, M.StreamWf, M.TxWf, M.Find, M.FindFrom,
           M.Queue;
      if ses.failure != Ok {
        return ses.failure;
      }
      var i := table.Find(id);
      if i == M.STREAMS {
        return InvalidArgument;
      }
      var s, used := table.Get(i);
      if !s.reset && !(s.localFin && s.remoteFin && used == 0) {
        return InvalidState;
      }
      table.Clear(i, Blank);
      if rx.active && rx.id == id {
        rx := rx.(discard := true);
      }
      return Ok;
    }

    /** `efrp_yamux_ping`. */
    method Ping(id: nat) returns (r: Result)
      requires Valid() && id <= U32_MAX
      modifies this, Out()
      ensures Valid() && (Abs(), r) == M.Ping(old(Abs()), id)
    {
      hide StreamTable.Value, StreamTable.Valid, Sender.Value, Sender.Valid, M.StreamWf, M.TxWf, M.Find, M.FindFrom,
           M.Queue;
      if ses.failure != Ok {
        return ses.failure;
      }
      if ses.pingPending {
        return WouldBlock;
      }
      r := sender.Queue(Header(0, PING, SYN, 0, id), ses.nowMs);
      if r == Ok {
        ses := ses.(pingPending := true, pingId := id, pingMs := ses.nowMs);
      }
    }

    /** `efrp_yamux_goaway`. */
    method GoAway() returns (r: Result)
      requires Valid()
      modifies this, Out()
      ensures Valid() && (Abs(), r) == M.GoAway(old(Abs()))
    {
      hide StreamTable.Value, StreamTable.Valid, Sender.Value, Sender.Valid, M.StreamWf, M.TxWf, M.Find, M.FindFrom,
           M.Queue;
      if ses.failure != Ok {
        return ses.failure;
      }
      if ses.localGoaway {
        return Ok;
      }
      r := sender.Queue(Header(0, GOAWAY, 0, 0, 0), ses.nowMs);
      if r == Ok {
        ses := ses.(localGoaway := true);
      }
    }

    // ---------- input ----------

    method Fail(error: Result)
      requires Valid()
      modifies this`ses
      ensures Valid() && Abs() == M.Fail(old(Abs()), error)
    {
      hide StreamTable.Value, StreamTable.Valid, Sender.Value, Sender.Valid, M.StreamWf, M.TxWf, M.Find, M.FindFrom,
           M.Queue;
      ses := ses.(failure := error);
    }

    method EndFrame()
      requires Valid()
      modifies this, table
      ensures Valid() && Abs() == M.EndFrame(old(Abs()))
    {
      hide StreamTable.Value, StreamTable.Valid, Sender.Value, Sender.Valid, M.StreamWf, M.TxWf, M.Find, M.FindFrom,
           M.Queue;
      var i := table.Find(rx.id);
      if i < M.STREAMS {
        var s, used := table.Get(i);
        if !s.reset && rx.flags / 4 % 2 == 1 {
          table.Set(i, s.(remoteFin := true));
        }
      }
      rx := rx.(active := false, header := []);
    }

    method StartPing(h: Header) returns (r: Result)
      requires Valid() && Fits(h) && !rx.active
      modifies this, Out()
      ensures Valid() && (Abs(), r) == M.StartPing(old(Abs()), h)
    {
      hide StreamTable.Value, StreamTable.Valid, Sender.Value, Sender.Valid, M.StreamWf, M.TxWf, M.Find, M.FindFrom,
           M.Queue;
      if h.id != 0 || (h.flags != SYN && h.flags != ACK) {
        Fail(ProtocolError);
        return ProtocolError;
      }
      if h.flags == SYN {
        r := sender.Queue(Header(0, PING, ACK, 0, h.value), ses.nowMs);
        if r != Ok {
          return;
        }
      } else if !ses.pingPending || h.value != ses.pingId {
        Fail(ProtocolError);
        return ProtocolError;
      } else {
        ses := ses.(pingPending := false);
      }
      rx := rx.(header := []);
      return Ok;
    }

    method StartGoAway(h: Header) returns (r: Result)
      requires Valid() && !rx.active
      modifies this
      ensures Valid() && (Abs(), r) == M.StartGoAway(old(Abs()), h)
    {
      hide StreamTable.Value, StreamTable.Valid, Sender.Value, Sender.Valid, M.StreamWf, M.TxWf, M.Find, M.FindFrom,
           M.Queue;
      if h.id != 0 || h.flags != 0 || h.value > 2 {
        Fail(ProtocolError);
        return ProtocolError;
      }
      if h.value != 0 {
        Fail(SessionClosed);
        return SessionClosed;
      }
      ses := ses.(remoteGoaway := true);
      rx := rx.(header := []);
      return Ok;
    }

    method Begin(h: Header) returns (r: Result)
      requires Valid() && !rx.active && |rx.header| == HEADER_BYTES
      modifies this, table
      ensures Valid() && (Abs(), r) == M.Begin(old(Abs()), h)
    {
      hide StreamTable.Value, StreamTable.Valid, Sender.Value, Sender.Valid, M.StreamWf, M.TxWf, M.Find, M.FindFrom,
           M.Queue;
      hide M.EndFrame;
      var i := table.Find(h.id);
      var discard := i == M.STREAMS;
      if i < M.STREAMS {
        var s, used := table.Get(i);
        discard := s.reset;
      }
      if h.kind == DATA && discard && (h.value > M.INITIAL_WINDOW || h.value > M.DISCARD_LIMIT - rx.discarded) {
        Fail(ProtocolError);
        return ProtocolError;
      }
      rx := rx.(id := h.id, flags := h.flags, discard := discard, drainMs := if discard then ses.nowMs else rx.drainMs,
                remaining := BodyLength(h), active := BodyLength(h) > 0);
      if !rx.active {
        EndFrame();
      }
      return Ok;
    }

    method Accept(h: Header) returns (r: Result)
      requires Valid() && !rx.active && |rx.header| == HEADER_BYTES
      modifies this, table, table.memory
      ensures Valid() && (Abs(), r) == M.Accept(old(Abs()), h)
    {
      hide StreamTable.Value, StreamTable.Valid, Sender.Value, Sender.Valid, M.StreamWf, M.TxWf, M.Find, M.FindFrom,
           M.Queue;
      hide M.Begin;
      var i := table.Find(h.id);
      if i < M.STREAMS {
        var s, used := table.Get(i);
        if !s.reset {
          var admissible := Admissible(s, h);
          if !admissible {
            Fail(ProtocolError);
            return ProtocolError;
          }
          Apply(i, h);
        }
      }
      r := Begin(h);
    }

    method Admissible(s: Slot, h: Header) returns (b: bool)
      requires SlotOk(s)
      ensures forall ring :: M.Admissible(WithRing(s, ring), h) == b
    {
      if h.kind > WINDOW || (Ack(h) && s.acknowledged) || (!s.acknowledged && !Ack(h) && !Rst(h)) {
        return false;
      }
      if s.remoteFin && !Rst(h) && (h.kind == DATA || Fin(h)) {
        return false;
      }
      if h.kind == DATA {
        return h.value <= s.receiveCredit;
      }
      return h.value <= U32_MAX - s.sendCredit;
    }

    /** An admissible frame takes effect on slot `i`. */
    method Apply(i: nat, h: Header)
      requires Valid() && i < M.STREAMS && M.Admissible(table.Value()[i], h)
      modifies table, table.memory
      ensures Valid() && Abs() == old(Abs()).(streams := old(table.Value())[i := M.Apply(old(table.Value())[i], h)])
    {
      hide StreamTable.Value, StreamTable.Valid, Sender.Value, Sender.Valid, M.StreamWf, M.TxWf, M.Find, M.FindFrom,
           M.Queue, Ack, Rst, ApplySlot, M.Apply, M.Admissible;
      var s, used := table.Get(i);
      SameAdmissible(s, table.Value()[i].ring, h);
      if Rst(h) {
        table.Clear(i, ApplySlot(s, h));
      } else {
        table.Set(i, ApplySlot(s, h));
      }
    }

    method StartStream(h: Header) returns (r: Result)
      requires Valid() && !rx.active && |rx.header| == HEADER_BYTES && Fits(h)
      modifies this, table, table.memory, Out()
      ensures Valid() && (Abs(), r) == M.StartStream(old(Abs()), h)
    {
      hide StreamTable.Value, StreamTable.Valid, Sender.Value, Sender.Valid, M.StreamWf, M.TxWf, M.Find, M.FindFrom,
           M.Queue;
      hide M.Accept;
      if h.id == 0 || (Syn(h) && Ack(h)) || (Fin(h) && Rst(h)) {
        Fail(ProtocolError);
        return ProtocolError;
      }
      if Syn(h) {
        if h.id % 2 == 1 || h.id <= ids.peerLast || Rst(h) {
          Fail(ProtocolError);
          return ProtocolError;
        }
        r := sender.Queue(Header(0, WINDOW, RST, h.id, 0), ses.nowMs);
        if r != Ok {
          return;
        }
        ids := ids.(peerLast := h.id);
      } else if (h.id % 2 == 1 && ids.next != 0 && h.id >= ids.next) || (h.id % 2 == 0 && h.id > ids.peerLast) {
        Fail(ProtocolError);
        return ProtocolError;
      }
      r := Accept(h);
    }

    /** `start_frame`. */
    method StartFrame() returns (r: Result)
      requires Valid() && !rx.active && |rx.header| == HEADER_BYTES
      modifies this, table, table.memory, Out()
      ensures Valid() && (Abs(), r) == M.StartFrame(old(Abs()))
    {
      hide StreamTable.Value, StreamTable.Valid, Sender.Value, Sender.Valid, M.StreamWf, M.TxWf, M.Find, M.FindFrom,
           M.Queue;
      hide M.StartPing, M.StartGoAway, M.StartStream, Decode;
      var h := Decode(rx.header);
      if h.version != 0 || h.kind > GOAWAY || h.flags > 15 {
        Fail(ProtocolError);
        return ProtocolError;
      }
      if h.kind == PING {
        r := StartPing(h);
      } else if h.kind == GOAWAY {
        r := StartGoAway(h);
      } else {
        r := StartStream(h);
      }
    }

    /** Collect header bytes from `bytes[c..]`. */
    method HeaderStep(bytes: seq<byte>, c: nat) returns (r: Result, consumed: nat)
      requires Valid() && !rx.active && c <= |bytes| && (c < |bytes| || |rx.header| == HEADER_BYTES)
      modifies this, table, table.memory, Out()
      ensures Valid() && (Abs(), r, consumed) == M.HeaderStep(old(Abs()), bytes, c)
    {
      hide StreamTable.Value, StreamTable.Valid, Sender.Value, Sender.Valid, M.StreamWf, M.TxWf, M.Find, M.FindFrom,
           M.Queue;
      hide M.StartFrame;
      var n := Min(HEADER_BYTES - |rx.header|, |bytes| - c);
      if n > 0 {
        rx := rx.(header := rx.header + bytes[c..c + n], progressMs := ses.nowMs,
                  headerMs := if rx.header == [] then ses.nowMs else rx.headerMs);
      }
      consumed := c + n;
      if |rx.header| < HEADER_BYTES {
        return Ok, consumed;
      }
      r := StartFrame();
    }

    /** Move body bytes of the active frame from `bytes[c..]`. */
    method BodyStep(bytes: seq<byte>, c: nat) returns (r: Result, consumed: nat)
      requires Valid() && rx.active && c < |bytes|
      modifies this, table, table.memory, Out()
      ensures Valid() && (Abs(), r, consumed) == M.BodyStep(old(Abs()), bytes, c)
    {
      hide StreamTable.Value, StreamTable.Valid, Sender.Value, Sender.Valid, M.StreamWf, M.TxWf, M.Find, M.FindFrom,
           M.Queue;
      hide M.TakeBody;
      var i := table.Find(rx.id);
      var n := Min(|bytes| - c, rx.remaining);
      if rx.discard {
        if n > M.DISCARD_LIMIT - rx.discarded {
          Fail(ProtocolError);
          return ProtocolError, c;
        }
      } else if i == M.STREAMS {
        Fail(InvalidState);
        return InvalidState, c;
      } else {
        var s, used := table.Get(i);
        n := Min(n, M.RING_BYTES - used);
        if n == 0 {
          table.Set(i, if s.blocked then s else s.(blocked := true, blockedMs := ses.nowMs));
          return WouldBlock, c;
        }
      }
      TakeBody(bytes[c..c + n]);
      return Ok, c + n;
    }

    /** Take body bytes: into the ring of the frame's stream, or into the drain. */
    method TakeBody(bytes: seq<byte>)
      requires Valid() && M.Takes(Abs(), bytes)
      modifies this, table, table.memory, Out()
      ensures Valid() && Abs() == M.TakeBody(old(Abs()), bytes)
    {
      hide StreamTable.Value, StreamTable.Valid, Sender.Value, Sender.Valid, M.StreamWf, M.TxWf, M.Find, M.FindFrom,
           M.Queue;
      hide M.EndFrame;
      if rx.discard {
        rx := rx.(discarded := rx.discarded + |bytes|);
      } else {
        var i := table.Find(rx.id);
        table.Put(i, bytes);
      }
      rx := rx.(remaining := rx.remaining - |bytes|, active := rx.remaining > |bytes|, progressMs := ses.nowMs);
      if !rx.active {
        EndFrame();
      }
    }

    /** `efrp_yamux_feed`. */
    method Feed(bytes: seq<byte>) returns (r: Result, consumed: nat)
      requires Valid()
      modifies this, table, table.memory, Out()
      ensures Valid() && (Abs(), r, consumed) == M.Feed(old(Abs()), bytes)
    {
      hide StreamTable.Value, StreamTable.Valid, Sender.Value, Sender.Valid, M.StreamWf, M.TxWf, M.Find, M.FindFrom,
           M.Queue;
      hide M.HeaderStep, M.BodyStep;
      consumed := 0;
      if ses.failure != Ok {
        return ses.failure, 0;
      }
      while consumed < |bytes| || (!rx.active && |rx.header| == HEADER_BYTES)
        invariant Valid() && consumed <= |bytes|
        invariant M.FeedFrom(old(Abs()), bytes, 0) == M.FeedFrom(Abs(), bytes, consumed)
        decreases |bytes| - consumed, M.Rank(rx)
      {
        if rx.active {
          r, consumed := BodyStep(bytes, consumed);
        } else {
          r, consumed := HeaderStep(bytes, consumed);
        }
        if r != Ok {
          return;
        }
      }
      return Ok, consumed;
    }

    // ---------- deadlines ----------

    /** `efrp_yamux_tick`. */
    method Tick(now: nat) returns (r: Result)
      requires Valid()
      modifies this, table, table.memory, Out()
      ensures Valid() && (Abs(), r) == M.Tick(old(Abs()), now)
    {
      hide StreamTable.Value, StreamTable.Valid, Sender.Value, Sender.Valid, M.StreamWf, M.TxWf, M.Find, M.FindFrom,
           M.Queue;
      hide M.Reset, M.Expired;
      if ses.failure != Ok {
        return ses.failure;
      }
      if now < ses.nowMs {
        Fail(InvalidArgument);
        return InvalidArgument;
      }
      ses := ses.(nowMs := now);
      var expired := SessionExpired(now);
      if expired {
        Fail(Timeout);
        return Timeout;
      }
      r := TickStreams();
    }

    method SessionExpired(now: nat) returns (b: bool)
      requires Valid()
      ensures b == M.SessionExpired(Abs(), now)
    {
      hide StreamTable.Value, StreamTable.Valid, Sender.Value, Sender.Valid, M.StreamWf, M.TxWf, M.Find, M.FindFrom,
           M.Queue;
      hide M.Expired;
      b := ((sender.output != [] || sender.queue.count > 0) && M.Expired(sender.outputMs, now, M.IO_TIMEOUT_MS))
        || ((rx.header != [] || rx.active) && M.Expired(rx.progressMs, now, M.IO_TIMEOUT_MS))
        || (!rx.active && rx.header != [] && M.Expired(rx.headerMs, now, M.IO_TIMEOUT_MS))
        || (rx.active && rx.discard && M.Expired(rx.drainMs, now, M.IO_TIMEOUT_MS))
        || (ses.pingPending && M.Expired(ses.pingMs, now, M.IO_TIMEOUT_MS));
    }

    method TickStreams() returns (r: Result)
      requires Valid()
      modifies this, table, table.memory, Out()
      ensures Valid() && (Abs(), r) == M.TickStreams(old(Abs()), 0)
    {
      hide StreamTable.Value, StreamTable.Valid, Sender.Value, Sender.Valid, M.StreamWf, M.TxWf, M.Find, M.FindFrom,
           M.Queue;
      hide M.Reset, M.Expired;
      var k := 0;
      while k < M.STREAMS
        invariant k <= M.STREAMS && Valid()
        invariant M.TickStreams(old(Abs()), 0) == M.TickStreams(Abs(), k)
      {
        var s, used := table.Get(k);
        if s.id != 0 && !s.reset &&
           ((s.blocked && M.Expired(s.blockedMs, ses.nowMs, M.STALL_MS)) ||
            (!s.acknowledged && M.Expired(s.openedMs, ses.nowMs, M.OPEN_TIMEOUT_MS))) {
          r := Reset(s.id);
          if r != Ok {
            Fail(CapacityExceeded);
            return CapacityExceeded;
          }
        }
        k := k + 1;
      }
      return Ok;
    }

    /** `next_deadline` of the transport. */
    method NextDeadline() returns (at: nat)
      requires Valid()
      ensures at == M.NextDeadline(Abs())
    {
      hide StreamTable.Value, StreamTable.Valid, Sender.Value, Sender.Valid, M.StreamWf, M.TxWf, M.Find, M.FindFrom,
           M.Queue;
      hide M.Sooner;
      at := M.Sooner(U64_MAX, sender.output != [] || sender.queue.count > 0, sender.outputMs, M.IO_TIMEOUT_MS);
      at := M.Sooner(at, rx.header != [] || rx.active, rx.progressMs, M.IO_TIMEOUT_MS);
      at := M.Sooner(at, !rx.active && rx.header != [], rx.headerMs, M.IO_TIMEOUT_MS);
      at := M.Sooner(at, rx.active && rx.discard, rx.drainMs, M.IO_TIMEOUT_MS);
      at := M.Sooner(at, ses.pingPending, ses.pingMs, M.IO_TIMEOUT_MS);
      ghost var start := at;
      var k := 0;
      while k < M.STREAMS
        invariant k <= M.STREAMS && at == M.StreamDeadlines(table.Value(), k, start)
      {
        var s, used := table.Get(k);
        if s.id != 0 && !s.reset {
          at := M.Sooner(at, s.blocked, s.blockedMs, M.STALL_MS);
          at := M.Sooner(at, !s.acknowledged, s.openedMs, M.OPEN_TIMEOUT_MS);
        }
        k := k + 1;
      }
    }
  }
}
