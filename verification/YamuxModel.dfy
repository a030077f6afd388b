/**
 The Yamux client multiplexer as functions on one state value: the meaning of
 every call of `src/yamux.c`.  Rings and the control queue are plain sequences
 here; `YamuxMux` implements them with circular buffers.
 */
module YamuxModel {
  import opened Efrp
  import opened YamuxFrames

  const STREAMS: nat := 4
  const RING_BYTES: nat := 1024
  const CONTROL_SLOTS: nat := 8
  const INITIAL_WINDOW: nat := 262144
  const DISCARD_LIMIT: nat := 4 * INITIAL_WINDOW
  const STALL_MS: nat := 2500
  const IO_TIMEOUT_MS: nat := 5000
  const OPEN_TIMEOUT_MS: nat := 10000

  datatype Stream = Stream(
    id: nat, sendCredit: nat, receiveCredit: nat, returnCredit: nat,
    ring: seq<byte>,
    openedMs: nat, blockedMs: nat,
    acknowledged: bool, localFin: bool, remoteFin: bool, reset: bool, blocked: bool)

  const Vacant: Stream := Stream(0, 0, 0, 0, [], 0, 0, false, false, false, false, false)

  predicate StreamWf(s: Stream) {
    s.id <= U32_MAX && s.sendCredit <= U32_MAX && s.receiveCredit <= INITIAL_WINDOW &&
    s.returnCredit <= U32_MAX && |s.ring| <= RING_BYTES
  }

  type Streams = ss: seq<Stream> | |ss| == STREAMS && forall i :: 0 <= i < STREAMS ==> StreamWf(ss[i])
    witness [Vacant, Vacant, Vacant, Vacant]

  /** A frame in the output slot. */
  datatype Frame = Frame(h: Header, body: seq<byte>)

  function FrameBytes(f: Frame): (s: seq<byte>)
    requires Fits(f.h)
    ensures |s| == HEADER_BYTES + |f.body|
  {
    Encode(f.h) + f.body
  }

  function OutLength(out: Option<Frame>): nat {
    if out.None? then 0 else HEADER_BYTES + |out.value.body|
  }

  /** The sending side: queued control frames, the output slot and the credit grant in it. */
  datatype TxState = Tx(
    controls: seq<Header>, out: Option<Frame>, offset: nat,
    grantId: nat, grantBytes: nat, cursor: nat, preferData: bool, progressMs: nat)

  predicate TxWf(t: TxState) {
    && |t.controls| <= CONTROL_SLOTS
    && (forall k :: 0 <= k < |t.controls| ==> Fits(t.controls[k]) && t.controls[k].kind != DATA)
    && (t.out.Some? ==> Fits(t.out.value.h) && |t.out.value.body| == BodyLength(t.out.value.h))
    && t.offset <= OutLength(t.out)
    && t.grantBytes <= U32_MAX
    && t.cursor < STREAMS
  }

  type Tx = t: TxState | TxWf(t)
    witness Tx([], None, 0, 0, 0, 0, false, 0)

  /** The receiving side: the header being collected and the frame whose body is arriving. */
  datatype RxState = Rx(
    header: seq<byte>, active: bool, discard: bool, id: nat, flags: nat, remaining: nat,
    discarded: nat, progressMs: nat, headerMs: nat, drainMs: nat)

  predicate RxWf(r: RxState) {
    && |r.header| <= HEADER_BYTES
    && (r.active ==> r.remaining > 0 && |r.header| == HEADER_BYTES)
    && r.discarded <= DISCARD_LIMIT
  }

  type Rx = r: RxState | RxWf(r)
    witness Rx([], false, false, 0, 0, 0, 0, 0, 0, 0)

  datatype IdState = Ids(next: nat, peerLast: nat)

  /** The next id to open is odd; zero once the id space is used up. */
  type Ids = d: IdState | d.next <= U32_MAX && (d.next == 0 || d.next % 2 == 1) && d.peerLast <= U32_MAX
    witness Ids(1, 0)

  datatype Session = Session(
    nowMs: nat, localGoaway: bool, remoteGoaway: bool,
    pingPending: bool, pingId: nat, pingMs: nat, failure: Result)

  datatype Mux = Mux(streams: Streams, tx: Tx, rx: Rx, ids: Ids, ses: Session)

  function Init(now: nat): Mux
  {
    Mux([Vacant, Vacant, Vacant, Vacant], Tx([], None, 0, 0, 0, 0, false, 0),
        Rx([], false, false, 0, 0, 0, 0, 0, 0, 0), Ids(1, 0), Session(now, false, false, false, 0, 0, Ok))
  }

  /** Index of the slot that holds stream `id`, or `|ss|`. */
  function Find(ss: seq<Stream>, id: nat): (i: nat)
    ensures i <= |ss|
    ensures i < |ss| ==> id != 0 && ss[i].id == id
    ensures i == |ss| ==> id == 0 || forall k :: 0 <= k < |ss| ==> ss[k].id != id
  {
    if id == 0 then |ss| else FindFrom(ss, id, 0)
  }

  /** Index of the first slot at or after `from` whose id is `id`, or `|ss|`. */
  function FindFrom(ss: seq<Stream>, id: nat, from: nat): (i: nat)
    requires from <= |ss|
    ensures from <= i <= |ss|
    ensures i < |ss| ==> ss[i].id == id
    ensures forall k :: from <= k < i ==> ss[k].id != id
    decreases |ss| - from
  {
    if from == |ss| || ss[from].id == id then from else FindFrom(ss, id, from + 1)
  }

  function Fail(m: Mux, error: Result): Mux {
    m.(ses := m.ses.(failure := error))
  }

  /** Append a control frame, if a slot is free. */
  function Queue(t: Tx, h: Header, now: nat): (r: (Tx, Result))
    requires Fits(h) && h.kind != DATA
    ensures r.1 == if |t.controls| < CONTROL_SLOTS then Ok else WouldBlock
    ensures r.1 != Ok ==> r.0 == t
  {
    if |t.controls| == CONTROL_SLOTS then (t, WouldBlock)
    else
      (t.(progressMs := if t.controls == [] && t.out.None? then now else t.progressMs,
          controls := t.controls + [h]), Ok)
  }

  function ResetStream(s: Stream): Stream {
    s.(reset := true, ring := [], returnCredit := 0, blocked := false)
  }

  /** A stream was reset: drain the rest of its frame. */
  function Abandon(r: Rx, id: nat, now: nat): Rx {
    if r.active && r.id == id && !r.discard then r.(discard := true, drainMs := now) else r
  }

  /** `efrp_yamux_open`; `memory` says whether the ring can be allocated. */
  function Open(m: Mux, memory: bool): (r: (Mux, Result, nat))
  {
    if m.ses.failure != Ok then (m, m.ses.failure, 0)
    else if m.ses.localGoaway || m.ses.remoteGoaway then (m, SessionClosed, 0)
    else if m.ids.next == 0 then (m, CapacityExceeded, 0)
    else
      var i := FindFrom(m.streams, 0, 0);
      if i == STREAMS then (m, CapacityExceeded, 0)
      else if |m.tx.controls| == CONTROL_SLOTS then (m, WouldBlock, 0)
      else if !memory then (m, NoMemory, 0)
      else
        (m.(tx := Queue(m.tx, Header(0, WINDOW, SYN, m.ids.next, 0), m.ses.nowMs).0,
            streams := m.streams[i := NewStream(m.ids.next, m.ses.nowMs)], ids := Advance(m.ids)),
         Ok, m.ids.next)
  }

  function NewStream(id: nat, now: nat): Stream {
    Vacant.(id := id, sendCredit := INITIAL_WINDOW, receiveCredit := INITIAL_WINDOW, openedMs := now)
  }

  function Advance(d: Ids): Ids
    requires d.next != 0
  {
    d.(next := if d.next == U32_MAX then 0 else d.next + 2)
  }

  predicate Grantable(s: Stream) {
    s.id != 0 && !s.reset && !s.remoteFin && s.returnCredit != 0
  }

  /** The slot that gets the next credit grant when scanning from `cursor + k`, or `STREAMS`. */
  function GrantSlot(ss: Streams, cursor: nat, k: nat): (slot: nat)
    requires k <= STREAMS
    ensures slot <= STREAMS
    ensures slot < STREAMS ==> Grantable(ss[slot])
    decreases STREAMS - k
  {
    if k == STREAMS then STREAMS
    else
      var slot := (cursor + k) % STREAMS;
      if Grantable(ss[slot]) then slot else GrantSlot(ss, cursor, k + 1)
  }

  /** Fill the output slot if it is free: a queued control frame first, otherwise one credit grant. */
  function Load(m: Mux): Mux
  {
    if m.tx.out.Some? then m
    else if m.tx.controls != [] then
      m.(tx := m.tx.(out := Some(Frame(m.tx.controls[0], [])), controls := m.tx.controls[1..]))
    else
      var slot := GrantSlot(m.streams, m.tx.cursor, 0);
      if slot == STREAMS then m
      else
        m.(tx := m.tx.(out := Some(Frame(GrantHeader(m.streams[slot]), [])),
                       grantId := m.streams[slot].id, grantBytes := m.streams[slot].returnCredit,
                       progressMs := m.ses.nowMs, cursor := (slot + 1) % STREAMS, preferData := true),
           streams := m.streams[slot := m.streams[slot].(returnCredit := 0)])
  }

  function GrantHeader(s: Stream): Header {
    Header(0, WINDOW, 0, s.id, s.returnCredit)
  }

  /** `efrp_yamux_output`: the bytes still to be sent from the output slot. */
  function Output(m: Mux): (r: (Mux, Result, seq<byte>))
  {
    if m.ses.failure != Ok then (m, m.ses.failure, [])
    else
      var n := Load(m);
      if n.tx.out.None? then (n, WouldBlock, []) else (n, Ok, FrameBytes(n.tx.out.value)[n.tx.offset..])
  }

  /** `efrp_yamux_consume_output`. */
  function ConsumeOutput(m: Mux, length: nat): (r: (Mux, Result))
  {
    if length > OutLength(m.tx.out) - m.tx.offset then (m, InvalidArgument)
    else if m.ses.failure != Ok then (m, m.ses.failure)
    else if length == 0 then (m, Ok)
    else
      var n := m.(tx := m.tx.(offset := m.tx.offset + length, progressMs := m.ses.nowMs));
      if n.tx.offset < OutLength(n.tx.out) then (n, Ok) else FinishOutput(n)
  }

  /** The whole frame in the output slot has reached the transport. */
  function FinishOutput(m: Mux): (r: (Mux, Result))
  {
    var i := Find(m.streams, m.tx.grantId);
    if i < STREAMS && !m.streams[i].reset && m.tx.grantBytes > INITIAL_WINDOW - m.streams[i].receiveCredit then
      (Fail(m, ProtocolError), ProtocolError)
    else
      (m.(tx := m.tx.(grantId := 0, grantBytes := 0, out := None, offset := 0),
          streams := if i < STREAMS && !m.streams[i].reset
                     then m.streams[i := m.streams[i].(receiveCredit := m.streams[i].receiveCredit + m.tx.grantBytes)]
                     else m.streams), Ok)
  }

  /** `efrp_yamux_write`: accept a prefix of `bytes` as one DATA frame. */
  function Write(m: Mux, id: nat, bytes: seq<byte>): (r: (Mux, Result, nat))
    ensures r.2 <= |bytes|
  {
    if m.ses.failure != Ok then (m, m.ses.failure, 0)
    else
      var i := Find(m.streams, id);
      if i == STREAMS then (m, InvalidArgument, 0)
      else if m.streams[i].reset then (m, StreamReset, 0)
      else if m.streams[i].localFin then (m, InvalidState, 0)
      else if bytes == [] then (m, Ok, 0)
      else
        var n := Yield(m);
        if n.tx.out.Some? || n.streams[i].sendCredit == 0 then (n, WouldBlock, 0)
        else
          var count := DataCount(n.streams[i], bytes);
          (PutData(n, i, bytes[..count]), Ok, count)
  }

  /** What `Write` lets go first: pending control frames always, a credit grant every other time. */
  function Yield(m: Mux): Mux {
    if m.tx.out.Some? || m.tx.controls != [] || !m.tx.preferData then Load(m) else m
  }

  function DataCount(s: Stream, bytes: seq<byte>): (n: nat)
    ensures n <= |bytes| && n <= s.sendCredit && n <= RING_BYTES
  {
    Min(Min(|bytes|, RING_BYTES), s.sendCredit)
  }

  /** Put one DATA frame for slot `i` into the free output slot. */
  function PutData(m: Mux, i: nat, body: seq<byte>): Mux
    requires i < STREAMS && m.tx.out.None? && |body| <= m.streams[i].sendCredit
  {
    m.(tx := m.tx.(out := Some(Frame(Header(0, DATA, 0, m.streams[i].id, |body|), body)),
                   progressMs := m.ses.nowMs, preferData := false),
       streams := m.streams[i := m.streams[i].(sendCredit := m.streams[i].sendCredit - |body|)])
  }

  /** `efrp_yamux_read`. */
  function Read(m: Mux, id: nat, capacity: nat): (r: (Mux, Result, seq<byte>))
  {
    if capacity == 0 then (m, InvalidArgument, [])
    else if m.ses.failure != Ok then (m, m.ses.failure, [])
    else
      var i := Find(m.streams, id);
      if i == STREAMS then (m, InvalidArgument, [])
      else
        var s := m.streams[i];
        if s.reset then (m, StreamReset, [])
        else if s.ring == [] then (m, if s.remoteFin then Eof else WouldBlock, [])
        else
          var n := Min(capacity, |s.ring|);
          (m.(streams := m.streams[i := Drained(s, n)]), Ok, s.ring[..n])
  }

  /** The stream after the application has taken `n` bytes; the credit sum is 32 bits wide. */
  function Drained(s: Stream, n: nat): Stream
    requires n <= |s.ring|
  {
    s.(ring := s.ring[n..], blocked := false, returnCredit := (s.returnCredit + n) % (U32_MAX + 1))
  }

  /** `efrp_yamux_close_write`. */
  function CloseWrite(m: Mux, id: nat): (r: (Mux, Result))
  {
    if m.ses.failure != Ok then (m, m.ses.failure)
    else
      var i := Find(m.streams, id);
      if i == STREAMS then (m, InvalidArgument)
      else if m.streams[i].reset then (m, StreamReset)
      else if m.streams[i].localFin then (m, Ok)
      else
        var (t, r) := Queue(m.tx, Header(0, WINDOW, FIN, m.streams[i].id, 0), m.ses.nowMs);
        if r != Ok then (m, r)
        else (m.(tx := t, streams := m.streams[i := m.streams[i].(localFin := true)]), Ok)
  }

  /** `efrp_yamux_reset`. */
  function Reset(m: Mux, id: nat): (r: (Mux, Result))
  {
    if m.ses.failure != Ok then (m, m.ses.failure)
    else
      var i := Find(m.streams, id);
      if i == STREAMS then (m, InvalidArgument)
      else if m.streams[i].reset then (m, Ok)
      else
        var (t, r) := Queue(m.tx, Header(0, WINDOW, RST, m.streams[i].id, 0), m.ses.nowMs);
        if r != Ok then (m, r)
        else (m.(tx := t, streams := m.streams[i := ResetStream(m.streams[i])],
                 rx := Abandon(m.rx, m.streams[i].id, m.ses.nowMs)), Ok)
  }

  /** `efrp_yamux_release`. */
  function Release(m: Mux, id: nat): (r: (Mux, Result))
  {
    if m.ses.failure != Ok then (m, m.ses.failure)
    else
      var i := Find(m.streams, id);
      if i == STREAMS then (m, InvalidArgument)
      else
        var s := m.streams[i];
        if !s.reset && !(s.localFin && s.remoteFin && s.ring == []) then (m, InvalidState)
        else
          (m.(streams := m.streams[i := Vacant],
              rx := m.rx.(discard := m.rx.discard || (m.rx.active && m.rx.id == id))), Ok)
  }

  /** `efrp_yamux_ping`. */
  function Ping(m: Mux, id: nat): (r: (Mux, Result))
    requires id <= U32_MAX
  {
    if m.ses.failure != Ok then (m, m.ses.failure)
    else if m.ses.pingPending then (m, WouldBlock)
    else
      var (t, r) := Queue(m.tx, Header(0, PING, SYN, 0, id), m.ses.nowMs);
      if r != Ok then (m, r)
      else (m.(tx := t, ses := m.ses.(pingPending := true, pingId := id, pingMs := m.ses.nowMs)), Ok)
  }

  /** `efrp_yamux_goaway`. */
  function GoAway(m: Mux): (r: (Mux, Result))
  {
    if m.ses.failure != Ok then (m, m.ses.failure)
    else if m.ses.localGoaway then (m, Ok)
    else
      var (t, r) := Queue(m.tx, Header(0, GOAWAY, 0, 0, 0), m.ses.nowMs);
      if r != Ok then (m, r) else (m.(tx := t, ses := m.ses.(localGoaway := true)), Ok)
  }

  // ---------- input ----------

  function EndFrame(m: Mux): (n: Mux)
    ensures !n.rx.active && n.rx.header == []
  {
    var i := Find(m.streams, m.rx.id);
    m.(streams := if i < STREAMS && !m.streams[i].reset && m.rx.flags / 4 % 2 == 1
                  then m.streams[i := m.streams[i].(remoteFin := true)] else m.streams,
       rx := m.rx.(active := false, header := []))
  }

  function StartPing(m: Mux, h: Header): (r: (Mux, Result))
    requires Fits(h) && !m.rx.active
    ensures !r.0.rx.active
    ensures r.1 == Ok ==> r.0.rx.header == []
  {
    if h.id != 0 || (h.flags != SYN && h.flags != ACK) then (Fail(m, ProtocolError), ProtocolError)
    else if h.flags == SYN then
      var (t, r) := Queue(m.tx, Header(0, PING, ACK, 0, h.value), m.ses.nowMs);
      if r != Ok then (m, r) else (m.(tx := t, rx := m.rx.(header := [])), Ok)
    else if m.ses.pingPending && h.value == m.ses.pingId then
      (m.(ses := m.ses.(pingPending := false), rx := m.rx.(header := [])), Ok)
    else (Fail(m, ProtocolError), ProtocolError)
  }

  function StartGoAway(m: Mux, h: Header): (r: (Mux, Result))
    requires !m.rx.active
    ensures !r.0.rx.active
    ensures r.1 == Ok ==> r.0.rx.header == []
  {
    if h.id != 0 || h.flags != 0 || h.value > 2 then (Fail(m, ProtocolError), ProtocolError)
    else if h.value != 0 then (Fail(m, SessionClosed), SessionClosed)
    else (m.(ses := m.ses.(remoteGoaway := true), rx := m.rx.(header := [])), Ok)
  }

  /** The checks a DATA or WINDOW frame must pass on a live stream. */
  predicate Admissible(s: Stream, h: Header) {
    && h.kind <= WINDOW
    && !(Ack(h) && s.acknowledged)
    && (s.acknowledged || Ack(h) || Rst(h))
    && !(s.remoteFin && !Rst(h) && (h.kind == DATA || Fin(h)))
    && (h.kind == DATA ==> h.value <= s.receiveCredit)
    && (h.kind == WINDOW ==> h.value <= U32_MAX - s.sendCredit)
  }

  /** The stream after an admissible frame has taken effect. */
  function Apply(s: Stream, h: Header): Stream
    requires Admissible(s, h)
  {
    var t := s.(acknowledged := s.acknowledged || Ack(h),
                receiveCredit := if h.kind == DATA then s.receiveCredit - h.value else s.receiveCredit,
                sendCredit := if h.kind == DATA then s.sendCredit else s.sendCredit + h.value);
    if Rst(h) then ResetStream(t) else t
  }

  /** Start receiving the body of `h`, or finish the frame at once if it has none. */
  function Begin(m: Mux, h: Header): (r: (Mux, Result))
    requires !m.rx.active && |m.rx.header| == HEADER_BYTES
    ensures r.1 == Ok && !r.0.rx.active ==> r.0.rx.header == []
  {
    var i := Find(m.streams, h.id);
    var discard := i == STREAMS || m.streams[i].reset;
    if h.kind == DATA && discard && (h.value > INITIAL_WINDOW || h.value > DISCARD_LIMIT - m.rx.discarded) then
      (Fail(m, ProtocolError), ProtocolError)
    else
      var n := m.(rx := SetFrame(m.rx, h, discard, m.ses.nowMs));
      (if n.rx.active then n else EndFrame(n), Ok)
  }

  function SetFrame(r: Rx, h: Header, discard: bool, now: nat): Rx
    requires |r.header| == HEADER_BYTES
  {
    r.(id := h.id, flags := h.flags, discard := discard, drainMs := if discard then now else r.drainMs,
       remaining := BodyLength(h), active := BodyLength(h) > 0)
  }

  function Accept(m: Mux, h: Header): (r: (Mux, Result))
    requires !m.rx.active && |m.rx.header| == HEADER_BYTES
    ensures r.1 == Ok && !r.0.rx.active ==> r.0.rx.header == []
  {
    var i := Find(m.streams, h.id);
    if i == STREAMS || m.streams[i].reset then Begin(m, h)
    else if !Admissible(m.streams[i], h) then (Fail(m, ProtocolError), ProtocolError)
    else Begin(m.(streams := m.streams[i := Apply(m.streams[i], h)]), h)
  }

  function StartStream(m: Mux, h: Header): (r: (Mux, Result))
    requires !m.rx.active && |m.rx.header| == HEADER_BYTES && Fits(h)
    ensures r.1 == Ok && !r.0.rx.active ==> r.0.rx.header == []
  {
    if h.id == 0 || (Syn(h) && Ack(h)) || (Fin(h) && Rst(h)) then (Fail(m, ProtocolError), ProtocolError)
    else if Syn(h) then
      if h.id % 2 == 1 || h.id <= m.ids.peerLast || Rst(h) then (Fail(m, ProtocolError), ProtocolError)
      else
        var (t, r) := Queue(m.tx, Header(0, WINDOW, RST, h.id, 0), m.ses.nowMs);
        if r != Ok then (m, r) else Accept(m.(tx := t, ids := m.ids.(peerLast := h.id)), h)
    else if if h.id % 2 == 1 then m.ids.next != 0 && h.id >= m.ids.next else h.id > m.ids.peerLast then
      (Fail(m, ProtocolError), ProtocolError)
    else Accept(m, h)
  }

  /** `start_frame`: act on a complete header. */
  function StartFrame(m: Mux): (r: (Mux, Result))
    requires !m.rx.active && |m.rx.header| == HEADER_BYTES
    ensures r.1 == Ok && !r.0.rx.active ==> r.0.rx.header == []
  {
    var h := Decode(m.rx.header);
    if h.version != 0 || h.kind > GOAWAY || h.flags > 15 then (Fail(m, ProtocolError), ProtocolError)
    else if h.kind == PING then StartPing(m, h)
    else if h.kind == GOAWAY then StartGoAway(m, h)
    else StartStream(m, h)
  }

  /** Collect header bytes. */
  function TakeHeader(r: Rx, bytes: seq<byte>, now: nat): (t: Rx)
    requires !r.active && |r.header| + |bytes| <= HEADER_BYTES
    ensures !t.active && t.header == r.header + bytes
  {
    if bytes == [] then r
    else r.(header := r.header + bytes, progressMs := now, headerMs := if r.header == [] then now else r.headerMs)
  }

  /** How many of the next `available` bytes the active frame takes now. */
  function Room(m: Mux, available: nat): (n: nat)
    ensures n <= available && n <= m.rx.remaining
  {
    var n := Min(available, m.rx.remaining);
    var i := Find(m.streams, m.rx.id);
    if m.rx.discard || i == STREAMS then n else Min(n, RING_BYTES - |m.streams[i].ring|)
  }

  /** The active frame can take these body bytes: its stream's ring, or the drain, has room. */
  predicate Takes(m: Mux, bytes: seq<byte>) {
    && m.rx.active && 0 < |bytes| <= m.rx.remaining
    && (m.rx.discard ==> |bytes| <= DISCARD_LIMIT - m.rx.discarded)
    && (!m.rx.discard ==>
          var i := Find(m.streams, m.rx.id); i < STREAMS && |bytes| <= RING_BYTES - |m.streams[i].ring|)
  }

  /** Take body bytes: into the ring of the frame's stream, or into the drain. */
  function TakeBody(m: Mux, bytes: seq<byte>): (n: Mux)
    requires Takes(m, bytes)
    ensures !n.rx.active ==> n.rx.header == []
  {
    var n := Store(m, bytes);
    if n.rx.active then n else EndFrame(n)
  }

  function Store(m: Mux, bytes: seq<byte>): Mux
    requires Takes(m, bytes)
  {
    var i := Find(m.streams, m.rx.id);
    m.(rx := m.rx.(remaining := m.rx.remaining - |bytes|,
                   active := m.rx.remaining > |bytes|, progressMs := m.ses.nowMs,
                   discarded := if m.rx.discard then m.rx.discarded + |bytes| else m.rx.discarded),
       streams := if m.rx.discard then m.streams
                  else m.streams[i := m.streams[i].(ring := m.streams[i].ring + bytes)])
  }

  /** The stream that owns the active frame has a full ring. */
  function Block(s: Stream, now: nat): Stream {
    if s.blocked then s else s.(blocked := true, blockedMs := now)
  }

  /** Collect header bytes and act on a complete header. */
  function HeaderStep(m: Mux, bytes: seq<byte>, c: nat): (r: (Mux, Result, nat))
    requires !m.rx.active && c <= |bytes| && (c < |bytes| || |m.rx.header| == HEADER_BYTES)
    ensures c <= r.2 <= |bytes|
    ensures r.1 == Ok && r.2 == c ==> Rank(r.0.rx) < Rank(m.rx)
  {
    var n := Min(HEADER_BYTES - |m.rx.header|, |bytes| - c);
    var t := m.(rx := TakeHeader(m.rx, bytes[c..c + n], m.ses.nowMs));
    if |t.rx.header| < HEADER_BYTES then (t, Ok, c + n)
    else
      var (f, r) := StartFrame(t);
      (f, r, c + n)
  }

  /** Move body bytes of the active frame. */
  function BodyStep(m: Mux, bytes: seq<byte>, c: nat): (r: (Mux, Result, nat))
    requires m.rx.active && c < |bytes|
    ensures c <= r.2 <= |bytes|
    ensures r.1 == Ok ==> r.2 > c
  {
    var n := Room(m, |bytes| - c);
    var i := Find(m.streams, m.rx.id);
    if m.rx.discard && n > DISCARD_LIMIT - m.rx.discarded then (Fail(m, ProtocolError), ProtocolError, c)
    else if !m.rx.discard && i == STREAMS then (Fail(m, InvalidState), InvalidState, c)
    else if n == 0 then (m.(streams := m.streams[i := Block(m.streams[i], m.ses.nowMs)]), WouldBlock, c)
    else (TakeBody(m, bytes[c..c + n]), Ok, c + n)
  }

  /** One turn of the `efrp_yamux_feed` loop. */
  function FeedStep(m: Mux, bytes: seq<byte>, c: nat): (r: (Mux, Result, nat))
    requires c <= |bytes| && !FeedDone(m, bytes, c)
    ensures c <= r.2 <= |bytes|
    ensures r.1 == Ok && r.2 == c ==> Rank(r.0.rx) < Rank(m.rx)
  {
    if m.rx.active then BodyStep(m, bytes, c) else HeaderStep(m, bytes, c)
  }

  predicate FeedDone(m: Mux, bytes: seq<byte>, c: nat) {
    c == |bytes| && (m.rx.active || |m.rx.header| < HEADER_BYTES)
  }

  function Rank(r: Rx): nat {
    if r.active then 0 else 1 + |r.header|
  }

  /** `efrp_yamux_feed` from byte `c` on; the last component counts the bytes consumed. */
  function FeedFrom(m: Mux, bytes: seq<byte>, c: nat): (r: (Mux, Result, nat))
    requires c <= |bytes|
    ensures c <= r.2 <= |bytes|
    decreases |bytes| - c, Rank(m.rx)
  {
    if FeedDone(m, bytes, c) then (m, Ok, c)
    else
      var s := FeedStep(m, bytes, c);
      if s.1 != Ok then s else FeedFrom(s.0, bytes, s.2)
  }

  /** `efrp_yamux_feed`. */
  function Feed(m: Mux, bytes: seq<byte>): (r: (Mux, Result, nat))
    ensures r.2 <= |bytes|
  {
    if m.ses.failure != Ok then (m, m.ses.failure, 0) else FeedFrom(m, bytes, 0)
  }

  // ---------- deadlines ----------

  /** The unsigned age of `start` at `now` has reached `limit`. */
  predicate Expired(start: nat, now: nat, limit: nat) {
    (now - start) % (U64_MAX + 1) >= limit
  }

  predicate SessionExpired(m: Mux, now: nat) {
    || ((m.tx.out.Some? || m.tx.controls != []) && Expired(m.tx.progressMs, now, IO_TIMEOUT_MS))
    || ((m.rx.header != [] || m.rx.active) && Expired(m.rx.progressMs, now, IO_TIMEOUT_MS))
    || (!m.rx.active && m.rx.header != [] && Expired(m.rx.headerMs, now, IO_TIMEOUT_MS))
    || (m.rx.active && m.rx.discard && Expired(m.rx.drainMs, now, IO_TIMEOUT_MS))
    || (m.ses.pingPending && Expired(m.ses.pingMs, now, IO_TIMEOUT_MS))
  }

  predicate StreamExpired(s: Stream, now: nat) {
    s.id != 0 && !s.reset &&
    ((s.blocked && Expired(s.blockedMs, now, STALL_MS)) ||
     (!s.acknowledged && Expired(s.openedMs, now, OPEN_TIMEOUT_MS)))
  }

  /** `efrp_yamux_tick`. */
  function Tick(m: Mux, now: nat): (r: (Mux, Result))
  {
    if m.ses.failure != Ok then (m, m.ses.failure)
    else if now < m.ses.nowMs then (Fail(m, InvalidArgument), InvalidArgument)
    else
      var n := m.(ses := m.ses.(nowMs := now));
      if SessionExpired(n, now) then (Fail(n, Timeout), Timeout) else TickStreams(n, 0)
  }

  /** Reset every expired stream from slot `k` on. */
  function TickStreams(m: Mux, k: nat): (r: (Mux, Result))
    requires k <= STREAMS
    decreases STREAMS - k
  {
    if k == STREAMS then (m, Ok)
    else if !StreamExpired(m.streams[k], m.ses.nowMs) then TickStreams(m, k + 1)
    else
      var (n, r) := Reset(m, m.streams[k].id);
      if r != Ok then (Fail(n, CapacityExceeded), CapacityExceeded) else TickStreams(n, k + 1)
  }

  /** One `DEADLINE` macro step of `next_deadline`, with its 64-bit sum. */
  function Sooner(at: nat, condition: bool, start: nat, limit: nat): nat {
    var d := (start + limit) % (U64_MAX + 1);
    if condition && d < at then d else at
  }

  /** The deadlines of the first `k` slots. */
  function StreamDeadlines(ss: Streams, k: nat, at: nat): nat
    requires k <= STREAMS
  {
    if k == 0 then at
    else
      var s := ss[k - 1];
      var before := StreamDeadlines(ss, k - 1, at);
      if s.id == 0 || s.reset then before
      else Sooner(Sooner(before, s.blocked, s.blockedMs, STALL_MS), !s.acknowledged, s.openedMs, OPEN_TIMEOUT_MS)
  }

  /** `next_deadline` of the transport: when `Tick` must next be called. */
  function NextDeadline(m: Mux): nat {
    var a := Sooner(U64_MAX, m.tx.out.Some? || m.tx.controls != [], m.tx.progressMs, IO_TIMEOUT_MS);
    var b := Sooner(a, m.rx.header != [] || m.rx.active, m.rx.progressMs, IO_TIMEOUT_MS);
    var c := Sooner(b, !m.rx.active && m.rx.header != [], m.rx.headerMs, IO_TIMEOUT_MS);
    var d := Sooner(c, m.rx.active && m.rx.discard, m.rx.drainMs, IO_TIMEOUT_MS);
    var e := Sooner(d, m.ses.pingPending, m.ses.pingMs, IO_TIMEOUT_MS);
    StreamDeadlines(m.streams, STREAMS, e)
  }
}
