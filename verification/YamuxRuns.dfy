/** Whole runs of the multiplexer: any sequence of calls, and what holds after each. */
module YamuxRuns {
  import opened Efrp
  import opened YamuxFrames
  import opened YamuxModel
  import opened YamuxInvariant
  import opened YamuxDelivery
  import opened YamuxLanguage
  import opened YamuxDeadline

  /** Everything that has crossed the multiplexer's interface. */
  datatype Log = Log(
    fed: seq<byte>,       // consumed by feed calls
    got: Book,            // returned by read calls, per stream
    put: Book,            // accepted by write calls, per stream
    loaded: seq<byte>,    // frames that entered the output slot
    sent: seq<byte>)      // taken from it by the transport

  datatype World = World(m: Mux, log: Log)

  datatype Call =
    | CallOpen(memory: bool)
    | CallOutput
    | CallConsume(length: nat)
    | CallWrite(id: nat, bytes: seq<byte>)
    | CallRead(id: nat, capacity: nat)
    | CallCloseWrite(id: nat)
    | CallReset(id: nat)
    | CallRelease(id: nat)
    | CallPing(tag: nat)
    | CallGoAway
    | CallFeed(bytes: seq<byte>)
    | CallTick(now: nat)

  /** The log after the output slot has gone from `t` to `u`. */
  function Loaded(loaded: seq<byte>, t: Tx, u: Tx): seq<byte> {
    if t.out.None? && u.out.Some? then loaded + FrameBytes(u.out.value) else loaded
  }

  function Step(w: World, c: Call): World
  {
    var m, log := w.m, w.log;
    match c
    case CallOpen(memory) => World(Open(m, memory).0, log)
    case CallOutput => World(Output(m).0, log.(loaded := Loaded(log.loaded, m.tx, Output(m).0.tx)))
    case CallConsume(length) =>
      World(ConsumeOutput(m, length).0,
            if m.ses.failure == Ok && length <= |Rest(m.tx)|
            then log.(sent := log.sent + Rest(m.tx)[..length]) else log)
    case CallWrite(id, bytes) =>
      var (n, r, count) := Write(m, id, bytes);
      World(n, log.(put := if r == Ok then log.put[id := At(log.put, id) + bytes[..count]] else log.put,
                    loaded := Loaded(log.loaded, m.tx, n.tx)))
    case CallRead(id, capacity) =>
      var (n, r, bytes) := Read(m, id, capacity);
      World(n, if r == Ok then log.(got := log.got[id := At(log.got, id) + bytes]) else log)
    case CallCloseWrite(id) => World(CloseWrite(m, id).0, log)
    case CallReset(id) => World(Reset(m, id).0, log)
    case CallRelease(id) => World(Release(m, id).0, log)
    case CallPing(tag) => World(if tag <= U32_MAX then Ping(m, tag).0 else m, log)
    case CallGoAway => World(GoAway(m).0, log)
    case CallFeed(bytes) =>
      var (n, r, count) := Feed(m, bytes);
      World(n, log.(fed := log.fed + bytes[..count]))
    case CallTick(now) => World(Tick(m, now).0, log)
  }

  function Run(w: World, calls: seq<Call>): World
  {
    if calls == [] then w else Step(Run(w, calls[..|calls| - 1]), calls[|calls| - 1])
  }

  /** A new session. */
  function Start(now: nat): World {
    World(Init(now), Log([], map[], map[], [], []))
  }

  ghost predicate Reachable(w: World) {
    exists now, calls :: w == Run(Start(now), calls)
  }

  ghost predicate Inv(w: World) {
    && Base(w.m)
    && InOk(w.m, w.log.fed, w.log.got, w.log.put)
    && Wire(w.m.tx, w.log.loaded, w.log.sent, w.log.put)
    && Lang(w.m.streams, w.m.ids, Trace(w.m.tx, w.log.loaded))
  }

  lemma InitBase(now: nat)
    ensures Base(Init(now))
  {
  }

  lemma InitStreams(now: nat)
    ensures forall i :: 0 <= i < STREAMS ==> !Live(Init(now).streams[i])
    ensures Parsed(Init(now).rx, []) && Hs(Init(now).rx, []) == []
  {
    hide Decode;
  }

  lemma InitIn(now: nat)
    ensures InOk(Init(now), [], map[], map[])
  {
    hide Init, Live, Parsed, Hs, FinSeen, Opened;
    InitStreams(now);
  }

  lemma InitOut(now: nat)
    ensures Wire(Init(now).tx, [], [], map[]) && Lang(Init(now).streams, Init(now).ids, [])
    ensures Trace(Init(now).tx, []) == []
  {
  }

  lemma StartInv(now: nat)
    ensures Inv(Start(now))
  {
    hide Base, InOk, Wire, Lang, Trace, Init;
    InitBase(now);
    InitIn(now);
    InitOut(now);
  }

  // ---------- one call at a time ----------

  /** A queued control frame extends the trace. */
  lemma QueueTrace(t: Tx, h: Header, now: nat, loaded: seq<byte>)
    requires Fits(h) && h.kind != DATA && Queue(t, h, now).1 == Ok
    ensures Trace(Queue(t, h, now).0, loaded) == Trace(t, loaded) + [h]
    ensures Queue(t, h, now).0.out == t.out && Queue(t, h, now).0.offset == t.offset
  {
  }

  lemma OpenInv(w: World, memory: bool)
    requires Inv(w)
    ensures Inv(Step(w, CallOpen(memory)))
  {
    hide InOk, Payload, PhaseOf, Credit, Stalls, Owner, Clock, Slots, Lang, Whole, Headers;
    var m := w.m;
    OpenBase(m, memory);
    OpenIn(m, memory, w.log.fed, w.log.got, w.log.put);
    if Open(m, memory).0 != m {
      var h := Header(0, WINDOW, SYN, m.ids.next, 0);
      QueueTrace(m.tx, h, m.ses.nowMs, w.log.loaded);
      OpenFrame(m.streams, m.ids, Trace(m.tx, w.log.loaded), FindFrom(m.streams, 0, 0),
                NewStream(m.ids.next, m.ses.nowMs));
    }
  }

  lemma LoadKeeps(m: Mux)
    ensures Keeps(m.streams, Load(m).streams) && Load(m).rx == m.rx && Load(m).ids == m.ids
  {
  }

  /** Filling the output slot. */
  lemma LoadInv(w: World)
    requires Inv(w)
    ensures Inv(World(Load(w.m), w.log.(loaded := Loaded(w.log.loaded, w.m.tx, Load(w.m).tx))))
  {
    hide InOk, Base, Wire, Lang, Keeps;
    LoadBase(w.m);
    LoadKeeps(w.m);
    KeepsIn(w.m, Load(w.m), w.log.fed, w.log.got, w.log.put);
    if w.m.tx.out.None? {
      if w.m.tx.controls != [] {
        LoadControl(w);
      } else if Load(w.m).tx.out.Some? {
        LoadGrant(w);
      }
    }
  }

  lemma LoadControl(w: World)
    requires Inv(w) && w.m.tx.out.None? && w.m.tx.controls != []
    ensures var u := Load(w.m).tx; var loaded := Loaded(w.log.loaded, w.m.tx, u);
            Wire(u, loaded, w.log.sent, w.log.put) && Lang(Load(w.m).streams, w.m.ids, Trace(u, loaded))
  {
    hide InOk, Base, Payload, PhaseOf, Lang, Whole, Headers, Encode;
    var t, u := w.m.tx, Load(w.m).tx;
    LoadWire(t, u, w.log.loaded, w.log.sent, w.log.put, u.out.value, w.log.put);
    assert t.controls == [t.controls[0]] + t.controls[1..];
    assert Trace(u, Loaded(w.log.loaded, t, u)) == Trace(t, w.log.loaded);
  }

  lemma LoadGrant(w: World)
    requires Inv(w) && w.m.tx.out.None? && w.m.tx.controls == [] && Load(w.m).tx.out.Some?
    ensures var u := Load(w.m).tx; var loaded := Loaded(w.log.loaded, w.m.tx, u);
            Wire(u, loaded, w.log.sent, w.log.put) && Lang(Load(w.m).streams, w.m.ids, Trace(u, loaded))
  {
    hide InOk, Payload, PhaseOf, Credit, Stalls, Owner, Clock, Whole, Headers, Encode, IdPhases, Syns, Slots;
    var m := w.m;
    var t, u := m.tx, Load(m).tx;
    var slot := GrantSlot(m.streams, t.cursor, 0);
    var h := GrantHeader(m.streams[slot]);
    LoadWire(t, u, w.log.loaded, w.log.sent, w.log.put, u.out.value, w.log.put);
    assert Trace(t, w.log.loaded) == Headers(w.log.loaded);
    assert Trace(u, Loaded(w.log.loaded, t, u)) == Trace(t, w.log.loaded) + [h];
    SlotFrame(m.streams, m.ids, Trace(t, w.log.loaded), slot, m.streams[slot].(returnCredit := 0), h);
  }

  lemma OutputInv(w: World)
    requires Inv(w)
    ensures Inv(Step(w, CallOutput))
  {
    hide Inv;
    LoadInv(w);
    if w.m.ses.failure != Ok {
      assert Step(w, CallOutput) == w;
    }
  }

  lemma ConsumeWire(t: Tx, length: nat, now: nat, loaded: seq<byte>, sent: seq<byte>, put: Book)
    requires Wire(t, loaded, sent, put) && length <= |Rest(t)| && t.out.Some?
    ensures var u := t.(offset := t.offset + length, progressMs := now);
            Wire(u, loaded, sent + Rest(t)[..length], put)
    ensures length == |Rest(t)| ==> sent + Rest(t)[..length] == loaded
  {
    hide Payload, Whole, FrameBytes;
    var u, frame := t.(offset := t.offset + length, progressMs := now), FrameBytes(t.out.value);
    SplitRest(sent, frame, t.offset, length);
  }

  lemma SplitRest(sent: seq<byte>, frame: seq<byte>, offset: nat, length: nat)
    requires offset + length <= |frame|
    ensures frame[offset..][length..] == frame[offset + length..]
    ensures sent + frame[offset..] == sent + frame[offset..][..length] + frame[offset + length..]
    ensures length == |frame[offset..]| ==> frame[offset..][..length] == frame[offset..]
  {
    assert frame[offset..] == frame[offset..][..length] + frame[offset + length..];
  }

  lemma FinishKeeps(m: Mux)
    ensures Keeps(m.streams, FinishOutput(m).0.streams) && Quiets(m.streams, FinishOutput(m).0.streams)
    ensures FinishOutput(m).0.rx == m.rx && FinishOutput(m).0.ids == m.ids
  {
  }

  lemma RestLength(t: Tx)
    ensures |Rest(t)| == OutLength(t.out) - t.offset
  {
  }

  lemma ConsumeInv(w: World, length: nat)
    requires Inv(w)
    ensures Inv(Step(w, CallConsume(length)))
  {
    hide InOk, Base, Lang, Keeps, Quiets, Payload, Whole, Rest, Headers;
    var m := w.m;
    var n := ConsumeOutput(m, length).0;
    ConsumeBase(m, length);
    RestLength(m.tx);
    if m.ses.failure == Ok && 0 < length <= |Rest(m.tx)| {
      var a := m.(tx := m.tx.(offset := m.tx.offset + length, progressMs := m.ses.nowMs));
      ConsumeWire(m.tx, length, m.ses.nowMs, w.log.loaded, w.log.sent, w.log.put);
      KeepsSame(m, a);
      KeepsIn(m, a, w.log.fed, w.log.got, w.log.put);
      if a.tx.offset == OutLength(a.tx.out) {
        AdvanceBase(m, length);
        FinishBase(a);
        FinishKeeps(a);
        KeepsIn(a, n, w.log.fed, w.log.got, w.log.put);
        QuietLang(a.streams, n.streams, m.ids, Trace(m.tx, w.log.loaded));
        RestLength(n.tx);
        assert w.log.sent + Rest(m.tx)[..length] + [] == w.log.loaded;
      }
    } else {
      assert w.log.sent + Rest(m.tx)[..0] == w.log.sent;
    }
  }

  lemma AdvanceBase(m: Mux, length: nat)
    requires Base(m) && length <= OutLength(m.tx.out) - m.tx.offset
    ensures Base(m.(tx := m.tx.(offset := m.tx.offset + length, progressMs := m.ses.nowMs)))
  {
    hide Slots, Owner, Credit, Stalls;
  }

  lemma KeepsSame(m: Mux, n: Mux)
    requires n.streams == m.streams
    ensures Keeps(m.streams, n.streams)
  {
  }

  lemma YieldIdle(m: Mux)
    requires Yield(m).tx.out.None?
    ensures Yield(m) == m && m.tx.controls == []
  {
  }

  lemma WriteInv(w: World, id: nat, bytes: seq<byte>)
    requires Inv(w)
    ensures Inv(Step(w, CallWrite(id, bytes)))
  {
    hide Inv;
    var m := w.m;
    var i := Find(m.streams, id);
    var (n, r, count) := Write(m, id, bytes);
    LoadInv(w);
    if r == Ok && bytes != [] {
      YieldIdle(m);
      PutDataInv(w, i, bytes[..count]);
    } else if r == Ok {
      EmptyPut(w, id);
      assert bytes[..count] == [];
    }
  }

  /** Accepting no bytes changes nothing the invariant speaks of. */
  lemma EmptyPut(w: World, id: nat)
    requires Inv(w)
    ensures Inv(w.(log := w.log.(put := w.log.put[id := At(w.log.put, id) + []])))
  {
    hide Base, Lang, Parsed, Delivery, Fins, Payload, Increments, Whole, Rest, Hs;
    var q := w.log.put[id := At(w.log.put, id) + []];
    assert forall x :: At(q, x) == At(w.log.put, x);
  }

  lemma PutDataInv(w: World, i: nat, body: seq<byte>)
    requires Inv(w) && i < STREAMS && w.m.tx.out.None? && w.m.tx.controls == []
    requires Live(w.m.streams[i]) && !w.m.streams[i].localFin && |body| <= w.m.streams[i].sendCredit
    ensures var id := w.m.streams[i].id;
            var n := PutData(w.m, i, body);
            Inv(World(n, w.log.(put := w.log.put[id := At(w.log.put, id) + body],
                                loaded := Loaded(w.log.loaded, w.m.tx, n.tx))))
  {
    hide InOk, Payload, PhaseOf, Credit, Stalls, Owner, Clock, Whole, Headers, Encode, IdPhases, Syns, Slots;
    var m, n := w.m, PutData(w.m, i, body);
    var s := m.streams[i];
    var t, u := m.tx, n.tx;
    var put := w.log.put[s.id := At(w.log.put, s.id) + body];
    PutDataBase(m, i, body);
    PutDataIn(m, i, body, w.log.fed, w.log.got, w.log.put);
    LoadWire(t, u, w.log.loaded, w.log.sent, w.log.put, u.out.value, put);
    assert Trace(t, w.log.loaded) == Headers(w.log.loaded);
    assert Trace(u, Loaded(w.log.loaded, t, u)) == Trace(t, w.log.loaded) + [u.out.value.h];
    SlotFrame(m.streams, m.ids, Trace(t, w.log.loaded), i, n.streams[i], u.out.value.h);
  }

  lemma ReadInv(w: World, id: nat, capacity: nat)
    requires Inv(w)
    ensures Inv(Step(w, CallRead(id, capacity)))
  {
    hide InOk, Slots, Owner, Credit, Stalls, Clock, Grant, Lang, Wire, Quiets;
    var (n, r, _) := Read(w.m, id, capacity);
    if r == Ok {
      ReadBase(w.m, id, capacity);
      ReadIn(w.m, id, capacity, w.log.fed, w.log.got, w.log.put);
      ReadQuiet(w.m, id, capacity);
      QuietLang(w.m.streams, n.streams, w.m.ids, Trace(w.m.tx, w.log.loaded));
    }
  }

  lemma ReadQuiet(m: Mux, id: nat, capacity: nat)
    ensures Quiets(m.streams, Read(m, id, capacity).0.streams)
  {
  }

  lemma CloseWriteInv(w: World, id: nat)
    requires Inv(w)
    ensures Inv(Step(w, CallCloseWrite(id)))
  {
    hide InOk, Owner, Credit, Stalls, Clock, Payload, PhaseOf, IdPhases, Syns, Slots, Whole, Headers;
    var m := w.m;
    var n := CloseWrite(m, id).0;
    if n != m {
      var i := Find(m.streams, id);
      var h := Header(0, WINDOW, FIN, m.streams[i].id, 0);
      CloseWriteBase(m, id);
      KeepsIn(m, n, w.log.fed, w.log.got, w.log.put);
      QueueTrace(m.tx, h, m.ses.nowMs, w.log.loaded);
      SlotFrame(m.streams, m.ids, Trace(m.tx, w.log.loaded), i, n.streams[i], h);
    }
  }

  lemma ResetInv(w: World, id: nat)
    requires Inv(w)
    ensures Inv(w.(m := Reset(w.m, id).0))
  {
    hide InOk, Owner, Credit, Stalls, Clock, Payload, PhaseOf, IdPhases, Syns, Slots, Whole, Headers;
    var m := w.m;
    var n := Reset(m, id).0;
    if n != m {
      var i := Find(m.streams, id);
      var h := Header(0, WINDOW, RST, m.streams[i].id, 0);
      ResetBase(m, id);
      KeepsIn(m, n, w.log.fed, w.log.got, w.log.put);
      QueueTrace(m.tx, h, m.ses.nowMs, w.log.loaded);
      SlotFrame(m.streams, m.ids, Trace(m.tx, w.log.loaded), i, n.streams[i], h);
    }
  }

  lemma ReleaseInv(w: World, id: nat)
    requires Inv(w)
    ensures Inv(Step(w, CallRelease(id)))
  {
    hide InOk, Base, Lang, Wire;
    var n := Release(w.m, id).0;
    ReleaseBase(w.m, id);
    KeepsIn(w.m, n, w.log.fed, w.log.got, w.log.put);
    QuietLang(w.m.streams, n.streams, w.m.ids, Trace(w.m.tx, w.log.loaded));
  }

  /** A queued frame that belongs to no stream. */
  lemma SessionInv(w: World, h: Header, ses: Session)
    requires Inv(w) && Fits(h) && h.kind > WINDOW && Queue(w.m.tx, h, w.m.ses.nowMs).1 == Ok
    requires Base(w.m.(tx := Queue(w.m.tx, h, w.m.ses.nowMs).0, ses := ses))
    ensures Inv(w.(m := w.m.(tx := Queue(w.m.tx, h, w.m.ses.nowMs).0, ses := ses)))
  {
    hide InOk, Base, Lang, Payload, Whole, Headers, Keeps;
    var m := w.m;
    var n := m.(tx := Queue(m.tx, h, m.ses.nowMs).0, ses := ses);
    KeepsSame(m, n);
    KeepsIn(m, n, w.log.fed, w.log.got, w.log.put);
    QueueTrace(m.tx, h, m.ses.nowMs, w.log.loaded);
    SessionFrame(m.streams, m.ids, Trace(m.tx, w.log.loaded), h);
  }

  lemma PingInv(w: World, tag: nat)
    requires Inv(w)
    ensures Inv(Step(w, CallPing(tag)))
  {
    hide InOk, Base, Lang, Wire;
    if tag <= U32_MAX && Ping(w.m, tag).0 != w.m {
      PingBase(w.m, tag);
      SessionInv(w, Header(0, PING, SYN, 0, tag), Ping(w.m, tag).0.ses);
    }
  }

  lemma GoAwayInv(w: World)
    requires Inv(w)
    ensures Inv(Step(w, CallGoAway))
  {
    hide InOk, Base, Lang, Wire;
    if GoAway(w.m).0 != w.m {
      GoAwayBase(w.m);
      SessionInv(w, Header(0, GOAWAY, 0, 0, 0), GoAway(w.m).0.ses);
    }
  }

  // ---------- feeding ----------

  lemma AcceptQuiet(m: Mux, h: Header)
    requires !m.rx.active && |m.rx.header| == HEADER_BYTES
    ensures Quiets(m.streams, Accept(m, h).0.streams)
    ensures Accept(m, h).0.tx == m.tx && Accept(m, h).0.ids == m.ids
  {
    hide Begin;
    var i := Find(m.streams, h.id);
    if i == STREAMS || m.streams[i].reset {
      BeginQuiet(m, h);
    } else if Admissible(m.streams[i], h) {
      BeginQuiet(m.(streams := m.streams[i := Apply(m.streams[i], h)]), h);
    }
  }

  lemma BeginQuiet(m: Mux, h: Header)
    requires !m.rx.active && |m.rx.header| == HEADER_BYTES
    ensures Quiets(m.streams, Begin(m, h).0.streams)
    ensures Begin(m, h).0.tx == m.tx && Begin(m, h).0.ids == m.ids
  {
  }

  lemma StartStreamLang(m: Mux, h: Header, loaded: seq<byte>)
    requires !m.rx.active && |m.rx.header| == HEADER_BYTES && Fits(h) && h.kind <= WINDOW
    requires Slots(m.streams, m.ids.next) && Lang(m.streams, m.ids, Trace(m.tx, loaded))
    ensures var n := StartStream(m, h).0;
            Lang(n.streams, n.ids, Trace(n.tx, loaded)) && n.tx.out == m.tx.out && n.tx.offset == m.tx.offset
  {
    hide Slots, Lang, Quiets, Trace, Accept;
    var hs := Trace(m.tx, loaded);
    if h.id % 2 == 0 && h.id > m.ids.peerLast && Syn(h) {
      var c := Header(0, WINDOW, RST, h.id, 0);
      var (t, r) := Queue(m.tx, c, m.ses.nowMs);
      if r == Ok {
        var q := m.(tx := t, ids := m.ids.(peerLast := h.id));
        QueueTrace(m.tx, c, m.ses.nowMs, loaded);
        RefusalFrame(m.streams, m.ids, hs, h.id);
        AcceptQuiet(q, h);
        QuietLang(m.streams, Accept(q, h).0.streams, q.ids, hs + [c]);
      }
    } else {
      AcceptQuiet(m, h);
      QuietLang(m.streams, Accept(m, h).0.streams, m.ids, hs);
    }
  }

  lemma StartFrameLang(m: Mux, loaded: seq<byte>)
    requires !m.rx.active && |m.rx.header| == HEADER_BYTES
    requires Slots(m.streams, m.ids.next) && Lang(m.streams, m.ids, Trace(m.tx, loaded))
    ensures var n := StartFrame(m).0;
            Lang(n.streams, n.ids, Trace(n.tx, loaded)) && n.tx.out == m.tx.out && n.tx.offset == m.tx.offset
  {
    hide Slots, Lang, Trace, StartStream, Decode;
    var h := Decode(m.rx.header);
    if h.kind <= WINDOW {
      StartStreamLang(m, h, loaded);
    } else if h.kind == PING {
      var c := Header(0, PING, ACK, 0, h.value);
      if Queue(m.tx, c, m.ses.nowMs).1 == Ok {
        QueueTrace(m.tx, c, m.ses.nowMs, loaded);
        SessionFrame(m.streams, m.ids, Trace(m.tx, loaded), c);
      }
    }
  }

  lemma TakeBodyQuiet(m: Mux, b: seq<byte>)
    requires Takes(m, b)
    ensures Quiets(m.streams, TakeBody(m, b).streams)
    ensures TakeBody(m, b).tx == m.tx && TakeBody(m, b).ids == m.ids
  {
  }

  lemma FeedStepLang(m: Mux, bytes: seq<byte>, c: nat, loaded: seq<byte>)
    requires c <= |bytes| && !FeedDone(m, bytes, c)
    requires Slots(m.streams, m.ids.next) && Lang(m.streams, m.ids, Trace(m.tx, loaded))
    ensures var n := FeedStep(m, bytes, c).0;
            Lang(n.streams, n.ids, Trace(n.tx, loaded)) && n.tx.out == m.tx.out && n.tx.offset == m.tx.offset
  {
    hide Slots, Lang, Trace, StartFrame, Quiets, TakeBody;
    var s := FeedStep(m, bytes, c);
    if m.rx.active {
      BodyStepQuiet(m, bytes, c);
      QuietLang(m.streams, s.0.streams, m.ids, Trace(m.tx, loaded));
    } else {
      var n := Min(HEADER_BYTES - |m.rx.header|, |bytes| - c);
      var t := m.(rx := TakeHeader(m.rx, bytes[c..c + n], m.ses.nowMs));
      if |t.rx.header| == HEADER_BYTES {
        StartFrameLang(t, loaded);
      }
    }
  }

  lemma BodyStepQuiet(m: Mux, bytes: seq<byte>, c: nat)
    requires m.rx.active && c < |bytes|
    ensures var n := BodyStep(m, bytes, c).0; Quiets(m.streams, n.streams) && n.tx == m.tx && n.ids == m.ids
  {
    hide TakeBody;
    var s := BodyStep(m, bytes, c);
    if s.1 == Ok {
      TakeBodyQuiet(m, bytes[c..s.2]);
    }
  }

  lemma {:induction false} FeedLang(m: Mux, bytes: seq<byte>, c: nat, loaded: seq<byte>)
    requires c <= |bytes| && Base(m) && Lang(m.streams, m.ids, Trace(m.tx, loaded))
    ensures var n := FeedFrom(m, bytes, c).0;
            Lang(n.streams, n.ids, Trace(n.tx, loaded)) && n.tx.out == m.tx.out && n.tx.offset == m.tx.offset
    decreases |bytes| - c, Rank(m.rx)
  {
    hide Slots, Owner, Credit, Stalls, Clock, Grant, Lang, Trace, FeedStep;
    if !FeedDone(m, bytes, c) {
      var s := FeedStep(m, bytes, c);
      FeedStepLang(m, bytes, c, loaded);
      FeedStepBase(m, bytes, c);
      if s.1 == Ok {
        FeedLang(s.0, bytes, s.2, loaded);
      }
    }
  }

  lemma FeedStepBase(m: Mux, bytes: seq<byte>, c: nat)
    requires c <= |bytes| && !FeedDone(m, bytes, c) && Base(m)
    ensures Base(FeedStep(m, bytes, c).0)
  {
    hide Base, HeaderStep, BodyStep;
    if m.rx.active {
      BodyStepBase(m, bytes, c);
    } else {
      HeaderStepBase(m, bytes, c);
    }
  }

  lemma FeedInv(w: World, bytes: seq<byte>)
    requires Inv(w)
    ensures Inv(Step(w, CallFeed(bytes)))
  {
    hide InOk, Base, Lang, Payload, Whole, Trace, FeedFrom;
    var m := w.m;
    if m.ses.failure == Ok {
      FeedBase(m, bytes, 0);
      FeedIn(m, bytes, 0, w.log.fed, w.log.got, w.log.put);
      FeedLang(m, bytes, 0, w.log.loaded);
    } else {
      assert w.log.fed + bytes[..0] == w.log.fed;
    }
  }

  // ---------- ticking ----------

  lemma {:induction false} TickStreamsInv(w: World, k: nat)
    requires Inv(w) && k <= STREAMS
    ensures Inv(w.(m := TickStreams(w.m, k).0))
    decreases STREAMS - k
  {
    hide Inv, Reset, StreamExpired;
    if k < STREAMS {
      if StreamExpired(w.m.streams[k], w.m.ses.nowMs) {
        ResetInv(w, w.m.streams[k].id);
        var v := w.(m := Reset(w.m, w.m.streams[k].id).0);
        FailInv(v, CapacityExceeded);
        TickStreamsInv(v, k + 1);
      } else {
        TickStreamsInv(w, k + 1);
      }
    }
  }

  lemma FailInv(w: World, error: Result)
    requires Inv(w)
    ensures Inv(w.(m := Fail(w.m, error)))
  {
    hide InOk, Slots, Owner, Credit, Stalls, Lang, Wire, Keeps;
    KeepsSame(w.m, Fail(w.m, error));
    KeepsIn(w.m, Fail(w.m, error), w.log.fed, w.log.got, w.log.put);
  }

  lemma TickInv(w: World, now: nat)
    requires Inv(w)
    ensures Inv(Step(w, CallTick(now)))
  {
    hide Inv, TickStreams, SessionExpired;
    FailInv(w, InvalidArgument);
    if w.m.ses.failure == Ok && now >= w.m.ses.nowMs {
      ClockInv(w, now);
      var v := w.(m := w.m.(ses := w.m.ses.(nowMs := now)));
      FailInv(v, Timeout);
      TickStreamsInv(v, 0);
    }
  }

  lemma ClockInv(w: World, now: nat)
    requires Inv(w) && now >= w.m.ses.nowMs
    ensures Inv(w.(m := w.m.(ses := w.m.ses.(nowMs := now))))
  {
    hide InOk, Slots, Owner, Credit, Stalls, Lang, Wire, Keeps;
    var v := w.(m := w.m.(ses := w.m.ses.(nowMs := now)));
    KeepsSame(w.m, v.m);
    KeepsIn(w.m, v.m, w.log.fed, w.log.got, w.log.put);
  }

  // ---------- every run ----------

  lemma StepInv(w: World, c: Call)
    requires Inv(w)
    ensures Inv(Step(w, c))
  {
    hide Inv;
    match c
    case CallOpen(memory) => OpenInv(w, memory);
    case CallOutput => OutputInv(w);
    case CallConsume(length) => ConsumeInv(w, length);
    case CallWrite(id, bytes) => WriteInv(w, id, bytes);
    case CallRead(id, capacity) => ReadInv(w, id, capacity);
    case CallCloseWrite(id) => CloseWriteInv(w, id);
    case CallReset(id) => ResetInv(w, id);
    case CallRelease(id) => ReleaseInv(w, id);
    case CallPing(tag) => PingInv(w, tag);
    case CallGoAway => GoAwayInv(w);
    case CallFeed(bytes) => FeedInv(w, bytes);
    case CallTick(now) => TickInv(w, now);
  }

  lemma {:induction false} RunInv(now: nat, calls: seq<Call>)
    ensures Inv(Run(Start(now), calls))
  {
    hide Inv, Step;
    if calls == [] {
      StartInv(now);
    } else {
      RunInv(now, calls[..|calls| - 1]);
      StepInv(Run(Start(now), calls[..|calls| - 1]), calls[|calls| - 1]);
    }
  }

  lemma ReachableInv(w: World)
    requires Reachable(w)
    ensures Inv(w)
  {
    hide Inv, Run, Start;
    var now, calls :| w == Run(Start(now), calls);
    RunInv(now, calls);
  }

  /**
   Credit conservation: in every run the receive window of a live stream is split between the
   peer, the bytes still to come, the ring, the credit to return and the grant in flight.
   */
  lemma CreditConservation(w: World, i: nat)
    requires Reachable(w) && i < STREAMS && Live(w.m.streams[i])
    ensures var s := w.m.streams[i];
            s.receiveCredit + Pending(w.m.rx, s.id) + |s.ring| + s.returnCredit
            + InFlight(w.m.tx.grantId, w.m.tx.grantBytes, s.id) == INITIAL_WINDOW
  {
    hide InOk, Wire, Lang;
    ReachableInv(w);
  }

  /** Hence the two failures the code guards against cannot happen. */
  lemma GuardsUnreachable(w: World, length: nat, bytes: seq<byte>)
    requires Reachable(w) && w.m.ses.failure == Ok
    ensures ConsumeOutput(w.m, length).1 != ProtocolError && Feed(w.m, bytes).1 != InvalidState
  {
    hide InOk, Wire, Lang, FeedFrom, Reachable;
    ReachableInv(w);
    var m := w.m;
    FeedBase(m, bytes, 0);
    if length <= OutLength(m.tx.out) - m.tx.offset {
      AdvanceBase(m, length);
      FinishBase(m.(tx := m.tx.(offset := m.tx.offset + length, progressMs := m.ses.nowMs)));
    }
  }

  /** A stalled stream has a full ring and owns the active frame; so at most one is stalled. */
  lemma OneStalled(w: World, i: nat, j: nat)
    requires Reachable(w) && i < STREAMS && j < STREAMS && w.m.streams[i].blocked
    ensures |w.m.streams[i].ring| == RING_BYTES && w.m.rx.active && w.m.rx.id == w.m.streams[i].id
    ensures w.m.streams[j].blocked ==> i == j
  {
    hide InOk, Wire, Lang, Reachable;
    ReachableInv(w);
    if w.m.streams[j].blocked {
      FindUnique(w.m.streams, w.m.ids.next, i);
      FindUnique(w.m.streams, w.m.ids.next, j);
    }
  }

  /**
   In-order delivery, for every split of the input into feed calls and every interleaving with
   the other calls: what has been read is a prefix of the stream's payload, and a live stream
   holds the rest.
   */
  lemma InOrderDelivery(w: World, id: nat)
    requires Reachable(w)
    ensures At(w.log.got, id) <= Payload(w.log.fed, id)
    ensures forall i :: 0 <= i < STREAMS && Live(w.m.streams[i]) && w.m.streams[i].id == id ==>
              At(w.log.got, id) + w.m.streams[i].ring == Payload(w.log.fed, id)
  {
    hide Base, Wire, Lang, Payload, FinSeen, Hs, Parsed, Fins, Sends, Reachable;
    ReachableInv(w);
  }

  /** End of file means that FIN has been received and everything has been read. */
  lemma EofMeansAll(w: World, id: nat, capacity: nat)
    requires Reachable(w) && w.m.ses.failure == Ok && Read(w.m, id, capacity).1 == Eof
    ensures FinSeen(Hs(w.m.rx, w.log.fed), id) && At(w.log.got, id) == Payload(w.log.fed, id)
  {
    hide Base, Wire, Lang, Payload, FinSeen, Hs, Parsed, Fins, Sends, Reachable;
    ReachableInv(w);
    ReadEof(w.m, id, capacity, w.log.fed, w.log.got, w.log.put);
  }

  /**
   The frames that leave the multiplexer, parsed back from the bytes.  For each stream: SYN
   first, no DATA and no second FIN after FIN, nothing after RST.  Opened ids are odd and strictly
   increase.  A stream of the peer gets one RST at most.  The DATA bodies are exactly the bytes
   accepted by write calls, and they stay within the initial window plus the received increments.
   */
  lemma EmittedLanguage(w: World, id: nat)
    requires Reachable(w)
    ensures w.log.sent <= w.log.loaded && Whole(w.log.loaded)
    ensures Sequence(Headers(w.log.loaded), id) && Syns(w.m.ids.next, Headers(w.log.loaded))
    ensures id % 2 == 0 ==> OnlyRefused(Headers(w.log.loaded), id)
    ensures Payload(w.log.loaded, id) == At(w.log.put, id) && Payload(w.log.sent, id) <= At(w.log.put, id)
    ensures |At(w.log.put, id)| <= INITIAL_WINDOW + Increments(Hs(w.m.rx, w.log.fed), id)
  {
    hide Base, Payload, Whole, PhaseOf, Hs, Increments, Headers, Rest, Parsed, Fins, Delivery, Reachable;
    ReachableInv(w);
    var hs := Headers(w.log.loaded);
    PayloadGrows(w.log.sent, Rest(w.m.tx), id);
    assert IdPhase(w.m.ids, id, PhaseOf(hs + w.m.tx.controls, id));
    PhasePrefix(hs, w.m.tx.controls, id);
    PhaseMeaning(hs, id);
    SynsPrefix(w.m.ids.next, hs, w.m.tx.controls);
  }

  lemma SynsPrefix(next: nat, a: seq<Header>, b: seq<Header>)
    requires Syns(next, a + b)
    ensures Syns(next, a)
  {
    assert forall k :: 0 <= k < |a| ==> (a + b)[k] == a[k];
  }

  /** Deadline exactness in every reachable state. */
  lemma DeadlinesInRuns(w: World, at: nat)
    requires Reachable(w) && w.m.ses.failure == Ok && Timely(w.m, at)
    ensures Tick(w.m, at).1 != Ok || NewlyReset(w.m, Tick(w.m, at).0) <==> at >= NextDeadline(w.m)
  {
    hide InOk, Wire, Lang, Tick, NextDeadline, Base, Reachable;
    ReachableInv(w);
    DeadlineExact(w.m, at);
  }
}
