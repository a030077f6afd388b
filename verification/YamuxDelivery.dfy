/**
 What the application reads is what the peer sent.

 `fed` is every byte consumed by feed calls; `got` maps each stream id to the
 bytes that read calls have returned for it.
 */
module YamuxDelivery {
  import opened Efrp
  import opened YamuxFrames
  import opened YamuxModel
  import opened YamuxInvariant

  type Book = map<nat, seq<byte>>

  function At(b: Book, id: nat): seq<byte> {
    if id in b then b[id] else []
  }

  /** Number of trailing bytes of the input that belong to the unfinished frame. */
  function CurLength(r: Rx): nat {
    if r.active
    then HEADER_BYTES + (if r.remaining <= Decode(r.header).value then Decode(r.header).value - r.remaining else 0)
    else |r.header|
  }

  /** The complete frames at the front of the input. */
  function Done(r: Rx, fed: seq<byte>): seq<byte>
    requires CurLength(r) <= |fed|
  {
    fed[..|fed| - CurLength(r)]
  }

  function Hs(r: Rx, fed: seq<byte>): seq<Header> {
    if CurLength(r) <= |fed| then Headers(Done(r, fed)) else []
  }

  /** The receive state is where a parser of `fed` stands. */
  ghost predicate Parsed(r: Rx, fed: seq<byte>) {
    && CurLength(r) <= |fed|
    && Whole(Done(r, fed))
    && r.header <= fed[|fed| - CurLength(r)..]
    && (r.active ==>
          var h := Decode(r.header);
          h.kind == DATA && h.id == r.id && h.flags == r.flags && r.remaining <= h.value)
  }

  ghost predicate NoFrames(hs: seq<Header>, id: nat) {
    forall k :: 0 <= k < |hs| ==> hs[k].kind <= WINDOW ==> hs[k].id != id
  }

  /** A live stream holds exactly the part of its payload that has not been read, and knows of a FIN. */
  predicate Delivered(s: Stream, fed: seq<byte>, got: seq<byte>) {
    got + s.ring == Payload(fed, s.id)
  }

  ghost predicate Delivery(m: Mux, fed: seq<byte>, got: Book) {
    && (forall i :: 0 <= i < STREAMS ==> Live(m.streams[i]) ==>
          Delivered(m.streams[i], fed, At(got, m.streams[i].id)))
    && (forall id :: id % 2 == 1 && !Opened(m.ids.next, id) ==> Payload(fed, id) == [] && At(got, id) == [])
    && (forall id :: At(got, id) <= Payload(fed, id))
  }

  ghost predicate Fins(m: Mux, hs: seq<Header>) {
    && (forall i :: 0 <= i < STREAMS ==> Live(m.streams[i]) ==>
          m.streams[i].remoteFin == FinSeen(hs, m.streams[i].id))
    && (forall id :: id % 2 == 1 && !Opened(m.ids.next, id) ==> NoFrames(hs, id))
  }

  /** Per stream: bytes accepted for sending plus credit left is the initial window plus the increments received. */
  ghost predicate Sends(m: Mux, hs: seq<Header>, put: Book) {
    && (forall i :: 0 <= i < STREAMS ==> Live(m.streams[i]) ==>
          |At(put, m.streams[i].id)| + m.streams[i].sendCredit == INITIAL_WINDOW + Increments(hs, m.streams[i].id))
    && (forall id :: |At(put, id)| <= INITIAL_WINDOW + Increments(hs, id))
    && (forall id :: id % 2 == 1 && !Opened(m.ids.next, id) ==> At(put, id) == [])
  }

  // ---------- the parser ----------

  lemma CurSplit(r: Rx, fed: seq<byte>)
    requires Parsed(r, fed)
    ensures fed == Done(r, fed) + fed[|fed| - CurLength(r)..]
    ensures fed[|fed| - CurLength(r)..] == r.header + fed[|fed| - CurLength(r) + |r.header|..]
  {
  }

  /** Header bytes carry no payload. */
  lemma HeaderPayload(r: Rx, fed: seq<byte>, b: seq<byte>, id: nat)
    requires Parsed(r, fed) && !r.active && |r.header| + |b| <= HEADER_BYTES
    ensures Payload(fed + b, id) == Payload(fed, id)
  {
    var d := Done(r, fed);
    CurSplit(r, fed);
    assert fed + b == d + (r.header + b);
    assert fed == d + r.header;
    PayloadAppend(d, r.header, id);
    PayloadAppend(d, r.header + b, id);
    ShortPayload(r.header, id);
    ShortPayload(r.header + b, id);
  }

  lemma ShortPayload(h: seq<byte>, id: nat)
    requires |h| <= HEADER_BYTES
    ensures Payload(h, id) == []
  {
    if |h| == HEADER_BYTES {
      assert h == h + [];
      PartialFrame(h, [], id);
    }
  }

  lemma BodyAppend(d: seq<byte>, head: seq<byte>, body: seq<byte>, b: seq<byte>, id: nat)
    requires Whole(d) && |head| == HEADER_BYTES && Decode(head).kind == DATA && |body| + |b| <= Decode(head).value
    ensures Payload(d + (head + (body + b)), id) ==
            Payload(d + (head + body), id) + (if id == Decode(head).id then b else [])
  {
    hide Decode, Payload, Whole;
    PayloadAppend(d, head + body, id);
    PayloadAppend(d, head + (body + b), id);
    PartialFrame(head, body, id);
    PartialFrame(head, body + b, id);
  }

  /** Body bytes extend the payload of the frame's stream and of no other. */
  lemma BodyPayload(r: Rx, fed: seq<byte>, b: seq<byte>, id: nat)
    requires Parsed(r, fed) && r.active && |b| <= r.remaining
    ensures Payload(fed + b, id) == Payload(fed, id) + (if id == r.id then b else [])
  {
    hide Decode;
    var d := Done(r, fed);
    var body := fed[|fed| - CurLength(r) + HEADER_BYTES..];
    CurSplit(r, fed);
    assert fed == d + (r.header + body);
    assert fed + b == d + (r.header + (body + b));
    BodyAppend(d, r.header, body, b, id);
  }

  /** A complete frame joins the finished ones. */
  lemma FrameDone(d: seq<byte>, head: seq<byte>, body: seq<byte>)
    requires Whole(d) && |head| == HEADER_BYTES && |body| == BodyLength(Decode(head))
    ensures Whole(d + (head + body)) && Headers(d + (head + body)) == Headers(d) + [Decode(head)]
  {
    FrameWhole(head, body);
    WholeAppend(d, head + body);
    HeadersAppend(d, head + body);
  }

  lemma FrameWhole(head: seq<byte>, body: seq<byte>)
    requires |head| == HEADER_BYTES && |body| == BodyLength(Decode(head))
    ensures Whole(head + body) && Headers(head + body) == [Decode(head)]
  {
    var s := head + body;
    assert s[..HEADER_BYTES] == head;
    assert s[|s|..] == [];
  }

  // ---------- what a frame does to the streams ----------

  predicate Touches(h: Header, id: nat) {
    h.kind <= WINDOW && h.id == id
  }

  /** The streams before and after the multiplexer has acted on header `h`; `ended` if the frame is over. */
  ghost predicate FrameEffect(a: Streams, b: Streams, h: Header, ended: bool) {
    forall k :: 0 <= k < STREAMS ==> SlotEffect(a[k], b[k], h, ended)
  }

  predicate SlotEffect(s: Stream, t: Stream, h: Header, ended: bool) {
    && t.id == s.id && t.localFin == s.localFin
    && (s.reset ==> t.reset)
    && (Live(t) ==>
          && t.ring == s.ring
          && t.sendCredit == s.sendCredit + (if h.kind == WINDOW && h.id == s.id then h.value else 0)
          && t.remoteFin == (s.remoteFin || (ended && Touches(h, s.id) && Fin(h))))
  }

  lemma ApplyEffect(m: Mux, h: Header)
    requires Slots(m.streams, m.ids.next) && h.id != 0
    requires var i := Find(m.streams, h.id); i < STREAMS && Live(m.streams[i]) && Admissible(m.streams[i], h)
    ensures var i := Find(m.streams, h.id); FrameEffect(m.streams, m.streams[i := Apply(m.streams[i], h)], h, false)
  {
  }

  lemma EndEffect(m: Mux, h: Header)
    requires Slots(m.streams, m.ids.next) && m.rx.id == h.id != 0 && m.rx.flags == h.flags && h.kind <= WINDOW
    ensures FrameEffect(m.streams, EndFrame(m).streams, h.(value := 0), true)
  {
  }

  /** What `Begin` does to the receive state. */
  lemma BeginShape(m: Mux, h: Header)
    requires !m.rx.active && |m.rx.header| == HEADER_BYTES
    ensures var (n, r) := Begin(m, h);
            if r != Ok then n.rx == m.rx && n.streams == m.streams
            else if BodyLength(h) > 0 then
              n.rx.active && n.rx.header == m.rx.header && n.rx.id == h.id && n.rx.flags == h.flags &&
              n.rx.remaining == BodyLength(h) && n.streams == m.streams
            else
              && !n.rx.active && n.rx.header == []
              && n.streams == EndFrame(m.(rx := n.rx.(header := m.rx.header))).streams
    ensures Begin(m, h).0.ids == m.ids && Begin(m, h).0.tx == m.tx
  {
  }

  lemma BeginEffect(m: Mux, h: Header)
    requires !m.rx.active && |m.rx.header| == HEADER_BYTES && Slots(m.streams, m.ids.next) && h.id != 0
    requires h.kind <= WINDOW
    ensures Begin(m, h).1 == Ok && BodyLength(h) == 0 ==>
              FrameEffect(m.streams, Begin(m, h).0.streams, h.(value := 0), true)
  {
    var i := Find(m.streams, h.id);
    var n := m.(rx := SetFrame(m.rx, h, i == STREAMS || m.streams[i].reset, m.ses.nowMs));
    EndEffect(n, h);
  }

  lemma EffectCompose(a: Streams, b: Streams, c: Streams, h: Header)
    requires FrameEffect(a, b, h, false) && FrameEffect(b, c, h.(value := 0), true)
    ensures FrameEffect(a, c, h, true)
  {
  }

  /** The receive state after header `h` has been accepted. */
  predicate Began(before: Rx, after: Rx, h: Header) {
    if BodyLength(h) > 0 then
      after.active && after.header == before.header && after.id == h.id && after.flags == h.flags &&
      after.remaining == BodyLength(h)
    else !after.active && after.header == []
  }

  /** The outcome `(n, r)` of acting on header `h` in state `m`. */
  ghost predicate Acted(m: Mux, n: Mux, r: Result, h: Header) {
    && n.ids.next == m.ids.next
    && if r == Ok then Began(m.rx, n.rx, h) && FrameEffect(m.streams, n.streams, h, BodyLength(h) == 0)
       else n.rx == m.rx && FrameEffect(m.streams, n.streams, Header(0, PING, 0, 0, 0), false)
  }

  lemma NoEffect(ss: Streams, h: Header)
    requires forall i :: 0 <= i < STREAMS ==> Live(ss[i]) && h.kind == WINDOW ==> ss[i].id != h.id
    ensures FrameEffect(ss, ss, h, false)
    ensures h.kind > WINDOW ==> FrameEffect(ss, ss, h, true)
  {
  }

  lemma AcceptActed(m: Mux, h: Header)
    requires !m.rx.active && |m.rx.header| == HEADER_BYTES && Slots(m.streams, m.ids.next)
    requires h.id != 0 && h.kind <= WINDOW
    ensures Acted(m, Accept(m, h).0, Accept(m, h).1, h)
  {
    var i := Find(m.streams, h.id);
    NoEffect(m.streams, Header(0, PING, 0, 0, 0));
    if i == STREAMS || m.streams[i].reset {
      UnownedUnique(m, h.id);
      NoEffect(m.streams, h);
      BeginActed(m, m, h);
    } else if Admissible(m.streams[i], h) {
      ApplyEffect(m, h);
      var n := m.(streams := m.streams[i := Apply(m.streams[i], h)]);
      BeginActed(m, n, h);
    }
  }

  lemma UnownedUnique(m: Mux, id: nat)
    requires Slots(m.streams, m.ids.next) && id != 0
    requires var i := Find(m.streams, id); i == STREAMS || m.streams[i].reset
    ensures forall i :: 0 <= i < STREAMS ==> Live(m.streams[i]) ==> m.streams[i].id != id
  {
  }

  lemma BeginActed(m: Mux, n: Mux, h: Header)
    requires !m.rx.active && |m.rx.header| == HEADER_BYTES && h.id != 0 && h.kind <= WINDOW
    requires n.rx == m.rx && n.ids.next == m.ids.next && Slots(n.streams, n.ids.next)
    requires FrameEffect(m.streams, n.streams, h, false)
    ensures Acted(m, Begin(n, h).0, Begin(n, h).1, h)
  {
    BeginShape(n, h);
    if Begin(n, h).1 == Ok {
      if BodyLength(h) == 0 {
        BeginEffect(n, h);
        EffectCompose(m.streams, n.streams, Begin(n, h).0.streams, h);
      }
    } else {
      assert h.kind == DATA;
    }
  }

  lemma StartFrameActed(m: Mux)
    requires !m.rx.active && |m.rx.header| == HEADER_BYTES && Slots(m.streams, m.ids.next)
    ensures Acted(m, StartFrame(m).0, StartFrame(m).1, Decode(m.rx.header))
    ensures StartFrame(m).1 == Ok ==>
              var h := Decode(m.rx.header);
              h.kind <= WINDOW ==> h.id != 0 && (h.id % 2 == 1 ==> Opened(m.ids.next, h.id))
  {
    hide Decode, Slots, FrameEffect;
    var h := Decode(m.rx.header);
    NoEffect(m.streams, Header(0, PING, 0, 0, 0));
    if h.kind > WINDOW {
      NoEffect(m.streams, h);
    } else {
      StartStreamActed(m, h);
    }
  }

  lemma StartStreamActed(m: Mux, h: Header)
    requires !m.rx.active && |m.rx.header| == HEADER_BYTES && Slots(m.streams, m.ids.next)
    requires h.kind <= WINDOW && Fits(h)
    ensures Acted(m, StartStream(m, h).0, StartStream(m, h).1, h)
    ensures StartStream(m, h).1 == Ok ==> h.id != 0 && (h.id % 2 == 1 ==> Opened(m.ids.next, h.id))
  {
    hide Slots, FrameEffect;
    NoEffect(m.streams, Header(0, PING, 0, 0, 0));
    if h.id != 0 {
      if h.id % 2 == 0 && Syn(h) {
        StartSynActed(m, h);
      } else {
        AcceptActed(m, h);
      }
    }
  }

  lemma StartSynActed(m: Mux, h: Header)
    requires !m.rx.active && |m.rx.header| == HEADER_BYTES && Slots(m.streams, m.ids.next)
    requires h.kind <= WINDOW && h.id % 2 == 0 && h.id != 0 && Syn(h) && Fits(h)
    ensures Acted(m, StartStream(m, h).0, StartStream(m, h).1, h)
  {
    hide Slots;
    NoEffect(m.streams, Header(0, PING, 0, 0, 0));
    var t := Queue(m.tx, Header(0, WINDOW, RST, h.id, 0), m.ses.nowMs).0;
    AcceptActed(m.(tx := t, ids := m.ids.(peerLast := h.id)), h);
  }

  // ---------- the input log, step by step ----------

  ghost predicate InOk(m: Mux, fed: seq<byte>, got: Book, put: Book) {
    Parsed(m.rx, fed) && Delivery(m, fed, got) && Fins(m, Hs(m.rx, fed)) && Sends(m, Hs(m.rx, fed), put)
  }

  lemma FinAppend(hs: seq<Header>, h: Header, id: nat)
    ensures FinSeen(hs + [h], id) <==> FinSeen(hs, id) || (Touches(h, id) && Fin(h))
    ensures NoFrames(hs + [h], id) <==> NoFrames(hs, id) && !Touches(h, id)
  {
    var g := hs + [h];
    assert g[|hs|] == h;
    assert forall k :: 0 <= k < |hs| ==> g[k] == hs[k];
  }

  lemma TakeHeaderParsed(r: Rx, fed: seq<byte>, b: seq<byte>, now: nat)
    requires Parsed(r, fed) && !r.active && |r.header| + |b| <= HEADER_BYTES
    ensures var t := TakeHeader(r, b, now); Parsed(t, fed + b) && Hs(t, fed + b) == Hs(r, fed)
  {
    var t := TakeHeader(r, b, now);
    CurSplit(r, fed);
    assert Done(t, fed + b) == Done(r, fed);
    assert (fed + b)[|fed + b| - CurLength(t)..] == r.header + b;
  }

  lemma StartParsed(r: Rx, n: Rx, fed: seq<byte>)
    requires Parsed(r, fed) && !r.active && |r.header| == HEADER_BYTES && Began(r, n, Decode(r.header))
    ensures Parsed(n, fed)
    ensures Hs(n, fed) == Hs(r, fed) + (if n.active then [] else [Decode(r.header)])
  {
    hide Decode;
    CurSplit(r, fed);
    assert r.header == r.header + [];
    if n.active {
      assert Done(n, fed) == Done(r, fed);
    } else {
      FrameDone(Done(r, fed), r.header, []);
      assert Done(n, fed) == fed == Done(r, fed) + (r.header + []);
    }
  }

  lemma BodyParsed(r: Rx, n: Rx, fed: seq<byte>, b: seq<byte>)
    requires Parsed(r, fed) && r.active && 0 < |b| <= r.remaining
    requires if |b| < r.remaining
             then
               && n.active && n.header == r.header && n.id == r.id && n.flags == r.flags
               && n.remaining == r.remaining - |b|
             else !n.active && n.header == []
    ensures Parsed(n, fed + b)
    ensures Hs(n, fed + b) == Hs(r, fed) + (if n.active then [] else [Decode(r.header)])
  {
    hide Decode, Whole, Headers;
    CurSplit(r, fed);
    var d := Done(r, fed);
    var body := fed[|fed| - CurLength(r) + HEADER_BYTES..];
    assert fed + b == d + (r.header + (body + b));
    if n.active {
      assert Done(n, fed + b) == d;
      assert (fed + b)[|fed + b| - CurLength(n)..] == r.header + (body + b);
    } else {
      FrameDone(d, r.header, body + b);
      assert Done(n, fed + b) == fed + b;
    }
  }

  lemma EffectDelivery(m: Mux, n: Mux, h: Header, ended: bool, fed: seq<byte>, got: Book)
    requires Delivery(m, fed, got) && FrameEffect(m.streams, n.streams, h, ended) && n.ids.next == m.ids.next
    ensures Delivery(n, fed, got)
  {
    hide Payload;
  }

  lemma EffectFins(m: Mux, n: Mux, h: Header, ended: bool, hs: seq<Header>)
    requires Fins(m, hs) && FrameEffect(m.streams, n.streams, h, ended) && n.ids.next == m.ids.next
    requires Touches(h, h.id) && h.id % 2 == 1 && ended ==> Opened(m.ids.next, h.id)
    ensures Fins(n, hs + (if ended then [h] else []))
  {
    hide FinSeen, NoFrames;
    if ended {
      forall id: nat
        ensures FinSeen(hs + [h], id) <==> FinSeen(hs, id) || (Touches(h, id) && Fin(h))
        ensures NoFrames(hs + [h], id) <==> NoFrames(hs, id) && !Touches(h, id)
      {
        FinAppend(hs, h, id);
      }
    } else {
      assert hs + [] == hs;
    }
  }

  lemma IncrementsAppend(hs: seq<Header>, h: Header, id: nat)
    ensures Increments(hs + [h], id) == Increments(hs, id) + (if h.kind == WINDOW && h.id == id then h.value else 0)
  {
    assert (hs + [h])[..|hs|] == hs;
  }

  lemma EffectSends(m: Mux, n: Mux, h: Header, ended: bool, hs: seq<Header>, put: Book)
    requires Sends(m, hs, put) && FrameEffect(m.streams, n.streams, h, ended) && n.ids.next == m.ids.next
    requires !ended ==> h.kind != WINDOW
    ensures Sends(n, hs + (if ended then [h] else []), put)
  {
    hide Increments;
    if ended {
      forall id: nat
        ensures Increments(hs + [h], id) == Increments(hs, id) + (if h.kind == WINDOW && h.id == id then h.value else 0)
      {
        IncrementsAppend(hs, h, id);
      }
    } else {
      assert hs + [] == hs;
    }
  }

  lemma TakeHeaderIn(m: Mux, b: seq<byte>, fed: seq<byte>, got: Book, put: Book)
    requires InOk(m, fed, got, put) && !m.rx.active && |m.rx.header| + |b| <= HEADER_BYTES
    ensures InOk(m.(rx := TakeHeader(m.rx, b, m.ses.nowMs)), fed + b, got, put)
  {
    hide Parsed, Payload, Hs, FinSeen, NoFrames, Increments;
    TakeHeaderParsed(m.rx, fed, b, m.ses.nowMs);
    forall id: nat ensures Payload(fed + b, id) == Payload(fed, id) {
      HeaderPayload(m.rx, fed, b, id);
    }
  }

  lemma StartFrameIn(m: Mux, fed: seq<byte>, got: Book, put: Book)
    requires InOk(m, fed, got, put) && Slots(m.streams, m.ids.next)
    requires !m.rx.active && |m.rx.header| == HEADER_BYTES
    ensures InOk(StartFrame(m).0, fed, got, put)
  {
    hide Parsed, Delivery, Fins, Sends, Slots, FrameEffect, StartFrame, Hs, Decode;
    var (n, r) := StartFrame(m);
    var h := Decode(m.rx.header);
    StartFrameActed(m);
    if r == Ok {
      StartParsed(m.rx, n.rx, fed);
      var ended := BodyLength(h) == 0;
      EffectDelivery(m, n, h, ended, fed, got);
      EffectFins(m, n, h, ended, Hs(m.rx, fed));
      EffectSends(m, n, h, ended, Hs(m.rx, fed), put);
    } else {
      var p := Header(0, PING, 0, 0, 0);
      EffectDelivery(m, n, p, false, fed, got);
      EffectFins(m, n, p, false, Hs(m.rx, fed));
      EffectSends(m, n, p, false, Hs(m.rx, fed), put);
      assert Hs(m.rx, fed) + [] == Hs(m.rx, fed);
    }
  }

  lemma HeaderStepIn(m: Mux, bytes: seq<byte>, c: nat, fed: seq<byte>, got: Book, put: Book)
    requires InOk(m, fed, got, put) && Base(m)
    requires !m.rx.active && c <= |bytes| && (c < |bytes| || |m.rx.header| == HEADER_BYTES)
    ensures var s := HeaderStep(m, bytes, c); InOk(s.0, fed + bytes[c..s.2], got, put)
  {
    hide InOk, StartFrame;
    var n := Min(HEADER_BYTES - |m.rx.header|, |bytes| - c);
    var t := m.(rx := TakeHeader(m.rx, bytes[c..c + n], m.ses.nowMs));
    TakeHeaderIn(m, bytes[c..c + n], fed, got, put);
    if |t.rx.header| == HEADER_BYTES {
      StartFrameIn(t, fed + bytes[c..c + n], got, put);
    }
  }

  /** Body bytes reach the payload and the ring of the frame's stream together. */
  lemma StoreDelivery(m: Mux, b: seq<byte>, fed: seq<byte>, got: Book)
    requires Delivery(m, fed, got) && Parsed(m.rx, fed) && Base(m) && Takes(m, b)
    ensures Delivery(Store(m, b), fed + b, got)
  {
    hide Parsed, Payload, Credit, Stalls, Clock;
    var n := Store(m, b);
    forall id: nat
      ensures Payload(fed + b, id) == Payload(fed, id) + (if id == m.rx.id then b else [])
    {
      BodyPayload(m.rx, fed, b, id);
    }
    forall i | 0 <= i < STREAMS && Live(n.streams[i])
      ensures Delivered(n.streams[i], fed + b, At(got, n.streams[i].id))
    {
      StoreSlot(m, b, i);
    }
  }

  lemma StoreSlot(m: Mux, b: seq<byte>, i: nat)
    requires Base(m) && Takes(m, b) && i < STREAMS && Live(Store(m, b).streams[i])
    ensures var s, t := m.streams[i], Store(m, b).streams[i];
            && Live(s) && t.id == s.id && t.remoteFin == s.remoteFin && t.sendCredit == s.sendCredit
            && t.ring == s.ring + (if s.id == m.rx.id then b else [])
  {
  }

  /** Storing body bytes, seen from everything but the rings. */
  lemma StoreRest(m: Mux, b: seq<byte>, hs: seq<Header>, put: Book)
    requires Fins(m, hs) && Sends(m, hs, put) && Base(m) && Takes(m, b)
    ensures Fins(Store(m, b), hs) && Sends(Store(m, b), hs, put)
  {
    hide FinSeen, NoFrames, Increments, Base, Takes;
    var n := Store(m, b);
    forall i | 0 <= i < STREAMS && Live(n.streams[i])
      ensures var s, t := m.streams[i], n.streams[i];
              Live(s) && t.id == s.id && t.remoteFin == s.remoteFin && t.sendCredit == s.sendCredit
    {
      StoreSlot(m, b, i);
    }
  }

  lemma TakeBodyIn(m: Mux, b: seq<byte>, fed: seq<byte>, got: Book, put: Book)
    requires InOk(m, fed, got, put) && Base(m) && Takes(m, b)
    ensures InOk(TakeBody(m, b), fed + b, got, put)
  {
    var hs := Hs(m.rx, fed);
    var n := Store(m, b);
    var h := Decode(m.rx.header);
    StoreDelivery(m, b, fed, got);
    StoreRest(m, b, hs, put);
    BodyParsed(m.rx, TakeBody(m, b).rx, fed, b);
    StoreBase(m, b);
    hide Parsed, Delivery, Fins, Sends, FrameEffect, Hs, Decode, Credit, Stalls, Clock, Slots;
    if n.rx.active {
      assert hs + [] == hs;
    } else {
      EndEffect(n, h);
      var e := h.(value := 0);
      assert FrameEffect(n.streams, EndFrame(n).streams, h, true) by { EffectValue(n.streams, EndFrame(n).streams, h); }
      EffectDelivery(n, EndFrame(n), h, true, fed + b, got);
      EffectFins(n, EndFrame(n), h, true, hs);
      EffectSends(n, EndFrame(n), h, true, hs, put);
    }
  }

  /** The value of a DATA header does not matter to the streams. */
  lemma EffectValue(a: Streams, b: Streams, h: Header)
    requires FrameEffect(a, b, h.(value := 0), true) && h.kind == DATA
    ensures FrameEffect(a, b, h, true)
  {
  }

  /** Nothing that the log speaks of changes on the streams that stay live. */
  ghost predicate Keeps(a: Streams, b: Streams) {
    forall k :: 0 <= k < STREAMS ==> Live(b[k]) ==>
      Live(a[k]) && b[k].id == a[k].id && b[k].ring == a[k].ring &&
      b[k].sendCredit == a[k].sendCredit && b[k].remoteFin == a[k].remoteFin
  }

  predicate SameParse(r: Rx, n: Rx) {
    n.header == r.header && n.active == r.active && n.id == r.id && n.flags == r.flags && n.remaining == r.remaining
  }

  lemma KeepsIn(m: Mux, n: Mux, fed: seq<byte>, got: Book, put: Book)
    requires InOk(m, fed, got, put) && Keeps(m.streams, n.streams) && SameParse(m.rx, n.rx) && n.ids.next == m.ids.next
    ensures InOk(n, fed, got, put)
  {
    hide Payload, FinSeen, NoFrames, Increments, Headers, Whole, Decode;
    assert CurLength(n.rx) == CurLength(m.rx);
  }

  lemma BodyStopKeeps(m: Mux, bytes: seq<byte>, c: nat)
    requires m.rx.active && c < |bytes| && BodyStep(m, bytes, c).1 != Ok
    ensures var s := BodyStep(m, bytes, c);
            s.2 == c && Keeps(m.streams, s.0.streams) && s.0.rx == m.rx && s.0.ids == m.ids
  {
  }

  lemma BodyStepIn(m: Mux, bytes: seq<byte>, c: nat, fed: seq<byte>, got: Book, put: Book)
    requires InOk(m, fed, got, put) && Base(m) && m.rx.active && c < |bytes|
    ensures var s := BodyStep(m, bytes, c); InOk(s.0, fed + bytes[c..s.2], got, put)
  {
    hide InOk, Base, Keeps;
    var s := BodyStep(m, bytes, c);
    if s.1 == Ok {
      TakeBodyIn(m, bytes[c..s.2], fed, got, put);
    } else {
      BodyStopKeeps(m, bytes, c);
      assert fed + bytes[c..c] == fed;
      KeepsIn(m, s.0, fed, got, put);
    }
  }

  lemma {:induction false} FeedIn(m: Mux, bytes: seq<byte>, c: nat, fed: seq<byte>, got: Book, put: Book)
    requires InOk(m, fed, got, put) && Base(m) && c <= |bytes|
    ensures var s := FeedFrom(m, bytes, c); InOk(s.0, fed + bytes[c..s.2], got, put)
    decreases |bytes| - c, Rank(m.rx)
  {
    hide InOk, Base;
    if FeedDone(m, bytes, c) {
      assert fed + bytes[c..c] == fed;
    } else {
      var s := FeedStep(m, bytes, c);
      if m.rx.active {
        BodyStepIn(m, bytes, c, fed, got, put);
        BodyStepBase(m, bytes, c);
      } else {
        HeaderStepIn(m, bytes, c, fed, got, put);
        HeaderStepBase(m, bytes, c);
      }
      if s.1 == Ok {
        FeedIn(s.0, bytes, s.2, fed + bytes[c..s.2], got, put);
        var e := FeedFrom(s.0, bytes, s.2).2;
        assert fed + bytes[c..s.2] + bytes[s.2..e] == fed + bytes[c..e];
      }
    }
  }

  // ---------- the other calls ----------

  lemma NoFramesMeansNothing(hs: seq<Header>, id: nat)
    requires NoFrames(hs, id)
    ensures Increments(hs, id) == 0 && !FinSeen(hs, id)
  {
    if hs != [] {
      NoFramesMeansNothing(hs[..|hs| - 1], id);
    }
  }

  lemma OpenIn(m: Mux, memory: bool, fed: seq<byte>, got: Book, put: Book)
    requires InOk(m, fed, got, put) && Slots(m.streams, m.ids.next)
    ensures InOk(Open(m, memory).0, fed, got, put)
  {
    hide Payload, FinSeen, Increments, Parsed, Hs;
    var n := Open(m, memory).0;
    if n != m {
      NoFramesMeansNothing(Hs(m.rx, fed), m.ids.next);
    }
  }

  lemma DrainDelivered(s: Stream, n: nat, fed: seq<byte>, got: seq<byte>)
    requires n <= |s.ring| && Delivered(s, fed, got)
    ensures Delivered(Drained(s, n), fed, got + s.ring[..n])
    ensures got + s.ring[..n] <= Payload(fed, s.id)
  {
    hide Payload;
    assert s.ring == s.ring[..n] + s.ring[n..];
    assert got + s.ring == got + s.ring[..n] + s.ring[n..];
  }

  lemma ReadIn(m: Mux, id: nat, capacity: nat, fed: seq<byte>, got: Book, put: Book)
    requires InOk(m, fed, got, put) && Slots(m.streams, m.ids.next) && Read(m, id, capacity).1 == Ok
    ensures var (n, r, bytes) := Read(m, id, capacity); InOk(n, fed, got[id := At(got, id) + bytes], put)
  {
    hide Payload, FinSeen, Increments, Parsed, Hs, NoFrames, Delivered;
    var (n, r, bytes) := Read(m, id, capacity);
    var i := Find(m.streams, id);
    DrainDelivered(m.streams[i], |bytes|, fed, At(got, id));
  }

  /** End of file is reported only after FIN, and only when everything before it has been read. */
  lemma ReadEof(m: Mux, id: nat, capacity: nat, fed: seq<byte>, got: Book, put: Book)
    requires InOk(m, fed, got, put) && m.ses.failure == Ok && Read(m, id, capacity).1 == Eof
    ensures FinSeen(Hs(m.rx, fed), id) && At(got, id) == Payload(fed, id)
  {
    hide Payload, FinSeen, Increments, Parsed, Hs, NoFrames;
    assert At(got, id) + [] == At(got, id);
  }

  lemma PutDataIn(m: Mux, i: nat, body: seq<byte>, fed: seq<byte>, got: Book, put: Book)
    requires InOk(m, fed, got, put) && Slots(m.streams, m.ids.next)
    requires i < STREAMS && Live(m.streams[i]) && m.tx.out.None? && |body| <= m.streams[i].sendCredit
    ensures InOk(PutData(m, i, body), fed, got, put[m.streams[i].id := At(put, m.streams[i].id) + body])
  {
    hide Payload, FinSeen, Increments, Parsed, Hs, NoFrames;
  }
}
