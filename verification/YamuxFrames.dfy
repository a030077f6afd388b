/**
 Byte-level reference for Yamux streams of frames.

 `Payload`, `Headers` and `Whole` read a byte string from its front, frame by
 frame, and know nothing of the multiplexer.  They are the yardstick for what the
 multiplexer delivers (bytes fed) and for what it sends (bytes put on the wire).
 */
module YamuxFrames {
  import opened Efrp

  const HEADER_BYTES: nat := 12

  const DATA: nat := 0
  const WINDOW: nat := 1
  const PING: nat := 2
  const GOAWAY: nat := 3

  const SYN: nat := 1
  const ACK: nat := 2
  const FIN: nat := 4
  const RST: nat := 8

  datatype Header = Header(version: nat, kind: nat, flags: nat, id: nat, value: nat)

  predicate Syn(h: Header) { h.flags % 2 == 1 }
  predicate Ack(h: Header) { h.flags / 2 % 2 == 1 }
  predicate Fin(h: Header) { h.flags / 4 % 2 == 1 }
  predicate Rst(h: Header) { h.flags / 8 % 2 == 1 }

  /** Fields fit their width on the wire. */
  predicate Fits(h: Header) {
    h.version < 0x100 && h.kind < 0x100 && h.flags < 0x1_0000 && h.id <= U32_MAX && h.value <= U32_MAX
  }

  function Encode(h: Header): (s: seq<byte>)
    requires Fits(h)
    ensures |s| == HEADER_BYTES
    ensures Decode(s) == h
  {
    var s := [h.version as byte, h.kind, h.flags / 0x100, h.flags % 0x100] + Store32(h.id) + Store32(h.value);
    assert s[4..8] == Store32(h.id);
    assert s[8..12] == Store32(h.value);
    s
  }

  function Decode(s: seq<byte>): (h: Header)
    requires |s| == HEADER_BYTES
    ensures Fits(h)
  {
    Header(s[0], s[1], (s[2] as nat) * 0x100 + s[3], Load32(s[4..8]), Load32(s[8..12]))
  }

  /** Number of bytes that follow the header: only DATA frames carry a body. */
  function BodyLength(h: Header): nat {
    if h.kind == DATA then h.value else 0
  }

  /** The first header in `s`. */
  function First(s: seq<byte>): (h: Header)
    requires |s| >= HEADER_BYTES
    ensures Fits(h)
  {
    Decode(s[..HEADER_BYTES])
  }

  /** Where the first frame of `s` ends, or `|s|` if it is unfinished. */
  function FirstEnd(s: seq<byte>): (n: nat)
    requires |s| >= HEADER_BYTES
    ensures HEADER_BYTES <= n <= |s|
  {
    Min(|s|, HEADER_BYTES + BodyLength(First(s)))
  }

  /** The bytes of the first frame's body that belong to stream `id`. */
  function FirstBody(s: seq<byte>, id: nat): seq<byte>
    requires |s| >= HEADER_BYTES
  {
    if First(s).kind == DATA && First(s).id == id then s[HEADER_BYTES..FirstEnd(s)] else []
  }

  /** The bytes of the DATA bodies for stream `id`, in order, including an unfinished last body. */
  function Payload(s: seq<byte>, id: nat): seq<byte>
  {
    if |s| < HEADER_BYTES then [] else FirstBody(s, id) + Payload(s[FirstEnd(s)..], id)
  }

  /** The headers of the frames in `s`, in order. */
  function Headers(s: seq<byte>): seq<Header>
  {
    if |s| < HEADER_BYTES then [] else [First(s)] + Headers(s[FirstEnd(s)..])
  }

  /** `s` is a sequence of complete frames. */
  predicate Whole(s: seq<byte>)
  {
    s == [] ||
    (|s| >= HEADER_BYTES && HEADER_BYTES + BodyLength(First(s)) <= |s| && Whole(s[FirstEnd(s)..]))
  }

  lemma FirstAppend(a: seq<byte>, b: seq<byte>, id: nat)
    requires |a| >= HEADER_BYTES
    ensures First(a + b) == First(a)
    ensures HEADER_BYTES + BodyLength(First(a)) <= |a| ==>
              && FirstEnd(a + b) == FirstEnd(a)
              && (a + b)[FirstEnd(a)..] == a[FirstEnd(a)..] + b
    ensures HEADER_BYTES + BodyLength(First(a)) <= |a| ==> FirstBody(a + b, id) == FirstBody(a, id)
    ensures FirstBody(a, id) <= FirstBody(a + b, id)
  {
    assert (a + b)[..HEADER_BYTES] == a[..HEADER_BYTES];
    assert FirstEnd(a) <= FirstEnd(a + b);
    assert (a + b)[HEADER_BYTES..FirstEnd(a)] == a[HEADER_BYTES..FirstEnd(a)];
  }

  /** Complete frames parse independently of what follows them. */
  lemma {:induction false} PayloadAppend(a: seq<byte>, b: seq<byte>, id: nat)
    requires Whole(a)
    ensures Payload(a + b, id) == Payload(a, id) + Payload(b, id)
  {
    if a == [] {
      assert a + b == b;
    } else {
      FirstAppend(a, b, id);
      PayloadAppend(a[FirstEnd(a)..], b, id);
    }
  }

  lemma {:induction false} HeadersAppend(a: seq<byte>, b: seq<byte>)
    requires Whole(a)
    ensures Headers(a + b) == Headers(a) + Headers(b)
  {
    if a == [] {
      assert a + b == b;
    } else {
      FirstAppend(a, b, 0);
      HeadersAppend(a[FirstEnd(a)..], b);
    }
  }

  lemma {:induction false} WholeAppend(a: seq<byte>, b: seq<byte>)
    requires Whole(a) && Whole(b)
    ensures Whole(a + b)
  {
    if a == [] {
      assert a + b == b;
    } else {
      FirstAppend(a, b, 0);
      WholeAppend(a[FirstEnd(a)..], b);
    }
  }

  /** One complete frame. */
  lemma SingleFrame(h: Header, body: seq<byte>, id: nat)
    requires Fits(h) && |body| == BodyLength(h)
    ensures Whole(Encode(h) + body)
    ensures Headers(Encode(h) + body) == [h]
    ensures Payload(Encode(h) + body, id) == if h.kind == DATA && h.id == id then body else []
  {
    PartialFrame(Encode(h), body, id);
    assert (Encode(h) + body)[|Encode(h) + body|..] == [];
  }

  /** An unfinished DATA body shows up in the payload as soon as it arrives. */
  lemma PartialFrame(head: seq<byte>, body: seq<byte>, id: nat)
    requires |head| == HEADER_BYTES && |body| <= BodyLength(Decode(head))
    ensures First(head + body) == Decode(head)
    ensures Payload(head + body, id) == if Decode(head).kind == DATA && Decode(head).id == id then body else []
  {
    var s := head + body;
    assert s[..HEADER_BYTES] == head;
    assert s[HEADER_BYTES..|s|] == body;
    assert s[|s|..] == [];
  }

  /** Receiving more bytes only extends the payload. */
  lemma {:induction false} PayloadGrows(a: seq<byte>, b: seq<byte>, id: nat)
    ensures Payload(a, id) <= Payload(a + b, id)
  {
    if |a| >= HEADER_BYTES {
      FirstAppend(a, b, id);
      if HEADER_BYTES + BodyLength(First(a)) <= |a| {
        PayloadGrows(a[FirstEnd(a)..], b, id);
      } else {
        assert a[FirstEnd(a)..] == [];
      }
    }
  }

  /** Total of the window increments granted to stream `id`. */
  function Increments(hs: seq<Header>, id: nat): nat
  {
    if hs == [] then 0 else
      var h := hs[|hs| - 1];
      Increments(hs[..|hs| - 1], id) + (if h.kind == WINDOW && h.id == id then h.value else 0)
  }

  /** A FIN flag for stream `id` is among the frames. */
  predicate FinSeen(hs: seq<Header>, id: nat) {
    exists k :: 0 <= k < |hs| && hs[k].kind <= WINDOW && hs[k].id == id && Fin(hs[k])
  }
}
