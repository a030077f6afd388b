/**
 The wire framing of the control channel: a reader that takes one byte at a time, and a
 parser that reads a whole byte string at once.
 */
module WireFrames {
  import opened Efrp

  const MAX_PAYLOAD: nat := 65536
  const HEADER_BYTES: nat := 8
  const CLIENT_HELLO: nat := 1
  const SERVER_HELLO: nat := 2
  const MESSAGE: nat := 16

  function Magic(): (m: seq<byte>)
    ensures |m| == 7
  {
    [0x46, 0x52, 0x50, 0, 2, 0x0D, 0x0A]
  }

  datatype Frame = Frame(kind: nat, payload: seq<byte>)

  predicate ValidKind(kind: nat) {
    kind == CLIENT_HELLO || kind == SERVER_HELLO || kind == MESSAGE
  }

  /** `efrp_wire_header`. */
  function HeaderOf(kind: nat, length: nat): (h: seq<byte>)
    requires ValidKind(kind) && length <= MAX_PAYLOAD
    ensures |h| == HEADER_BYTES && HeaderOk(h) && Kind(h) == kind && Length(h) == length
  {
    var n := Store32(length);
    var h := [kind / 0x100, kind % 0x100, 0, 0] + n;
    assert h[4..8] == n;
    h
  }

  function Kind(h: seq<byte>): nat
    requires |h| == HEADER_BYTES
  {
    (h[0] as nat) * 0x100 + h[1]
  }

  function Length(h: seq<byte>): nat
    requires |h| == HEADER_BYTES
  {
    Load32(h[4..8])
  }

  predicate HeaderOk(h: seq<byte>)
    requires |h| == HEADER_BYTES
  {
    ValidKind(Kind(h)) && h[2] == 0 && h[3] == 0
  }

  /** A frame as it travels. */
  function Bytes(f: Frame): seq<byte>
    requires ValidKind(f.kind) && |f.payload| <= MAX_PAYLOAD
  {
    HeaderOf(f.kind, |f.payload|) + f.payload
  }

  /** The payload capacity, and what the handler answers once the last of these frames arrives. */
  datatype Config = Config(capacity: nat, accepts: seq<Frame> -> bool)

  predicate ConfigOk(c: Config) {
    0 < c.capacity <= MAX_PAYLOAD
  }

  /** `magic` counts the magic bytes seen; a reader that expects none starts at the end of it. */
  datatype Reader = Reader(magic: nat, header: seq<byte>, payload: seq<byte>, failure: Result, frames: seq<Frame>)

  function Fresh(expectMagic: bool): Reader {
    Reader(if expectMagic then 0 else |Magic()|, [], [], Ok, [])
  }

  predicate ReaderOk(c: Config, r: Reader) {
    && r.magic <= |Magic()| && |r.header| <= HEADER_BYTES
    && (|r.header| < HEADER_BYTES ==> r.payload == [])
    && (r.failure == Ok && r.magic < |Magic()| ==> r.header == [])
    && (r.failure == Ok && |r.header| == HEADER_BYTES ==>
          HeaderOk(r.header) && Length(r.header) <= c.capacity && |r.payload| < Length(r.header))
    && (forall i :: 0 <= i < |r.frames| ==> ValidKind(r.frames[i].kind) && |r.frames[i].payload| <= c.capacity)
  }

  /** Hand over the frame if it is complete. */
  function Settle(c: Config, r: Reader): Reader
    requires |r.header| == HEADER_BYTES
  {
    if |r.payload| < Length(r.header) then r
    else
      var frames := r.frames + [Frame(Kind(r.header), r.payload)];
      if c.accepts(frames) then r.(header := [], payload := [], frames := frames)
      else r.(failure := CallbackRejected, frames := frames)
  }

  /** One more byte. */
  function Absorb(c: Config, r: Reader, b: byte): Reader
    requires ReaderOk(c, r)
  {
    if r.failure != Ok then r
    else if r.magic < |Magic()| then
      r.(magic := r.magic + 1, failure := if b == Magic()[r.magic] then Ok else ProtocolError)
    else if |r.header| < HEADER_BYTES then
      var h := r.header + [b];
      if |h| < HEADER_BYTES then r.(header := h)
      else if !HeaderOk(h) then r.(header := h, failure := ProtocolError)
      else if Length(h) > c.capacity then r.(header := h, failure := CapacityExceeded)
      else Settle(c, r.(header := h))
    else Settle(c, r.(payload := r.payload + [b]))
  }

  lemma FreshOk(c: Config)
    ensures ReaderOk(c, Fresh(false))
  {
  }

  lemma AbsorbOk(c: Config, r: Reader, b: byte)
    requires ConfigOk(c) && ReaderOk(c, r)
    ensures ReaderOk(c, Absorb(c, r, b))
  {
  }

  /** A whole byte string, one byte after the other. */
  function Fold(c: Config, r: Reader, s: seq<byte>): (n: Reader)
    requires ConfigOk(c) && ReaderOk(c, r)
    ensures ReaderOk(c, n)
  {
    if s == [] then r
    else
      var m := Fold(c, r, s[..|s| - 1]);
      AbsorbOk(c, m, s[|s| - 1]);
      Absorb(c, m, s[|s| - 1])
  }

  /** How the bytes are cut into chunks does not matter. */
  lemma {:induction false} FoldSplit(c: Config, r: Reader, a: seq<byte>, b: seq<byte>)
    requires ConfigOk(c) && ReaderOk(c, r)
    ensures Fold(c, r, a + b) == Fold(c, Fold(c, r, a), b)
  {
    hide Absorb, ReaderOk;
    if b == [] {
      assert a + b == a;
    } else {
      FoldSplit(c, r, a, b[..|b| - 1]);
      assert (a + b)[..|a + b| - 1] == a + b[..|b| - 1];
    }
  }

  lemma {:induction false} FoldFailed(c: Config, r: Reader, s: seq<byte>)
    requires ConfigOk(c) && ReaderOk(c, r) && r.failure != Ok
    ensures Fold(c, r, s) == r
  {
    if s != [] {
      FoldFailed(c, r, s[..|s| - 1]);
    }
  }

  // ---------- what the frames mean ----------

  function Flatten(frames: seq<Frame>): seq<byte>
    requires forall i :: 0 <= i < |frames| ==> ValidKind(frames[i].kind) && |frames[i].payload| <= MAX_PAYLOAD
  {
    if frames == [] then [] else Flatten(frames[..|frames| - 1]) + Bytes(frames[|frames| - 1])
  }

  /** A header is determined by its kind and length. */
  lemma HeaderUnique(h: seq<byte>)
    requires |h| == HEADER_BYTES && HeaderOk(h) && Length(h) <= MAX_PAYLOAD
    ensures HeaderOf(Kind(h), Length(h)) == h
  {
    var g := HeaderOf(Kind(h), Length(h));
    assert g[0] == Kind(h) / 0x100 && g[1] == Kind(h) % 0x100;
    Store32Load32(h[4..8]);
    assert g[4..8] == Store32(Length(h));
    assert g == [g[0], g[1], g[2], g[3]] + g[4..8] && h == [h[0], h[1], h[2], h[3]] + h[4..8];
  }

  // ---------- reading frame by frame ----------

  /** The first `n` bytes of a header. */
  lemma {:induction false} FoldHeader(c: Config, r: Reader, h: seq<byte>)
    requires ConfigOk(c) && ReaderOk(c, r) && r.failure == Ok && r.magic == |Magic()| && r.header == []
    requires |h| < HEADER_BYTES
    ensures Fold(c, r, h) == r.(header := h)
  {
    if h != [] {
      FoldHeader(c, r, h[..|h| - 1]);
      assert h == h[..|h| - 1] + [h[|h| - 1]];
    }
  }

  /** Payload bytes, as long as they do not complete the frame. */
  lemma {:induction false} FoldPayload(c: Config, r: Reader, p: seq<byte>)
    requires ConfigOk(c) && ReaderOk(c, r) && r.failure == Ok && r.magic == |Magic()| && |r.header| == HEADER_BYTES
    requires |r.payload| + |p| < Length(r.header)
    ensures Fold(c, r, p) == r.(payload := r.payload + p)
  {
    if p == [] {
      assert r.payload + p == r.payload;
    } else {
      FoldPayload(c, r, p[..|p| - 1]);
      assert r.payload + p == r.payload + p[..|p| - 1] + [p[|p| - 1]];
      hide ReaderOk;
    }
  }

  /** The reader that has just taken a whole header, before it looks at the payload. */
  function AtHeader(c: Config, r: Reader, h: seq<byte>): Reader
    requires |h| == HEADER_BYTES
  {
    if !HeaderOk(h) then r.(header := h, failure := ProtocolError)
    else if Length(h) > c.capacity then r.(header := h, failure := CapacityExceeded)
    else Settle(c, r.(header := h))
  }

  lemma FoldWholeHeader(c: Config, r: Reader, h: seq<byte>)
    requires ConfigOk(c) && ReaderOk(c, r) && r.failure == Ok && r.magic == |Magic()| && r.header == []
    requires |h| == HEADER_BYTES
    ensures Fold(c, r, h) == AtHeader(c, r, h)
  {
    FoldHeader(c, r, h[..HEADER_BYTES - 1]);
    assert h == h[..HEADER_BYTES - 1] + [h[HEADER_BYTES - 1]];
  }

  /** A complete frame. */
  lemma FoldFrame(c: Config, r: Reader, h: seq<byte>, p: seq<byte>)
    requires ConfigOk(c) && ReaderOk(c, r) && r.failure == Ok && r.magic == |Magic()| && r.header == []
    requires |h| == HEADER_BYTES && HeaderOk(h) && Length(h) == |p| <= c.capacity
    ensures Fold(c, r, h + p) == Settle(c, r.(header := h, payload := p))
  {
    FoldSplit(c, r, h, p);
    FoldWholeHeader(c, r, h);
    if p != [] {
      FoldLast(c, r.(header := h), p);
    }
  }

  /** A payload byte. */
  lemma AbsorbPayload(c: Config, r: Reader, b: byte)
    requires ReaderOk(c, r) && r.failure == Ok && r.magic == |Magic()| && |r.header| == HEADER_BYTES
    ensures Absorb(c, r, b) == Settle(c, r.(payload := r.payload + [b]))
  {
    hide ReaderOk, Settle;
  }

  /** The payload bytes that complete a frame. */
  lemma FoldLast(c: Config, r: Reader, p: seq<byte>)
    requires ConfigOk(c) && ReaderOk(c, r) && r.failure == Ok && r.magic == |Magic()| && |r.header| == HEADER_BYTES
    requires r.payload == [] && p != [] && |p| == Length(r.header)
    ensures Fold(c, r, p) == Settle(c, r.(payload := p))
  {
    hide Length, Settle, ReaderOk, Absorb;
    var n := |p| - 1;
    FoldPayload(c, r, p[..n]);
    assert [] + p[..n] == p[..n] && p[..n] + [p[n]] == p;
    AbsorbPayload(c, r.(payload := p[..n]), p[n]);
    assert Fold(c, r, p) == Absorb(c, r.(payload := p[..n]), p[n]);
  }

  /** The frames of a byte string, read from its front, and why reading stopped. */
  function Parse(c: Config, done: seq<Frame>, s: seq<byte>): (seq<Frame>, Result)
    decreases |s|
  {
    if |s| < HEADER_BYTES then (done, Ok)
    else
      var h := s[..HEADER_BYTES];
      if !HeaderOk(h) then (done, ProtocolError)
      else if Length(h) > c.capacity then (done, CapacityExceeded)
      else if |s| < HEADER_BYTES + Length(h) then (done, Ok)
      else
        var frames := done + [Frame(Kind(h), s[HEADER_BYTES..HEADER_BYTES + Length(h)])];
        if c.accepts(frames) then Parse(c, frames, s[HEADER_BYTES + Length(h)..]) else (frames, CallbackRejected)
  }

  /** Reading byte by byte, and so in any chunks, finds exactly the frames of a one-shot parse. */
  lemma {:induction false} OneShot(c: Config, r: Reader, s: seq<byte>)
    requires ConfigOk(c) && ReaderOk(c, r) && r.failure == Ok && r.magic == |Magic()| && r.header == []
    ensures var n := Fold(c, r, s); (n.frames, n.failure) == Parse(c, r.frames, s)
    decreases |s|
  {
    if |s| < HEADER_BYTES {
      FoldHeader(c, r, s);
    } else {
      var h := s[..HEADER_BYTES];
      var rest := s[HEADER_BYTES..];
      hide Fold, Absorb, ReaderOk;
      assert s == h + rest;
      if !HeaderOk(h) || Length(h) > c.capacity || |rest| < Length(h) {
        OneShotStops(c, r, h, rest);
      } else {
        var n := Length(h);
        hide Length, HeaderOk, Kind;
        assert rest == rest[..n] + rest[n..] && s == h + rest[..n] + rest[n..];
        assert s[HEADER_BYTES..HEADER_BYTES + n] == rest[..n] && s[HEADER_BYTES + n..] == rest[n..];
        OneShotFrame(c, r, h, rest[..n], rest[n..]);
      }
    }
  }

  lemma OneShotStops(c: Config, r: Reader, h: seq<byte>, rest: seq<byte>)
    requires ConfigOk(c) && ReaderOk(c, r) && r.failure == Ok && r.magic == |Magic()| && r.header == []
    requires |h| == HEADER_BYTES && (!HeaderOk(h) || Length(h) > c.capacity || |rest| < Length(h))
    ensures var n := Fold(c, r, h + rest);
            && n.frames == r.frames
            && n.failure == if !HeaderOk(h) then ProtocolError
                            else if Length(h) > c.capacity then CapacityExceeded else Ok
  {
    FoldSplit(c, r, h, rest);
    FoldWholeHeader(c, r, h);
    if !HeaderOk(h) || Length(h) > c.capacity {
      FoldFailed(c, AtHeader(c, r, h), rest);
    } else {
      FoldPayload(c, r.(header := h), rest);
    }
  }

  lemma {:induction false} OneShotFrame(c: Config, r: Reader, h: seq<byte>, p: seq<byte>, tail: seq<byte>)
    requires ConfigOk(c) && ReaderOk(c, r) && r.failure == Ok && r.magic == |Magic()| && r.header == []
    requires |h| == HEADER_BYTES && HeaderOk(h) && Length(h) == |p| <= c.capacity
    ensures var n := Fold(c, r, h + p + tail);
            var frames := r.frames + [Frame(Kind(h), p)];
            (n.frames, n.failure) == if c.accepts(frames) then Parse(c, frames, tail) else (frames, CallbackRejected)
    decreases |h| + |p| + |tail|, 0
  {
    FoldSplit(c, r, h + p, tail);
    FoldFrame(c, r, h, p);
    var m := Settle(c, r.(header := h, payload := p));
    if c.accepts(m.frames) {
      OneShot(c, m, tail);
    } else {
      FoldFailed(c, m, tail);
    }
  }

  /** A frame that is printed parses back, whatever the reader has read before. */
  lemma RoundTrip(c: Config, r: Reader, f: Frame)
    requires ConfigOk(c) && ReaderOk(c, r) && r.failure == Ok && r.magic == |Magic()| && r.header == []
    requires ValidKind(f.kind) && |f.payload| <= c.capacity && c.accepts(r.frames + [f])
    ensures Fold(c, r, Bytes(f)) == r.(frames := r.frames + [f])
  {
    FoldFrame(c, r, HeaderOf(f.kind, |f.payload|), f.payload);
  }

  /** What the reader has taken is its frames, printed, and what it has of the next one. */
  predicate Accounted(c: Config, r: Reader, s: seq<byte>)
    requires ConfigOk(c) && ReaderOk(c, r)
  {
    r.failure == Ok && r.magic == |Magic()| ==> s == Flatten(r.frames) + r.header + r.payload
  }

  lemma FlattenSnoc(frames: seq<Frame>, f: Frame)
    requires forall i :: 0 <= i < |frames| ==> ValidKind(frames[i].kind) && |frames[i].payload| <= MAX_PAYLOAD
    requires ValidKind(f.kind) && |f.payload| <= MAX_PAYLOAD
    ensures Flatten(frames + [f]) == Flatten(frames) + Bytes(f)
  {
    assert (frames + [f])[..|frames|] == frames;
  }

  lemma KindOk(h: seq<byte>)
    requires |h| == HEADER_BYTES && HeaderOk(h)
    ensures ValidKind(Kind(h))
  {
  }

  /** Delivering a frame keeps the account. */
  lemma SettleAccounted(c: Config, r: Reader, s: seq<byte>)
    requires ConfigOk(c) && |r.header| == HEADER_BYTES && HeaderOk(r.header)
    requires |r.payload| <= Length(r.header) <= c.capacity
    requires forall i :: 0 <= i < |r.frames| ==> ValidKind(r.frames[i].kind) && |r.frames[i].payload| <= c.capacity
    requires s == Flatten(r.frames) + r.header + r.payload
    requires ReaderOk(c, Settle(c, r))
    ensures Accounted(c, Settle(c, r), s)
  {
    hide Load32, Flatten, ReaderOk, HeaderOk, Kind;
    if |r.payload| == Length(r.header) {
      var f := Frame(Kind(r.header), r.payload);
      KindOk(r.header);
      HeaderUnique(r.header);
      FlattenSnoc(r.frames, f);
      hide HeaderOf, Length;
      assert Flatten(r.frames) + (r.header + r.payload) == s;
      assert Flatten(r.frames) + Bytes(f) + [] + [] == Flatten(r.frames) + Bytes(f);
    }
  }

  /** After the magic, the bytes read are exactly the frames delivered plus the unfinished rest. */
  lemma {:induction false} Reassembly(c: Config, s: seq<byte>)
    requires ConfigOk(c)
    ensures Fold(c, Fresh(false), s).magic == |Magic()| && Accounted(c, Fold(c, Fresh(false), s), s)
  {
    if s == [] {
      assert Flatten([]) + [] + [] == [];
    } else {
      var t, b := s[..|s| - 1], s[|s| - 1];
      Reassembly(c, t);
      assert s == t + [b];
      AbsorbAccounted(c, Fold(c, Fresh(false), t), t, b);
    }
  }

  lemma AbsorbAccounted(c: Config, r: Reader, t: seq<byte>, b: byte)
    requires ConfigOk(c) && ReaderOk(c, r) && r.magic == |Magic()| && Accounted(c, r, t)
    ensures ReaderOk(c, Absorb(c, r, b)) && Accounted(c, Absorb(c, r, b), t + [b]) && Absorb(c, r, b).magic == r.magic
  {
    AbsorbOk(c, r, b);
    if r.failure == Ok {
      var front := Flatten(r.frames);
      if |r.header| < HEADER_BYTES {
        var h := r.header + [b];
        assert front + r.header + [] + [b] == front + h + [];
        if |h| == HEADER_BYTES && HeaderOk(h) && Length(h) <= c.capacity {
          SettleAccounted(c, r.(header := h), t + [b]);
        }
      } else {
        assert front + r.header + r.payload + [b] == front + r.header + (r.payload + [b]);
        SettleAccounted(c, r.(payload := r.payload + [b]), t + [b]);
      }
    }
  }
}
