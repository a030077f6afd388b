/** Receiving UDP datagrams over a work stream, with a buffer for one datagram of the configured size. */
module UdpFeed {
  import opened Efrp
  import opened UdpCodec

  const MESSAGE: byte := 16
  const HEADER_BYTES: nat := 8

  /** The buffer of a work stream: one configured datagram and the largest header, within one frame. */
  function Capacity(packetSize: nat): nat {
    Min(packetSize + MAX_HEADER, MAX_FRAME)
  }

  /** The declared length of the frame whose header is `h`. */
  function FrameLength(h: seq<byte>): nat
    requires |h| >= HEADER_BYTES
  {
    Load32(h[4..8])
  }

  /** How the eight bytes of a frame header are judged. */
  function HeaderResult(h: seq<byte>): Result
    requires |h| >= HEADER_BYTES
  {
    if h[0] != 0 || h[1] != MESSAGE || h[2] != 0 || h[3] != 0 then ProtocolError
    else if FrameLength(h) < 2 then ProtocolError
    else if FrameLength(h) > MAX_FRAME then CapacityExceeded
    else Ok
  }

  // ---------- whole messages ----------

  /** A frame header with all the payload it declares. */
  predicate Whole(m: seq<byte>) {
    |m| >= HEADER_BYTES && |m| == HEADER_BYTES + FrameLength(m)
  }

  /** The beginning of a message. */
  predicate Partial(m: seq<byte>) {
    |m| < HEADER_BYTES || |m| < HEADER_BYTES + FrameLength(m)
  }

  /** The datagram in a whole message. */
  function Datagram(m: seq<byte>): (Result, Option<Packet>)
    requires |m| >= HEADER_BYTES
  {
    if HeaderResult(m) != Ok then (HeaderResult(m), None) else Decode(m[HEADER_BYTES..])
  }

  predicate Accepted(m: seq<byte>) {
    Whole(m) && Datagram(m).0 == Ok
  }

  /** The datagram is larger than the configured size. */
  predicate Oversized(m: seq<byte>, packetSize: nat)
    requires |m| >= HEADER_BYTES
  {
    Datagram(m).1.Some? && |Datagram(m).1.value.payload| > packetSize
  }

  predicate AllAccepted(ms: seq<seq<byte>>) {
    forall i :: 0 <= i < |ms| ==> Accepted(ms[i])
  }

  /** How many datagrams are larger than configured. */
  function Drops(ms: seq<seq<byte>>, packetSize: nat): nat
    requires AllAccepted(ms)
  {
    if ms == [] then 0 else (if Oversized(ms[0], packetSize) then 1 else 0) + Drops(ms[1..], packetSize)
  }

  lemma {:induction false} DropsMore(ms: seq<seq<byte>>, m: seq<byte>, packetSize: nat)
    requires AllAccepted(ms) && Accepted(m)
    ensures AllAccepted(ms + [m])
    ensures Drops(ms + [m], packetSize) == Drops(ms, packetSize) + if Oversized(m, packetSize) then 1 else 0
  {
    hide Accepted, Oversized;
    if ms == [] {
      assert [m][1..] == [];
    } else {
      DropsMore(ms[1..], m, packetSize);
      assert (ms + [m])[1..] == ms[1..] + [m];
    }
  }

  lemma SameLength(m: seq<byte>, x: seq<byte>, n: seq<byte>, y: seq<byte>)
    requires m + x == n + y && |m| >= HEADER_BYTES && |n| >= HEADER_BYTES
    ensures FrameLength(m) == FrameLength(n)
  {
    assert (m + x)[4..8] == m[4..8];
    assert (n + y)[4..8] == n[4..8];
  }

  /** A message at the front of a byte stream is fixed by the stream. */
  lemma FirstUnique(m: seq<byte>, x: seq<byte>, n: seq<byte>, y: seq<byte>)
    requires Whole(m) && Whole(n) && m + x == n + y
    ensures m == n && x == y
  {
    SameLength(m, x, n, y);
    assert (m + x)[..|m|] == m && (m + x)[|m|..] == x;
    assert (n + y)[..|n|] == n && (n + y)[|n|..] == y;
  }

  lemma NotPartial(m: seq<byte>, x: seq<byte>)
    requires Whole(m)
    ensures !Partial(m + x)
  {
    assert (m + x)[4..8] == m[4..8];
  }

  lemma JoinedFirst(ms: seq<seq<byte>>, x: seq<byte>)
    requires ms != [] && AllAccepted(ms)
    ensures Whole(ms[0]) && Joined(ms) + x == ms[0] + (Joined(ms[1..]) + x)
  {
    hide Whole, Datagram;
    JoinedCons(ms);
    Assoc(ms[0], Joined(ms[1..]), x);
  }

  lemma Assoc(a: seq<byte>, b: seq<byte>, c: seq<byte>)
    ensures a + b + c == a + (b + c)
  {
  }

  /** A byte stream splits into whole messages and a beginning in one way only. */
  lemma {:induction false} SplitUnique(a: seq<seq<byte>>, x: seq<byte>, b: seq<seq<byte>>, y: seq<byte>)
    requires AllAccepted(a) && AllAccepted(b) && Partial(x) && Partial(y) && Joined(a) + x == Joined(b) + y
    ensures a == b && x == y
  {
    hide Accepted, Partial, Whole;
    assert a == [] ==> Joined(a) + x == x;
    assert b == [] ==> Joined(b) + y == y;
    if a != [] {
      JoinedFirst(a, x);
      NotPartial(a[0], Joined(a[1..]) + x);
    }
    if b != [] {
      JoinedFirst(b, y);
      NotPartial(b[0], Joined(b[1..]) + y);
    }
    if a != [] && b != [] {
      FirstUnique(a[0], Joined(a[1..]) + x, b[0], Joined(b[1..]) + y);
      SplitUnique(a[1..], x, b[1..], y);
      assert a == [a[0]] + a[1..] && b == [b[0]] + b[1..];
    }
  }

  // ---------- what a prefix of a frame tells ----------

  /** A prefix as long as the buffer, or the whole frame, always decides. */
  lemma PrefixDecides(prefix: seq<byte>, packetSize: nat, frame: nat)
    requires |prefix| == Min(frame, Capacity(packetSize))
    ensures HeaderDecode(prefix, frame).result != WouldBlock
  {
    if |prefix| < MAX_HEADER {
      assert |prefix| == frame;
      hide TakeAddress;
    } else {
      PrefixBounded(prefix, frame);
    }
  }

  /** A frame whose beginning is accepted is accepted whole, with the same datagram length. */
  lemma PrefixAccepted(frame: seq<byte>, k: nat)
    requires k <= |frame| && HeaderDecode(frame[..k], |frame|).result == Ok
    ensures Decode(frame).0 == Ok && |Decode(frame).1.value.payload| == HeaderDecode(frame[..k], |frame|).length
    ensures |frame| <= HeaderDecode(frame[..k], |frame|).length + MAX_HEADER
  {
    hide TakeAddress, RemoteDecode;
    assert frame[..k] + frame[k..] == frame;
    PrefixStable(frame[..k], frame[k..], |frame|);
  }

  /** A frame whose beginning is refused is refused whole, for the same reason. */
  lemma PrefixRefused(prefix: seq<byte>, rest: seq<byte>)
    requires HeaderDecode(prefix, |prefix| + |rest|).result !in {Ok, WouldBlock}
    ensures Decode(prefix + rest).0 == HeaderDecode(prefix, |prefix| + |rest|).result
  {
    hide TakeAddress, RemoteDecode, HeaderDecode;
    PrefixStable(prefix, rest, |prefix| + |rest|);
  }

  /** `t` begins a message, and every message that begins with `t` is refused with `r`. */
  ghost predicate Refused(t: seq<byte>, r: Result) {
    && HEADER_BYTES <= |t| <= HEADER_BYTES + FrameLength(t)
    && forall rest: seq<byte> {:trigger t + rest} :: Whole(t + rest) ==> Datagram(t + rest).0 == r
  }

  /** The receiving half of `efrp_udp_work_t`. */
  class UdpWork {
    const packetSize: nat
    const incoming: array<byte>
    var header: seq<byte>
    var payloadUsed: nat
    var payloadExpected: nat
    var validated: bool
    var discard: bool
    var pending: bool
    var packet: Option<Packet>
    var dropped: nat
    /** The payload received of the message at hand, and the messages before it. */
    ghost var frame: seq<byte>
    ghost var messages: seq<seq<byte>>

    /** The bytes taken so far. */
    ghost function Consumed(): seq<byte>
      reads this
    {
      Joined(messages) + (header + frame)
    }

    ghost predicate Valid()
      reads this, incoming
    {
      && packetSize <= 0xFFFF && incoming.Length == Capacity(packetSize)
      && AllAccepted(messages) && dropped == Drops(messages, packetSize)
      && (if |header| < HEADER_BYTES then AtHeader() else Receiving() && payloadUsed < payloadExpected)
      && (pending ==> header == [] && messages != [] && packet == Datagram(messages[|messages| - 1]).1)
    }

    ghost predicate AtHeader()
      reads this
    {
      |header| < HEADER_BYTES && frame == [] && payloadUsed == 0 && !validated && !discard
    }

    ghost predicate Receiving()
      reads this, incoming
    {
      && |header| == HEADER_BYTES && HeaderResult(header) == Ok && payloadExpected == FrameLength(header)
      && payloadUsed == |frame| <= payloadExpected
      && incoming[..Min(payloadUsed, incoming.Length)] == frame[..Min(payloadUsed, incoming.Length)]
      && Decided(frame[..Min(payloadUsed, incoming.Length)])
    }

    /** What is known of the datagram header so far. */
    ghost predicate Decided(prefix: seq<byte>)
      reads this
    {
      var h := HeaderDecode(prefix, payloadExpected);
      if validated then
        h.result == Ok && discard == (payloadExpected > incoming.Length || h.length > packetSize)
      else
        h.result == WouldBlock && discard == (payloadExpected > incoming.Length)
    }

    constructor (packetSize: nat)
      requires packetSize <= 0xFFFF
      ensures Valid() && this.packetSize == packetSize && Consumed() == [] && !pending && dropped == 0
      ensures fresh(incoming)
    {
      this.packetSize := packetSize;
      incoming := new byte[Capacity(packetSize)];
      header, payloadUsed, payloadExpected := [], 0, 0;
      validated, discard, pending, packet, dropped := false, false, false, None, 0;
      frame, messages := [], [];
    }

    /** One byte of the frame header. */
    method TakeHeader(b: byte) returns (r: Result)
      requires Valid() && |header| < HEADER_BYTES && !pending
      modifies this`header, this`payloadExpected, this`discard
      ensures header == old(header) + [b]
      ensures r == Ok ==> Valid()
      ensures r != Ok ==> r != WouldBlock && Refused(header, r)
    {
      hide Accepted, Oversized, TakeAddress, RemoteDecode, Decode;
      header := header + [b];
      if |header| < HEADER_BYTES {
        return Ok;
      }
      r := HeaderResult(header);
      if r != Ok {
        RefusedHeader(header);
        return;
      }
      payloadExpected := FrameLength(header);
      discard := payloadExpected > incoming.Length;
    }

    /** Copies received bytes into the buffer. */
    method Store(at: nat, bytes: seq<byte>)
      requires at + |bytes| <= incoming.Length
      modifies incoming
      ensures incoming[..at + |bytes|] == old(incoming[..at]) + bytes
    {
      for i := 0 to |bytes|
        invariant incoming[..at] == old(incoming[..at])
        invariant incoming[at..at + i] == bytes[..i]
      {
        incoming[at + i] := bytes[i];
        assert incoming[at..at + i + 1] == incoming[at..at + i] + [bytes[i]];
      }
      assert incoming[..at + |bytes|] == incoming[..at] + incoming[at..at + |bytes|];
    }

    /** Keeps what fits of the received payload. */
    method Keep(bytes: seq<byte>)
      requires payloadUsed == |frame|
      requires incoming[..Min(payloadUsed, incoming.Length)] == frame[..Min(payloadUsed, incoming.Length)]
      modifies this`payloadUsed, this`frame, incoming
      ensures frame == old(frame) + bytes && payloadUsed == |frame|
      ensures incoming[..Min(payloadUsed, incoming.Length)] == frame[..Min(payloadUsed, incoming.Length)]
    {
      var copy := if payloadUsed < incoming.Length then Min(incoming.Length - payloadUsed, |bytes|) else 0;
      if copy > 0 {
        Store(payloadUsed, bytes[..copy]);
      }
      payloadUsed := payloadUsed + |bytes|;
      frame := frame + bytes;
    }

    /** Decodes the datagram header from what has been kept, once. */
    method Validate(ghost before: nat) returns (r: Result)
      requires |header| == HEADER_BYTES && HeaderResult(header) == Ok && payloadExpected == FrameLength(header)
      requires before <= payloadUsed == |frame| <= payloadExpected
      requires incoming[..Min(payloadUsed, incoming.Length)] == frame[..Min(payloadUsed, incoming.Length)]
      requires Decided(frame[..Min(before, incoming.Length)])
      modifies this`validated, this`discard
      ensures r == Ok ==> Receiving()
      ensures r != Ok ==> r != WouldBlock && Refused(header + frame, r)
    {
      hide HeaderDecode, Decode;
      ghost var k := Min(before, incoming.Length);
      var prefix := Min(payloadUsed, incoming.Length);
      if !validated {
        var h := HeaderDecode(incoming[..prefix], payloadExpected);
        if h.result == Ok {
          validated := true;
          if h.length > packetSize {
            discard := true;
          }
        } else if h.result != WouldBlock {
          RefusedFrame(header, frame, prefix);
          return h.result;
        }
      } else {
        assert frame[..prefix] == frame[..k] + frame[k..prefix];
        PrefixStable(frame[..k], frame[k..prefix], payloadExpected);
      }
      r := Ok;
    }

    /** Some of the payload of the message at hand. */
    method TakePayload(bytes: seq<byte>) returns (r: Result)
      requires Valid() && |header| == HEADER_BYTES && payloadUsed + |bytes| <= payloadExpected
      modifies this`payloadUsed, this`validated, this`discard, this`frame, incoming
      ensures frame == old(frame) + bytes
      ensures r == Ok ==> Receiving()
      ensures r != Ok ==> r != WouldBlock && Refused(header + frame, r)
    {
      hide HeaderDecode, Decode, Accepted, Drops, Oversized;
      ghost var before := payloadUsed;
      Keep(bytes);
      assert frame[..Min(before, incoming.Length)] == old(frame)[..Min(before, incoming.Length)];
      r := Validate(before);
    }

    /** Clears the buffer. */
    method Wipe()
      modifies incoming
      ensures forall i :: 0 <= i < incoming.Length ==> incoming[i] == 0
    {
      for k := 0 to incoming.Length
        invariant forall i :: 0 <= i < k ==> incoming[i] == 0
      {
        incoming[k] := 0;
      }
    }

    /**
     The message is complete: its datagram waits for delivery, or is dropped for its size.
     Its header has been decoded and decoding it whole succeeds, so neither can fail here.
     */
    method Finish()
      requires packetSize <= 0xFFFF && incoming.Length == Capacity(packetSize)
      requires AllAccepted(messages) && dropped == Drops(messages, packetSize)
      requires Receiving() && payloadUsed == payloadExpected && !pending
      modifies this, incoming
      ensures Valid() && header == [] && frame == [] && messages == old(messages) + [old(header + frame)]
      ensures pending == !Oversized(old(header + frame), packetSize)
    {
      hide HeaderDecode, Drops, Oversized, Accepted, Datagram, Decode, HeaderResult;
      ghost var m := header + frame;
      Concluded(header, frame, packetSize);
      DropsMore(messages, m, packetSize);
      if discard {
        dropped := dropped + 1;
        Wipe();
      } else {
        assert incoming[..payloadExpected] == frame;
        packet := Decode(incoming[..payloadExpected]).1;
        pending := true;
      }
      header, payloadUsed, payloadExpected, validated, discard := [], 0, 0, false, false;
      frame, messages := [], messages + [m];
    }

    /** One turn of `Feed`: a header byte or not, then as much payload as there is. */
    method Turn(bytes: seq<byte>) returns (r: Result, used: nat, done: bool)
      requires Valid() && !pending && bytes != []
      modifies this, incoming
      ensures 0 < used <= |bytes|
      ensures r == Ok ==> Valid()
      ensures r == Ok && !done ==>
                Untouched(old(messages), old(dropped)) && header + frame == old(header + frame) + bytes[..used]
      ensures r == Ok && done ==> Completed(old(messages), old(header + frame) + bytes[..used])
      ensures r != Ok ==>
                && r != WouldBlock && Refused(old(header + frame) + bytes[..used], r)
                && Untouched(old(messages), old(dropped))
    {
      hide HeaderDecode, Drops, Oversized, Accepted, Datagram, Decode, HeaderResult, Refused, Joined, Decided;
      used, done := 0, false;
      if |header| < HEADER_BYTES {
        r := TakeHeader(bytes[0]);
        used := 1;
        assert header + frame == header;
        assert header == old(header + frame) + bytes[..1];
        if r != Ok || |header| < HEADER_BYTES {
          return;
        }
      }
      ghost var start := old(header + frame);
      assert header + frame == start + bytes[..used];
      hide Valid, Completed, Untouched;
      var n;
      r, n, done := TakeMore(bytes[used..]);
      assert bytes[used..][..n] == bytes[used..used + n];
      Extend(start, bytes, used, used + n);
      used := used + n;
    }

    /** As much payload of the message at hand as there is. */
    method TakeMore(bytes: seq<byte>) returns (r: Result, used: nat, done: bool)
      requires Valid() && !pending && |header| == HEADER_BYTES
      modifies this, incoming
      ensures used <= |bytes| && (bytes != [] ==> used > 0)
      ensures r == Ok ==> Valid()
      ensures r == Ok && !done ==>
                Untouched(old(messages), old(dropped)) && header + frame == old(header + frame) + bytes[..used]
      ensures r == Ok && done ==> Completed(old(messages), old(header + frame) + bytes[..used])
      ensures r != Ok ==>
                && r != WouldBlock && Refused(old(header + frame) + bytes[..used], r)
                && Untouched(old(messages), old(dropped))
    {
      hide HeaderDecode, Drops, Oversized, Accepted, Datagram, Decode, HeaderResult, Refused, Joined, Decided;
      done := false;
      used := Min(payloadExpected - payloadUsed, |bytes|);
      r := TakePayload(bytes[..used]);
      assert header + frame == old(header + frame) + bytes[..used];
      if r == Ok && payloadUsed == payloadExpected {
        Finish();
        done := true;
      }
    }

    /** The message `m` has just been completed. */
    ghost predicate Completed(before: seq<seq<byte>>, m: seq<byte>)
      reads this
    {
      && messages == before + [m] && header == [] && frame == []
      && |m| >= HEADER_BYTES && pending == !Oversized(m, packetSize)
    }

    ghost predicate Untouched(before: seq<seq<byte>>, count: nat)
      reads this
    {
      messages == before && dropped == count && !pending
    }

    /** `udp_feed`: takes bytes up to the end of the message at hand. */
    method Feed(bytes: seq<byte>) returns (r: Result, used: nat)
      requires Valid()
      modifies this, incoming
      ensures used <= |bytes|
      ensures r in {Ok, WouldBlock} ==> Valid()
      ensures r == WouldBlock <==> old(pending)
      ensures r == WouldBlock ==> used == 0 && unchanged(this)
      ensures r == Ok ==> Consumed() == old(Consumed()) + bytes[..used]
      ensures r == Ok && messages == old(messages) ==>
                used == |bytes| && !pending && header + frame == old(header + frame) + bytes
      ensures r == Ok && messages != old(messages) ==> Completed(old(messages), old(header + frame) + bytes[..used])
      ensures r !in {Ok, WouldBlock} ==>
                Refused(old(header + frame) + bytes[..used], r) && Untouched(old(messages), old(dropped))
    {
      hide HeaderDecode, Drops, Oversized, Accepted, Datagram, Decode, HeaderResult, Refused, Joined, Valid;
      used := 0;
      if pending {
        return WouldBlock, 0;
      }
      ghost var before, partial, count := messages, header + frame, dropped;
      while used < |bytes|
        invariant used <= |bytes| && Valid() && Untouched(before, count)
        invariant header + frame == partial + bytes[..used]
      {
        var n, done;
        r, n, done := Turn(bytes[used..]);
        Extend(partial, bytes, used, used + n);
        assert bytes[used..][..n] == bytes[used..used + n];
        used := used + n;
        if r != Ok || done {
          Accounted(before, partial, bytes[..used]);
          return;
        }
      }
      r := Ok;
      assert bytes[..used] == bytes;
      Assoc(Joined(before), partial, bytes[..used]);
    }

    /** The datagram was sent or given up. */
    method Release()
      requires Valid() && pending
      modifies this`pending, this`packet, incoming
      ensures Valid() && !pending && packet == None && forall i :: 0 <= i < incoming.Length ==> incoming[i] == 0
    {
      pending, packet := false, None;
      Wipe();
    }
  }

  lemma Extend(a: seq<byte>, bytes: seq<byte>, i: nat, j: nat)
    requires i <= j <= |bytes|
    ensures a + bytes[..i] + bytes[i..j] == a + bytes[..j]
  {
    assert bytes[..i] + bytes[i..j] == bytes[..j];
  }

  /** The bytes before a completed message and the message are the bytes before the call and those used. */
  lemma Accounted(ms: seq<seq<byte>>, partial: seq<byte>, used: seq<byte>)
    ensures Joined(ms + [partial + used]) + ([] + []) == Joined(ms) + partial + used
  {
    hide Joined;
    Assoc(Joined(ms), partial, used);
    JoinedSnoc(ms, partial + used);
  }

  lemma StillPartial(w: UdpWork)
    requires w.Valid()
    ensures Partial(w.header + w.frame)
  {
    hide Drops, Accepted, HeaderDecode, Datagram;
    if |w.header| == HEADER_BYTES {
      assert (w.header + w.frame)[4..8] == w.header[4..8];
    }
  }

  /**
   However the bytes were cut into calls, two receivers that took the same bytes received the
   same messages, dropped the same datagrams, and are at the same place in the next message.
   */
  lemma CutsDoNotMatter(v: UdpWork, w: UdpWork)
    requires v.Valid() && w.Valid() && v.packetSize == w.packetSize && v.Consumed() == w.Consumed()
    ensures v.messages == w.messages && v.dropped == w.dropped && v.header + v.frame == w.header + w.frame
  {
    hide Drops, Accepted, HeaderDecode, Datagram, Partial, Joined;
    StillPartial(v);
    StillPartial(w);
    SplitUnique(v.messages, v.header + v.frame, w.messages, w.header + w.frame);
  }

  /**
   Failures as well: a receiver that failed after whole messages `ms` and the refused beginning
   `t` of another one stopped where every receiver of the same bytes stops.  None accepts a
   message beyond `ms`.
   */
  lemma FailureIsFinal(w: UdpWork, ms: seq<seq<byte>>, t: seq<byte>, r: Result)
    requires w.Valid() && AllAccepted(ms) && Refused(t, r) && r != Ok && Joined(ms) + t <= w.Consumed()
    ensures w.messages == ms
  {
    hide Drops, Accepted, HeaderDecode, Datagram, Partial, Joined, Refused;
    StillPartial(w);
    var more := w.Consumed()[|Joined(ms) + t|..];
    Assoc(Joined(ms), t, more);
    RefusalStands(w.messages, w.header + w.frame, ms, t, more, r);
  }

  lemma {:induction false} RefusalStands(
    a: seq<seq<byte>>, x: seq<byte>, ms: seq<seq<byte>>, t: seq<byte>, more: seq<byte>, r: Result)
    requires AllAccepted(a) && AllAccepted(ms) && Partial(x) && Refused(t, r) && r != Ok
    requires Joined(a) + x == Joined(ms) + (t + more)
    ensures a == ms
    decreases |ms|
  {
    hide Accepted, Partial, Whole, Refused;
    assert a == [] ==> Joined(a) + x == x;
    assert ms == [] ==> Joined(ms) + (t + more) == t + more;
    if a != [] {
      JoinedFirst(a, x);
    }
    if ms == [] {
      if a != [] {
        RefusedFirst(a[0], Joined(a[1..]) + x, t, more, r);
        assert false;
      }
    } else {
      JoinedFirst(ms, t + more);
      NotPartial(ms[0], Joined(ms[1..]) + (t + more));
      FirstUnique(a[0], Joined(a[1..]) + x, ms[0], Joined(ms[1..]) + (t + more));
      RefusalStands(a[1..], x, ms[1..], t, more, r);
      assert a == [a[0]] + a[1..] && ms == [ms[0]] + ms[1..];
    }
  }

  /** A message at the front of a byte stream that begins with `t` begins with `t`, and is refused. */
  lemma RefusedFirst(m: seq<byte>, x: seq<byte>, t: seq<byte>, more: seq<byte>, r: Result)
    requires Whole(m) && Refused(t, r) && m + x == t + more
    ensures Datagram(m).0 == r && (r != Ok ==> !Accepted(m))
  {
    hide Datagram;
    SameLength(m, x, t, more);
    assert |m| >= |t|;
    var rest := m[|t|..];
    assert m == (m + x)[..|m|] && t == (t + more)[..|t|];
    assert m[..|t|] == t;
    assert t + rest == m;
  }

  /** Two refusals of the same message agree. */
  lemma OneRefusal(t: seq<byte>, r: Result, u: seq<byte>, q: Result)
    requires Refused(t, r) && Refused(u, q) && t <= u
    ensures r == q
  {
    hide Datagram;
    var rest: seq<byte> := seq(HEADER_BYTES + FrameLength(u) - |u|, _ => 0);
    var m := u + rest;
    assert m[4..8] == u[4..8];
    assert Whole(m);
    RefusedFirst(m, [], u, rest, q);
    assert m + [] == m && u[|t|..] + rest == m[|t|..];
    assert t + (u[|t|..] + rest) == m;
    RefusedFirst(m, [], t, u[|t|..] + rest, r);
  }

  /** Prefixes of one string are prefixes of each other. */
  lemma Comparable(t: seq<byte>, x: seq<byte>, u: seq<byte>, y: seq<byte>)
    requires t + x == u + y && |t| <= |u|
    ensures t <= u
  {
    assert t == (t + x)[..|t|] && u == (u + y)[..|u|];
  }

  /**
   Two receivers of the same bytes that both failed, after whole messages `ms` and `ns` and the
   refused beginnings `t` and `u`, accepted the same messages and failed with the same error.
   */
  lemma {:induction false} FailuresAgree(
    ms: seq<seq<byte>>, t: seq<byte>, x: seq<byte>, r: Result,
    ns: seq<seq<byte>>, u: seq<byte>, y: seq<byte>, q: Result)
    requires AllAccepted(ms) && AllAccepted(ns) && Refused(t, r) && Refused(u, q) && r != Ok && q != Ok
    requires Joined(ms) + (t + x) == Joined(ns) + (u + y)
    ensures ms == ns && r == q
    decreases |ms|
  {
    hide Accepted, Whole, Refused;
    assert ms == [] ==> Joined(ms) + (t + x) == t + x;
    assert ns == [] ==> Joined(ns) + (u + y) == u + y;
    if ms != [] {
      JoinedFirst(ms, t + x);
    }
    if ns != [] {
      JoinedFirst(ns, u + y);
    }
    if ms == [] && ns == [] {
      if |t| <= |u| {
        Comparable(t, x, u, y);
        OneRefusal(t, r, u, q);
      } else {
        Comparable(u, y, t, x);
        OneRefusal(u, q, t, r);
      }
    } else if ms == [] {
      RefusedFirst(ns[0], Joined(ns[1..]) + (u + y), t, x, r);
      assert false;
    } else if ns == [] {
      RefusedFirst(ms[0], Joined(ms[1..]) + (t + x), u, y, q);
      assert false;
    } else {
      FirstUnique(ms[0], Joined(ms[1..]) + (t + x), ns[0], Joined(ns[1..]) + (u + y));
      FailuresAgree(ms[1..], t, x, r, ns[1..], u, y, q);
      assert ms == [ms[0]] + ms[1..] && ns == [ns[0]] + ns[1..];
    }
  }

  /** A frame header and its payload form a whole message. */
  lemma WholeMessage(h: seq<byte>, frame: seq<byte>)
    requires |h| == HEADER_BYTES && HeaderResult(h) == Ok && |frame| == FrameLength(h)
    ensures Whole(h + frame) && Datagram(h + frame) == Decode(frame)
  {
    hide Decode;
    assert (h + frame)[4..8] == h[4..8];
    assert (h + frame)[8..] == frame;
  }

  /** A message whose payload is all there was decided, and its size is judged by the datagram's. */
  lemma Concluded(h: seq<byte>, frame: seq<byte>, packetSize: nat)
    requires |h| == HEADER_BYTES && HeaderResult(h) == Ok && |frame| == FrameLength(h)
    requires HeaderDecode(frame[..Min(|frame|, Capacity(packetSize))], |frame|).result in {Ok, WouldBlock}
    ensures var d := HeaderDecode(frame[..Min(|frame|, Capacity(packetSize))], |frame|);
            && d.result == Ok && Accepted(h + frame) && Datagram(h + frame) == Decode(frame)
            && Oversized(h + frame, packetSize) == (|frame| > Capacity(packetSize) || d.length > packetSize)
  {
    hide HeaderDecode, Decode;
    var k := Min(|frame|, Capacity(packetSize));
    PrefixDecides(frame[..k], packetSize, |frame|);
    PrefixAccepted(frame, k);
    WholeMessage(h, frame);
    Decoded(frame);
  }

  lemma Decoded(frame: seq<byte>)
    ensures Decode(frame).0 == Ok <==> Decode(frame).1.Some?
  {
  }

  /** A refused beginning of the payload refuses the message. */
  lemma RefusedFrame(h: seq<byte>, frame: seq<byte>, k: nat)
    requires |h| == HEADER_BYTES && HeaderResult(h) == Ok && k <= |frame| <= FrameLength(h)
    requires HeaderDecode(frame[..k], FrameLength(h)).result !in {Ok, WouldBlock}
    ensures Refused(h + frame, HeaderDecode(frame[..k], FrameLength(h)).result)
  {
    hide Decode, HeaderDecode;
    assert (h + frame)[4..8] == h[4..8];
    forall rest: seq<byte> | Whole(h + frame + rest)
      ensures Datagram(h + frame + rest).0 == HeaderDecode(frame[..k], FrameLength(h)).result
    {
      assert h + frame + rest == h + (frame + rest);
      assert (h + (frame + rest))[4..8] == h[4..8];
      WholeMessage(h, frame + rest);
      assert frame + rest == frame[..k] + (frame[k..] + rest);
      PrefixRefused(frame[..k], frame[k..] + rest);
    }
  }

  /** A refused frame header refuses the message. */
  lemma RefusedHeader(h: seq<byte>)
    requires |h| == HEADER_BYTES && HeaderResult(h) != Ok
    ensures Refused(h, HeaderResult(h))
  {
    hide Decode;
    forall rest: seq<byte> | Whole(h + rest)
      ensures Datagram(h + rest).0 == HeaderResult(h)
    {
      assert (h + rest)[4..8] == h[4..8];
    }
  }
}
