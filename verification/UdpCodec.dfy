/** The binary UDP datagram codec: encoding, decoding, and decoding of a growing prefix. */
module UdpCodec {
  import opened Efrp
  import opened Utf8

  const MAX_DATAGRAM: nat := 65507
  const MAX_ZONE: nat := 255
  const MAX_HEADER: nat := 555
  const MAX_FRAME: nat := 65536
  const UDP_TYPE: nat := 19
  const IPV4: byte := 4
  const IPV6: byte := 6

  /** The address buffer always has sixteen bytes; IPv4 uses the first four. */
  datatype Address = Address(family: nat, ip: seq<byte>, port: nat, zone: seq<byte>)

  predicate Shaped(a: Address) {
    |a.ip| == 16 && a.port <= 0xFFFF
  }

  datatype Packet = Packet(local: Option<Address>, remote: Address, payload: seq<byte>)

  function Zeros(n: nat): (z: seq<byte>)
    ensures |z| == n
  {
    seq(n, _ => 0)
  }

  /** An IPv4-mapped IPv6 address (section 2.5.5.2 of RFC 4291). */
  predicate Mapped(a: Address)
    requires Shaped(a)
  {
    a.family == 6 && a.ip[..12] == Zeros(10) + [0xFF, 0xFF]
  }

  predicate Short(a: Address)
    requires Shaped(a)
  {
    a.family == 4 || Mapped(a)
  }

  /** `address_size` accepts the address. */
  predicate Encodable(a: Address) {
    && Shaped(a) && (a.family == 4 || a.family == 6)
    && |a.zone| <= MAX_ZONE && (Short(a) ==> a.zone == []) && Octets(a.zone)
  }

  function Put16(v: nat): (s: seq<byte>)
    requires v <= 0xFFFF
    ensures |s| == 2 && Get16(s) == v
  {
    [v / 0x100, v % 0x100]
  }

  function Get16(s: seq<byte>): nat
    requires |s| >= 2
  {
    (s[0] as nat) * 0x100 + s[1]
  }

  /** The address bytes that travel. */
  function IpBytes(a: Address): (s: seq<byte>)
    requires Shaped(a)
    ensures |s| == if Short(a) then 4 else 16
  {
    if Mapped(a) then a.ip[12..] else if a.family == 4 then a.ip[..4] else a.ip
  }

  /** `put_address`. */
  function PutAddress(a: Address): (s: seq<byte>)
    requires Encodable(a)
    ensures |s| == 4 + |IpBytes(a)| + |a.zone|
  {
    [if Short(a) then IPV4 else IPV6] + IpBytes(a) + Put16(a.port) + [|a.zone|] + a.zone
  }

  /** The address a decoder gives back: an IPv4-mapped one comes back as IPv4. */
  function Normal(a: Address): Address
    requires Encodable(a)
  {
    if Short(a) then Address(4, IpBytes(a) + Zeros(12), a.port, []) else a
  }

  datatype Taken = Taken(result: Result, address: Address, size: nat)

  const NoAddress: Address := Address(0, Zeros(16), 0, [])

  /** `read_address` at the front of `t`: the address and its size. */
  function TakeAddress(t: seq<byte>): (r: Taken)
    ensures r.result == Ok ==> 8 <= r.size <= |t| && r.size <= 275
  {
    if t == [] then Taken(Truncated, NoAddress, 0)
    else if t[0] != IPV4 && t[0] != IPV6 then Taken(ProtocolError, NoAddress, 0)
    else
      var n := if t[0] == IPV4 then 4 else 16;
      if |t| < n + 4 then Taken(Truncated, NoAddress, 0)
      else
        var zone := t[n + 3] as nat;
        if |t| < n + 4 + zone then Taken(Truncated, NoAddress, 0)
        else
          var z := t[n + 4..n + 4 + zone];
          if (t[0] == IPV4 && zone != 0) || !Octets(z) then Taken(ProtocolError, NoAddress, 0)
          else Taken(Ok, Address(t[0], t[1..1 + n] + Zeros(16 - n), Get16(t[1 + n..3 + n]), z), n + 4 + zone)
  }

  /** What a header decode answers. */
  datatype Header = Header(result: Result, local: Option<Address>, remote: Address, length: nat, offset: nat)

  function Refuse(result: Result): Header {
    Header(result, None, NoAddress, 0, 0)
  }

  /** A prefix that ends too early asks for more, unless the frame ends there as well. */
  function Incomplete(s: seq<byte>, frame: nat): Result {
    if |s| < frame then WouldBlock else Truncated
  }

  /** `efrp_udp_packet_header_decode` of the prefix `s` of a frame of `frame` bytes. */
  function HeaderDecode(s: seq<byte>, frame: nat): (h: Header)
    ensures h.result == Ok ==> 3 < h.offset <= MAX_HEADER && h.offset <= |s| && h.offset + h.length == frame
  {
    if |s| > frame then Refuse(InvalidArgument)
    else if frame > MAX_FRAME then Refuse(CapacityExceeded)
    else if |s| < 3 then Refuse(Incomplete(s, frame))
    else if Get16(s) != UDP_TYPE || (s[2] != 2 && s[2] != 3) then Refuse(ProtocolError)
    else if s[2] == 2 then RemoteDecode(s, frame, None, 3)
    else
      var l := TakeAddress(s[3..]);
      if l.result == Truncated then Refuse(Incomplete(s, frame))
      else if l.result != Ok then Refuse(l.result)
      else RemoteDecode(s, frame, Some(l.address), 3 + l.size)
  }

  /** The remote address and the datagram length. */
  function RemoteDecode(s: seq<byte>, frame: nat, local: Option<Address>, at: nat): (h: Header)
    requires 3 <= at <= |s| <= frame && at <= 278
    ensures h.result == Ok ==> at < h.offset <= at + 277 && h.offset <= |s| && h.offset + h.length == frame
  {
    var r := TakeAddress(s[at..]);
    if r.result == Truncated then Refuse(Incomplete(s, frame))
    else if r.result != Ok then Refuse(r.result)
    else
      var o := at + r.size;
      if |s| - o < 2 then Refuse(Incomplete(s, frame))
      else
        var n := Get16(s[o..]);
        if n > MAX_DATAGRAM then Refuse(CapacityExceeded)
        else if frame - (o + 2) < n then Refuse(Truncated)
        else if frame - (o + 2) > n then Refuse(ProtocolError)
        else Header(Ok, local, r.address, n, o + 2)
  }

  // ---------- prefixes ----------

  lemma SlicePrefix(t: seq<byte>, more: seq<byte>, i: nat, j: nat)
    requires i <= j <= |t|
    ensures (t + more)[i..j] == t[i..j]
  {
  }

  /** More bytes do not change an address that was already decided. */
  lemma AddressStable(t: seq<byte>, more: seq<byte>)
    requires TakeAddress(t).result != Truncated
    ensures TakeAddress(t + more) == TakeAddress(t)
  {
    hide Octets, Zeros, Get16;
    var u := t + more;
    assert u[0] == t[0];
    if t[0] == IPV4 || t[0] == IPV6 {
      var n := if t[0] == IPV4 then 4 else 16;
      var zone := t[n + 3] as nat;
      assert u[n + 3] == t[n + 3];
      SlicePrefix(t, more, n + 4, n + 4 + zone);
      SlicePrefix(t, more, 1, 1 + n);
      SlicePrefix(t, more, 1 + n, 3 + n);
    }
  }

  /** An address never takes more than 275 bytes. */
  lemma AddressBounded(t: seq<byte>)
    requires |t| >= 275
    ensures TakeAddress(t).result != Truncated
  {
  }

  lemma RemoteStable(s: seq<byte>, more: seq<byte>, frame: nat, local: Option<Address>, at: nat)
    requires 3 <= at <= |s| && at <= 278 && |s| + |more| <= frame
    requires RemoteDecode(s, frame, local, at).result != WouldBlock
    ensures RemoteDecode(s + more, frame, local, at) == RemoteDecode(s, frame, local, at)
  {
    var u := s + more;
    assert u[at..] == s[at..] + more;
    if TakeAddress(s[at..]).result != Truncated {
      AddressStable(s[at..], more);
      hide TakeAddress;
    } else if |s| == frame {
      assert u == s;
    }
  }

  /**
   Prefix stability: any answer but "more bytes, please" is kept for every longer prefix of
   the same frame.
   */
  lemma PrefixStable(s: seq<byte>, more: seq<byte>, frame: nat)
    requires |s| + |more| <= frame && HeaderDecode(s, frame).result != WouldBlock
    ensures HeaderDecode(s + more, frame) == HeaderDecode(s, frame)
  {
    hide TakeAddress, RemoteDecode;
    var u := s + more;
    if |s| == frame {
      assert u == s;
    } else if |s| >= 3 {
      assert u[0] == s[0] && u[1] == s[1] && u[2] == s[2];
      assert u[3..] == s[3..] + more;
      if s[2] == 2 {
        if frame <= MAX_FRAME && Get16(s) == UDP_TYPE {
          RemoteStable(s, more, frame, None, 3);
        }
      } else if TakeAddress(s[3..]).result != Truncated {
        AddressStable(s[3..], more);
        var l := TakeAddress(s[3..]);
        if frame <= MAX_FRAME && Get16(s) == UDP_TYPE && s[2] == 3 && l.result == Ok {
          RemoteStable(s, more, frame, Some(l.address), 3 + l.size);
        }
      }
    }
  }

  /** 555 bytes always decide. */
  lemma PrefixBounded(s: seq<byte>, frame: nat)
    requires |s| >= MAX_HEADER
    ensures HeaderDecode(s, frame).result != WouldBlock
  {
    AddressBounded(s[3..]);
    if s[2] == 3 && TakeAddress(s[3..]).result == Ok {
      AddressBounded(s[3 + TakeAddress(s[3..]).size..]);
    }
    hide TakeAddress;
  }

  // ---------- round trip ----------

  /** Type, flags and local address. */
  function Front(local: Option<Address>): (s: seq<byte>)
    requires local.Some? ==> Encodable(local.value)
    ensures 3 <= |s|
  {
    if local.None? then Put16(UDP_TYPE) + [2] else Put16(UDP_TYPE) + [3] + PutAddress(local.value)
  }

  predicate Sendable(p: Packet) {
    Encodable(p.remote) && (p.local.Some? ==> Encodable(p.local.value)) && |p.payload| <= MAX_DATAGRAM
  }

  /** The bytes of a packet that fits. */
  function PacketBytes(p: Packet): (s: seq<byte>)
    requires Sendable(p)
  {
    Front(p.local) + PutAddress(p.remote) + Put16(|p.payload|) + p.payload
  }

  /** `efrp_udp_packet_encode`. */
  function Encode(p: Packet, capacity: nat): (Result, seq<byte>) {
    if |p.payload| > MAX_DATAGRAM then (CapacityExceeded, [])
    else if !Encodable(p.remote) || (p.local.Some? && !Encodable(p.local.value)) then (InvalidArgument, [])
    else if |PacketBytes(p)| > MAX_FRAME || |PacketBytes(p)| > capacity then (CapacityExceeded, [])
    else (Ok, PacketBytes(p))
  }

  /** `efrp_udp_packet_decode`. */
  function Decode(s: seq<byte>): (Result, Option<Packet>) {
    var h := HeaderDecode(s, |s|);
    if h.result != Ok then (h.result, None) else (Ok, Some(Packet(h.local, h.remote, s[h.offset..])))
  }

  /** An address that was put is taken back, whatever follows it. */
  lemma TakePut(a: Address, rest: seq<byte>)
    requires Encodable(a)
    ensures TakeAddress(PutAddress(a) + rest) == Taken(Ok, Normal(a), |PutAddress(a)|)
  {
    var t := PutAddress(a) + rest;
    var n := |IpBytes(a)|;
    assert t[0] == if Short(a) then IPV4 else IPV6;
    assert t[1..1 + n] == IpBytes(a);
    assert t[1 + n..3 + n] == Put16(a.port);
    assert t[n + 3] as nat == |a.zone|;
    assert t[n + 4..n + 4 + |a.zone|] == a.zone;
    if !Short(a) {
      assert IpBytes(a) + Zeros(0) == a.ip;
    }
  }

  /** The pieces of four strings put together. */
  lemma Pieces(a: seq<byte>, b: seq<byte>, c: seq<byte>, d: seq<byte>)
    ensures var s := a + b + c + d;
            s[|a|..] == b + (c + d) && s[|a| + |b|..] == c + d && s[|a| + |b| + |c|..] == d
  {
  }

  lemma Grouped(a: seq<byte>, b: seq<byte>, c: seq<byte>, d: seq<byte>)
    ensures a + b + c + d == a + (b + (c + d))
  {
  }

  lemma FrontSize(local: Option<Address>)
    requires local.Some? ==> Encodable(local.value)
    ensures |Front(local)| <= 278
  {
    if local.Some? {
      AddressSize(local.value);
    }
  }

  lemma Get16Prefix(s: seq<byte>, h: seq<byte>)
    requires |s| >= 2 && |h| >= 2 && s[0] == h[0] && s[1] == h[1]
    ensures Get16(s) == Get16(h)
  {
  }

  lemma Get16Front(s: seq<byte>, rest: seq<byte>)
    requires |s| == 2
    ensures Get16(s + rest) == Get16(s)
  {
  }

  /** The part after the local address. */
  lemma RemotePut(front: seq<byte>, p: Packet, local: Option<Address>)
    requires Encodable(p.remote) && |p.payload| <= MAX_DATAGRAM && 3 <= |front| <= 278
    ensures var s := front + PutAddress(p.remote) + Put16(|p.payload|) + p.payload;
            var o := |front| + |PutAddress(p.remote)| + 2;
            && RemoteDecode(s, |s|, local, |front|) == Header(Ok, local, Normal(p.remote), |p.payload|, o)
            && s[o..] == p.payload
  {
    hide TakeAddress, PutAddress, Normal, Encodable, Octets, Get16;
    var a, b := PutAddress(p.remote), Put16(|p.payload|);
    Pieces(front, a, b, p.payload);
    TakePut(p.remote, b + p.payload);
    Get16Front(b, p.payload);
  }

  lemma AddressSize(a: Address)
    requires Encodable(a)
    ensures |PutAddress(a)| <= 275
  {
  }

  /** The front decodes to the local address, and the remote address follows it. */
  lemma FrontDecode(local: Option<Address>, tail: seq<byte>, frame: nat)
    requires local.Some? ==> Encodable(local.value)
    requires |Front(local) + tail| <= frame <= MAX_FRAME && |Front(local)| <= 278
    ensures HeaderDecode(Front(local) + tail, frame) ==
            RemoteDecode(Front(local) + tail, frame, if local.Some? then Some(Normal(local.value)) else None,
                         |Front(local)|)
  {
    hide TakeAddress, PutAddress, Normal, Encodable, Octets, RemoteDecode, Get16;
    var head := Put16(UDP_TYPE) + [if local.Some? then 3 else 2];
    if local.Some? {
      var l := PutAddress(local.value);
      TakePut(local.value, tail);
      assert Front(local) + tail == head + (l + tail);
      assert (head + (l + tail))[3..] == l + tail;
    }
    var s := Front(local) + tail;
    assert s[0] == head[0] && s[1] == head[1] && s[2] == head[2];
    Get16Prefix(s, Put16(UDP_TYPE));
  }

  /** Decoding an encoded packet gives it back, with IPv4-mapped addresses as IPv4. */
  lemma RoundTrip(p: Packet, capacity: nat)
    requires Encode(p, capacity).0 == Ok
    ensures Decode(Encode(p, capacity).1) ==
            (Ok, Some(Packet(if p.local.Some? then Some(Normal(p.local.value)) else None, Normal(p.remote), p.payload)))
  {
    assert |Encode(p, capacity).1| <= MAX_FRAME;
    hide TakeAddress, PutAddress, RemoteDecode, Normal, Encodable, HeaderDecode, Octets, Front, Put16, Mapped;
    var front, s := Front(p.local), PacketBytes(p);
    FrontSize(p.local);
    RemotePut(front, p, if p.local.Some? then Some(Normal(p.local.value)) else None);
    Grouped(front, PutAddress(p.remote), Put16(|p.payload|), p.payload);
    FrontDecode(p.local, PutAddress(p.remote) + (Put16(|p.payload|) + p.payload), |s|);
  }

  /** An accepted address that is not IPv4-mapped is put back as it was; a mapped one gets shorter. */
  lemma PutTaken(t: seq<byte>)
    requires TakeAddress(t).result == Ok
    ensures var r := TakeAddress(t); var a := r.address;
            && Shaped(a)
            && (!Mapped(a) ==> Encodable(a) && PutAddress(a) == t[..r.size])
            && (Mapped(a) && Encodable(a) ==> |PutAddress(a)| < r.size)
  {
    hide Octets;
    var r := TakeAddress(t);
    var a := r.address;
    var n := if t[0] == IPV4 then 4 else 16;
    if !Mapped(a) {
      assert IpBytes(a) == t[1..1 + n];
      Put16Get16(t[1 + n..3 + n]);
      assert t[..r.size] == [t[0]] + t[1..1 + n] + t[1 + n..3 + n] + [t[n + 3]] + t[n + 4..r.size];
    }
  }

  lemma Put16Get16(s: seq<byte>)
    requires |s| == 2
    ensures Get16(s) <= 0xFFFF && Put16(Get16(s)) == s
  {
  }

  /** Neither address is IPv4-mapped. */
  predicate Plain(p: Packet) {
    Shaped(p.remote) && !Mapped(p.remote) && (p.local.Some? ==> Shaped(p.local.value) && !Mapped(p.local.value))
  }

  /** Where a decoded remote address and datagram lie. */
  lemma RemoteTaken(s: seq<byte>, local: Option<Address>, at: nat)
    requires 3 <= at <= |s| && at <= 278 && RemoteDecode(s, |s|, local, at).result == Ok
    ensures var h, r := RemoteDecode(s, |s|, local, at), TakeAddress(s[at..]);
            && r.result == Ok && h.remote == r.address && h.local == local && h.offset == at + r.size + 2
            && h.length == |s[h.offset..]| <= MAX_DATAGRAM && s[at + r.size..h.offset] == Put16(h.length)
            && s[at..][..r.size] == s[at..at + r.size]
  {
    hide TakeAddress;
    var r := TakeAddress(s[at..]);
    var o := at + r.size;
    Get16Prefix(s[o..], s[o..o + 2]);
    Put16Get16(s[o..o + 2]);
  }

  /** The front of an accepted frame is what encoding its local address writes, unless that is IPv4-mapped. */
  lemma FrontTaken(s: seq<byte>)
    requires HeaderDecode(s, |s|).result == Ok
    ensures exists at :: 3 <= at <= |s| && at <= 278 && FrontAt(s, HeaderDecode(s, |s|).local, at)
  {
    hide TakeAddress, RemoteDecode, Encodable, PutAddress, Get16;
    var h := HeaderDecode(s, |s|);
    assert s[..2] == Put16(UDP_TYPE) by {
      Get16Prefix(s, s[..2]);
      Put16Get16(s[..2]);
    }
    assert s[..3] == Put16(UDP_TYPE) + [s[2]];
    if s[2] == 2 {
      RemoteTaken(s, None, 3);
      assert FrontAt(s, h.local, 3);
    } else {
      var l := TakeAddress(s[3..]);
      RemoteTaken(s, Some(l.address), 3 + l.size);
      PutTaken(s[3..]);
      assert s[..3 + l.size] == s[..3] + s[3..][..l.size];
      assert FrontAt(s, h.local, 3 + l.size);
    }
  }

  /** The front ends at `at`, where the remote address starts. */
  ghost predicate FrontAt(s: seq<byte>, local: Option<Address>, at: nat)
    requires 3 <= at <= |s| && at <= 278
  {
    && HeaderDecode(s, |s|) == RemoteDecode(s, |s|, local, at)
    && (local.Some? ==> Shaped(local.value))
    && (local.None? || !Mapped(local.value) ==> (local.Some? ==> Encodable(local.value)) && Front(local) == s[..at])
    && (local.Some? && Mapped(local.value) && Encodable(local.value) ==> |Front(local)| < at)
  }

  lemma Cut(s: seq<byte>, i: nat, j: nat, k: nat)
    requires i <= j <= k <= |s|
    ensures s == s[..i] + s[i..j] + s[j..k] + s[k..]
  {
  }

  lemma ReencodeAt(s: seq<byte>, at: nat)
    requires Decode(s).0 == Ok && |s| <= MAX_FRAME && 3 <= at <= |s| && at <= 278
    requires FrontAt(s, HeaderDecode(s, |s|).local, at)
    ensures var p := Decode(s).1.value;
            if Plain(p) then Sendable(p) && PacketBytes(p) == s
            else Encode(p, |s|).0 == Ok ==> |PacketBytes(p)| < |s|
  {
    hide TakeAddress, RemoteDecode, Encodable, PutAddress, Mapped, Front, HeaderDecode, Get16, Put16;
    var h, p := HeaderDecode(s, |s|), Decode(s).1.value;
    RemoteTaken(s, h.local, at);
    PutTaken(s[at..]);
    Cut(s, at, h.offset - 2, h.offset);
  }

  /**
   Encoding an accepted frame's packet reproduces the frame exactly when neither address is
   IPv4-mapped: those the encoder writes as IPv4, or refuses when they have a zone.
   */
  lemma Reencode(s: seq<byte>)
    requires Decode(s).0 == Ok
    ensures Encode(Decode(s).1.value, |s|) == (Ok, s) <==> Plain(Decode(s).1.value)
  {
    assert |s| <= MAX_FRAME;
    hide TakeAddress, RemoteDecode, Encodable, PutAddress, Mapped, Front, HeaderDecode, Get16, PacketBytes, Plain,
         FrontAt;
    FrontTaken(s);
    var at :| 3 <= at <= |s| && at <= 278 && FrontAt(s, HeaderDecode(s, |s|).local, at);
    ReencodeAt(s, at);
  }

  /** The IPv4-mapped form of 1.2.3.4. */
  function MappedIp(): (s: seq<byte>)
    ensures |s| == 16 && s[..12] == Zeros(10) + [0xFF, 0xFF]
  {
    var s := [0, 0, 0, 0, 0, 0, 0, 0, 0, 0, 0xFF, 0xFF, 1, 2, 3, 4];
    assert forall i :: 0 <= i < 12 ==> s[..12][i] == (Zeros(10) + [0xFF, 0xFF])[i];
    s
  }

  /** A frame with that remote address, the zone `zone` and no datagram. */
  function MappedFrame(zone: seq<byte>): seq<byte>
    requires |zone| <= 1
  {
    [0, 19, 2] + ([IPV6] + MappedIp() + [0, 0] + [|zone|] + zone) + [0, 0]
  }

  lemma MappedTaken(zone: seq<byte>, rest: seq<byte>)
    requires |zone| <= 1 && Octets(zone)
    ensures TakeAddress([IPV6] + MappedIp() + [0, 0] + [|zone|] + zone + rest) ==
            Taken(Ok, Address(6, MappedIp(), 0, zone), 20 + |zone|)
  {
    hide MappedIp, Octets;
    var t := [IPV6] + MappedIp() + [0, 0] + [|zone|] + zone + rest;
    assert t[0] == IPV6 && t[19] as nat == |zone|;
    assert t[20..20 + |zone|] == zone;
    assert t[1..17] + Zeros(0) == MappedIp();
    assert t[17..19] == [0, 0];
  }

  /** The decoder accepts it. */
  lemma MappedDecodes(zone: seq<byte>)
    requires |zone| <= 1 && Octets(zone)
    ensures Decode(MappedFrame(zone)) == (Ok, Some(Packet(None, Address(6, MappedIp(), 0, zone), [])))
  {
    hide TakeAddress, Octets, MappedIp;
    var s := MappedFrame(zone);
    var address := [IPV6] + MappedIp() + [0, 0] + [|zone|] + zone;
    MappedTaken(zone, [0, 0]);
    assert s[3..] == address + [0, 0] && |address| == 20 + |zone|;
    var o := 23 + |zone|;
    assert s[o..] == [0, 0] && s[o + 2..] == [];
  }

  /** Such a frame is accepted, and encoding its packet gives a shorter frame. */
  lemma MappedShortens()
    ensures Decode(MappedFrame([])).0 == Ok && |MappedFrame([])| == 25
    ensures Encode(Decode(MappedFrame([])).1.value, 25).0 == Ok && |Encode(Decode(MappedFrame([])).1.value, 25).1| == 13
  {
    hide TakeAddress, HeaderDecode, Decode;
    MappedDecodes([]);
    assert Mapped(Address(6, MappedIp(), 0, []));
  }

  /** With a zone it is accepted too, and its packet cannot be encoded. */
  lemma MappedRefused()
    ensures Decode(MappedFrame([97])).0 == Ok && Encode(Decode(MappedFrame([97])).1.value, 26) == (InvalidArgument, [])
  {
    assert Octets([97]) by {
      assert [97][1..] == [];
    }
    hide TakeAddress, HeaderDecode, Decode;
    MappedDecodes([97]);
    assert Mapped(Address(6, MappedIp(), 0, [97]));
  }
}
