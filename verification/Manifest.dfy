/** The XTCP binding manifest: its shape, its wire form and its validity window. */
module Manifest {
  import opened Efrp
  import Utf8

  const PROXY_MAX: nat := 128
  const WIRE_MAX: nat := 377
  const LIFETIME_MAX: nat := 60

  /** "EFRPXTC1". */
  function Magic(): (s: seq<byte>)
    ensures |s| == 8
  {
    [69, 70, 82, 80, 88, 84, 67, 49]
  }

  datatype Manifest = Manifest(
    proxyName: seq<byte>,
    sid: seq<byte>, providerControlId: seq<byte>, visitorControlId: seq<byte>,
    providerNonce: seq<byte>, visitorNonce: seq<byte>,
    providerSpki: seq<byte>, visitorSpki: seq<byte>,
    issuedAt: nat, expiresAt: nat)

  /** The seven 32-byte fields in wire order. */
  function Fields(m: Manifest): (f: seq<seq<byte>>)
    ensures |f| == 7
  {
    [m.sid, m.providerControlId, m.visitorControlId, m.providerNonce, m.visitorNonce, m.providerSpki, m.visitorSpki]
  }

  /** The sizes the C structure gives its members. */
  predicate Typed(m: Manifest) {
    (forall i :: 0 <= i < 7 ==> |Fields(m)[i]| == 32) && m.issuedAt <= U64_MAX && m.expiresAt <= U64_MAX
  }

  // ---------- 64-bit numbers ----------

  /** The number a big-endian byte string stands for. */
  function Number(s: seq<byte>): nat {
    if s == [] then 0 else Number(s[..|s| - 1]) * 256 + s[|s| - 1]
  }

  /** The lowest `n` bytes of a number, highest first. */
  function Bytes(v: nat, n: nat): (s: seq<byte>)
    ensures |s| == n
  {
    if n == 0 then [] else Bytes(v / 256, n - 1) + [v % 256]
  }

  function Power256(k: nat): (p: nat)
    ensures p > 0
  {
    if k == 0 then 1 else 256 * Power256(k - 1)
  }

  lemma {:induction false} NumberBytes(v: nat, n: nat)
    requires v < Power256(n)
    ensures Number(Bytes(v, n)) == v
  {
    if n > 0 {
      var s := Bytes(v, n);
      assert v / 256 < Power256(n - 1);
      NumberBytes(v / 256, n - 1);
      assert s[..|s| - 1] == Bytes(v / 256, n - 1);
    }
  }

  lemma {:induction false} BytesNumber(s: seq<byte>)
    ensures Bytes(Number(s), |s|) == s && Number(s) < Power256(|s|)
  {
    if s != [] {
      var front, last := s[..|s| - 1], s[|s| - 1];
      BytesNumber(front);
      assert s == front + [last];
      assert Number(s) / 256 == Number(front) && Number(s) % 256 == last;
    }
  }

  lemma PowersOf256()
    ensures Power256(0) == 1 && Power256(1) == 0x100 && Power256(2) == 0x1_0000 && Power256(3) == 0x100_0000
    ensures Power256(4) == 0x1_0000_0000 && Power256(5) == 0x100_0000_0000 && Power256(6) == 0x1_0000_0000_0000
    ensures Power256(7) == 0x100_0000_0000_0000 && Power256(8) == U64_MAX + 1
  {
  }

  /** `store_u64`. */
  method StoreU64(value: nat) returns (out: seq<byte>)
    requires value <= U64_MAX
    ensures out == Bytes(value, 8)
  {
    hide Power256;
    out := [];
    var i := 0;
    Shifted(value);
    while i < 8
      invariant i <= 8 && out == Bytes(value / Power256(8 - i), i)
    {
      ShiftLess(value, 7 - i);
      out := out + [value / Power256(7 - i) % 256];
      i := i + 1;
    }
  }

  lemma Shifted(v: nat)
    ensures v / Power256(0) == v
  {
  }

  lemma ShiftLess(v: nat, k: nat)
    requires k < 8
    ensures v / Power256(k + 1) == v / Power256(k) / 256
  {
    PowersOf256();
    if {
      case k == 0 => assert v / 0x100 == v / 1 / 256;
      case k == 1 => assert v / 0x1_0000 == v / 0x100 / 256;
      case k == 2 => assert v / 0x100_0000 == v / 0x1_0000 / 256;
      case k == 3 => assert v / 0x1_0000_0000 == v / 0x100_0000 / 256;
      case k == 4 => assert v / 0x100_0000_0000 == v / 0x1_0000_0000 / 256;
      case k == 5 => assert v / 0x1_0000_0000_0000 == v / 0x100_0000_0000 / 256;
      case k == 6 => assert v / 0x100_0000_0000_0000 == v / 0x1_0000_0000_0000 / 256;
      case k == 7 => assert v / 0x1_0000_0000_0000_0000 == v / 0x100_0000_0000_0000 / 256;
    }
  }

  /** `load_u64`: eight bytes never overflow. */
  method LoadU64(input: seq<byte>) returns (value: nat)
    requires |input| == 8
    ensures value == Number(input) <= U64_MAX
  {
    hide Power256;
    value := 0;
    var i := 0;
    while i < 8
      invariant i <= 8 && value == Number(input[..i])
    {
      assert input[..i + 1][..i] == input[..i];
      value := value * 256 + input[i];
      i := i + 1;
    }
    assert input[..8] == input;
    BytesNumber(input);
    PowersOf256();
  }

  // ---------- shape ----------

  predicate NoControl(s: seq<byte>) {
    forall i :: 0 <= i < |s| ==> s[i] >= 0x20 && s[i] != 0x7F
  }

  predicate NameFine(s: seq<byte>) {
    0 < |s| <= PROXY_MAX && Utf8.Octets(s) && NoControl(s)
  }

  predicate TimesFine(m: Manifest) {
    m.issuedAt != 0 && m.issuedAt < m.expiresAt <= m.issuedAt + LIFETIME_MAX
  }

  /** A manifest that may travel. */
  predicate Shaped(m: Manifest) {
    NameFine(m.proxyName) && TimesFine(m) && forall i :: 0 <= i < 7 ==> Nonzero(Fields(m)[i])
  }

  /** `nonzero`. */
  method AnyBit(bytes: seq<byte>) returns (any: bool)
    ensures any == Nonzero(bytes)
  {
    any := false;
    for i := 0 to |bytes|
      invariant any == exists k :: 0 <= k < i && bytes[k] != 0
    {
      any := any || bytes[i] != 0;
    }
  }

  lemma PrintableNoZero(s: seq<byte>)
    requires NoControl(s)
    ensures Utf8.NoZero(s)
  {
  }

  method CheckName(name: seq<byte>) returns (ok: bool)
    ensures ok == NameFine(name)
  {
    hide Utf8.Octets, Utf8.NoZero;
    if NoControl(name) {
      PrintableNoZero(name);
    }
    if name == [] || |name| > PROXY_MAX {
      return false;
    }
    var text := Utf8.CodePoints(name);
    if !text {
      return false;
    }
    for i := 0 to |name|
      invariant NoControl(name[..i])
    {
      if name[i] < 0x20 || name[i] == 0x7F {
        return false;
      }
    }
    assert name[..|name|] == name;
    ok := true;
  }

  /** `shape`. */
  method Shape(m: Manifest) returns (r: Result)
    requires Typed(m)
    ensures r == if Shaped(m) then Ok else InvalidArgument
  {
    hide Nonzero, NameFine, Fields;
    var name := CheckName(m.proxyName);
    if !name || m.issuedAt == 0 || m.expiresAt <= m.issuedAt || m.expiresAt - m.issuedAt > LIFETIME_MAX {
      return InvalidArgument;
    }
    for i := 0 to 7
      invariant forall k :: 0 <= k < i ==> Nonzero(Fields(m)[k])
    {
      var any := AnyBit(Fields(m)[i]);
      if !any {
        return InvalidArgument;
      }
    }
    r := Ok;
  }

  predicate InWindow(m: Manifest, now: nat) {
    m.issuedAt <= now < m.expiresAt
  }

  /** `efrp_xtcp_binding_validate`. */
  method Validate(m: Manifest, now: nat) returns (r: Result)
    requires Typed(m)
    ensures r == if !Shaped(m) then InvalidArgument else if InWindow(m, now) then Ok else Timeout
  {
    r := Shape(m);
    if r == Ok && (now < m.issuedAt || now >= m.expiresAt) {
      r := Timeout;
    }
  }

  // ---------- wire form ----------

  /** `make_spans`: the eleven parts of the wire form. */
  function Spans(m: Manifest): (s: seq<seq<byte>>)
    requires |m.proxyName| <= PROXY_MAX
    ensures |s| == 11
  {
    [Magic(), [|m.proxyName|], m.proxyName] + Fields(m) + [Bytes(m.issuedAt, 8) + Bytes(m.expiresAt, 8)]
  }

  function Wire(m: Manifest): seq<byte>
    requires |m.proxyName| <= PROXY_MAX
  {
    Joined(Spans(m))
  }

  /** Where the i-th part starts, for a name of `n` bytes. */
  function Cut(n: nat, i: nat): nat {
    if i == 0 then 0 else if i == 1 then 8 else if i == 2 then 9 else if i <= 10 then 9 + n + 32 * (i - 3) else 249 + n
  }

  predicate Sized(ss: seq<seq<byte>>, n: nat) {
    |ss| == 11 && forall i :: 0 <= i < 11 ==> |ss[i]| == Cut(n, i + 1) - Cut(n, i)
  }

  lemma SpansSized(m: Manifest)
    requires Typed(m) && |m.proxyName| <= PROXY_MAX
    ensures Sized(Spans(m), |m.proxyName|)
  {
    var s, f := Spans(m), Fields(m);
    forall i | 0 <= i < 11
      ensures |s[i]| == Cut(|m.proxyName|, i + 1) - Cut(|m.proxyName|, i)
    {
      if 3 <= i < 10 {
        assert s[i] == f[i - 3];
      }
    }
  }

  /** Parts of the right sizes join to a string exactly when they are its parts. */
  lemma {:induction false} JoinedParts(ss: seq<seq<byte>>, n: nat, wire: seq<byte>, k: nat)
    requires Sized(ss, n) && |wire| == 249 + n && k <= 11
    ensures |Joined(ss[..k])| == Cut(n, k) <= |wire|
    ensures Joined(ss[..k]) == wire[..Cut(n, k)] <==> PartsAre(ss, n, wire, k)
  {
    CutStep(n, k);
    if k > 0 {
      JoinedParts(ss, n, wire, k - 1);
      var a, i, j := Joined(ss[..k - 1]), Cut(n, k - 1), Cut(n, k);
      assert |ss[k - 1]| == j - i;
      assert ss[..k][..k - 1] == ss[..k - 1];
      assert Joined(ss[..k]) == a + ss[k - 1];
      hide Joined, Cut, Sized;
      assert wire[..j] == wire[..i] + wire[i..j];
      SameHalves(a, ss[k - 1], wire[..i], wire[i..j]);
    }
  }

  predicate PartsAre(ss: seq<seq<byte>>, n: nat, wire: seq<byte>, k: nat)
    requires |ss| == 11 && |wire| == 249 + n && k <= 11
  {
    forall i :: 0 <= i < k ==> ss[i] == wire[Cut(n, i)..Cut(n, i + 1)]
  }

  lemma CutStep(n: nat, k: nat)
    requires k <= 11
    ensures Cut(n, k) <= 249 + n && (k > 0 ==> Cut(n, k - 1) <= Cut(n, k))
  {
  }

  lemma SameHalves(a: seq<byte>, x: seq<byte>, b: seq<byte>, y: seq<byte>)
    requires |a| == |b|
    ensures a + x == b + y <==> a == b && x == y
  {
    assert (a + x)[..|a|] == a && (a + x)[|a|..] == x;
    assert (b + y)[..|a|] == b && (b + y)[|a|..] == y;
  }

  /** The wire form of a manifest, part by part. */
  lemma WireParts(m: Manifest, wire: seq<byte>)
    requires Typed(m) && |m.proxyName| <= PROXY_MAX && |wire| == 249 + |m.proxyName|
    ensures Wire(m) == wire <==> PartsAre(Spans(m), |m.proxyName|, wire, 11)
    ensures |Wire(m)| == 249 + |m.proxyName|
  {
    hide Spans, Cut, Joined;
    SpansSized(m);
    JoinedParts(Spans(m), |m.proxyName|, wire, 11);
    LastCut(|m.proxyName|);
    assert Spans(m)[..11] == Spans(m) && wire[..|wire|] == wire;
  }

  lemma LastCut(n: nat)
    ensures Cut(n, 11) == 249 + n
  {
  }

  /** What the wire says of a manifest, in terms of the parts. */
  predicate PartsOf(m: Manifest, wire: seq<byte>)
    requires |m.proxyName| <= PROXY_MAX && |wire| == 249 + |m.proxyName|
  {
    var n := |m.proxyName|;
    && wire[..8] == Magic() && wire[8] == n && m.proxyName == wire[9..9 + n]
    && (forall i :: 0 <= i < 7 ==> Fields(m)[i] == wire[9 + n + 32 * i..41 + n + 32 * i])
    && Bytes(m.issuedAt, 8) == wire[233 + n..241 + n] && Bytes(m.expiresAt, 8) == wire[241 + n..249 + n]
  }

  /** The first three parts, the seven fields and the times, each where it belongs. */
  lemma PartsPlaced(m: Manifest, wire: seq<byte>)
    requires Typed(m) && |m.proxyName| <= PROXY_MAX && |wire| == 249 + |m.proxyName| && PartsOf(m, wire)
    ensures PartsAre(Spans(m), |m.proxyName|, wire, 11)
  {
    hide Bytes, Fields;
    var n, s := |m.proxyName|, Spans(m);
    TimesParts(m, wire, n);
    forall i | 0 <= i < 11
      ensures s[i] == wire[Cut(n, i)..Cut(n, i + 1)]
    {
      if 3 <= i < 10 {
        assert s[i] == Fields(m)[i - 3];
        assert Fields(m)[i - 3] == wire[9 + n + 32 * (i - 3)..41 + n + 32 * (i - 3)];
      }
    }
  }

  lemma PartsFound(m: Manifest, wire: seq<byte>)
    requires Typed(m) && |m.proxyName| <= PROXY_MAX && |wire| == 249 + |m.proxyName|
    requires PartsAre(Spans(m), |m.proxyName|, wire, 11)
    ensures PartsOf(m, wire)
  {
    hide Bytes, Fields;
    var n, s := |m.proxyName|, Spans(m);
    TimesParts(m, wire, n);
    assert s[0] == wire[Cut(n, 0)..Cut(n, 1)] && s[1] == wire[Cut(n, 1)..Cut(n, 2)];
    assert s[2] == wire[Cut(n, 2)..Cut(n, 3)];
    assert s[10] == wire[Cut(n, 10)..Cut(n, 11)];
    forall i | 0 <= i < 7
      ensures Fields(m)[i] == wire[9 + n + 32 * i..41 + n + 32 * i]
    {
      assert s[i + 3] == Fields(m)[i];
      assert s[i + 3] == wire[Cut(n, i + 3)..Cut(n, i + 4)];
    }
  }

  lemma WireIsParts(m: Manifest, wire: seq<byte>)
    requires Typed(m) && |m.proxyName| <= PROXY_MAX && |wire| == 249 + |m.proxyName|
    ensures Wire(m) == wire <==> PartsOf(m, wire)
  {
    hide Wire, PartsOf, PartsAre, Typed;
    WireParts(m, wire);
    if PartsOf(m, wire) {
      PartsPlaced(m, wire);
    }
    if Wire(m) == wire {
      PartsFound(m, wire);
    }
  }

  lemma TimesParts(m: Manifest, wire: seq<byte>, n: nat)
    requires |wire| == 249 + n
    ensures Bytes(m.issuedAt, 8) + Bytes(m.expiresAt, 8) == wire[233 + n..249 + n] <==>
            Bytes(m.issuedAt, 8) == wire[233 + n..241 + n] && Bytes(m.expiresAt, 8) == wire[241 + n..249 + n]
  {
    hide Bytes;
    assert wire[233 + n..249 + n] == wire[233 + n..241 + n] + wire[241 + n..249 + n];
    SameHalves(Bytes(m.issuedAt, 8), Bytes(m.expiresAt, 8), wire[233 + n..241 + n], wire[241 + n..249 + n]);
  }

  /** A wire form belongs to one manifest only. */
  lemma WireInjective(x: Manifest, y: Manifest)
    requires Typed(x) && Typed(y) && |x.proxyName| <= PROXY_MAX && |y.proxyName| <= PROXY_MAX && Wire(x) == Wire(y)
    ensures x == y
  {
    hide Wire, Bytes;
    var wire := Wire(x);
    WireLength(x);
    WireLength(y);
    WireIsParts(x, wire);
    WireIsParts(y, wire);
    assert forall i :: 0 <= i < 7 ==> Fields(x)[i] == Fields(y)[i];
    FieldsApart(x, y);
    PowersOf256();
    NumberBytes(x.issuedAt, 8);
    NumberBytes(y.issuedAt, 8);
    NumberBytes(x.expiresAt, 8);
    NumberBytes(y.expiresAt, 8);
  }

  lemma WireLength(m: Manifest)
    requires Typed(m) && |m.proxyName| <= PROXY_MAX
    ensures |Wire(m)| == 249 + |m.proxyName|
  {
    WireParts(m, seq(249 + |m.proxyName|, _ => 0));
  }

  lemma FieldsApart(x: Manifest, y: Manifest)
    requires forall i :: 0 <= i < 7 ==> Fields(x)[i] == Fields(y)[i]
    ensures x.sid == y.sid && x.providerControlId == y.providerControlId && x.visitorControlId == y.visitorControlId
    ensures x.providerNonce == y.providerNonce && x.visitorNonce == y.visitorNonce
    ensures x.providerSpki == y.providerSpki && x.visitorSpki == y.visitorSpki
  {
    assert Fields(x)[0] == Fields(y)[0] && Fields(x)[1] == Fields(y)[1] && Fields(x)[2] == Fields(y)[2];
    assert Fields(x)[3] == Fields(y)[3] && Fields(x)[4] == Fields(y)[4] && Fields(x)[5] == Fields(y)[5];
    assert Fields(x)[6] == Fields(y)[6];
  }

  /** `efrp_xtcp_binding_encode`. */
  method Encode(m: Manifest, capacity: nat) returns (r: Result, wire: seq<byte>)
    requires Typed(m)
    ensures r == if !Shaped(m) then InvalidArgument else if capacity < 249 + |m.proxyName| then CapacityExceeded else Ok
    ensures r == Ok ==> wire == Wire(m) && |wire| <= capacity
    ensures r != Ok ==> wire == []
  {
    hide Bytes, Fields;
    wire := [];
    r := Shape(m);
    if r != Ok {
      return;
    }
    if capacity < 249 + |m.proxyName| {
      return CapacityExceeded, [];
    }
    var issued := StoreU64(m.issuedAt);
    var expires := StoreU64(m.expiresAt);
    var spans := [Magic(), [|m.proxyName|], m.proxyName] + Fields(m) + [issued + expires];
    WireLength(m);
    for i := 0 to |spans|
      invariant wire == Joined(spans[..i])
    {
      assert spans[..i + 1][..i] == spans[..i];
      wire := wire + spans[i];
    }
    assert spans[..|spans|] == spans;
  }

  /** The wire form of a manifest that may travel. */
  ghost predicate WireOf(m: Manifest, wire: seq<byte>) {
    Typed(m) && Shaped(m) && Wire(m) == wire
  }

  /** Reads the manifest from a wire of a fitting length. */
  method Read(wire: seq<byte>) returns (m: Manifest)
    requires |wire| >= 9 && 0 < wire[8] <= PROXY_MAX && |wire| == 249 + wire[8] as nat && wire[..8] == Magic()
    ensures Typed(m) && |m.proxyName| <= PROXY_MAX && Wire(m) == wire
  {
    hide Bytes, Number, Wire;
    var n: nat := wire[8];
    var fields: seq<seq<byte>>, offset := [], 9 + n;
    for i := 0 to 7
      invariant |fields| == i && offset == 9 + n + 32 * i
      invariant forall k :: 0 <= k < i ==> fields[k] == wire[9 + n + 32 * k..41 + n + 32 * k]
    {
      fields := fields + [wire[offset..offset + 32]];
      offset := offset + 32;
    }
    var issued := LoadU64(wire[offset..offset + 8]);
    var expires := LoadU64(wire[offset + 8..offset + 16]);
    BytesNumber(wire[offset..offset + 8]);
    BytesNumber(wire[offset + 8..offset + 16]);
    m := Manifest(wire[9..9 + n], fields[0], fields[1], fields[2], fields[3], fields[4], fields[5], fields[6], issued,
                  expires);
    assert Fields(m) == fields;
    WireIsParts(m, wire);
  }

  /** `efrp_xtcp_binding_decode`: accepts exactly the wire forms of manifests, inside their validity window. */
  method Decode(wire: seq<byte>, now: nat) returns (r: Result, m: Option<Manifest>)
    ensures r in {Ok, Timeout, ProtocolError} && (r == Ok <==> m.Some?)
    ensures r == Ok ==> WireOf(m.value, wire) && InWindow(m.value, now)
    ensures r == Timeout ==> exists x :: WireOf(x, wire) && !InWindow(x, now)
    ensures forall x :: WireOf(x, wire) ==> if InWindow(x, now) then m == Some(x) else r == Timeout
  {
    hide Wire, Shaped, Typed;
    m := None;
    if |wire| < 250 || |wire| > WIRE_MAX || wire[..8] != Magic() || wire[8] == 0 || wire[8] > PROXY_MAX ||
       |wire| != 249 + wire[8] as nat {
      NoManifest(wire);
      return ProtocolError, None;
    }
    var x := Read(wire);
    OneManifest(x, wire);
    r := Validate(x, now);
    if r == Ok {
      m := Some(x);
    } else if r == InvalidArgument {
      r := ProtocolError;
    } else {
      assert WireOf(x, wire) && !InWindow(x, now);
    }
  }

  lemma NoManifest(wire: seq<byte>)
    requires |wire| < 250 || |wire| > WIRE_MAX || wire[..8] != Magic() || wire[8] == 0 || wire[8] > PROXY_MAX ||
             |wire| != 249 + wire[8] as nat
    ensures forall x :: !WireOf(x, wire)
  {
    hide Wire;
    forall x
      ensures !WireOf(x, wire)
    {
      if WireOf(x, wire) {
        WireLength(x);
        WireIsParts(x, wire);
        assert false;
      }
    }
  }

  lemma OneManifest(m: Manifest, wire: seq<byte>)
    requires Typed(m) && |m.proxyName| <= PROXY_MAX && Wire(m) == wire
    ensures forall x :: WireOf(x, wire) ==> x == m
  {
    hide Wire;
    forall x | WireOf(x, wire)
      ensures x == m
    {
      WireInjective(x, m);
    }
  }

  /** Inside its validity window a manifest is decoded from what it was encoded to. */
  method RoundTrip(m: Manifest, capacity: nat, now: nat) returns (r: Result, back: Option<Manifest>)
    requires Typed(m)
    ensures Shaped(m) && capacity >= 249 + |m.proxyName| ==>
              if InWindow(m, now) then r == Ok && back == Some(m) else r == Timeout
  {
    var wire;
    back := None;
    r, wire := Encode(m, capacity);
    if r == Ok {
      hide Wire;
      assert WireOf(m, wire);
      r, back := Decode(wire, now);
    }
  }

  /** Encoding an accepted wire reproduces it byte for byte. */
  method Reencode(wire: seq<byte>, now: nat) returns (accepted: bool, again: seq<byte>)
    ensures accepted ==> again == wire
    ensures (exists x :: WireOf(x, wire) && InWindow(x, now)) ==> accepted
  {
    hide Wire;
    var r, m := Decode(wire, now);
    accepted, again := r == Ok, [];
    if accepted {
      r, again := Encode(m.value, WIRE_MAX);
    }
  }
}
