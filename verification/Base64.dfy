/** Canonical base64 (sections 3.5 and 4 of RFC 4648) and the handshake's own 32-byte codec. */
module Base64 {
  import opened Efrp

  type digit = d: int | 0 <= d < 64

  const PAD: char := '='

  /** The alphabet of section 4 of RFC 4648. */
  function Letter(d: digit): char {
    if d < 26 then 'A' + d as char
    else if d < 52 then 'a' + (d - 26) as char
    else if d < 62 then '0' + (d - 52) as char
    else if d == 62 then '+' else '/'
  }

  /** `base64_value`: the position in the alphabet, or -1. */
  function Value(c: char): (v: int)
    ensures -1 <= v < 64 && (v >= 0 ==> Letter(v) == c)
    ensures c == PAD ==> v == -1
  {
    if 'A' <= c <= 'Z' then c as int - 'A' as int
    else if 'a' <= c <= 'z' then c as int - 'a' as int + 26
    else if '0' <= c <= '9' then c as int - '0' as int + 52
    else if c == '+' then 62
    else if c == '/' then 63
    else -1
  }

  lemma LetterValue(d: digit)
    ensures Value(Letter(d)) == d && Letter(d) != PAD
  {
  }

  // ---------- reference ----------

  function Quad1(a: byte): (s: string)
    ensures |s| == 4
  {
    [Letter(a / 4), Letter(a % 4 * 16), PAD, PAD]
  }

  function Quad2(a: byte, b: byte): (s: string)
    ensures |s| == 4
  {
    [Letter(a / 4), Letter(a % 4 * 16 + b / 16), Letter(b % 16 * 4), PAD]
  }

  function Quad3(a: byte, b: byte, c: byte): (s: string)
    ensures |s| == 4
  {
    [Letter(a / 4), Letter(a % 4 * 16 + b / 16), Letter(b % 16 * 4 + c / 64), Letter(c % 64)]
  }

  /** The text of a byte string. */
  function Encode(bytes: seq<byte>): (s: string)
    ensures |s| == (|bytes| + 2) / 3 * 4
  {
    if bytes == [] then ""
    else if |bytes| == 1 then Quad1(bytes[0])
    else if |bytes| == 2 then Quad2(bytes[0], bytes[1])
    else Quad3(bytes[0], bytes[1], bytes[2]) + Encode(bytes[3..])
  }

  /** A group of four letters without padding. */
  predicate Full(s: string) {
    |s| == 4 && forall i :: 0 <= i < 4 ==> Value(s[i]) >= 0
  }

  /** A last group: padding only at its end and no stray bits before it. */
  predicate Padded(s: string) {
    && |s| == 4 && Value(s[0]) >= 0 && Value(s[1]) >= 0 && s[3] == PAD
    && (if s[2] == PAD then Value(s[1]) % 16 == 0 else Value(s[2]) >= 0 && Value(s[2]) % 4 == 0)
  }

  function Bytes3(s: string): (r: seq<byte>)
    requires Full(s)
    ensures |r| == 3
  {
    [Value(s[0]) * 4 + Value(s[1]) / 16, Value(s[1]) % 16 * 16 + Value(s[2]) / 4, Value(s[2]) % 4 * 64 + Value(s[3])]
  }

  function BytesPadded(s: string): seq<byte>
    requires Padded(s)
  {
    if s[2] == PAD then [Value(s[0]) * 4 + Value(s[1]) / 16]
    else [Value(s[0]) * 4 + Value(s[1]) / 16, Value(s[1]) % 16 * 16 + Value(s[2]) / 4]
  }

  /** The byte string of a canonical text. */
  function Decode(s: string): Option<seq<byte>> {
    if s == "" then Some([])
    else if |s| < 4 then None
    else if Full(s[..4]) then
      (match Decode(s[4..]) case Some(rest) => Some(Bytes3(s[..4]) + rest) case None => None)
    else if |s| == 4 && Padded(s) then Some(BytesPadded(s))
    else None
  }

  // ---------- bijection ----------

  lemma By4(h: nat, l: nat)
    requires l < 4
    ensures (h * 4 + l) / 4 == h && (h * 4 + l) % 4 == l
  {
  }

  lemma By16(h: nat, l: nat)
    requires l < 16
    ensures (h * 16 + l) / 16 == h && (h * 16 + l) % 16 == l
  {
  }

  lemma By64(h: nat, l: nat)
    requires l < 64
    ensures (h * 64 + l) / 64 == h && (h * 64 + l) % 64 == l
  {
  }

  lemma By256(h: nat, l: nat)
    requires l < 256
    ensures (h * 256 + l) / 256 == h && (h * 256 + l) % 256 == l
  {
  }

  lemma Quad3Bytes(a: byte, b: byte, c: byte)
    ensures Full(Quad3(a, b, c)) && Bytes3(Quad3(a, b, c)) == [a, b, c]
  {
    hide Letter, Value;
    LetterValue(a / 4);
    LetterValue(a % 4 * 16 + b / 16);
    LetterValue(b % 16 * 4 + c / 64);
    By16(a % 4, b / 16);
    By4(b % 16, c / 64);
    LetterValue(c % 64);
  }

  lemma Quad1Bytes(a: byte)
    ensures Padded(Quad1(a)) && !Full(Quad1(a)) && BytesPadded(Quad1(a)) == [a]
  {
    hide Letter, Value;
    LetterValue(a / 4);
    LetterValue(a % 4 * 16);
    assert Value(Quad1(a)[3]) < 0;
  }

  lemma Quad2Bytes(a: byte, b: byte)
    ensures Padded(Quad2(a, b)) && !Full(Quad2(a, b)) && BytesPadded(Quad2(a, b)) == [a, b]
  {
    hide Letter, Value;
    LetterValue(a / 4);
    LetterValue(a % 4 * 16 + b / 16);
    LetterValue(b % 16 * 4);
    By16(a % 4, b / 16);
    assert Value(Quad2(a, b)[3]) < 0;
  }

  /** Every byte string is decoded from its text. */
  lemma {:induction false} DecodeEncode(bytes: seq<byte>)
    ensures Decode(Encode(bytes)) == Some(bytes)
  {
    hide Letter, Value, Quad1, Quad2, Quad3, Full, Padded, Bytes3, BytesPadded;
    var s := Encode(bytes);
    if |bytes| >= 3 {
      var q := Quad3(bytes[0], bytes[1], bytes[2]);
      Quad3Bytes(bytes[0], bytes[1], bytes[2]);
      DecodeEncode(bytes[3..]);
      assert s[..4] == q && s[4..] == Encode(bytes[3..]);
      assert bytes == [bytes[0], bytes[1], bytes[2]] + bytes[3..];
    } else if |bytes| == 2 {
      Quad2Bytes(bytes[0], bytes[1]);
      assert s[..4] == s;
      assert bytes == [bytes[0], bytes[1]];
    } else if |bytes| == 1 {
      Quad1Bytes(bytes[0]);
      assert s[..4] == s;
      assert bytes == [bytes[0]];
    }
  }

  lemma Bytes3Quad(s: string)
    requires Full(s)
    ensures Quad3(Bytes3(s)[0], Bytes3(s)[1], Bytes3(s)[2]) == s
  {
    hide Letter, Value;
    var a, b, c, d := Value(s[0]), Value(s[1]), Value(s[2]), Value(s[3]);
    By4(a, b / 16);
    By16(b % 16, c / 4);
    By64(c % 4, d);
    assert s == [Letter(a), Letter(b), Letter(c), Letter(d)];
  }

  lemma PaddedQuad(s: string)
    requires Padded(s)
    ensures Encode(BytesPadded(s)) == s
  {
    hide Letter, Value;
    var a, b := Value(s[0]), Value(s[1]);
    By4(a, b / 16);
    if s[2] == PAD {
      assert s == [Letter(a), Letter(b), PAD, PAD];
    } else {
      By16(b % 16, Value(s[2]) / 4);
      assert s == [Letter(a), Letter(b), Letter(Value(s[2])), PAD];
    }
  }

  /** Every accepted text is the text of what it decodes to: no other text is accepted. */
  lemma {:induction false} EncodeDecode(s: string)
    requires Decode(s).Some?
    ensures Encode(Decode(s).value) == s
  {
    hide Letter, Value, Quad1, Quad2, Quad3, Full, Padded, Bytes3, BytesPadded;
    if s == "" {
    } else if Full(s[..4]) {
      Bytes3Quad(s[..4]);
      EncodeDecode(s[4..]);
      EncodeFirst(Bytes3(s[..4]), Decode(s[4..]).value);
      assert s == s[..4] + s[4..];
    } else {
      PaddedQuad(s);
    }
  }

  lemma EncodeFirst(three: seq<byte>, rest: seq<byte>)
    requires |three| == 3
    ensures Encode(three + rest) == Quad3(three[0], three[1], three[2]) + Encode(rest)
  {
    hide Quad3;
    assert (three + rest)[3..] == rest;
  }

  // ---------- encoding by words ----------

  /** The 24-bit word of a group. */
  function Word(a: byte, b: byte, c: byte): nat {
    a * 0x10000 + b * 0x100 + c
  }

  lemma WordDigits(a: byte, b: byte, c: byte)
    ensures var x := Word(a, b, c);
            && x / 0x40000 % 64 == a / 4 && x / 0x1000 % 64 == a % 4 * 16 + b / 16
            && x / 64 % 64 == b % 16 * 4 + c / 64 && x % 64 == c % 64
  {
    var x := Word(a, b, c);
    assert x / 0x40000 == a / 4;
    assert x / 0x1000 == a * 16 + b / 16;
    assert x / 64 == a * 1024 + b * 4 + c / 64;
  }

  /** The letters of the group that starts at `i`, as the word-based encoders write them. */
  function GroupAt(bytes: seq<byte>, i: nat): string
    requires i < |bytes|
  {
    var n := |bytes|;
    var x := Word(bytes[i], if i + 1 < n then bytes[i + 1] else 0, if i + 2 < n then bytes[i + 2] else 0);
    [Letter(x / 0x40000 % 64), Letter(x / 0x1000 % 64),
     if i + 1 < n then Letter(x / 64 % 64) else PAD, if i + 2 < n then Letter(x % 64) else PAD]
  }

  lemma GroupEncodes(bytes: seq<byte>, i: nat)
    requires i < |bytes|
    ensures Encode(bytes[i..]) == GroupAt(bytes, i) + Encode(bytes[Min(i + 3, |bytes|)..])
  {
    hide Letter;
    var n, t := |bytes|, bytes[i..];
    WordDigits(bytes[i], if i + 1 < n then bytes[i + 1] else 0, if i + 2 < n then bytes[i + 2] else 0);
    if i + 3 <= n {
      assert t[3..] == bytes[i + 3..];
    } else {
      assert Encode(bytes[n..]) == "";
    }
  }

  /** `base64_encode`. */
  method EncodeText(bytes: seq<byte>) returns (s: string)
    ensures s == Encode(bytes)
  {
    hide Encode, GroupAt;
    var i := 0;
    s := "";
    assert bytes[0..] == bytes;
    while i < |bytes|
      invariant i <= |bytes| + 2
      invariant s + Encode(bytes[Min(i, |bytes|)..]) == Encode(bytes)
    {
      GroupEncodes(bytes, i);
      s := s + GroupAt(bytes, i);
      i := i + 3;
    }
    EncodeNothing(bytes[|bytes|..]);
  }

  lemma EncodeNothing(bytes: seq<byte>)
    requires bytes == []
    ensures Encode(bytes) == ""
  {
  }

  /** The handshake's encoder: its third letter is never padding. */
  method EncodeRandom(random: seq<byte>) returns (s: string)
    requires |random| == 32
    ensures s == Encode(random)
  {
    hide Encode, Letter, Word;
    var i := 0;
    s := "";
    assert random[0..] == random;
    while i < 32
      invariant i <= 33 && i % 3 == 0
      invariant s + Encode(random[Min(i, 32)..]) == Encode(random)
    {
      GroupEncodes(random, i);
      var x := Word(random[i], if i + 1 < 32 then random[i + 1] else 0, if i + 2 < 32 then random[i + 2] else 0);
      var group := [Letter(x / 0x40000 % 64), Letter(x / 0x1000 % 64), Letter(x / 64 % 64),
                    if i + 2 < 32 then Letter(x % 64) else PAD];
      assert group == GroupAt(random, i);
      s := s + group;
      i := i + 3;
    }
    EncodeNothing(random[32..]);
  }

  // ---------- decoding by words ----------

  /** The word of four letter values. */
  function Word4(a: digit, b: digit, c: digit, d: digit): nat {
    a * 0x40000 + b * 0x1000 + c * 64 + d
  }

  lemma WordBytes(a: digit, b: digit, c: digit, d: digit)
    ensures var x := Word4(a, b, c, d);
            && x / 0x10000 % 256 == a * 4 + b / 16 && x / 0x100 % 256 == b % 16 * 16 + c / 4
            && x % 256 == c % 4 * 64 + d
  {
    var x, y, z, w := Word4(a, b, c, d), a * 4 + b / 16, b % 16 * 16 + c / 4, c % 4 * 64 + d;
    assert x == (y * 256 + z) * 256 + w;
    By256(y * 256 + z, w);
    By256(y, z);
    assert x / 0x10000 == x / 0x100 / 0x100;
  }

  /** What `base64_decode` asks of a group. */
  predicate GroupAccepted(q: string, last: bool)
    requires |q| == 4
  {
    var pad2, pad3 := q[2] == PAD, q[3] == PAD;
    var b, c, d := Value(q[1]), if pad2 then 0 else Value(q[2]), if pad3 then 0 else Value(q[3]);
    !(Value(q[0]) < 0 || b < 0 || c < 0 || d < 0 || (pad2 && !pad3) || ((pad2 || pad3) && !last) ||
      (pad2 && b % 16 != 0) || (!pad2 && pad3 && c % 4 != 0))
  }

  /** The bytes `base64_decode` and `decode_control_id` make of an accepted group. */
  function GroupBytes(q: string): (r: seq<byte>)
    requires |q| == 4 && GroupAccepted(q, true)
    ensures 1 <= |r| <= 3
  {
    var pad2, pad3 := q[2] == PAD, q[3] == PAD;
    var x := Word4(Value(q[0]), Value(q[1]), if pad2 then 0 else Value(q[2]), if pad3 then 0 else Value(q[3]));
    [x / 0x10000 % 256] + (if pad2 then [] else [x / 0x100 % 256] + if pad3 then [] else [x % 256])
  }

  lemma GroupDecodes(q: string, last: bool)
    requires |q| == 4
    ensures GroupAccepted(q, last) <==> Full(q) || (last && Padded(q))
    ensures Full(q) ==> GroupBytes(q) == Bytes3(q)
    ensures Padded(q) ==> !Full(q) && GroupBytes(q) == BytesPadded(q)
  {
    hide Value, Letter, Word4;
    assert Full(q) <==> Value(q[0]) >= 0 && Value(q[1]) >= 0 && Value(q[2]) >= 0 && Value(q[3]) >= 0;
    if GroupAccepted(q, true) {
      WordBytes(Value(q[0]), Value(q[1]), if q[2] == PAD then 0 else Value(q[2]),
                if q[3] == PAD then 0 else Value(q[3]));
    }
  }

  /** `r` after the bytes `out`. */
  function After(out: seq<byte>, r: Option<seq<byte>>): Option<seq<byte>> {
    if r.Some? then Some(out + r.value) else None
  }

  lemma DecodeStep(s: string, i: nat)
    requires i + 4 <= |s| && (|s| - i) % 4 == 0
    ensures var q := s[i..i + 4];
            if GroupAccepted(q, i + 4 == |s|) then
              GroupAccepted(q, true) && Decode(s[i..]) == After(GroupBytes(q), Decode(s[i + 4..]))
            else
              Decode(s[i..]).None?
  {
    hide Value, Letter, GroupAccepted, GroupBytes, Full, Padded, Bytes3, BytesPadded;
    var t := s[i..];
    assert t[..4] == s[i..i + 4] && t[4..] == s[i + 4..];
    GroupDecodes(s[i..i + 4], i + 4 == |s|);
    GroupDecodes(s[i..i + 4], true);
    if |t| == 4 {
      assert t == t[..4] && t[4..] == "";
      if Padded(t) {
        assert GroupBytes(t) + [] == GroupBytes(t);
      }
    }
  }

  /** `base64_decode` into a buffer of `cap` bytes. */
  method DecodeText(s: string, cap: nat) returns (ok: bool, out: seq<byte>)
    ensures ok <==> s != "" && Decode(s).Some? && |Decode(s).value| <= cap
    ensures ok ==> out == Decode(s).value
  {
    hide Value, Letter, GroupAccepted, GroupBytes, Decode;
    out := [];
    var n := |s|;
    if n == 0 {
      return false, [];
    }
    if n % 4 != 0 || n / 4 > (cap + 2) / 3 {
      WrongLength(s, cap);
      return false, [];
    }
    var i := 0;
    assert s[0..] == s;
    assert Decode(s).Some? ==> [] + Decode(s).value == Decode(s).value;
    while i < n
      invariant i <= n && i % 4 == 0 && |out| <= cap
      invariant Decode(s) == After(out, Decode(s[i..]))
    {
      DecodeStep(s, i);
      var q := s[i..i + 4];
      if !GroupAccepted(q, i + 4 == n) {
        return false, [];
      }
      var group := GroupBytes(q);
      if |group| > cap - |out| {
        return false, [];
      }
      AfterBoth(out, group, Decode(s[i + 4..]));
      out := out + group;
      i := i + 4;
    }
    DecodeNothing(s[n..]);
    ok := true;
  }

  lemma {:induction false} DecodeLength(s: string)
    ensures Decode(s).Some? ==> |s| == (|Decode(s).value| + 2) / 3 * 4
  {
    hide Full, Padded;
    if |s| >= 4 {
      DecodeLength(s[4..]);
    }
  }

  lemma WrongLength(s: string, cap: nat)
    requires |s| % 4 != 0 || |s| / 4 > (cap + 2) / 3
    ensures Decode(s).Some? ==> |Decode(s).value| > cap
  {
    hide Decode;
    DecodeLength(s);
  }

  lemma AfterBoth(a: seq<byte>, b: seq<byte>, r: Option<seq<byte>>)
    ensures After(a, After(b, r)) == After(a + b, r)
  {
    if r.Some? {
      assert a + (b + r.value) == a + b + r.value;
    }
  }

  lemma DecodeNothing(s: string)
    requires s == ""
    ensures Decode(s) == Some([])
  {
  }

  // ---------- the handshake's 32-byte decoder ----------

  /** Groups of letters of which only the last ends in padding, with no stray bits before it. */
  predicate OnePad(s: string) {
    && |s| >= 4 && |s| % 4 == 0 && s[|s| - 1] == PAD
    && (forall i :: 0 <= i < |s| - 1 ==> Value(s[i]) >= 0) && Value(s[|s| - 2]) % 4 == 0
  }

  lemma OnePadFull(s: string)
    requires |s| > 4 && |s| % 4 == 0
    ensures OnePad(s) <==> Full(s[..4]) && OnePad(s[4..])
  {
    hide Value;
    var t := s[4..];
    assert forall i :: 0 <= i < |t| ==> t[i] == s[i + 4];
    if Full(s[..4]) && OnePad(t) {
      forall i | 0 <= i < |s| - 1
        ensures Value(s[i]) >= 0
      {
        assert i < 4 ==> s[..4][i] == s[i];
        assert i >= 4 ==> t[i - 4] == s[i];
      }
    }
  }

  lemma OnePadLast(s: string)
    requires |s| == 4
    ensures OnePad(s) <==> Padded(s) && s[2] != PAD
  {
    hide Value;
    if Padded(s) && s[2] != PAD {
      forall i | 0 <= i < 3
        ensures Value(s[i]) >= 0
      {
        assert i == 0 || i == 1 || i == 2;
      }
    }
  }

  /** Such texts are the texts of the byte strings one byte short of a whole group. */
  lemma {:induction false} OnePadDecodes(s: string)
    requires |s| >= 4 && |s| % 4 == 0
    ensures OnePad(s) <==> Decode(s).Some? && |Decode(s).value| % 3 == 2
  {
    hide Value, OnePad, Full, Padded, Decode;
    if |s| > 4 {
      OnePadFull(s);
      OnePadDecodes(s[4..]);
      DecodeFirst(s);
    } else {
      OnePadLast(s);
      DecodeLast(s);
    }
  }

  lemma DecodeFirst(s: string)
    requires |s| > 4
    ensures Decode(s) == if Full(s[..4]) then After(Bytes3(s[..4]), Decode(s[4..])) else None
  {
    hide Full, Padded;
  }

  lemma DecodeLast(s: string)
    requires |s| == 4
    ensures Decode(s).Some? <==> Full(s) || Padded(s)
    ensures Full(s) ==> Decode(s).Some? && |Decode(s).value| == 3
    ensures Padded(s) ==> !Full(s) && Decode(s).Some? && |Decode(s).value| == if s[2] == PAD then 1 else 2
  {
    assert s[..4] == s && s[4..] == "";
    GroupDecodes(s, true);
    hide Value, Full, Padded, Bytes3;
  }

  /** `random_valid`. */
  method RandomValid(s: string) returns (ok: bool)
    ensures ok <==> |s| == 44 && OnePad(s)
  {
    hide Value;
    if |s| != 44 || s[43] != PAD {
      return false;
    }
    var i := 0;
    while i < 43
      invariant i <= 43
      invariant forall k :: 0 <= k < i ==> Value(s[k]) >= 0
      invariant i == 43 ==> Value(s[42]) % 4 == 0
    {
      if Value(s[i]) < 0 || (i == 42 && Value(s[i]) % 4 != 0) {
        return false;
      }
      i := i + 1;
    }
    ok := true;
  }

  /** The six-bit values of four letters, padding as nothing, shifted into one word. */
  method ShiftIn(q: string) returns (x: nat)
    requires |q| == 4 && forall i :: 0 <= i < 4 ==> q[i] == PAD || Value(q[i]) >= 0
    ensures x == Word4(if q[0] == PAD then 0 else Value(q[0]), if q[1] == PAD then 0 else Value(q[1]),
                       if q[2] == PAD then 0 else Value(q[2]), if q[3] == PAD then 0 else Value(q[3]))
  {
    hide Value;
    x := 0;
    ghost var d := seq(4, i requires 0 <= i < 4 => if q[i] == PAD then 0 else Value(q[i]));
    var j := 0;
    while j < 4
      invariant j <= 4
      invariant j == 0 ==> x == 0
      invariant j == 1 ==> x == d[0]
      invariant j == 2 ==> x == d[0] * 64 + d[1]
      invariant j == 3 ==> x == d[0] * 4096 + d[1] * 64 + d[2]
      invariant j == 4 ==> x == d[0] * 262144 + d[1] * 4096 + d[2] * 64 + d[3]
    {
      x := x * 64;
      if q[j] != PAD {
        x := x + Value(q[j]);
      }
      j := j + 1;
    }
  }

  /** The byte of a 24-bit word that lies `16 - 8 * j` bits up. */
  function ByteOf(x: nat, j: nat): byte {
    if j == 0 then x / 0x10000 % 256 else if j == 1 then x / 0x100 % 256 else x % 256
  }

  /** The bytes of a word from the highest down, as many as still fit into 32. */
  method TakeBytes(x: nat, at: nat, before: bool) returns (out: seq<byte>, any: bool)
    requires at <= 32
    ensures |out| == Min(3, 32 - at)
    ensures forall j :: 0 <= j < |out| ==> out[j] == ByteOf(x, j)
    ensures any == (before || Nonzero(out))
  {
    hide ByteOf;
    out, any := [], before;
    var j := 0;
    while j < 3 && at + j < 32
      invariant |out| == j <= 3 && at + j <= 32
      invariant forall k :: 0 <= k < j ==> out[k] == ByteOf(x, k)
      invariant any == (before || Nonzero(out))
    {
      NonzeroBoth(out, [ByteOf(x, j)]);
      out := out + [ByteOf(x, j)];
      any := any || ByteOf(x, j) != 0;
      j := j + 1;
    }
  }

  /** One group of `decode_control_id`. */
  method TakeGroup(q: string, at: nat, before: bool) returns (out: seq<byte>, any: bool)
    requires |q| == 4 && GroupAccepted(q, true) && at <= 32 && |GroupBytes(q)| == Min(3, 32 - at)
    ensures out == GroupBytes(q) && any == (before || Nonzero(out))
  {
    hide Value, Word4, Nonzero;
    assert forall i :: 0 <= i < 4 ==> q[i] == PAD || Value(q[i]) >= 0;
    var x := ShiftIn(q);
    out, any := TakeBytes(x, at, before);
  }

  /** `decode_control_id`: exactly the canonical texts of non-zero 32-byte values. */
  method DecodeControlId(s: string) returns (ok: bool, out: seq<byte>)
    ensures ok <==> Decode(s).Some? && |Decode(s).value| == 32 && Nonzero(Decode(s).value)
    ensures ok ==> out == Decode(s).value && s == Encode(out)
  {
    hide Value, Letter, OnePad, Decode, Encode, GroupAccepted, GroupBytes, Nonzero;
    out := [];
    var valid := RandomValid(s);
    DecodeLength(s);
    if |s| == 44 {
      OnePadDecodes(s);
    }
    if !valid {
      return false, [];
    }
    EncodeDecode(s);
    var any, i := false, 0;
    assert s[0..] == s;
    assert [] + Decode(s).value == Decode(s).value;
    NothingNonzero(out);
    while i < 44
      invariant i <= 44 && i % 4 == 0 && |out| == Min(i / 4 * 3, 32)
      invariant Decode(s) == After(out, Decode(s[i..])) && any == Nonzero(out)
    {
      DecodeStep(s, i);
      if i + 4 == 44 {
        DecodeNothing(s[44..]);
      } else {
        FullBytes(s[i..i + 4]);
      }
      var group;
      group, any := TakeGroup(s[i..i + 4], |out|, any);
      AfterBoth(out, group, Decode(s[i + 4..]));
      NonzeroBoth(out, group);
      out := out + group;
      i := i + 4;
    }
    DecodeNothing(s[44..]);
    assert out + [] == out;
    ok := any;
  }

  lemma FullBytes(q: string)
    requires |q| == 4 && GroupAccepted(q, false)
    ensures GroupAccepted(q, true) && |GroupBytes(q)| == 3
  {
    hide Value;
  }

  lemma NothingNonzero(a: seq<byte>)
    requires a == []
    ensures !Nonzero(a)
  {
  }

  lemma NonzeroBoth(a: seq<byte>, b: seq<byte>)
    ensures Nonzero(a + b) == (Nonzero(a) || Nonzero(b))
  {
    if k :| 0 <= k < |a| && a[k] != 0 {
      assert (a + b)[k] != 0;
    } else if k :| 0 <= k < |b| && b[k] != 0 {
      assert (a + b)[|a| + k] != 0;
    }
  }
}
