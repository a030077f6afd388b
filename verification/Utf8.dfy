/**
 The two UTF-8 validators, one by byte ranges and one by code points, against the grammar in
 section 4 of RFC 3629.
 */
module Utf8 {
  import opened Efrp

  predicate Tail(b: byte) {
    0x80 <= b <= 0xBF
  }

  /** `UTF8-2`, `UTF8-3` and `UTF8-4` of the grammar. */
  predicate Two(a: byte, b: byte) {
    0xC2 <= a <= 0xDF && Tail(b)
  }

  predicate Three(a: byte, b: byte, c: byte) {
    || (a == 0xE0 && 0xA0 <= b <= 0xBF && Tail(c))
    || (0xE1 <= a <= 0xEC && Tail(b) && Tail(c))
    || (a == 0xED && 0x80 <= b <= 0x9F && Tail(c))
    || (0xEE <= a <= 0xEF && Tail(b) && Tail(c))
  }

  predicate Four(a: byte, b: byte, c: byte, d: byte) {
    || (a == 0xF0 && 0x90 <= b <= 0xBF && Tail(c) && Tail(d))
    || (0xF1 <= a <= 0xF3 && Tail(b) && Tail(c) && Tail(d))
    || (a == 0xF4 && 0x80 <= b <= 0x8F && Tail(c) && Tail(d))
  }

  /** The length of the character at the front, or zero if there is none. */
  function CharLength(s: seq<byte>): (n: nat)
    ensures n <= |s|
  {
    if |s| >= 1 && s[0] <= 0x7F then 1
    else if |s| >= 2 && Two(s[0], s[1]) then 2
    else if |s| >= 3 && Three(s[0], s[1], s[2]) then 3
    else if |s| >= 4 && Four(s[0], s[1], s[2], s[3]) then 4
    else 0
  }

  /** `UTF8-octets`: any number of characters. */
  predicate Octets(s: seq<byte>)
    decreases |s|
  {
    s == [] || (CharLength(s) > 0 && Octets(s[CharLength(s)..]))
  }

  /** What is left from position `i` on decides, once everything before it is characters. */
  lemma OctetsFrom(s: seq<byte>, i: nat, n: nat)
    requires i + n <= |s| && n > 0 && n == CharLength(s[i..])
    ensures Octets(s[i..]) == Octets(s[i + n..])
  {
    assert s[i..][n..] == s[i + n..];
  }

  /** How many bytes follow the lead byte, by its range alone. */
  function Extra(a: byte): nat {
    if a < 0x80 then 0 else if 0xC2 <= a <= 0xDF then 1
    else if 0xE0 <= a <= 0xEF then 2 else if 0xF0 <= a <= 0xF4 then 3 else 4
  }

  /** Lead bytes and lengths of the grammar. */
  lemma LeadBytes(s: seq<byte>)
    requires s != []
    ensures var k := Extra(s[0]); CharLength(s) == 0 || CharLength(s) == 1 + k
    ensures Extra(s[0]) == 4 ==> CharLength(s) == 0
  {
  }

  // ---------- valid_utf8: byte ranges ----------

  /** The range of the byte after the lead byte. */
  function Low(a: byte): byte {
    if a == 0xE0 then 0xA0 else if a == 0xF0 then 0x90 else 0x80
  }

  function High(a: byte): byte {
    if a == 0xED then 0x9F else if a == 0xF4 then 0x8F else 0xBF
  }

  /** `valid_utf8`. */
  method ByteRanges(bytes: seq<byte>) returns (valid: bool)
    ensures valid == Octets(bytes)
  {
    var i := 0;
    assert bytes[0..] == bytes;
    while i < |bytes|
      invariant i <= |bytes| && Octets(bytes) == Octets(bytes[i..])
      decreases |bytes| - i
    {
      var next := RangesChar(bytes, i);
      if next == i {
        return false;
      }
      OctetsFrom(bytes, i, next - i);
      i := next;
    }
    assert bytes[i..] == [];
    return true;
  }

  /** One turn of its loop: where the character at `at` ends, or `at` if there is none. */
  method RangesChar(bytes: seq<byte>, at: nat) returns (next: nat)
    requires at < |bytes|
    ensures next == at + CharLength(bytes[at..])
  {
    var first := bytes[at];
    ghost var t := bytes[at..];
    LeadBytes(t);
    var count := Extra(first);
    if count == 4 {
      return at;
    }
    var i := at + 1;
    if count > 0 {
      if |bytes| - i < count || bytes[i] < Low(first) || bytes[i] > High(first) {
        return at;
      }
      i := i + 1;
      var k := 1;
      while k < count
        invariant 1 <= k <= count && i == at + 1 + k && i + (count - k) <= |bytes|
        invariant forall m :: 2 <= m <= k ==> Tail(t[m])
      {
        assert bytes[i] == t[k + 1];
        if bytes[i] < 0x80 || bytes[i] > 0xBF {
          CharTails(t);
          return at;
        }
        i, k := i + 1, k + 1;
      }
    }
    RangesAgree(t);
    return i;
  }

  /** The range checks accept exactly a character of the grammar. */
  lemma RangesAgree(t: seq<byte>)
    requires t != []
    ensures CharLength(t) == if InRanges(t) then 1 + Extra(t[0]) else 0
  {
    if InRanges(t) && Extra(t[0]) >= 2 {
      assert Tail(t[2]);
    }
    if InRanges(t) && Extra(t[0]) == 3 {
      assert Tail(t[3]);
    }
  }

  /** The checks of the range table on the character at the front. */
  predicate InRanges(t: seq<byte>)
    requires t != []
  {
    && Extra(t[0]) < 4 && Extra(t[0]) < |t| && (Extra(t[0]) >= 1 ==> Low(t[0]) <= t[1] <= High(t[0]))
    && forall m :: 2 <= m <= Extra(t[0]) ==> Tail(t[m])
  }

  // ---------- efrp_json_utf8: code points ----------

  /** The bits of the lead byte that belong to the code point, and the smallest code point of its length. */
  function LeadBits(a: byte): nat {
    if Extra(a) == 1 then a % 32 else if Extra(a) == 2 then a % 16 else a % 8
  }

  function Minimum(extra: nat): nat {
    if extra == 1 then 0x80 else if extra == 2 then 0x800 else 0x1_0000
  }

  predicate ScalarValue(cp: nat, extra: nat) {
    Minimum(extra) <= cp <= 0x10_FFFF && !(0xD800 <= cp <= 0xDFFF)
  }

  /** The code point of a lead byte and `n` continuation bytes. */
  function CodePoint(s: seq<byte>, n: nat): nat
    requires n < |s|
  {
    if n == 0 then LeadBits(s[0]) else CodePoint(s, n - 1) * 64 + s[n] % 64
  }

  /** A scalar value in its shortest form is exactly a character of the grammar. */
  lemma ScalarChar(s: seq<byte>)
    requires s != [] && 1 <= Extra(s[0]) <= 3 && Extra(s[0]) < |s|
    requires forall m :: 1 <= m <= Extra(s[0]) ==> Tail(s[m])
    ensures (CharLength(s) == 1 + Extra(s[0])) == ScalarValue(CodePoint(s, Extra(s[0])), Extra(s[0]))
  {
    assert Tail(s[1]);
    if Extra(s[0]) == 1 {
      assert CodePoint(s, 1) == LeadBits(s[0]) * 64 + s[1] % 64;
    } else if Extra(s[0]) == 2 {
      assert Tail(s[2]);
      Scalar3(s[0], s[1], s[2]);
      assert CodePoint(s, 1) == LeadBits(s[0]) * 64 + s[1] % 64;
    } else {
      assert Tail(s[2]) && Tail(s[3]);
      Scalar4(s[0], s[1], s[2], s[3]);
      assert CodePoint(s, 1) == LeadBits(s[0]) * 64 + s[1] % 64;
      assert CodePoint(s, 2) == CodePoint(s, 1) * 64 + s[2] % 64;
    }
  }

  lemma Scalar3(a: byte, b: byte, c: byte)
    requires Extra(a) == 2 && Tail(b) && Tail(c)
    ensures Three(a, b, c) == ScalarValue((LeadBits(a) * 64 + b % 64) * 64 + c % 64, 2)
  {
    assert b % 64 == b - 0x80 && c % 64 == c - 0x80 && a % 16 == a - 0xE0;
  }

  lemma Scalar4(a: byte, b: byte, c: byte, d: byte)
    requires Extra(a) == 3 && Tail(b) && Tail(c) && Tail(d)
    ensures Four(a, b, c, d) == ScalarValue(((LeadBits(a) * 64 + b % 64) * 64 + c % 64) * 64 + d % 64, 3)
  {
    assert b % 64 == b - 0x80 && c % 64 == c - 0x80 && d % 64 == d - 0x80 && a % 8 == a - 0xF0;
  }

  /** A character of the grammar has continuation bytes after its lead byte. */
  lemma CharTails(s: seq<byte>)
    requires s != []
    ensures forall m :: 1 <= m < CharLength(s) ==> Tail(s[m])
  {
  }

  /** A zero byte is a character of its own, so it never hides inside another. */
  predicate NoZero(s: seq<byte>) {
    forall i :: 0 <= i < |s| ==> s[i] != 0
  }

  /** `efrp_json_utf8`. */
  method CodePoints(bytes: seq<byte>) returns (valid: bool)
    ensures valid == (Octets(bytes) && NoZero(bytes))
  {
    var i := 0;
    assert bytes[0..] == bytes;
    while i < |bytes|
      invariant i <= |bytes| && Octets(bytes) == Octets(bytes[i..]) && NoZero(bytes[..i])
      decreases |bytes| - i
    {
      if bytes[i] == 0 {
        return false;
      }
      var next := CodePointChar(bytes, i);
      if next == i {
        return false;
      }
      OctetsFrom(bytes, i, next - i);
      CharNoZero(bytes, i, next);
      i := next;
    }
    assert bytes[i..] == [] && bytes[..i] == bytes;
    return true;
  }

  lemma CharNoZero(bytes: seq<byte>, i: nat, next: nat)
    requires i < |bytes| && next == i + CharLength(bytes[i..]) && bytes[i] != 0 && NoZero(bytes[..i])
    ensures NoZero(bytes[..next])
  {
    var t := bytes[i..];
    CharTails(t);
    forall m | 0 <= m < next
      ensures bytes[..next][m] != 0
    {
      if m < i {
        assert bytes[..i][m] != 0;
      } else {
        assert bytes[m] == t[m - i];
      }
    }
  }

  /** One turn of its loop: where the character at `at` ends, or `at` if there is none. */
  method CodePointChar(bytes: seq<byte>, at: nat) returns (next: nat)
    requires at < |bytes|
    ensures next == at + CharLength(bytes[at..])
  {
    ghost var t := bytes[at..];
    LeadBytes(t);
    var lead := bytes[at];
    if lead < 0x80 {
      return at + 1;
    }
    var extra := Extra(lead);
    if extra == 4 || |bytes| - (at + 1) < extra {
      return at;
    }
    var i, k, cp := at + 1, 0, LeadBits(lead);
    while k < extra
      invariant 0 <= k <= extra && i == at + 1 + k && cp == CodePoint(t, k)
      invariant forall m :: 1 <= m <= k ==> Tail(t[m])
    {
      var c := bytes[i];
      assert c == t[k + 1];
      if c < 0x80 || c > 0xBF {
        CharTails(t);
        return at;
      }
      i, k, cp := i + 1, k + 1, cp * 64 + c % 64;
    }
    ScalarChar(t);
    if cp < Minimum(extra) || cp > 0x10_FFFF || 0xD800 <= cp <= 0xDFFF {
      return at;
    }
    return i;
  }
}
