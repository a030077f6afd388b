/** Printing of IPv4 endpoints and their strict parsing. */
module Endpoint {
  import opened Efrp

  // ---------- decimal numbers ----------

  predicate IsDigit(c: char) {
    '0' <= c <= '9'
  }

  predicate AllDigits(s: string) {
    forall i :: 0 <= i < |s| ==> IsDigit(s[i])
  }

  function DigitValue(c: char): (v: nat)
    requires IsDigit(c)
    ensures v < 10
  {
    c as int - '0' as int
  }

  function DigitChar(v: nat): (c: char)
    requires v < 10
    ensures IsDigit(c) && DigitValue(c) == v && (c == '0' <==> v == 0)
  {
    '0' + v as char
  }

  /** The shortest decimal text of a number, as `%u` prints it. */
  function Decimal(n: nat): (s: string)
    ensures s != ""
  {
    if n < 10 then [DigitChar(n)] else Decimal(n / 10) + [DigitChar(n % 10)]
  }

  /** The number a digit string stands for. */
  function Number(s: string): nat
    requires AllDigits(s)
  {
    if s == "" then 0 else Number(s[..|s| - 1]) * 10 + DigitValue(s[|s| - 1])
  }

  /** A digit string without a superfluous zero. */
  predicate Canonical(s: string) {
    s != "" && AllDigits(s) && (|s| > 1 ==> s[0] != '0')
  }

  lemma NumberMore(s: string, c: char)
    requires AllDigits(s) && IsDigit(c)
    ensures AllDigits(s + [c]) && Number(s + [c]) == Number(s) * 10 + DigitValue(c)
  {
    hide DigitValue, IsDigit;
    var t := s + [c];
    assert t[..|t| - 1] == s;
  }

  /** The text of a number is canonical and stands for it. */
  lemma {:induction false} DecimalNumber(n: nat)
    ensures Canonical(Decimal(n)) && Number(Decimal(n)) == n
    ensures n > 0 ==> Decimal(n)[0] != '0'
  {
    hide IsDigit, DigitValue, DigitChar;
    if n < 10 {
      NumberMore("", DigitChar(n));
      assert "" + [DigitChar(n)] == Decimal(n);
    } else {
      DecimalNumber(n / 10);
      NumberMore(Decimal(n / 10), DigitChar(n % 10));
    }
  }

  lemma SameDigit(c: char)
    requires IsDigit(c)
    ensures DigitChar(DigitValue(c)) == c && (DigitValue(c) == 0 <==> c == '0')
  {
  }

  /** A canonical digit string is the text of its number. */
  lemma {:induction false} NumberDecimal(s: string)
    requires Canonical(s)
    ensures Decimal(Number(s)) == s && (s[0] != '0' ==> Number(s) > 0)
  {
    hide IsDigit, DigitValue, DigitChar;
    var front, c := s[..|s| - 1], s[|s| - 1];
    assert IsDigit(c);
    SameDigit(c);
    assert s == front + [c];
    if |s| == 1 {
      assert Number(front) == 0;
    } else {
      NumberDecimal(front);
      assert Number(s) / 10 == Number(front) && Number(s) % 10 == DigitValue(c);
    }
  }

  /** A longer digit string does not stand for a smaller number. */
  lemma {:induction false} NumberGrows(s: string, k: nat)
    requires AllDigits(s) && k <= |s|
    ensures AllDigits(s[..k]) && Number(s[..k]) <= Number(s)
  {
    hide IsDigit, DigitValue;
    if k == |s| {
      assert s[..k] == s;
    } else {
      var front := s[..|s| - 1];
      NumberGrows(front, k);
      assert front[..k] == s[..k];
    }
  }

  // ---------- reading a number ----------

  /** The text of `v` stands at `at..next` and no digit follows. */
  predicate FieldAt(s: string, at: nat, next: nat, v: nat) {
    at <= next <= |s| && s[at..next] == Decimal(v) && (next < |s| ==> !IsDigit(s[next]))
  }

  predicate DigitsAt(s: string, at: nat, i: nat) {
    at <= i <= |s| && forall k :: at <= k < i ==> IsDigit(s[k])
  }

  lemma FieldDigits(s: string, at: nat, next: nat, v: nat)
    requires FieldAt(s, at, next, v)
    ensures at < next && DigitsAt(s, at, next) && Canonical(s[at..next]) && Number(s[at..next]) == v
  {
    hide IsDigit;
    DecimalNumber(v);
    forall k | at <= k < next
      ensures IsDigit(s[k])
    {
      assert s[at..next][k - at] == s[k];
    }
  }

  /** Digits lie within the field. */
  lemma FieldCovers(s: string, at: nat, i: nat, next: nat, v: nat)
    requires DigitsAt(s, at, i) && FieldAt(s, at, next, v)
    ensures i <= next && AllDigits(s[at..i]) && Number(s[at..i]) <= v
  {
    hide IsDigit, Decimal;
    FieldDigits(s, at, next, v);
    assert i <= next;
    NumberGrows(s[at..next], i - at);
    assert s[at..next][..i - at] == s[at..i];
  }

  /** At most one number stands at a place. */
  lemma FieldUnique(s: string, at: nat, m: nat, v: nat, n: nat, w: nat)
    requires FieldAt(s, at, m, v) && FieldAt(s, at, n, w)
    ensures m == n && v == w
  {
    FieldDigits(s, at, m, v);
    FieldDigits(s, at, n, w);
  }

  /** `decimal`: reads a canonical number of at most `maximum`. */
  method ReadDecimal(s: string, at: nat, maximum: nat) returns (ok: bool, next: nat, value: nat)
    requires at <= |s|
    ensures ok ==> value <= maximum && FieldAt(s, at, next, value)
    ensures !ok ==> forall n: nat, v: nat :: FieldAt(s, at, n, v) ==> v > maximum
  {
    hide IsDigit, Decimal, Number, FieldAt, DigitValue;
    next, value := at, 0;
    if at == |s| || !IsDigit(s[at]) {
      NoField(s, at);
      return false, at, 0;
    }
    assert s[at..at] == "";
    NumberNothing(s[at..at]);
    while next < |s| && IsDigit(s[next])
      invariant DigitsAt(s, at, next) && AllDigits(s[at..next])
      invariant value == Number(s[at..next]) <= maximum
      invariant next == at ==> next < |s| && IsDigit(s[next])
    {
      NumberMore(s[at..next], s[next]);
      assert s[at..next + 1] == s[at..next] + [s[next]];
      if value > maximum / 10 || value * 10 + DigitValue(s[next]) > maximum {
        TooLarge(s, at, next + 1, maximum);
        return false, at, 0;
      }
      value := value * 10 + DigitValue(s[next]);
      next := next + 1;
    }
    if next - at > 1 && s[at] == '0' {
      LeadingZero(s, at, next);
      return false, at, 0;
    }
    IsField(s, at, next);
    ok := true;
  }

  lemma NumberNothing(s: string)
    requires s == ""
    ensures Number(s) == 0
  {
  }

  lemma NoField(s: string, at: nat)
    requires at == |s| || (at < |s| && !IsDigit(s[at]))
    ensures forall n: nat, v: nat :: !FieldAt(s, at, n, v)
  {
    forall n: nat, v: nat
      ensures !FieldAt(s, at, n, v)
    {
      if FieldAt(s, at, n, v) {
        FieldDigits(s, at, n, v);
        assert false;
      }
    }
  }

  lemma TooLarge(s: string, at: nat, i: nat, maximum: nat)
    requires DigitsAt(s, at, i) && AllDigits(s[at..i]) && Number(s[at..i]) > maximum
    ensures forall n: nat, v: nat :: FieldAt(s, at, n, v) ==> v > maximum
  {
    forall n: nat, v: nat | FieldAt(s, at, n, v)
      ensures v > maximum
    {
      FieldCovers(s, at, i, n, v);
    }
  }

  lemma LeadingZero(s: string, at: nat, i: nat)
    requires DigitsAt(s, at, i) && i > at + 1 && s[at] == '0'
    ensures forall n: nat, v: nat :: !FieldAt(s, at, n, v)
  {
    forall n: nat, v: nat
      ensures !FieldAt(s, at, n, v)
    {
      if FieldAt(s, at, n, v) {
        FieldCovers(s, at, i, n, v);
        FieldDigits(s, at, n, v);
        assert false;
      }
    }
  }

  lemma IsField(s: string, at: nat, next: nat)
    requires DigitsAt(s, at, next) && at < next && AllDigits(s[at..next]) && (next - at > 1 ==> s[at] != '0')
    requires next < |s| ==> !IsDigit(s[next])
    ensures FieldAt(s, at, next, Number(s[at..next]))
  {
    NumberDecimal(s[at..next]);
  }

  // ---------- endpoints ----------

  datatype Address = Address(ip: seq<byte>, port: nat)

  /** `endpoint_valid`, for a value of the type. */
  predicate Valid(e: Address) {
    |e.ip| == 4 && e.port <= 0xFFFF && 0 < e.ip[0] < 224 && e.port != 0
  }

  /** The five numbers of an endpoint. */
  function Fields(e: Address): (f: seq<nat>)
    requires |e.ip| == 4
    ensures |f| == 5
  {
    [e.ip[0] as nat, e.ip[1] as nat, e.ip[2] as nat, e.ip[3] as nat, e.port]
  }

  function Separator(k: nat): char {
    if k == 3 then ':' else '.'
  }

  /** The text of the numbers from the k-th on. */
  function Text(f: seq<nat>, k: nat): string
    requires k < |f| == 5
    decreases 5 - k
  {
    if k == 4 then Decimal(f[4]) else Decimal(f[k]) + [Separator(k)] + Text(f, k + 1)
  }

  /** The address as `add_addresses` prints it. */
  function Print(e: Address): string
    requires |e.ip| == 4
  {
    Text(Fields(e), 0)
  }

  /** A text of the numbers from the k-th on stands at `at` exactly if its first number stands there, the
      separator follows, and then the text of the others. */
  lemma TextField(s: string, at: nat, f: seq<nat>, k: nat, next: nat)
    requires at <= |s| && k < 4 && |f| == 5 && next == at + |Decimal(f[k])|
    ensures s[at..] == Text(f, k) <==>
            FieldAt(s, at, next, f[k]) && next < |s| && s[next] == Separator(k) && s[next + 1..] == Text(f, k + 1)
  {
    hide Decimal;
    var d, rest := Decimal(f[k]), Text(f, k + 1);
    if s[at..] == Text(f, k) {
      var t := s[at..];
      assert t == d + [Separator(k)] + rest;
      assert t[..|d|] == d && t[|d|] == Separator(k) && t[|d| + 1..] == rest;
      assert s[at..next] == t[..|d|] && s[next] == t[|d|] && s[next + 1..] == t[|d| + 1..];
    }
    if next < |s| && s[next] == Separator(k) && s[at..next] == d && s[next + 1..] == rest {
      assert s[at..] == s[at..next] + [s[next]] + s[next + 1..];
    }
  }

  /** The last number stands at `at` and nothing follows. */
  lemma TextLast(s: string, at: nat, f: seq<nat>)
    requires at <= |s| && |f| == 5
    ensures s[at..] == Text(f, 4) <==> FieldAt(s, at, |s|, f[4])
  {
    hide Decimal;
    assert s[at..|s|] == s[at..];
  }

  /** The numbers in `got` are the only way to read the text up to `at`. */
  ghost predicate ReadTo(s: string, got: seq<nat>, at: nat) {
    && at <= |s| && |got| <= 4
    && forall f: seq<nat> {:trigger Text(f, 0)} :: |f| == 5 ==>
         (s == Text(f, 0) <==> f[..|got|] == got && s[at..] == Text(f, |got|))
  }

  lemma ReadNothing(s: string)
    ensures ReadTo(s, [], 0)
  {
    assert s[0..] == s;
  }

  lemma TakeMore(f: seq<nat>, got: seq<nat>, v: nat)
    requires |got| < |f|
    ensures f[..|got| + 1] == got + [v] <==> f[..|got|] == got && f[|got|] == v
  {
    var k := |got|;
    assert f[..k + 1] == f[..k] + [f[k]];
    assert (got + [v])[..k] == got && f[..k + 1][..k] == f[..k];
  }

  lemma ReadMore(s: string, got: seq<nat>, at: nat, next: nat, v: nat)
    requires ReadTo(s, got, at) && |got| < 4 && FieldAt(s, at, next, v) && next < |s| && s[next] == Separator(|got|)
    ensures ReadTo(s, got + [v], next + 1)
  {
    hide Text, FieldAt, Decimal;
    var k := |got|;
    forall f: seq<nat> | |f| == 5
      ensures s == Text(f, 0) <==> f[..k + 1] == got + [v] && s[next + 1..] == Text(f, k + 1)
    {
      TakeMore(f, got, v);
      var end := at + |Decimal(f[k])|;
      TextField(s, at, f, k, end);
      if FieldAt(s, at, end, f[k]) {
        FieldUnique(s, at, end, f[k], next, v);
      }
      FieldEnd(s, at, next, v);
    }
  }

  lemma FieldEnd(s: string, at: nat, next: nat, v: nat)
    requires FieldAt(s, at, next, v)
    ensures next == at + |Decimal(v)|
  {
    hide Decimal;
  }

  /** No valid endpoint prints as `s`. */
  ghost predicate NoEndpoint(s: string) {
    forall e: Address :: Valid(e) ==> Print(e) != s
  }

  /** Where a number that small does not stand, or the wrong character follows it, no endpoint is printed. */
  lemma ReadStuck(s: string, got: seq<nat>, at: nat, maximum: nat)
    requires ReadTo(s, got, at) && maximum == (if |got| == 4 then 0xFFFF else 255)
    requires forall n: nat, v: nat :: FieldAt(s, at, n, v) ==>
               v > maximum || (if |got| == 4 then n < |s| else n == |s| || s[n] != Separator(|got|))
    ensures NoEndpoint(s)
  {
    hide Text, FieldAt, Decimal;
    forall e: Address | Valid(e)
      ensures Print(e) != s
    {
      var f, k := Fields(e), |got|;
      if Text(f, 0) == s {
        if k == 4 {
          TextLast(s, at, f);
        } else {
          TextField(s, at, f, k, at + |Decimal(f[k])|);
        }
        assert false;
      }
    }
  }

  /** Printing tells endpoints apart. */
  lemma PrintInjective(d: Address, e: Address)
    requires |d.ip| == |e.ip| == 4 && Print(d) == Print(e)
    ensures d == e
  {
    TextInjective(Fields(d), Fields(e), 0);
    assert forall i :: 0 <= i < 4 ==> d.ip[i] as nat == Fields(d)[i] && e.ip[i] as nat == Fields(e)[i];
  }

  lemma {:induction false} TextInjective(f: seq<nat>, g: seq<nat>, k: nat)
    requires |f| == |g| == 5 && k < 5 && Text(f, k) == Text(g, k)
    ensures forall i :: k <= i < 5 ==> f[i] == g[i]
    decreases 5 - k
  {
    hide Decimal, FieldAt;
    var s := Text(f, k);
    assert s[0..] == s;
    if k == 4 {
      TextLast(s, 0, f);
      TextLast(s, 0, g);
      FieldUnique(s, 0, |s|, f[4], |s|, g[4]);
    } else {
      TextField(s, 0, f, k, |Decimal(f[k])|);
      TextField(s, 0, g, k, |Decimal(g[k])|);
      FieldUnique(s, 0, |Decimal(f[k])|, f[k], |Decimal(g[k])|, g[k]);
      TextInjective(f, g, k + 1);
    }
  }

  /** `parse_endpoint`: accepts exactly the printed texts of valid endpoints. */
  method Parse(s: string) returns (ok: bool, e: Address)
    ensures ok ==> Valid(e) && Print(e) == s
    ensures !ok ==> NoEndpoint(s)
  {
    hide Text, FieldAt, Decimal, ReadTo, NoEndpoint, Separator;
    var at: nat, got: seq<nat>, value: nat := 0, [], 0;
    e := Address([], 0);
    ReadNothing(s);
    while |got| < 4
      invariant |got| <= 4 && at <= |s| && ReadTo(s, got, at)
      invariant forall i :: 0 <= i < |got| ==> got[i] <= 255
    {
      var next;
      ok, next, value := ReadDecimal(s, at, 255);
      if ok {
        ReadOne(s, at, next, value);
      }
      if !ok || next == |s| || s[next] != Separator(|got|) {
        ReadStuck(s, got, at, 255);
        return false, e;
      }
      ReadMore(s, got, at, next, value);
      at, got := next + 1, got + [value];
    }
    var end;
    ok, end, value := ReadDecimal(s, at, 0xFFFF);
    if ok {
      ReadOne(s, at, end, value);
    }
    if !ok || end != |s| {
      ReadStuck(s, got, at, 0xFFFF);
      return false, e;
    }
    e := Address([got[0], got[1], got[2], got[3]], value);
    ReadAll(s, got, at, e);
    ok := Valid(e);
    if !ok {
      NotValid(s, e);
    }
  }

  lemma ReadOne(s: string, at: nat, next: nat, v: nat)
    requires FieldAt(s, at, next, v)
    ensures at <= next <= |s| && forall n: nat, w: nat :: FieldAt(s, at, n, w) ==> n == next && w == v
  {
    forall n: nat, w: nat | FieldAt(s, at, n, w)
      ensures n == next && w == v
    {
      FieldUnique(s, at, n, w, next, v);
    }
  }

  lemma ReadAll(s: string, got: seq<nat>, at: nat, e: Address)
    requires ReadTo(s, got, at) && |got| == 4 && |e.ip| == 4 && FieldAt(s, at, |s|, e.port)
    requires forall i :: 0 <= i < 4 ==> e.ip[i] as nat == got[i]
    ensures Print(e) == s
  {
    hide Text, FieldAt;
    var f := Fields(e);
    TextLast(s, at, f);
    assert f[..4] == got;
  }

  /** Only the endpoint itself prints as it does. */
  lemma NotValid(s: string, e: Address)
    requires |e.ip| == 4 && e.port <= 0xFFFF && !Valid(e) && Print(e) == s
    ensures NoEndpoint(s)
  {
    hide Text;
    forall d: Address | Valid(d)
      ensures Print(d) != s
    {
      if Print(d) == s {
        PrintInjective(d, e);
        assert false;
      }
    }
  }

  /** What is printed is parsed back, by any parser with the contract of `Parse`. */
  method ParsePrinted(e: Address) returns (ok: bool, d: Address)
    requires Valid(e)
    ensures ok && d == e
  {
    hide Text, Decimal;
    ok, d := Parse(Print(e));
    PrintInjective(d, e);
  }

  lemma {:induction false} DecimalWidth(n: nat, width: nat, limit: nat)
    requires width >= 1 && n < limit && limit <= Power10(width)
    ensures |Decimal(n)| <= width
    decreases width
  {
    if n >= 10 {
      DecimalWidth(n / 10, width - 1, Power10(width - 1));
    }
  }

  function Power10(k: nat): nat {
    if k == 0 then 1 else 10 * Power10(k - 1)
  }

  /** The printed text always fits the 22-byte buffer with its terminator. */
  lemma PrintFits(e: Address)
    requires Valid(e)
    ensures |Print(e)| <= 21
  {
    hide Decimal;
    var f := Fields(e);
    assert Power10(3) == 1000 && Power10(5) == 100000;
    DecimalWidth(f[0], 3, 1000);
    DecimalWidth(f[1], 3, 1000);
    DecimalWidth(f[2], 3, 1000);
    DecimalWidth(f[3], 3, 1000);
    DecimalWidth(f[4], 5, 100000);
    assert |Text(f, 3)| <= 9;
    assert |Text(f, 1)| <= 17;
  }
}
