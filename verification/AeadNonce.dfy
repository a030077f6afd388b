/** The 96-bit record nonces: a byte counter that carries from the last byte. */
module AeadNonce {
  import opened Efrp

  const NONCE_BYTES: nat := 12
  const NONCES: nat := 0x1_0000_0000_0000_0000_0000_0000
  const MAX_RECORDS: nat := 0x1_0000_0000

  /** The bytes as one big-endian number. */
  function Value(s: seq<byte>): nat {
    if s == [] then 0 else Value(s[..|s| - 1]) * 0x100 + s[|s| - 1] as nat
  }

  /** 256 to the power `n`. */
  function Power(n: nat): nat {
    if n == 0 then 1 else Power(n - 1) * 0x100
  }

  lemma {:induction false} ValueBound(s: seq<byte>)
    ensures Value(s) < Power(|s|)
  {
    if s != [] {
      ValueBound(s[..|s| - 1]);
      assert Value(s) < Power(|s| - 1) * 0x100;
    }
  }

  /** Equal numbers are equal bytes. */
  lemma {:induction false} ValueInjective(a: seq<byte>, b: seq<byte>)
    requires |a| == |b| && Value(a) == Value(b)
    ensures a == b
  {
    if a != [] {
      var x, y := a[|a| - 1] as nat, b[|b| - 1] as nat;
      assert x == Value(a) % 0x100 && y == Value(b) % 0x100;
      ValueInjective(a[..|a| - 1], b[..|b| - 1]);
      assert a == a[..|a| - 1] + [a[|a| - 1]] && b == b[..|b| - 1] + [b[|b| - 1]];
    }
  }

  /** Carrying one through: the number grows by one, modulo its width. */
  function Succ(s: seq<byte>): (r: seq<byte>)
    ensures |r| == |s|
  {
    if s == [] then []
    else if s[|s| - 1] == 0xFF then Succ(s[..|s| - 1]) + [0]
    else s[..|s| - 1] + [s[|s| - 1] + 1]
  }

  predicate AllOnes(s: seq<byte>) {
    forall i :: 0 <= i < |s| ==> s[i] == 0xFF
  }

  lemma {:induction false} SuccValue(s: seq<byte>)
    ensures Value(Succ(s)) == if AllOnes(s) then 0 else Value(s) + 1
  {
    if s != [] {
      var front, last := s[..|s| - 1], s[|s| - 1];
      SuccValue(front);
      if last == 0xFF {
        assert Succ(s)[..|s| - 1] == Succ(front);
        assert AllOnes(s) <==> AllOnes(front) by {
          assert s == front + [last];
        }
      } else {
        assert Succ(s)[..|s| - 1] == front;
        assert !AllOnes(s);
      }
    }
  }

  lemma PowerTwelve()
    ensures Power(NONCE_BYTES) == NONCES
  {
    assert Power(4) == 0x1_0000_0000;
    assert Power(8) == 0x1_0000_0000_0000_0000;
  }

  /** One byte of the carry. */
  lemma {:induction false} SuccLast(s: seq<byte>)
    requires s != []
    ensures var n := |s| - 1;
            if s[n] == 0xFF then Succ(s) == Succ(s[..n]) + [0] && AllOnes(s) == AllOnes(s[..n])
            else Succ(s) == s[..n] + [s[n] + 1] && !AllOnes(s)
  {
    var n := |s| - 1;
    assert forall i :: 0 <= i < n ==> s[..n][i] == s[i];
  }

  lemma Wrapped(s: seq<byte>)
    requires s == []
    ensures Succ(s) == [] && AllOnes(s)
  {
  }

  /** `increment` and `next_nonce`: add one in place; false when it wrapped around. */
  method Increment(nonce: array<byte>) returns (ok: bool)
    modifies nonce
    ensures nonce[..] == Succ(old(nonce[..])) && ok == !AllOnes(old(nonce[..]))
  {
    hide Succ, AllOnes;
    ghost var s := nonce[..];
    var i := nonce.Length;
    assert s[..i] == s && nonce[i..] == [];
    assert Succ(s) + [] == Succ(s);
    while i > 0
      invariant 0 <= i <= nonce.Length
      invariant nonce[..i] == s[..i] && Succ(s) == Succ(s[..i]) + nonce[i..]
      invariant AllOnes(s) == AllOnes(s[..i])
    {
      i := i - 1;
      SuccLast(s[..i + 1]);
      assert s[..i + 1][..i] == s[..i];
      ghost var tail := nonce[i + 1..];
      if nonce[i] == 0xFF {
        nonce[i] := 0;
        assert nonce[i..] == [0] + tail;
        assert Succ(s[..i]) + [0] + tail == Succ(s[..i]) + ([0] + tail);
      } else {
        nonce[i] := nonce[i] + 1;
        assert nonce[..] == s[..i] + [s[i] + 1] + tail;
        return true;
      }
    }
    Wrapped(s[..0]);
    assert nonce[..] == [] + nonce[0..];
    return false;
  }

  /** `available`: records are left, and the nonce is not the last one. */
  method Available(nonce: seq<byte>, records: nat) returns (ok: bool)
    ensures ok == (records < MAX_RECORDS && !AllOnes(nonce))
  {
    if records >= MAX_RECORDS {
      return false;
    }
    var i := 0;
    while i < |nonce|
      invariant i <= |nonce| && forall k :: 0 <= k < i ==> nonce[k] == 0xFF
    {
      if nonce[i] != 0xFF {
        return true;
      }
      i := i + 1;
    }
    return false;
  }

  type Nonce = s: seq<byte> | |s| == NONCE_BYTES witness [0, 0, 0, 0, 0, 0, 0, 0, 0, 0, 0, 0]

  /** `next_nonce` on a nonce that is kept as a value. */
  method NextNonce(nonce: Nonce) returns (next: Nonce, ok: bool)
    ensures next == Succ(nonce) && ok == !AllOnes(nonce)
  {
    hide Succ, AllOnes;
    var bytes := new byte[NONCE_BYTES](i requires 0 <= i < NONCE_BYTES => nonce[i]);
    assert bytes[..] == nonce;
    ok := Increment(bytes);
    next := bytes[..];
  }

  /** The nonce of record `k` of a stream. */
  function At(stream: Nonce, k: nat): Nonce {
    if k == 0 then stream else Succ(At(stream, k - 1))
  }

  lemma AtNext(stream: Nonce, k: nat)
    ensures At(stream, k + 1) == Succ(At(stream, k))
  {
  }

  /** Record `k` uses the stream nonce plus `k`, as long as the counter never wrapped. */
  lemma {:induction false} AtValue(stream: Nonce, k: nat)
    requires forall i :: 0 <= i < k ==> !AllOnes(At(stream, i))
    ensures Value(At(stream, k)) == Value(stream) + k
  {
    if k > 0 {
      AtValue(stream, k - 1);
      SuccValue(At(stream, k - 1));
    }
  }

  /** No two records of a stream use the same nonce. */
  lemma NoncesDistinct(stream: Nonce, j: nat, k: nat)
    requires j < k && forall i :: 0 <= i < k ==> !AllOnes(At(stream, i))
    ensures At(stream, j) != At(stream, k)
    ensures Value(At(stream, j)) == Value(stream) + j < Value(At(stream, k)) == Value(stream) + k < NONCES
  {
    AtValue(stream, j);
    AtValue(stream, k);
    ValueBound(At(stream, k));
    PowerTwelve();
  }
}
