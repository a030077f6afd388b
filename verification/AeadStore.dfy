/**
 Decryption of a record whose ciphertext lies in a store: every pass reads the whole
 ciphertext again, checks the tag, and exposes one window of the plaintext.
 */
module AeadStore {
  import opened Efrp
  import opened AeadNonce
  import opened AeadSuite

  const INPUT_BYTES: nat := 512

  /** What the store answers to a read of `length` bytes at `offset`, in one pass. */
  type Medium = (nat, nat) -> Option<seq<byte>>

  /** The store holds `x` and says so. */
  ghost predicate Honest(medium: Medium, x: seq<byte>) {
    forall offset: nat, length: nat :: offset + length <= |x| ==>
      medium(offset, length) == Some(x[offset..offset + length])
  }

  /** How the crypto library behaves: what it emits at update `k`, and which calls fail. */
  datatype Library = Library(emits: nat -> nat, broken: nat -> bool, setupOk: bool, finishOk: bool, cleanupOk: bool)

  /** What the library has emitted after `k` updates. */
  function Emitted(lib: Library, k: nat): nat {
    if k == 0 then 0 else Emitted(lib, k - 1) + lib.emits(k - 1)
  }

  /** The library works: no call fails, and what it emits never runs ahead of what it was given. */
  ghost predicate Works(lib: Library, plainLength: nat) {
    && lib.setupOk && lib.finishOk && lib.cleanupOk
    && (forall k: nat :: !lib.broken(k) && Emitted(lib, k + 1) <= Min(INPUT_BYTES * (k + 1), plainLength))
  }

  /** A store can be honest about any ciphertext, and a library can work on it. */
  lemma WorldExists(x: seq<byte>)
    ensures exists medium: Medium :: Honest(medium, x)
    ensures exists lib :: Works(lib, |x|)
  {
    var medium: Medium := (offset: nat, length: nat) =>
      if offset + length <= |x| then Some(x[offset..offset + length]) else None;
    assert Honest(medium, x);
    var lib := Library(k => 0, k => false, true, true, true);
    forall k: nat
      ensures !lib.broken(k) && Emitted(lib, k + 1) <= Min(INPUT_BYTES * (k + 1), |x|)
    {
      NothingEmitted(lib, k + 1);
    }
    assert Works(lib, |x|);
  }

  lemma {:induction false} NothingEmitted(lib: Library, k: nat)
    requires forall i :: lib.emits(i) == 0
    ensures Emitted(lib, k) == 0
  {
    if k > 0 {
      NothingEmitted(lib, k - 1);
    }
  }

  /** What the digest of a record binds. */
  function Bound(aad: seq<byte>, nonce: Nonce, sequence: nat, tag: seq<byte>, x: seq<byte>): seq<byte> {
    aad + nonce + Big64(sequence) + tag + x
  }

  /** A 64-bit number, most significant byte first. */
  function Big64(v: nat): (s: seq<byte>)
    ensures |s| == 8
  {
    var w := v % 0x1_0000_0000_0000_0000;
    [w / 0x100_0000_0000_0000, w / 0x1_0000_0000_0000 % 0x100, w / 0x100_0000_0000 % 0x100, w / 0x1_0000_0000 % 0x100,
     w / 0x100_0000 % 0x100, w / 0x1_0000 % 0x100, w / 0x100 % 0x100, w % 0x100]
  }

  /** Equal digests of one record are digests of one ciphertext. */
  lemma SameDigest(c: Suite, aad: seq<byte>, nonce: Nonce, sequence: nat, tag: seq<byte>, x: seq<byte>, y: seq<byte>)
    requires Sound(c) && c.hash(Bound(aad, nonce, sequence, tag, x)) == c.hash(Bound(aad, nonce, sequence, tag, y))
    ensures x == y
  {
    var front := aad + nonce + Big64(sequence) + tag;
    assert front + x == front + y;
    assert x == (front + x)[|front|..] && y == (front + y)[|front|..];
  }

  /** The part of the window that lies below `produced` is plaintext already. */
  predicate Filled(window: seq<byte>, windowOffset: nat, plain: seq<byte>, produced: nat)
    requires produced <= |plain|
  {
    forall i :: 0 <= i < |window| && windowOffset + i < produced ==> window[i] == plain[windowOffset + i]
  }

  /** `copy_store_window`: keep what falls into the window. */
  method CopyWindow(window: array<byte>, windowOffset: nat, windowLength: nat, ghost plain: seq<byte>,
                    produced: nat, output: seq<byte>)
    requires windowLength <= window.Length && produced + |output| <= |plain|
    requires output == plain[produced..produced + |output|]
    requires Filled(window[..windowLength], windowOffset, plain, produced)
    modifies window
    ensures Filled(window[..windowLength], windowOffset, plain, produced + |output|)
    ensures window[windowLength..] == old(window[windowLength..])
  {
    if windowLength == 0 || output == [] {
      return;
    }
    var first := if produced > windowOffset then produced else windowOffset;
    var last := Min(produced + |output|, windowOffset + windowLength);
    if first < last {
      forall i | first - windowOffset <= i < last - windowOffset {
        window[i] := output[windowOffset + i - produced];
      }
    }
  }

  /** Wipe the window. */
  method Wipe(window: array<byte>, windowLength: nat)
    requires windowLength <= window.Length
    modifies window
    ensures forall i :: 0 <= i < windowLength ==> window[i] == 0
    ensures window[windowLength..] == old(window[windowLength..])
  {
    forall i | 0 <= i < windowLength {
      window[i] := 0;
    }
  }

  datatype Pass = Pass(suite: Suite, key: seq<byte>, nonce: Nonce, aad: seq<byte>, sequence: nat, tag: seq<byte>)

  function Digest(p: Pass, x: seq<byte>): seq<byte> {
    p.suite.hash(Bound(p.aad, p.nonce, p.sequence, p.tag, x))
  }

  function Plain(p: Pass, x: seq<byte>): seq<byte> {
    p.suite.decrypt(p.key, p.nonce, x)
  }

  predicate Genuine(p: Pass, x: seq<byte>) {
    p.suite.tag(p.key, p.nonce, p.aad, x) == p.tag
  }

  lemma PlainPrefix(p: Pass, x: seq<byte>, more: seq<byte>)
    requires Sound(p.suite)
    ensures |Plain(p, x)| == |x| && |Plain(p, x + more)| == |x| + |more| && Plain(p, x + more)[..|x|] == Plain(p, x)
  {
    assert (x + more)[..|x|] == x;
  }

  /** Read and decrypt the whole ciphertext, up to the tag check. */
  method Stream(p: Pass, medium: Medium, plainLength: nat, windowOffset: nat, window: array<byte>, windowLength: nat,
                lib: Library)
    returns (r: Result, x: seq<byte>, produced: nat)
    requires Sound(p.suite) && windowLength <= window.Length
    modifies window
    ensures window[windowLength..] == old(window[windowLength..])
    ensures r == Ok ==> |x| == plainLength && produced <= |x| && |Plain(p, x)| == |x|
    ensures r == Ok ==> Filled(window[..windowLength], windowOffset, Plain(p, x), produced)
    ensures r == Ok || r == StorageError || r == CryptoError
    ensures forall y :: |y| == plainLength && Honest(medium, y) && r == Ok ==> x == y
    ensures forall y :: Works(lib, plainLength) && |y| == plainLength && Honest(medium, y) ==> r == Ok
  {
    hide Sound;
    x, produced := [], 0;
    if !lib.setupOk {
      return CryptoError, x, produced;
    }
    PlainPrefix(p, [], []);
    var k := 0;
    while |x| < plainLength
      invariant |x| <= plainLength && produced <= |x| && |Plain(p, x)| == |x|
      invariant Filled(window[..windowLength], windowOffset, Plain(p, x), produced)
      invariant window[windowLength..] == old(window[windowLength..])
      invariant |x| == Min(INPUT_BYTES * k, plainLength) && produced == Emitted(lib, k)
      invariant forall y :: |y| == plainLength && Honest(medium, y) ==> x <= y
      decreases plainLength - |x|
    {
      var take := Min(plainLength - |x|, INPUT_BYTES);
      var input := medium(|x|, take);
      if input.None? || |input.value| != take {
        return StorageError, x, produced;
      }
      PlainPrefix(p, x, input.value);
      x := x + input.value;
      assert Emitted(lib, k + 1) == produced + lib.emits(k);
      if lib.broken(k) || lib.emits(k) > |x| - produced {
        return CryptoError, x, produced;
      }
      var n := lib.emits(k);
      assert Filled(window[..windowLength], windowOffset, Plain(p, x), produced);
      CopyWindow(window, windowOffset, windowLength, Plain(p, x), produced, Plain(p, x)[produced..produced + n]);
      produced := produced + n;
      k := k + 1;
    }
    return Ok, x, produced;
  }

  /** The store holds the authentic ciphertext `y`, the one that was verified before. */
  ghost predicate Matches(p: Pass, medium: Medium, plainLength: nat, expected: Option<seq<byte>>, y: seq<byte>) {
    |y| == plainLength && Honest(medium, y) && Genuine(p, y) && (expected.None? || expected.value == Digest(p, y))
  }

  /**
   `efrp_crypto_gcm_decrypt_store`: one pass.  Success means that one ciphertext `x` of the
   right length was read, that its tag and (if given) its digest are right, and that the
   window holds its plaintext.  Otherwise the window is wiped.
   */
  method DecryptStore(p: Pass, medium: Medium, plainLength: nat, windowOffset: nat, window: array<byte>,
                      windowLength: nat, expected: Option<seq<byte>>, lib: Library)
    returns (r: Result, digest: seq<byte>, ghost x: seq<byte>)
    requires Sound(p.suite) && windowLength <= window.Length
    requires plainLength <= MAX_PLAINTEXT && windowOffset + windowLength <= plainLength
    modifies window
    ensures window[windowLength..] == old(window[windowLength..])
    ensures r == Ok ==> |x| == plainLength && |Plain(p, x)| == plainLength && Genuine(p, x) && digest == Digest(p, x)
    ensures r == Ok && expected.Some? ==> digest == expected.value
    ensures r == Ok ==> window[..windowLength] == Plain(p, x)[windowOffset..windowOffset + windowLength]
    ensures r != Ok ==> forall i :: 0 <= i < windowLength ==> window[i] == 0
    ensures forall y :: |y| == plainLength && Honest(medium, y) && r == Ok ==> x == y
    ensures forall y :: Works(lib, plainLength) && Matches(p, medium, plainLength, expected, y) ==> r == Ok
  {
    hide Sound, Honest, Bound;
    var y, produced;
    r, y, produced := Stream(p, medium, plainLength, windowOffset, window, windowLength, lib);
    x, digest := y, [];
    if r == Ok {
      if p.suite.tag(p.key, p.nonce, p.aad, y) != p.tag {
        r := AuthenticationFailed;
      } else if !lib.finishOk {
        r := CryptoError;
      } else {
        CopyWindow(window, windowOffset, windowLength, Plain(p, y), produced, Plain(p, y)[produced..]);
        digest := p.suite.hash(Bound(p.aad, p.nonce, p.sequence, p.tag, y));
        if expected.Some? && digest != expected.value {
          r := StorageError;
        }
      }
    }
    if !lib.cleanupOk {
      r := CryptoError;
    }
    if r != Ok {
      Wipe(window, windowLength);
    }
  }

  /** `efrp_crypto_gcm_decrypt_chunks` for a record that fits the window: decrypt it in place. */
  method DecryptWindow(p: Pass, window: array<byte>, length: nat, lib: Library) returns (r: Result)
    requires Sound(p.suite) && length <= window.Length
    modifies window
    ensures r == Ok ==> Genuine(p, old(window[..length])) && window[..length] == Plain(p, old(window[..length]))
    ensures Works(lib, length) && Genuine(p, old(window[..length])) ==> r == Ok
  {
    hide Sound, Plain;
    ghost var x := window[..length];
    ghost var plain := Plain(p, x);
    if !lib.setupOk {
      return CryptoError;
    }
    var input, produced, k := [], 0, 0;
    PlainPrefix(p, x, []);
    while |input| < length
      invariant produced <= |input| <= length && |input| == Min(INPUT_BYTES * k, length) && produced == Emitted(lib, k)
      invariant input == x[..|input|] && |plain| == length
      invariant forall i :: |input| <= i < length ==> window[i] == x[i]
      invariant forall i :: 0 <= i < produced ==> window[i] == plain[i]
      decreases length - |input|
    {
      var take := Min(length - |input|, INPUT_BYTES);
      input := Extend(input, window, take, x);
      assert Emitted(lib, k + 1) == produced + lib.emits(k);
      if lib.broken(k) || lib.emits(k) > |input| - produced {
        return CryptoError;
      }
      InputPrefix(p, x, input);
      Overwrite(window, produced, Plain(p, input)[produced..produced + lib.emits(k)]);
      produced := produced + lib.emits(k);
      k := k + 1;
    }
    assert input == x;
    if p.suite.tag(p.key, p.nonce, p.aad, input) != p.tag {
      return AuthenticationFailed;
    }
    if !lib.finishOk || !lib.cleanupOk {
      return CryptoError;
    }
    Overwrite(window, produced, Plain(p, input)[produced..]);
    assert window[..length] == plain;
    return Ok;
  }

  /** Take the next bytes that are still ciphertext. */
  method Extend(input: seq<byte>, window: array<byte>, take: nat, ghost x: seq<byte>) returns (longer: seq<byte>)
    requires |input| + take <= |x| <= window.Length && input == x[..|input|]
    requires forall i :: |input| <= i < |x| ==> window[i] == x[i]
    ensures |longer| == |input| + take && longer == x[..|longer|]
  {
    longer := input + window[|input|..|input| + take];
  }

  lemma InputPrefix(p: Pass, x: seq<byte>, input: seq<byte>)
    requires Sound(p.suite) && |input| <= |x| && input == x[..|input|]
    ensures |Plain(p, input)| == |input| && |Plain(p, x)| == |x|
    ensures forall i :: 0 <= i < |input| ==> Plain(p, input)[i] == Plain(p, x)[i]
  {
    PlainPrefix(p, input, x[|input|..]);
    assert input + x[|input|..] == x;
    assert Plain(p, input) == Plain(p, x)[..|input|];
  }

  /** `chunk_copy` back into the window. */
  method Overwrite(window: array<byte>, at: nat, bytes: seq<byte>)
    requires at + |bytes| <= window.Length
    modifies window
    ensures forall i :: 0 <= i < window.Length ==>
              window[i] == if at <= i < at + |bytes| then bytes[i - at] else old(window[i])
  {
    forall i | at <= i < at + |bytes| {
      window[i] := bytes[i - at];
    }
  }
}
