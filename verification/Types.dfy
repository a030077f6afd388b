/** Values shared by every part of the model. */
module Efrp {

  /** One octet.  Bit tests on octets are written with `/` and `%`. */
  type byte = b: int | 0 <= b < 256

  const U32_MAX: nat := 0xffff_ffff
  const U64_MAX: nat := 0xffff_ffff_ffff_ffff

  /** The result codes of the C interface that the modelled functions return. */
  datatype Result =
    | Ok
    | WouldBlock
    | Eof
    | InvalidArgument
    | ProtocolError
    | CapacityExceeded
    | CallbackRejected
    | Truncated
    | InvalidState
    | SessionClosed
    | StreamReset
    | Timeout
    | CryptoError
    | AuthenticationFailed
    | CounterExhausted
    | StorageError
    | Cancelled
    | NoMemory
    | NetworkError
    | DnsError
    | TimeUntrusted
    | OtherError

  datatype Option<+T> = None | Some(value: T)

  function Min(a: int, b: int): int {
    if a < b then a else b
  }

  /** Big-endian 32-bit load. */
  function Load32(s: seq<byte>): (x: nat)
    requires |s| == 4
    ensures x <= U32_MAX
  {
    (s[0] as nat) * 0x100_0000 + (s[1] as nat) * 0x1_0000 + (s[2] as nat) * 0x100 + s[3]
  }

  /** Big-endian 32-bit store. */
  function Store32(x: nat): (s: seq<byte>)
    requires x <= U32_MAX
    ensures |s| == 4
    ensures Load32(s) == x
  {
    assert x / 0x1_0000 == x / 0x100 / 0x100 && x / 0x100_0000 == x / 0x1_0000 / 0x100;
    [x / 0x100_0000, x / 0x1_0000 % 0x100, x / 0x100 % 0x100, x % 0x100]
  }

  lemma Store32Load32(s: seq<byte>)
    requires |s| == 4
    ensures Store32(Load32(s)) == s
  {
    var a, b, c, d := s[0] as nat, s[1] as nat, s[2] as nat, s[3] as nat;
    var x := Load32(s);
    assert x == ((a * 0x100 + b) * 0x100 + c) * 0x100 + d;
    assert x / 0x100 == (a * 0x100 + b) * 0x100 + c;
    assert x / 0x1_0000 == a * 0x100 + b;
    assert x / 0x100_0000 == a;
  }

  predicate Nonzero(s: seq<byte>) {
    exists i :: 0 <= i < |s| && s[i] != 0
  }

  /** All strings one after the other. */
  function Joined(ss: seq<seq<byte>>): seq<byte> {
    if ss == [] then [] else Joined(ss[..|ss| - 1]) + ss[|ss| - 1]
  }

  lemma JoinedSnoc(ss: seq<seq<byte>>, s: seq<byte>)
    ensures Joined(ss + [s]) == Joined(ss) + s
  {
    assert (ss + [s])[..|ss|] == ss;
  }

  lemma {:induction false} JoinedCons(ss: seq<seq<byte>>)
    requires ss != []
    ensures Joined(ss) == ss[0] + Joined(ss[1..])
  {
    var last := |ss| - 1;
    if last == 0 {
      assert ss[..0] == [] && ss[1..] == [];
    } else {
      JoinedCons(ss[..last]);
      assert ss[..last][1..] == ss[1..][..last - 1];
      assert ss[0] + (Joined(ss[..last][1..]) + ss[last]) == ss[0] + Joined(ss[..last][1..]) + ss[last];
    }
  }
}
