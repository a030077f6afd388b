/** The incremental frame reader over a caller's buffer. */
module WireReader {
  import opened Efrp
  import opened WireFrames

  /** A block of payload bytes that does not run past the frame. */
  lemma FoldBlock(c: Config, r: Reader, p: seq<byte>)
    requires ConfigOk(c) && ReaderOk(c, r) && r.failure == Ok && r.magic == |Magic()| && |r.header| == HEADER_BYTES
    requires p != [] && |r.payload| + |p| <= Length(r.header)
    ensures Fold(c, r, p) == Settle(c, r.(payload := r.payload + p))
  {
    var n := |p| - 1;
    FoldPayload(c, r, p[..n]);
    assert r.payload + p == r.payload + p[..n] + [p[n]];
    hide Length, ReaderOk, Settle;
    assert Fold(c, r, p) == Absorb(c, r.(payload := r.payload + p[..n]), p[n]);
  }

  /** One byte is a string of one byte. */
  lemma FoldOne(c: Config, r: Reader, s: seq<byte>, k: nat)
    requires ConfigOk(c) && ReaderOk(c, r) && k < |s|
    ensures Fold(c, r, s[k..k + 1]) == Absorb(c, r, s[k])
  {
    var t := s[k..k + 1];
    assert t[..0] == [] && t[0] == s[k];
  }

  class FrameReader {
    const config: Config
    const storage: array<byte>
    var magicUsed: nat
    var header: seq<byte>
    var payloadUsed: nat
    var failure: Result
    var frames: seq<Frame>

    ghost function Abs(): Reader
      requires payloadUsed <= storage.Length
      reads this, storage
    {
      Reader(magicUsed, header, storage[..payloadUsed], failure, frames)
    }

    ghost predicate Valid()
      reads this, storage
    {
      ConfigOk(config) && storage.Length == config.capacity && payloadUsed <= storage.Length && ReaderOk(config, Abs())
    }

    /** `efrp_wire_init`. */
    constructor (config: Config, buffer: array<byte>, expectMagic: bool)
      requires ConfigOk(config) && buffer.Length == config.capacity
      ensures Valid() && Abs() == Fresh(expectMagic) && this.config == config && storage == buffer
    {
      this.config, storage := config, buffer;
      magicUsed := if expectMagic then 0 else |Magic()|;
      header, payloadUsed, failure, frames := [], 0, Ok, [];
    }

    /** At most one frame was delivered, and the reader stands at its end. */
    ghost predicate AtMostOne(before: seq<Frame>)
      reads this
    {
      frames == before || (|frames| == |before| + 1 && (failure == Ok ==> header == []))
    }

    /** Hand over the frame if it is complete. */
    method Deliver()
      requires ConfigOk(config) && storage.Length == config.capacity && payloadUsed <= storage.Length
      requires |header| == HEADER_BYTES
      modifies this
      ensures payloadUsed <= storage.Length && Abs() == Settle(config, old(Abs())) && AtMostOne(old(frames))
    {
      if payloadUsed >= Length(header) {
        frames := frames + [Frame(Kind(header), storage[..payloadUsed])];
        if config.accepts(frames) {
          header, payloadUsed := [], 0;
        } else {
          failure := CallbackRejected;
        }
      }
    }

    /** A magic byte. */
    method TakeMagic(b: byte)
      requires Valid() && failure == Ok && magicUsed < |Magic()|
      modifies this
      ensures Valid() && Abs() == Absorb(config, old(Abs()), b) && AtMostOne(old(frames))
    {
      AbsorbOk(config, Abs(), b);
      if b != Magic()[magicUsed] {
        failure := ProtocolError;
      }
      magicUsed := magicUsed + 1;
    }

    /** A header byte; the last one is checked at once. */
    method TakeHeader(b: byte)
      requires Valid() && failure == Ok && magicUsed == |Magic()| && |header| < HEADER_BYTES
      modifies this
      ensures Valid() && Abs() == Absorb(config, old(Abs()), b) && AtMostOne(old(frames))
    {
      AbsorbOk(config, Abs(), b);
      header := header + [b];
      if |header| == HEADER_BYTES {
        if !HeaderOk(header) {
          failure := ProtocolError;
        } else if Length(header) > config.capacity {
          failure := CapacityExceeded;
        } else {
          Deliver();
        }
      }
    }

    /** `memcpy` behind the payload so far. */
    method Put(p: seq<byte>)
      requires payloadUsed + |p| <= storage.Length
      modifies this`payloadUsed, storage
      ensures payloadUsed == old(payloadUsed) + |p| && storage[..payloadUsed] == old(storage[..payloadUsed]) + p
    {
      forall i | 0 <= i < |p| {
        storage[payloadUsed + i] := p[i];
      }
      payloadUsed := payloadUsed + |p|;
    }

    /** As many payload bytes as there are, up to the end of the frame. */
    method TakePayload(bytes: seq<byte>, c: nat) returns (consumed: nat)
      requires Valid() && failure == Ok && magicUsed == |Magic()| && |header| == HEADER_BYTES && c < |bytes|
      modifies this, storage
      ensures Valid() && c < consumed <= |bytes| && Abs() == Fold(config, old(Abs()), bytes[c..consumed])
      ensures AtMostOne(old(frames))
    {
      hide Fold, Settle;
      var take := Min(Length(header) - payloadUsed, |bytes| - c);
      consumed := c + take;
      var p := bytes[c..consumed];
      FoldBlock(config, Abs(), p);
      hide ReaderOk;
      Put(p);
      Deliver();
    }

    /**
     `efrp_wire_feed` and, with `one`, `efrp_wire_feed_one`: the reader ends up where taking the
     consumed bytes one by one would leave it.  With `one` it stops right after a frame.
     */
    method Feed(bytes: seq<byte>, one: bool) returns (r: Result, consumed: nat)
      requires Valid()
      modifies this, storage
      ensures Valid() && consumed <= |bytes| && r == failure
      ensures Abs() == Fold(config, old(Abs()), bytes[..consumed])
      ensures failure == Ok && !one ==> consumed == |bytes|
      ensures failure == Ok && consumed < |bytes| ==> one && header == [] && |frames| == |old(frames)| + 1
      ensures one ==> |frames| <= |old(frames)| + 1
      ensures old(failure) == Ok && bytes != [] ==> consumed > 0
      ensures failure == Ok && |frames| > |old(frames)| && one ==> header == []
    {
      consumed := 0;
      assert bytes[..0] == [];
      if failure != Ok {
        return failure, 0;
      }
      ghost var start := Abs();
      var before := |frames|;
      FreshValid();
      hide ReaderOk, Absorb, Fold, ConfigOk;
      while consumed < |bytes|
        invariant Valid() && consumed <= |bytes| && failure == Ok
        invariant Abs() == Fold(config, start, bytes[..consumed])
        invariant one ==> |frames| == before
      {
        var c := consumed;
        consumed := Turn(bytes, c);
        FoldMore(config, start, bytes, c, consumed);
        if failure != Ok || (one && |frames| > before) {
          return failure, consumed;
        }
      }
      return Ok, consumed;
    }

    lemma FreshValid()
      requires Valid()
      ensures Abs() == Fold(config, Abs(), [])
    {
    }

    /** One magic or header byte, or a block of payload. */
    method Turn(bytes: seq<byte>, c: nat) returns (consumed: nat)
      requires Valid() && failure == Ok && c < |bytes|
      modifies this, storage
      ensures Valid() && c < consumed <= |bytes| && AtMostOne(old(frames))
      ensures Abs() == Fold(config, old(Abs()), bytes[c..consumed])
    {
      FoldOne(config, Abs(), bytes, c);
      consumed := c + 1;
      if magicUsed < |Magic()| {
        TakeMagic(bytes[c]);
      } else if |header| < HEADER_BYTES {
        TakeHeader(bytes[c]);
      } else {
        consumed := TakePayload(bytes, c);
      }
    }
  }

  lemma FoldMore(c: Config, r: Reader, bytes: seq<byte>, i: nat, j: nat)
    requires ConfigOk(c) && ReaderOk(c, r) && i <= j <= |bytes|
    ensures Fold(c, r, bytes[..j]) == Fold(c, Fold(c, r, bytes[..i]), bytes[i..j])
  {
    hide Fold, Absorb, ReaderOk;
    FoldSplit(c, r, bytes[..i], bytes[i..j]);
    assert bytes[..i] + bytes[i..j] == bytes[..j];
  }
}
