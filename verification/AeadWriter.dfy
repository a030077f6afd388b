/** The record writer: one encrypted record at a time, in the caller's buffer. */
module AeadWriter {
  import opened Efrp
  import opened AeadNonce
  import opened AeadSuite

  const MIN_CAPACITY: nat := 33
  const MAX_CAPACITY: nat := MAX_PLAINTEXT + TAG_BYTES + 16

  lemma Grouped(head: seq<byte>, r: Record)
    ensures head + r.header + r.body + r.tag == head + Bytes(r)
  {
    assert head + (r.header + r.body + r.tag) == head + r.header + r.body + r.tag;
  }

  class Writer {
    const suite: Suite
    const key: seq<byte>
    const streamNonce: Nonce
    const nonce: array<byte>
    const storage: array<byte>
    var outputUsed: nat
    var outputOffset: nat
    var records: nat
    var nonceSent: bool
    var failure: Result

    /** The plaintext of every record so far, and every byte handed to the transport. */
    ghost var plains: seq<seq<byte>>
    ghost var sent: seq<byte>

    ghost function Chan(): Channel {
      Channel(suite, key, streamNonce)
    }

    /** The counter stands at the next record, and no nonce used so far was the last one. */
    ghost predicate CounterValid()
      reads this, nonce
    {
      && nonce.Length == NONCE_BYTES && nonce[..] == At(streamNonce, records) && records <= MAX_RECORDS
      && (forall i :: 0 <= i < records ==> !AllOnes(At(streamNonce, i)))
    }

    ghost predicate Valid()
      reads this, nonce, storage
    {
      && nonce != storage && MIN_CAPACITY <= storage.Length <= MAX_CAPACITY
      && outputOffset <= outputUsed <= storage.Length && (outputUsed > 0 ==> outputOffset < outputUsed)
      && CounterValid() && Fit(plains) && |plains| == records && (nonceSent <==> plains != [])
      && (forall i :: 0 <= i < |plains| ==> plains[i] != [])
      && (failure == Ok ==> sent + storage[outputOffset..outputUsed] == Wire(Chan(), plains))
    }

    /** `efrp_aead_writer_init`, with the nonce drawn at random. */
    constructor (suite: Suite, key: seq<byte>, stream: Nonce, buffer: array<byte>)
      requires MIN_CAPACITY <= buffer.Length <= MAX_CAPACITY
      ensures Valid() && failure == Ok && plains == [] && sent == [] && records == 0
      ensures Chan() == Channel(suite, key, stream) && storage == buffer && fresh(nonce)
    {
      this.suite, this.key, streamNonce, storage := suite, key, stream, buffer;
      nonce := new byte[NONCE_BYTES](i requires 0 <= i < NONCE_BYTES => stream[i]);
      outputUsed, outputOffset, records, nonceSent, failure := 0, 0, 0, false, Ok;
      plains, sent := [], [];
      new;
      assert nonce[..] == stream;
    }

    /** `memcpy` into the buffer, after the bytes `front`. */
    method Append(ghost front: seq<byte>, at: nat, bytes: seq<byte>)
      requires at == |front| && at + |bytes| <= storage.Length && storage[..at] == front
      modifies storage
      ensures storage[..at] == front && storage[..at + |bytes|] == front + bytes
    {
      forall k | 0 <= k < |bytes| {
        storage[at + k] := bytes[k];
      }
    }

    method Fail(error: Result) returns (r: Result)
      requires Valid() && error != Ok
      modifies this
      ensures Valid() && r == failure == error && plains == old(plains) && sent == old(sent) && records == old(records)
    {
      outputOffset, outputUsed, failure := 0, 0, error;
      return error;
    }

    /**
     `efrp_aead_write`: accept a prefix of `bytes` as one record.  It succeeds whenever the
     writer is sound and idle, the cipher works and a nonce is left.
     */
    method Write(bytes: seq<byte>, cipherOk: bool) returns (r: Result, written: nat)
      requires Valid() && Sound(suite)
      modifies this, nonce, storage
      ensures Valid() && sent == old(sent)
      ensures written == 0 ==> plains == old(plains)
      ensures written > 0 ==> written == Min(|bytes|, storage.Length - 32) && plains == old(plains) + [bytes[..written]]
      ensures r == if old(failure) != Ok then old(failure)
                   else if bytes == [] then Ok
                   else if old(outputUsed) > 0 then WouldBlock
                   else if old(records) >= MAX_RECORDS || AllOnes(old(nonce[..])) then CounterExhausted
                   else if !cipherOk then CryptoError
                   else Ok
      ensures r == Ok && bytes != [] ==> written > 0
      ensures r != Ok ==> written == 0
    {
      hide Sound, Wire;
      written := 0;
      if failure != Ok {
        return failure, 0;
      }
      if bytes == [] {
        return Ok, 0;
      }
      if outputUsed > 0 {
        return WouldBlock, 0;
      }
      var available := Available(nonce[..], records);
      if !available {
        r := Fail(CounterExhausted);
        return r, 0;
      }
      if !cipherOk {
        r := Fail(CryptoError);
        return r, 0;
      }
      var n := Min(|bytes|, storage.Length - 32);
      Commit(bytes[..n]);
      return Ok, n;
    }

    /** Encrypt one record and move on to the next nonce, which is left. */
    method Commit(p: seq<byte>)
      requires Valid() && Sound(suite) && failure == Ok && outputUsed == 0 && 0 < |p| <= storage.Length - 32
      requires !AllOnes(nonce[..]) && records < MAX_RECORDS
      modifies this, nonce, storage
      ensures Valid() && failure == Ok && sent == old(sent) && plains == old(plains) + [p]
    {
      hide Sound, Wire, Bytes, Seal, At, Succ, AllOnes, Fit;
      ghost var before, head := Wire(Chan(), plains), if nonceSent then [] else streamNonce;
      assert sent == before by {
        assert storage[outputOffset..outputUsed] == [];
      }
      FitSnoc(plains, p);
      WireSnoc(Chan(), plains, p);
      AtNext(streamNonce, records);
      var prefix := Emit(p);
      var ok := Increment(nonce);
      assert ok;
      outputUsed := prefix + 4 + |p| + TAG_BYTES;
      assert storage[outputOffset..outputUsed] == head + Bytes(Seal(Chan(), records, p));
      assert before + (head + Bytes(Seal(Chan(), records, p))) == before + head + Bytes(Seal(Chan(), records, p));
      records, nonceSent := records + 1, true;
      plains := plains + [p];
    }

    /** Header, then plaintext that is encrypted where it lies, then tag, after the bytes `head`. */
    method Lay(ghost head: seq<byte>, at: nat, h: seq<byte>, p: seq<byte>, x: seq<byte>, tag: seq<byte>)
      requires at == |head| && |x| == |p| && at + |h| + |p| + |tag| <= storage.Length && storage[..at] == head
      modifies storage
      ensures storage[..at + |h| + |p| + |tag|] == head + h + x + tag
    {
      Append(head, at, h);
      Append(head + h, at + |h|, p);
      Append(head + h, at + |h|, x);
      Append(head + h + x, at + |h| + |p|, tag);
    }

    /** Lay out one record at the start of the buffer and encrypt it in place. */
    method Emit(p: seq<byte>) returns (prefix: nat)
      requires Sound(suite) && 0 < |p| <= storage.Length - 32 && |p| <= MAX_PLAINTEXT
      requires nonce.Length == NONCE_BYTES && nonce[..] == At(streamNonce, records) && nonce != storage
      modifies storage
      ensures prefix == if nonceSent then 0 else NONCE_BYTES
      ensures storage[..prefix + 4 + |p| + TAG_BYTES] ==
              (if nonceSent then [] else streamNonce) + Bytes(Seal(Chan(), records, p))
    {
      hide Sound, Seal, Header, At, Aad, Bytes;
      var h := Header(|p|);
      var x := suite.encrypt(key, nonce[..], p);
      var tag := suite.tag(key, nonce[..], Aad(streamNonce, h), x);
      SealParts(Chan(), records, p);
      ghost var head: seq<byte> := if nonceSent then [] else streamNonce;
      Grouped(head, Record(h, x, tag));
      prefix := PutNonce();
      Lay(head, prefix, h, p, x, tag);
    }

    /** The stream nonce goes before the first record. */
    method PutNonce() returns (prefix: nat)
      requires NONCE_BYTES <= storage.Length
      modifies storage
      ensures prefix == if nonceSent then 0 else NONCE_BYTES
      ensures prefix <= storage.Length && storage[..prefix] == if nonceSent then [] else streamNonce
    {
      prefix := 0;
      if !nonceSent {
        Append([], 0, streamNonce);
        prefix := NONCE_BYTES;
      }
    }

    /** `efrp_aead_output`: the bytes still to be sent. */
    method Output() returns (r: Result, bytes: seq<byte>)
      requires Valid()
      ensures r == if failure != Ok then failure else if outputUsed == 0 then WouldBlock else Ok
      ensures r == Ok ==> bytes != [] && sent + bytes == Wire(Chan(), plains)
    {
      hide Wire;
      if failure != Ok {
        return failure, [];
      }
      if outputUsed == 0 {
        return WouldBlock, [];
      }
      return Ok, storage[outputOffset..outputUsed];
    }

    /** `efrp_aead_consume_output`: the transport took `length` bytes; they are wiped. */
    method ConsumeOutput(length: nat) returns (r: Result)
      requires Valid()
      modifies this, storage
      ensures Valid() && plains == old(plains) && records == old(records) && failure == old(failure)
      ensures r == if failure != Ok then failure
                   else if length > old(outputUsed - outputOffset) then InvalidArgument else Ok
      ensures sent == if r == Ok then old(sent + storage[outputOffset..outputOffset + length]) else old(sent)
    {
      hide Wire;
      if failure != Ok {
        return failure;
      }
      if length > outputUsed - outputOffset {
        return InvalidArgument;
      }
      ghost var rest := storage[outputOffset + length..outputUsed];
      assert storage[outputOffset..outputUsed] == storage[outputOffset..outputOffset + length] + rest;
      sent := sent + storage[outputOffset..outputOffset + length];
      forall k | outputOffset <= k < outputOffset + length {
        storage[k] := 0;
      }
      outputOffset := outputOffset + length;
      assert storage[outputOffset..outputUsed] == rest;
      if outputOffset == outputUsed {
        outputOffset, outputUsed := 0, 0;
      }
      return Ok;
    }
  }
}
