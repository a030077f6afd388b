/**
 The Flash-backed record reader: it collects records from any chunking of the wire,
 keeps small ones in its window and large ones in the store, and hands out plaintext
 only after the whole record has verified.
 */
module AeadReader {
  import opened Efrp
  import opened AeadNonce
  import opened AeadSuite
  import opened AeadStore
  import opened AeadAlign

  const WINDOW_BYTES: nat := 4096
  const MAX_BODY: nat := MAX_PLAINTEXT + TAG_BYTES

  /** The record at hand. */
  datatype Rec = Rec(
    header: seq<byte>, tag: seq<byte>, digest: seq<byte>, bodyUsed: nat, bodyExpected: nat, sequence: nat, nonce: Nonce,
    plainUsed: nat, plainOffset: nat, windowUsed: nat, windowOffset: nat, ready: bool, inMemory: bool)

  const ZeroNonce: Nonce := [0, 0, 0, 0, 0, 0, 0, 0, 0, 0, 0, 0]
  const NoRec: Rec := Rec([], [], [], 0, 0, 0, ZeroNonce, 0, 0, 0, 0, false, false)

  /**
   What has happened: the bytes fed, the records they make, the ciphertexts that verified,
   the plaintext taken, the ciphertext of the record at hand, and whether every store pass so
   far returned what had been written.
   */
  datatype History = History(
    fed: seq<byte>, raw: seq<Record>, seen: seq<seq<byte>>, taken: seq<byte>, body: seq<byte>, honest: bool)

  /** The plaintext of each record that verified. */
  function Opened(c: Channel, seen: seq<seq<byte>>): (ps: seq<seq<byte>>)
    ensures |ps| == |seen| && forall i :: 0 <= i < |seen| ==> ps[i] == c.suite.decrypt(c.key, At(c.stream, i), seen[i])
  {
    seq(|seen|, i requires 0 <= i < |seen| => c.suite.decrypt(c.key, At(c.stream, i), seen[i]))
  }

  /** Record `i` is well framed, and the ciphertext that verified for it has its length and its tag. */
  predicate RecordOk(c: Channel, i: nat, r: Record, x: seq<byte>, honest: bool) {
    Framed(r) && |x| == |r.body| && Authentic(c, i, r.(body := x)) && (honest ==> x == r.body)
  }

  /** The finished records. */
  predicate Finished(c: Channel, raw: seq<Record>, seen: seq<seq<byte>>, honest: bool) {
    && |seen| == |raw|
    && (forall i :: 0 <= i < |raw| ==> RecordOk(c, i, raw[i], seen[i], honest))
    && (forall i :: 0 <= i < |raw| ==> !AllOnes(At(c.stream, i)))
  }

  lemma FinishedFramed(c: Channel, raw: seq<Record>, seen: seq<seq<byte>>, honest: bool)
    requires Finished(c, raw, seen, honest)
    ensures AllFramed(raw) && |seen| == |raw|
  {
  }

  /** Between records, or in the middle of one. */
  predicate Collecting(c: Channel, rec: Rec, h: History, window: seq<byte>) {
    && h.fed == c.stream + Flatten(h.raw) + rec.header + h.body + rec.tag
    && h.taken == Joined(Opened(c, h.seen))
    && |rec.header| <= 4 && rec.bodyUsed == |h.body| + |rec.tag|
    && rec.windowUsed == rec.windowOffset == rec.plainUsed == rec.plainOffset == 0
    && (|rec.header| < 4 ==> rec.bodyUsed == 0)
    && (|rec.header| == 4 ==> InRecord(c, rec, h, window))
  }

  predicate InRecord(c: Channel, rec: Rec, h: History, window: seq<byte>)
    requires |rec.header| == 4
  {
    && TAG_BYTES <= rec.bodyExpected == Load32(rec.header) <= MAX_BODY
    && rec.bodyUsed < rec.bodyExpected && |h.body| <= rec.bodyExpected - TAG_BYTES
    && (rec.tag != [] ==> |h.body| == rec.bodyExpected - TAG_BYTES)
    && rec.sequence == |h.raw| && rec.nonce == At(c.stream, |h.raw|) && !AllOnes(rec.nonce)
    && rec.inMemory == (rec.bodyExpected - TAG_BYTES <= WINDOW_BYTES)
    && (rec.inMemory ==> |h.body| <= |window| && window[..|h.body|] == h.body)
  }

  /** The pass over the record at hand. */
  function PassOf(c: Channel, rec: Rec): Pass {
    Pass(c.suite, c.key, rec.nonce, Aad(c.stream, rec.header), rec.sequence, rec.tag)
  }

  /** A verified record that is being handed out. */
  predicate Holding(c: Channel, rec: Rec, h: History, window: seq<byte>) {
    && h.raw != [] && |h.seen| == |h.raw|
    && (var last := |h.raw| - 1;
        var x := h.seen[last];
        var plain := Plain(PassOf(c, rec), x);
        && h.fed == c.stream + Flatten(h.raw)
        && rec.sequence == last && rec.nonce == At(c.stream, last)
        && rec.header == h.raw[last].header && rec.tag == h.raw[last].tag
        && |rec.header| == 4 && rec.bodyExpected == |x| + TAG_BYTES
        && |plain| == rec.plainUsed == |x| && rec.plainOffset < rec.plainUsed
        && h.taken == Joined(Opened(c, h.seen[..last])) + plain[..rec.plainOffset]
        && rec.inMemory == (|x| <= WINDOW_BYTES)
        && From(rec) <= Until(rec) && Shows(window, From(rec), Until(rec), plain, rec.plainOffset)
        && (!rec.inMemory ==>
              rec.digest == Digest(PassOf(c, rec), x) && (rec.windowUsed > 0 ==> rec.windowOffset < rec.windowUsed)))
  }

  /** The part of the window that the caller may look at. */
  function From(rec: Rec): nat {
    if rec.inMemory then rec.plainOffset else rec.windowOffset
  }

  function Until(rec: Rec): nat {
    if rec.inMemory then rec.plainUsed else rec.windowUsed
  }

  /** The window shows the plaintext from `offset` on. */
  predicate Shows(window: seq<byte>, from: nat, until: nat, plain: seq<byte>, offset: nat) {
    && until <= |window| && offset + (until - from) <= |plain|
    && (forall i :: from <= i < until ==> window[i] == plain[offset + i - from])
  }

  /** What the store does during one call. */
  datatype Reply = Reply(lease: Option<nat>, writeOk: bool, clearOk: bool, medium: Medium, lib: Library)

  /** All of the record at hand has arrived. */
  predicate Complete(c: Channel, rec: Rec, h: History, window: seq<byte>) {
    && Whole(c, rec, h)
    && (rec.inMemory ==> |h.body| <= |window| && window[..|h.body|] == h.body)
  }

  predicate Whole(c: Channel, rec: Rec, h: History) {
    && h.fed == c.stream + Flatten(h.raw) + rec.header + h.body + rec.tag
    && h.taken == Joined(Opened(c, h.seen))
    && rec.windowUsed == rec.windowOffset == rec.plainUsed == rec.plainOffset == 0
    && Framed(Record(rec.header, h.body, rec.tag)) && rec.bodyExpected == |h.body| + TAG_BYTES
    && rec.sequence == |h.raw| && rec.nonce == At(c.stream, |h.raw|) && !AllOnes(rec.nonce)
    && rec.inMemory == (|h.body| <= WINDOW_BYTES) && !rec.ready
  }

  class Reader {
    const suite: Suite
    const key: seq<byte>
    const window: array<byte>
    var stream: seq<byte>
    var nonce: Nonce
    var records: nat
    var rec: Rec
    var leased: bool
    var lease: nat
    var failure: Result
    ghost var h: History

    ghost function Chan(): Channel
      requires |stream| == NONCE_BYTES
      reads this
    {
      Channel(suite, key, stream)
    }

    /** The counters agree with the finished records. */
    ghost predicate Counted()
      requires |stream| == NONCE_BYTES
      reads this
    {
      Finished(Chan(), h.raw, h.seen, h.honest) && records == |h.raw| && nonce == At(stream, records)
    }

    ghost predicate Streaming()
      requires |stream| == NONCE_BYTES
      reads this, window
    {
      Counted() && if rec.ready then Holding(Chan(), rec, h, window[..]) else Collecting(Chan(), rec, h, window[..])
    }

    ghost predicate Valid()
      reads this, window
    {
      && Sound(suite) && window.Length == WINDOW_BYTES && |stream| <= NONCE_BYTES
      && (failure == Ok ==>
            if |stream| == NONCE_BYTES then Streaming()
            else rec == NoRec && records == 0 && !leased && h == History(stream, [], [], [], [], h.honest))
    }

    /** `efrp_aead_flash_reader_init`. */
    constructor (suite: Suite, key: seq<byte>, window: array<byte>)
      requires Sound(suite) && window.Length == WINDOW_BYTES
      ensures Valid() && failure == Ok && this.suite == suite && this.key == key && this.window == window
      ensures h == History([], [], [], [], [], true) && stream == []
    {
      this.suite, this.key, this.window := suite, key, window;
      stream, nonce, records, rec := [], ZeroNonce, 0, NoRec;
      leased, lease, failure := false, 0, Ok;
      h := History([], [], [], [], [], true);
    }

    /** `fail`: give the lease back; if that fails too, the reader reports the store. */
    method Fail(error: Result, clearOk: bool) returns (r: Result)
      requires Sound(suite) && window.Length == WINDOW_BYTES && |stream| <= NONCE_BYTES && error != Ok
      modifies this`failure, this`leased, this`lease
      ensures Valid() && r == failure != Ok && (!old(leased) || clearOk ==> r == error)
    {
      if leased && !clearOk {
        failure := StorageError;
      } else {
        leased, lease, failure := false, 0, error;
      }
      return failure;
    }

    /** Collect the stream nonce. */
    method TakeNonce(bytes: seq<byte>, c: nat) returns (consumed: nat)
      requires Valid() && failure == Ok && |stream| < NONCE_BYTES && c < |bytes|
      modifies this
      ensures Valid() && failure == Ok && c < consumed <= |bytes|
      ensures h == old(h).(fed := old(h).fed + bytes[c..consumed])
      ensures |stream| < NONCE_BYTES ==> consumed == |bytes|
      ensures |stream| == NONCE_BYTES ==> !rec.ready && rec.header == [] && h.raw == []
    {
      hide Sound;
      var n := Min(NONCE_BYTES - |stream|, |bytes| - c);
      stream := stream + bytes[c..c + n];
      consumed := c + n;
      h := h.(fed := stream);
      if |stream| == NONCE_BYTES {
        nonce := stream;
        assert Flatten([]) == [] && Opened(Chan(), []) == [] && Joined([]) == [];
        assert stream + [] + [] + [] + [] == stream;
      }
    }

    /** Collect the header of a record, and start the record when it is there. */
    method TakeHeader(bytes: seq<byte>, c: nat, lease: Option<nat>, clearOk: bool, ghost plains: seq<seq<byte>>)
      returns (r: Result, consumed: nat)
      requires Valid() && failure == Ok && |stream| == NONCE_BYTES && !rec.ready && |rec.header| < 4 && c <= |bytes|
      modifies this
      ensures Valid() && c <= consumed <= |bytes| && stream == old(stream)
      ensures r == failure
      ensures r == Ok ==> h == old(h).(fed := old(h).fed + bytes[c..consumed]) && !rec.ready && |rec.header| <= 4
      ensures r == Ok && |rec.header| < 4 ==> consumed == |bytes|
      ensures Sent(Chan(), plains, old(h).fed + bytes[c..consumed]) && lease.Some? && lease.value != 0 ==> r == Ok
    {
      hide Sound, Finished, Flatten, Joined, Opened, At, AllOnes;
      var n := Min(4 - |rec.header|, |bytes| - c);
      consumed := c + n;
      AppendHeader(Chan(), rec, h, window[..], bytes[c..consumed]);
      rec := rec.(header := rec.header + bytes[c..consumed]);
      h := h.(fed := h.fed + bytes[c..consumed]);
      if |rec.header| < 4 {
        return Ok, consumed;
      }
      FinishedFramed(Chan(), h.raw, h.seen, h.honest);
      if Sent(Chan(), plains, h.fed) {
        NextHeader(Chan(), plains, h.raw, rec.header);
      }
      r := StartRecord(lease, clearOk);
    }

    /** The header is complete: check it and choose where the ciphertext goes. */
    method StartRecord(lease: Option<nat>, clearOk: bool) returns (r: Result)
      requires Sound(suite) && window.Length == WINDOW_BYTES && |stream| == NONCE_BYTES && failure == Ok
      requires Counted() && AtHeader(Chan(), rec, h)
      modifies this
      ensures Valid() && r == failure && stream == old(stream) && h == old(h)
      ensures r == Ok ==> !rec.ready && rec.header == old(rec.header)
      ensures Startable(old(rec.header), old(records), old(nonce)) && lease.Some? && lease.value != 0 ==> r == Ok
    {
      hide Sound, Finished, Flatten, Joined, Opened, At;
      var size := Load32(rec.header);
      if size < TAG_BYTES || size > MAX_BODY {
        r := Fail(ProtocolError, clearOk);
        return;
      }
      var available := Available(nonce, records);
      if !available {
        r := Fail(CounterExhausted, clearOk);
        return;
      }
      rec := rec.(bodyExpected := size, sequence := records, nonce := nonce,
                  inMemory := size - TAG_BYTES <= WINDOW_BYTES);
      if !rec.inMemory {
        if lease.None? || lease.value == 0 {
          r := Fail(StorageError, clearOk);
          return;
        }
        leased, this.lease := true, lease.value;
      }
      return Ok;
    }

    /** `memcpy` into the window. */
    method PutWindow(at: nat, bytes: seq<byte>)
      requires at + |bytes| <= window.Length
      modifies window
      ensures window[..at + |bytes|] == old(window[..at]) + bytes
    {
      forall i | 0 <= i < |bytes| {
        window[at + i] := bytes[i];
      }
    }

    /** Take ciphertext of the record at hand. */
    method TakeBody(more: seq<byte>, writeOk: bool, clearOk: bool) returns (r: Result)
      requires Valid() && failure == Ok && |stream| == NONCE_BYTES && !rec.ready && |rec.header| == 4 && more != []
      requires rec.bodyUsed + |more| <= rec.bodyExpected - TAG_BYTES
      modifies this, window
      ensures Sound(suite) && window.Length == WINDOW_BYTES && stream == old(stream)
      ensures r == failure && (writeOk ==> r == Ok)
      ensures r == Ok ==> Valid() && !rec.ready && |rec.header| == 4 && rec == old(rec).(bodyUsed := rec.bodyUsed)
      ensures r == Ok ==> h == old(h).(fed := old(h).fed + more, body := h.body)
    {
      hide Sound, Finished, Flatten, Joined, Opened, At, AllOnes;
      AppendBody(Chan(), rec, h, window[..], more);
      if rec.inMemory {
        PutWindow(rec.bodyUsed, more);
      } else if !writeOk {
        r := Fail(StorageError, clearOk);
        return r;
      }
      h := h.(body := h.body + more, fed := h.fed + more);
      rec := rec.(bodyUsed := rec.bodyUsed + |more|);
      return Ok;
    }

    /** Take tag bytes of the record at hand; the record may become complete. */
    method TakeTag(more: seq<byte>)
      requires Valid() && failure == Ok && |stream| == NONCE_BYTES && !rec.ready && |rec.header| == 4 && more != []
      requires rec.bodyExpected - TAG_BYTES <= rec.bodyUsed && rec.bodyUsed + |more| <= rec.bodyExpected
      modifies this
      ensures Sound(suite) && window.Length == WINDOW_BYTES && stream == old(stream) && failure == Ok
      ensures Counted() && h == old(h).(fed := old(h).fed + more)
      ensures rec.bodyUsed < rec.bodyExpected ==> Valid() && !rec.ready && |rec.header| == 4
      ensures rec.bodyUsed >= rec.bodyExpected ==> Complete(Chan(), rec, h, window[..])
    {
      hide Sound, Finished, Flatten, Joined, Opened, At, AllOnes;
      AppendTag(Chan(), rec, h, window[..], more);
      rec := rec.(tag := rec.tag + more, bodyUsed := rec.bodyUsed + |more|);
      h := h.(fed := h.fed + more);
    }

    /** Take ciphertext or tag bytes of the record at hand; the record may become complete. */
    method TakeBytes(bytes: seq<byte>, c: nat, writeOk: bool, clearOk: bool) returns (r: Result, consumed: nat)
      requires Valid() && failure == Ok && |stream| == NONCE_BYTES && !rec.ready && |rec.header| == 4 && c < |bytes|
      modifies this, window
      ensures Sound(suite) && window.Length == WINDOW_BYTES && c < consumed <= |bytes| && stream == old(stream)
      ensures r == failure && (writeOk ==> r == Ok)
      ensures r == Ok ==> Counted() && h == old(h).(fed := old(h).fed + bytes[c..consumed], body := h.body)
      ensures r == Ok && rec.bodyUsed < rec.bodyExpected ==> Valid() && !rec.ready && |rec.header| == 4
      ensures r == Ok && rec.bodyUsed >= rec.bodyExpected ==> Complete(Chan(), rec, h, window[..])
    {
      hide Sound, Finished, Flatten, Joined, Opened, At, AllOnes, Complete, PassOf;
      var plainLength := rec.bodyExpected - TAG_BYTES;
      var n := Min(rec.bodyExpected - rec.bodyUsed, |bytes| - c);
      if rec.bodyUsed < plainLength {
        n := Min(n, plainLength - rec.bodyUsed);
        r := TakeBody(bytes[c..c + n], writeOk, clearOk);
      } else {
        TakeTag(bytes[c..c + n]);
        r := Ok;
      }
      consumed := c + n;
    }

    /** Verify the complete record: in the window, or by a pass over the store. */
    method Verify(reply: Reply) returns (r: Result, digest: seq<byte>, ghost x: seq<byte>)
      requires Sound(suite) && window.Length == WINDOW_BYTES && |stream| == NONCE_BYTES
      requires Complete(Chan(), rec, h, window[..])
      modifies window
      ensures r == Ok ==> Verified(PassOf(Chan(), rec), rec.inMemory, h.body, x, digest, window[..])
      ensures r == Ok && Honest(reply.medium, h.body) ==> x == h.body
      ensures Genuine(PassOf(Chan(), rec), h.body) && Honest(reply.medium, h.body) && Works(reply.lib, |h.body|) ==>
                r == Ok
    {
      hide Flatten, Joined, Opened, At, AllOnes;
      var p := Pass(suite, key, rec.nonce, Aad(stream, rec.header), rec.sequence, rec.tag);
      var plainLength := rec.bodyExpected - TAG_BYTES;
      PlainPrefix(p, h.body, []);
      hide Sound;
      x, digest := h.body, [];
      if rec.inMemory {
        assert window[..plainLength] == h.body;
        r := DecryptWindow(p, window, plainLength, reply.lib);
      } else {
        r, digest, x := DecryptStore(p, reply.medium, plainLength, 0, window, 0, None, reply.lib);
        assert Genuine(p, h.body) && Honest(reply.medium, h.body) ==>
                 Matches(p, reply.medium, plainLength, None, h.body);
      }
    }

    /** The record is complete: verify it, and hand it out or, if it is empty, go on to the next. */
    method FinishRecord(reply: Reply, ghost plains: seq<seq<byte>>) returns (r: Result)
      requires Sound(suite) && window.Length == WINDOW_BYTES && |stream| == NONCE_BYTES && failure == Ok
      requires Counted() && Complete(Chan(), rec, h, window[..])
      modifies this, window
      ensures Valid() && r == failure && stream == old(stream)
      ensures r == Ok ==> Advanced(old(h), h, Record(old(rec.header), old(h).body, old(rec.tag)))
      ensures r == Ok && Kept(reply.medium, old(h).body) && old(h).honest ==> h.honest
      ensures r == Ok ==> rec.ready == (old(h).body != []) && (!rec.ready ==> rec.header == [])
      ensures Sent(Chan(), plains, old(h).fed) &&
              Honest(reply.medium, old(h).body) && Works(reply.lib, |old(h).body|) ==>
                r == Ok
    {
      hide Sound, Finished, Flatten, Joined, Opened, AllOnes;
      ghost var c := Chan();
      FinishedFramed(c, h.raw, h.seen, h.honest);
      FinishedFed(c, rec, h);
      if Sent(c, plains, h.fed) {
        NextRecord(c, plains, h.raw, Record(rec.header, h.body, rec.tag));
      }
      var digest;
      ghost var x;
      r, digest, x := Verify(reply);
      if r != Ok {
        r := Fail(r, reply.clearOk);
        return;
      }
      Conclude(digest, x);
    }

    /** The record has verified: move on to the next nonce, which is left. */
    method Conclude(digest: seq<byte>, ghost x: seq<byte>)
      requires Sound(suite) && window.Length == WINDOW_BYTES && |stream| == NONCE_BYTES && failure == Ok
      requires Counted() && Whole(Chan(), rec, h)
      requires Verified(PassOf(Chan(), rec), rec.inMemory, h.body, x, digest, window[..])
      modifies this
      ensures Valid() && failure == Ok && stream == old(stream)
      ensures rec.ready == (old(h).body != []) && (!rec.ready ==> rec.header == [])
      ensures h == Later(old(rec), old(h), x).(body := h.body)
    {
      hide Sound, Finished, Flatten, Joined, Opened, AllOnes, Succ, At, Holding, Collecting;
      ghost var c := Chan();
      FinishedFramed(c, h.raw, h.seen, h.honest);
      LaterFinished(c, rec, h, x);
      AtNext(stream, records);
      var next, ok := NextNonce(nonce);
      assert ok;
      nonce, records := next, records + 1;
      if rec.bodyExpected > TAG_BYTES {
        LaterHolding(c, rec, h, x, digest, window[..]);
        h := Later(rec, h, x);
        rec := Ripe(rec, digest);
      } else {
        LaterCollecting(c, rec, h, x, window[..]);
        h := Later(rec, h, x).(body := []);
        rec := NoRec;
      }
    }

    /** The stream nonce is the first thing that was fed. */
    lemma StreamFed()
      requires Valid() && failure == Ok
      ensures stream <= h.fed
    {
      hide Flatten, Joined, Opened, Finished, Sound;
      if |stream| == NONCE_BYTES {
        if rec.ready {
          assert h.fed == stream + Flatten(h.raw);
        } else {
          assert h.fed == stream + (Flatten(h.raw) + rec.header + h.body + rec.tag);
        }
      }
    }

    /** Collect the stream nonce and the header of the next record. */
    method TakeFront(bytes: seq<byte>, c: nat, reply: Reply, ghost plains: seq<seq<byte>>)
      returns (r: Result, consumed: nat)
      requires Valid() && failure == Ok && !rec.ready && c < |bytes|
      modifies this
      ensures Valid() && r == failure && c <= consumed <= |bytes|
      ensures (|old(stream)| == NONCE_BYTES ==> stream == old(stream))
      ensures r == Ok ==> h == old(h).(fed := old(h).fed + bytes[c..consumed]) && !rec.ready
      ensures r == Ok && consumed < |bytes| ==> |stream| == NONCE_BYTES && |rec.header| == 4
      ensures r != Ok ==> |stream| == NONCE_BYTES
      ensures |stream| == NONCE_BYTES ==> stream <= old(h).fed + bytes[c..consumed]
      ensures |stream| == NONCE_BYTES && Sent(Chan(), plains, old(h).fed + bytes[c..consumed]) && LeaseOk(reply) ==>
                r == Ok
    {
      assert |rec.header| <= 4;
      StreamFed();
      hide Sound, Finished, Flatten, Joined, Opened, At, AllOnes, Holding, Collecting, Wire;
      consumed := c;
      ghost var start := h;
      assert bytes[c..c] == [] && h.fed + [] == h.fed;
      if |stream| < NONCE_BYTES {
        consumed := TakeNonce(bytes, c);
        if |stream| < NONCE_BYTES {
          return Ok, consumed;
        }
        StreamFed();
      }
      if |rec.header| < 4 {
        var mid := consumed;
        r, consumed := TakeHeader(bytes, mid, reply.lease, reply.clearOk, plains);
        assert bytes[c..consumed] == bytes[c..mid] + bytes[mid..consumed];
        Assoc(start.fed, bytes[c..mid], bytes[mid..consumed]);
      } else {
        r := Ok;
      }
    }

    /** Take bytes of the record at hand, and finish it if they are the last. */
    method TakeRest(bytes: seq<byte>, c: nat, reply: Reply, ghost plains: seq<seq<byte>>)
      returns (r: Result, consumed: nat)
      requires Valid() && failure == Ok && !rec.ready && c < |bytes| && |stream| == NONCE_BYTES && |rec.header| == 4
      modifies this, window
      ensures Valid() && r == failure && c < consumed <= |bytes| && stream == old(stream)
      ensures r == Ok ==> Steps(old(h), h, bytes[c..consumed], reply.medium)
      ensures r == Ok && |h.raw| == |old(h).raw| ==> !rec.ready
      ensures r == Ok && |h.raw| != |old(h).raw| ==> rec.ready == (h.raw[|h.raw| - 1].body != [])
      ensures Sent(Chan(), plains, old(h).fed + bytes[c..consumed]) && Serves(reply, Chan(), plains, |old(h).raw|) ==>
                r == Ok
      ensures Sent(Chan(), plains, old(h).fed + bytes[c..consumed]) && r == Ok && |h.raw| != |old(h).raw| ==>
                |old(h).raw| < |plains| && |h.raw[|h.raw| - 1].body| == |plains[|old(h).raw|]|
    {
      hide Sound, Finished, Flatten, Joined, Opened, At, AllOnes, Holding, Collecting, Wire;
      ghost var start := h;
      r, consumed := TakeBytes(bytes, c, reply.writeOk, reply.clearOk);
      if r != Ok {
        return;
      }
      if rec.bodyUsed >= rec.bodyExpected {
        ghost var whole, mid := Record(rec.header, h.body, rec.tag), h;
        if Sent(Chan(), plains, h.fed) {
          FinishedFramed(Chan(), h.raw, h.seen, h.honest);
          FinishedFed(Chan(), rec, h);
          NextRecord(Chan(), plains, h.raw, whole);
          SealParts(Chan(), |h.raw|, plains[|h.raw|]);
        }
        r := FinishRecord(reply, plains);
      }
    }

    /** One turn of the feed loop. */
    method Turn(bytes: seq<byte>, c: nat, reply: Reply, ghost w: Channel, ghost plains: seq<seq<byte>>,
                ghost start: History)
      returns (r: Result, consumed: nat)
      requires Valid() && failure == Ok && !rec.ready && c < |bytes| && Grew(start, h, bytes[..c], reply.medium)
      modifies this, window
      ensures Valid() && r == failure && c <= consumed <= |bytes|
      ensures r == Ok ==> c < consumed && Grew(start, h, bytes[..consumed], reply.medium)
      ensures Matching(w) && Expected(w, plains, start, bytes, reply) && |old(h).raw| == |start.raw| ==>
                r == Ok && (|h.raw| == |start.raw| || rec.ready)
    {
      hide Sound, Finished, Flatten, Joined, Opened, At, AllOnes, Holding, Collecting, Wire, Honest, Kept;
      ghost var mid, good := h, Matching(w) && Expected(w, plains, start, bytes, reply) && |h.raw| == |start.raw|;
      r, consumed := TakeFront(bytes, c, reply, plains);
      FedSoFar(start.fed, bytes, c, consumed);
      if good {
        WriterStream(w, plains, start.fed, bytes, consumed, stream);
      }
      if r != Ok {
        return;
      }
      GrewMore(start, mid, h, bytes, c, consumed, reply.medium);
      if consumed == |bytes| {
        return;
      }
      var d := consumed;
      mid := h;
      StreamFed();
      r, consumed := TakeRest(bytes, d, reply, plains);
      FedSoFar(start.fed, bytes, d, consumed);
      if good {
        WriterStream(w, plains, start.fed, bytes, consumed, stream);
        assert r == Ok;
      }
      if r != Ok {
        return;
      }
      GrewMore(start, mid, h, bytes, d, consumed, reply.medium);
    }

    /** The channel of a writer with the same keys. */
    ghost predicate Matching(w: Channel) {
      w.suite == suite && w.key == key
    }

    /**
     `efrp_aead_flash_feed`.  It consumes all bytes unless a record is waiting to be read.  On
     the bytes of an honest writer, with a store that keeps what it is given and a crypto
     library that works, it does not fail.
     */
    method Feed(bytes: seq<byte>, reply: Reply, ghost w: Channel, ghost plains: seq<seq<byte>>)
      returns (r: Result, consumed: nat)
      requires Valid()
      modifies this, window
      ensures Valid() && consumed <= |bytes|
      ensures old(failure) != Ok ==> r == old(failure) && failure == r && consumed == 0 && h == old(h)
      ensures r == (if failure != Ok then failure else if consumed < |bytes| then WouldBlock else Ok)
      ensures failure == Ok ==> Grew(old(h), h, bytes[..consumed], reply.medium)
      ensures failure == Ok && consumed < |bytes| ==> rec.ready
      ensures old(failure) == Ok && Matching(w) && Expected(w, plains, old(h), bytes, reply) ==> failure == Ok
    {
      consumed := 0;
      if failure != Ok {
        return failure, 0;
      }
      ghost var start := h;
      GrewNothing(h, reply.medium);
      assert bytes[..0] == [];
      hide Valid, Grew, Expected;
      while consumed < |bytes|
        invariant Valid() && failure == Ok && consumed <= |bytes| && Grew(start, h, bytes[..consumed], reply.medium)
        invariant Matching(w) && Expected(w, plains, start, bytes, reply) ==> |h.raw| == |start.raw| || rec.ready
      {
        if rec.ready {
          return WouldBlock, consumed;
        }
        r, consumed := Turn(bytes, consumed, reply, w, plains, start);
        if r != Ok {
          return;
        }
      }
      return Ok, consumed;
    }

    // ---------- handing out plaintext ----------

    /** The bytes the caller may look at. */
    ghost function Exposed(): seq<byte>
      requires Valid() && failure == Ok && rec.ready
      reads this, window
    {
      window[From(rec)..Until(rec)]
    }

    /** Check the whole record once more, and fill the window from where the caller stands. */
    method Refill(reply: Reply) returns (r: Result)
      requires Valid() && failure == Ok && rec.ready && !rec.inMemory && rec.windowUsed == 0
      modifies this, window
      ensures Valid() && r == failure && h == old(h)
      ensures r == Ok ==> rec == old(rec).(windowUsed := rec.windowUsed) && rec.windowUsed > 0
      ensures Honest(reply.medium, h.seen[|h.seen| - 1]) && Works(reply.lib, old(rec.plainUsed)) ==> r == Ok
    {
      hide Sound, Finished, Holding, Collecting, Flatten, Joined, Opened, Plain, Genuine, At, AllOnes, Bound;
      AtHand();
      ghost var c, x, before := Chan(), h.seen[|h.seen| - 1], window[..];
      var p := Pass(suite, key, rec.nonce, Aad(stream, rec.header), rec.sequence, rec.tag);
      var n := Min(rec.plainUsed - rec.plainOffset, WINDOW_BYTES);
      var digest;
      ghost var y;
      r, digest, y := DecryptStore(p, reply.medium, rec.plainUsed, rec.plainOffset, window, n, Some(rec.digest),
                                   reply.lib);
      assert Honest(reply.medium, x) ==> Matches(p, reply.medium, rec.plainUsed, Some(rec.digest), x);
      hide Honest, Works, Matches;
      if r != Ok {
        r := Fail(r, reply.clearOk);
        return;
      }
      SameDigest(suite, p.aad, p.nonce, p.sequence, p.tag, x, y);
      Refilled(c, rec, h, before, window[..], n);
      rec := rec.(windowUsed := n, windowOffset := 0);
    }

    /** `efrp_aead_flash_plaintext`: what comes next, in order, of the plaintext that verified. */
    method Plaintext(reply: Reply) returns (r: Result, bytes: seq<byte>)
      requires Valid()
      modifies this, window
      ensures Valid() && h == old(h)
      ensures r == if failure != Ok then failure else if !rec.ready then WouldBlock else Ok
      ensures r == Ok ==> bytes == Exposed() && bytes != [] && h.taken + bytes <= Joined(Opened(Chan(), h.seen))
      ensures old(failure) == Ok && old(rec.ready) &&
              Honest(reply.medium, h.seen[|h.seen| - 1]) && Works(reply.lib, old(rec.plainUsed)) ==>
                r == Ok
    {
      hide Sound, Finished, Joined, Opened, Flatten, Works, Honest, Holding, Collecting, Plain, Digest, Genuine, At,
           AllOnes;
      if failure != Ok {
        return failure, [];
      }
      if !rec.ready {
        return WouldBlock, [];
      }
      AtHand();
      if !rec.inMemory && rec.windowUsed == 0 {
        r := Refill(reply);
        if r != Ok {
          return r, [];
        }
        AtHand();
      }
      ExposedNext(Chan(), rec, h, window[..]);
      bytes := window[From(rec)..Until(rec)];
      return Ok, bytes;
    }

    /** `efrp_aead_flash_consume_plaintext`: the caller is done with `length` bytes of the window. */
    method Consume(length: nat, clearOk: bool) returns (r: Result)
      requires Valid()
      modifies this, window
      ensures Valid()
      ensures old(failure) != Ok ==> r == failure == old(failure) && h == old(h)
      ensures old(failure) == Ok && !(old(rec.ready) && 0 < length <= |old(Exposed())|) ==>
                r == InvalidArgument && h == old(h)
      ensures old(failure) == Ok && old(rec.ready) && 0 < length <= |old(Exposed())| && r == Ok ==>
                failure == Ok && h == old(h).(taken := old(h).taken + old(Exposed())[..length], body := h.body)
      ensures old(failure) == Ok && old(rec.ready) && 0 < length <= |old(Exposed())| && clearOk ==> r == Ok
    {
      hide Sound, Finished, Holding, Collecting;
      if failure != Ok {
        return failure;
      }
      if !rec.ready {
        return InvalidArgument;
      }
      AtHand();
      if length == 0 || length > Until(rec) - From(rec) {
        return InvalidArgument;
      }
      r := TakeOut(length, clearOk);
    }

    /** Wipe what was consumed, and end the record with its last byte. */
    method TakeOut(length: nat, clearOk: bool) returns (r: Result)
      requires Valid() && failure == Ok && rec.ready && 0 < length <= |Exposed()|
      modifies this, window
      ensures Valid() && r == failure && (clearOk ==> r == Ok)
      ensures r == Ok ==> h == old(h).(taken := old(h).taken + old(Exposed())[..length], body := h.body)
    {
      hide Sound, Finished, Collecting, Holding, Flatten, Joined, Opened, Plain;
      AtHand();
      assert Exposed() == window[From(rec)..Until(rec)];
      ghost var before, c := window[..], Chan();
      assert Exposed()[..length] == Taking(rec, before, length);
      var from := From(rec);
      forall i | from <= i < from + length {
        window[i] := 0;
      }
      assert Consuming(rec, before, window[..], length);
      if rec.plainOffset + length == rec.plainUsed {
        ConsumedAll(c, rec, h, before, window[..], length);
        h := h.(taken := h.taken + Taking(rec, before, length), body := []);
        rec := NoRec;
        if leased && !clearOk {
          r := Fail(StorageError, clearOk);
          return;
        }
        leased, lease := false, 0;
      } else {
        ConsumedSome(c, rec, h, before, window[..], length);
        h := h.(taken := h.taken + Taking(rec, before, length));
        rec := Moved(rec, length);
      }
      return Ok;
    }

    /** The record at hand, and the ciphertext that verified first for it. */
    lemma AtHand()
      requires Valid() && failure == Ok && rec.ready
      ensures |stream| == NONCE_BYTES && h.seen != [] && Holding(Chan(), rec, h, window[..])
      ensures var x := h.seen[|h.seen| - 1];
              && Genuine(PassOf(Chan(), rec), x)
              && |x| == rec.plainUsed <= MAX_PLAINTEXT && rec.plainOffset < rec.plainUsed
              && |Plain(PassOf(Chan(), rec), x)| == |x|
              && (!rec.inMemory ==> rec.digest == Digest(PassOf(Chan(), rec), x))
      ensures From(rec) <= Until(rec) <= WINDOW_BYTES && rec.plainOffset + (Until(rec) - From(rec)) <= rec.plainUsed
    {
      hide Flatten, Joined, Opened, Sound;
      var last := |h.raw| - 1;
      assert RecordOk(Chan(), last, h.raw[last], h.seen[last], h.honest);
    }
  }

  /** What the window exposes continues what was taken, and stays inside the plaintext that verified. */
  lemma ExposedNext(c: Channel, rec: Rec, h: History, window: seq<byte>)
    requires Holding(c, rec, h, window) && (rec.inMemory || rec.windowUsed > 0)
    ensures var bytes := window[From(rec)..Until(rec)]; bytes != [] && h.taken + bytes <= Joined(Opened(c, h.seen))
  {
    hide Joined, Opened, Flatten, Plain, Digest, At;
    var last := |h.raw| - 1;
    var plain := Plain(PassOf(c, rec), h.seen[last]);
    LastPlain(c, rec, h.seen);
    var bytes := window[From(rec)..Until(rec)];
    assert bytes == plain[rec.plainOffset..rec.plainOffset + |bytes|];
    var front, m := Joined(Opened(c, h.seen[..last])), rec.plainOffset + |bytes|;
    assert plain[..rec.plainOffset] + bytes == plain[..m];
    Assoc(front, plain[..rec.plainOffset], bytes);
    assert plain == plain[..m] + plain[m..];
    Assoc(front, plain[..m], plain[m..]);
  }

  lemma LastOpened(c: Channel, seen: seq<seq<byte>>)
    requires seen != []
    ensures var last := |seen| - 1;
            Joined(Opened(c, seen)) == Joined(Opened(c, seen[..last])) + Opened(c, seen)[last]
  {
    var last := |seen| - 1;
    assert Opened(c, seen)[..last] == Opened(c, seen[..last]);
  }

  /** The last of the verified plaintexts is that of the record at hand. */
  lemma LastPlain(c: Channel, rec: Rec, seen: seq<seq<byte>>)
    requires seen != [] && rec.nonce == At(c.stream, |seen| - 1)
    ensures var last := |seen| - 1;
            Joined(Opened(c, seen)) == Joined(Opened(c, seen[..last])) + Plain(PassOf(c, rec), seen[last])
  {
    hide Joined, At;
    LastOpened(c, seen);
  }

  /** The record at hand after `length` of its exposed bytes were consumed. */
  function Moved(rec: Rec, length: nat): Rec {
    var r := rec.(plainOffset := rec.plainOffset + length);
    if rec.inMemory then r
    else if rec.windowOffset + length == rec.windowUsed then r.(windowOffset := 0, windowUsed := 0)
    else r.(windowOffset := rec.windowOffset + length)
  }

  /** Consuming `length` bytes: the window changes only below what is left. */
  predicate Consuming(rec: Rec, before: seq<byte>, window: seq<byte>, length: nat) {
    && 0 < length && From(rec) + length <= Until(rec) <= |before| == |window|
    && forall i :: From(rec) + length <= i < Until(rec) ==> window[i] == before[i]
  }

  function Taking(rec: Rec, before: seq<byte>, length: nat): seq<byte>
    requires Consuming(rec, before, before, length)
  {
    before[From(rec)..From(rec) + length]
  }

  /** What is consumed is the next piece of the plaintext. */
  lemma TakingPlain(c: Channel, rec: Rec, h: History, before: seq<byte>, length: nat)
    requires Holding(c, rec, h, before) && Consuming(rec, before, before, length)
    ensures var plain := Plain(PassOf(c, rec), h.seen[|h.seen| - 1]);
            && rec.plainOffset + length <= |plain|
            && plain[..rec.plainOffset] + Taking(rec, before, length) == plain[..rec.plainOffset + length]
            && h.taken + Taking(rec, before, length) ==
               Joined(Opened(c, h.seen[..|h.seen| - 1])) + plain[..rec.plainOffset + length]
  {
    hide Joined, Opened, Flatten, Plain;
    var plain := Plain(PassOf(c, rec), h.seen[|h.seen| - 1]);
    var t := Taking(rec, before, length);
    assert t == plain[rec.plainOffset..rec.plainOffset + length];
    Assoc(Joined(Opened(c, h.seen[..|h.seen| - 1])), plain[..rec.plainOffset], t);
  }

  lemma ConsumedSome(c: Channel, rec: Rec, h: History, before: seq<byte>, window: seq<byte>, length: nat)
    requires Holding(c, rec, h, before) && Consuming(rec, before, window, length)
    requires rec.plainOffset + length < rec.plainUsed
    ensures Holding(c, Moved(rec, length), h.(taken := h.taken + Taking(rec, before, length)), window)
  {
    TakingPlain(c, rec, h, before, length);
    hide Joined, Opened, Flatten, Plain, Digest;
    assert PassOf(c, Moved(rec, length)) == PassOf(c, rec);
  }

  lemma ConsumedAll(c: Channel, rec: Rec, h: History, before: seq<byte>, window: seq<byte>, length: nat)
    requires Holding(c, rec, h, before) && Consuming(rec, before, window, length)
    requires rec.plainOffset + length == rec.plainUsed
    ensures Collecting(c, NoRec, h.(taken := h.taken + Taking(rec, before, length), body := []), window)
  {
    hide Joined, Opened, Flatten, Plain, Digest, At;
    TakingPlain(c, rec, h, before, length);
    var last := |h.seen| - 1;
    var plain := Plain(PassOf(c, rec), h.seen[last]);
    LastPlain(c, rec, h.seen);
    hide Taking, Consuming;
    assert plain[..rec.plainUsed] == plain;
    Assoc(Joined(Opened(c, h.seen[..last])), plain[..rec.plainOffset], Taking(rec, before, length));
    assert h.fed + [] + [] + [] == h.fed;
  }

  lemma Refilled(c: Channel, rec: Rec, h: History, before: seq<byte>, window: seq<byte>, n: nat)
    requires Holding(c, rec, h, before) && !rec.inMemory && rec.windowUsed == 0 && 0 < n <= |window|
    requires rec.plainOffset + n <= rec.plainUsed
    requires window[..n] == Plain(PassOf(c, rec), h.seen[|h.seen| - 1])[rec.plainOffset..rec.plainOffset + n]
    ensures Holding(c, rec.(windowUsed := n, windowOffset := 0), h, window)
  {
    hide Flatten, Joined, Opened, Plain, Digest;
    assert PassOf(c, rec.(windowUsed := n, windowOffset := 0)) == PassOf(c, rec);
    assert forall i :: 0 <= i < n ==> window[i] == window[..n][i];
  }

  /** The bytes come from an honest writer, and neither the store nor the library lets the reader down. */
  ghost predicate Expected(w: Channel, plains: seq<seq<byte>>, h: History, bytes: seq<byte>, reply: Reply) {
    Sent(w, plains, h.fed + bytes) && Serves(reply, w, plains, |h.raw|) && NoEmpty(plains)
  }

  /** A writer never makes an empty record. */
  predicate NoEmpty(plains: seq<seq<byte>>) {
    forall i :: 0 <= i < |plains| ==> plains[i] != []
  }

  /** What a call may do: consume bytes and finish records. */
  ghost predicate Grew(h: History, n: History, bytes: seq<byte>, medium: Medium) {
    && n.fed == h.fed + bytes && n.taken == h.taken && h.raw <= n.raw && h.seen <= n.seen
    && (h.honest && (forall i :: |h.raw| <= i < |n.raw| ==> Kept(medium, n.raw[i].body)) ==> n.honest)
  }

  lemma GrewNothing(h: History, medium: Medium)
    ensures Grew(h, h, [], medium)
  {
    assert h.fed + [] == h.fed;
  }

  lemma FedSoFar(fed: seq<byte>, bytes: seq<byte>, c: nat, d: nat)
    requires c <= d <= |bytes|
    ensures fed + bytes[..c] + bytes[c..d] == fed + bytes[..d]
  {
    Assoc(fed, bytes[..c], bytes[c..d]);
    assert bytes[..c] + bytes[c..d] == bytes[..d];
  }

  lemma GrewMore(h: History, m: History, n: History, bytes: seq<byte>, c: nat, d: nat, medium: Medium)
    requires c <= d <= |bytes| && Grew(h, m, bytes[..c], medium) && Steps(m, n, bytes[c..d], medium)
    ensures Grew(h, n, bytes[..d], medium)
  {
    hide Kept;
    FedSoFar(h.fed, bytes, c, d);
    assert forall i :: |h.raw| <= i < |m.raw| ==> n.raw[i] == m.raw[i];
    if |n.raw| != |m.raw| {
      assert n.raw[|n.raw| - 1] == n.raw[|m.raw|];
    }
  }

  /** The stream nonce that was collected is the writer's, and what was fed is the start of its bytes. */
  lemma WriterStream(w: Channel, plains: seq<seq<byte>>, fed: seq<byte>, bytes: seq<byte>, d: nat, stream: seq<byte>)
    requires Sent(w, plains, fed + bytes) && d <= |bytes|
    ensures Sent(w, plains, fed + bytes[..d])
    ensures |stream| == NONCE_BYTES && stream <= fed + bytes[..d] ==> stream == w.stream
  {
    hide Sound, Fit, AllOnes, At, Flatten, SealAll;
    assert fed + bytes[..d] <= fed + bytes;
  }

  /** A step of a call: some bytes were consumed, and at most one record was finished. */
  ghost predicate Steps(h: History, n: History, bytes: seq<byte>, medium: Medium) {
    && n.fed == h.fed + bytes && n.taken == h.taken
    && if |n.raw| == |h.raw| then n.raw == h.raw && n.seen == h.seen && n.honest == h.honest
       else
         && n.raw != [] && n.raw == h.raw + [n.raw[|n.raw| - 1]]
         && n.seen != [] && n.seen == h.seen + [n.seen[|n.seen| - 1]]
         && (h.honest && Kept(medium, n.raw[|n.raw| - 1].body) ==> n.honest)
  }

  /** The store still has record `k` of the writer as it was written, and the library works. */
  ghost predicate Serves(reply: Reply, c: Channel, plains: seq<seq<byte>>, k: nat)
    requires Fit(plains)
  {
    && reply.writeOk && LeaseOk(reply)
    && (k < |plains| ==> Honest(reply.medium, Seal(c, k, plains[k]).body) && Works(reply.lib, |plains[k]|))
  }

  predicate LeaseOk(reply: Reply) {
    reply.lease.Some? && reply.lease.value != 0
  }

  /** A record that fits the window does not need the store; a larger one is still there as written. */
  ghost predicate Kept(medium: Medium, body: seq<byte>) {
    |body| <= WINDOW_BYTES || Honest(medium, body)
  }

  /** The ciphertext `x` has verified, and its plaintext is in the window or its digest is known. */
  predicate Verified(p: Pass, inMemory: bool, body: seq<byte>, x: seq<byte>, digest: seq<byte>, window: seq<byte>) {
    && |x| == |body| && |Plain(p, x)| == |x| && Genuine(p, x)
    && (if inMemory then x == body && |x| <= |window| && window[..|x|] == Plain(p, x) else digest == Digest(p, x))
  }

  /** The history after the record at hand was verified as `x`. */
  function Later(rec: Rec, h: History, x: seq<byte>): History {
    h.(raw := h.raw + [Record(rec.header, h.body, rec.tag)], seen := h.seen + [x], honest := h.honest && x == h.body)
  }

  lemma LaterFinished(c: Channel, rec: Rec, h: History, x: seq<byte>)
    requires Finished(c, h.raw, h.seen, h.honest) && Whole(c, rec, h) && |x| == |h.body| && Genuine(PassOf(c, rec), x)
    ensures var n := Later(rec, h, x); Finished(c, n.raw, n.seen, n.honest)
  {
    hide Flatten, Joined, Opened, At, AllOnes, Framed;
    var n := Later(rec, h, x);
    var k := |h.raw|;
    assert RecordOk(c, k, n.raw[k], x, n.honest);
    assert forall i :: 0 <= i < k ==> RecordOk(c, i, h.raw[i], h.seen[i], h.honest);
  }

  /** The record at hand, verified and ready to be handed out. */
  function Ripe(rec: Rec, digest: seq<byte>): Rec
    requires rec.bodyExpected >= TAG_BYTES
  {
    rec.(plainUsed := rec.bodyExpected - TAG_BYTES, digest := digest, ready := true)
  }

  lemma LaterHolding(c: Channel, rec: Rec, h: History, x: seq<byte>, digest: seq<byte>, window: seq<byte>)
    requires |h.seen| == |h.raw| && Whole(c, rec, h) && rec.bodyExpected > TAG_BYTES
    requires Verified(PassOf(c, rec), rec.inMemory, h.body, x, digest, window)
    ensures Holding(c, Ripe(rec, digest), Later(rec, h, x), window)
  {
    hide Flatten, Joined, Opened, At, AllOnes, Plain, Digest, Bytes, Genuine;
    FinishedFed(c, rec, h);
    var n := Later(rec, h, x);
    assert n.seen[..|h.raw|] == h.seen;
    assert Joined(Opened(c, h.seen)) + [] == Joined(Opened(c, h.seen));
    assert PassOf(c, Ripe(rec, digest)) == PassOf(c, rec);
  }

  lemma {:induction false} OpenedSnoc(c: Channel, seen: seq<seq<byte>>, x: seq<byte>)
    ensures var n := |seen|;
            |Opened(c, seen + [x])| == n + 1 && Opened(c, seen + [x])[..n] == Opened(c, seen)
            && Opened(c, seen + [x])[n] == c.suite.decrypt(c.key, At(c.stream, n), x)
  {
    hide At, Opened;
    var n, l, r := |seen|, Opened(c, seen + [x]), Opened(c, seen);
    forall i | 0 <= i < n
      ensures l[i] == r[i]
    {
      assert (seen + [x])[i] == seen[i];
    }
    assert (seen + [x])[n] == x;
  }

  lemma LaterCollecting(c: Channel, rec: Rec, h: History, x: seq<byte>, window: seq<byte>)
    requires |h.seen| == |h.raw| && Whole(c, rec, h) && rec.bodyExpected == TAG_BYTES
    requires x == [] && |Plain(PassOf(c, rec), x)| == 0
    ensures Collecting(c, NoRec, Later(rec, h, x).(body := []), window)
  {
    hide Flatten, Joined, Opened, At, AllOnes, Bytes;
    FinishedFed(c, rec, h);
    var n := Later(rec, h, x);
    OpenedSnoc(c, h.seen, x);
    assert Opened(c, n.seen) == Opened(c, h.seen) + [[]];
    JoinedSnoc(Opened(c, h.seen), []);
    assert Joined(Opened(c, h.seen)) + [] == Joined(Opened(c, h.seen));
    assert n.fed + [] + [] + [] == n.fed;
  }

  /** One more record has been finished. */
  predicate Advanced(h: History, n: History, r: Record) {
    && n.fed == h.fed && n.taken == h.taken && n.raw == h.raw + [r]
    && |n.seen| == |h.seen| + 1 && n.seen[..|h.seen|] == h.seen
  }

  lemma FinishedFed(c: Channel, rec: Rec, h: History)
    requires Whole(c, rec, h)
    ensures var r := Record(rec.header, h.body, rec.tag);
            h.fed == c.stream + Flatten(h.raw) + Bytes(r) == c.stream + Flatten(h.raw + [r])
  {
    hide Flatten, Joined, Opened;
    var r := Record(rec.header, h.body, rec.tag);
    var front := c.stream + Flatten(h.raw);
    assert front + rec.header + h.body + rec.tag == front + Bytes(r);
    FlattenSnoc(h.raw, r);
    Assoc(c.stream, Flatten(h.raw), Bytes(r));
  }

  lemma AppendBody(c: Channel, rec: Rec, h: History, window: seq<byte>, more: seq<byte>)
    requires Collecting(c, rec, h, window) && |rec.header| == 4 && rec.bodyUsed < rec.bodyExpected - TAG_BYTES
    ensures rec.tag == [] && h.fed + more == c.stream + Flatten(h.raw) + rec.header + (h.body + more) + rec.tag
  {
    hide Flatten, Joined, Opened;
    var front := c.stream + Flatten(h.raw) + rec.header;
    assert front + h.body + [] == front + h.body;
    Assoc(front, h.body, more);
    assert front + (h.body + more) + [] == front + (h.body + more);
  }

  lemma AppendTag(c: Channel, rec: Rec, h: History, window: seq<byte>, more: seq<byte>)
    requires Collecting(c, rec, h, window)
    ensures h.fed + more == c.stream + Flatten(h.raw) + rec.header + h.body + (rec.tag + more)
  {
    hide Flatten, Joined, Opened;
    Assoc(c.stream + Flatten(h.raw) + rec.header + h.body, rec.tag, more);
  }

  /** The header is in range and a nonce is left. */
  predicate Startable(header: seq<byte>, records: nat, nonce: Nonce)
    requires |header| == 4
  {
    TAG_BYTES <= Load32(header) <= MAX_BODY && records < MAX_RECORDS && !AllOnes(nonce)
  }

  /** A header has just been completed. */
  predicate AtHeader(c: Channel, rec: Rec, h: History) {
    && h.fed == c.stream + Flatten(h.raw) + rec.header + h.body + rec.tag
    && h.taken == Joined(Opened(c, h.seen))
    && |rec.header| == 4 && h.body == [] && rec.tag == [] && rec.bodyUsed == 0 && !rec.ready
    && rec.windowUsed == rec.windowOffset == rec.plainUsed == rec.plainOffset == 0
  }

  lemma AppendHeader(c: Channel, rec: Rec, h: History, window: seq<byte>, more: seq<byte>)
    requires Collecting(c, rec, h, window) && |rec.header| + |more| <= 4 && |rec.header| < 4
    ensures h.fed + more == c.stream + Flatten(h.raw) + (rec.header + more)
    ensures h.fed + more == c.stream + Flatten(h.raw) + (rec.header + more) + h.body + rec.tag
  {
    hide Flatten, Joined, Opened;
    assert h.body == [] && rec.tag == [];
    var front := c.stream + Flatten(h.raw);
    assert front + rec.header + [] + [] == front + rec.header;
    Assoc(front, rec.header, more);
    assert front + (rec.header + more) + [] + [] == front + (rec.header + more);
  }
}
