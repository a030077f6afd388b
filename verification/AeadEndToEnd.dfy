/** What a writer accepts is what a reader with the same key hands out. */
module AeadEndToEnd {
  import opened Efrp
  import opened AeadNonce
  import opened AeadSuite
  import opened AeadStore
  import opened AeadAlign
  import opened AeadWriter
  import opened AeadReader

  lemma {:induction false} JoinedPrefix(plains: seq<seq<byte>>, n: nat) returns (rest: seq<byte>)
    requires n <= |plains|
    ensures Joined(plains[..n]) + rest == Joined(plains)
    ensures n < |plains| ==> rest == plains[n] + Joined(plains[n + 1..])
    decreases |plains|
  {
    if n == |plains| {
      rest := [];
      assert plains[..n] == plains && Joined(plains) + [] == Joined(plains);
    } else {
      var last := |plains| - 1;
      var front := plains[..last];
      if n == last {
        rest := plains[n];
        assert plains[n + 1..] == [] && rest + Joined([]) == rest;
      } else {
        var r := JoinedPrefix(front, n);
        assert front[..n] == plains[..n];
        rest := r + plains[last];
        Assoc(Joined(plains[..n]), r, plains[last]);
        assert front[n + 1..] + [plains[last]] == plains[n + 1..];
        JoinedSnoc(front[n + 1..], plains[last]);
        Assoc(plains[n], Joined(front[n + 1..]), plains[last]);
      }
    }
  }

  /** Records that verified as they were fed open to what the writer sealed. */
  lemma OpensSealed(w: Channel, plains: seq<seq<byte>>, raw: seq<Record>, seen: seq<seq<byte>>)
    requires Sound(w.suite) && Fit(plains) && |raw| <= |plains| && raw == SealAll(w, plains)[..|raw|]
    requires Finished(w, raw, seen, true)
    ensures Opened(w, seen) == plains[..|raw|]
  {
    forall i | 0 <= i < |raw|
      ensures Opened(w, seen)[i] == plains[i]
    {
      assert RecordOk(w, i, raw[i], seen[i], true);
      SealOpens(w, i, plains[i]);
    }
  }

  /** The plaintext the reader stands on: taken so far, plus what is left of the record at hand. */
  lemma TakenPrefix(c: Channel, rec: Rec, h: History, window: seq<byte>) returns (rest: seq<byte>)
    requires if rec.ready then Holding(c, rec, h, window) else Collecting(c, rec, h, window)
    ensures h.taken + rest == Joined(Opened(c, h.seen))
    ensures !rec.ready ==> rest == []
  {
    hide Joined, Opened, Flatten, Plain, Digest, At;
    if rec.ready {
      var last := |h.raw| - 1;
      var plain := Plain(PassOf(c, rec), h.seen[last]);
      LastPlain(c, rec, h.seen);
      rest := plain[rec.plainOffset..];
      Assoc(Joined(Opened(c, h.seen[..last])), plain[..rec.plainOffset], rest);
      assert plain[..rec.plainOffset] + rest == plain;
    } else {
      rest := [];
      assert h.taken + [] == h.taken;
    }
  }

  /** The bytes of the record being collected. */
  function Partial(rec: Rec, h: History): seq<byte> {
    if rec.ready then [] else rec.header + h.body + rec.tag
  }

  lemma FedParts(c: Channel, rec: Rec, h: History, window: seq<byte>)
    requires if rec.ready then Holding(c, rec, h, window) else Collecting(c, rec, h, window)
    ensures h.fed == c.stream + Flatten(h.raw) + Partial(rec, h)
  {
    hide Joined, Opened, Flatten;
    var front := c.stream + Flatten(h.raw);
    if rec.ready {
      assert front + [] == front;
    } else {
      assert front + rec.header + h.body + rec.tag == front + (rec.header + h.body + rec.tag);
    }
  }

  /** A record being collected is never the whole of the writer's next one. */
  lemma NotWhole(w: Channel, plains: seq<seq<byte>>, k: nat, rec: Rec, h: History, window: seq<byte>, more: seq<byte>)
    requires Sound(w.suite) && Fit(plains) && k < |plains| && !rec.ready && Collecting(w, rec, h, window)
    ensures Partial(rec, h) != Bytes(Seal(w, k, plains[k])) + more
  {
    var r := Seal(w, k, plains[k]);
    SealOpens(w, k, plains[k]);
    hide Joined, Opened, Flatten, Sound, Seal;
    if |rec.header| == 4 {
      assert rec.header == Partial(rec, h)[..4] && r.header == (Bytes(r) + more)[..4];
      assert rec.header == r.header ==> |Partial(rec, h)| < |Bytes(r)|;
    }
  }

  /** Everything the reader knows about an honest writer's bytes. */
  lemma Delivered(w: Channel, plains: seq<seq<byte>>, rec: Rec, h: History, window: seq<byte>)
    requires if rec.ready then Holding(w, rec, h, window) else Collecting(w, rec, h, window)
    requires Finished(w, h.raw, h.seen, true) && Sent(w, plains, h.fed)
    ensures h.taken <= Joined(plains)
    ensures h.fed == Wire(w, plains) && !rec.ready ==> h.taken == Joined(plains)
  {
    FinishedFramed(w, h.raw, h.seen, true);
    FedParts(w, rec, h, window);
    var tail := Align(w, plains, h.raw, Partial(rec, h));
    var left := TakenPrefix(w, rec, h, window);
    OpensSealed(w, plains, h.raw, h.seen);
    var n := |h.raw|;
    var rest := JoinedPrefix(plains, n);
    if h.fed == Wire(w, plains) && !rec.ready {
      AllOfIt(w, plains, rec, h, window, tail);
      assert plains[..n] == plains;
      hide Sent, Finished, Collecting, Joined, Opened, SealAll, Flatten;
      assert left == [];
    } else {
      hide Sent, Finished, Holding, Collecting, Joined, Opened, SealAll, Flatten;
      Assoc(h.taken, left, rest);
      assert h.taken <= h.taken + (left + rest);
    }
  }

  /** When the writer's bytes have all been fed and no record is at hand, every record is finished. */
  lemma AllOfIt(w: Channel, plains: seq<seq<byte>>, rec: Rec, h: History, window: seq<byte>, tail: seq<byte>)
    requires !rec.ready && Collecting(w, rec, h, window) && Sent(w, plains, h.fed) && h.fed == Wire(w, plains)
    requires h.fed == w.stream + Flatten(h.raw) + Partial(rec, h) && |h.raw| <= |plains|
    requires h.raw == SealAll(w, plains)[..|h.raw|] && Partial(rec, h) + tail == Flatten(SealAll(w, plains)[|h.raw|..])
    ensures |h.raw| == |plains|
  {
    hide Sound, Collecting, Joined, Opened, Flatten, Partial, Bytes, Seal, AllOnes, At, Fit;
    var n, seals := |h.raw|, SealAll(w, plains);
    if n < |plains| {
      FlattenSplit(seals[..n], seals[n..]);
      assert seals == seals[..n] + seals[n..];
      FlattenHead(seals[n..]);
      var more := Flatten(seals[n..][1..]);
      NotWhole(w, plains, n, rec, h, window, more);
      assert Wire(w, plains) == w.stream + (Flatten(h.raw) + Flatten(seals[n..]));
      Assoc(w.stream, Flatten(h.raw), Partial(rec, h));
      Cancel(w.stream, Flatten(h.raw) + Partial(rec, h), Flatten(h.raw) + Flatten(seals[n..]));
      Cancel(Flatten(h.raw), Partial(rec, h), Flatten(seals[n..]));
      assert false;
    }
  }

  /**
   End to end.  A reader that was fed any part of what a writer with the same key has sent, in
   any chunks, has handed out a prefix of what the writer accepted; and all of it once everything
   has been sent, fed and read.
   */
  lemma EndToEnd(writer: Writer, reader: Reader)
    requires writer.Valid() && writer.failure == Ok
    requires reader.Valid() && reader.failure == Ok && reader.h.honest && |reader.stream| == NONCE_BYTES
    requires reader.suite == writer.suite && reader.key == writer.key && reader.h.fed <= writer.sent
    ensures reader.h.taken <= Joined(writer.plains)
    ensures reader.h.fed == writer.sent && writer.outputUsed == 0 && !reader.rec.ready ==>
              reader.h.taken == Joined(writer.plains)
  {
    var w := writer.Chan();
    var unsent := writer.storage[writer.outputOffset..writer.outputUsed];
    reader.StreamFed();
    SameStream(w, writer.plains, writer.sent + unsent, reader.stream, reader.h.fed);
    assert reader.Chan() == w;
    assert writer.outputUsed == 0 ==> unsent == [] && writer.sent + [] == writer.sent;
    hide Sound, Finished, Holding, Collecting, Wire, Joined, Fit, AllOnes, At;
    Delivered(w, writer.plains, reader.rec, reader.h, reader.window[..]);
  }

  /** The ciphertexts that verified are the ones sealed for the first records of `plains`. */
  predicate Unforged(w: Channel, plains: seq<seq<byte>>, seen: seq<seq<byte>>)
    requires Fit(plains)
  {
    |seen| <= |plains| && forall i :: 0 <= i < |seen| ==> seen[i] == Seal(w, i, plains[i]).body
  }

  lemma OpensUnforged(w: Channel, plains: seq<seq<byte>>, seen: seq<seq<byte>>)
    requires Sound(w.suite) && Fit(plains) && Unforged(w, plains, seen)
    ensures Opened(w, seen) == plains[..|seen|]
  {
    forall i | 0 <= i < |seen|
      ensures Opened(w, seen)[i] == plains[i]
    {
      SealOpens(w, i, plains[i]);
    }
  }

  /**
   Bytes changed in transit.  Whatever the reader was fed, as long as every record that verified
   carried the ciphertext the writer sealed under that nonce, which is what the tag is for, the
   reader has handed out a prefix of what the writer accepted.
   */
  lemma TamperedInTransit(writer: Writer, reader: Reader)
    requires writer.Valid() && reader.Valid() && reader.failure == Ok && |reader.stream| == NONCE_BYTES
    requires reader.suite == writer.suite && reader.key == writer.key
    requires reader.h.seen != [] ==> reader.stream == writer.streamNonce
    requires Unforged(writer.Chan(), writer.plains, reader.h.seen)
    ensures reader.h.taken <= Joined(writer.plains)
  {
    var w, c, n := writer.Chan(), reader.Chan(), |reader.h.seen|;
    assert Opened(c, reader.h.seen) == writer.plains[..n] by {
      if n == 0 {
        assert writer.plains[..0] == [];
      } else {
        OpensUnforged(w, writer.plains, reader.h.seen);
      }
    }
    hide Sound, Finished, Holding, Collecting, Wire, Joined, Opened, Fit, AllOnes, At, Unforged;
    var left := TakenPrefix(c, reader.rec, reader.h, reader.window[..]);
    var rest := JoinedPrefix(writer.plains, n);
    Assoc(reader.h.taken, left, rest);
    assert reader.h.taken <= reader.h.taken + (left + rest);
  }

  lemma SameStream(w: Channel, plains: seq<seq<byte>>, all: seq<byte>, stream: Nonce, fed: seq<byte>)
    requires Fit(plains) && all == Wire(w, plains) && fed <= all && stream <= fed
    ensures stream == w.stream
  {
    hide Flatten, SealAll;
    assert plains != [];
  }

  /** The writer seals record `k` under the stream nonce plus `k`, and never uses a nonce twice. */
  lemma WriterNonces(writer: Writer, j: nat, k: nat)
    requires writer.Valid() && j < k < writer.records
    ensures At(writer.streamNonce, j) != At(writer.streamNonce, k)
    ensures Value(At(writer.streamNonce, k)) == Value(writer.streamNonce) + k < NONCES
  {
    NoncesDistinct(writer.streamNonce, j, k);
  }

  /** The reader opens record `k` under the stream nonce plus `k`, and never uses a nonce twice. */
  lemma ReaderNonces(reader: Reader, j: nat, k: nat)
    requires reader.Valid() && reader.failure == Ok && |reader.stream| == NONCE_BYTES && j < k < |reader.h.raw|
    ensures Authentic(reader.Chan(), k, reader.h.raw[k].(body := reader.h.seen[k]))
    ensures At(reader.stream, j) != At(reader.stream, k)
    ensures Value(At(reader.stream, k)) == Value(reader.stream) + k < NONCES
  {
    assert RecordOk(reader.Chan(), k, reader.h.raw[k], reader.h.seen[k], reader.h.honest);
    NoncesDistinct(reader.stream, j, k);
  }

  /** A reader fed by a writer numbers its nonces from the writer's stream nonce. */
  lemma NoncesAgree(writer: Writer, reader: Reader, k: nat)
    requires writer.Valid() && writer.failure == Ok
    requires reader.Valid() && reader.failure == Ok && |reader.stream| == NONCE_BYTES && reader.h.fed <= writer.sent
    ensures At(reader.stream, k) == At(writer.streamNonce, k)
  {
    var unsent := writer.storage[writer.outputOffset..writer.outputUsed];
    reader.StreamFed();
    SameStream(writer.Chan(), writer.plains, writer.sent + unsent, reader.stream, reader.h.fed);
  }
}
