/** From admission to forwarding: what follows the admission frame is what gets forwarded. */
module WorkAdmission {
  import opened Efrp
  import opened WireFrames
  import opened WireReader
  import opened WorkForward

  lemma FlattenOne(f: Frame)
    requires ValidKind(f.kind) && |f.payload| <= MAX_PAYLOAD
    ensures Flatten([f]) + [] + [] == Bytes(f)
  {
    assert [f] == [] + [f];
    FlattenSnoc([], f);
  }

  /** A reader that has delivered one frame and holds nothing else has read exactly that frame. */
  lemma OneFrame(c: Config, fed: seq<byte>)
    requires ConfigOk(c)
    requires var r := Fold(c, Fresh(false), fed); r.failure == Ok && |r.frames| == 1 && r.header == []
    ensures var f := Fold(c, Fresh(false), fed).frames[0];
            ValidKind(f.kind) && |f.payload| <= MAX_PAYLOAD && fed == Bytes(f)
  {
    hide Fold;
    var r := Fold(c, Fresh(false), fed);
    Reassembly(c, fed);
    assert r.frames == [r.frames[0]];
    FlattenOne(r.frames[0]);
  }

  /**
   The read that `handshake_work` makes: the stream gives `bytes`, after `before`.  The frame reader
   takes them up to the end of the admission frame.  Once that frame is accepted, forwarding starts,
   and the bytes received so far are the admission frame and what forwarding holds already.
   */
  method Admit(reader: FrameReader, bytes: seq<byte>, ghost before: seq<byte>, now: nat)
    returns (r: Result, work: Forwarder?)
    requires reader.Valid() && reader.failure == Ok && reader.frames == [] && |bytes| <= BUFFER_BYTES
    requires reader.Abs() == Fold(reader.config, Fresh(false), before)
    modifies reader, reader.storage
    ensures reader.Valid() && r == reader.failure && (work != null <==> r == Ok && reader.frames != [])
    ensures r == Ok && work == null ==> reader.Abs() == Fold(reader.config, Fresh(false), before + bytes)
    ensures work != null ==> fresh(work) && work.Valid() && work.phase == Connecting && |reader.frames| == 1
    ensures work != null ==>
              var f := reader.frames[0];
              ValidKind(f.kind) && |f.payload| <= MAX_PAYLOAD && before + bytes == Bytes(f) + work.log.fromStream
  {
    hide Fold, ReaderOk, Fresh;
    work := null;
    var used;
    r, used := reader.Feed(bytes, true);
    FreshOk(reader.config);
    FoldSplit(reader.config, Fresh(false), before, bytes[..used]);
    if r == Ok && reader.frames != [] {
      ghost var fed := before + bytes[..used];
      OneFrame(reader.config, fed);
      work := new Forwarder(bytes[used..], now);
      assert before + bytes == fed + bytes[used..];
    } else if r == Ok {
      assert bytes[..used] == bytes;
    }
  }
}
