/** The sending side of the multiplexer: the control queue, the output slot and the credit grant in it. */
module YamuxSender {
  import opened Efrp
  import opened YamuxFrames
  import M = YamuxModel
  import opened YamuxRing

  function DecodeAll(v: seq<HeaderBytes>): (hs: seq<Header>)
    ensures |hs| == |v| && forall k :: 0 <= k < |v| ==> hs[k] == Decode(v[k])
  {
    seq(|v|, k requires 0 <= k < |v| => Decode(v[k]))
  }

  /** The frame encoded in an output buffer. */
  function OutFrame(buffer: seq<byte>): Option<M.Frame>
    requires buffer == [] || HEADER_BYTES <= |buffer|
  {
    if buffer == [] then None else Some(M.Frame(Decode(buffer[..HEADER_BYTES]), buffer[HEADER_BYTES..]))
  }

  /** A buffer is the wire form of the frame it decodes to. */
  lemma OutBytes(buffer: seq<byte>)
    requires HEADER_BYTES <= |buffer|
    ensures M.FrameBytes(OutFrame(buffer).value) == buffer
  {
    EncodeDecode(buffer[..HEADER_BYTES]);
  }

  lemma EncodeDecode(s: seq<byte>)
    requires |s| == HEADER_BYTES
    ensures Encode(Decode(s)) == s
  {
    Store32Load32(s[4..8]);
    Store32Load32(s[8..12]);
    var flags := (s[2] as nat) * 0x100 + s[3];
    assert flags / 0x100 == s[2] as nat && flags % 0x100 == s[3] as nat;
    assert s == [s[0], s[1], s[2], s[3]] + s[4..8] + s[8..12];
  }

  class Sender {
    const queue: ControlQueue
    var output: seq<byte>
    var outputOffset: nat
    var grantId: nat
    var grantBytes: nat
    var creditCursor: nat
    var preferData: bool
    var outputMs: nat

    ghost predicate Valid()
      reads this, queue, queue.slots
    {
      queue.Valid() && (output == [] || HEADER_BYTES <= |output|) && M.TxWf(State())
    }

    ghost function State(): M.TxState
      reads this, queue, queue.slots
      requires queue.Valid() && (output == [] || HEADER_BYTES <= |output|)
    {
      M.Tx(DecodeAll(queue.Value()), OutFrame(output), outputOffset, grantId, grantBytes, creditCursor,
           preferData, outputMs)
    }

    ghost function Value(): (t: M.Tx)
      reads this, queue, queue.slots
      requires Valid()
      ensures |t.controls| == queue.count <= M.CONTROL_SLOTS
      ensures (t.out.None? <==> output == []) && M.OutLength(t.out) == |output|
      ensures t.offset == outputOffset <= |output| && t.grantId == grantId && t.grantBytes == grantBytes
      ensures t.cursor == creditCursor && t.preferData == preferData && t.progressMs == outputMs
    {
      State()
    }

    /** The output buffer is the wire form of the frame in the slot. */
    lemma Bytes()
      requires Valid() && output != []
      ensures output == M.FrameBytes(Value().out.value)
    {
      OutBytes(output);
    }

    constructor ()
      ensures Valid() && Value() == M.Init(0).tx
      ensures fresh(queue) && fresh(queue.slots)
    {
      queue := new ControlQueue();
      output, outputOffset, grantId, grantBytes, creditCursor, preferData, outputMs := [], 0, 0, 0, 0, false, 0;
    }

    /** `queue`: append a control frame, if a slot is free. */
    method Queue(h: Header, now: nat) returns (r: Result)
      requires Valid() && Fits(h) && h.kind != DATA
      modifies this`outputMs, queue, queue.slots
      ensures Valid() && (Value(), r) == M.Queue(old(Value()), h, now)
    {
      hide Encode, Decode;
      if queue.count == M.CONTROL_SLOTS {
        return WouldBlock;
      }
      if queue.count == 0 && output == [] {
        outputMs := now;
      }
      queue.Put(Encode(h));
      assert State().controls == old(State().controls) + [h];
      return Ok;
    }

    /** Move the oldest control frame to the free output slot. */
    method LoadControl()
      requires Valid() && output == [] && queue.count > 0
      modifies this`output, queue
      ensures Valid()
      ensures Value() == old(Value()).(out := Some(M.Frame(old(Value()).controls[0], [])),
                                       controls := old(Value()).controls[1..])
    {
      hide Encode, Decode;
      var h := queue.Take();
      output := h;
      assert output[..HEADER_BYTES] == h;
      assert State().controls == old(State().controls)[1..];
    }

    /** Put a credit grant for stream `id` into the free output slot. */
    method LoadGrant(id: nat, bytes: nat, cursor: nat, now: nat)
      requires Valid() && output == [] && id <= U32_MAX && bytes <= U32_MAX && cursor < M.STREAMS
      modifies this
      ensures Valid()
      ensures Value() == old(Value()).(out := Some(M.Frame(Header(0, WINDOW, 0, id, bytes), [])),
                                       grantId := id, grantBytes := bytes, progressMs := now,
                                       cursor := cursor, preferData := true)
    {
      hide Encode, Decode;
      output := Encode(Header(0, WINDOW, 0, id, bytes));
      assert output[..HEADER_BYTES] == output;
      grantId, grantBytes, outputMs, creditCursor, preferData := id, bytes, now, cursor, true;
    }

    /** Put a DATA frame for stream `id` into the free output slot. */
    method LoadData(id: nat, body: seq<byte>, now: nat)
      requires Valid() && output == [] && id <= U32_MAX && |body| <= U32_MAX
      modifies this
      ensures Valid()
      ensures Value() == old(Value()).(out := Some(M.Frame(Header(0, DATA, 0, id, |body|), body)),
                                       progressMs := now, preferData := false)
    {
      hide Encode, Decode;
      var h := Encode(Header(0, DATA, 0, id, |body|));
      output := h + body;
      assert output[..HEADER_BYTES] == h && output[HEADER_BYTES..] == body;
      outputMs, preferData := now, false;
    }

    /** The transport took `length` more bytes of the output slot. */
    method Sent(length: nat, now: nat)
      requires Valid() && length <= |output| - outputOffset
      modifies this
      ensures Valid() && Value() == old(Value()).(offset := old(Value()).offset + length, progressMs := now)
    {
      outputOffset, outputMs := outputOffset + length, now;
    }

    /** Free the output slot. */
    method Finish()
      requires Valid()
      modifies this
      ensures Valid() && Value() == old(Value()).(grantId := 0, grantBytes := 0, out := None, offset := 0)
    {
      grantId, grantBytes, output, outputOffset := 0, 0, [], 0;
    }
  }
}
