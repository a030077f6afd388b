/** The login handshake: it sends first, then takes exactly two frames and not a byte more. */
module Handshake {
  import opened Efrp
  import opened WireFrames
  import opened WireReader

  datatype State = Sending | Hello | Login | Done | Taken | Failed

  /** What the handshake makes of a ServerHello and of a LoginResp payload. */
  datatype Judge = Judge(hello: seq<byte> -> Result, login: seq<byte> -> Result)

  /** The verdict on the last of these frames. */
  function Verdict(j: Judge, frames: seq<Frame>): Result {
    if |frames| == 1 then if frames[0].kind == SERVER_HELLO then j.hello(frames[0].payload) else ProtocolError
    else if |frames| == 2 then if frames[1].kind == MESSAGE then j.login(frames[1].payload) else ProtocolError
    else ProtocolError
  }

  /** The frame handler of the handshake. */
  function Accepts(j: Judge): seq<Frame> -> bool {
    frames => Verdict(j, frames) == Ok
  }

  /** The frames have been accepted one after the other. */
  predicate AllAccepted(j: Judge, frames: seq<Frame>) {
    |frames| <= 2 && forall k :: 1 <= k <= |frames| ==> Verdict(j, frames[..k]) == Ok
  }

  /** A reader without failure has accepted every frame it delivered; a rejected frame was the last. */
  predicate Judged(j: Judge, r: Reader) {
    (r.failure == Ok ==> AllAccepted(j, r.frames)) && (r.failure == CallbackRejected ==> Verdict(j, r.frames) != Ok)
  }

  lemma {:induction false} FoldAccepted(c: Config, j: Judge, s: seq<byte>)
    requires ConfigOk(c) && c.accepts == Accepts(j)
    ensures Judged(j, Fold(c, Fresh(false), s))
  {
    if s != [] {
      FoldAccepted(c, j, s[..|s| - 1]);
      var r := Fold(c, Fresh(false), s[..|s| - 1]);
      AbsorbAccepted(c, j, r, s[|s| - 1]);
    }
  }

  lemma AbsorbAccepted(c: Config, j: Judge, r: Reader, b: byte)
    requires ConfigOk(c) && c.accepts == Accepts(j) && ReaderOk(c, r) && Judged(j, r)
    ensures Judged(j, Absorb(c, r, b))
  {
    var n := Absorb(c, r, b);
    if n.failure == Ok && n.frames != r.frames {
      var k := |r.frames|;
      assert n.frames[..k] == r.frames && n.frames[..k + 1] == n.frames;
      assert Verdict(j, n.frames) == Ok;
      forall m | 1 <= m <= |n.frames|
        ensures Verdict(j, n.frames[..m]) == Ok
      {
        if m <= k {
          assert n.frames[..m] == r.frames[..m];
        }
      }
    }
  }

  lemma FedMore(start: seq<byte>, bytes: seq<byte>, c: nat, n: nat)
    requires c + n <= |bytes|
    ensures start + bytes[..c] + bytes[c..][..n] == start + bytes[..c + n]
  {
    assert bytes[..c] + bytes[c..][..n] == bytes[..c + n];
  }

  lemma AtMostTwo(j: Judge, frames: seq<Frame>)
    ensures AllAccepted(j, frames) ==> |frames| <= 2
  {
  }

  class Handshake {
    const judge: Judge
    const reader: FrameReader
    var state: State
    var failure: Result
    var output: seq<byte>
    var outputOffset: nat
    ghost var fed: seq<byte>

    ghost predicate Valid()
      reads this, reader, reader.storage
    {
      && reader.Valid() && reader.config.accepts == Accepts(judge) && outputOffset <= |output|
      && (failure != Ok <==> state == Failed)
      && (state == Sending ==> fed == [])
      && (state != Failed && state != Taken ==>
            && reader.Abs() == Fold(reader.config, Fresh(false), fed) && reader.failure == Ok
            && |reader.frames| == (match state case Login => 1 case Done => 2 case _ => 0)
            && (state == Done ==> reader.header == []))
    }

    /** `efrp_handshake_init`, once the two outgoing frames are built. */
    constructor (judge: Judge, buffer: array<byte>, output: seq<byte>)
      requires 0 < buffer.Length <= MAX_PAYLOAD && output != []
      ensures Valid() && state == Sending && this.judge == judge && this.output == output && outputOffset == 0
      ensures fed == []
      ensures fresh(reader) && reader.storage == buffer
    {
      this.judge := judge;
      reader := new FrameReader(Config(buffer.Length, Accepts(judge)), buffer, false);
      state, failure, this.output, outputOffset := Sending, Ok, output, 0;
      fed := [];
    }

    /** `efrp_handshake_consume_output`: the handshake listens only after its last byte has gone out. */
    method ConsumeOutput(length: nat) returns (r: Result)
      requires Valid()
      modifies this
      ensures Valid() && fed == old(fed)
      ensures r == if old(failure) != Ok then old(failure)
                   else if old(state) != Sending then InvalidState
                   else if length > old(|output| - outputOffset) then InvalidArgument else Ok
      ensures r == Ok ==> output[outputOffset..] == old(output[outputOffset..])[length..]
      ensures r == Ok ==> state == if length == old(|output| - outputOffset) then Hello else Sending
      ensures r != Ok ==> unchanged(this)
    {
      if failure != Ok {
        return failure;
      }
      if state != Sending {
        return InvalidState;
      }
      if length > |output| - outputOffset {
        return InvalidArgument;
      }
      outputOffset := outputOffset + length;
      if outputOffset == |output| {
        output, outputOffset, state := [], 0, Hello;
      }
      return Ok;
    }

    /**
     `efrp_handshake_feed`.  Nothing is taken before all output is gone or after the second
     frame.  When the handshake is done, the bytes it took are exactly a ServerHello and a
     LoginResp frame that were both accepted; every later byte is left to the caller.
     */
    method Feed(bytes: seq<byte>) returns (r: Result, consumed: nat)
      requires Valid()
      modifies this, reader, reader.storage
      ensures Valid() && consumed <= |bytes| && fed == old(fed) + bytes[..consumed]
      ensures old(state) == Sending || old(state) == Done || old(state) == Taken || old(state) == Failed ==>
                consumed == 0 && state == old(state)
      ensures old(state) == Sending || old(state) == Done ==> r == WouldBlock
      ensures state != Failed && (old(state) == Hello || old(state) == Login) ==>
                r == Ok && (consumed == |bytes| || state == Done)
      ensures state == Failed ==> r == failure && (old(state) != Failed ==> failure == Cause())
      ensures state == Done && old(state) != Done ==> Finished()
    {
      consumed := 0;
      assert bytes[..0] == [] && fed + [] == fed;
      assert failure != Ok <==> state == Failed;
      hide Valid, Finished, Cause;
      if failure != Ok {
        return failure, 0;
      }
      if state == Sending || state == Done {
        return WouldBlock, 0;
      }
      if state == Taken {
        return InvalidState, 0;
      }
      r, consumed := Listen(bytes);
    }

    /** The loop of `Feed`: frame by frame, up to the second one. */
    method Listen(bytes: seq<byte>) returns (r: Result, consumed: nat)
      requires Valid() && (state == Hello || state == Login)
      modifies this, reader, reader.storage
      ensures Valid() && consumed <= |bytes| && fed == old(fed) + bytes[..consumed]
      ensures state == Hello || state == Login || state == Done || state == Failed
      ensures state != Failed ==> r == Ok && (consumed == |bytes| || state == Done)
      ensures state == Failed ==> r == failure == Cause()
      ensures state == Done ==> Finished()
    {
      hide Valid, Finished, Cause;
      consumed := 0;
      assert bytes[..0] == [] && fed + [] == fed;
      ghost var start := fed;
      while consumed < |bytes|
        invariant Valid() && consumed <= |bytes| && fed == start + bytes[..consumed]
        invariant state == Hello || state == Login
      {
        var n := Turn(bytes[consumed..]);
        FedMore(start, bytes, consumed, n);
        consumed := consumed + n;
        if state == Failed {
          return failure, consumed;
        }
        if state == Done {
          Exactly();
          return Ok, consumed;
        }
      }
      return Ok, consumed;
    }

    /** Why the handshake failed: the verdict on a rejected frame, or what the frame reader says. */
    ghost function Cause(): Result
      reads this, reader
    {
      if reader.failure == CallbackRejected then Verdict(judge, reader.frames) else reader.failure
    }

    /** One turn: up to the end of one frame. */
    method Turn(bytes: seq<byte>) returns (n: nat)
      requires Valid() && (state == Hello || state == Login) && bytes != []
      modifies this, reader, reader.storage
      ensures Valid() && 0 < n <= |bytes| && fed == old(fed) + bytes[..n]
      ensures state == Hello || state == Login || state == Done || state == Failed
      ensures state == Failed ==> failure == Cause()
    {
      hide Fold, ReaderOk, Verdict, AllAccepted, Fresh, Accepts;
      FreshOk(reader.config);
      var r;
      r, n := reader.Feed(bytes, true);
      FoldSplit(reader.config, Fresh(false), fed, bytes[..n]);
      fed := fed + bytes[..n];
      FoldAccepted(reader.config, judge, fed);
      AtMostTwo(judge, reader.frames);
      if r != Ok {
        failure, state := if r == CallbackRejected then Verdict(judge, reader.frames) else r, Failed;
      } else {
        state := if |reader.frames| == 0 then Hello else if |reader.frames| == 1 then Login else Done;
      }
    }

    /** `efrp_handshake_take_result`: the result can be taken once, and the handshake is over. */
    method TakeResult() returns (r: Result)
      requires Valid()
      modifies this
      ensures Valid() && fed == old(fed)
      ensures r == if old(failure) != Ok then old(failure) else if old(state) == Done then Ok else InvalidState
      ensures state == if r == Ok then Taken else old(state)
    {
      if failure != Ok {
        return failure;
      }
      if state != Done {
        return InvalidState;
      }
      state := Taken;
      return Ok;
    }

    /** The bytes taken are two accepted frames, printed. */
    ghost predicate Finished()
      reads this, reader
    {
      var f := reader.frames;
      && |f| == 2 && f[0].kind == SERVER_HELLO && f[1].kind == MESSAGE
      && judge.hello(f[0].payload) == Ok && judge.login(f[1].payload) == Ok
      && |f[0].payload| <= MAX_PAYLOAD && |f[1].payload| <= MAX_PAYLOAD && fed == Bytes(f[0]) + Bytes(f[1])
    }

    lemma Exactly()
      requires Valid() && state == Done
      ensures Finished()
    {
      var f := reader.frames;
      Reassembly(reader.config, fed);
      FoldAccepted(reader.config, judge, fed);
      assert f[..1] == [f[0]] && f[..2] == f;
      assert Verdict(judge, f[..1]) == Ok && Verdict(judge, f[..2]) == Ok;
      FlattenTwo(f);
    }
  }

  lemma FlattenTwo(f: seq<Frame>)
    requires |f| == 2 && forall i :: 0 <= i < 2 ==> ValidKind(f[i].kind) && |f[i].payload| <= MAX_PAYLOAD
    ensures Flatten(f) + [] + [] == Bytes(f[0]) + Bytes(f[1])
  {
    assert f == [f[0]] + [f[1]] && [f[0]] == [] + [f[0]];
    FlattenSnoc([f[0]], f[1]);
    FlattenSnoc([], f[0]);
  }
}
