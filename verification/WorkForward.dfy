/** Forwarding between a work stream and its local socket: nothing lost, nothing after a FIN. */
module WorkForward {
  import opened Efrp

  const BUFFER_BYTES: nat := 1024
  const IO_STALL_MS: nat := 2500
  const IDLE_MS: nat := 60000

  datatype Phase = Connecting | Active | Closing

  /** What a read answers: bytes (at most as many as asked for), the end, nothing yet, or an error. */
  datatype Input = Data(bytes: seq<byte>) | End | NotYet | Broken(error: Result)

  /** What a write or a half-close answers. */
  datatype Output = Took(count: nat) | Later | Refused(error: Result)

  /** The outside world during one call. */
  datatype Io = Io(
    connect: Output, streamRead: Input, localSend: Output, localClose: Output,
    localRead: Input, streamWrite: Output, streamClose: Output)

  /** The bytes a read delivers: between one and a whole buffer. */
  function Read(input: Input): seq<byte> {
    if input.Data? && 0 < |input.bytes| <= BUFFER_BYTES then input.bytes else []
  }

  /** What a direction passes on of the bytes it holds. */
  function Sent(held: seq<byte>, output: Output): seq<byte> {
    if output.Took? && output.count <= |held| then held[..output.count] else []
  }

  predicate Expired(since: nat, now: nat, limit: nat) {
    (now - since) % (U64_MAX + 1) >= limit
  }

  predicate IsError(error: Result) {
    error != Ok && error != WouldBlock
  }

  /** Every byte that came from and went to either side, and the FINs sent. */
  datatype Log = Log(
    fromStream: seq<byte>, toLocal: seq<byte>, fromLocal: seq<byte>, toStream: seq<byte>,
    localFin: bool, streamFin: bool)

  /** Nothing recorded is forgotten, and nothing follows a FIN. */
  predicate Grows(a: Log, b: Log) {
    && a.fromStream <= b.fromStream && a.toLocal <= b.toLocal && a.fromLocal <= b.fromLocal && a.toStream <= b.toStream
    && (a.localFin ==> b.localFin && b.toLocal == a.toLocal)
    && (a.streamFin ==> b.streamFin && b.toStream == a.toStream)
  }

  lemma GrowsTransitive(a: Log, b: Log, c: Log)
    requires Grows(a, b) && Grows(b, c)
    ensures Grows(a, c)
  {
  }

  /** Sending the front of a buffer loses nothing. */
  lemma MovesOn(sent: seq<byte>, buffer: seq<byte>, offset: nat, count: nat)
    requires offset + count <= |buffer|
    ensures sent + buffer[offset..] == sent + buffer[offset..offset + count] + buffer[offset + count..]
  {
  }

  lemma GrowsItself(a: Log)
    ensures Grows(a, a)
  {
  }

  /** Each source gave what was asked of it, or was not asked. */
  predicate Moved(a: Log, b: Log, fromStream: seq<byte>, fromLocal: seq<byte>) {
    && (b.fromStream == a.fromStream || b.fromStream == a.fromStream + fromStream)
    && (b.fromLocal == a.fromLocal || b.fromLocal == a.fromLocal + fromLocal)
  }

  lemma MovedNothing(a: Log)
    ensures forall x, y :: Moved(a, a, x, y)
  {
  }

  /** Both directions took what their sources gave, and passed on what their sinks took, from the front. */
  predicate Passed(a: Log, b: Log, heldIn: seq<byte>, givenIn: seq<byte>, heldOut: seq<byte>, givenOut: seq<byte>,
                   io: Io) {
    && b.fromStream == a.fromStream + givenIn && b.toLocal == a.toLocal + Sent(heldIn + givenIn, io.localSend)
    && b.fromLocal == a.fromLocal + givenOut && b.toStream == a.toStream + Sent(heldOut + givenOut, io.streamWrite)
  }

  class Forwarder {
    var phase: Phase
    var result: Result
    var incoming: seq<byte>
    var incomingOffset: nat
    var outgoing: seq<byte>
    var outgoingOffset: nat
    var remoteEof: bool
    var localEof: bool
    var localFin: bool
    var streamFin: bool
    var lastActivity: nat
    var incomingProgress: nat
    var outgoingProgress: nat
    var finProgress: nat

    ghost var log: Log

    /** The bytes held for the local socket, and for the stream. */
    function HeldIn(): seq<byte>
      reads this
    {
      if incomingOffset <= |incoming| then incoming[incomingOffset..] else []
    }

    function HeldOut(): seq<byte>
      reads this
    {
      if outgoingOffset <= |outgoing| then outgoing[outgoingOffset..] else []
    }

    /** What a direction takes from its source: only an empty buffer is refilled, and nothing after the end. */
    function GivenIn(input: Input): seq<byte>
      reads this
    {
      if incomingOffset == |incoming| && !remoteEof then Read(input) else []
    }

    function GivenOut(input: Input): seq<byte>
      reads this
    {
      if outgoingOffset == |outgoing| && !localEof then Read(input) else []
    }

    /** The state of one direction, for the other to leave alone. */
    ghost function InSide(): (seq<byte>, nat, bool, bool)
      reads this
    {
      (incoming, incomingOffset, remoteEof, localFin)
    }

    ghost function OutSide(): (seq<byte>, nat, bool, bool)
      reads this
    {
      (outgoing, outgoingOffset, localEof, streamFin)
    }

    /** The two directions while the stream is open. */
    ghost predicate Flowing()
      reads this
    {
      && incomingOffset <= |incoming| <= BUFFER_BYTES && outgoingOffset <= |outgoing| <= BUFFER_BYTES
      && log.toLocal + incoming[incomingOffset..] == log.fromStream
      && log.toStream + outgoing[outgoingOffset..] == log.fromLocal
      && (remoteEof ==> incomingOffset == |incoming|) && (localEof ==> outgoingOffset == |outgoing|)
      && (localFin ==> remoteEof) && (streamFin ==> localEof)
    }

    ghost predicate Valid()
      reads this
    {
      localFin == log.localFin && streamFin == log.streamFin &&
      if phase == Closing then
        && log.toLocal <= log.fromStream && log.toStream <= log.fromLocal
        && (localFin ==> log.toLocal == log.fromStream) && (streamFin ==> log.toStream == log.fromLocal)
        && (result == Ok ==> remoteEof && localFin && localEof && streamFin)
      else Flowing()
    }

    /** The admission frame has been read; `tail` came with it. */
    constructor (tail: seq<byte>, now: nat)
      requires |tail| <= BUFFER_BYTES
      ensures Valid() && phase == Connecting && log == Log(tail, [], [], [], false, false)
    {
      phase, result := Connecting, Ok;
      incoming, incomingOffset, outgoing, outgoingOffset := tail, 0, [], 0;
      remoteEof, localEof, localFin, streamFin := false, false, false, false;
      lastActivity, incomingProgress, outgoingProgress, finProgress := now, now, now, now;
      log := Log(tail, [], [], [], false, false);
    }

    /** `close_work`. */
    method Close(reason: Result)
      requires Valid() && phase != Closing && (reason == Ok ==> remoteEof && localFin && localEof && streamFin)
      modifies `phase, `result, `incoming, `incomingOffset, `outgoing, `outgoingOffset
      ensures Valid() && phase == Closing && result == reason && log == old(log)
    {
      assert log.toLocal <= log.fromStream && log.toStream <= log.fromLocal;
      assert incomingOffset == |incoming| ==> incoming[incomingOffset..] == [];
      assert outgoingOffset == |outgoing| ==> outgoing[outgoingOffset..] == [];
      phase, result := Closing, reason;
      incoming, incomingOffset, outgoing, outgoingOffset := [], 0, [], 0;
    }

    /** The idle and stall deadlines. */
    method CheckDeadlines(now: nat)
      requires Valid() && phase == Active
      modifies this
      ensures Valid() && log == old(log)
      ensures phase == Active ==> unchanged(this)
      ensures phase != Active ==> phase == Closing && result == Timeout
    {
      if Expired(lastActivity, now, IDLE_MS)
         || (|incoming| > incomingOffset && Expired(incomingProgress, now, IO_STALL_MS))
         || (|outgoing| > outgoingOffset && Expired(outgoingProgress, now, IO_STALL_MS)) {
        Close(Timeout);
      }
    }

    /** Refill the empty incoming buffer from the stream. */
    method PullStream(now: nat, input: Input)
      requires Valid() && phase == Active
      modifies this
      ensures phase != Connecting && (phase == Closing ==> result != Ok)
      ensures Valid() && Grows(old(log), log)
      ensures log == old(log).(fromStream := old(log).fromStream + old(GivenIn(input)))
      ensures phase == Active ==>
                && HeldIn() == old(HeldIn()) + old(GivenIn(input))
                && OutSide() == old(OutSide())
                && (remoteEof <==> old(remoteEof) || (input.End? && old(incomingOffset == |incoming|)))
      ensures old(incomingOffset < |incoming|) || old(remoteEof) ==> unchanged(this)
    {
      if |incoming| > incomingOffset || remoteEof {
        assert log.fromStream + [] == log.fromStream && HeldIn() + [] == HeldIn();
        return;
      }
      assert HeldIn() == [] && log.fromStream + [] == log.fromStream;
      match input
      case Data(bytes) =>
        if 0 < |bytes| <= BUFFER_BYTES {
          assert incoming[incomingOffset..] == [] && log.toLocal == log.fromStream;
          incoming, incomingOffset, incomingProgress := bytes, 0, now;
          log := log.(fromStream := log.fromStream + bytes);
        }
      case End => remoteEof, finProgress := true, now;
      case NotYet =>
      case Broken(error) =>
        if IsError(error) {
          Close(error);
        }
    }

    /** Send what is buffered to the local socket. */
    method PushLocal(now: nat, output: Output)
      requires Valid() && phase == Active
      modifies this
      ensures phase != Connecting && (phase == Closing ==> result != Ok)
      ensures Valid() && Grows(old(log), log)
      ensures log == old(log).(toLocal := old(log).toLocal + Sent(old(HeldIn()), output))
      ensures phase == Active ==> OutSide() == old(OutSide()) && remoteEof == old(remoteEof)
    {
      assert log.toLocal + [] == log.toLocal;
      if |incoming| == incomingOffset {
        return;
      }
      match output
      case Took(count) =>
        if count <= |incoming| - incomingOffset {
          ghost var sent := incoming[incomingOffset..incomingOffset + count];
          MovesOn(log.toLocal, incoming, incomingOffset, count);
          log := log.(toLocal := log.toLocal + sent);
          incomingOffset := incomingOffset + count;
          incomingProgress, lastActivity := now, now;
        }
      case Later =>
      case Refused(error) =>
        if IsError(error) {
          Close(error);
        }
    }

    /** The stream has ended: half-close the local socket, after its last byte. */
    method FinishLocal(now: nat, output: Output)
      requires Valid() && phase == Active
      modifies this
      ensures phase != Connecting && (phase == Closing ==> result != Ok)
      ensures Valid() && Grows(old(log), log) && log == old(log).(localFin := log.localFin)
      ensures phase == Active ==> OutSide() == old(OutSide())
      ensures phase == Active ==> (localFin <==> old(localFin) || (remoteEof && output.Took?))
      ensures localFin && !old(localFin) ==> log.toLocal == log.fromStream && remoteEof
    {
      if !remoteEof || localFin {
        return;
      }
      match output
      case Took(_) =>
        assert incoming[incomingOffset..] == [];
        localFin := true;
        log := log.(localFin := true);
      case Later =>
        if Expired(finProgress, now, IO_STALL_MS) {
          Close(Timeout);
        }
      case Refused(error) => Close(if error == Ok then Timeout else error);
    }

    /** Refill the empty outgoing buffer from the local socket. */
    method PullLocal(now: nat, input: Input)
      requires Valid() && phase == Active
      modifies this
      ensures phase != Connecting && (phase == Closing ==> result != Ok)
      ensures Valid() && Grows(old(log), log)
      ensures log == old(log).(fromLocal := old(log).fromLocal + old(GivenOut(input)))
      ensures phase == Active ==>
                && HeldOut() == old(HeldOut()) + old(GivenOut(input))
                && InSide() == old(InSide())
                && (localEof <==> old(localEof) || (input.End? && old(outgoingOffset == |outgoing|)))
      ensures old(outgoingOffset < |outgoing|) || old(localEof) ==> unchanged(this)
    {
      if |outgoing| > outgoingOffset || localEof {
        assert log.fromLocal + [] == log.fromLocal && HeldOut() + [] == HeldOut();
        return;
      }
      assert HeldOut() == [] && log.fromLocal + [] == log.fromLocal;
      match input
      case Data(bytes) =>
        if 0 < |bytes| <= BUFFER_BYTES {
          assert outgoing[outgoingOffset..] == [] && log.toStream == log.fromLocal;
          outgoing, outgoingOffset, outgoingProgress, lastActivity := bytes, 0, now, now;
          log := log.(fromLocal := log.fromLocal + bytes);
        }
      case End => localEof := true;
      case NotYet =>
      case Broken(error) =>
        if IsError(error) {
          Close(error);
        }
    }

    /** Send what is buffered to the stream. */
    method PushStream(now: nat, output: Output)
      requires Valid() && phase == Active
      modifies this
      ensures phase != Connecting && (phase == Closing ==> result != Ok)
      ensures Valid() && Grows(old(log), log)
      ensures log == old(log).(toStream := old(log).toStream + Sent(old(HeldOut()), output))
      ensures phase == Active ==> InSide() == old(InSide()) && localEof == old(localEof)
    {
      assert log.toStream + [] == log.toStream;
      if |outgoing| == outgoingOffset {
        return;
      }
      match output
      case Took(count) =>
        if count <= |outgoing| - outgoingOffset {
          ghost var sent := outgoing[outgoingOffset..outgoingOffset + count];
          MovesOn(log.toStream, outgoing, outgoingOffset, count);
          log := log.(toStream := log.toStream + sent);
          outgoingOffset := outgoingOffset + count;
          outgoingProgress, lastActivity := now, now;
        }
      case Later =>
      case Refused(error) =>
        if IsError(error) {
          Close(error);
        }
    }

    /** The local socket has ended: half-close the stream, after its last byte. */
    method FinishStream(output: Output)
      requires Valid() && phase == Active
      modifies this
      ensures phase != Connecting && (phase == Closing ==> result != Ok)
      ensures Valid() && Grows(old(log), log) && log == old(log).(streamFin := log.streamFin)
      ensures phase == Active ==> InSide() == old(InSide())
      ensures phase == Active ==> (streamFin <==> old(streamFin) || (localEof && output.Took?))
      ensures streamFin && !old(streamFin) ==> log.toStream == log.fromLocal && localEof
    {
      if !localEof || streamFin {
        return;
      }
      match output
      case Took(_) =>
        assert outgoing[outgoingOffset..] == [];
        streamFin := true;
        log := log.(streamFin := true);
      case Later =>
      case Refused(error) =>
        if IsError(error) {
          Close(error);
        }
    }

    /** The local connection is being made. */
    method Connect(now: nat, output: Output)
      requires Valid() && phase == Connecting
      modifies this
      ensures Valid() && log == old(log)
      ensures phase != Closing ==> InSide() == old(InSide()) && OutSide() == old(OutSide())
      ensures phase == if output.Took? then Active
                       else if output.Refused? && IsError(output.error) then Closing else Connecting
      ensures phase == Closing ==> result == output.error
    {
      match output
      case Took(_) => phase, lastActivity := Active, now;
      case Later =>
      case Refused(error) =>
        if IsError(error) {
          Close(error);
        }
    }

    /**
     `forward_work`.  Each side gets a prefix of what the other side sent, in order; a FIN is
     sent only after every byte of its direction; and a stream that closes with OK has forwarded
     both directions completely.
     */
    method Forward(now: nat, io: Io)
      requires Valid() && phase != Closing
      modifies this
      ensures Valid() && Grows(old(log), log)
      ensures log.toLocal <= log.fromStream && log.toStream <= log.fromLocal
      ensures localFin ==> log.toLocal == log.fromStream
      ensures streamFin ==> log.toStream == log.fromLocal
      ensures phase == Connecting ==> log == old(log)
      ensures Moved(old(log), log, old(GivenIn(io.streamRead)), old(GivenOut(io.localRead)))
      ensures phase == Active || (phase == Closing && result == Ok) ==>
                Passed(old(log), log, old(HeldIn()), old(GivenIn(io.streamRead)), old(HeldOut()),
                       old(GivenOut(io.localRead)), io)
      ensures phase == Closing && result == Ok ==>
                && remoteEof && localFin && localEof && streamFin
                && log.toLocal == log.fromStream && log.toStream == log.fromLocal
    {
      ghost var a := log;
      GrowsItself(a);
      MovedNothing(a);
      hide Grows, Moved, Passed, Read, Sent;
      if phase == Connecting {
        Connect(now, io.connect);
      }
      if phase == Active {
        CheckDeadlines(now);
      }
      if phase == Active {
        Both(now, io);
      }
      if phase == Active && remoteEof && localFin && localEof && streamFin {
        Close(Ok);
      }
      Prefixes();
    }

    /** One direction and then the other. */
    method Both(now: nat, io: Io)
      requires Valid() && phase == Active
      modifies this
      ensures Valid() && Grows(old(log), log) && phase != Connecting && (phase == Closing ==> result != Ok)
      ensures Moved(old(log), log, old(GivenIn(io.streamRead)), old(GivenOut(io.localRead)))
      ensures phase == Active ==>
                Passed(old(log), log, old(HeldIn()), old(GivenIn(io.streamRead)), old(HeldOut()),
                       old(GivenOut(io.localRead)), io)
    {
      ghost var a := log;
      hide Grows, Valid, Read, Sent;
      TowardsLocal(now, io);
      ghost var b := log;
      if phase == Active {
        TowardsStream(now, io);
        GrowsTransitive(a, b, log);
      }
    }

    /** From the stream to the local socket: what the stream gave comes in, what the socket took goes out. */
    method TowardsLocal(now: nat, io: Io)
      requires Valid() && phase == Active
      modifies this
      ensures Valid() && Grows(old(log), log) && phase != Connecting && (phase == Closing ==> result != Ok)
      ensures log == old(log).(fromStream := old(log).fromStream + old(GivenIn(io.streamRead)),
                               toLocal := log.toLocal, localFin := log.localFin)
      ensures phase == Active ==>
                && log.toLocal == old(log).toLocal +
                     Sent(old(HeldIn()) + old(GivenIn(io.streamRead)), io.localSend)
                && OutSide() == old(OutSide())
    {
      ghost var a := log;
      hide Grows, Valid, GivenIn, GivenOut, Sent;
      PullStream(now, io.streamRead);
      ghost var b := log;
      if phase == Active {
        PushLocal(now, io.localSend);
        GrowsTransitive(a, b, log);
      }
      b := log;
      if phase == Active {
        FinishLocal(now, io.localClose);
        GrowsTransitive(a, b, log);
      }
    }

    /** From the local socket to the stream. */
    method TowardsStream(now: nat, io: Io)
      requires Valid() && phase == Active
      modifies this
      ensures Valid() && Grows(old(log), log) && phase != Connecting && (phase == Closing ==> result != Ok)
      ensures log == old(log).(fromLocal := old(log).fromLocal + old(GivenOut(io.localRead)),
                               toStream := log.toStream, streamFin := log.streamFin)
      ensures phase == Active ==>
                && log.toStream == old(log).toStream +
                     Sent(old(HeldOut()) + old(GivenOut(io.localRead)), io.streamWrite)
                && InSide() == old(InSide())
    {
      ghost var a := log;
      hide Grows, Valid, GivenIn, GivenOut, Sent;
      PullLocal(now, io.localRead);
      ghost var b := log;
      if phase == Active {
        PushStream(now, io.streamWrite);
        GrowsTransitive(a, b, log);
      }
      b := log;
      if phase == Active {
        FinishStream(io.streamClose);
        GrowsTransitive(a, b, log);
      }
    }

    /** What the invariant says about the two directions. */
    lemma Prefixes()
      requires Valid()
      ensures log.toLocal <= log.fromStream && log.toStream <= log.fromLocal
      ensures (localFin ==> log.toLocal == log.fromStream) && (streamFin ==> log.toStream == log.fromLocal)
    {
      if phase != Closing {
        assert remoteEof ==> incoming[incomingOffset..] == [];
        assert localEof ==> outgoing[outgoingOffset..] == [];
      }
    }
  }
}
