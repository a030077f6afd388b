/**
 The multiplexer object driven by any sequence of calls: each call moves it as the run step does,
 so what holds of every run holds of the object and of the answers it gave.
 */
module YamuxSession {
  import opened Efrp
  import opened YamuxFrames
  import opened YamuxMux
  import M = YamuxModel
  import opened YamuxInvariant
  import opened YamuxDelivery
  import opened YamuxRuns

  /** What a call returns: its result, a stream id or a length, and bytes. */
  datatype Answer = Answer(r: Result, count: nat, bytes: seq<byte>)

  /** The next state and the answer that the model gives.  A ping tag is a 32-bit word. */
  function Outcome(m: M.Mux, c: Call): (M.Mux, Answer) {
    match c
    case CallOpen(memory) => var (n, r, id) := M.Open(m, memory); (n, Answer(r, id, []))
    case CallOutput => var (n, r, bytes) := M.Output(m); (n, Answer(r, 0, bytes))
    case CallConsume(length) => Plain(M.ConsumeOutput(m, length))
    case CallWrite(id, bytes) => var (n, r, count) := M.Write(m, id, bytes); (n, Answer(r, count, []))
    case CallRead(id, capacity) => var (n, r, bytes) := M.Read(m, id, capacity); (n, Answer(r, 0, bytes))
    case CallCloseWrite(id) => Plain(M.CloseWrite(m, id))
    case CallReset(id) => Plain(M.Reset(m, id))
    case CallRelease(id) => Plain(M.Release(m, id))
    case CallPing(tag) => if tag <= U32_MAX then Plain(M.Ping(m, tag)) else (m, Answer(InvalidArgument, 0, []))
    case CallGoAway => Plain(M.GoAway(m))
    case CallFeed(bytes) => var (n, r, count) := M.Feed(m, bytes); (n, Answer(r, count, []))
    case CallTick(now) => Plain(M.Tick(m, now))
  }

  function Plain(o: (M.Mux, Result)): (M.Mux, Answer) {
    (o.0, Answer(o.1, 0, []))
  }

  /** What the user of the object has seen: bytes fed, read and written, by its own count. */
  datatype Notes = Notes(fed: seq<byte>, got: Book, put: Book)

  /** The notes after an answer. */
  function Noted(s: Notes, c: Call, a: Answer): Notes {
    match c
    case CallFeed(bytes) => if a.count <= |bytes| then s.(fed := s.fed + bytes[..a.count]) else s
    case CallRead(id, _) => if a.r == Ok then s.(got := s.got[id := At(s.got, id) + a.bytes]) else s
    case CallWrite(id, bytes) =>
      if a.r == Ok && a.count <= |bytes| then s.(put := s.put[id := At(s.put, id) + bytes[..a.count]]) else s
    case _ => s
  }

  function NotesOf(log: Log): Notes {
    Notes(log.fed, log.got, log.put)
  }

  /** A step of the run is an outcome of the model, and its log is what a user would note. */
  lemma StepOutcome(w: World, c: Call)
    ensures Step(w, c).m == Outcome(w.m, c).0
    ensures NotesOf(Step(w, c).log) == Noted(NotesOf(w.log), c, Outcome(w.m, c).1)
  {
    hide M.Open, M.Output, M.ConsumeOutput, M.Write, M.Read, M.CloseWrite, M.Reset, M.Release, M.Ping, M.GoAway,
      M.Feed, M.Tick;
  }

  /** One call on the object. */
  method Perform(y: Yamux, c: Call) returns (a: Answer)
    requires y.Valid()
    modifies y, y.table, y.table.memory, y.Out()
    ensures y.Valid() && (y.Abs(), a) == Outcome(old(y.Abs()), c)
  {
    hide M.Open, M.Output, M.ConsumeOutput, M.Write, M.Read, M.CloseWrite, M.Reset, M.Release, M.Ping, M.GoAway,
      M.Feed, M.Tick;
    hide y.Valid, y.Abs;
    a := Answer(Ok, 0, []);
    var r, n, bytes := Ok, 0, [];
    match c {
      case CallOpen(memory) => r, n := y.Open(memory);
      case CallOutput => r, bytes := y.Output();
      case CallConsume(length) => r := y.ConsumeOutput(length);
      case CallWrite(id, body) => r, n := y.Write(id, body);
      case CallRead(id, capacity) => r, bytes := y.Read(id, capacity);
      case CallCloseWrite(id) => r := y.CloseWrite(id);
      case CallReset(id) => r := y.Reset(id);
      case CallRelease(id) => r := y.Release(id);
      case CallPing(tag) => if tag <= U32_MAX { r := y.Ping(tag); } else { r := InvalidArgument; }
      case CallGoAway => r := y.GoAway();
      case CallFeed(body) => r, n := y.Feed(body);
      case CallTick(now) => r := y.Tick(now);
    }
    a := Answer(r, n, bytes);
  }

  /**
   Any calls on a new object.  Its state is the end of the run of the same calls, and the notes of
   its answers are the run's; so its windows are conserved, what it delivered is a prefix of what
   the fed frames carry, what it sent is a prefix of what it accepted, and what it accepted stays
   within the credit the peer has granted.
   */
  method Drive(now: nat, calls: seq<Call>) returns (y: Yamux, notes: Notes, ghost w: World)
    ensures fresh(y) && y.Valid() && y.Abs() == w.m && NotesOf(w.log) == notes
    ensures w == Run(Start(now), calls) && Reachable(w)
    ensures Credit(y.Abs().streams, y.Abs().rx, y.Abs().tx.grantId, y.Abs().tx.grantBytes)
    ensures forall id :: At(notes.got, id) <= Payload(notes.fed, id) && Payload(w.log.sent, id) <= At(notes.put, id)
    ensures forall id :: |At(notes.put, id)| <= M.INITIAL_WINDOW + Increments(Hs(y.Abs().rx, notes.fed), id)
  {
    hide Outcome, Noted, Step, Reachable, Credit, M.Init, y.Valid, y.Abs;
    y := new Yamux(now);
    notes, w := Notes([], map[], map[]), Start(now);
    for k := 0 to |calls|
      invariant y.Valid() && y.Abs() == w.m && NotesOf(w.log) == notes && w == Run(Start(now), calls[..k])
      invariant fresh(y) && fresh(y.table) && fresh(y.table.memory) && fresh(y.Out())
    {
      StepOutcome(w, calls[k]);
      var a := Perform(y, calls[k]);
      notes := Noted(notes, calls[k], a);
      w := Step(w, calls[k]);
      assert calls[..k + 1][..k] == calls[..k];
    }
    assert calls[..|calls|] == calls;
    Ran(now, calls);
    Promises(w);
  }

  lemma Ran(now: nat, calls: seq<Call>)
    ensures Reachable(Run(Start(now), calls))
  {
  }

  lemma Promises(w: World)
    requires Reachable(w)
    ensures Credit(w.m.streams, w.m.rx, w.m.tx.grantId, w.m.tx.grantBytes)
    ensures forall id :: At(w.log.got, id) <= Payload(w.log.fed, id) && Payload(w.log.sent, id) <= At(w.log.put, id)
    ensures forall id :: |At(w.log.put, id)| <= M.INITIAL_WINDOW + Increments(Hs(w.m.rx, w.log.fed), id)
  {
    hide Reachable, Payload, Increments, Hs;
    var m := w.m;
    forall i | 0 <= i < M.STREAMS && Live(m.streams[i])
      ensures var s := m.streams[i]; Conserved(s, Pending(m.rx, s.id), InFlight(m.tx.grantId, m.tx.grantBytes, s.id))
    {
      CreditConservation(w, i);
    }
    forall id
      ensures At(w.log.got, id) <= Payload(w.log.fed, id) && Payload(w.log.sent, id) <= At(w.log.put, id)
      ensures |At(w.log.put, id)| <= M.INITIAL_WINDOW + Increments(Hs(w.m.rx, w.log.fed), id)
    {
      InOrderDelivery(w, id);
      EmittedLanguage(w, id);
    }
  }
}
