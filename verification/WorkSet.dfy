/** The three work slots of a TCP provider: one admission at a time, two local sockets at most. */
module WorkSet {
  import opened Efrp

  const SLOTS: nat := 3
  const SOCKETS: nat := 2

  datatype Phase = Sending | Waiting | Connecting | Active | Closing

  /** A slot, and whether its stream holds a local socket. */
  datatype Slot = Empty | Work(phase: Phase, local: bool)

  /** `parser` is the slot whose stream set up the shared parser buffer, while it is allocated. */
  datatype State = State(slots: seq<Slot>, parser: Option<nat>, pending: nat, shared: bool)

  function Init(): State {
    State([Empty, Empty, Empty], None, 0, false)
  }

  predicate Admitting(s: Slot) {
    s.Work? && (s.phase == Sending || s.phase == Waiting)
  }

  predicate Socket(s: Slot) {
    s.Work? && s.local
  }

  /** How many of the slots are in use in some way. */
  function Count(slots: seq<Slot>, p: Slot -> bool): nat {
    if slots == [] then 0 else Count(slots[..|slots| - 1], p) + if p(slots[|slots| - 1]) then 1 else 0
  }

  function FirstEmpty(slots: seq<Slot>, i: nat): (r: nat)
    requires i <= |slots|
    ensures i <= r <= |slots| && (r < |slots| ==> slots[r].Empty?)
    decreases |slots| - i
  {
    if i == |slots| || slots[i].Empty? then i else FirstEmpty(slots, i + 1)
  }

  /** `efrp_work_request`. */
  function Request(s: State): State {
    if s.pending == 3 then s else s.(pending := s.pending + 1)
  }

  /** `close_work`: an admission gives the parser buffer back. */
  function Close(s: State, i: nat): State
    requires i < |s.slots|
  {
    var w := s.slots[i];
    if w.Empty? || w.phase == Closing then s
    else s.(parser := if Admitting(w) then None else s.parser, slots := s.slots[i := w.(phase := Closing)])
  }

  /** The admission part of `efrp_work_step`: whether a stream could be opened, and its request built. */
  function Admit(s: State, available: bool, built: bool): State {
    var i := FirstEmpty(s.slots, 0);
    if s.pending == 0 || Count(s.slots, Admitting) > 0 || i == |s.slots| || !available then s
    else
      var n := s.(slots := s.slots[i := Work(Sending, false)], pending := s.pending - 1);
      if built then n else Close(n, i)
  }

  /** What the outside world does to a stream in one step. */
  datatype Turn = Turn(fails: bool, sent: bool, read: bool, memory: bool, started: bool, connects: bool, freed: bool,
                       released: bool)

  /** The admission frame is complete: connect to the local target if a socket is left. */
  function Start(s: State, i: nat, connects: bool): State
    requires i < |s.slots| && s.slots[i].Work?
  {
    var n := s.(parser := None, slots := s.slots[i := s.slots[i].(phase := Waiting)]);
    if Count(s.slots, Busy) >= SOCKETS || !connects then Close(n, i)
    else n.(slots := n.slots[i := Work(Connecting, true)])
  }

  /** What the admission counts: streams being served, and sockets still to be closed. */
  predicate Busy(s: Slot) {
    s.Work? && (s.phase == Connecting || s.phase == Active || (s.phase == Closing && s.local))
  }

  /** `handshake_work`. */
  function Handshake(s: State, i: nat, t: Turn): State
    requires i < |s.slots| && s.slots[i].Work?
  {
    if t.fails then Close(s, i)
    else if s.slots[i].phase == Sending && !t.sent then s
    else
      var n := s.(slots := s.slots[i := s.slots[i].(phase := Waiting)]);
      if !t.read then n
      else if n.parser.None? && !t.memory then Close(n, i)
      else
        var m := n.(shared := n.shared || (n.parser.Some? && n.parser.value != i),
                    parser := if n.parser.None? then Some(i) else n.parser);
        if t.started then Start(m, i, t.connects) else m
  }

  /** `cleanup_work`: free the socket, then the slot. */
  function Cleanup(s: State, i: nat, t: Turn): State
    requires i < |s.slots| && s.slots[i].Work?
  {
    var local := s.slots[i].local && !t.freed;
    if !local && t.released then s.(slots := s.slots[i := Empty])
    else s.(slots := s.slots[i := s.slots[i].(local := local)])
  }

  /** One stream's share of `step_streams`. */
  function Step(s: State, i: nat, t: Turn): State
    requires i < |s.slots|
  {
    match s.slots[i]
    case Empty => s
    case Work(phase, local) =>
      if phase == Closing then Cleanup(s, i, t)
      else if Admitting(s.slots[i]) then Handshake(s, i, t)
      else if t.fails then Close(s, i)
      else s.(slots := s.slots[i := Work(Active, local)])
  }

  datatype Action = Ask | Open(available: bool, built: bool) | Serve(i: nat, t: Turn)

  function Next(s: State, a: Action): State {
    match a
    case Ask => Request(s)
    case Open(available, built) => Admit(s, available, built)
    case Serve(i, t) => if i < |s.slots| then Step(s, i, t) else s
  }

  function Run(actions: seq<Action>): State {
    if actions == [] then Init() else Next(Run(actions[..|actions| - 1]), actions[|actions| - 1])
  }

  ghost predicate Reachable(s: State) {
    exists actions :: s == Run(actions)
  }

  // ---------- invariant ----------

  predicate SlotOk(s: Slot) {
    s.Work? ==> (Admitting(s) ==> !s.local) && (s.phase == Connecting || s.phase == Active ==> s.local)
  }

  predicate Inv(s: State) {
    && |s.slots| == SLOTS && (forall i :: 0 <= i < SLOTS ==> SlotOk(s.slots[i]))
    && Count(s.slots, Admitting) <= 1 && Count(s.slots, Socket) <= SOCKETS
    && (s.parser.Some? ==> s.parser.value < SLOTS && Admitting(s.slots[s.parser.value]))
    && !s.shared && s.pending <= 3
  }

  function One(b: bool): nat {
    if b then 1 else 0
  }

  lemma {:induction false} CountSet(slots: seq<Slot>, p: Slot -> bool, i: nat, x: Slot)
    requires i < |slots|
    ensures Count(slots[i := x], p) + One(p(slots[i])) == Count(slots, p) + One(p(x))
  {
    var n := |slots| - 1;
    if i < n {
      CountSet(slots[..n], p, i, x);
      assert slots[i := x][..n] == slots[..n][i := x];
    } else {
      assert slots[i := x][..n] == slots[..n];
    }
  }

  /** Whoever holds a socket is counted by the admission. */
  lemma {:induction false} SocketsBusy(slots: seq<Slot>)
    requires forall i :: 0 <= i < |slots| ==> SlotOk(slots[i])
    ensures Count(slots, Socket) <= Count(slots, Busy)
  {
    if slots != [] {
      SocketsBusy(slots[..|slots| - 1]);
    }
  }

  lemma {:induction false} CountOne(slots: seq<Slot>, p: Slot -> bool, i: nat)
    requires i < |slots| && p(slots[i])
    ensures Count(slots, p) >= 1
  {
    if i < |slots| - 1 {
      CountOne(slots[..|slots| - 1], p, i);
    }
  }

  /** At most one slot in admission. */
  lemma {:induction false} CountTwo(slots: seq<Slot>, p: Slot -> bool, i: nat, j: nat)
    requires i < j < |slots| && p(slots[i]) && p(slots[j])
    ensures Count(slots, p) >= 2
  {
    if j < |slots| - 1 {
      CountTwo(slots[..|slots| - 1], p, i, j);
    } else {
      CountOne(slots[..|slots| - 1], p, i);
    }
  }

  /** Changing one slot, and the parser with it. */
  lemma PutInv(s: State, i: nat, x: Slot, parser: Option<nat>)
    requires Inv(s) && i < SLOTS && SlotOk(x)
    requires Admitting(x) ==> Admitting(s.slots[i]) || Count(s.slots, Admitting) == 0
    requires Socket(x) ==> Socket(s.slots[i]) || Count(s.slots, Socket) < SOCKETS
    requires parser.None? || (parser == Some(i) && Admitting(x)) || (parser == s.parser && parser != Some(i))
    ensures Inv(s.(slots := s.slots[i := x], parser := parser))
  {
    CountSet(s.slots, Admitting, i, x);
    CountSet(s.slots, Socket, i, x);
    hide Count;
  }

  lemma CloseInv(s: State, i: nat)
    requires Inv(s) && i < SLOTS
    ensures Inv(Close(s, i))
  {
    var w := s.slots[i];
    if w.Work? && w.phase != Closing {
      hide Count;
      OwnerAdmits(s, i);
      PutInv(s, i, w.(phase := Closing), if Admitting(w) then None else s.parser);
    }
  }

  lemma OwnerAdmits(s: State, i: nat)
    requires Inv(s) && i < SLOTS
    ensures !Admitting(s.slots[i]) ==> s.parser != Some(i)
    ensures Admitting(s.slots[i]) ==> s.parser.None? || s.parser == Some(i)
  {
    if Admitting(s.slots[i]) && s.parser.Some? && s.parser.value < i {
      CountTwo(s.slots, Admitting, s.parser.value, i);
    } else if Admitting(s.slots[i]) && s.parser.Some? && s.parser.value > i {
      CountTwo(s.slots, Admitting, i, s.parser.value);
    }
  }

  lemma AdmitInv(s: State, available: bool, built: bool)
    requires Inv(s)
    ensures Inv(Admit(s, available, built))
  {
    hide Count;
    var i := FirstEmpty(s.slots, 0);
    if !(s.pending == 0 || Count(s.slots, Admitting) > 0 || i == |s.slots| || !available) {
      OwnerAdmits(s, i);
      PutInv(s, i, Work(Sending, false), s.parser);
      CloseInv(s.(slots := s.slots[i := Work(Sending, false)], pending := s.pending - 1), i);
    }
  }

  lemma StartInv(s: State, i: nat, connects: bool)
    requires Inv(s) && i < SLOTS && Admitting(s.slots[i]) && s.parser == Some(i)
    ensures Inv(Start(s, i, connects))
  {
    SocketsBusy(s.slots);
    hide Count;
    var n := s.(parser := None, slots := s.slots[i := s.slots[i].(phase := Waiting)]);
    PutInv(s, i, s.slots[i].(phase := Waiting), None);
    CloseInv(n, i);
    assert n.slots[i := Work(Connecting, true)] == s.slots[i := Work(Connecting, true)];
    if Count(s.slots, Busy) < SOCKETS && connects {
      PutInv(s, i, Work(Connecting, true), None);
    }
  }

  lemma HandshakeInv(s: State, i: nat, t: Turn)
    requires Inv(s) && i < SLOTS && Admitting(s.slots[i])
    ensures Inv(Handshake(s, i, t))
  {
    hide Count;
    CloseInv(s, i);
    if !t.fails && (s.slots[i].phase != Sending || t.sent) {
      OwnerAdmits(s, i);
      var w := s.slots[i].(phase := Waiting);
      PutInv(s, i, w, s.parser);
      PutInv(s, i, w, Some(i));
      var n := s.(slots := s.slots[i := w]);
      CloseInv(n, i);
      StartInv(n.(parser := Some(i)), i, t.connects);
    }
  }

  lemma StepInv(s: State, i: nat, t: Turn)
    requires Inv(s) && i < SLOTS
    ensures Inv(Step(s, i, t))
  {
    hide Count, Handshake, Close;
    var w := s.slots[i];
    OwnerAdmits(s, i);
    CloseInv(s, i);
    if w.Work? {
      if Admitting(w) {
        HandshakeInv(s, i, t);
      } else if w.phase == Closing {
        PutInv(s, i, Empty, s.parser);
        PutInv(s, i, w.(local := w.local && !t.freed), s.parser);
      } else {
        PutInv(s, i, Work(Active, w.local), s.parser);
      }
    }
  }

  lemma {:induction false} RunInv(actions: seq<Action>)
    ensures Inv(Run(actions))
  {
    if actions == [] {
      InitInv(Init());
    } else {
      var s := Run(actions[..|actions| - 1]);
      RunInv(actions[..|actions| - 1]);
      match actions[|actions| - 1]
      case Ask =>
      case Open(available, built) => AdmitInv(s, available, built);
      case Serve(i, t) =>
        if i < SLOTS {
          StepInv(s, i, t);
        }
    }
  }

  lemma InitInv(s: State)
    requires s == Init()
    ensures Inv(s)
  {
    NoneCounted(s.slots, Admitting);
    NoneCounted(s.slots, Socket);
    hide Count;
  }

  lemma {:induction false} NoneCounted(slots: seq<Slot>, p: Slot -> bool)
    requires forall i :: 0 <= i < |slots| ==> !p(slots[i])
    ensures Count(slots, p) == 0
  {
    if slots != [] {
      NoneCounted(slots[..|slots| - 1], p);
    }
  }

  lemma ReachableInv(s: State)
    requires Reachable(s)
    ensures Inv(s)
  {
    hide Inv, Run;
    var actions :| s == Run(actions);
    RunInv(actions);
  }

  /** Two different slots are never both in admission. */
  lemma OneAdmission(s: State, i: nat, j: nat)
    requires Reachable(s) && i < j < SLOTS
    ensures |s.slots| == SLOTS && !(Admitting(s.slots[i]) && Admitting(s.slots[j]))
  {
    ReachableInv(s);
    hide Run;
    if Admitting(s.slots[i]) && Admitting(s.slots[j]) {
      CountTwo(s.slots, Admitting, i, j);
    }
  }

  /** The shared parser buffer belongs to the stream in admission, and no stream ever used another's. */
  lemma ParserOwned(s: State)
    requires Reachable(s)
    ensures !s.shared && (s.parser.Some? ==> s.parser.value < |s.slots| && Admitting(s.slots[s.parser.value]))
  {
    ReachableInv(s);
    hide Run, Count;
  }

  /** Never three local sockets. */
  lemma TwoSockets(s: State)
    requires Reachable(s)
    ensures Count(s.slots, Socket) <= SOCKETS
  {
    ReachableInv(s);
  }
}
