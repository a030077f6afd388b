/**
 The control generations of one server: login handlers, workers, `Close` calls and
 work connections, interleaved step by step.  A step is one critical section of
 `control.go`, or one wait; a step whose lock or channel is not ready changes nothing.
 */
module ControlModel {
  import opened Efrp

  datatype Life = Created | Pending | Running | Closing | Closed

  /** What the manager's map holds for a run ID: the current control and the run gate. */
  datatype Entry = Entry(ctl: nat, id: nat, gate: nat)

  /** Every goroutine that the protocol involves. */
  datatype Tid = Login(ctl: nat) | Worker(ctl: nat) | Extra(index: nat)

  /** The calls that start with `lockCurrentRun`. */
  datatype Op =
    | Activate
    | Complete
    | Withdraw             // Remove after a failed login
    | Retire               // Remove by the worker
    | Evict(rest: set<nat>) // Remove by the manager's Close, with the controls still to do
    | Deliver(conn: nat)

  predicate Removal(op: Op) {
    op.Withdraw? || op.Retire? || op.Evict?
  }

  /** Where a goroutine is. */
  datatype Pc =
    | AddRead
    | AddLock(prior: Option<Entry>)
    | AddCommit(prior: Option<Entry>)
    | AddNotify(replaced: nat)
    | AwaitHandoff
    | Lookup(op: Op)
    | Lock(op: Op, gate: nat)
    | Check(op: Op, gate: nat)
    | Act(op: Op, entry: Entry)
    | WriteResponse(entry: Entry)
    | CloseSelf
    | Serve
    | CloseChannel
    | Drain
    | CloseProxies
    | Finish
    | CloseStart
    | CloseNext(todo: set<nat>)
    | CloseCtl(rest: set<nat>)
    | Idle
    | Returned

  /** A work connection that left the channel. */
  datatype Taken = Handed(conn: nat) | Discarded(conn: nat)

  /** `workConnCh`, with every connection that entered or left it. */
  datatype Pool = Pool(
    capacity: nat, channel: seq<nat>, registered: seq<nat>, taken: seq<Taken>,
    badSend: bool, staleSend: bool)

  datatype Ctl = Ctl(
    run: string, life: Life, id: nat, activated: bool, barrier: Option<nat>,
    writing: bool,          // lifecycleMu is held across the login response
    login: Pc, worker: Pc,
    waited: bool, started: bool, proxiesClosed: bool,
    done: nat, channelClosed: nat,  // how often doneCh and workConnCh were closed
    pool: Pool)

  datatype Thread = Thread(ctl: nat, pc: Pc)

  datatype State = State(
    ctls: seq<Ctl>, extras: seq<Thread>, current: map<string, Entry>, held: map<nat, Tid>,
    closed: bool, closer: Option<nat>, gates: nat, lastId: nat)

  function NewCtl(run: string, capacity: nat): Ctl {
    Ctl(run, Created, 0, false, None, false, AddRead, Idle, false, false, false, 0, 0,
        Pool(capacity, [], [], [], false, false))
  }

  const Empty: State := State([], [], map[], map[], false, None, 0, 0)

  predicate IsThread(s: State, t: Tid) {
    match t
    case Login(c) => c < |s.ctls|
    case Worker(c) => c < |s.ctls|
    case Extra(k) => k < |s.extras|
  }

  function CtlOf(s: State, t: Tid): nat
    requires IsThread(s, t)
  {
    match t case Login(c) => c case Worker(c) => c case Extra(k) => s.extras[k].ctl
  }

  function PcOf(s: State, t: Tid): Pc
    requires IsThread(s, t)
  {
    match t case Login(c) => s.ctls[c].login case Worker(c) => s.ctls[c].worker case Extra(k) => s.extras[k].pc
  }

  function Goto(s: State, t: Tid, pc: Pc): State
    requires IsThread(s, t)
  {
    match t
    case Login(c) => s.(ctls := s.ctls[c := s.ctls[c].(login := pc)])
    case Worker(c) => s.(ctls := s.ctls[c := s.ctls[c].(worker := pc)])
    case Extra(k) => s.(extras := s.extras[k := s.extras[k].(pc := pc)])
  }

  function SetCtl(s: State, c: nat, x: Ctl): State
    requires c < |s.ctls|
  {
    s.(ctls := s.ctls[c := x])
  }

  function Get(s: State, run: string): Option<Entry> {
    if run in s.current then Some(s.current[run]) else None
  }

  predicate Current(s: State, c: nat)
    requires c < |s.ctls|
  {
    var r := s.ctls[c].run; r in s.current && s.current[r].ctl == c
  }

  function Release(s: State, g: nat): State {
    s.(held := s.held - {g})
  }

  // ---------- the lifecycle of one control ----------

  /** `finishLocked`. */
  function FinishLocked(x: Ctl): Ctl {
    if x.life == Closed then x else x.(life := Closed, done := x.done + 1)
  }

  /** `Close`. */
  function CloseCall(x: Ctl): Ctl {
    match x.life
    case Created => FinishLocked(x.(life := Closing))
    case Pending => FinishLocked(x.(life := Closing))
    case Running => x.(life := Closing)
    case _ => x
  }

  /** `markReplaced`: the replaced control, and the control whose `doneCh` its successor must wait for. */
  function MarkReplaced(x: Ctl, c: nat): (Ctl, Option<nat>) {
    match x.life
    case Created => (FinishLocked(x.(life := Closing)), None)
    case Pending => (FinishLocked(x.(life := Closing)), x.barrier)
    case Running => (x.(life := Closing), Some(c))
    case _ => (x, Some(c))
  }

  /** `startLocked`; `registered` says whether the NAT-hole registration succeeded. */
  function StartLocked(x: Ctl, registered: bool): Ctl {
    if x.life == Pending && x.activated && registered then x.(life := Running, started := true, worker := Serve) else x
  }

  // ---------- Add ----------

  /** `Add`, once the gate of the predecessor it read is held. */
  function AddStep(s: State, c: nat, prior: Option<Entry>): State
    requires c < |s.ctls| && (prior.Some? ==> prior.value.ctl < |s.ctls|)
  {
    var x := s.ctls[c];
    var u := if prior.Some? then Release(s, prior.value.gate) else s;
    if s.closed then Goto(u, Login(c), Lookup(Withdraw))
    else if Get(s, x.run) != prior then Goto(u, Login(c), AddRead)
    else if x.life != Created then Goto(u, Login(c), Lookup(Withdraw))
    else if prior.None? then Adopt(s, c, s.gates, None, AwaitHandoff)
    else if s.ctls[prior.value.ctl].writing then s
    else
      var (y, barrier) := MarkReplaced(s.ctls[prior.value.ctl], prior.value.ctl);
      Adopt(SetCtl(u, prior.value.ctl, y), c, prior.value.gate, barrier, AddNotify(prior.value.ctl))
  }

  /** The new control becomes the pending current generation. */
  function Adopt(s: State, c: nat, gate: nat, barrier: Option<nat>, next: Pc): State
    requires c < |s.ctls|
  {
    var x := s.ctls[c];
    s.(ctls := s.ctls[c := x.(life := Pending, id := s.lastId + 1, barrier := barrier, login := next)],
       current := s.current[x.run := Entry(c, s.lastId + 1, gate)],
       lastId := s.lastId + 1, gates := if gate == s.gates then s.gates + 1 else s.gates)
  }

  // ---------- calls that start with lockCurrentRun ----------

  /** Where a goroutine goes after its call, depending on whether the call succeeded. */
  function After(op: Op, ok: bool): Pc {
    match op
    case Activate => Lookup(if ok then Complete else Withdraw)
    case Complete => if ok then Returned else Lookup(Withdraw)
    case Withdraw => CloseSelf
    case Retire => Finish
    case Evict(rest) => CloseCtl(rest)
    case Deliver(_) => Returned
  }

  /** The map read of `lockCurrentRun`: a closed manager has no entries, except for `Remove`. */
  function Seen(s: State, run: string, op: Op): Option<Entry> {
    if s.closed && !Removal(op) then None else Get(s, run)
  }

  function LookupStep(s: State, t: Tid, op: Op): State
    requires IsThread(s, t) && CtlOf(s, t) < |s.ctls|
  {
    var e := Seen(s, s.ctls[CtlOf(s, t)].run, op);
    Goto(s, t, if e.None? then After(op, false) else Lock(op, e.value.gate))
  }

  function LockStep(s: State, t: Tid, op: Op, gate: nat): State
    requires IsThread(s, t)
  {
    if gate in s.held then s else Goto(s.(held := s.held[gate := t]), t, Check(op, gate))
  }

  function CheckStep(s: State, t: Tid, op: Op, gate: nat): State
    requires IsThread(s, t) && CtlOf(s, t) < |s.ctls|
  {
    var e := Seen(s, s.ctls[CtlOf(s, t)].run, op);
    if e.None? || e.value.gate != gate then Goto(Release(s, gate), t, After(op, false))
    else Goto(s, t, Act(op, e.value))
  }

  /** The body of the call, with the run gate held; `ok` is the outcome of the outside world. */
  function ActStep(s: State, t: Tid, op: Op, e: Entry, ok: bool): State
    requires IsThread(s, t) && CtlOf(s, t) < |s.ctls|
  {
    var c := CtlOf(s, t);
    if Removal(op) then Goto(Release(Delete(s, c, e), e.gate), t, After(op, true))
    else if op.Activate? then ActivateStep(s, t, c, e, ok)
    else if op.Complete? then CompleteStep(s, t, c, e)
    else DeliverStep(s, t, c, op, e)
  }

  /** `Remove`: delete the entry only if it is still the control's own. */
  function Delete(s: State, c: nat, e: Entry): State
    requires c < |s.ctls|
  {
    var x := s.ctls[c];
    if Get(s, x.run) == Some(e) && e.ctl == c && e.id == x.id then s.(current := s.current - {x.run}) else s
  }

  /** `Activate`; `ok` is false on a client ID conflict. */
  function ActivateStep(s: State, t: Tid, c: nat, e: Entry, ok: bool): State
    requires IsThread(s, t) && c < |s.ctls|
  {
    var x := s.ctls[c];
    var u := Release(s, e.gate);
    if s.closed || Get(s, x.run) != Some(e) || e.ctl != c || e.id != x.id then Goto(u, t, After(Activate, false))
    else if x.writing then s
    else if x.life != Pending then Goto(u, t, After(Activate, false))
    else if x.activated then Goto(u, t, After(Activate, true))
    else if !ok then Goto(u, t, After(Activate, false))
    else Goto(SetCtl(u, c, x.(activated := true)), t, After(Activate, true))
  }

  /** `completeLogin` up to the response: the gate and the lifecycle lock stay held. */
  function CompleteStep(s: State, t: Tid, c: nat, e: Entry): State
    requires IsThread(s, t) && c < |s.ctls|
  {
    var x := s.ctls[c];
    if e.ctl != c || e.id != x.id then Goto(Release(s, e.gate), t, After(Complete, false))
    else if x.writing then s
    else if x.life != Pending || !x.activated then Goto(Release(s, e.gate), t, After(Complete, false))
    else Goto(SetCtl(s, c, x.(writing := true)), t, WriteResponse(e))
  }

  /** The response was written (`ok`), or its write or the NAT-hole registration failed. */
  function WriteStep(s: State, c: nat, e: Entry, ok: bool): State
    requires c < |s.ctls|
  {
    var x := StartLocked(s.ctls[c].(writing := false), ok);
    SetCtl(Release(s, e.gate), c, x.(login := After(Complete, x.life == Running)))
  }

  /** `RegisterWorkConn` with the gate held. */
  function DeliverStep(s: State, t: Tid, c: nat, op: Op, e: Entry): State
    requires IsThread(s, t) && c < |s.ctls| && op.Deliver?
  {
    var x := s.ctls[c];
    var u := Release(s, e.gate);
    if e.ctl != c || e.id != x.id then Goto(u, t, Returned)
    else if x.writing then s
    else if x.life != Running || |x.pool.channel| >= x.pool.capacity then Goto(u, t, Returned)
    else Goto(SetCtl(u, c, x.(pool := Send(x.pool, op.conn, x.channelClosed > 0, Current(s, c)))), t, Returned)
  }

  /** A send; it would panic on a closed channel. */
  function Send(p: Pool, conn: nat, closed: bool, current: bool): Pool {
    p.(channel := p.channel + [conn], registered := p.registered + [conn],
       badSend := p.badSend || closed, staleSend := p.staleSend || !current)
  }

  /** The oldest connection leaves the channel. */
  function Receive(p: Pool, handed: bool): Pool
    requires p.channel != []
  {
    p.(channel := p.channel[1..],
       taken := p.taken + [if handed then Handed(p.channel[0]) else Discarded(p.channel[0])])
  }

  // ---------- the worker ----------

  /** The control after one step of its worker. */
  function WorkerCtl(x: Ctl): Ctl {
    match x.worker
    case Serve =>
      if x.writing then x
      else x.(life := if x.life == Running then Closing else x.life, worker := CloseChannel)
    case CloseChannel => x.(channelClosed := x.channelClosed + 1, worker := Drain)
    case Drain =>
      if x.pool.channel == [] then x.(worker := CloseProxies) else x.(pool := Receive(x.pool, false))
    case CloseProxies => x.(proxiesClosed := true, worker := Lookup(Retire))
    case Finish => if x.writing then x else FinishLocked(x).(worker := Returned)
    case _ => x
  }

  function WorkerStep(s: State, c: nat): State
    requires c < |s.ctls|
  {
    SetCtl(s, c, WorkerCtl(s.ctls[c]))
  }

  // ---------- all steps ----------

  function LoginStep(s: State, c: nat, ok: bool): State
    requires c < |s.ctls|
  {
    var x := s.ctls[c];
    match x.login
    case AddRead => Goto(s, Login(c), AddLock(Get(s, x.run)))
    case AddLock(prior) =>
      if prior.None? then Goto(s, Login(c), AddCommit(None))
      else if prior.value.gate in s.held then s
      else Goto(s.(held := s.held[prior.value.gate := Login(c)]), Login(c), AddCommit(prior))
    case AddCommit(prior) => if prior.Some? && prior.value.ctl >= |s.ctls| then s else AddStep(s, c, prior)
    case AddNotify(o) =>
      if o >= |s.ctls| || s.ctls[o].writing then s
      else Goto(SetCtl(s, o, MarkReplaced(s.ctls[o], o).0), Login(c), AwaitHandoff)
    case AwaitHandoff =>
      if x.barrier.Some? && !(x.barrier.value < |s.ctls| && s.ctls[x.barrier.value].done > 0) then s
      else SetCtl(s, c, x.(waited := true, login := Lookup(Activate)))
    case WriteResponse(e) => WriteStep(s, c, e, ok)
    case CloseSelf => if x.writing then s else SetCtl(s, c, CloseCall(x).(login := Returned))
    case _ => s
  }

  /** The controls in the manager's map. */
  function Snapshot(current: map<string, Entry>): set<nat> {
    set r | r in current :: current[r].ctl
  }

  /** A `Close` call; `pick` is the next control of its snapshot. */
  function CloserStep(s: State, k: nat, pick: nat): State
    requires IsThread(s, Extra(k))
  {
    var c := s.extras[k].ctl;
    match s.extras[k].pc
    case CloseStart =>
      s.(closed := true, closer := if s.closed then s.closer else Some(k),
         extras := s.extras[k := Thread(c, CloseNext(Snapshot(s.current)))])
    case CloseNext(todo) =>
      if todo == {} then Goto(s, Extra(k), Returned)
      else if pick !in todo || pick >= |s.ctls| then s
      else s.(extras := s.extras[k := Thread(pick, Lookup(Evict(todo - {pick})))])
    case CloseCtl(rest) =>
      if c >= |s.ctls| || s.ctls[c].writing then s
      else Goto(SetCtl(s, c, CloseCall(s.ctls[c])), Extra(k), CloseNext(rest))
    case _ => s
  }

  datatype Action =
    | NewLogin(run: string, capacity: nat)
    | NewClose
    | NewWorkConn(ctl: nat, conn: nat)
    | Step(t: Tid, ok: bool, pick: nat)
    | Heartbeat(ctl: nat)
    | TakeWorkConn(ctl: nat)

  /** One step of thread `t`. */
  function ThreadStep(s: State, t: Tid, ok: bool, pick: nat): State
    requires IsThread(s, t)
  {
    var pc := PcOf(s, t);
    if CtlOf(s, t) >= |s.ctls| && !pc.CloseStart? && !pc.CloseNext? then s
    else
      match pc
      case Lookup(op) => LookupStep(s, t, op)
      case Lock(op, gate) => LockStep(s, t, op, gate)
      case Check(op, gate) => CheckStep(s, t, op, gate)
      case Act(op, e) => ActStep(s, t, op, e, ok)
      case _ =>
        match t
        case Login(c) => LoginStep(s, c, ok)
        case Worker(c) => WorkerStep(s, c)
        case Extra(k) => CloserStep(s, k, pick)
  }

  /** `GetWorkConn` received from the channel, open or closed. */
  function TakeStep(s: State, c: nat): State
    requires c < |s.ctls|
  {
    var x := s.ctls[c];
    if x.pool.channel == [] then s
    else SetCtl(s, c, x.(pool := Receive(x.pool, true)))
  }

  function Next(s: State, a: Action): State {
    match a
    case NewLogin(run, capacity) => s.(ctls := s.ctls + [NewCtl(run, capacity)])
    case NewClose => s.(extras := s.extras + [Thread(0, CloseStart)])
    case NewWorkConn(c, conn) =>
      if c < |s.ctls| && s.ctls[c].life != Created
      then s.(extras := s.extras + [Thread(c, Lookup(Deliver(conn)))]) else s
    case Step(t, ok, pick) => if IsThread(s, t) then ThreadStep(s, t, ok, pick) else s
    case Heartbeat(c) =>
      if c < |s.ctls| && s.ctls[c].started && !s.ctls[c].writing then SetCtl(s, c, CloseCall(s.ctls[c])) else s
    case TakeWorkConn(c) => if c < |s.ctls| then TakeStep(s, c) else s
  }

  function Run(s: State, actions: seq<Action>): State {
    if actions == [] then s else Next(Run(s, actions[..|actions| - 1]), actions[|actions| - 1])
  }

  /** Some interleaving leads from `s` to `n`. */
  ghost predicate Follows(s: State, n: State) {
    exists actions :: n == Run(s, actions)
  }

  ghost predicate Reachable(s: State) {
    Follows(Empty, s)
  }
}
