/** What every step of the control protocol keeps. */
module ControlInvariant {
  import opened Efrp
  import opened ControlModel

  // ---------- one control ----------

  function Conns(taken: seq<Taken>): seq<nat> {
    seq(|taken|, i requires 0 <= i < |taken| => taken[i].conn)
  }

  /** The worker is up and has not yet closed both its work channel and its proxies. */
  predicate Unquiet(x: Ctl) {
    x.started && !(x.channelClosed > 0 && x.proxiesClosed)
  }

  predicate LoginOp(x: Ctl, op: Op) {
    && (op.Activate? || op.Complete? || op.Withdraw?)
    && !x.started
    && (x.waited || (op.Withdraw? && x.life == Created))
    && (op.Withdraw? || x.life != Created)
  }

  predicate LoginOk(x: Ctl) {
    match x.login
    case AddRead => x.life == Created && !x.waited && !x.started
    case AddLock(_) => x.life == Created && !x.waited && !x.started
    case AddCommit(_) => x.life == Created && !x.waited && !x.started
    case AddNotify(_) => x.life != Created && !x.waited && !x.started
    case AwaitHandoff => x.life != Created && !x.waited && !x.started
    case Lookup(op) => LoginOp(x, op)
    case Lock(op, _) => LoginOp(x, op)
    case Check(op, _) => LoginOp(x, op)
    case Act(op, _) => LoginOp(x, op)
    case WriteResponse(_) => x.life == Pending && x.activated && x.waited && !x.started
    case CloseSelf => !x.started
    case Returned => x.started || x.life == Closed
    case _ => false
  }

  /** The worker has closed everything and only its removal and `finishLocked` are left. */
  predicate Cleaned(x: Ctl) {
    x.channelClosed == 1 && x.proxiesClosed && x.pool.channel == []
  }

  predicate WorkerOk(x: Ctl) {
    match x.worker
    case Serve => (x.life == Running || x.life == Closing) && x.channelClosed == 0 && !x.proxiesClosed
    case CloseChannel => x.life == Closing && x.channelClosed == 0 && !x.proxiesClosed
    case Drain => x.life == Closing && x.channelClosed == 1 && !x.proxiesClosed
    case CloseProxies => x.life == Closing && x.channelClosed == 1 && !x.proxiesClosed && x.pool.channel == []
    case Lookup(op) => op.Retire? && x.life == Closing && Cleaned(x)
    case Lock(op, _) => op.Retire? && x.life == Closing && Cleaned(x)
    case Check(op, _) => op.Retire? && x.life == Closing && Cleaned(x)
    case Act(op, _) => op.Retire? && x.life == Closing && Cleaned(x)
    case Finish => x.life == Closing && Cleaned(x)
    case Returned => x.life == Closed && Cleaned(x)
    case _ => false
  }

  predicate LifeOk(x: Ctl) {
    if x.started then x.waited && x.activated && x.login == Returned && WorkerOk(x)
    else
      && x.worker == Idle && x.channelClosed == 0 && !x.proxiesClosed
      && (x.life == Created || x.life == Pending || x.life == Closed)
  }

  /** Nothing was lost, and nothing was sent that should not have been. */
  predicate PoolOk(p: Pool) {
    && Conns(p.taken) + p.channel == p.registered && |p.channel| <= p.capacity
    && !p.badSend && !p.staleSend
  }

  predicate LocalOk(x: Ctl) {
    && (x.writing <==> x.login.WriteResponse?)
    && x.done == (if x.life == Closed then 1 else 0)
    && LoginOk(x) && LifeOk(x) && PoolOk(x.pool)
  }

  predicate Locals(s: State) {
    forall c :: 0 <= c < |s.ctls| ==> LocalOk(s.ctls[c])
  }

  // ---------- one thread ----------

  function Rank(l: Life): nat {
    match l case Created => 0 case Pending => 1 case Running => 2 case Closing => 3 case Closed => 4
  }

  predicate Admitted(s: State, c: nat) {
    c < |s.ctls| && s.ctls[c].life != Created
  }

  predicate AllAdmitted(s: State, todo: set<nat>) {
    forall c :: c in todo ==> Admitted(s, c)
  }

  predicate Held(s: State, gate: nat, t: Tid) {
    gate in s.held && s.held[gate] == t
  }

  predicate PriorOk(s: State, prior: Option<Entry>) {
    prior.Some? ==> Admitted(s, prior.value.ctl)
  }

  predicate OpOk(s: State, t: Tid, c: nat, op: Op) {
    && c < |s.ctls|
    && (t.Extra? ==> Admitted(s, c) && (op.Deliver? || (op.Evict? && s.closed && AllAdmitted(s, op.rest))))
  }

  /** A control about to be removed still has the gate that its remover looked up. */
  predicate GateKnown(s: State, c: nat, op: Op, gate: nat)
    requires c < |s.ctls|
  {
    Removal(op) && Current(s, c) ==> s.current[s.ctls[c].run].gate == gate
  }

  predicate ThreadOk(s: State, t: Tid)
    requires IsThread(s, t)
  {
    PcOk(s, t, CtlOf(s, t), PcOf(s, t))
  }

  /** What thread `t`, working for control `c`, relies on at `pc`. */
  predicate PcOk(s: State, t: Tid, c: nat, pc: Pc) {
    match pc
    case AddLock(prior) => PriorOk(s, prior)
    case AddCommit(prior) => PriorOk(s, prior) && (prior.Some? ==> Held(s, prior.value.gate, t))
    case AddNotify(o) => o < |s.ctls| && Rank(s.ctls[o].life) >= Rank(Closing)
    case Lookup(op) => OpOk(s, t, c, op)
    case Lock(op, gate) => OpOk(s, t, c, op) && GateKnown(s, c, op, gate)
    case Check(op, gate) => OpOk(s, t, c, op) && GateKnown(s, c, op, gate) && Held(s, gate, t)
    case Act(op, e) => OpOk(s, t, c, op) && Held(s, e.gate, t) && Get(s, s.ctls[c].run) == Some(e)
    case WriteResponse(e) =>
      t.Login? && c < |s.ctls| && Held(s, e.gate, t) && Get(s, s.ctls[c].run) == Some(e) && e.ctl == c
    case CloseSelf => t.Login? && c < |s.ctls| && !Current(s, c)
    case Finish => t.Worker? && c < |s.ctls| && !Current(s, c)
    case CloseNext(todo) => s.closed && AllAdmitted(s, todo)
    case CloseCtl(rest) => s.closed && Admitted(s, c) && !Current(s, c) && AllAdmitted(s, rest)
    case _ => true
  }

  ghost predicate Threads(s: State) {
    forall t :: IsThread(s, t) ==> ThreadOk(s, t)
  }

  /** What a step of thread `t` may do to the others. */
  ghost predicate Rely(s: State, n: State, t: Tid) {
    LivesGrow(s, n) && OthersStay(s, n, t) && LocksStay(s, n, t) && EntriesStay(s, n, t)
  }

  /** No control loses its run or goes back in its life. */
  predicate LivesGrow(s: State, n: State) {
    && |s.ctls| <= |n.ctls| && |s.extras| <= |n.extras| && (s.closed ==> n.closed)
    && (forall c :: 0 <= c < |s.ctls| ==>
          n.ctls[c].run == s.ctls[c].run && Rank(n.ctls[c].life) >= Rank(s.ctls[c].life))
  }

  /** No other thread moves, except that a worker comes up. */
  ghost predicate OthersStay(s: State, n: State, t: Tid)
    requires |s.ctls| <= |n.ctls| && |s.extras| <= |n.extras|
  {
    forall u :: IsThread(s, u) && u != t ==>
      CtlOf(n, u) == CtlOf(s, u) && (PcOf(n, u) == PcOf(s, u) || PcOf(n, u) == Serve)
  }

  predicate LocksStay(s: State, n: State, t: Tid) {
    forall g :: g in s.held && s.held[g] != t ==> Held(n, g, s.held[g])
  }

  ghost predicate EntriesStay(s: State, n: State, t: Tid) {
    forall r :: Get(n, r) == Get(s, r) || Owns(s, n, t, r)
  }

  /** Thread `t` holds the gate of run `r`, and puts at most its own new control there. */
  predicate Owns(s: State, n: State, t: Tid, r: string) {
    && (r in s.current ==> Held(s, s.current[r].gate, t))
    && (r in n.current ==>
          var d := n.current[r].ctl; t == Login(d) && d < |s.ctls| && s.ctls[d].life == Created)
  }

  lemma CurrentBefore(s: State, n: State, t: Tid, u: Tid)
    requires IsThread(s, u) && u != t && Rely(s, n, t) && CtlOf(s, u) < |s.ctls|
    requires u == Login(CtlOf(s, u)) || Admitted(s, CtlOf(s, u))
    ensures Current(n, CtlOf(s, u)) ==>
              Current(s, CtlOf(s, u)) && Get(n, s.ctls[CtlOf(s, u)].run) == Get(s, s.ctls[CtlOf(s, u)].run)
  {
    var c := CtlOf(s, u);
    assert Get(n, s.ctls[c].run) == Get(s, s.ctls[c].run) || Owns(s, n, t, s.ctls[c].run);
  }

  lemma StillHeld(s: State, n: State, t: Tid, u: Tid, e: Entry, r: string)
    requires Rely(s, n, t) && u != t && Held(s, e.gate, u) && Get(s, r) == Some(e)
    ensures Held(n, e.gate, u) && Get(n, r) == Some(e)
  {
    assert Get(n, r) == Get(s, r) || Owns(s, n, t, r);
  }

  /** Only an admitted control has a worker. */
  lemma WorkerAdmitted(s: State, c: nat)
    requires Locals(s) && c < |s.ctls| && s.ctls[c].worker != Idle
    ensures Admitted(s, c)
  {
    assert LocalOk(s.ctls[c]);
  }

  /** The program counters that rely on whether the control is current. */
  lemma OthersCurrent(s: State, n: State, t: Tid, u: Tid)
    requires IsThread(s, u) && u != t && Rely(s, n, t) && ThreadOk(s, u)
    requires var pc := PcOf(s, u); pc.Lock? || pc.Check? || pc.CloseSelf? || pc.Finish? || pc.CloseCtl?
    requires u.Worker? ==> Admitted(s, CtlOf(s, u))
    ensures ThreadOk(n, u)
  {
    hide Owns;
    CurrentBefore(s, n, t, u);
  }

  /** A step of `t` does not disturb what thread `u` relies on. */
  lemma Others(s: State, n: State, t: Tid, u: Tid)
    requires IsThread(s, u) && u != t && Rely(s, n, t) && Locals(s) && ThreadOk(s, u)
    ensures ThreadOk(n, u)
  {
    var c := CtlOf(s, u);
    var pc := PcOf(s, u);
    if u.Worker? && pc != Idle {
      WorkerAdmitted(s, c);
    }
    hide LocalOk, Get, Owns, Current;
    if pc.Lock? || pc.Check? || pc.CloseSelf? || pc.Finish? || pc.CloseCtl? {
      OthersCurrent(s, n, t, u);
    } else if pc.Act? {
      StillHeld(s, n, t, u, pc.entry, s.ctls[c].run);
    } else if pc.WriteResponse? {
      StillHeld(s, n, t, u, pc.entry, s.ctls[c].run);
    }
  }

  // ---------- the whole server ----------

  /** A current control is pending without a worker, or has a worker that is not finished. */
  predicate CurrentLife(x: Ctl) {
    if x.started then x.life == Running || x.life == Closing else x.life == Pending
  }

  predicate CurrentOk(s: State) {
    forall r :: r in s.current ==>
      var e := s.current[r];
      e.ctl < |s.ctls| && s.ctls[e.ctl].run == r && s.ctls[e.ctl].id == e.id && CurrentLife(s.ctls[e.ctl])
  }

  /** Control `c` must still wait for control `p`, and knows it. */
  predicate WaitsFor(s: State, c: nat, p: nat)
    requires c < |s.ctls|
  {
    !s.ctls[c].waited && s.ctls[c].barrier == Some(p)
  }

  /** Every session of a run that is not quiet is the current one, or its successor waits for it. */
  predicate Cover(s: State)
    requires CurrentOk(s)
  {
    forall p :: 0 <= p < |s.ctls| && Unquiet(s.ctls[p]) && s.ctls[p].run in s.current ==>
      var c := s.current[s.ctls[p].run].ctl; c == p || WaitsFor(s, c, p)
  }

  /** While the manager is open, a run without an entry is quiet. */
  predicate Absent(s: State) {
    forall p :: 0 <= p < |s.ctls| && Unquiet(s.ctls[p]) && !s.closed ==> s.ctls[p].run in s.current
  }

  /** Two sessions of one run never overlap. */
  predicate Exclusive(s: State) {
    forall p, q :: 0 <= p < q < |s.ctls| && s.ctls[p].run == s.ctls[q].run ==>
      !(Unquiet(s.ctls[p]) && Unquiet(s.ctls[q]))
  }

  predicate RunningCurrent(s: State) {
    forall c :: 0 <= c < |s.ctls| && s.ctls[c].life == Running && !s.closed ==> Current(s, c)
  }

  predicate Global(s: State) {
    CurrentOk(s) && Cover(s) && Absent(s) && Exclusive(s) && RunningCurrent(s)
  }

  /** A control that is Running or may still become so. */
  predicate Risky(s: State, c: nat)
    requires c < |s.ctls|
  {
    s.ctls[c].life == Running || (s.ctls[c].life == Pending && Current(s, c))
  }

  /** What a `Close` call has still to close. */
  function Todo(x: Thread): set<nat> {
    match x.pc
    case CloseNext(todo) => todo
    case CloseCtl(rest) => {x.ctl} + rest
    case Lookup(op) => OpTodo(x.ctl, op)
    case Lock(op, _) => OpTodo(x.ctl, op)
    case Check(op, _) => OpTodo(x.ctl, op)
    case Act(op, _) => OpTodo(x.ctl, op)
    case _ => {}
  }

  function OpTodo(c: nat, op: Op): set<nat> {
    if op.Evict? then {c} + op.rest else {}
  }

  /** The call that closed the manager still has every risky control on its list. */
  predicate CloserOk(s: State) {
    && (s.closed <==> s.closer.Some?)
    && (s.closed ==> s.closer.value < |s.extras| &&
                     forall c :: 0 <= c < |s.ctls| && Risky(s, c) ==> c in Todo(s.extras[s.closer.value]))
  }

  ghost predicate Inv(s: State) {
    Locals(s) && Threads(s) && Global(s) && CloserOk(s)
  }

  /** A step that changes no entry and only ends sessions. */
  predicate Aged(s: State, n: State) {
    && n.current == s.current && n.closed == s.closed && n.closer == s.closer && |n.ctls| == |s.ctls|
    && forall c :: 0 <= c < |s.ctls| ==> AgedCtl(s.ctls[c], n.ctls[c], Current(s, c))
  }

  predicate AgedCtl(x: Ctl, y: Ctl, current: bool) {
    && y.run == x.run && y.id == x.id && y.started == x.started && y.waited == x.waited && y.barrier == x.barrier
    && (Unquiet(y) ==> Unquiet(x))
    && (y.life == x.life || (Rank(y.life) >= Rank(Closing) && Rank(x.life) <= Rank(y.life) &&
                             (current ==> x.started && y.life == Closing)))
  }

  lemma AgedGlobal(s: State, n: State)
    requires Global(s) && Aged(s, n)
    ensures Global(n)
  {
    hide Unquiet;
    assert CurrentOk(n);
  }

  lemma AgedCloser(s: State, n: State)
    requires CloserOk(s) && Aged(s, n) && |s.extras| == |n.extras|
    requires s.closed ==> Todo(n.extras[s.closer.value]) == Todo(s.extras[s.closer.value])
    ensures CloserOk(n)
  {
    hide Unquiet, Todo;
    forall c | 0 <= c < |n.ctls| && Risky(n, c)
      ensures Risky(s, c)
    {
      assert AgedCtl(s.ctls[c], n.ctls[c], Current(s, c));
    }
  }

  lemma Assemble(s: State, n: State, t: Tid)
    requires Inv(s) && Rely(s, n, t) && |n.ctls| == |s.ctls| && |n.extras| == |s.extras|
    requires Locals(n) && (IsThread(n, t) ==> ThreadOk(n, t)) && Global(n) && CloserOk(n)
    ensures Inv(n)
  {
    hide Rely, Global, CloserOk, ThreadOk, Locals;
    forall u | IsThread(n, u)
      ensures ThreadOk(n, u)
    {
      if u != t {
        assert IsThread(s, u);
        assert ThreadOk(s, u);
        Others(s, n, t, u);
      }
    }
  }
}
