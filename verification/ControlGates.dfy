/** Who holds a run gate: a gate that is taken is held by a goroutine inside the critical section of that gate. */
module ControlGates {
  import opened Efrp
  import opened ControlModel
  import opened ControlInvariant
  import opened ControlRuns

  /** At `pc` goroutine `t` is inside the critical section of gate `g`. */
  predicate Inside(t: Tid, pc: Pc, g: nat) {
    match pc
    case AddCommit(prior) => t.Login? && prior.Some? && prior.value.gate == g
    case Check(_, gate) => gate == g
    case Act(_, e) => e.gate == g
    case WriteResponse(e) => e.gate == g
    case _ => false
  }

  predicate HeldOk(s: State) {
    forall g :: g in s.held ==> IsThread(s, s.held[g]) && Inside(s.held[g], PcOf(s, s.held[g]), g)
  }

  /** A step of `t`: the others stay where they are, and what `t` holds it needs. */
  ghost predicate Keeps(s: State, n: State, t: Tid) {
    && (forall u :: IsThread(s, u) && u != t ==> IsThread(n, u) && (PcOf(n, u) == PcOf(s, u) || PcOf(s, u) == Idle))
    && (forall g :: g in n.held ==>
          if n.held[g] == t then IsThread(n, t) && Inside(t, PcOf(n, t), g) else g in s.held && s.held[g] == n.held[g])
  }

  lemma KeepsHeld(s: State, n: State, t: Tid)
    requires HeldOk(s) && Keeps(s, n, t)
    ensures HeldOk(n)
  {
  }

  /** Thread `t` moves on and gives back the one gate it held, if it held one. */
  lemma LeaveKeeps(s: State, t: Tid, g: nat, pc: Pc)
    requires HeldOk(s) && IsThread(s, t) && (forall o :: Inside(t, PcOf(s, t), o) ==> o == g)
    ensures Keeps(s, Goto(Release(s, g), t, pc), t)
  {
  }

  /** Thread `t` moves on inside the same critical section, or from outside to outside. */
  lemma StayKeeps(s: State, t: Tid, pc: Pc)
    requires HeldOk(s) && IsThread(s, t) && (forall o :: Inside(t, PcOf(s, t), o) ==> Inside(t, pc, o))
    ensures Keeps(s, Goto(s, t, pc), t)
  {
  }

  lemma LockKeeps(s: State, t: Tid, g: nat, pc: Pc)
    requires HeldOk(s) && IsThread(s, t) && g !in s.held && (forall o :: !Inside(t, PcOf(s, t), o)) && Inside(t, pc, g)
    ensures Keeps(s, Goto(s.(held := s.held[g := t]), t, pc), t)
  {
  }

  /** Two states with the same locks and the same program counters. */
  predicate SamePcs(n: State, m: State) {
    && m.held == n.held && |m.ctls| == |n.ctls| && |m.extras| == |n.extras|
    && (forall c :: 0 <= c < |n.ctls| ==> m.ctls[c].login == n.ctls[c].login && m.ctls[c].worker == n.ctls[c].worker)
    && (forall k :: 0 <= k < |n.extras| ==> m.extras[k].pc == n.extras[k].pc)
  }

  lemma SameKeeps(s: State, n: State, m: State, t: Tid)
    requires Keeps(s, n, t) && SamePcs(n, m)
    ensures Keeps(s, m, t)
  {
    assert forall u :: IsThread(n, u) ==> IsThread(m, u) && PcOf(m, u) == PcOf(n, u);
  }

  /** A control changes beside its program counters. */
  lemma SetPcs(u: State, c: nat, x: Ctl, t: Tid, pc: Pc)
    requires c < |u.ctls| && x.login == u.ctls[c].login && x.worker == u.ctls[c].worker && IsThread(u, t)
    ensures SamePcs(Goto(u, t, pc), Goto(SetCtl(u, c, x), t, pc))
  {
  }

  lemma SetTwice(s: State, c: nat, x: Ctl, pc: Pc)
    requires c < |s.ctls|
    ensures Goto(SetCtl(s, c, x), Login(c), pc) == SetCtl(s, c, x.(login := pc))
  {
    assert s.ctls[c := x][c := x.(login := pc)] == s.ctls[c := x.(login := pc)];
  }

  lemma MovePcs(s: State, n: State, k: nat)
    requires n.ctls == s.ctls && n.held == s.held && k < |n.extras| == |s.extras|
    requires n.extras == s.extras[k := n.extras[k]]
    ensures SamePcs(Goto(s, Extra(k), n.extras[k].pc), n)
  {
  }

  /** Closing and replacing a control move no goroutine. */
  lemma LifePcs(x: Ctl, c: nat)
    ensures CloseCall(x).login == x.login && CloseCall(x).worker == x.worker
    ensures MarkReplaced(x, c).0.login == x.login && MarkReplaced(x, c).0.worker == x.worker
  {
  }

  lemma SelfKeeps(s: State, t: Tid)
    requires HeldOk(s)
    ensures Keeps(s, s, t)
  {
  }

  // ---------- calls that start with lockCurrentRun ----------

  lemma LookupKeeps(s: State, t: Tid, op: Op)
    requires HeldOk(s) && IsThread(s, t) && PcOf(s, t) == Lookup(op) && CtlOf(s, t) < |s.ctls|
    ensures Keeps(s, LookupStep(s, t, op), t)
  {
    hide HeldOk, Keeps, Goto, Seen, After;
    var e := Seen(s, s.ctls[CtlOf(s, t)].run, op);
    StayKeeps(s, t, if e.None? then After(op, false) else Lock(op, e.value.gate));
  }

  lemma GateKeeps(s: State, t: Tid, op: Op, gate: nat)
    requires HeldOk(s) && IsThread(s, t) && PcOf(s, t) == Lock(op, gate)
    ensures Keeps(s, LockStep(s, t, op, gate), t)
  {
    hide HeldOk, Keeps, Goto;
    SelfKeeps(s, t);
    if gate !in s.held {
      LockKeeps(s, t, gate, Check(op, gate));
    }
  }

  lemma CheckKeeps(s: State, t: Tid, op: Op, gate: nat)
    requires HeldOk(s) && IsThread(s, t) && PcOf(s, t) == Check(op, gate) && CtlOf(s, t) < |s.ctls|
    ensures Keeps(s, CheckStep(s, t, op, gate), t)
  {
    hide HeldOk, Keeps, Goto;
    var e := Seen(s, s.ctls[CtlOf(s, t)].run, op);
    if e.None? || e.value.gate != gate {
      LeaveKeeps(s, t, gate, After(op, false));
    } else {
      StayKeeps(s, t, Act(op, e.value));
    }
  }

  lemma RemovalKeeps(s: State, t: Tid, op: Op, e: Entry)
    requires HeldOk(s) && IsThread(s, t) && PcOf(s, t) == Act(op, e) && CtlOf(s, t) < |s.ctls|
    ensures Keeps(s, Goto(Release(Delete(s, CtlOf(s, t), e), e.gate), t, After(op, true)), t)
  {
    hide HeldOk, Keeps, Get, After;
    LeaveKeeps(s, t, e.gate, After(op, true));
    SameKeeps(s, Goto(Release(s, e.gate), t, After(op, true)),
              Goto(Release(Delete(s, CtlOf(s, t), e), e.gate), t, After(op, true)), t);
  }

  lemma ActivateKeeps(s: State, t: Tid, e: Entry, ok: bool)
    requires HeldOk(s) && IsThread(s, t) && PcOf(s, t) == Act(Activate, e) && CtlOf(s, t) < |s.ctls|
    ensures Keeps(s, ActivateStep(s, t, CtlOf(s, t), e, ok), t)
  {
    hide HeldOk, Keeps, Get, Goto, SamePcs;
    var c, u := CtlOf(s, t), Release(s, e.gate);
    SelfKeeps(s, t);
    LeaveKeeps(s, t, e.gate, After(Activate, false));
    LeaveKeeps(s, t, e.gate, After(Activate, true));
    SetPcs(u, c, s.ctls[c].(activated := true), t, After(Activate, true));
    SameKeeps(s, Goto(u, t, After(Activate, true)),
              Goto(SetCtl(u, c, s.ctls[c].(activated := true)), t, After(Activate, true)), t);
  }

  lemma CompleteKeeps(s: State, t: Tid, e: Entry)
    requires HeldOk(s) && IsThread(s, t) && PcOf(s, t) == Act(Complete, e) && CtlOf(s, t) < |s.ctls|
    ensures Keeps(s, CompleteStep(s, t, CtlOf(s, t), e), t)
  {
    hide HeldOk, Keeps, Goto, SamePcs;
    var c := CtlOf(s, t);
    SelfKeeps(s, t);
    LeaveKeeps(s, t, e.gate, After(Complete, false));
    StayKeeps(s, t, WriteResponse(e));
    SetPcs(s, c, s.ctls[c].(writing := true), t, WriteResponse(e));
    SameKeeps(s, Goto(s, t, WriteResponse(e)), Goto(SetCtl(s, c, s.ctls[c].(writing := true)), t, WriteResponse(e)), t);
  }

  lemma DeliverKeeps(s: State, t: Tid, op: Op, e: Entry)
    requires HeldOk(s) && IsThread(s, t) && PcOf(s, t) == Act(op, e) && op.Deliver? && CtlOf(s, t) < |s.ctls|
    ensures Keeps(s, DeliverStep(s, t, CtlOf(s, t), op, e), t)
  {
    hide HeldOk, Keeps, Goto, SamePcs, Current, Send;
    var c, u := CtlOf(s, t), Release(s, e.gate);
    var x := s.ctls[c];
    var y := x.(pool := Send(x.pool, op.conn, x.channelClosed > 0, Current(s, c)));
    SelfKeeps(s, t);
    LeaveKeeps(s, t, e.gate, Returned);
    SetPcs(u, c, y, t, Returned);
    SameKeeps(s, Goto(u, t, Returned), Goto(SetCtl(u, c, y), t, Returned), t);
  }

  lemma ActKeeps(s: State, t: Tid, op: Op, e: Entry, ok: bool)
    requires HeldOk(s) && IsThread(s, t) && PcOf(s, t) == Act(op, e) && CtlOf(s, t) < |s.ctls|
    ensures Keeps(s, ActStep(s, t, op, e, ok), t)
  {
    hide HeldOk, Keeps, Goto, Delete, ActivateStep, CompleteStep, DeliverStep;
    if Removal(op) {
      RemovalKeeps(s, t, op, e);
    } else if op.Activate? {
      ActivateKeeps(s, t, e, ok);
    } else if op.Complete? {
      CompleteKeeps(s, t, e);
    } else {
      DeliverKeeps(s, t, op, e);
    }
  }

  // ---------- login handlers, workers and Close calls ----------

  /** Adopting a control moves its login handler and no other goroutine. */
  lemma AdoptPcs(s: State, c: nat, gate: nat, barrier: Option<nat>, next: Pc)
    requires c < |s.ctls|
    ensures SamePcs(Goto(s, Login(c), next), Adopt(s, c, gate, barrier, next))
  {
  }

  /** `Add` with the gate of the predecessor given back, in a state `u` that differs in no program counter. */
  lemma AdoptKeeps(s: State, c: nat, prior: Entry)
    requires HeldOk(s) && c < |s.ctls| && s.ctls[c].login == AddCommit(Some(prior)) && prior.ctl < |s.ctls|
    ensures var (y, barrier) := MarkReplaced(s.ctls[prior.ctl], prior.ctl);
            Keeps(s, Adopt(SetCtl(Release(s, prior.gate), prior.ctl, y), c, prior.gate, barrier, AddNotify(prior.ctl)),
                  Login(c))
  {
    hide HeldOk, Keeps, SamePcs, MarkReplaced, Adopt, Goto;
    var (y, barrier) := MarkReplaced(s.ctls[prior.ctl], prior.ctl);
    var u, t, next := Release(s, prior.gate), Login(c), AddNotify(prior.ctl);
    LifePcs(s.ctls[prior.ctl], prior.ctl);
    LeaveKeeps(s, t, prior.gate, next);
    SetPcs(u, prior.ctl, y, t, next);
    var v := SetCtl(u, prior.ctl, y);
    SameKeeps(s, Goto(u, t, next), Goto(v, t, next), t);
    AdoptPcs(v, c, prior.gate, barrier, next);
    SameKeeps(s, Goto(v, t, next), Adopt(v, c, prior.gate, barrier, next), t);
  }

  lemma AddKeeps(s: State, c: nat, prior: Option<Entry>)
    requires HeldOk(s) && c < |s.ctls| && s.ctls[c].login == AddCommit(prior)
    requires (prior.Some? ==> prior.value.ctl < |s.ctls|)
    ensures Keeps(s, AddStep(s, c, prior), Login(c))
  {
    hide HeldOk, Keeps, Get, MarkReplaced, Adopt, Goto, SamePcs, SetCtl;
    var t := Login(c);
    SelfKeeps(s, t);
    if prior.Some? {
      LeaveKeeps(s, t, prior.value.gate, Lookup(Withdraw));
      LeaveKeeps(s, t, prior.value.gate, AddRead);
      AdoptKeeps(s, c, prior.value);
    } else {
      StayKeeps(s, t, Lookup(Withdraw));
      StayKeeps(s, t, AddRead);
      StayKeeps(s, t, AwaitHandoff);
      AdoptPcs(s, c, s.gates, None, AwaitHandoff);
      SameKeeps(s, Goto(s, t, AwaitHandoff), Adopt(s, c, s.gates, None, AwaitHandoff), t);
    }
  }

  lemma WriteKeeps(s: State, c: nat, e: Entry, ok: bool)
    requires HeldOk(s) && c < |s.ctls| && s.ctls[c].login == WriteResponse(e) && LocalOk(s.ctls[c])
    ensures Keeps(s, WriteStep(s, c, e, ok), Login(c))
  {
    var n, t := WriteStep(s, c, e, ok), Login(c);
    LeaveKeeps(s, t, e.gate, n.ctls[c].login);
    assert s.ctls[c].worker == Idle;
    hide LocalOk, HeldOk;
  }

  lemma NotifyKeeps(s: State, c: nat, o: nat)
    requires HeldOk(s) && c < |s.ctls| && s.ctls[c].login == AddNotify(o) && o < |s.ctls|
    ensures Keeps(s, Goto(SetCtl(s, o, MarkReplaced(s.ctls[o], o).0), Login(c), AwaitHandoff), Login(c))
  {
    hide HeldOk, Keeps, SamePcs, MarkReplaced, Goto;
    LifePcs(s.ctls[o], o);
    StayKeeps(s, Login(c), AwaitHandoff);
    SetPcs(s, o, MarkReplaced(s.ctls[o], o).0, Login(c), AwaitHandoff);
    SameKeeps(s, Goto(s, Login(c), AwaitHandoff),
              Goto(SetCtl(s, o, MarkReplaced(s.ctls[o], o).0), Login(c), AwaitHandoff), Login(c));
  }

  /** A control changes while its login handler moves on outside every critical section. */
  lemma SetKeeps(s: State, c: nat, x: Ctl, pc: Pc)
    requires HeldOk(s) && c < |s.ctls| && x.login == s.ctls[c].login && x.worker == s.ctls[c].worker
    requires forall o :: !Inside(Login(c), x.login, o)
    ensures Keeps(s, SetCtl(s, c, x.(login := pc)), Login(c))
  {
    hide HeldOk, Keeps, SamePcs, Goto;
    StayKeeps(s, Login(c), pc);
    SetPcs(s, c, x, Login(c), pc);
    SetTwice(s, c, x, pc);
    SameKeeps(s, Goto(s, Login(c), pc), Goto(SetCtl(s, c, x), Login(c), pc), Login(c));
  }

  lemma LoginKeeps(s: State, c: nat, ok: bool)
    requires HeldOk(s) && c < |s.ctls| && LocalOk(s.ctls[c])
    ensures Keeps(s, LoginStep(s, c, ok), Login(c))
  {
    hide HeldOk, Keeps, LocalOk, AddStep, WriteStep, Get, SamePcs, MarkReplaced, CloseCall, Goto;
    var t, x := Login(c), s.ctls[c];
    SelfKeeps(s, t);
    match x.login
    case AddRead => StayKeeps(s, t, AddLock(Get(s, x.run)));
    case AddLock(prior) =>
      if prior.None? {
        StayKeeps(s, t, AddCommit(None));
      } else if prior.value.gate !in s.held {
        LockKeeps(s, t, prior.value.gate, AddCommit(prior));
      }
    case AddCommit(prior) => if prior.None? || prior.value.ctl < |s.ctls| { AddKeeps(s, c, prior); }
    case AddNotify(o) => if o < |s.ctls| { NotifyKeeps(s, c, o); }
    case AwaitHandoff => SetKeeps(s, c, x.(waited := true), Lookup(Activate));
    case WriteResponse(e) => WriteKeeps(s, c, e, ok);
    case CloseSelf =>
      LifePcs(x, c);
      SetKeeps(s, c, CloseCall(x), Returned);
    case _ =>
  }

  lemma WorkerKeeps(s: State, c: nat)
    requires HeldOk(s) && c < |s.ctls|
    requires var pc := s.ctls[c].worker; !pc.Lookup? && !pc.Lock? && !pc.Check? && !pc.Act?
    ensures Keeps(s, WorkerStep(s, c), Worker(c))
  {
    hide HeldOk, Keeps, SamePcs;
    var n, t := WorkerStep(s, c), Worker(c);
    WorkerPcs(s, c);
    StayKeeps(s, t, n.ctls[c].worker);
    SameKeeps(s, Goto(s, t, n.ctls[c].worker), n, t);
  }

  lemma WorkerPcs(s: State, c: nat)
    requires c < |s.ctls|
    ensures c < |WorkerStep(s, c).ctls|
    ensures SamePcs(Goto(s, Worker(c), WorkerStep(s, c).ctls[c].worker), WorkerStep(s, c))
  {
    hide Receive, FinishLocked;
    var y := WorkerCtl(s.ctls[c]);
    WorkerLogin(s.ctls[c]);
    hide WorkerCtl;
  }

  lemma WorkerLogin(x: Ctl)
    ensures WorkerCtl(x).login == x.login
  {
  }

  lemma CloserKeeps(s: State, k: nat, pick: nat)
    requires HeldOk(s) && k < |s.extras|
    ensures Keeps(s, CloserStep(s, k, pick), Extra(k))
  {
    hide HeldOk, Keeps, Snapshot, CloseCall, SamePcs;
    var n, t := CloserStep(s, k, pick), Extra(k);
    SelfKeeps(s, t);
    if n != s {
      CloserPcs(s, k, pick);
      StayKeeps(s, t, n.extras[k].pc);
      SameKeeps(s, Goto(s, t, n.extras[k].pc), n, t);
    }
  }

  lemma CloserPcs(s: State, k: nat, pick: nat)
    requires k < |s.extras|
    ensures var n := CloserStep(s, k, pick); k < |n.extras| && SamePcs(Goto(s, Extra(k), n.extras[k].pc), n)
  {
    hide CloseCall, Snapshot, SamePcs;
    var n := CloserStep(s, k, pick);
    if s.extras[k].pc.CloseCtl? && n != s {
      var c := s.extras[k].ctl;
      LifePcs(s.ctls[c], c);
      SetPcs(s, c, CloseCall(s.ctls[c]), Extra(k), n.extras[k].pc);
    } else {
      MovePcs(s, n, k);
    }
  }

  lemma ThreadKeeps(s: State, t: Tid, ok: bool, pick: nat)
    requires HeldOk(s) && Inv(s) && IsThread(s, t)
    ensures Keeps(s, ThreadStep(s, t, ok, pick), t)
  {
    hide HeldOk, Keeps, Goto, LookupStep, LockStep, CheckStep, ActStep, LoginStep, WorkerStep, CloserStep,
         Threads, Global, CloserOk, LocalOk, Inside;
    SelfKeeps(s, t);
    match PcOf(s, t)
    case Lookup(op) => if CtlOf(s, t) < |s.ctls| { LookupKeeps(s, t, op); }
    case Lock(op, gate) => GateKeeps(s, t, op, gate);
    case Check(op, gate) => if CtlOf(s, t) < |s.ctls| { CheckKeeps(s, t, op, gate); }
    case Act(op, e) => if CtlOf(s, t) < |s.ctls| { ActKeeps(s, t, op, e, ok); }
    case _ =>
      match t
      case Login(c) => LoginKeeps(s, c, ok);
      case Worker(c) => WorkerKeeps(s, c);
      case Extra(k) => CloserKeeps(s, k, pick);
  }

  /** Steps of no modelled thread. */
  lemma OutsideKeeps(s: State, a: Action)
    requires HeldOk(s) && !a.Step?
    ensures HeldOk(Next(s, a))
  {
    hide Receive, CloseCall, Inside;
    if a.Heartbeat? && a.ctl < |s.ctls| {
      LifePcs(s.ctls[a.ctl], 0);
    }
    var n := Next(s, a);
    assert forall u :: IsThread(s, u) ==> IsThread(n, u) && PcOf(n, u) == PcOf(s, u);
  }

  lemma NextHeld(s: State, a: Action)
    requires HeldOk(s) && Inv(s)
    ensures HeldOk(Next(s, a))
  {
    hide HeldOk, Inv, Keeps, ThreadStep;
    if a.Step? {
      if IsThread(s, a.t) {
        ThreadKeeps(s, a.t, a.ok, a.pick);
        KeepsHeld(s, ThreadStep(s, a.t, a.ok, a.pick), a.t);
      }
    } else {
      OutsideKeeps(s, a);
    }
  }

  /** In every run a gate that is taken is held by someone inside its critical section. */
  lemma {:induction false} RunHeld(actions: seq<Action>)
    ensures HeldOk(Run(Empty, actions)) && Inv(Run(Empty, actions))
  {
    hide Inv, Next;
    RunInv(actions);
    if actions != [] {
      RunHeld(actions[..|actions| - 1]);
      NextHeld(Run(Empty, actions[..|actions| - 1]), actions[|actions| - 1]);
    }
  }
}
