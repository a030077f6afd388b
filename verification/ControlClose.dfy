/** When a `Close` call of the manager keeps what its caller expects: that nothing runs once it has returned. */
module ControlClose {
  import opened Efrp
  import opened ControlModel
  import opened ControlInvariant
  import opened ControlRuns
  import opened ControlGates
  import opened ControlEscape

  /** Call `k` has taken its list in `s`: whenever it has returned, no control is Running. */
  ghost predicate Settles(s: State, k: nat) {
    forall n: State, c: nat :: Follows(s, n) && k < |n.extras| && n.extras[k].pc == Returned && c < |n.ctls| ==>
      n.ctls[c].life != Running
  }

  /** Every Running control is still the one its run is routed to. */
  predicate Routed(s: State) {
    forall c :: 0 <= c < |s.ctls| && s.ctls[c].life == Running ==> Current(s, c)
  }

  // ---------- a routed manager: nothing escapes the list ----------

  /** The same state with call `k` regarded as the one that closed the manager. */
  function As(s: State, k: nat): State {
    s.(closer := Some(k))
  }

  lemma GotoAs(s: State, t: Tid, pc: Pc, k: nat)
    requires IsThread(s, t)
    ensures Goto(As(s, k), t, pc) == As(Goto(s, t, pc), k) && Goto(s, t, pc).closed == s.closed
  {
  }

  lemma SetAs(s: State, c: nat, x: Ctl, k: nat)
    requires c < |s.ctls|
    ensures SetCtl(As(s, k), c, x) == As(SetCtl(s, c, x), k) && SetCtl(s, c, x).closed == s.closed
  {
  }

  lemma RemovalAs(s: State, t: Tid, op: Op, e: Entry, k: nat)
    requires IsThread(s, t) && CtlOf(s, t) < |s.ctls| && s.closed
    ensures var n := Goto(Release(Delete(s, CtlOf(s, t), e), e.gate), t, After(op, true));
            n.closed && As(n, k) == Goto(Release(Delete(As(s, k), CtlOf(s, t), e), e.gate), t, After(op, true))
  {
    hide Goto, After;
    GotoAs(Release(Delete(s, CtlOf(s, t), e), e.gate), t, After(op, true), k);
  }

  lemma ActivateAs(s: State, t: Tid, e: Entry, ok: bool, k: nat)
    requires IsThread(s, t) && CtlOf(s, t) < |s.ctls| && s.closed
    ensures var n := ActivateStep(s, t, CtlOf(s, t), e, ok);
            n.closed && As(n, k) == ActivateStep(As(s, k), t, CtlOf(s, t), e, ok)
  {
    hide Goto, After;
    GotoAs(Release(s, e.gate), t, After(Activate, false), k);
  }

  lemma CompleteAs(s: State, t: Tid, e: Entry, k: nat)
    requires IsThread(s, t) && CtlOf(s, t) < |s.ctls| && s.closed
    ensures var n := CompleteStep(s, t, CtlOf(s, t), e);
            n.closed && As(n, k) == CompleteStep(As(s, k), t, CtlOf(s, t), e)
  {
    hide Goto, After;
    var c := CtlOf(s, t);
    GotoAs(Release(s, e.gate), t, After(Complete, false), k);
    GotoAs(SetCtl(s, c, s.ctls[c].(writing := true)), t, WriteResponse(e), k);
  }

  lemma DeliverAs(s: State, t: Tid, op: Op, e: Entry, k: nat)
    requires IsThread(s, t) && CtlOf(s, t) < |s.ctls| && s.closed && op.Deliver?
    ensures var n := DeliverStep(s, t, CtlOf(s, t), op, e);
            n.closed && As(n, k) == DeliverStep(As(s, k), t, CtlOf(s, t), op, e)
  {
    hide Goto, Send;
    var c, u := CtlOf(s, t), Release(s, e.gate);
    var x := s.ctls[c];
    GotoAs(u, t, Returned, k);
    GotoAs(SetCtl(u, c, x.(pool := Send(x.pool, op.conn, x.channelClosed > 0, Current(s, c)))), t, Returned, k);
  }

  lemma ActAs(s: State, t: Tid, op: Op, e: Entry, ok: bool, k: nat)
    requires IsThread(s, t) && CtlOf(s, t) < |s.ctls| && s.closed
    ensures ActStep(As(s, k), t, op, e, ok) == As(ActStep(s, t, op, e, ok), k) && ActStep(s, t, op, e, ok).closed
  {
    hide Goto, Delete, ActivateStep, CompleteStep, DeliverStep;
    assert CtlOf(As(s, k), t) == CtlOf(s, t);
    if Removal(op) {
      RemovalAs(s, t, op, e, k);
    } else if op.Activate? {
      ActivateAs(s, t, e, ok, k);
    } else if op.Complete? {
      CompleteAs(s, t, e, k);
    } else {
      DeliverAs(s, t, op, e, k);
    }
  }

  lemma AddAs(s: State, c: nat, prior: Option<Entry>, k: nat)
    requires c < |s.ctls| && (prior.Some? ==> prior.value.ctl < |s.ctls|) && s.closed
    ensures AddStep(As(s, k), c, prior) == As(AddStep(s, c, prior), k) && AddStep(s, c, prior).closed
  {
    hide Goto, Adopt, MarkReplaced;
    GotoAs(if prior.Some? then Release(s, prior.value.gate) else s, Login(c), Lookup(Withdraw), k);
  }

  lemma LoginAs(s: State, c: nat, ok: bool, k: nat)
    requires c < |s.ctls| && s.closed
    ensures LoginStep(As(s, k), c, ok) == As(LoginStep(s, c, ok), k) && LoginStep(s, c, ok).closed
  {
    hide MarkReplaced, CloseCall, StartLocked, AddStep, Goto;
    var x, t := s.ctls[c], Login(c);
    match x.login
    case AddRead => GotoAs(s, t, AddLock(Get(s, x.run)), k);
    case AddLock(prior) =>
      GotoAs(s, t, AddCommit(None), k);
      if prior.Some? {
        GotoAs(s.(held := s.held[prior.value.gate := t]), t, AddCommit(prior), k);
      }
    case AddCommit(prior) => if prior.None? || prior.value.ctl < |s.ctls| { AddAs(s, c, prior, k); }
    case AddNotify(o) => if o < |s.ctls| { GotoAs(SetCtl(s, o, MarkReplaced(s.ctls[o], o).0), t, AwaitHandoff, k); }
    case _ =>
  }

  lemma CloserAs(s: State, i: nat, pick: nat, k: nat)
    requires i < |s.extras| && s.closed
    ensures CloserStep(As(s, k), i, pick) == As(CloserStep(s, i, pick), k) && CloserStep(s, i, pick).closed
  {
    hide Goto, CloseCall, Snapshot;
    var c := s.extras[i].ctl;
    match s.extras[i].pc
    case CloseNext(_) => GotoAs(s, Extra(i), Returned, k);
    case CloseCtl(rest) => if c < |s.ctls| { GotoAs(SetCtl(s, c, CloseCall(s.ctls[c])), Extra(i), CloseNext(rest), k); }
    case _ =>
  }

  lemma SeenAs(s: State, run: string, op: Op, k: nat)
    ensures Seen(As(s, k), run, op) == Seen(s, run, op)
  {
  }

  lemma LookupAs(s: State, t: Tid, op: Op, k: nat)
    requires IsThread(s, t) && CtlOf(s, t) < |s.ctls|
    ensures LookupStep(As(s, k), t, op) == As(LookupStep(s, t, op), k) && LookupStep(s, t, op).closed == s.closed
  {
    hide Goto, After, Seen;
    SeenAs(s, s.ctls[CtlOf(s, t)].run, op, k);
    var e := Seen(s, s.ctls[CtlOf(s, t)].run, op);
    GotoAs(s, t, if e.None? then After(op, false) else Lock(op, e.value.gate), k);
  }

  lemma LockAs(s: State, t: Tid, op: Op, gate: nat, k: nat)
    requires IsThread(s, t)
    ensures LockStep(As(s, k), t, op, gate) == As(LockStep(s, t, op, gate), k)
    ensures LockStep(s, t, op, gate).closed == s.closed
  {
    hide Goto;
    GotoAs(s.(held := s.held[gate := t]), t, Check(op, gate), k);
  }

  lemma CheckAs(s: State, t: Tid, op: Op, gate: nat, k: nat)
    requires IsThread(s, t) && CtlOf(s, t) < |s.ctls|
    ensures CheckStep(As(s, k), t, op, gate) == As(CheckStep(s, t, op, gate), k)
    ensures CheckStep(s, t, op, gate).closed == s.closed
  {
    hide Goto, After, Seen;
    SeenAs(s, s.ctls[CtlOf(s, t)].run, op, k);
    var e := Seen(s, s.ctls[CtlOf(s, t)].run, op);
    GotoAs(Release(s, gate), t, After(op, false), k);
    if e.Some? {
      GotoAs(s, t, Act(op, e.value), k);
    }
  }

  lemma WorkerAs(s: State, c: nat, k: nat)
    requires c < |s.ctls|
    ensures WorkerStep(As(s, k), c) == As(WorkerStep(s, c), k) && WorkerStep(s, c).closed == s.closed
  {
    hide WorkerCtl;
    SetAs(s, c, WorkerCtl(s.ctls[c]), k);
  }

  lemma SameThread(s: State, t: Tid, k: nat)
    requires IsThread(s, t)
    ensures IsThread(As(s, k), t) && CtlOf(As(s, k), t) == CtlOf(s, t) && PcOf(As(s, k), t) == PcOf(s, t)
    ensures |As(s, k).ctls| == |s.ctls|
  {
  }

  lemma OwnAs(s: State, t: Tid, ok: bool, pick: nat, k: nat)
    requires IsThread(s, t) && s.closed
    requires var pc := PcOf(s, t); !pc.Lookup? && !pc.Lock? && !pc.Check? && !pc.Act?
    ensures ThreadStep(As(s, k), t, ok, pick) == As(ThreadStep(s, t, ok, pick), k) && ThreadStep(s, t, ok, pick).closed
  {
    hide LookupStep, LockStep, CheckStep, ActStep, LoginStep, CloserStep, WorkerStep, As;
    SameThread(s, t, k);
    match t
    case Login(c) => LoginAs(s, c, ok, k);
    case Worker(c) => WorkerAs(s, c, k);
    case Extra(i) => CloserAs(s, i, pick, k);
  }

  lemma ThreadAs(s: State, t: Tid, ok: bool, pick: nat, k: nat)
    requires IsThread(s, t) && s.closed
    ensures ThreadStep(As(s, k), t, ok, pick) == As(ThreadStep(s, t, ok, pick), k) && ThreadStep(s, t, ok, pick).closed
  {
    hide LookupStep, LockStep, CheckStep, ActStep, LoginStep, CloserStep, WorkerStep, As, CtlOf, PcOf;
    SameThread(s, t, k);
    match PcOf(s, t)
    case Lookup(op) => if CtlOf(s, t) < |s.ctls| { LookupAs(s, t, op, k); }
    case Lock(op, gate) => LockAs(s, t, op, gate, k);
    case Check(op, gate) => if CtlOf(s, t) < |s.ctls| { CheckAs(s, t, op, gate, k); }
    case Act(op, e) => if CtlOf(s, t) < |s.ctls| { ActAs(s, t, op, e, ok, k); }
    case _ => OwnAs(s, t, ok, pick, k);
  }

  lemma NextAs(s: State, a: Action, k: nat)
    requires s.closed
    ensures Next(As(s, k), a) == As(Next(s, a), k) && Next(s, a).closed
  {
    hide ThreadStep, CloseCall, TakeStep;
    if a.Step? && IsThread(s, a.t) {
      ThreadAs(s, a.t, a.ok, a.pick, k);
    } else if a.TakeWorkConn? && a.ctl < |s.ctls| {
      TakeAs(s, a.ctl, k);
    }
  }

  lemma TakeAs(s: State, c: nat, k: nat)
    requires c < |s.ctls|
    ensures TakeStep(As(s, k), c) == As(TakeStep(s, c), k) && TakeStep(s, c).closed == s.closed
  {
  }

  /** From a state of the invariant in which `k` may be regarded as the closing call, runs keep that. */
  lemma {:induction false} RunAs(s: State, actions: seq<Action>, k: nat)
    requires s.closed && Inv(As(s, k))
    ensures Run(s, actions).closed && Inv(As(Run(s, actions), k))
  {
    hide Inv, Next;
    if actions != [] {
      var m := Run(s, actions[..|actions| - 1]);
      RunAs(s, actions[..|actions| - 1], k);
      NextAs(m, actions[|actions| - 1], k);
      NextInv(As(m, k), actions[|actions| - 1]);
    }
  }

  /** In a routed manager the list of call `k` holds every control that is or may become Running. */
  lemma Listed(s: State, k: nat)
    requires Inv(s) && k < |s.extras| && s.extras[k].pc == CloseStart && Routed(s)
    ensures var n := CloserStep(s, k, 0); n.closed && Inv(As(n, k))
  {
    hide Locals, Threads, Global, CloserOk;
    CloseStartInv(s, k, 0);
    var n := CloserStep(s, k, 0);
    forall c | 0 <= c < |n.ctls| && Risky(n, c)
      ensures c in Todo(n.extras[k])
    {
      assert Current(s, c);
      assert s.current[s.ctls[c].run].ctl == c;
    }
    SameButCloser(n, k);
  }

  lemma SameButCloser(n: State, k: nat)
    requires Inv(n) && n.closed && k < |n.extras|
    requires forall c :: 0 <= c < |n.ctls| && Risky(n, c) ==> c in Todo(n.extras[k])
    ensures Inv(As(n, k))
  {
    hide Global, LocalOk, ThreadOk, Todo;
    var m := As(n, k);
    ClosedGlobal(n, m);
    forall t | IsThread(m, t)
      ensures ThreadOk(m, t)
    {
      assert IsThread(n, t);
      assert ThreadOk(n, t);
      PcAs(n, t, k);
    }
    assert forall c :: 0 <= c < |m.ctls| && Risky(m, c) ==> Risky(n, c);
  }

  lemma PcAs(n: State, t: Tid, k: nat)
    requires IsThread(n, t) && ThreadOk(n, t)
    ensures ThreadOk(As(n, k), t)
  {
  }

  lemma RoutedSettles(s: State, k: nat)
    requires Reachable(s) && k < |s.extras| && s.extras[k].pc == CloseStart && Routed(s)
    ensures Settles(CloserStep(s, k, 0), k)
  {
    hide Run, CloserStep, Routed, Locals, Threads, Global;
    ReachableInv(s);
    Listed(s, k);
    var m := CloserStep(s, k, 0);
    forall n: State, c: nat | Follows(m, n) && k < |n.extras| && n.extras[k].pc == Returned && c < |n.ctls|
      ensures n.ctls[c].life != Running
    {
      var actions :| n == Run(m, actions);
      RunAs(m, actions, k);
      assert Todo(n.extras[k]) == {};
      assert !Risky(As(n, k), c);
    }
  }

  // ---------- a control outside the map: it can outlive the call ----------

  lemma Unlisted(s: State, k: nat, c: nat)
    requires Inv(s) && HeldOk(s) && k < |s.extras| && s.extras[k].pc == CloseStart
    requires c < |s.ctls| && s.ctls[c].life == Running && !Current(s, c)
    ensures Escaping(CloserStep(s, k, 0), k, c)
  {
    var a := Step(Extra(k), false, 0);
    assert Next(s, a) == CloserStep(s, k, 0);
    NextInv(s, a);
    NextHeld(s, a);
    assert c !in Snapshot(s.current) by {
      hide Locals, Threads, Cover, Absent, Exclusive;
      assert CurrentOk(s);
    }
    hide Inv, HeldOk, Snapshot;
  }

  lemma NotSettled(m: State, k: nat, c: nat)
    requires Escaping(m, k, c)
    ensures !Settles(m, k)
  {
    hide Inv, HeldOk, Run;
    var more := Escapes(m, k, c);
    assert Follows(m, Run(m, more));
  }

  lemma SettlesRouted(s: State, k: nat)
    requires Reachable(s) && k < |s.extras| && s.extras[k].pc == CloseStart && Settles(CloserStep(s, k, 0), k)
    ensures Routed(s)
  {
    hide Inv, HeldOk, Run, CloserStep, Current;
    var actions :| s == Run(Empty, actions);
    RunHeld(actions);
    var m := CloserStep(s, k, 0);
    forall c | 0 <= c < |s.ctls| && s.ctls[c].life == Running
      ensures Current(s, c)
    {
      if !Current(s, c) {
        Unlisted(s, k, c);
        NotSettled(m, k, c);
        assert false;
      }
    }
  }

  /**
   Close, exactly.  A `Close` call that takes its list in `s` keeps its promise, that nothing
   runs once it has returned, if and only if every Running control is in the map at that
   moment.  An open manager always meets this.
   */
  lemma CloseExact(s: State, k: nat)
    requires Reachable(s) && k < |s.extras| && s.extras[k].pc == CloseStart
    ensures Settles(CloserStep(s, k, 0), k) <==> Routed(s)
    ensures !s.closed ==> Routed(s)
  {
    hide Settles, Run, CloserStep;
    ReachableInv(s);
    hide Inv, Reachable;
    if Routed(s) {
      RoutedSettles(s, k);
    }
    if Settles(CloserStep(s, k, 0), k) {
      SettlesRouted(s, k);
    }
    if !s.closed {
      OpenRouted(s);
    }
  }

  lemma OpenRouted(s: State)
    requires Inv(s) && !s.closed
    ensures Routed(s)
  {
    hide Locals, Threads, CloserOk, Cover, Absent, Exclusive, CurrentOk;
  }
}
