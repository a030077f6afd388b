/** Every run of the control protocol keeps the invariant, and what follows from it. */
module ControlRuns {
  import opened ControlModel
  import opened ControlInvariant
  import opened ControlSteps
  import opened ControlLogin

  // ---------- the worker ----------

  lemma WorkerLocal(x: Ctl, current: bool)
    requires LocalOk(x) && (x.worker == Finish ==> !current)
    ensures LocalOk(WorkerCtl(x)) && AgedCtl(x, WorkerCtl(x), current)
  {
    if x.pool.channel != [] {
      ReceiveOk(x.pool, false);
    }
    hide PoolOk, Receive;
  }

  lemma WorkerInv(s: State, c: nat)
    requires Inv(s) && c < |s.ctls|
    ensures Inv(WorkerStep(s, c))
  {
    hide Global, CloserOk, PoolOk;
    assert ThreadOk(s, Worker(c)) && LocalOk(s.ctls[c]);
    WorkerLocal(s.ctls[c], Current(s, c));
    var n := WorkerStep(s, c);
    assert n.ctls[c].login == s.ctls[c].login && ThreadOk(n, Worker(c));
    hide Inv, LocalOk, AgedCtl, WorkerCtl, ThreadOk;
    OneCtlInv(s, n, Worker(c), c);
  }

  // ---------- Close calls ----------

  /** The first call lists every entry, and so every risky control. */
  lemma SnapshotCovers(s: State, c: nat)
    requires Global(s) && !s.closed && c < |s.ctls| && Risky(s, c)
    ensures c in Snapshot(s.current)
  {
    assert Current(s, c);
    assert s.current[s.ctls[c].run].ctl == c;
  }

  lemma ClosedGlobal(s: State, n: State)
    requires Global(s) && n.ctls == s.ctls && n.current == s.current && n.closed
    ensures Global(n)
  {
    hide Unquiet;
    assert CurrentOk(n);
  }

  /** A step that moves only thread `k`, and may close the manager. */
  lemma ExtraRely(s: State, n: State, k: nat)
    requires k < |s.extras| && |n.extras| == |s.extras| && n.extras == s.extras[k := n.extras[k]]
    requires n.ctls == s.ctls && n.held == s.held && n.current == s.current && (s.closed ==> n.closed)
    ensures Rely(s, n, Extra(k))
  {
  }

  /** Such a step keeps the invariant if the thread and the closing call are right. */
  lemma ExtraInv(s: State, n: State, k: nat)
    requires Inv(s) && k < |s.extras| && |n.extras| == |s.extras| && n.extras == s.extras[k := n.extras[k]]
    requires n.ctls == s.ctls && n.held == s.held && n.current == s.current && (s.closed ==> n.closed)
    requires ThreadOk(n, Extra(k)) && Global(n) && CloserOk(n)
    ensures Inv(n)
  {
    ExtraRely(s, n, k);
    hide Rely, ThreadOk, Global, CloserOk, LocalOk;
    Assemble(s, n, Extra(k));
  }

  lemma CloseStartInv(s: State, k: nat, pick: nat)
    requires Inv(s) && k < |s.extras| && s.extras[k].pc == CloseStart
    ensures Inv(CloserStep(s, k, pick))
  {
    hide Locals, Threads;
    var n := CloserStep(s, k, pick);
    var todo := Snapshot(s.current);
    assert AllAdmitted(n, todo);
    ClosedGlobal(s, n);
    forall c | 0 <= c < |n.ctls| && Risky(n, c)
      ensures Risky(s, c) && (!s.closed ==> c in todo)
    {
      assert Risky(s, c);
      if !s.closed {
        SnapshotCovers(s, c);
      }
    }
    hide Global;
    assert CloserOk(n);
    ExtraInv(s, n, k);
  }

  lemma CloseNextInv(s: State, k: nat, pick: nat, todo: set<nat>)
    requires Inv(s) && k < |s.extras| && s.extras[k].pc == CloseNext(todo)
    ensures Inv(CloserStep(s, k, pick))
  {
    assert ThreadOk(s, Extra(k));
    hide Locals, Threads, Global, CloserOk, Todo;
    if todo == {} {
      NextTodo(s.extras[k].ctl, todo, pick);
      MoveInv(s, k, s.extras[k].(pc := Returned));
    } else if pick in todo && pick < |s.ctls| {
      NextTodo(s.extras[k].ctl, todo, pick);
      MoveInv(s, k, Thread(pick, Lookup(Evict(todo - {pick}))));
    }
  }

  lemma NextTodo(c: nat, todo: set<nat>, pick: nat)
    ensures todo == {} ==> Todo(Thread(c, Returned)) == Todo(Thread(c, CloseNext(todo)))
    ensures pick in todo ==> Todo(Thread(pick, Lookup(Evict(todo - {pick})))) == Todo(Thread(c, CloseNext(todo)))
  {
  }

  /** A thread moves on without forgetting anything it has to close. */
  lemma MoveInv(s: State, k: nat, x: Thread)
    requires Inv(s) && k < |s.extras| && PcOk(s, Extra(k), x.ctl, x.pc) && Todo(x) == Todo(s.extras[k])
    ensures Inv(s.(extras := s.extras[k := x]))
  {
    hide Locals, Threads, Global, Todo, PcOk, CloserOk;
    var n := s.(extras := s.extras[k := x]);
    MoveGlobal(s, n);
    MovePc(s, k, x);
    MoveCloser(s, k, x);
    ExtraInv(s, n, k);
  }

  lemma MoveGlobal(s: State, n: State)
    requires Global(s) && n == s.(extras := n.extras)
    ensures Global(n)
  {
    hide Unquiet;
  }

  lemma MovePc(s: State, k: nat, x: Thread)
    requires k < |s.extras| && PcOk(s, Extra(k), x.ctl, x.pc)
    ensures ThreadOk(s.(extras := s.extras[k := x]), Extra(k))
  {
  }

  lemma MoveCloser(s: State, k: nat, x: Thread)
    requires CloserOk(s) && k < |s.extras| && Todo(x) == Todo(s.extras[k])
    ensures CloserOk(s.(extras := s.extras[k := x]))
  {
    hide Todo;
    var n := s.(extras := s.extras[k := x]);
    assert forall c :: 0 <= c < |n.ctls| && Risky(n, c) ==> Risky(s, c);
  }

  /** A closed control is off the list because it is no longer risky. */
  lemma CloseCtlInv(s: State, k: nat, pick: nat, rest: set<nat>)
    requires Inv(s) && k < |s.extras| && s.extras[k].pc == CloseCtl(rest)
    ensures Inv(CloserStep(s, k, pick))
  {
    var c := s.extras[k].ctl;
    var n := CloserStep(s, k, pick);
    assert ThreadOk(s, Extra(k)) && LocalOk(s.ctls[c]);
    if n != s {
      CloseLocal(s.ctls[c], c);
      assert AgedCtl(s.ctls[c], n.ctls[c], Current(s, c));
      CloseCtlCloser(s, n, k, rest);
      AgedOne(s, n, c);
      assert ThreadOk(n, Extra(k));
      hide LocalOk, Unquiet, AgedCtl, Global, CloserOk, ThreadOk, CloseCall, Aged;
      CloseCtlRely(s, n, k);
      hide Rely;
      AgedGlobal(s, n);
      Assemble(s, n, Extra(k));
    }
  }

  lemma CloseCtlRely(s: State, n: State, k: nat)
    requires k < |s.extras| && s.extras[k].ctl < |s.ctls| && Aged(s, n) && |n.extras| == |s.extras|
    requires var c := s.extras[k].ctl;
             n == s.(ctls := s.ctls[c := CloseCall(s.ctls[c])], extras := s.extras[k := n.extras[k]])
    ensures Rely(s, n, Extra(k))
  {
    hide Unquiet;
  }

  lemma AgedOne(s: State, n: State, c: nat)
    requires c < |s.ctls| && |n.ctls| == |s.ctls| && n == s.(ctls := s.ctls[c := n.ctls[c]], extras := n.extras)
    requires AgedCtl(s.ctls[c], n.ctls[c], Current(s, c))
    ensures Aged(s, n)
  {
    AgedSame();
    hide AgedCtl;
  }

  lemma AgedSame()
    ensures forall x: Ctl, current: bool :: AgedCtl(x, x, current)
  {
  }

  lemma CloseCtlCloser(s: State, n: State, k: nat, rest: set<nat>)
    requires CloserOk(s) && k < |s.extras| && s.extras[k].pc == CloseCtl(rest)
    requires var c := s.extras[k].ctl;
             c < |s.ctls| && n == s.(ctls := s.ctls[c := CloseCall(s.ctls[c])],
                                     extras := s.extras[k := Thread(c, CloseNext(rest))])
    requires s.ctls[s.extras[k].ctl].life != Created
    ensures CloserOk(n)
  {
    var c := s.extras[k].ctl;
    assert !Risky(n, c);
    assert forall i :: 0 <= i < |n.ctls| && Risky(n, i) ==> i != c && Risky(s, i);
  }

  lemma CloserInv(s: State, k: nat, pick: nat)
    requires Inv(s) && k < |s.extras|
    ensures Inv(CloserStep(s, k, pick))
  {
    hide Inv;
    match s.extras[k].pc
    case CloseStart => CloseStartInv(s, k, pick);
    case CloseNext(todo) => CloseNextInv(s, k, pick, todo);
    case CloseCtl(rest) => CloseCtlInv(s, k, pick, rest);
    case _ =>
  }

  // ---------- steps of no modelled thread ----------

  lemma HeartbeatInv(s: State, c: nat)
    requires Inv(s) && c < |s.ctls| && s.ctls[c].started && !s.ctls[c].writing
    ensures Inv(SetCtl(s, c, CloseCall(s.ctls[c])))
  {
    hide Global, CloserOk, PoolOk, Threads;
    assert LocalOk(s.ctls[c]);
    CloseLocal(s.ctls[c], c);
    var n := SetCtl(s, c, CloseCall(s.ctls[c]));
    assert AgedCtl(s.ctls[c], n.ctls[c], Current(s, c));
    hide LocalOk, AgedCtl;
    OneCtlInv(s, n, Extra(|s.extras|), c);
  }

  lemma TakeInv(s: State, c: nat)
    requires Inv(s) && c < |s.ctls|
    ensures Inv(TakeStep(s, c))
  {
    hide Global, CloserOk, Threads;
    var x := s.ctls[c];
    assert LocalOk(x);
    if x.pool.channel != [] {
      ReceiveOk(x.pool, true);
      hide PoolOk;
      var n := TakeStep(s, c);
      assert LocalOk(n.ctls[c]) && AgedCtl(x, n.ctls[c], Current(s, c));
      hide LocalOk, AgedCtl;
      OneCtlInv(s, n, Extra(|s.extras|), c);
    }
  }

  lemma NewLoginInv(s: State, run: string, capacity: nat)
    requires Inv(s)
    ensures Inv(s.(ctls := s.ctls + [NewCtl(run, capacity)]))
  {
    var n := s.(ctls := s.ctls + [NewCtl(run, capacity)]);
    assert Global(n) && CloserOk(n) by {
      hide Todo, Locals, Threads;
      assert !Unquiet(NewCtl(run, capacity));
      hide Unquiet;
      assert CurrentOk(n);
      assert forall c :: 0 <= c < |n.ctls| && Risky(n, c) ==> c < |s.ctls| && Risky(s, c);
    }
    assert LocalOk(NewCtl(run, capacity));
    hide Global, CloserOk, LocalOk;
    var t := Extra(|s.extras|);
    assert Rely(s, n, t);
    hide Rely;
    forall u | IsThread(n, u)
      ensures ThreadOk(n, u)
    {
      if IsThread(s, u) {
        assert ThreadOk(s, u);
        Others(s, n, t, u);
      }
    }
  }

  lemma NewExtraGlobal(s: State, n: State)
    requires Global(s) && CloserOk(s) && n == s.(extras := n.extras) && |n.extras| >= |s.extras|
    requires forall k :: 0 <= k < |s.extras| ==> n.extras[k] == s.extras[k]
    ensures Global(n) && CloserOk(n)
  {
    hide Todo, Unquiet;
    assert forall c :: 0 <= c < |n.ctls| && Risky(n, c) ==> Risky(s, c);
  }

  lemma NewExtraInv(s: State, x: Thread)
    requires Inv(s) && PcOk(s, Extra(|s.extras|), x.ctl, x.pc)
    ensures Inv(s.(extras := s.extras + [x]))
  {
    var n := s.(extras := s.extras + [x]);
    NewExtraGlobal(s, n);
    hide Global, CloserOk, LocalOk;
    var t := Extra(|s.extras|);
    assert Rely(s, n, t);
    hide Rely;
    forall u | IsThread(n, u)
      ensures ThreadOk(n, u)
    {
      if IsThread(s, u) {
        assert ThreadOk(s, u);
        Others(s, n, t, u);
      }
    }
  }

  // ---------- every run ----------

  lemma ActInv(s: State, t: Tid, op: Op, e: Entry, ok: bool)
    requires Inv(s) && IsThread(s, t) && PcOf(s, t) == Act(op, e) && CtlOf(s, t) < |s.ctls|
    ensures Inv(ActStep(s, t, op, e, ok))
  {
    hide Inv, ActivateStep, CompleteStep, DeliverStep, Goto, Delete;
    if Removal(op) {
      RemovalInv(s, t, op, e);
    } else if op.Activate? {
      ActivateInv(s, t, e, ok);
    } else if op.Complete? {
      CompleteInv(s, t, e);
    } else {
      DeliverInv(s, t, op, e);
    }
  }

  lemma ThreadInv(s: State, t: Tid, ok: bool, pick: nat)
    requires Inv(s) && IsThread(s, t)
    ensures Inv(ThreadStep(s, t, ok, pick))
  {
    hide Inv, LookupStep, LockStep, CheckStep, ActStep, LoginStep, WorkerStep, CloserStep;
    match PcOf(s, t)
    case Lookup(op) => if CtlOf(s, t) < |s.ctls| { LookupInv(s, t, op); }
    case Lock(op, gate) => LockInv(s, t, op, gate);
    case Check(op, gate) => if CtlOf(s, t) < |s.ctls| { CheckInv(s, t, op, gate); }
    case Act(op, e) => if CtlOf(s, t) < |s.ctls| { ActInv(s, t, op, e, ok); }
    case _ =>
      match t
      case Login(c) => LoginInv(s, c, ok);
      case Worker(c) => WorkerInv(s, c);
      case Extra(k) => CloserInv(s, k, pick);
  }

  lemma NextInv(s: State, a: Action)
    requires Inv(s)
    ensures Inv(Next(s, a))
  {
    hide Inv, ThreadStep, TakeStep, CloseCall;
    match a
    case NewLogin(run, capacity) => NewLoginInv(s, run, capacity);
    case NewClose => NewExtraInv(s, Thread(0, CloseStart));
    case NewWorkConn(c, conn) =>
      if Admitted(s, c) {
        NewExtraInv(s, Thread(c, Lookup(Deliver(conn))));
      }
    case Step(t, ok, pick) =>
      if IsThread(s, t) {
        ThreadInv(s, t, ok, pick);
      }
    case Heartbeat(c) =>
      if c < |s.ctls| && s.ctls[c].started && !s.ctls[c].writing {
        HeartbeatInv(s, c);
      }
    case TakeWorkConn(c) =>
      if c < |s.ctls| {
        TakeInv(s, c);
      }
  }

  lemma {:induction false} RunInv(actions: seq<Action>)
    ensures Inv(Run(Empty, actions))
  {
    if actions != [] {
      RunInv(actions[..|actions| - 1]);
      NextInv(Run(Empty, actions[..|actions| - 1]), actions[|actions| - 1]);
    }
  }

  lemma ReachableInv(s: State)
    requires Reachable(s)
    ensures Inv(s)
  {
    hide Inv, Run;
    var actions :| s == Run(Empty, actions);
    RunInv(actions);
  }
}
