/** Every step of the control protocol keeps the invariant. */
module ControlSteps {
  import opened Efrp
  import opened ControlModel
  import opened ControlInvariant

  /** Thread `t` may take and give back locks; those of other threads stay. */
  predicate LocksKept(s: State, n: State, t: Tid) {
    forall g :: g in s.held && s.held[g] != t ==> Held(n, g, s.held[g])
  }

  ghost predicate PcsKept(s: State, n: State, t: Tid)
    requires |s.ctls| <= |n.ctls| && |s.extras| <= |n.extras|
  {
    forall u :: IsThread(s, u) && u != t ==> CtlOf(n, u) == CtlOf(s, u) && PcOf(n, u) == PcOf(s, u)
  }

  /** A step of `t` that changes no entry and only ends sessions. */
  lemma AgedStep(s: State, n: State, t: Tid)
    requires Inv(s) && Aged(s, n) && |n.extras| == |s.extras|
    requires Locals(n) && (IsThread(s, t) ==> ThreadOk(n, t)) && LocksKept(s, n, t) && PcsKept(s, n, t)
    requires s.closed ==> Todo(n.extras[s.closer.value]) == Todo(s.extras[s.closer.value])
    ensures Inv(n)
  {
    assert Rely(s, n, t) by {
      hide LocalOk, ThreadOk, Todo, Global;
    }
    AgedGlobal(s, n);
    AgedCloser(s, n);
    hide Rely, Global, CloserOk, ThreadOk, Locals;
    Assemble(s, n, t);
  }

  /** The new program counter fits the control that the thread belongs to. */
  predicate PcLocal(s: State, t: Tid, pc: Pc)
    requires IsThread(s, t)
  {
    match t
    case Login(c) =>
      !s.ctls[c].writing && !pc.WriteResponse? && LoginOk(s.ctls[c].(login := pc)) && LifeOk(s.ctls[c].(login := pc))
    case Worker(c) => LifeOk(s.ctls[c].(worker := pc))
    case Extra(_) => true
  }

  lemma PcLocalOk(s: State, t: Tid, pc: Pc)
    requires Locals(s) && IsThread(s, t) && PcLocal(s, t, pc)
    ensures Locals(Goto(s, t, pc))
  {
    hide Conns;
    if t.Login? || t.Worker? {
      var x := s.ctls[t.ctl];
      var y := Goto(s, t, pc).ctls[t.ctl];
      assert LocalOk(x);
      assert PoolOk(y.pool) && (t.Worker? ==> LoginOk(y)) by {
        hide LifeOk;
      }
    }
  }

  lemma GotoAged(s: State, u: State, t: Tid, pc: Pc)
    requires IsThread(s, t) && u == s.(held := u.held)
    ensures Aged(s, Goto(u, t, pc)) && PcsKept(s, Goto(u, t, pc), t)
  {
  }

  lemma GotoThread(u: State, t: Tid, pc: Pc)
    requires IsThread(u, t) && PcOk(u, t, CtlOf(u, t), pc)
    ensures ThreadOk(Goto(u, t, pc), t)
  {
  }

  /** Thread `t` moves on, with other locks than before and nothing else changed. */
  lemma GotoInv(s: State, u: State, t: Tid, pc: Pc)
    requires Inv(s) && IsThread(s, t) && u == s.(held := u.held) && LocksKept(s, u, t)
    requires PcLocal(s, t, pc) && PcOk(u, t, CtlOf(s, t), pc)
    requires t.Extra? && s.closed && s.closer == Some(t.index) ==>
              Todo(s.extras[t.index].(pc := pc)) == Todo(s.extras[t.index])
    ensures Inv(Goto(u, t, pc))
  {
    PcLocalOk(s, t, pc);
    GotoAged(s, u, t, pc);
    GotoThread(u, t, pc);
    var n := Goto(u, t, pc);
    assert n.ctls == Goto(s, t, pc).ctls;
    hide ThreadOk, Global, LocalOk, Todo, Aged, PcsKept, PcLocal;
    AgedStep(s, n, t);
  }

  // ---------- calls that start with lockCurrentRun ----------

  lemma LookupInv(s: State, t: Tid, op: Op)
    requires Inv(s) && IsThread(s, t) && PcOf(s, t) == Lookup(op) && CtlOf(s, t) < |s.ctls|
    ensures Inv(LookupStep(s, t, op))
  {
    hide Global;
    var c := CtlOf(s, t);
    assert ThreadOk(s, t) && LocalOk(s.ctls[c]);
    var e := Seen(s, s.ctls[c].run, op);
    GotoInv(s, s, t, if e.None? then After(op, false) else Lock(op, e.value.gate));
  }

  lemma LockInv(s: State, t: Tid, op: Op, gate: nat)
    requires Inv(s) && IsThread(s, t) && PcOf(s, t) == Lock(op, gate)
    ensures Inv(LockStep(s, t, op, gate))
  {
    hide Global;
    assert ThreadOk(s, t) && LocalOk(s.ctls[CtlOf(s, t)]);
    if gate !in s.held {
      GotoInv(s, s.(held := s.held[gate := t]), t, Check(op, gate));
    }
  }

  lemma CheckInv(s: State, t: Tid, op: Op, gate: nat)
    requires Inv(s) && IsThread(s, t) && PcOf(s, t) == Check(op, gate) && CtlOf(s, t) < |s.ctls|
    ensures Inv(CheckStep(s, t, op, gate))
  {
    hide Global;
    var c := CtlOf(s, t);
    assert ThreadOk(s, t) && LocalOk(s.ctls[c]);
    var e := Seen(s, s.ctls[c].run, op);
    if e.None? || e.value.gate != gate {
      GotoInv(s, Release(s, gate), t, After(op, false));
    } else {
      GotoInv(s, s, t, Act(op, e.value));
    }
  }

  /** When the manager is open, whoever removes control `c` leaves a quiet run behind. */
  lemma RemoverQuiet(s: State, t: Tid, op: Op, e: Entry)
    requires Inv(s) && IsThread(s, t) && PcOf(s, t) == Act(op, e) && Removal(op) && !s.closed && e.ctl == CtlOf(s, t)
    ensures forall p :: 0 <= p < |s.ctls| && s.ctls[p].run == s.ctls[e.ctl].run ==>
                          !Unquiet(s.ctls[p]) && s.ctls[p].life != Running
  {
    assert ThreadOk(s, t) && LocalOk(s.ctls[e.ctl]);
    assert s.ctls[e.ctl].waited && !Unquiet(s.ctls[e.ctl]);
    assert forall p :: 0 <= p < |s.ctls| && s.ctls[p].life == Running ==> LocalOk(s.ctls[p]) && Unquiet(s.ctls[p]);
  }

  lemma DeleteGlobal(s: State, n: State, r: string)
    requires Global(s) && CloserOk(s) && n == s.(current := s.current - {r})
    requires !s.closed ==>
              forall p :: 0 <= p < |s.ctls| && s.ctls[p].run == r ==> !Unquiet(s.ctls[p]) && s.ctls[p].life != Running
    ensures Global(n) && CloserOk(n)
  {
    hide Unquiet, Todo;
    assert CurrentOk(n);
    assert forall c :: 0 <= c < |n.ctls| && Risky(n, c) ==> Risky(s, c);
  }

  /** Where a removal leads is right for the thread that makes it. */
  lemma RemovalLocal(s: State, t: Tid, op: Op, e: Entry)
    requires Locals(s) && IsThread(s, t) && ThreadOk(s, t) && PcOf(s, t) == Act(op, e) && Removal(op)
    ensures CtlOf(s, t) < |s.ctls| && PcLocal(s, t, After(op, true))
    ensures t.Extra? ==> Todo(s.extras[t.index].(pc := After(op, true))) == Todo(s.extras[t.index])
    ensures match t case Login(_) => op.Withdraw? case Worker(_) => op.Retire? case Extra(_) => op.Evict?
  {
    hide PoolOk, Get;
    assert LocalOk(s.ctls[CtlOf(s, t)]);
  }

  /** What is known at the moment of a removal. */
  lemma AtRemoval(s: State, t: Tid, op: Op, e: Entry)
    requires Inv(s) && IsThread(s, t) && PcOf(s, t) == Act(op, e) && Removal(op)
    ensures OpOk(s, t, CtlOf(s, t), op) && Held(s, e.gate, t) && Get(s, s.ctls[CtlOf(s, t)].run) == Some(e)
    ensures e.ctl == CtlOf(s, t) ==> e.id == s.ctls[e.ctl].id
    ensures PcLocal(s, t, After(op, true))
    ensures t.Extra? ==> Todo(s.extras[t.index].(pc := After(op, true))) == Todo(s.extras[t.index])
    ensures match t case Login(_) => op.Withdraw? case Worker(_) => op.Retire? case Extra(_) => op.Evict?
  {
    hide Cover, Absent, Exclusive, RunningCurrent, CloserOk, LocalOk, PcLocal, Todo;
    assert ThreadOk(s, t);
    RemovalLocal(s, t, op, e);
  }

  lemma RemovalInv(s: State, t: Tid, op: Op, e: Entry)
    requires Inv(s) && IsThread(s, t) && PcOf(s, t) == Act(op, e) && Removal(op) && CtlOf(s, t) < |s.ctls|
    ensures Inv(ActStep(s, t, op, e, true)) && ActStep(s, t, op, e, false) == ActStep(s, t, op, e, true)
  {
    hide Inv, PcLocal, Todo, Goto;
    AtRemoval(s, t, op, e);
    if e.ctl != CtlOf(s, t) {
      GotoInv(s, Release(s, e.gate), t, After(op, true));
    } else {
      EntryRemoved(s, t, op, e);
    }
  }

  lemma EntryRemoved(s: State, t: Tid, op: Op, e: Entry)
    requires Inv(s) && IsThread(s, t) && PcOf(s, t) == Act(op, e) && Removal(op) && e.ctl == CtlOf(s, t) < |s.ctls|
    ensures Inv(Goto(Release(s.(current := s.current - {s.ctls[e.ctl].run}), e.gate), t, After(op, true)))
  {
    hide LocalOk, PcLocal, Todo, Global;
    var r := s.ctls[e.ctl].run;
    var m := s.(current := s.current - {r});
    var u := Release(m, e.gate);
    var pc := After(op, true);
    var n := Goto(u, t, pc);
    AtRemoval(s, t, op, e);
    if !s.closed {
      RemoverQuiet(s, t, op, e);
    }
    DeleteGlobal(s, m, r);
    hide Global, CloserOk, LocalOk, PcLocal, Todo;
    PcLocalOk(s, t, pc);
    assert n.ctls == Goto(s, t, pc).ctls;
    GotoThread(u, t, pc);
    GotoAged(m, u, t, pc);
    RemovedRely(s, t, e, pc);
    hide Rely, ThreadOk, Locals, Aged;
    AgedGlobal(m, n);
    AgedCloser(m, n);
    Assemble(s, n, t);
  }

  lemma RemovedRely(s: State, t: Tid, e: Entry, pc: Pc)
    requires IsThread(s, t) && e.ctl < |s.ctls| && Get(s, s.ctls[e.ctl].run) == Some(e) && Held(s, e.gate, t)
    ensures Rely(s, Goto(Release(s.(current := s.current - {s.ctls[e.ctl].run}), e.gate), t, pc), t)
  {
    var m := s.(current := s.current - {s.ctls[e.ctl].run});
    GotoAged(m, Release(m, e.gate), t, pc);
    hide Goto;
  }

  /** A step of `t` that changes control `c` only, and moves only `t`. */
  predicate OneCtl(s: State, n: State, t: Tid, c: nat) {
    && c < |s.ctls| && |n.ctls| == |s.ctls| && |n.extras| == |s.extras|
    && n == s.(ctls := s.ctls[c := n.ctls[c]], held := n.held, extras := n.extras)
    && (t != Login(c) ==> n.ctls[c].login == s.ctls[c].login)
    && (t != Worker(c) ==> n.ctls[c].worker == s.ctls[c].worker)
    && (forall k :: 0 <= k < |s.extras| && t != Extra(k) ==> n.extras[k] == s.extras[k])
  }

  lemma OneCtlInv(s: State, n: State, t: Tid, c: nat)
    requires Inv(s) && OneCtl(s, n, t, c)
    requires LocalOk(n.ctls[c]) && AgedCtl(s.ctls[c], n.ctls[c], Current(s, c))
    requires LocksKept(s, n, t) && (IsThread(s, t) ==> ThreadOk(n, t))
    requires t.Extra? && s.closer == Some(t.index) && t.index < |s.extras| ==>
              Todo(n.extras[t.index]) == Todo(s.extras[t.index])
    ensures Inv(n)
  {
    assert Locals(n) by {
      hide LocalOk;
    }
    hide ThreadOk, Global, LocalOk, Todo, Locals, Unquiet;
    assert Aged(s, n);
    assert PcsKept(s, n, t);
    hide Aged, PcsKept;
    AgedStep(s, n, t);
  }

  lemma ActivatedInv(s: State, c: nat, e: Entry)
    requires Inv(s) && c < |s.ctls| && s.ctls[c].login == Act(Activate, e) && s.ctls[c].life == Pending && e.ctl == c
    ensures Inv(SetCtl(Release(s, e.gate), c, s.ctls[c].(activated := true, login := Lookup(Complete))))
  {
    hide Global, CloserOk, PoolOk;
    var x, t := s.ctls[c], Login(c);
    assert ThreadOk(s, t) && LocalOk(x);
    hide Threads;
    OneCtlInv(s, SetCtl(Release(s, e.gate), c, x.(activated := true, login := Lookup(Complete))), t, c);
  }

  lemma ActivateInv(s: State, t: Tid, e: Entry, ok: bool)
    requires Inv(s) && IsThread(s, t) && PcOf(s, t) == Act(Activate, e) && CtlOf(s, t) < |s.ctls|
    ensures Inv(ActivateStep(s, t, CtlOf(s, t), e, ok))
  {
    hide Global, CloserOk, PoolOk;
    var c := CtlOf(s, t);
    var x := s.ctls[c];
    assert ThreadOk(s, t) && LocalOk(x);
    assert t == Login(c);
    var u := Release(s, e.gate);
    if !s.closed && e.ctl == c && e.id == x.id && x.life == Pending && !x.activated && ok {
      hide Inv;
      assert SetCtl(u, c, x.(activated := true, login := Lookup(Complete))).ctls ==
             Goto(SetCtl(u, c, x.(activated := true)), t, Lookup(Complete)).ctls;
      ActivatedInv(s, c, e);
    } else {
      GotoInv(s, u, t, After(Activate, false));
      GotoInv(s, u, t, After(Activate, true));
    }
  }

  lemma CompleteInv(s: State, t: Tid, e: Entry)
    requires Inv(s) && IsThread(s, t) && PcOf(s, t) == Act(Complete, e) && CtlOf(s, t) < |s.ctls|
    ensures Inv(CompleteStep(s, t, CtlOf(s, t), e))
  {
    hide Global, CloserOk, PoolOk;
    var c := CtlOf(s, t);
    var x := s.ctls[c];
    assert ThreadOk(s, t) && LocalOk(x);
    assert t == Login(c);
    if e.ctl == c && e.id == x.id && x.life == Pending && x.activated {
      var n := SetCtl(s, c, x.(writing := true, login := WriteResponse(e)));
      assert n.ctls == Goto(SetCtl(s, c, x.(writing := true)), t, WriteResponse(e)).ctls;
      OneCtlInv(s, n, t, c);
    } else {
      GotoInv(s, Release(s, e.gate), t, After(Complete, false));
    }
  }

  lemma DeliverInv(s: State, t: Tid, op: Op, e: Entry)
    requires Inv(s) && IsThread(s, t) && PcOf(s, t) == Act(op, e) && op.Deliver? && CtlOf(s, t) < |s.ctls|
    ensures Inv(DeliverStep(s, t, CtlOf(s, t), op, e))
  {
    hide Global, CloserOk, PoolOk;
    var c := CtlOf(s, t);
    var x := s.ctls[c];
    assert ThreadOk(s, t) && LocalOk(x);
    assert t.Extra?;
    var u := Release(s, e.gate);
    if e.ctl == c && e.id == x.id && x.life == Running && |x.pool.channel| < x.pool.capacity {
      SendOk(x.pool, op.conn);
      var n := Goto(SetCtl(u, c, x.(pool := Send(x.pool, op.conn, x.channelClosed > 0, Current(s, c)))), t, Returned);
      OneCtlInv(s, n, t, c);
    } else {
      GotoInv(s, u, t, Returned);
    }
  }

  lemma SendOk(p: Pool, conn: nat)
    requires PoolOk(p) && |p.channel| < p.capacity
    ensures PoolOk(Send(p, conn, false, true))
  {
  }

  lemma ReceiveOk(p: Pool, handed: bool)
    requires PoolOk(p) && p.channel != []
    ensures PoolOk(Receive(p, handed))
  {
    var q := Receive(p, handed);
    assert Conns(q.taken) == Conns(p.taken) + [p.channel[0]];
    assert p.channel == [p.channel[0]] + p.channel[1..];
  }
}
