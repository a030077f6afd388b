/** The steps of a login handler keep the invariant. */
module ControlLogin {
  import opened Efrp
  import opened ControlModel
  import opened ControlInvariant
  import opened ControlSteps

  /** The control whose response is being written is current, has waited and has no rival. */
  lemma AtWrite(s: State, c: nat, e: Entry)
    requires Inv(s) && c < |s.ctls| && s.ctls[c].login == WriteResponse(e)
    ensures Held(s, e.gate, Login(c)) && Get(s, s.ctls[c].run) == Some(e) && e.ctl == c && Current(s, c)
    ensures forall p :: 0 <= p < |s.ctls| && p != c && s.ctls[p].run == s.ctls[c].run ==> !Unquiet(s.ctls[p])
  {
    assert ThreadOk(s, Login(c)) && LocalOk(s.ctls[c]);
  }

  lemma StartGlobal(s: State, n: State, c: nat)
    requires Global(s) && CloserOk(s) && c < |s.ctls| && Current(s, c) && s.ctls[c].life == Pending
    requires |n.ctls| == |s.ctls| && n == s.(ctls := s.ctls[c := n.ctls[c]], held := n.held)
    requires n.ctls[c].life == Running && n.ctls[c].started && n.ctls[c].run == s.ctls[c].run
    requires n.ctls[c].id == s.ctls[c].id
    requires forall p :: 0 <= p < |s.ctls| && p != c && s.ctls[p].run == s.ctls[c].run ==> !Unquiet(s.ctls[p])
    ensures Global(n) && CloserOk(n)
  {
    hide Unquiet, Todo;
    assert CurrentOk(n);
    assert forall p :: 0 <= p < |n.ctls| && Risky(n, p) ==> Risky(s, p);
    assert forall p :: 0 <= p < |n.ctls| ==> n.ctls[p].run == s.ctls[p].run;
  }

  lemma StartInv(s: State, c: nat, e: Entry)
    requires Inv(s) && c < |s.ctls| && s.ctls[c].login == WriteResponse(e)
    ensures Inv(WriteStep(s, c, e, true))
  {
    hide Global, CloserOk, Unquiet, Threads, PoolOk;
    var n := WriteStep(s, c, e, true);
    AtWrite(s, c, e);
    assert LocalOk(s.ctls[c]) && LocalOk(n.ctls[c]);
    StartGlobal(s, n, c);
    hide LocalOk;
    StartRely(s, n, c, e);
    hide Rely;
    Assemble(s, n, Login(c));
  }

  lemma StartRely(s: State, n: State, c: nat, e: Entry)
    requires c < |s.ctls| && Held(s, e.gate, Login(c)) && s.ctls[c].life == Pending && s.ctls[c].activated
    requires n == WriteStep(s, c, e, true)
    ensures Rely(s, n, Login(c))
  {
  }

  lemma WriteInv(s: State, c: nat, e: Entry, ok: bool)
    requires Inv(s) && c < |s.ctls| && s.ctls[c].login == WriteResponse(e)
    ensures Inv(WriteStep(s, c, e, ok))
  {
    if ok {
      StartInv(s, c, e);
    } else {
      hide Global, CloserOk, PoolOk;
      assert ThreadOk(s, Login(c)) && LocalOk(s.ctls[c]);
      OneCtlInv(s, WriteStep(s, c, e, ok), Login(c), c);
    }
  }

  // ---------- Add ----------

  lemma CloseLocal(x: Ctl, c: nat)
    requires LocalOk(x) && !x.writing && x.life != Created
    ensures LocalOk(CloseCall(x)) && MarkReplaced(x, c).0 == CloseCall(x)
    ensures Rank(CloseCall(x).life) >= Rank(Closing) && Unquiet(CloseCall(x)) == Unquiet(x)
  {
    hide PoolOk;
  }

  /** The predecessor that a new control must wait for, if any. */
  function Inherited(s: State, prior: Option<Entry>): Option<nat>
    requires prior.Some? ==> prior.value.ctl < |s.ctls|
  {
    if prior.None? then None else MarkReplaced(s.ctls[prior.value.ctl], prior.value.ctl).1
  }

  /** The new control inherits the wait for whatever session of its run is not quiet. */
  lemma BarrierCovers(s: State, c: nat, prior: Option<Entry>, p: nat)
    requires Inv(s) && !s.closed && c < |s.ctls| && prior == Get(s, s.ctls[c].run)
    requires p < |s.ctls| && Unquiet(s.ctls[p]) && s.ctls[p].run == s.ctls[c].run
    ensures prior.Some? && prior.value.ctl < |s.ctls| && Inherited(s, prior) == Some(p)
  {
    assert LocalOk(s.ctls[prior.value.ctl]);
  }

  /** Control `c` has become the pending current generation of its run. */
  predicate Adopted(s: State, n: State, c: nat, prior: Option<Entry>)
    requires c < |s.ctls| && (prior.Some? ==> prior.value.ctl < |s.ctls|)
  {
    && |n.ctls| == |s.ctls| && n.closed == s.closed && n.closer == s.closer && n.extras == s.extras
    && s.ctls[c].run in n.current
    && Get(n, s.ctls[c].run) == Some(Entry(c, n.ctls[c].id, n.current[s.ctls[c].run].gate))
    && n.current == s.current[s.ctls[c].run := n.current[s.ctls[c].run]]
    && n.ctls[c] == s.ctls[c].(life := Pending, id := n.ctls[c].id, barrier := Inherited(s, prior),
                               login := n.ctls[c].login)
    && (forall i :: 0 <= i < |s.ctls| && i != c ==>
          n.ctls[i] == if prior.Some? && i == prior.value.ctl then CloseCall(s.ctls[i]) else s.ctls[i])
  }

  /** The circumstances of an adoption. */
  ghost predicate Adopting(s: State, n: State, c: nat, prior: Option<Entry>) {
    && Inv(s) && !s.closed && c < |s.ctls| && prior == Get(s, s.ctls[c].run)
    && (prior.Some? ==> prior.value.ctl < |s.ctls| && prior.value.ctl != c)
    && s.ctls[c].life == Created && !s.ctls[c].started && !s.ctls[c].waited && Adopted(s, n, c, prior)
  }

  lemma AdoptKeeps(s: State, n: State, c: nat, prior: Option<Entry>)
    requires Adopting(s, n, c, prior)
    ensures forall i :: 0 <= i < |s.ctls| ==> Unquiet(n.ctls[i]) == Unquiet(s.ctls[i]) && n.ctls[i].run == s.ctls[i].run
  {
    hide Inv;
  }

  lemma AdoptCurrent(s: State, n: State, c: nat, prior: Option<Entry>)
    requires Adopting(s, n, c, prior)
    ensures CurrentOk(n) && RunningCurrent(n)
  {
    hide Locals, Threads, Cover, Absent, Exclusive, CloserOk;
  }

  lemma AdoptCover(s: State, n: State, c: nat, prior: Option<Entry>)
    requires Adopting(s, n, c, prior) && CurrentOk(n)
    ensures Cover(n)
  {
    AdoptKeeps(s, n, c, prior);
    forall p | 0 <= p < |s.ctls| && Unquiet(s.ctls[p]) && s.ctls[p].run == s.ctls[c].run
      ensures WaitsFor(n, c, p)
    {
      BarrierCovers(s, c, prior, p);
    }
    hide Unquiet, Locals, Threads, Absent, Exclusive, CloserOk, Inherited, CloseCall;
  }

  lemma AdoptGlobal(s: State, n: State, c: nat, prior: Option<Entry>)
    requires Adopting(s, n, c, prior)
    ensures Global(n) && CloserOk(n)
  {
    AdoptKeeps(s, n, c, prior);
    AdoptCurrent(s, n, c, prior);
    AdoptCover(s, n, c, prior);
    hide Unquiet, Locals, Threads, Cover, CurrentOk, RunningCurrent, Inherited, CloseCall;
  }

  lemma AdoptLocals(s: State, n: State, c: nat, prior: Option<Entry>)
    requires Adopting(s, n, c, prior) && LocalOk(n.ctls[c])
    requires prior.Some? ==> !s.ctls[prior.value.ctl].writing && s.ctls[prior.value.ctl].life != Created
    ensures Locals(n)
  {
    forall i | 0 <= i < |n.ctls|
      ensures LocalOk(n.ctls[i])
    {
      assert LocalOk(s.ctls[i]);
      if prior.Some? && i == prior.value.ctl {
        CloseLocal(s.ctls[i], i);
      }
      hide LocalOk;
    }
  }

  /** `Add` took effect: the thread held the predecessor's gate, if there was one, and gave it back. */
  lemma AdoptInv(s: State, n: State, c: nat, prior: Option<Entry>)
    requires Adopting(s, n, c, prior) && s.ctls[c].login == AddCommit(prior) && LocalOk(n.ctls[c])
    requires prior.Some? ==> Held(s, prior.value.gate, Login(c)) &&
                             !s.ctls[prior.value.ctl].writing && s.ctls[prior.value.ctl].life != Created
    requires n.held == if prior.Some? then Release(s, prior.value.gate).held else s.held
    requires n.ctls[c].login == if prior.Some? then AddNotify(prior.value.ctl) else AwaitHandoff
    ensures Inv(n)
  {
    AdoptGlobal(s, n, c, prior);
    AdoptLocals(s, n, c, prior);
    AdoptRely(s, n, c, prior);
    hide Global, CloserOk, Locals, Threads, Inherited, Rely;
    Assemble(s, n, Login(c));
  }

  lemma AdoptRely(s: State, n: State, c: nat, prior: Option<Entry>)
    requires Adopting(s, n, c, prior)
    requires prior.Some? ==> Held(s, prior.value.gate, Login(c)) && s.ctls[prior.value.ctl].life != Created
    requires n.held == if prior.Some? then Release(s, prior.value.gate).held else s.held
    ensures Rely(s, n, Login(c))
  {
    hide Inv, Inherited;
  }

  lemma AddInv(s: State, c: nat, prior: Option<Entry>)
    requires Inv(s) && c < |s.ctls| && s.ctls[c].login == AddCommit(prior)
    requires prior.Some? ==> prior.value.ctl < |s.ctls|
    ensures Inv(AddStep(s, c, prior))
  {
    hide Global, CloserOk, PoolOk;
    var x := s.ctls[c];
    assert ThreadOk(s, Login(c)) && LocalOk(x);
    var u := if prior.Some? then Release(s, prior.value.gate) else s;
    var n := AddStep(s, c, prior);
    if s.closed {
      GotoInv(s, u, Login(c), Lookup(Withdraw));
    } else if Get(s, x.run) != prior {
      GotoInv(s, u, Login(c), AddRead);
    } else if n != s {
      hide Inv, Locals, Threads, ThreadOk;
      assert LocalOk(n.ctls[c]);
      hide LocalOk, LoginOk, LifeOk;
      assert Adopted(s, n, c, prior);
      AdoptInv(s, n, c, prior);
    }
  }

  lemma AddNotifyInv(s: State, c: nat, o: nat)
    requires Inv(s) && c < |s.ctls| && s.ctls[c].login == AddNotify(o)
    ensures Inv(LoginStep(s, c, true)) && LoginStep(s, c, false) == LoginStep(s, c, true)
  {
    hide Global, CloserOk, PoolOk;
    assert ThreadOk(s, Login(c)) && LocalOk(s.ctls[c]);
    if !s.ctls[o].writing {
      assert SetCtl(s, o, MarkReplaced(s.ctls[o], o).0) == s;
      GotoInv(s, s, Login(c), AwaitHandoff);
    }
  }

  /** A control whose `doneCh` is closed has no session left. */
  lemma DoneQuiet(x: Ctl)
    requires LocalOk(x) && x.done > 0
    ensures !Unquiet(x)
  {
  }

  /** The barrier is down: every other session of the run is quiet. */
  lemma AwaitGlobal(s: State, n: State, c: nat)
    requires Global(s) && CloserOk(s) && c < |s.ctls| && |n.ctls| == |s.ctls| && n == s.(ctls := s.ctls[c := n.ctls[c]])
    requires n.ctls[c] == s.ctls[c].(waited := true, login := n.ctls[c].login)
    requires var b := s.ctls[c].barrier; b.Some? ==> b.value < |s.ctls| && !Unquiet(s.ctls[b.value])
    ensures Global(n) && CloserOk(n)
  {
    assert Unquiet(n.ctls[c]) == Unquiet(s.ctls[c]);
    hide Unquiet, Todo;
    assert CurrentOk(n);
    assert forall p :: 0 <= p < |n.ctls| && Risky(n, p) ==> Risky(s, p);
  }

  lemma AwaitInv(s: State, c: nat)
    requires Inv(s) && c < |s.ctls| && s.ctls[c].login == AwaitHandoff
    ensures Inv(LoginStep(s, c, true)) && LoginStep(s, c, false) == LoginStep(s, c, true)
  {
    var n := LoginStep(s, c, true);
    if n != s {
      AwaitLocal(s, c);
      hide LocalOk;
      AwaitGlobal(s, n, c);
      hide Global, CloserOk, Unquiet, Threads;
      AwaitRely(s, n, c);
      hide Rely;
      Assemble(s, n, Login(c));
    }
  }

  lemma AwaitLocal(s: State, c: nat)
    requires Locals(s) && c < |s.ctls| && s.ctls[c].login == AwaitHandoff
    ensures var x := s.ctls[c]; LocalOk(x.(waited := true, login := Lookup(Activate)))
    ensures forall b :: 0 <= b < |s.ctls| && s.ctls[b].done > 0 ==> !Unquiet(s.ctls[b])
  {
    assert LocalOk(s.ctls[c]);
    forall b | 0 <= b < |s.ctls| && s.ctls[b].done > 0
      ensures !Unquiet(s.ctls[b])
    {
      DoneQuiet(s.ctls[b]);
    }
    hide PoolOk;
  }

  lemma AwaitRely(s: State, n: State, c: nat)
    requires c < |s.ctls| && |n.ctls| == |s.ctls| && n == s.(ctls := s.ctls[c := n.ctls[c]])
    requires n.ctls[c] == s.ctls[c].(waited := true, login := n.ctls[c].login)
    ensures Rely(s, n, Login(c))
  {
  }

  /** The entry that `Add` reads is of an admitted control. */
  lemma AddReadInv(s: State, c: nat)
    requires Inv(s) && c < |s.ctls| && s.ctls[c].login == AddRead
    ensures Inv(Goto(s, Login(c), AddLock(Get(s, s.ctls[c].run))))
  {
    var prior := Get(s, s.ctls[c].run);
    assert PriorOk(s, prior);
    hide Global, CloserOk, PoolOk;
    assert LocalOk(s.ctls[c]);
    GotoInv(s, s, Login(c), AddLock(prior));
  }

  lemma AddLockInv(s: State, c: nat, prior: Option<Entry>)
    requires Inv(s) && c < |s.ctls| && s.ctls[c].login == AddLock(prior)
    ensures Inv(LoginStep(s, c, true)) && LoginStep(s, c, false) == LoginStep(s, c, true)
  {
    hide Global, CloserOk, PoolOk;
    assert ThreadOk(s, Login(c)) && LocalOk(s.ctls[c]);
    if prior.None? {
      GotoInv(s, s, Login(c), AddCommit(None));
    } else if prior.value.gate !in s.held {
      GotoInv(s, s.(held := s.held[prior.value.gate := Login(c)]), Login(c), AddCommit(prior));
    }
  }

  lemma CloseSelfInv(s: State, c: nat)
    requires Inv(s) && c < |s.ctls| && s.ctls[c].login == CloseSelf
    ensures Inv(LoginStep(s, c, true)) && LoginStep(s, c, false) == LoginStep(s, c, true)
  {
    hide Global, CloserOk, PoolOk;
    assert ThreadOk(s, Login(c)) && LocalOk(s.ctls[c]);
    OneCtlInv(s, LoginStep(s, c, true), Login(c), c);
  }

  lemma LoginInv(s: State, c: nat, ok: bool)
    requires Inv(s) && c < |s.ctls|
    ensures Inv(LoginStep(s, c, ok))
  {
    var x := s.ctls[c];
    assert ThreadOk(s, Login(c));
    hide Inv, Goto, AddStep, WriteStep, CloseCall;
    match x.login
    case AddRead => AddReadInv(s, c);
    case AddLock(prior) => AddLockInv(s, c, prior);
    case AddCommit(prior) => AddInv(s, c, prior);
    case AddNotify(o) => AddNotifyInv(s, c, o);
    case AwaitHandoff => AwaitInv(s, c);
    case WriteResponse(e) => WriteInv(s, c, e, ok);
    case CloseSelf => CloseSelfInv(s, c);
    case _ =>
  }
}
