/** How a control outside the map outlives a `Close` call: every other goroutine lets the call pass. */
module ControlEscape {
  import opened Efrp
  import opened ControlModel
  import opened ControlInvariant
  import opened ControlRuns
  import opened ControlGates
  import opened ControlSafety

  /** A step of `u` that changes no lifecycle state and moves no other extra goroutine. */
  predicate Calm(s: State, n: State, u: Tid) {
    && n.closed == s.closed && |n.ctls| == |s.ctls| && |n.extras| == |s.extras|
    && (forall c :: 0 <= c < |s.ctls| ==> n.ctls[c].life == s.ctls[c].life)
    && (forall k :: 0 <= k < |s.extras| && u != Extra(k) ==> n.extras[k] == s.extras[k])
  }

  /** How many steps a goroutine takes at most to leave the critical section it is in. */
  function Left(pc: Pc): nat {
    match pc case Check(_, _) => 3 case Act(_, _) => 2 case _ => 1
  }

  /** After a step of its holder, gate `g` is free, or its holder is closer to leaving. */
  predicate Nearer(s: State, n: State, u: Tid, g: nat)
    requires IsThread(s, u)
  {
    g in n.held ==> n.held[g] == u && IsThread(n, u) && Left(PcOf(n, u)) < Left(PcOf(s, u))
  }

  lemma CheckLeaves(s: State, u: Tid, op: Op, g: nat)
    requires IsThread(s, u) && PcOf(s, u) == Check(op, g) && CtlOf(s, u) < |s.ctls| && Held(s, g, u)
    ensures var n := CheckStep(s, u, op, g); Calm(s, n, u) && Nearer(s, n, u, g)
  {
    hide Seen, After;
  }

  /** Nobody writes a login response for a control whose gate another goroutine holds. */
  lemma NotWriting(s: State, u: Tid, op: Op, e: Entry)
    requires Inv(s) && IsThread(s, u) && PcOf(s, u) == Act(op, e) && CtlOf(s, u) < |s.ctls|
    ensures !s.ctls[CtlOf(s, u)].writing
  {
    hide Global, CloserOk;
    var c := CtlOf(s, u);
    assert LocalOk(s.ctls[c]) && ThreadOk(s, u) && ThreadOk(s, Login(c));
  }

  /** The holder gives the gate back and moves on; controls change in nothing but their other fields. */
  lemma ReleaseLeaves(s: State, m: State, u: Tid, g: nat, pc: Pc)
    requires IsThread(s, u) && m == s.(ctls := m.ctls, current := m.current) && |m.ctls| == |s.ctls|
    requires forall c :: 0 <= c < |s.ctls| ==> m.ctls[c].life == s.ctls[c].life
    ensures var n := Goto(Release(m, g), u, pc); Calm(s, n, u) && Nearer(s, n, u, g)
  {
  }

  lemma DeliverLeaves(s: State, u: Tid, op: Op, e: Entry)
    requires IsThread(s, u) && CtlOf(s, u) < |s.ctls| && op.Deliver? && !s.ctls[CtlOf(s, u)].writing
    ensures var n := DeliverStep(s, u, CtlOf(s, u), op, e); Calm(s, n, u) && Nearer(s, n, u, e.gate)
  {
    hide Current, Calm, Nearer, Goto, Send;
    var c := CtlOf(s, u);
    var x := s.ctls[c];
    ReleaseLeaves(s, s, u, e.gate, Returned);
    ReleaseLeaves(s, SetCtl(s, c, x.(pool := Send(x.pool, op.conn, x.channelClosed > 0, Current(s, c)))), u, e.gate,
                  Returned);
  }

  lemma ActLeaves(s: State, u: Tid, op: Op, e: Entry)
    requires s.closed && IsThread(s, u) && PcOf(s, u) == Act(op, e) && CtlOf(s, u) < |s.ctls| && Held(s, e.gate, u)
    requires !s.ctls[CtlOf(s, u)].writing
    ensures var n := ActStep(s, u, op, e, false); Calm(s, n, u) && Nearer(s, n, u, e.gate)
  {
    hide Get, Calm, Nearer, Goto, After, DeliverStep;
    var c := CtlOf(s, u);
    if Removal(op) {
      ReleaseLeaves(s, Delete(s, c, e), u, e.gate, After(op, true));
    } else if op.Activate? {
      ReleaseLeaves(s, s, u, e.gate, After(Activate, false));
    } else if op.Complete? {
      ReleaseLeaves(s, s, u, e.gate, After(Complete, false));
      WritingLeaves(s, u, e);
    } else {
      DeliverLeaves(s, u, op, e);
    }
  }

  lemma WritingLeaves(s: State, u: Tid, e: Entry)
    requires IsThread(s, u) && PcOf(s, u) == Act(Complete, e) && CtlOf(s, u) < |s.ctls| && Held(s, e.gate, u)
    ensures var c := CtlOf(s, u);
            var n := Goto(SetCtl(s, c, s.ctls[c].(writing := true)), u, WriteResponse(e));
            Calm(s, n, u) && Nearer(s, n, u, e.gate)
  {
  }

  lemma WriteLeaves(s: State, c: nat, e: Entry)
    requires c < |s.ctls| && s.ctls[c].login == WriteResponse(e)
    ensures var n := WriteStep(s, c, e, false);
            Calm(s, n, Login(c)) && e.gate !in n.held && !n.ctls[c].writing
  {
  }

  lemma AddLeaves(s: State, c: nat, prior: Entry)
    requires s.closed && c < |s.ctls| && prior.ctl < |s.ctls|
    ensures var n := AddStep(s, c, Some(prior)); Calm(s, n, Login(c)) && prior.gate !in n.held
  {
    hide MarkReplaced, Adopt;
  }

  /** A step of the holder of gate `g`, with a failing login response. */
  lemma HolderLeaves(s: State, g: nat)
    requires Inv(s) && HeldOk(s) && s.closed && g in s.held
    ensures var u := s.held[g];
            var n := Next(s, Step(u, false, 0));
            Calm(s, n, u) && Nearer(s, n, u, g)
  {
    hide Global, CloserOk, Locals, Calm, CheckStep, ActStep, AddStep, WriteStep;
    var u := s.held[g];
    assert ThreadOk(s, u);
    match PcOf(s, u)
    case Check(op, _) => CheckLeaves(s, u, op, g);
    case Act(op, e) =>
      NotWriting(s, u, op, e);
      ActLeaves(s, u, op, e);
    case AddCommit(prior) => if u.Login? { AddLeaves(s, u.ctl, prior.value); }
    case WriteResponse(e) => if u.Login? { WriteLeaves(s, u.ctl, e); }
    case _ =>
  }

  // ---------- the call goes on to its end ----------

  /** Where a `Close` call is that has taken its list. */
  predicate Closing(pc: Pc) {
    match pc
    case CloseNext(_) => true
    case CloseCtl(_) => true
    case Lookup(op) => op.Evict?
    case Lock(op, _) => op.Evict?
    case Check(op, _) => op.Evict?
    case Act(op, _) => op.Evict?
    case Returned => true
    case _ => false
  }

  /** How much call `k` has still to do. */
  function Work(pc: Pc): nat {
    match pc
    case CloseNext(todo) => 6 * |todo| + 1
    case Lookup(op) => if op.Evict? then 6 * |op.rest| + 6 else 0
    case Lock(op, _) => if op.Evict? then 6 * |op.rest| + 5 else 0
    case Check(op, _) => if op.Evict? then 6 * |op.rest| + 4 else 0
    case Act(op, _) => if op.Evict? then 6 * |op.rest| + 3 else 0
    case CloseCtl(rest) => 6 * |rest| + 2
    case _ => 0
  }

  /** Call `k` is on its way and control `c`, which it has not listed, is Running. */
  ghost predicate Escaping(s: State, k: nat, c: nat) {
    Inv(s) && HeldOk(s) && Missed(s, k, c)
  }

  predicate Missed(s: State, k: nat, c: nat) {
    && s.closed && k < |s.extras| && c < |s.ctls| && s.ctls[c].life == Running
    && Closing(s.extras[k].pc) && c !in Todo(s.extras[k])
  }

  lemma StepEscaping(s: State, a: Action, k: nat, c: nat)
    requires Escaping(s, k, c) && Missed(Next(s, a), k, c)
    ensures Escaping(Next(s, a), k, c)
  {
    hide Inv, HeldOk, Missed, Next;
    NextInv(s, a);
    NextHeld(s, a);
  }

  lemma CalmMissed(s: State, n: State, u: Tid, k: nat, c: nat)
    requires Missed(s, k, c) && Calm(s, n, u) && u != Extra(k)
    ensures Missed(n, k, c) && n.extras[k] == s.extras[k]
  {
    hide Todo, Closing;
  }

  lemma RunOne(s: State, a: Action, more: seq<Action>)
    ensures Run(s, [a] + more) == Run(Next(s, a), more)
  {
    RunAppend(s, [a], more);
    assert [a][..0] == [];
    assert Run(s, [a]) == Next(Run(s, []), a);
  }

  /** Whoever holds gate `g` leaves its critical section. */
  lemma {:induction false} FreeGate(s: State, k: nat, c: nat, g: nat) returns (actions: seq<Action>)
    requires Escaping(s, k, c) && (g in s.held ==> s.held[g] != Extra(k))
    ensures var n := Run(s, actions); Escaping(n, k, c) && n.extras[k] == s.extras[k] && g !in n.held
    decreases if g in s.held && IsThread(s, s.held[g]) then Left(PcOf(s, s.held[g])) else 0
  {
    if g !in s.held {
      actions := [];
    } else {
      var u := s.held[g];
      var a := Step(u, false, 0);
      HolderLeaves(s, g);
      hide Inv, HeldOk, Next, Run, Left, PcOf;
      CalmMissed(s, Next(s, a), u, k, c);
      StepEscaping(s, a, k, c);
      var more := FreeGate(Next(s, a), k, c, g);
      actions := [a] + more;
      RunOne(s, a, more);
    }
  }

  /** A control whose login response is being written gets it refused. */
  lemma StopWriting(s: State, k: nat, c: nat, p: nat) returns (actions: seq<Action>)
    requires Escaping(s, k, c) && p < |s.ctls|
    ensures var n := Run(s, actions);
            Escaping(n, k, c) && n.extras[k] == s.extras[k] && p < |n.ctls| && !n.ctls[p].writing
  {
    if !s.ctls[p].writing {
      actions := [];
    } else {
      var a := Step(Login(p), false, 0);
      assert LocalOk(s.ctls[p]);
      hide Inv, HeldOk, Missed, WriteStep;
      WriteLeaves(s, p, s.ctls[p].login.entry);
      var n := Next(s, a);
      CalmMissed(s, n, Login(p), k, c);
      StepEscaping(s, a, k, c);
      actions := [a] + [];
      RunOne(s, a, []);
    }
  }

  /** What a step of call `k` itself must achieve. */
  predicate Goes(s: State, n: State, k: nat, c: nat)
    requires k < |s.extras|
  {
    Missed(n, k, c) && Work(n.extras[k].pc) < Work(s.extras[k].pc)
  }

  /** The controls call `k` deals with exist. */
  predicate InRange(s: State, k: nat)
    requires k < |s.extras|
  {
    var pc := s.extras[k].pc;
    && (pc.Lookup? || pc.Lock? || pc.Check? || pc.Act? || pc.CloseCtl? ==> s.extras[k].ctl < |s.ctls|)
    && (pc.CloseNext? ==> forall p :: p in pc.todo ==> p < |s.ctls|)
  }

  lemma KnownRange(s: State, k: nat)
    requires Inv(s) && k < |s.extras|
    ensures InRange(s, k)
  {
    hide Global, CloserOk, LocalOk, GateKnown, Get;
    assert ThreadOk(s, Extra(k));
  }

  /** Only call `k` moves, to `x`. */
  lemma MoveGoes(s: State, n: State, k: nat, c: nat, x: Thread)
    requires Missed(s, k, c) && n.closed && |n.ctls| == |s.ctls| && n.ctls[c].life == Running
    requires n.extras == s.extras[k := x]
    requires Closing(x.pc) && c !in Todo(x) && Work(x.pc) < Work(s.extras[k].pc)
    ensures Goes(s, n, k, c)
  {
    hide Todo, Work, Closing;
  }

  lemma PickGoes(s: State, k: nat, c: nat, todo: set<nat>) returns (a: Action)
    requires Missed(s, k, c) && InRange(s, k) && s.extras[k].pc == CloseNext(todo)
    ensures Goes(s, Next(s, a), k, c)
  {
    hide Goes;
    if todo == {} {
      a := Step(Extra(k), false, 0);
      MoveGoes(s, Next(s, a), k, c, s.extras[k].(pc := Returned));
    } else {
      var p :| p in todo;
      a := Step(Extra(k), false, p);
      assert |todo - {p}| == |todo| - 1;
      MoveGoes(s, Next(s, a), k, c, Thread(p, Lookup(Evict(todo - {p}))));
    }
  }

  lemma LookupGoes(s: State, k: nat, c: nat, op: Op)
    requires Missed(s, k, c) && InRange(s, k) && s.extras[k].pc == Lookup(op)
    ensures Goes(s, Next(s, Step(Extra(k), false, 0)), k, c)
  {
    hide Goes, Seen;
    var e := Seen(s, s.ctls[s.extras[k].ctl].run, op);
    MoveGoes(s, Next(s, Step(Extra(k), false, 0)), k, c,
             s.extras[k].(pc := if e.None? then After(op, false) else Lock(op, e.value.gate)));
  }

  lemma LockGoes(s: State, k: nat, c: nat, op: Op, gate: nat)
    requires Missed(s, k, c) && InRange(s, k) && s.extras[k].pc == Lock(op, gate) && gate !in s.held
    ensures Goes(s, Next(s, Step(Extra(k), false, 0)), k, c)
  {
    hide Goes;
    MoveGoes(s, Next(s, Step(Extra(k), false, 0)), k, c, s.extras[k].(pc := Check(op, gate)));
  }

  lemma CheckGoes(s: State, k: nat, c: nat, op: Op, gate: nat)
    requires Missed(s, k, c) && InRange(s, k) && s.extras[k].pc == Check(op, gate)
    ensures Goes(s, Next(s, Step(Extra(k), false, 0)), k, c)
  {
    hide Goes, Seen;
    var e := Seen(s, s.ctls[s.extras[k].ctl].run, op);
    MoveGoes(s, Next(s, Step(Extra(k), false, 0)), k, c,
             s.extras[k].(pc := if e.None? || e.value.gate != gate then After(op, false) else Act(op, e.value)));
  }

  lemma ActGoes(s: State, k: nat, c: nat, op: Op, e: Entry)
    requires Missed(s, k, c) && InRange(s, k) && s.extras[k].pc == Act(op, e)
    ensures Goes(s, Next(s, Step(Extra(k), false, 0)), k, c)
  {
    hide Goes, Get;
    MoveGoes(s, Next(s, Step(Extra(k), false, 0)), k, c, s.extras[k].(pc := CloseCtl(op.rest)));
  }

  lemma CloseGoes(s: State, k: nat, c: nat, rest: set<nat>)
    requires Missed(s, k, c) && InRange(s, k) && s.extras[k].pc == CloseCtl(rest) && !s.ctls[s.extras[k].ctl].writing
    ensures Goes(s, Next(s, Step(Extra(k), false, 0)), k, c)
  {
    hide Goes, CloseCall;
    MoveGoes(s, Next(s, Step(Extra(k), false, 0)), k, c, s.extras[k].(pc := CloseNext(rest)));
  }

  /** A step that call `k` can take at once. */
  lemma Goable(s: State, k: nat, c: nat) returns (a: Action)
    requires Missed(s, k, c) && InRange(s, k) && s.extras[k].pc != Returned
    requires s.extras[k].pc.Lock? ==> s.extras[k].pc.gate !in s.held
    requires s.extras[k].pc.CloseCtl? ==> !s.ctls[s.extras[k].ctl].writing
    ensures Goes(s, Next(s, a), k, c)
  {
    hide Next, Goes, Todo, Work;
    a := Step(Extra(k), false, 0);
    match s.extras[k].pc
    case CloseNext(todo) => a := PickGoes(s, k, c, todo);
    case Lookup(op) => LookupGoes(s, k, c, op);
    case Lock(op, gate) => LockGoes(s, k, c, op, gate);
    case Check(op, gate) => CheckGoes(s, k, c, op, gate);
    case Act(op, e) => ActGoes(s, k, c, op, e);
    case CloseCtl(rest) => CloseGoes(s, k, c, rest);
  }

  /** The others get out of the way of call `k`. */
  lemma MakeWay(s: State, k: nat, c: nat) returns (actions: seq<Action>)
    requires Escaping(s, k, c) && InRange(s, k)
    ensures var n := Run(s, actions);
            && Escaping(n, k, c) && n.extras[k] == s.extras[k]
            && (n.extras[k].pc.Lock? ==> n.extras[k].pc.gate !in n.held)
            && (n.extras[k].pc.CloseCtl? ==> n.extras[k].ctl < |n.ctls| && !n.ctls[n.extras[k].ctl].writing)
  {
    var pc := s.extras[k].pc;
    assert pc.Lock? && pc.gate in s.held ==> s.held[pc.gate] != Extra(k);
    hide Inv, HeldOk, Next, Run, Missed;
    if pc.Lock? {
      actions := FreeGate(s, k, c, pc.gate);
    } else if pc.CloseCtl? {
      actions := StopWriting(s, k, c, s.extras[k].ctl);
    } else {
      actions := [];
      RunNothing(s);
    }
  }

  /** Call `k` comes closer to its end. */
  lemma OneMore(s: State, k: nat, c: nat) returns (actions: seq<Action>)
    requires Escaping(s, k, c) && s.extras[k].pc != Returned
    ensures var n := Run(s, actions); Escaping(n, k, c) && Goes(s, n, k, c)
  {
    hide Inv, HeldOk, Next, Run, Todo, InRange;
    KnownRange(s, k);
    var way := MakeWay(s, k, c);
    var m := Run(s, way);
    KnownRange(m, k);
    var a := Goable(m, k, c);
    StepEscaping(m, a, k, c);
    actions := way + [a];
    RunMore(s, way, a);
  }

  lemma RunNothing(s: State)
    ensures Run(s, []) == s
  {
  }

  lemma RunMore(s: State, actions: seq<Action>, a: Action)
    ensures Run(s, actions + [a]) == Next(Run(s, actions), a)
  {
    assert (actions + [a])[..|actions|] == actions;
  }

  /** Call `k` returns, and the control it did not list is still Running. */
  lemma {:induction false} Escapes(s: State, k: nat, c: nat) returns (actions: seq<Action>)
    requires Escaping(s, k, c)
    ensures var n := Run(s, actions); Escaping(n, k, c) && n.extras[k].pc == Returned
    decreases Work(s.extras[k].pc)
  {
    hide Inv, HeldOk, Next, Todo, Closing;
    RunNothing(s);
    hide Run;
    if s.extras[k].pc == Returned {
      actions := [];
    } else {
      var first := OneMore(s, k, c);
      var rest := Escapes(Run(s, first), k, c);
      actions := first + rest;
      RunAppend(s, first, rest);
    }
  }
}
