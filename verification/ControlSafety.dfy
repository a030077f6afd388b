/** The promises of the control protocol, for every interleaving. */
module ControlSafety {
  import opened Efrp
  import opened ControlModel
  import opened ControlInvariant
  import opened ControlRuns

  /** The worker of a control never came up, or has closed its work channel and its proxies. */
  predicate Quiet(x: Ctl) {
    !x.started || (x.channelClosed == 1 && x.pool.channel == [] && x.proxiesClosed)
  }

  /**
   At most one control of a run is Running, and while it is, the workers of all its
   other generations have closed their work channels and proxies, or never came up.
   */
  lemma RunningAlone(s: State, c: nat, p: nat)
    requires Reachable(s) && c < |s.ctls| && p < |s.ctls| && p != c
    requires s.ctls[p].run == s.ctls[c].run && s.ctls[c].life == Running
    ensures s.ctls[p].life != Running && Quiet(s.ctls[p])
  {
    ReachableInv(s);
    assert LocalOk(s.ctls[c]) && LocalOk(s.ctls[p]);
    assert Unquiet(s.ctls[c]);
    assert !Unquiet(s.ctls[p]);
  }

  /** Even two sessions that are being closed never overlap. */
  lemma SessionsNeverOverlap(s: State, p: nat, q: nat)
    requires Reachable(s) && p < q < |s.ctls| && s.ctls[p].run == s.ctls[q].run
    ensures Quiet(s.ctls[p]) || Quiet(s.ctls[q])
  {
    ReachableInv(s);
    assert LocalOk(s.ctls[p]) && LocalOk(s.ctls[q]);
  }

  /** While the manager is open, a Running control is the one its run ID is routed to. */
  lemma RunningIsCurrent(s: State, c: nat)
    requires Reachable(s) && c < |s.ctls| && s.ctls[c].life == Running && !s.closed
    ensures Current(s, c) && s.ctls[c].waited && s.ctls[c].activated
  {
    ReachableInv(s);
    assert LocalOk(s.ctls[c]);
  }

  /**
   Work channel and `doneCh`: no send on a closed channel, none to a control that is
   not current, no channel closed twice, and every registered connection is in the
   channel or left it exactly once, in order.
   */
  lemma ChannelSafety(s: State, c: nat)
    requires Reachable(s) && c < |s.ctls|
    ensures var x := s.ctls[c];
            && !x.pool.badSend && !x.pool.staleSend && x.done <= 1 && x.channelClosed <= 1
            && Conns(x.pool.taken) + x.pool.channel == x.pool.registered
            && |x.pool.channel| <= x.pool.capacity
            && (x.started && x.done == 1 ==> Quiet(x) && Conns(x.pool.taken) == x.pool.registered)
  {
    ReachableInv(s);
    assert LocalOk(s.ctls[c]);
  }

  // ---------- Close ----------

  /** The `Close` call that closed the manager has returned. */
  predicate ShutDown(s: State) {
    s.closed && s.closer.Some? && s.closer.value < |s.extras| && s.extras[s.closer.value].pc == Returned
  }

  /** A thread that has returned, and the identity of the closing call, never change. */
  predicate Settled(s: State, n: State) {
    ShutDown(s) ==> n.closed && n.closer == s.closer && |n.extras| >= |s.extras| &&
                    n.extras[s.closer.value] == s.extras[s.closer.value]
  }

  lemma ActSettled(s: State, t: Tid, op: Op, e: Entry, ok: bool)
    requires IsThread(s, t) && CtlOf(s, t) < |s.ctls| && PcOf(s, t) == Act(op, e)
    ensures Settled(s, ActStep(s, t, op, e, ok))
  {
  }

  lemma LoginSettled(s: State, c: nat, ok: bool)
    requires c < |s.ctls|
    ensures Settled(s, LoginStep(s, c, ok))
  {
    hide MarkReplaced, CloseCall, StartLocked;
  }

  lemma ThreadSettled(s: State, t: Tid, ok: bool, pick: nat)
    requires IsThread(s, t)
    ensures Settled(s, ThreadStep(s, t, ok, pick))
  {
    hide ActStep, LoginStep, CloseCall;
    match PcOf(s, t)
    case Act(op, e) => if CtlOf(s, t) < |s.ctls| { ActSettled(s, t, op, e, ok); }
    case _ =>
      if t.Login? {
        LoginSettled(s, t.ctl, ok);
      }
  }

  lemma NextSettled(s: State, a: Action)
    ensures Settled(s, Next(s, a))
  {
    hide ThreadStep, CloseCall;
    if a.Step? && IsThread(s, a.t) {
      ThreadSettled(s, a.t, a.ok, a.pick);
    }
  }

  lemma {:induction false} ShutDownStays(s: State, more: seq<Action>)
    requires ShutDown(s)
    ensures ShutDown(Run(s, more))
  {
    if more != [] {
      var m := Run(s, more[..|more| - 1]);
      ShutDownStays(s, more[..|more| - 1]);
      NextSettled(m, more[|more| - 1]);
    }
  }

  lemma {:induction false} RunAppend(s: State, a: seq<Action>, b: seq<Action>)
    ensures Run(s, a + b) == Run(Run(s, a), b)
  {
    if b == [] {
      assert a + b == a;
    } else {
      RunAppend(s, a, b[..|b| - 1]);
      assert (a + b)[..|a + b| - 1] == a + b[..|b| - 1];
    }
  }

  /** Once the call that closed the manager has returned, no control is Running or ever becomes so. */
  lemma NoneRunningAfterClose(s: State, n: State, c: nat)
    requires Reachable(s) && ShutDown(s) && Follows(s, n) && c < |n.ctls|
    ensures n.ctls[c].life != Running
  {
    hide Run, Locals, Threads, Global;
    var actions :| s == Run(Empty, actions);
    var more :| n == Run(s, more);
    RunAppend(Empty, actions, more);
    ShutDownStays(s, more);
    RunInv(actions + more);
    assert Todo(n.extras[n.closer.value]) == {};
    assert !Risky(n, c);
  }

  // ---------- a second Close call ----------

  /** The one control of the run "r", with one gate, while its login handler moves on. */
  function Solo(x: Ctl, held: map<nat, Tid>): State {
    State([x], [], map["r" := Entry(0, 1, 0)], held, false, None, 1, 1)
  }

  const Session: Ctl := NewCtl("r", 1).(
    life := Running, id := 1, activated := true, login := Returned, worker := Serve, waited := true, started := true)

  /** The session is up, and two `Close` calls are at work. */
  function Closers(current: map<string, Entry>, held: map<nat, Tid>, a: Pc, b: Pc): State {
    State([Session], [Thread(0, a), Thread(0, b)], current, held, true, Some(0), 1, 1)
  }

  lemma Extend(actions: seq<Action>, s: State, a: Action, n: State) returns (longer: seq<Action>)
    requires Run(Empty, actions) == s && Next(s, a) == n
    ensures Run(Empty, longer) == n
  {
    longer := actions + [a];
    assert longer[..|longer| - 1] == actions;
  }

  lemma Admission() returns (actions: seq<Action>)
    ensures Run(Empty, actions) == Solo(NewCtl("r", 1).(life := Pending, id := 1, login := AwaitHandoff), map[])
  {
    assert Run(Empty, []) == Empty;
    hide Run;
    var x, a := NewCtl("r", 1), Step(Login(0), true, 0);
    var s := State([x], [], map[], map[], false, None, 0, 0);
    actions := Extend([], Empty, NewLogin("r", 1), s);
    var s1 := s.(ctls := [x.(login := AddLock(None))]);
    actions := Extend(actions, s, a, s1);
    var s2 := s.(ctls := [x.(login := AddCommit(None))]);
    actions := Extend(actions, s1, a, s2);
    actions := Extend(actions, s2, a, Solo(x.(life := Pending, id := 1, login := AwaitHandoff), map[]));
  }

  lemma Waiting() returns (actions: seq<Action>)
    ensures var x := NewCtl("r", 1).(life := Pending, id := 1, waited := true, login := Lock(Activate, 0));
            Run(Empty, actions) == Solo(x, map[])
  {
    hide Run;
    actions := Admission();
    var a := Step(Login(0), true, 0);
    var w := NewCtl("r", 1).(life := Pending, id := 1, login := AwaitHandoff);
    var x := w.(waited := true, login := Lookup(Activate));
    actions := Extend(actions, Solo(w, map[]), a, Solo(x, map[]));
    actions := Extend(actions, Solo(x, map[]), a, Solo(x.(login := Lock(Activate, 0)), map[]));
  }

  lemma Activation() returns (actions: seq<Action>)
    ensures var x := NewCtl("r", 1).(life := Pending, id := 1, waited := true, activated := true,
                                     login := Lookup(Complete));
            Run(Empty, actions) == Solo(x, map[])
  {
    hide Run;
    actions := Waiting();
    var a, e, held := Step(Login(0), true, 0), Entry(0, 1, 0), map[0 := Login(0)];
    var y := NewCtl("r", 1).(life := Pending, id := 1, waited := true, login := Lock(Activate, 0));
    var z := y.(login := Check(Activate, 0));
    actions := Extend(actions, Solo(y, map[]), a, Solo(z, held));
    var v := y.(login := Act(Activate, e));
    actions := Extend(actions, Solo(z, held), a, Solo(v, held));
    assert held - {0} == map[];
    actions := Extend(actions, Solo(v, held), a, Solo(y.(activated := true, login := Lookup(Complete)), map[]));
  }

  lemma Completion() returns (actions: seq<Action>)
    ensures Run(Empty, actions) == Solo(Session, map[])
  {
    hide Run;
    actions := Activation();
    var a, e, held := Step(Login(0), true, 0), Entry(0, 1, 0), map[0 := Login(0)];
    var x := NewCtl("r", 1).(life := Pending, id := 1, waited := true, activated := true, login := Lookup(Complete));
    var y := x.(login := Lock(Complete, 0));
    actions := Extend(actions, Solo(x, map[]), a, Solo(y, map[]));
    var z := x.(login := Check(Complete, 0));
    actions := Extend(actions, Solo(y, map[]), a, Solo(z, held));
    var v := x.(login := Act(Complete, e));
    actions := Extend(actions, Solo(z, held), a, Solo(v, held));
    var w := x.(writing := true, login := WriteResponse(e));
    actions := Extend(actions, Solo(v, held), a, Solo(w, held));
    assert held - {0} == map[];
    actions := Extend(actions, Solo(w, held), a, Solo(Session, map[]));
  }

  /** Two `Close` calls have begun, and the first one has copied the map. */
  lemma TwoCalls() returns (actions: seq<Action>)
    ensures Run(Empty, actions) == Closers(map["r" := Entry(0, 1, 0)], map[], CloseNext({0}), CloseStart)
  {
    hide Run;
    actions := Completion();
    var current := map["r" := Entry(0, 1, 0)];
    var s := Solo(Session, map[]);
    actions := Extend(actions, s, NewClose, s.(extras := [Thread(0, CloseStart)]));
    var t := s.(extras := [Thread(0, CloseStart), Thread(0, CloseStart)]);
    actions := Extend(actions, s.(extras := [Thread(0, CloseStart)]), NewClose, t);
    assert Snapshot(current) == {0} by {
      assert current["r"].ctl == 0;
    }
    actions := Extend(actions, t, Step(Extra(0), true, 0), Closers(current, map[], CloseNext({0}), CloseStart));
  }

  /** The first `Close` call has taken the session out of the map, but not yet closed it. */
  lemma FirstClose() returns (actions: seq<Action>)
    ensures Run(Empty, actions) == Closers(map[], map[], CloseCtl({}), CloseStart)
  {
    hide Run, Snapshot;
    actions := TwoCalls();
    var a, e, held := Step(Extra(0), true, 0), Entry(0, 1, 0), map[0 := Extra(0)];
    var current := map["r" := e];
    assert {0} - {0} == {};
    var c1 := Closers(current, map[], Lookup(Evict({})), CloseStart);
    actions := Extend(actions, Closers(current, map[], CloseNext({0}), CloseStart), a, c1);
    var c2 := Closers(current, map[], Lock(Evict({}), 0), CloseStart);
    actions := Extend(actions, c1, a, c2);
    var c3 := Closers(current, held, Check(Evict({}), 0), CloseStart);
    actions := Extend(actions, c2, a, c3);
    var c4 := Closers(current, held, Act(Evict({}), e), CloseStart);
    actions := Extend(actions, c3, a, c4);
    assert held - {0} == map[] && current - {"r"} == map[];
    actions := Extend(actions, c4, a, Closers(map[], map[], CloseCtl({}), CloseStart));
  }

  /**
   A `Close` call that finds the manager already closing can return while a control is
   still Running: the map it copies is empty, but the first call is not done.
   */
  lemma SecondCloseReturnsEarly() returns (s: State)
    ensures Reachable(s) && |s.ctls| == 1 && s.ctls[0].life == Running
    ensures |s.extras| == 2 && s.extras[1].pc == Returned && s.closer == Some(0)
  {
    hide Run;
    var actions := FirstClose();
    var a := Step(Extra(1), true, 0);
    assert Snapshot(map[]) == {};
    actions := Extend(actions, Closers(map[], map[], CloseCtl({}), CloseStart), a,
                      Closers(map[], map[], CloseCtl({}), CloseNext({})));
    s := Closers(map[], map[], CloseCtl({}), Returned);
    actions := Extend(actions, Closers(map[], map[], CloseCtl({}), CloseNext({})), a, s);
  }
}
