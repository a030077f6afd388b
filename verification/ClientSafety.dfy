/** Starting and stopping the client: what every interleaving of callers and worker keeps. */
module ClientSafety {
  import opened Efrp
  import opened ClientModel

  /** No attempt and nothing to free. */
  predicate AtRest(w: Worker) {
    w.phase == Stopped && !w.running && w.handles == {}
  }

  predicate Looping(w: Worker) {
    w.turn == Receiving || w.turn == Stepping
  }

  /** A start was taken: the worker runs, or has failed for good. */
  predicate Serving(w: Worker) {
    Looping(w) && (w.running || w.phase == Failed)
  }

  predicate WorkerOk(w: Worker) {
    && (w.phase == Stopped || w.phase == Failed || w.phase == Backoff ==> w.handles == {})
    && (w.running ==> w.phase != Stopped && w.phase != Failed)
    && (!w.running ==> w.phase == Stopped || w.phase == Failed || w.phase == Draining)
    && (w.turn == Completing || w.turn == Exited ==> AtRest(w))
  }

  function Sum(counts: seq<nat>): nat {
    if counts == [] then 0 else Sum(counts[..|counts| - 1]) + counts[|counts| - 1]
  }

  /** An attempt is under way. */
  predicate Attempting(p: Phase) {
    p == Connecting || p == Handshaking || p == Authenticating || p == Registering || p == Ready
  }

  /** The books: while an attempt is under way its count is live, otherwise everything is in the total. */
  predicate Books(total: nat, live: nat, shown: nat, counts: seq<nat>, attempting: bool) {
    && shown == total + live
    && if attempting then counts != [] && live == counts[|counts| - 1] && total == Sum(counts[..|counts| - 1])
       else live == 0 && total == Sum(counts)
  }

  predicate BooksOk(c: Client, attempting: bool) {
    Books(c.worker.total, c.worker.live, c.worker.shown, c.counts, attempting)
  }

  /** Neither started nor stopping. */
  predicate Unused(c: Client) {
    && AtRest(c.worker)
    && (if c.api == Gone then (c.queue == [Exit] && Looping(c.worker)) || (c.queue == [] && c.worker.turn == Exited)
        else c.queue == [] && Looping(c.worker))
  }

  /** Started: the command is on its way, or was taken. */
  predicate Started(c: Client) {
    (c.queue == [Start] && AtRest(c.worker) && Looping(c.worker)) || (c.queue == [] && Serving(c.worker))
  }

  /** Stopping with ticket `t`: on its way, taken, or done. */
  predicate StopPending(c: Client, t: nat) {
    || (c.queue == [Start, Stop(t)] && AtRest(c.worker) && Looping(c.worker) && c.completed < t && c.worker.ticket < t)
    || (c.queue == [Stop(t)] && Serving(c.worker) && c.completed < t && c.worker.ticket < t)
    || (c.queue == [] && !c.worker.running && c.worker.ticket == t && c.completed < t &&
        (c.worker.turn == Completing || (c.worker.phase == Draining && Looping(c.worker))))
    || (c.queue == [] && AtRest(c.worker) && Looping(c.worker) && c.completed == t)
  }

  predicate Protocol(c: Client) {
    && c.completed <= c.nextTicket && c.worker.ticket <= c.nextTicket && c.nextTicket <= U64_MAX
    && (if c.requested then c.stopTicket == 0 && Started(c)
        else if c.stopTicket == 0 then Unused(c)
        else c.stopTicket == c.nextTicket && StopPending(c, c.stopTicket))
    && (c.api.Waiting? ==> c.stopTicket != 0)
    && (c.api == Gone ==> !c.requested && c.stopTicket == 0)
  }

  /** A stop has succeeded and no start was taken since. */
  predicate Hushed(events: seq<Event>) {
    if events == [] then false
    else
      var e := events[|events| - 1];
      if e.StopOk? then true else if e.StartTaken? then false else Hushed(events[..|events| - 1])
  }

  /** No callback while hushed, and no send was ever refused. */
  predicate Orderly(events: seq<Event>) {
    && (forall i :: 0 <= i < |events| && events[i].Callback? ==> !Hushed(events[..i]))
    && (forall i :: 0 <= i < |events| ==> !events[i].SendFailed?)
  }

  /** While hushed the worker can do nothing but take a start. */
  predicate HushOk(c: Client) {
    Hushed(c.events) ==> AtRest(c.worker) && c.worker.turn != Completing && (c.queue != [] ==> !c.queue[0].Stop?)
  }

  predicate Inv(c: Client) {
    WorkerOk(c.worker) && Protocol(c) && Orderly(c.events) && HushOk(c) && BooksOk(c, Attempting(c.worker.phase)) &&
    |c.counts| == c.worker.attempts
  }

  lemma OrderlySnoc(events: seq<Event>, e: Event)
    requires Orderly(events) && !e.SendFailed? && (e.Callback? ==> !Hushed(events))
    ensures Orderly(events + [e])
    ensures Hushed(events + [e]) == if e.StopOk? then true else if e.StartTaken? then false else Hushed(events)
  {
    var l := events + [e];
    assert l[..|events|] == events;
    forall i | 0 <= i < |l| && l[i].Callback?
      ensures !Hushed(l[..i])
    {
      if i < |events| {
        assert l[..i] == events[..i];
      }
    }
  }

  /** The sum over all attempts is what the status shows. */
  lemma BooksSum(total: nat, live: nat, shown: nat, counts: seq<nat>, attempting: bool)
    requires Books(total, live, shown, counts, attempting)
    ensures shown == Sum(counts) && Books(shown, 0, shown, counts, false)
  {
  }

  lemma NothingLive(total: nat, live: nat, shown: nat, counts: seq<nat>)
    requires Books(total, live, shown, counts, false)
    ensures live == 0 && total == shown
  {
  }

  // ---------- callers ----------

  lemma StartInv(c: Client)
    requires Inv(c)
    ensures Inv(StartCall(c).0) && StartCall(c).1 != CapacityExceeded
  {
    hide Orderly, Hushed, Sum;
  }

  lemma StopDoneInv(c: Client, destroy: bool)
    requires Inv(c) && c.api != Gone && !c.requested && (c.stopTicket == 0 || c.completed == c.stopTicket)
    ensures Inv(StopDone(c, destroy).0) && StopDone(c, destroy).1 == Ok
  {
    OrderlySnoc(c.events, StopOk(c.stopTicket));
    hide Orderly, Hushed, Sum;
  }

  lemma StopInv(c: Client, destroy: bool)
    requires Inv(c)
    ensures Inv(StopCall(c, destroy).0) && StopCall(c, destroy).1 != CapacityExceeded
  {
    if c.api == Free && !c.requested && c.stopTicket == 0 {
      StopDoneInv(c, destroy);
    } else {
      hide Orderly, Hushed, Sum, StopDone;
    }
  }

  lemma PollInv(c: Client, expired: bool)
    requires Inv(c)
    ensures Inv(PollCall(c, expired).0) && PollCall(c, expired).1 != CapacityExceeded
  {
    if c.api.Waiting? && c.completed == c.stopTicket {
      StopDoneInv(c, c.api.destroy);
    } else {
      hide Orderly, Hushed, Sum, StopDone;
    }
  }

  // ---------- the worker ----------

  /** The books are in order and callbacks are allowed. */
  predicate Open(c: Client, attempting: bool) {
    Orderly(c.events) && !Hushed(c.events) && BooksOk(c, attempting)
  }

  /** Two states that differ only in phase, handles, retry decision, counters and events. */
  predicate SameCommands(c: Client, n: Client) {
    n == c.(worker := n.worker, events := n.events, counts := n.counts) &&
    n.worker == c.worker.(phase := n.worker.phase, handles := n.worker.handles, retryable := n.worker.retryable,
                          total := n.worker.total, live := n.worker.live, shown := n.worker.shown,
                          attempts := n.worker.attempts) &&
    |n.counts| - |c.counts| == n.worker.attempts - c.worker.attempts
  }

  lemma EnterOpen(c: Client, p: Phase, attempting: bool)
    requires Open(c, attempting)
    ensures Open(Enter(c, p), attempting) && SameCommands(c, Enter(c, p)) && Enter(c, p).counts == c.counts
    ensures Enter(c, p).worker == c.worker.(phase := p)
  {
    OrderlySnoc(c.events, Callback(p));
    hide Orderly, Hushed, Books;
  }

  /** A report of the session replaces the last entry and shows in the status. */
  lemma ObserveOpen(c: Client, count: Option<nat>, attempting: bool)
    requires Open(c, attempting) && (Session in c.worker.handles ==> attempting)
    ensures Open(Observe(c, count), attempting) && SameCommands(c, Observe(c, count))
    ensures Observe(c, count).worker.handles == c.worker.handles && Observe(c, count).worker.phase == c.worker.phase
    ensures |Observe(c, count).counts| == |c.counts|
  {
    hide Orderly, Hushed;
    var n := Observe(c, count);
    if attempting {
      assert n.counts[..|n.counts| - 1] == c.counts[..|c.counts| - 1];
    }
  }

  /** The first drain of an attempt moves its count into the total: nothing is live, and nothing shown changes. */
  lemma DrainOpen(c: Client, error: Result, w: World, attempting: bool)
    requires Open(c, attempting)
    requires if c.worker.phase == Draining then !attempting else Session in c.worker.handles ==> attempting
    ensures var n := Drain(c, error, w);
            && Open(n, false) && SameCommands(c, n)
            && n.worker.phase == Draining && n.worker.handles == c.worker.handles
            && n.worker.live == 0 && n.worker.total == n.worker.shown == Sum(n.counts) && |n.counts| == |c.counts|
            && (c.worker.phase != Draining ==> n.counts == Observe(c, w.count).counts)
  {
    hide Orderly, Hushed, Sum, Observe, Enter, Books, RetryableError;
    BooksSum(c.worker.total, c.worker.live, c.worker.shown, c.counts, attempting);
    if c.worker.phase == Draining {
      NothingLive(c.worker.total, c.worker.live, c.worker.shown, c.counts);
    } else {
      ObserveOpen(c, w.count, attempting);
      var n := Observe(c, w.count);
      var retry := RetryableError(error, Tls in c.worker.handles && w.truncatedTls);
      BooksSum(n.worker.total, n.worker.live, n.worker.shown, n.counts, attempting);
      EnterOpen(n.(worker := n.worker.(total := n.worker.shown, live := 0, retryable := retry)), Draining, false);
    }
  }

  /** A new attempt opens one new entry. */
  lemma BeginOpen(c: Client, w: World)
    requires Open(c, false) && c.worker.handles == {} && c.worker.phase != Draining
    ensures var n := Begin(c, w);
            && SameCommands(c, n) && Open(n, n.worker.phase == Connecting) && |n.counts| == |c.counts| + 1
            && (n.worker.phase == Connecting || n.worker.phase == Draining)
  {
    hide Orderly, Hushed, Sum, Drain;
    var b := c.(counts := c.counts + [0], worker := c.worker.(attempts := c.worker.attempts + 1));
    assert b.counts[..|b.counts| - 1] == c.counts;
    EnterOpen(b, Connecting, true);
    DrainOpen(Enter(b, Connecting), TimeUntrusted, w, true);
    DrainOpen(Enter(b, Connecting), w.error, w, true);
  }

  lemma AuthenticateOpen(c: Client, w: World)
    requires Open(c, true) && c.worker.phase != Draining
    ensures var n := Authenticate(c, w);
            && SameCommands(c, n) && Open(n, Attempting(n.worker.phase)) && |n.counts| == |c.counts|
            && (n.worker.phase == Authenticating || n.worker.phase == Draining)
  {
    hide Orderly, Hushed, Sum, Drain, Enter, Books;
    DrainOpen(c, w.error, w, true);
    EnterOpen(Holding(c, Session), Authenticating, true);
  }

  /** A turn of a live attempt keeps the books, the order of events and the number of attempts. */
  lemma ActiveOpen(c: Client, w: World)
    requires Open(c, true) && Attempting(c.worker.phase)
    ensures var n := ActiveTurn(c, w);
            && SameCommands(c, n) && Open(n, Attempting(n.worker.phase)) && |n.counts| == |c.counts|
            && (Attempting(n.worker.phase) || n.worker.phase == Draining)
  {
    hide Orderly, Hushed, Sum, Drain, Enter, Authenticate, Books, Observe;
    DrainOpen(c, TimeUntrusted, w, true);
    DrainOpen(c, w.error, w, true);
    if w.trusted && !w.fails {
      ObserveOpen(c, w.count, true);
      var n := Observe(c, w.count);
      EnterOpen(n, Ready, true);
      EnterOpen(n, Registering, true);
      EnterOpen(c, Handshaking, true);
      EnterOpen(Holding(c, Tls), Handshaking, true);
      AuthenticateOpen(c, w);
      AuthenticateOpen(Holding(c, Transport), w);
    }
  }

  function Taking(c: Client): Client
    requires c.queue != []
  {
    c.(queue := c.queue[1..], worker := c.worker.(turn := Stepping))
  }

  lemma TakeStartInv(c: Client, w: World)
    requires Inv(c) && c.worker.turn == Receiving && c.queue != [] && c.queue[0] == Start
    ensures Inv(Receive(c, w))
  {
    hide Orderly, Hushed, Sum, Begin;
    var n := Taking(c);
    OrderlySnoc(n.events, StartTaken);
    BeginOpen(n.(worker := n.worker.(running := true), events := n.events + [StartTaken]), w);
  }

  lemma TakeStopInv(c: Client, w: World)
    requires Inv(c) && c.worker.turn == Receiving && c.queue != [] && c.queue[0].Stop?
    ensures Inv(Receive(c, w))
  {
    hide Orderly, Hushed, Sum, Drain;
    var n := Taking(c);
    DrainOpen(n.(worker := n.worker.(running := false, ticket := c.queue[0].ticket)), Cancelled, w,
              Attempting(n.worker.phase));
  }

  lemma ReceiveInv(c: Client, w: World)
    requires Inv(c) && c.worker.turn == Receiving
    ensures Inv(Receive(c, w))
  {
    hide Orderly, Hushed, Sum, Begin, Drain;
    if c.queue != [] && c.queue[0] == Start {
      TakeStartInv(c, w);
    } else if c.queue != [] && c.queue[0].Stop? {
      TakeStopInv(c, w);
    }
  }

  lemma DrainTurnInv(c: Client, w: World)
    requires Inv(c) && c.worker.turn == Stepping && c.worker.phase == Draining
    ensures Inv(DrainTurn(c.(worker := c.worker.(turn := Receiving)), w))
  {
    hide Orderly, Hushed, Enter, Books;
    var n := Cleanup(c.(worker := c.worker.(turn := Receiving)), w.freed).0;
    EnterOpen(n.(worker := n.worker.(turn := Completing)), Stopped, false);
    EnterOpen(n, Backoff, false);
    EnterOpen(n.(worker := n.worker.(running := false)), Failed, false);
  }

  lemma StepInv(c: Client, w: World)
    requires Inv(c) && c.worker.turn == Stepping
    ensures Inv(Step(c, w))
  {
    hide Orderly, Hushed, Sum, DrainTurn, ActiveTurn, Begin;
    var n := c.(worker := c.worker.(turn := Receiving));
    if c.worker.phase == Draining {
      DrainTurnInv(c, w);
    } else if c.worker.running {
      if c.worker.phase == Backoff {
        BeginOpen(n, w);
      } else {
        ActiveOpen(n, w);
      }
    }
  }

  lemma CompleteInv(c: Client)
    requires Inv(c) && c.worker.turn == Completing
    ensures Inv(Complete(c))
  {
    hide Orderly, Hushed, Sum;
  }

  lemma NextInv(c: Client, a: Action)
    requires Inv(c)
    ensures Inv(Next(c, a))
  {
    hide Inv, StartCall, StopCall, PollCall, Receive, Step, Complete;
    match a
    case CallStart => StartInv(c);
    case CallStop(destroy) => StopInv(c, destroy);
    case Poll(expired) => PollInv(c, expired);
    case Work(w) =>
      match c.worker.turn
      case Receiving => ReceiveInv(c, w);
      case Stepping => StepInv(c, w);
      case Completing => CompleteInv(c);
      case Exited =>
  }

  lemma {:induction false} RunInv(actions: seq<Action>)
    ensures Inv(Run(actions))
  {
    CreatedInv(Created());
    hide Inv, Next;
    if actions != [] {
      RunInv(actions[..|actions| - 1]);
      NextInv(Run(actions[..|actions| - 1]), actions[|actions| - 1]);
    }
  }

  lemma NothingYet(events: seq<Event>, counts: seq<nat>)
    requires events == [] && counts == []
    ensures Orderly(events) && !Hushed(events) && Sum(counts) == 0
  {
  }

  lemma CreatedInv(c: Client)
    requires c == Created()
    ensures Inv(c)
  {
    hide Orderly, Hushed, Sum;
    NothingYet(c.events, c.counts);
  }

  lemma ReachableInv(c: Client)
    requires Reachable(c)
    ensures Inv(c)
  {
    hide Inv, Run;
    var actions :| c == Run(actions);
    RunInv(actions);
  }

  // ---------- main results ----------

  /** At most two commands are ever queued, so no command is ever refused. */
  lemma CommandsFit(c: Client)
    requires Reachable(c)
    ensures |c.queue| <= 2
    ensures forall i :: 0 <= i < |c.events| ==> !c.events[i].SendFailed?
  {
    ReachableInv(c);
    hide Run, Sum, Hushed;
  }

  /** The worker takes a start only when it is stopped and nothing is left to free. */
  lemma StartTakenAtRest(c: Client)
    requires Reachable(c) && c.queue != [] && c.queue[0] == Start
    ensures AtRest(c.worker)
  {
    ReachableInv(c);
    hide Run, Sum, Hushed, Orderly;
  }

  /**
   A stop returns OK only when the worker has freed every handle and made its last callback;
   if the stop had a ticket, that ticket has been completed.
   */
  lemma StopMeansStopped(c: Client, expired: bool, destroy: bool)
    requires Reachable(c)
    ensures PollCall(c, expired).1 == Ok ==>
              AtRest(c.worker) && Looping(c.worker) && c.queue == [] && c.completed == c.stopTicket == c.nextTicket
    ensures StopCall(c, destroy).1 == Ok ==> AtRest(c.worker) && Looping(c.worker) && c.queue == []
  {
    ReachableInv(c);
    hide Run, Sum, Hushed, Orderly, Reachable;
  }

  lemma {:induction false} StillHushed(events: seq<Event>, i: nat, j: nat)
    requires i < j <= |events| && events[i].StopOk?
    requires forall k :: i < k < j ==> !events[k].StartTaken?
    ensures Hushed(events[..j])
    decreases j
  {
    if i + 1 < j {
      StillHushed(events, i, j - 1);
      assert events[..j][..j - 1] == events[..j - 1];
    }
  }

  /** After a stop has returned OK there is no callback until another start is taken. */
  lemma NoCallbackAfterStop(c: Client, i: nat, j: nat)
    requires Reachable(c) && i < j < |c.events| && c.events[i].StopOk? && c.events[j].Callback?
    ensures exists k :: i < k < j && c.events[k].StartTaken?
  {
    ReachableInv(c);
    hide Run, Sum, Protocol, HushOk, WorkerOk, Reachable;
    assert !Hushed(c.events[..j]);
    if forall k :: i < k < j ==> !c.events[k].StartTaken? {
      StillHushed(c.events, i, j);
      assert false;
    }
  }

  /** The published counter is the sum, over the attempts made, of what the session of each last reported. */
  lemma CountersAddUp(c: Client)
    requires Reachable(c)
    ensures c.worker.shown == Sum(c.counts) && |c.counts| == c.worker.attempts
  {
    ReachableInv(c);
    hide Run, Hushed, Orderly, Protocol, Reachable;
    BooksSum(c.worker.total, c.worker.live, c.worker.shown, c.counts, Attempting(c.worker.phase));
  }

  /** The session of the current attempt reports no less than before. */
  predicate Grown(c: Client, count: Option<nat>) {
    Session in c.worker.handles && count.Some? ==> count.value >= c.worker.live
  }

  lemma DrainGrows(c: Client, error: Result, w: World)
    requires c.worker.shown == c.worker.total + c.worker.live && Grown(c, w.count)
    ensures Drain(c, error, w).worker.shown >= c.worker.shown
  {
    hide RetryableError;
  }

  lemma ActiveGrows(c: Client, w: World)
    requires c.worker.shown == c.worker.total + c.worker.live && Grown(c, w.count)
    ensures ActiveTurn(c, w).worker.shown >= c.worker.shown
  {
    hide Drain;
    DrainGrows(c, TimeUntrusted, w);
    DrainGrows(c, w.error, w);
    if Session !in c.worker.handles {
      DrainGrows(Holding(c, Transport), w.error, w);
    } else {
      assert Holding(c, Transport).worker.live == c.worker.live;
      DrainGrows(Holding(c, Transport), w.error, w);
    }
  }

  lemma BeginGrows(c: Client, w: World)
    requires c.worker.shown == c.worker.total + c.worker.live && c.worker.handles == {}
    ensures Begin(c, w).worker.shown >= c.worker.shown
  {
    hide Drain;
    var b := Enter(c.(counts := c.counts + [0], worker := c.worker.(attempts := c.worker.attempts + 1)), Connecting);
    DrainGrows(b, TimeUntrusted, w);
    DrainGrows(b, w.error, w);
  }

  /** While the reports of each session do not go back, neither does the published counter. */
  lemma ShownGrows(c: Client, a: Action)
    requires Reachable(c) && (a.Work? ==> Grown(c, a.w.count))
    ensures Next(c, a).worker.shown >= c.worker.shown
  {
    ReachableInv(c);
    hide Run, Hushed, Orderly, Reachable, Sum, Drain, Begin, ActiveTurn;
    if a.Work? && c.worker.turn == Receiving && c.queue != [] {
      var n := Taking(c);
      if c.queue[0] == Start {
        BeginGrows(n.(worker := n.worker.(running := true), events := n.events + [StartTaken]), a.w);
      } else if c.queue[0].Stop? {
        DrainGrows(n.(worker := n.worker.(running := false, ticket := c.queue[0].ticket)), Cancelled, a.w);
      }
    } else if a.Work? && c.worker.turn == Stepping && c.worker.running {
      var n := c.(worker := c.worker.(turn := Receiving));
      ActiveGrows(n, a.w);
      if c.worker.phase == Backoff {
        BeginGrows(n, a.w);
      }
    }
  }
}
