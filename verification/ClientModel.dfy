/**
 The client's public calls and its single worker, interleaved.  A caller's step runs under
 the API lock; a worker's step is one command taken, one turn of its state machine, or the
 publication of a finished stop.
 */
module ClientModel {
  import opened Efrp

  const COMMAND_CAPACITY: nat := 4

  datatype Phase =
    Stopped | Connecting | Handshaking | Authenticating | Registering | Ready | Draining | Backoff | Failed
  datatype Handle = Connection | Tls | Transport | Session
  datatype Command = Start | Stop(ticket: nat) | Exit

  /** Who holds the API lock: nobody, or a stop or destroy that waits for its ticket. */
  datatype Api = Free | Waiting(destroy: bool) | Gone

  datatype Turn = Receiving | Stepping | Completing | Exited

  /** Everything only the worker touches. */
  datatype Worker = Worker(
    turn: Turn, phase: Phase, running: bool, retryable: bool, ticket: nat, handles: set<Handle>,
    total: nat,       // counters of all earlier attempts
    live: nat,        // counters of this attempt, as last seen
    shown: nat,       // counters in the published status
    attempts: nat)

  /** What the outside world can tell. */
  datatype Event = Callback(phase: Phase) | StartTaken | StopOk(ticket: nat) | SendFailed

  datatype Client = Client(
    queue: seq<Command>, requested: bool, nextTicket: nat, stopTicket: nat, completed: nat, api: Api,
    worker: Worker, events: seq<Event>,
    counts: seq<nat>)  // what the session of each attempt last reported, attempt by attempt

  function Created(): Client {
    Client([], false, 0, 0, 0, Free, Worker(Receiving, Stopped, false, false, 0, {}, 0, 0, 0, 0), [], [])
  }

  // ---------- the caller ----------

  /** `efrp_port_send`. */
  function Send(c: Client, command: Command): (Client, bool) {
    if |c.queue| < COMMAND_CAPACITY then (c.(queue := c.queue + [command]), true)
    else (c.(events := c.events + [SendFailed]), false)
  }

  /** `efrp_start`. */
  function StartCall(c: Client): (Client, Result) {
    if c.api != Free then (c, WouldBlock)
    else if c.requested || c.stopTicket != 0 then (c, InvalidState)
    else
      var (n, sent) := Send(c, Start);
      if sent then (n.(requested := true), Ok) else (n, CapacityExceeded)
  }

  /** `efrp_stop` and `efrp_destroy`, up to the wait for the ticket. */
  function StopCall(c: Client, destroy: bool): (Client, Result) {
    if c.api != Free then (c, WouldBlock)
    else if !c.requested && c.stopTicket == 0 then StopDone(c, destroy)
    else if c.stopTicket != 0 then (c.(api := Waiting(destroy)), WouldBlock)
    else if c.nextTicket == U64_MAX then (c, CounterExhausted)
    else
      var t := c.nextTicket + 1;
      var (n, sent) := Send(c, Stop(t));
      if sent then (n.(stopTicket := t, nextTicket := t, requested := false, api := Waiting(destroy)), WouldBlock)
      else (n, CapacityExceeded)
  }

  /** The stop has succeeded; a destroy then sends the worker home. */
  function StopDone(c: Client, destroy: bool): (Client, Result) {
    var n := c.(stopTicket := 0, api := Free, events := c.events + [StopOk(c.stopTicket)]);
    if !destroy then (n, Ok)
    else
      var (m, sent) := Send(n, Exit);
      if sent then (m.(api := Gone), Ok) else (m, CapacityExceeded)
  }

  /** One look at the completed ticket; `expired` is whether the caller's time is up. */
  function PollCall(c: Client, expired: bool): (Client, Result) {
    if !c.api.Waiting? then (c, WouldBlock)
    else if c.completed == c.stopTicket then StopDone(c, c.api.destroy)
    else if expired then (c.(api := Free), Timeout)
    else (c, WouldBlock)
  }

  // ---------- the worker ----------

  /** `phase`: publish, and call back if the phase changed. */
  function Enter(c: Client, p: Phase): Client {
    c.(worker := c.worker.(phase := p),
       events := if c.worker.phase != p then c.events + [Callback(p)] else c.events)
  }

  /** A truncated TLS connection is an interruption; a truncated frame inside it is not. */
  predicate RetryableError(error: Result, truncatedTls: bool) {
    error == NetworkError || error == DnsError || error == Timeout || error == SessionClosed || error == Eof ||
    (error == Truncated && truncatedTls)
  }

  /**
   How the outside world answers one turn of the worker: whether the clock is trusted; whether
   the operation at hand fails, and how, or moves on; what the session and the transport say.
   */
  datatype World = World(
    quic: bool, trusted: bool, fails: bool, error: Result, advances: bool, open: bool, loginFails: bool,
    registered: bool, count: Option<nat>, truncatedTls: bool, freed: set<Handle>, random: bool, timeout: bool)

  /** `session_status`: the status shows this attempt on top of all earlier ones. */
  function Observe(c: Client, count: Option<nat>): Client {
    if Session in c.worker.handles && count.Some?
    then c.(worker := c.worker.(live := count.value, shown := c.worker.total + count.value),
            counts := Reported(c.counts, count.value))
    else c
  }

  /** The last attempt reports `count`. */
  function Reported(counts: seq<nat>, count: nat): seq<nat> {
    if counts == [] then [] else counts[|counts| - 1 := count]
  }

  /** `drain`: the first time, close the books of this attempt and cancel everything. */
  function Drain(c: Client, error: Result, w: World): Client {
    if c.worker.phase == Draining then c
    else
      var n := Observe(c, w.count);
      var retry := RetryableError(error, Tls in c.worker.handles && w.truncatedTls);
      Enter(n.(worker := n.worker.(total := n.worker.shown, live := 0, retryable := retry)), Draining)
  }

  function Holding(c: Client, handle: Handle): Client {
    c.(worker := c.worker.(handles := c.worker.handles + {handle}))
  }

  /** `begin`: a new attempt, over QUIC with a transport at once, otherwise with a connection first. */
  function Begin(c: Client, w: World): Client {
    var n := Enter(c.(counts := c.counts + [0], worker := c.worker.(attempts := c.worker.attempts + 1)), Connecting);
    if !w.trusted then Drain(n, TimeUntrusted, w)
    else if w.fails then Drain(n, w.error, w)
    else Holding(n, if w.quic then Transport else Connection)
  }

  /** Take one command, or give up waiting for one. */
  function Receive(c: Client, w: World): Client {
    if c.queue == [] then
      if w.timeout && (c.worker.running || c.worker.phase == Draining)
      then c.(worker := c.worker.(turn := Stepping)) else c
    else
      var n := c.(queue := c.queue[1..], worker := c.worker.(turn := Stepping));
      match c.queue[0]
      case Exit => n.(worker := n.worker.(turn := Exited))
      case Start =>
        Begin(n.(worker := n.worker.(running := true), events := n.events + [StartTaken]), w)
      case Stop(t) => Drain(n.(worker := n.worker.(running := false, ticket := t)), Cancelled, w)
  }

  /** `cleanup`: free what can be freed now; true when nothing is left. */
  function Cleanup(c: Client, freed: set<Handle>): (Client, bool) {
    var left := c.worker.handles - freed;
    (c.(worker := c.worker.(handles := left)), left == {})
  }

  function DrainTurn(c: Client, w: World): Client {
    var (n, done) := Cleanup(c, w.freed);
    if !done then n
    else if !n.worker.running then Enter(n.(worker := n.worker.(turn := Completing)), Stopped)
    else if n.worker.retryable && w.random then Enter(n, Backoff)
    else Enter(n.(worker := n.worker.(running := false)), Failed)
  }

  /** `authenticate`: create the session on the open transport. */
  function Authenticate(c: Client, w: World): Client {
    if w.loginFails then Drain(c, w.error, w) else Enter(Holding(c, Session), Authenticating)
  }

  /** A turn of a live attempt: it fails, creates the next handles, or serves its session. */
  function ActiveTurn(c: Client, w: World): Client {
    if !w.trusted then Drain(c, TimeUntrusted, w)
    else if w.fails then Drain(c, w.error, w)
    else if c.worker.phase == Connecting || c.worker.phase == Handshaking then
      if Connection !in c.worker.handles then
        if w.open then Authenticate(c, w) else if w.advances then Enter(c, Handshaking) else c
      else if !w.advances then c
      else if c.worker.phase == Connecting then Enter(Holding(c, Tls), Handshaking)
      else Authenticate(Holding(c, Transport), w)
    else
      var n := Observe(c, w.count);
      if w.registered then Enter(n, Ready) else if w.advances then Enter(n, Registering) else n
  }

  /** `step`. */
  function Step(c: Client, w: World): Client {
    var n := c.(worker := c.worker.(turn := Receiving));
    if c.worker.phase == Draining then DrainTurn(n, w)
    else if !c.worker.running then n
    else if c.worker.phase == Backoff then if w.timeout then Begin(n, w) else n
    else ActiveTurn(n, w)
  }

  /** The callback has returned: let the waiting stop see its ticket. */
  function Complete(c: Client): Client {
    c.(completed := c.worker.ticket, worker := c.worker.(turn := Receiving))
  }

  datatype Action =
    | CallStart
    | CallStop(destroy: bool)
    | Poll(expired: bool)
    | Work(w: World)

  function Next(c: Client, a: Action): Client {
    match a
    case CallStart => StartCall(c).0
    case CallStop(destroy) => StopCall(c, destroy).0
    case Poll(expired) => PollCall(c, expired).0
    case Work(w) =>
      match c.worker.turn
      case Receiving => Receive(c, w)
      case Stepping => Step(c, w)
      case Completing => Complete(c)
      case Exited => c
  }

  function Run(actions: seq<Action>): Client {
    if actions == [] then Created() else Next(Run(actions[..|actions| - 1]), actions[|actions| - 1])
  }

  ghost predicate Reachable(c: Client) {
    exists actions :: c == Run(actions)
  }
}
