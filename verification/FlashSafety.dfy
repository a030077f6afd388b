/** Lease isolation and quarantine of the Flash store, for every interleaving of its callbacks. */
module FlashSafety {
  import opened Efrp
  import opened FlashModel

  // ---------- what a lease should contain ----------

  /** The byte that the stores under `lease` in `log` left at position `i`, if any. */
  function Image(log: seq<Event>, lease: nat, i: nat): Option<byte> {
    if log == [] then None
    else
      var e := log[|log| - 1];
      if e.Stored? && e.lease == lease && e.offset <= i < e.offset + |e.bytes| then Some(e.bytes[i - e.offset])
      else Image(log[..|log| - 1], lease, i)
  }

  /** What a read of position `i` under `lease` must return: the last byte stored there, or erased Flash. */
  function Expected(log: seq<Event>, lease: nat, i: nat): byte {
    var b := Image(log, lease, i); if b.Some? then b.value else 0xFF
  }

  predicate CellOk(c: Cell, lease: nat, b: Option<byte>) {
    if b.None? then c == Erased else c == Written(lease, b.value)
  }

  /** The Flash holds exactly the image of the lease, over erased bytes. */
  predicate Holds(cells: seq<Cell>, log: seq<Event>, lease: nat) {
    forall i :: 0 <= i < |cells| ==> CellOk(cells[i], lease, Image(log, lease, i))
  }

  /** Every load in the log returned what the log says it should. */
  predicate Loads(log: seq<Event>) {
    forall k :: 0 <= k < |log| && log[k].Loaded? ==> LoadOk(log[..k], log[k])
  }

  predicate LoadOk(before: seq<Event>, e: Event)
    requires e.Loaded?
  {
    forall j :: 0 <= j < |e.bytes| ==> e.bytes[j] == Expected(before, e.lease, e.offset + j)
  }

  /** Lease numbers in the log are at most `next`, and every grant is larger than what came before. */
  predicate Leases(log: seq<Event>, next: nat) {
    && (forall k :: 0 <= k < |log| ==> 1 <= log[k].lease <= next)
    && (forall j, k :: 0 <= j < k < |log| && log[k].Granted? ==> log[j].lease < log[k].lease)
  }

  // ---------- the invariant ----------

  /** Callback at `pc` holds the guard. */
  predicate Holding(pc: Pc) {
    !pc.Enter? && !pc.Contended? && !pc.Returned?
  }

  /** A callback that must not succeed under quarantine. */
  predicate Guarded(call: Call) {
    call.Begin? || call.Write? || call.Read?
  }

  /** The part of the state that only the holder of the guard changes. */
  datatype Core = Core(phase: Phase, next: nat, active: nat, cells: seq<Cell>, log: seq<Event>)

  function CoreOf(s: Store): Core {
    Core(s.phase, s.next, s.active, s.cells, s.log)
  }

  predicate CoreOk(c: Core) {
    && |c.cells| == STORE_BYTES && c.next <= U64_MAX
    && (c.active == 0 || c.active == c.next)
    && (c.phase == Leased ==> c.active != 0 && Holds(c.cells, c.log, c.active))
    && (c.phase == Idle || c.phase == Unrecovered ==> c.active == 0)
    && Leases(c.log, c.next) && Loads(c.log)
  }

  predicate ErasedUpTo(cells: seq<Cell>, n: nat) {
    forall i :: 0 <= i < |cells| && i < n ==> cells[i] == Erased
  }

  predicate EraseOk(c: Core, call: Call, sector: nat, touched: bool) {
    && sector < SECTORS && c.active == 0 && ErasedUpTo(c.cells, sector * ERASE_BYTES)
    && (if call.Recover? then c.phase == Unrecovered
        else call.Begin? && c.phase == Idle && c.next < U64_MAX)
    && (sector > 0 ==> touched)
  }

  /** What the holder of the guard knows. */
  predicate HolderOk(c: Core, x: Thread) {
    match x.pc
    case Body => x.late ==> c.phase == Quarantined
    case EraseCheck(sector, touched) => EraseOk(c, x.call, sector, touched)
    case EraseSector(sector, touched) => EraseOk(c, x.call, sector, touched)
    case Operate =>
      && c.phase == Leased && c.active != 0
      && (match x.call
          case Write(lease, offset, bytes) => lease == c.active && bytes.Some? && ValidRange(offset, |bytes.value|)
          case Read(lease, offset, length, _) => lease == c.active && ValidRange(offset, length)
          case _ => false)
    case BeginCommit => x.call.Begin? && c.phase == Leased && ErasedUpTo(c.cells, STORE_BYTES)
    case ClearCommit => x.call.Clear? && x.call.lease == c.active != 0 && (c.phase == Leased || c.phase == Quarantined)
    case Leave(result, _) => x.call.Recover? && result == Ok ==> c.phase == Idle
    case _ => true
  }

  /** A callback that entered under a standing quarantine does not get far. */
  predicate LateOk(x: Thread) {
    x.late && Guarded(x.call) ==>
      match x.pc
      case Body => true
      case Leave(result, _) => result != Ok
      case Release(result, _) => result != Ok
      case Returned(result, _) => result != Ok
      case _ => false
  }

  /** A recovery that is about to lift the quarantine. */
  predicate Recovering(x: Thread) {
    x.call.Recover? && (x.pc.EraseCheck? || x.pc.EraseSector? || (x.pc.Leave? && x.pc.result == Ok))
  }

  predicate GuardOk(s: Store) {
    && (forall t :: 0 <= t < |s.threads| && Holding(s.threads[t].pc) ==> s.guard == Some(t))
    && (s.guard.Some? ==> s.guard.value < |s.threads| && Holding(s.threads[s.guard.value].pc) &&
                          HolderOk(CoreOf(s), s.threads[s.guard.value]))
  }

  predicate StandingOk(s: Store) {
    s.standing ==> s.flag || s.phase == Quarantined ||
                   (s.guard.Some? && s.guard.value < |s.threads| && Recovering(s.threads[s.guard.value]))
  }

  predicate LateAll(s: Store) {
    forall t :: 0 <= t < |s.threads| ==> LateOk(s.threads[t])
  }

  predicate Succeeded(pc: Pc) {
    (pc.Leave? || pc.Release? || pc.Returned?) && pc.result == Ok
  }

  /** A read that has succeeded so far put what it returns into the log. */
  predicate Logged(t: nat, x: Thread, log: seq<Event>) {
    x.call.Read? && Succeeded(x.pc) ==>
      |x.pc.data| == x.call.length && Loaded(x.call.lease, x.call.offset, x.pc.data, t) in log
  }

  predicate AllLogged(s: Store) {
    forall t :: 0 <= t < |s.threads| ==> Logged(t, s.threads[t], s.log)
  }

  predicate Inv(s: Store) {
    CoreOk(CoreOf(s)) && GuardOk(s) && StandingOk(s) && LateAll(s) && AllLogged(s)
  }

  // ---------- steps ----------

  /** The holder `t` moves on to `x`, changing the core. */
  lemma HolderStep(s: Store, n: Store, t: nat)
    requires Inv(s) && t < |s.threads| && Holding(s.threads[t].pc)
    requires |n.threads| == |s.threads| && n.threads == s.threads[t := n.threads[t]]
    requires CoreOk(CoreOf(n)) && StandingOk(n) && LateOk(n.threads[t])
    requires s.log <= n.log && Logged(t, n.threads[t], n.log)
    requires if Holding(n.threads[t].pc) then n.guard == s.guard && HolderOk(CoreOf(n), n.threads[t])
             else n.guard == None
    ensures Inv(n)
  {
    hide CoreOk, StandingOk, HolderOk;
    assert forall e :: e in s.log ==> e in n.log;
  }

  /** A lease that was never used has an empty image. */
  lemma {:induction false} FreshImage(log: seq<Event>, lease: nat, i: nat)
    requires forall k :: 0 <= k < |log| ==> log[k].Granted? || log[k].lease != lease
    ensures Image(log, lease, i) == None
  {
    if log != [] {
      FreshImage(log[..|log| - 1], lease, i);
    }
  }

  lemma ImageSnoc(log: seq<Event>, e: Event, lease: nat, i: nat)
    ensures Image(log + [e], lease, i) ==
            if e.Stored? && e.lease == lease && e.offset <= i < e.offset + |e.bytes| then Some(e.bytes[i - e.offset])
            else Image(log, lease, i)
  {
    assert (log + [e])[..|log|] == log;
  }

  lemma LoadsSnoc(log: seq<Event>, e: Event)
    requires Loads(log) && (e.Loaded? ==> LoadOk(log, e))
    ensures Loads(log + [e])
  {
    var l := log + [e];
    forall k | 0 <= k < |l| && l[k].Loaded?
      ensures LoadOk(l[..k], l[k])
    {
      if k < |log| {
        assert l[..k] == log[..k];
      } else {
        assert l[..k] == log;
      }
    }
  }

  /** A store of bytes under the active lease extends its image and the Flash alike. */
  lemma StoreCore(c: Core, offset: nat, bytes: seq<byte>)
    requires CoreOk(c) && c.phase == Leased && ValidRange(offset, |bytes|)
    ensures var l := c.active;
            CoreOk(c.(cells := Overlay(c.cells, offset, WrittenCells(l, bytes)),
                      log := c.log + [Stored(l, offset, bytes)]))
  {
    var e := Stored(c.active, offset, bytes);
    var cells := Overlay(c.cells, offset, WrittenCells(c.active, bytes));
    LoadsSnoc(c.log, e);
    hide Image, Loads;
    forall i | 0 <= i < |cells|
      ensures CellOk(cells[i], c.active, Image(c.log + [e], c.active, i))
    {
      ImageSnoc(c.log, e, c.active, i);
    }
  }

  /** A read under the active lease returns its image. */
  lemma LoadCore(c: Core, offset: nat, length: nat, t: nat)
    requires CoreOk(c) && c.phase == Leased && ValidRange(offset, length)
    ensures var e := Loaded(c.active, offset, Values(c.cells[offset..offset + length]), t);
            LoadOk(c.log, e) && CoreOk(c.(log := c.log + [e]))
  {
    hide Image, Loads;
    var e := Loaded(c.active, offset, Values(c.cells[offset..offset + length]), t);
    forall j | 0 <= j < |e.bytes|
      ensures e.bytes[j] == Expected(c.log, c.active, offset + j)
    {
      assert CellOk(c.cells[offset + j], c.active, Image(c.log, c.active, offset + j));
    }
    LoadsSnoc(c.log, e);
    forall i | 0 <= i < |c.cells|
      ensures Image(c.log + [e], c.active, i) == Image(c.log, c.active, i)
    {
      ImageSnoc(c.log, e, c.active, i);
    }
  }

  /** A grant over wholly erased Flash. */
  lemma GrantCore(c: Core)
    requires CoreOk(c) && c.active == 0 && c.next < U64_MAX && ErasedUpTo(c.cells, STORE_BYTES)
    ensures var l := c.next + 1; CoreOk(c.(phase := Leased, next := l, active := l, log := c.log + [Granted(l)]))
  {
    var l := c.next + 1;
    LoadsSnoc(c.log, Granted(l));
    forall i | 0 <= i < |c.cells|
      ensures Image(c.log + [Granted(l)], l, i) == None
    {
      FreshImage(c.log + [Granted(l)], l, i);
    }
    hide Image, Loads;
  }

  lemma SectorCore(c: Core, sector: nat, o: Outcome)
    requires CoreOk(c) && c.phase != Leased && sector < SECTORS
    ensures CoreOk(c.(cells := SectorAfter(c.cells, sector, o)))
    ensures Clean(o) && ErasedUpTo(c.cells, sector * ERASE_BYTES) ==>
              ErasedUpTo(SectorAfter(c.cells, sector, o), (sector + 1) * ERASE_BYTES)
  {
    hide Loads, Leases, Holds;
  }

  // ---------- every step keeps the invariant ----------

  lemma OutsideInv(s: Store, t: nat, o: Outcome)
    requires Inv(s) && t < |s.threads| && !Holding(s.threads[t].pc)
    ensures Inv(Step(s, t, o))
  {
    hide CoreOk;
  }

  lemma EnterFlagInv(s: Store, t: nat)
    requires Inv(s) && t < |s.threads| && s.threads[t].pc == EnterFlag
    ensures Inv(EnterFlagStep(s, t))
  {
    hide Holds, Loads, Leases;
    assert s.guard == Some(t);
    HolderStep(s, EnterFlagStep(s, t), t);
  }

  lemma BodyInv(s: Store, t: nat)
    requires Inv(s) && t < |s.threads| && s.threads[t].pc == Body
    ensures Inv(BodyStep(s, t))
  {
    hide Holds, Loads, Leases;
    var x := s.threads[t];
    assert s.guard == Some(t) && LateOk(x) && HolderOk(CoreOf(s), x);
    hide GuardOk, LateAll;
    HolderStep(s, BodyStep(s, t), t);
  }

  lemma EraseFailedInv(s: Store, t: nat, cells: seq<Cell>, touched: bool)
    requires Inv(s) && t < |s.threads| && (s.threads[t].pc.EraseCheck? || s.threads[t].pc.EraseSector?)
    requires CoreOk(CoreOf(s).(cells := cells))
    ensures Inv(EraseFailed(s.(cells := cells), t, touched))
  {
    hide Holds, Loads, Leases;
    assert s.guard == Some(t) && LateOk(s.threads[t]);
    HolderStep(s, EraseFailed(s.(cells := cells), t, touched), t);
  }

  lemma EraseCheckInv(s: Store, t: nat, sector: nat, touched: bool)
    requires Inv(s) && t < |s.threads| && s.threads[t].pc == EraseCheck(sector, touched)
    ensures Inv(EraseCheckStep(s, t, sector, touched))
  {
    hide Holds, Loads, Leases;
    assert s.guard == Some(t) && LateOk(s.threads[t]);
    if s.flag {
      EraseFailedInv(s, t, s.cells, touched);
    } else {
      HolderStep(s, Goto(s, t, EraseSector(sector, touched)), t);
    }
  }

  lemma EraseSectorInv(s: Store, t: nat, sector: nat, touched: bool, o: Outcome)
    requires Inv(s) && t < |s.threads| && s.threads[t].pc == EraseSector(sector, touched) && sector < SECTORS
    ensures Inv(EraseSectorStep(s, t, sector, touched, o))
  {
    hide SectorAfter, Holds, Loads, Leases, ErasedUpTo, EraseFailed;
    assert s.guard == Some(t) && LateOk(s.threads[t]);
    SectorCore(CoreOf(s), sector, o);
    var cells := SectorAfter(s.cells, sector, o);
    if !Clean(o) {
      hide CoreOk;
      EraseFailedInv(s, t, cells, touched || o.calls != 0 || o.wrapperOk);
    } else {
      if sector + 1 == SECTORS && !s.threads[t].call.Recover? {
        GrantCore(CoreOf(s).(cells := cells));
      }
      HolderStep(s, EraseSectorStep(s, t, sector, touched, o), t);
    }
  }

  lemma WriteInv(s: Store, t: nat, o: Outcome, lease: nat, offset: nat, bytes: seq<byte>)
    requires Inv(s) && t < |s.threads| && s.threads[t].pc == Operate
    requires s.threads[t].call == Write(lease, offset, Some(bytes))
    requires offset + |bytes| <= |s.cells|
    ensures Inv(WriteStep(s, t, lease, offset, bytes, o))
  {
    assert s.guard == Some(t) && LateOk(s.threads[t]) && HolderOk(CoreOf(s), s.threads[t]);
    StoreCore(CoreOf(s), offset, bytes);
    hide Holds, Loads, Leases, GuardOk, LateAll, WrittenCells, JunkCells;
    HolderStep(s, WriteStep(s, t, lease, offset, bytes, o), t);
  }

  lemma ReadInv(s: Store, t: nat, o: Outcome, lease: nat, offset: nat, length: nat, missing: bool)
    requires Inv(s) && t < |s.threads| && s.threads[t].pc == Operate
    requires s.threads[t].call == Read(lease, offset, length, missing)
    requires offset + length <= |s.cells|
    ensures Inv(ReadStep(s, t, lease, offset, length, o))
  {
    assert s.guard == Some(t) && LateOk(s.threads[t]) && HolderOk(CoreOf(s), s.threads[t]);
    LoadCore(CoreOf(s), offset, length, t);
    hide Holds, Loads, Leases, LoadOk, GuardOk, LateAll, Values;
    HolderStep(s, ReadStep(s, t, lease, offset, length, o), t);
  }

  lemma OperateInv(s: Store, t: nat, o: Outcome)
    requires Inv(s) && t < |s.threads| && s.threads[t].pc == Operate
    ensures Inv(OperateStep(s, t, o))
  {
    hide Inv, WriteStep, ReadStep;
    match s.threads[t].call
    case Write(lease, offset, bytes) =>
      if bytes.Some? && offset + |bytes.value| <= |s.cells| {
        WriteInv(s, t, o, lease, offset, bytes.value);
      }
    case Read(lease, offset, length, missing) =>
      if offset + length <= |s.cells| {
        ReadInv(s, t, o, lease, offset, length, missing);
      }
    case _ =>
  }

  lemma CommitInv(s: Store, t: nat)
    requires Inv(s) && t < |s.threads|
    ensures s.threads[t].pc == BeginCommit ==> Inv(BeginCommitStep(s, t))
    ensures s.threads[t].pc == ClearCommit ==> Inv(ClearCommitStep(s, t))
  {
    hide Holds, Loads, Leases;
    assert LateOk(s.threads[t]);
    if s.threads[t].pc == BeginCommit {
      assert s.guard == Some(t);
      HolderStep(s, BeginCommitStep(s, t), t);
    } else if s.threads[t].pc == ClearCommit {
      assert s.guard == Some(t);
      HolderStep(s, ClearCommitStep(s, t), t);
    }
  }

  lemma LeaveInv(s: Store, t: nat, result: Result, data: seq<byte>)
    requires Inv(s) && t < |s.threads| && s.threads[t].pc == Leave(result, data)
    ensures Inv(LeaveStep(s, t, result, data))
  {
    hide Holds, Loads, Leases;
    assert s.guard == Some(t) && LateOk(s.threads[t]) && HolderOk(CoreOf(s), s.threads[t]);
    hide GuardOk, LateAll;
    HolderStep(s, LeaveStep(s, t, result, data), t);
  }

  lemma ReleaseInv(s: Store, t: nat, result: Result, data: seq<byte>)
    requires Inv(s) && t < |s.threads| && s.threads[t].pc == Release(result, data)
    ensures Inv(Goto(s.(guard := None), t, Returned(result, data)))
  {
    hide CoreOk;
    assert s.guard == Some(t) && LateOk(s.threads[t]);
    HolderStep(s, Goto(s.(guard := None), t, Returned(result, data)), t);
  }

  lemma StepInv(s: Store, t: nat, o: Outcome)
    requires Inv(s) && t < |s.threads|
    ensures Inv(Step(s, t, o))
  {
    if !Holding(s.threads[t].pc) {
      OutsideInv(s, t, o);
    } else {
      assert HolderOk(CoreOf(s), s.threads[t]);
      hide Inv, EnterFlagStep, BodyStep, EraseCheckStep, EraseSectorStep, OperateStep, BeginCommitStep,
           ClearCommitStep, LeaveStep;
      match s.threads[t].pc
      case EnterFlag => EnterFlagInv(s, t);
      case Body => BodyInv(s, t);
      case EraseCheck(sector, touched) => EraseCheckInv(s, t, sector, touched);
      case EraseSector(sector, touched) => EraseSectorInv(s, t, sector, touched, o);
      case Operate => OperateInv(s, t, o);
      case BeginCommit => CommitInv(s, t);
      case ClearCommit => CommitInv(s, t);
      case Leave(result, data) => LeaveInv(s, t, result, data);
      case Release(result, data) => ReleaseInv(s, t, result, data);
    }
  }

  lemma {:induction false} RunInv(cells: seq<Cell>, actions: seq<Action>)
    requires |cells| == STORE_BYTES
    ensures Inv(Run(Bound(cells), actions))
  {
    if actions != [] {
      var s := Run(Bound(cells), actions[..|actions| - 1]);
      RunInv(cells, actions[..|actions| - 1]);
      match actions[|actions| - 1]
      case Invoke(call) => assert Inv(Next(s, Invoke(call))) by { hide CoreOk; }
      case Move(t, o) =>
        if t < |s.threads| {
          StepInv(s, t, o);
        }
    }
  }

  lemma ReachableInv(s: Store)
    requires Reachable(s)
    ensures Inv(s)
  {
    hide Inv, Run, Bound;
    var cells, actions :| |cells| == STORE_BYTES && s == Run(Bound(cells), actions);
    RunInv(cells, actions);
  }

  // ---------- main results ----------

  /**
   A read that succeeds under a lease returns, at every position, the last byte stored
   there under that same lease, or erased Flash: never a byte of another lease.
   */
  lemma LeaseIsolation(s: Store, t: nat) returns (k: nat)
    requires Reachable(s) && t < |s.threads|
    requires s.threads[t].call.Read? && s.threads[t].pc.Returned? && s.threads[t].pc.result == Ok
    ensures var x := s.threads[t];
            && k < |s.log| && s.log[k] == Loaded(x.call.lease, x.call.offset, x.pc.data, t)
            && |x.pc.data| == x.call.length
            && forall j :: 0 <= j < |x.pc.data| ==>
                 x.pc.data[j] == Expected(s.log[..k], x.call.lease, x.call.offset + j)
  {
    hide Run, Expected, Leases, GuardOk, LateAll, StandingOk, Holds;
    var x := s.threads[t];
    ReachableInv(s);
    assert Logged(t, x, s.log);
    var e := Loaded(x.call.lease, x.call.offset, x.pc.data, t);
    k :| 0 <= k < |s.log| && s.log[k] == e;
    assert LoadOk(s.log[..k], e);
  }

  /** Lease numbers never repeat: every grant is larger than every lease used before it. */
  lemma LeasesIncrease(s: Store, j: nat, k: nat)
    requires Reachable(s) && j < k < |s.log| && s.log[k].Granted?
    ensures 1 <= s.log[j].lease < s.log[k].lease <= U64_MAX
  {
    ReachableInv(s);
    hide Run, Loads;
  }

  /**
   A lease comes into being only when a `begin` that holds the guard erases the last of
   the sixteen sectors, all sixteen of them are erased, and its number is new.
   */
  lemma GrantErasesAll(s: Store, t: nat, o: Outcome)
    requires Reachable(s) && t < |s.threads| && Next(s, Move(t, o)).phase == Leased && s.phase != Leased
    ensures var n := Next(s, Move(t, o));
            && s.guard == Some(t) && s.threads[t].call.Begin? && s.threads[t].pc.EraseSector?
            && s.threads[t].pc.sector == SECTORS - 1 && Clean(o)
            && ErasedUpTo(n.cells, STORE_BYTES) && n.active == s.next + 1
  {
    ReachableInv(s);
    hide Run, Holds, Loads, Leases, LateAll, StandingOk, Reachable;
    assert s.threads[t].pc.EraseSector? by {
      hide Overlay, SectorAfter, CoreOk;
    }
    SectorCore(CoreOf(s), s.threads[t].pc.sector, o);
  }

  /** While a quarantine request stands, no begin, read or write that enters succeeds. */
  lemma QuarantineStands(s: Store, t: nat)
    requires Reachable(s) && t < |s.threads|
    requires s.threads[t].late && Guarded(s.threads[t].call) && s.threads[t].pc.Returned?
    ensures s.threads[t].pc.result != Ok
  {
    ReachableInv(s);
    hide Run, CoreOk, GuardOk, StandingOk;
    assert LateOk(s.threads[t]);
  }

  /** Action `a` is the success of a recovery, or of a clear of the active lease. */
  predicate Lifts(s: Store, a: Action) {
    && a.Move? && a.t < |s.threads| && a.t < |Next(s, a).threads|
    && (s.threads[a.t].call.Recover? || (s.threads[a.t].call.Clear? && s.threads[a.t].call.lease == s.active != 0))
    && Next(s, a).threads[a.t].pc.Release? && Next(s, a).threads[a.t].pc.result == Ok
  }

  lemma QuarantineLifted(s: Store, a: Action)
    requires Reachable(s) && s.standing && !Next(s, a).standing
    ensures Lifts(s, a)
  {
    ReachableInv(s);
    hide Run, CoreOk, LateAll, Overlay, SectorAfter, Reachable;
    assert s.threads[a.t].pc.ClearCommit? || s.threads[a.t].pc.Leave?;
  }

  /** No recovery and no clear of the active lease succeeds on the way. */
  ghost predicate NoLift(s: Store, actions: seq<Action>) {
    forall i :: 0 <= i < |actions| ==> !Lifts(Run(s, actions[..i]), actions[i])
  }

  lemma {:induction false} StandingStays(s: Store, actions: seq<Action>)
    requires Reachable(s) && s.standing && NoLift(s, actions)
    ensures Run(s, actions).standing && Reachable(Run(s, actions))
  {
    hide Next, Lifts, Bound;
    if actions != [] {
      var front, a := actions[..|actions| - 1], actions[|actions| - 1];
      forall i | 0 <= i < |front|
        ensures !Lifts(Run(s, front[..i]), front[i])
      {
        assert front[..i] == actions[..i];
      }
      StandingStays(s, front);
      var m := Run(s, front);
      assert !Lifts(m, a);
      if !Next(m, a).standing {
        QuarantineLifted(m, a);
      }
      ReachableNext(m, a);
    }
  }

  lemma ReachableNext(s: Store, a: Action)
    requires Reachable(s)
    ensures Reachable(Next(s, a))
  {
    hide Next, Bound;
    var cells, actions :| |cells| == STORE_BYTES && s == Run(Bound(cells), actions);
    var more := actions + [a];
    assert more[..|more| - 1] == actions;
    assert Run(Bound(cells), more) == Next(s, a);
  }

  /** Callback `t` is past the flag, having entered late. */
  predicate EnteredLate(s: Store, t: nat) {
    && t < |s.threads| && s.threads[t].late && Guarded(s.threads[t].call)
    && PastFlag(s.threads[t].pc)
  }

  predicate PastFlag(pc: Pc) {
    !pc.Enter? && !pc.Contended? && !pc.EnterFlag?
  }

  /** A step of callback `t` once it is past the flag: it stays past it, and no other callback moves. */
  predicate OwnStep(s: Store, n: Store, t: nat)
    requires t < |s.threads|
  {
    && |n.threads| == |s.threads| && n.threads == s.threads[t := n.threads[t]]
    && (PastFlag(s.threads[t].pc) ==> n.threads[t] == s.threads[t].(pc := n.threads[t].pc) && PastFlag(n.threads[t].pc))
  }

  lemma EraseOwn(s: Store, t: nat, sector: nat, touched: bool, o: Outcome)
    requires t < |s.threads| && (sector + 1) * ERASE_BYTES <= |s.cells|
    ensures OwnStep(s, EraseSectorStep(s, t, sector, touched, o), t)
  {
    hide SectorAfter;
  }

  lemma OperateOwn(s: Store, t: nat, o: Outcome)
    requires t < |s.threads|
    ensures OwnStep(s, OperateStep(s, t, o), t)
  {
    hide Overlay, Values;
  }

  lemma BodyOwn(s: Store, t: nat)
    requires t < |s.threads|
    ensures OwnStep(s, BodyStep(s, t), t)
  {
  }

  lemma StepOwn(s: Store, t: nat, o: Outcome)
    requires t < |s.threads| && |s.cells| == STORE_BYTES
    ensures OwnStep(s, Step(s, t, o), t)
  {
    hide EraseSectorStep, OperateStep, BodyStep;
    match s.threads[t].pc
    case EraseSector(sector, touched) => if sector < SECTORS { EraseOwn(s, t, sector, touched, o); }
    case Operate => OperateOwn(s, t, o);
    case Body => BodyOwn(s, t);
    case _ =>
  }

  lemma NextLate(s: Store, a: Action, t: nat)
    requires EnteredLate(s, t)
    ensures EnteredLate(Next(s, a), t)
  {
    hide Step;
    if a.Move? && a.t < |s.threads| && |s.cells| == STORE_BYTES {
      StepOwn(s, a.t, a.outcome);
    }
  }

  lemma {:induction false} RunLate(s: Store, actions: seq<Action>, t: nat)
    requires EnteredLate(s, t) && Reachable(s)
    ensures EnteredLate(Run(s, actions), t) && Reachable(Run(s, actions))
  {
    hide EnteredLate, Next, Bound;
    if actions != [] {
      RunLate(s, actions[..|actions| - 1], t);
      NextLate(Run(s, actions[..|actions| - 1]), actions[|actions| - 1], t);
      ReachableNext(Run(s, actions[..|actions| - 1]), actions[|actions| - 1]);
    }
  }

  /**
   Quarantine over whole runs.  A contended clear raises the flag; while no recovery and no
   clear of the active lease succeeds, a begin, read or write that then enters does not return
   OK, whatever happens after it entered.
   */
  lemma QuarantineHolds(s: Store, clear: nat, o: Outcome, before: seq<Action>, t: nat, p: Outcome, after: seq<Action>)
    requires Reachable(s) && clear < |s.threads| && s.threads[clear].pc == Contended
    requires NoLift(Next(s, Move(clear, o)), before)
    requires var m := Run(Next(s, Move(clear, o)), before);
             t < |m.threads| && Guarded(m.threads[t].call) && m.threads[t].pc == EnterFlag
    ensures var m := Run(Next(s, Move(clear, o)), before);
            var n := Run(Next(m, Move(t, p)), after);
            t < |n.threads| && (n.threads[t].pc.Returned? ==> n.threads[t].pc.result != Ok)
  {
    var s1 := Next(s, Move(clear, o));
    assert s1.standing by {
      ReachableInv(s);
      hide Run, Reachable, GuardOk, LateAll, StandingOk, Holds, Loads, Leases;
    }
    ReachableNext(s, Move(clear, o));
    hide Run, Reachable, NoLift;
    StandingStays(s1, before);
    var m := Run(s1, before);
    assert |m.cells| == STORE_BYTES by {
      ReachableInv(m);
      hide GuardOk, LateAll, StandingOk, Holds, Loads, Leases;
    }
    ReachableNext(m, Move(t, p));
    assert EnteredLate(Next(m, Move(t, p)), t);
    hide Next, EnteredLate;
    RunLate(Next(m, Move(t, p)), after, t);
    Refused(Run(Next(m, Move(t, p)), after), t);
  }

  lemma Refused(n: Store, t: nat)
    requires Reachable(n) && EnteredLate(n, t)
    ensures t < |n.threads| && (n.threads[t].pc.Returned? ==> n.threads[t].pc.result != Ok)
  {
    hide Reachable;
    if n.threads[t].pc.Returned? {
      QuarantineStands(n, t);
    }
  }
}
