/**
 The lease-granting Flash scratch store, with callbacks that race.  A step is one
 atomic access (the guard, the quarantine flag) or one Flash operation under the
 storage owner; plain fields are only touched by the holder of the guard and move
 together with the access that follows.
 */
module FlashModel {
  import opened Efrp

  const STORE_BYTES: nat := 0x1_0000
  const ERASE_BYTES: nat := 4096
  const SECTORS: nat := 16

  datatype Phase = Unrecovered | Idle | Leased | Quarantined

  /** One byte of Flash: erased, written under a lease, or left over from a failed operation. */
  datatype Cell = Erased | Written(lease: nat, value: byte) | Junk(value: byte)

  function ValueOf(c: Cell): byte {
    match c case Erased => 0xFF case Written(_, b) => b case Junk(b) => b
  }

  datatype Call =
    | Recover
    | Begin(missing: bool)
    | Write(lease: nat, offset: nat, bytes: Option<seq<byte>>)
    | Read(lease: nat, offset: nat, length: nat, missing: bool)
    | Clear(lease: nat)

  /** Where a callback is; `late` says that it entered under a standing quarantine request. */
  datatype Pc =
    | Enter
    | Contended
    | EnterFlag
    | Body
    | EraseCheck(sector: nat, touched: bool)
    | EraseSector(sector: nat, touched: bool)
    | Operate
    | BeginCommit
    | ClearCommit
    | Leave(result: Result, data: seq<byte>)
    | Release(result: Result, data: seq<byte>)
    | Returned(result: Result, data: seq<byte>)

  datatype Thread = Thread(call: Call, pc: Pc, late: bool)

  datatype Event =
    | Granted(lease: nat)
    | Stored(lease: nat, offset: nat, bytes: seq<byte>)
    | Loaded(lease: nat, offset: nat, bytes: seq<byte>, reader: nat)

  datatype Store = Store(
    threads: seq<Thread>, guard: Option<nat>, flag: bool, phase: Phase, next: nat, active: nat,
    cells: seq<Cell>, log: seq<Event>,
    standing: bool)  // a contended clear asked for quarantine and nothing has lifted it yet

  /** What the storage owner and the Flash driver do with one operation. */
  datatype Outcome = Outcome(calls: nat, flashOk: bool, wrapperOk: bool, junk: seq<byte>)

  /** The operation ran exactly once and everything succeeded. */
  predicate Clean(o: Outcome) {
    o.wrapperOk && o.calls == 1 && o.flashOk
  }

  predicate ValidRange(offset: nat, length: nat) {
    length > 0 && offset < STORE_BYTES && length <= STORE_BYTES - offset
  }

  /** `cells` with `patch` laid over it from `offset` on. */
  function Overlay(cells: seq<Cell>, offset: nat, patch: seq<Cell>): (r: seq<Cell>)
    requires offset + |patch| <= |cells|
    ensures |r| == |cells|
    ensures forall i :: 0 <= i < |cells| ==>
              r[i] == if offset <= i < offset + |patch| then patch[i - offset] else cells[i]
  {
    cells[..offset] + patch + cells[offset + |patch|..]
  }

  function Blank(n: nat): (r: seq<Cell>)
    ensures |r| == n && forall i :: 0 <= i < n ==> r[i] == Erased
  {
    seq(n, _ => Erased)
  }

  function JunkCells(junk: seq<byte>): (r: seq<Cell>)
    ensures |r| == |junk|
  {
    seq(|junk|, i requires 0 <= i < |junk| => Junk(junk[i]))
  }

  function WrittenCells(lease: nat, bytes: seq<byte>): (r: seq<Cell>)
    ensures |r| == |bytes| && forall i :: 0 <= i < |bytes| ==> r[i] == Written(lease, bytes[i])
  {
    seq(|bytes|, i requires 0 <= i < |bytes| => Written(lease, bytes[i]))
  }

  function Values(cells: seq<Cell>): (r: seq<byte>)
    ensures |r| == |cells| && forall i :: 0 <= i < |cells| ==> r[i] == ValueOf(cells[i])
  {
    seq(|cells|, i requires 0 <= i < |cells| => ValueOf(cells[i]))
  }

  function Goto(s: Store, t: nat, pc: Pc): Store
    requires t < |s.threads|
  {
    s.(threads := s.threads[t := s.threads[t].(pc := pc)])
  }

  /** `enter`, first half: the guard. A contended clear will raise the flag, the others just fail. */
  function EnterStep(s: Store, t: nat): Store
    requires t < |s.threads|
  {
    if s.guard.None? then Goto(s.(guard := Some(t)), t, EnterFlag)
    else if s.threads[t].call.Clear? then Goto(s, t, Contended)
    else Goto(s, t, Returned(StorageError, []))
  }

  /** `enter`, second half: a raised flag becomes the quarantined phase. */
  function EnterFlagStep(s: Store, t: nat): Store
    requires t < |s.threads|
  {
    s.(phase := if s.flag then Quarantined else s.phase, flag := false,
       threads := s.threads[t := s.threads[t].(pc := Body, late := s.standing)])
  }

  /** The checks of each callback, in order. */
  function BodyPc(s: Store, call: Call): Pc {
    var refuse := Leave(StorageError, []);
    var invalid := Leave(InvalidArgument, []);
    match call
    case Recover => if s.active != 0 then refuse else EraseCheck(0, false)
    case Begin(missing) =>
      if missing then invalid
      else if s.phase != Idle || s.next == U64_MAX then refuse
      else EraseCheck(0, false)
    case Write(lease, offset, bytes) =>
      if bytes.None? || !ValidRange(offset, |bytes.value|) then invalid
      else if s.phase != Leased || lease == 0 || lease != s.active then refuse
      else Operate
    case Read(lease, offset, length, missing) =>
      if missing || !ValidRange(offset, length) then invalid
      else if s.phase != Leased || lease == 0 || lease != s.active then refuse
      else Operate
    case Clear(lease) =>
      if lease == 0 || lease != s.active || (s.phase != Leased && s.phase != Quarantined) then refuse
      else ClearCommit
  }

  /** A recovery revokes whatever was there before it starts to erase. */
  function BodyStep(s: Store, t: nat): Store
    requires t < |s.threads|
  {
    var pc := BodyPc(s, s.threads[t].call);
    if s.threads[t].call.Recover? && pc.EraseCheck? then Goto(s.(phase := Unrecovered, active := 0), t, pc)
    else Goto(s, t, pc)
  }

  /** An erase was given up: a begin that touched nothing leaves the store idle. */
  function EraseFailed(s: Store, t: nat, touched: bool): Store
    requires t < |s.threads|
  {
    Goto(s.(phase := if touched || s.threads[t].call.Recover? then Quarantined else s.phase), t,
         Leave(StorageError, []))
  }

  function EraseCheckStep(s: Store, t: nat, sector: nat, touched: bool): Store
    requires t < |s.threads|
  {
    if s.flag then EraseFailed(s, t, touched) else Goto(s, t, EraseSector(sector, touched))
  }

  /** The cells of a sector after an erase that ran `calls` times. */
  function SectorAfter(cells: seq<Cell>, sector: nat, o: Outcome): seq<Cell>
    requires (sector + 1) * ERASE_BYTES <= |cells|
  {
    if o.calls == 0 then cells
    else if o.flashOk then Overlay(cells, sector * ERASE_BYTES, Blank(ERASE_BYTES))
    else if |o.junk| == ERASE_BYTES then Overlay(cells, sector * ERASE_BYTES, JunkCells(o.junk))
    else cells
  }

  function EraseSectorStep(s: Store, t: nat, sector: nat, touched: bool, o: Outcome): Store
    requires t < |s.threads| && (sector + 1) * ERASE_BYTES <= |s.cells|
  {
    var n := s.(cells := SectorAfter(s.cells, sector, o));
    if !Clean(o) then EraseFailed(n, t, touched || o.calls != 0 || o.wrapperOk)
    else if sector + 1 < SECTORS then Goto(n, t, EraseCheck(sector + 1, true))
    else if s.threads[t].call.Recover? then Goto(n.(phase := Idle), t, Leave(Ok, []))
    else
      Goto(n.(next := n.next + 1, active := n.next + 1, phase := Leased, log := n.log + [Granted(n.next + 1)]), t,
           BeginCommit)
  }

  /** The verified write under the storage owner. */
  function WriteStep(s: Store, t: nat, lease: nat, offset: nat, bytes: seq<byte>, o: Outcome): Store
    requires t < |s.threads| && offset + |bytes| <= |s.cells|
  {
    if Clean(o) then
      Goto(s.(cells := Overlay(s.cells, offset, WrittenCells(lease, bytes)),
              log := s.log + [Stored(lease, offset, bytes)]), t, Leave(Ok, []))
    else
      Goto(s.(phase := Quarantined,
              cells := if o.calls > 0 && |o.junk| == |bytes|
                       then Overlay(s.cells, offset, JunkCells(o.junk)) else s.cells),
           t, Leave(StorageError, []))
  }

  /** The read under the storage owner. */
  function ReadStep(s: Store, t: nat, lease: nat, offset: nat, length: nat, o: Outcome): Store
    requires t < |s.threads| && offset + length <= |s.cells|
  {
    if Clean(o) then
      var bytes := Values(s.cells[offset..offset + length]);
      Goto(s.(log := s.log + [Loaded(lease, offset, bytes, t)]), t, Leave(Ok, bytes))
    else Goto(s.(phase := Quarantined), t, Leave(StorageError, seq(length, _ => 0)))
  }

  function OperateStep(s: Store, t: nat, o: Outcome): Store
    requires t < |s.threads|
  {
    match s.threads[t].call
    case Write(lease, offset, bytes) =>
      if bytes.None? || offset + |bytes.value| > |s.cells| then s else WriteStep(s, t, lease, offset, bytes.value, o)
    case Read(lease, offset, length, _) =>
      if offset + length > |s.cells| then s else ReadStep(s, t, lease, offset, length, o)
    case _ => s
  }

  /** The last look at the flag before a lease is handed out. */
  function BeginCommitStep(s: Store, t: nat): Store
    requires t < |s.threads|
  {
    if s.flag then Goto(s.(flag := false, active := 0, phase := Quarantined), t, Release(StorageError, []))
    else Goto(s, t, Release(Ok, []))
  }

  /** The last look at the flag before a lease is taken back. */
  function ClearCommitStep(s: Store, t: nat): Store
    requires t < |s.threads|
  {
    if s.flag then Goto(s.(flag := false, phase := Quarantined), t, Release(StorageError, []))
    else Goto(s.(active := 0, phase := Idle, standing := false), t, Release(Ok, []))
  }

  /** `leave`, first half. */
  function LeaveStep(s: Store, t: nat, result: Result, data: seq<byte>): Store
    requires t < |s.threads|
  {
    if s.flag then Goto(s.(flag := false, phase := Quarantined), t, Release(StorageError, data))
    else
      Goto(s.(standing := if s.threads[t].call.Recover? && result == Ok then false else s.standing), t,
           Release(result, data))
  }

  function Step(s: Store, t: nat, o: Outcome): Store
    requires t < |s.threads| && |s.cells| == STORE_BYTES
  {
    match s.threads[t].pc
    case Enter => EnterStep(s, t)
    case Contended => Goto(s.(flag := true, standing := true), t, Returned(StorageError, []))
    case EnterFlag => EnterFlagStep(s, t)
    case Body => BodyStep(s, t)
    case EraseCheck(sector, touched) => EraseCheckStep(s, t, sector, touched)
    case EraseSector(sector, touched) => if sector < SECTORS then EraseSectorStep(s, t, sector, touched, o) else s
    case Operate => OperateStep(s, t, o)
    case BeginCommit => BeginCommitStep(s, t)
    case ClearCommit => ClearCommitStep(s, t)
    case Leave(result, data) => LeaveStep(s, t, result, data)
    case Release(result, data) => Goto(s.(guard := None), t, Returned(result, data))
    case Returned(_, _) => s
  }

  datatype Action = Invoke(call: Call) | Move(t: nat, outcome: Outcome)

  function Next(s: Store, a: Action): Store {
    match a
    case Invoke(call) => s.(threads := s.threads + [Thread(call, Enter, false)])
    case Move(t, o) => if t < |s.threads| && |s.cells| == STORE_BYTES then Step(s, t, o) else s
  }

  function Run(s: Store, actions: seq<Action>): Store {
    if actions == [] then s else Next(Run(s, actions[..|actions| - 1]), actions[|actions| - 1])
  }

  /** A store just bound over whatever Flash held before. */
  function Bound(cells: seq<Cell>): Store {
    Store([], None, false, Unrecovered, 0, 0, cells, [], false)
  }

  ghost predicate Reachable(s: Store) {
    exists cells, actions :: |cells| == STORE_BYTES && s == Run(Bound(cells), actions)
  }
}
