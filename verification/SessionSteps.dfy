/** The lock protocol of internal/app/browsesession.go as a step system. Any
    number of operations and Close calls run as threads; a thread's program
    counter says which statement comes next. Taking a lock is one step, a
    critical section's body with its unlock is the next. Choices that depend on
    the world (an open that fails, a caller that cancels) are inputs. */
module SessionSteps {
  import opened Wrappers

  datatype Pc =
    // beginOp
    | OpStart | OpLockMu | OpRegister | OpAbort
    // ensureStore
    | EnsLock | EnsCheck | EnsOpen | EnsCtx | EnsRelock | EnsInstall
    // the operation itself; an index transaction is open from TxStream on
    | Use | TxBegin | TxStream | TxCommit | TxRollback
    // release and, for a large committed index, the trim after it
    | RelLock | RelClear | RelCancel | RelUnlock | Trim | OpDone
    // Close
    | ClLock | ClMark | ClCancel | ClOpLock | ClMuLock | ClClose | ClOpUnlock | ClDone

  /** `left` is the number of nodes still to stream, `local` the store the
      operation works with, `handle` the cancel function a closer took. */
  datatype Thread = Thread(pc: Pc, indexing: bool, left: nat, large: bool, local: Option<nat>,
                           cancelled: bool, committed: bool, handle: Option<nat>)

  datatype State = State(
    threads: seq<Thread>,
    mu: Option<nat>, opMu: Option<nat>,                          // lock holders
    closed: bool, store: Option<nat>, inflight: Option<nat>,     // the session's fields
    openCount: nat, closedStores: set<nat>,                         // stores opened so far, and closed
    tx: Option<nat>, begun: nat, committedTx: nat, rolledBack: nat,
    bad: bool)                                                   // a closed store was used or closed again

  /** What the world decides: whether a call fails, and which of two ways an
      operation goes on. */
  datatype Choice = Choice(fail: bool, stop: bool)

  predicate HoldsMu(pc: Pc) {
    pc.OpRegister? || pc.EnsCheck? || pc.EnsInstall? || pc.RelClear? || pc.ClMark? || pc.ClClose?
  }

  predicate Registered(pc: Pc) {
    pc.EnsLock? || pc.EnsCheck? || pc.EnsOpen? || pc.EnsCtx? || pc.EnsRelock? || pc.EnsInstall?
    || InBody(pc) || pc.RelLock? || pc.RelClear?
  }

  predicate InBody(pc: Pc) {
    pc.Use? || pc.TxBegin? || pc.TxStream? || pc.TxCommit? || pc.TxRollback?
  }

  predicate InTx(pc: Pc) { pc.TxStream? || pc.TxCommit? || pc.TxRollback? }

  predicate Uninstalled(pc: Pc) { pc.EnsCtx? || pc.EnsRelock? || pc.EnsInstall? }

  predicate Opening(pc: Pc) { pc.EnsOpen? || Uninstalled(pc) }

  predicate OpHoldsOpMu(pc: Pc) {
    pc.OpLockMu? || pc.OpRegister? || pc.OpAbort? || Registered(pc) || pc.RelCancel? || pc.RelUnlock?
  }

  predicate HoldsOpMu(pc: Pc) {
    OpHoldsOpMu(pc) || pc.ClMuLock? || pc.ClClose? || pc.ClOpUnlock?
  }

  predicate IsCloser(pc: Pc) {
    pc.ClLock? || pc.ClMark? || pc.ClCancel? || pc.ClOpLock? || pc.ClMuLock? || pc.ClClose? || pc.ClOpUnlock?
      || pc.ClDone?
  }

  predicate Drained(pc: Pc) { pc.ClOpUnlock? || pc.ClDone? }

  predicate Marked(pc: Pc) { IsCloser(pc) && !pc.ClLock? && !pc.ClMark? }

  predicate Finished(pc: Pc) { pc.OpDone? || pc.ClDone? }

  function Goto(s: State, t: nat, pc: Pc): State
    requires t < |s.threads|
  {
    s.(threads := s.threads[t := s.threads[t].(pc := pc)])
  }

  /** A call on the store the operation holds. */
  function Touch(s: State, t: nat): State
    requires t < |s.threads|
  {
    s.(bad := s.bad || s.threads[t].local.None? || s.threads[t].local.value in s.closedStores)
  }

  function CloseStore(s: State, id: nat): State {
    s.(bad := s.bad || id in s.closedStores, closedStores := s.closedStores + {id})
  }

  function CloseLocal(s: State, t: nat): State
    requires t < |s.threads|
  {
    var s' := if s.threads[t].local.Some? then CloseStore(s, s.threads[t].local.value) else s;
    s'.(threads := s'.threads[t := s'.threads[t].(local := None)])
  }

  function CancelThread(s: State, t: nat): State
    requires t < |s.threads|
  {
    s.(threads := s.threads[t := s.threads[t].(cancelled := true)])
  }

  function Lock(s: State, t: nat, next: Pc): Option<State>
    requires t < |s.threads|
  {
    if s.mu.Some? then None else Some(Goto(s.(mu := Some(t)), t, next))
  }

  function LockOp(s: State, t: nat, next: Pc): Option<State>
    requires t < |s.threads|
  {
    if s.opMu.Some? then None else Some(Goto(s.(opMu := Some(t)), t, next))
  }

  /** beginOp and ensureStore. */
  function StepBegin(s: State, t: nat, c: Choice): Option<State>
    requires t < |s.threads|
  {
    match s.threads[t].pc
    case OpStart => LockOp(s, t, OpLockMu)
    case OpLockMu => Lock(s, t, OpRegister)
    case OpRegister =>
      if s.closed then Some(Goto(s.(mu := None), t, OpAbort))
      else Some(Goto(s.(mu := None, inflight := Some(t)), t, EnsLock))
    case OpAbort => Some(Goto(CancelThread(s.(opMu := None), t), t, OpDone))
    case EnsLock => Lock(s, t, EnsCheck)
    case EnsCheck =>
      if s.closed then Some(Goto(s.(mu := None), t, RelLock))
      else if s.store.Some? then
        Some(s.(mu := None, threads := s.threads[t := s.threads[t].(pc := Use, local := s.store)]))
      else Some(Goto(s.(mu := None), t, EnsOpen))
    case EnsOpen =>
      if c.fail then Some(Goto(s, t, RelLock))
      else Some(s.(openCount := s.openCount + 1,
                   threads := s.threads[t := s.threads[t].(pc := EnsCtx, local := Some(s.openCount))]))
    case EnsCtx =>
      if s.threads[t].cancelled then Some(Goto(CloseLocal(s, t), t, RelLock))
      else Some(Goto(s, t, EnsRelock))
    case EnsRelock => Lock(s, t, EnsInstall)
    case EnsInstall =>
      if s.closed then Some(Goto(CloseLocal(s, t).(mu := None), t, RelLock))
      else Some(Goto(s.(mu := None, store := s.threads[t].local), t, Use))
    case _ => None
  }

  /** The operation: a query, or IndexSnapshot with its deferred rollback. */
  function StepBody(s: State, t: nat, c: Choice): Option<State>
    requires t < |s.threads|
  {
    var th := s.threads[t];
    match th.pc
    case Use =>
      // a query is done here; indexing stops when already indexed or on an error
      if !th.indexing || c.stop then Some(Goto(Touch(s, t), t, RelLock))
      else Some(Goto(Touch(s, t), t, TxBegin))
    case TxBegin =>
      if c.fail then Some(Goto(Touch(s, t), t, RelLock))
      else Some(Goto(Touch(s, t).(tx := Some(t), begun := s.begun + 1), t, TxStream))
    case TxStream =>
      if c.fail then Some(Goto(s, t, TxRollback))          // stream or Add error
      else if th.left > 0 then
        Some(Touch(s, t).(threads := s.threads[t := th.(left := th.left - 1)]))
      else if c.stop then Some(Goto(s, t, TxRollback))     // incomplete stream
      else Some(Goto(s, t, TxCommit))
    case TxCommit =>
      // a failed Commit has already rolled back; the deferred Rollback follows
      if c.fail then Some(Goto(Touch(s, t).(tx := None, rolledBack := s.rolledBack + 1), t, TxRollback))
      else
        Some(Touch(s, t).(tx := None, committedTx := s.committedTx + 1,
                          threads := s.threads[t := th.(pc := RelLock, committed := true)]))
    case TxRollback =>
      if s.tx.None? then Some(Goto(s, t, RelLock))
      else Some(Goto(Touch(s, t).(tx := None, rolledBack := s.rolledBack + 1), t, RelLock))
    case _ => None
  }

  /** release, then the trim that runs outside the session's locks. */
  function StepRelease(s: State, t: nat): Option<State>
    requires t < |s.threads|
  {
    var th := s.threads[t];
    match th.pc
    case RelLock => Lock(s, t, RelClear)
    case RelClear => Some(Goto(s.(mu := None, inflight := None), t, RelCancel))
    case RelCancel => Some(Goto(CancelThread(s, t), t, RelUnlock))
    case RelUnlock => Some(Goto(s.(opMu := None), t, if th.committed && th.large then Trim else OpDone))
    case Trim => Some(Goto(s, t, OpDone))
    case _ => None
  }

  function StepClose(s: State, t: nat): Option<State>
    requires t < |s.threads|
  {
    var th := s.threads[t];
    match th.pc
    case ClLock => Lock(s, t, ClMark)
    case ClMark =>
      Some(s.(mu := None, closed := true, threads := s.threads[t := th.(pc := ClCancel, handle := s.inflight)]))
    case ClCancel =>
      if th.handle.Some? && th.handle.value < |s.threads| then Some(Goto(CancelThread(s, th.handle.value), t, ClOpLock))
      else Some(Goto(s, t, ClOpLock))
    case ClOpLock => LockOp(s, t, ClMuLock)
    case ClMuLock => Lock(s, t, ClClose)
    case ClClose =>
      var s' := if s.store.Some? then CloseStore(s, s.store.value).(store := None) else s;
      Some(Goto(s'.(mu := None), t, ClOpUnlock))
    case ClOpUnlock => Some(Goto(s.(opMu := None), t, ClDone))
    case _ => None
  }

  /** One step of thread t; None when it is blocked or finished. */
  function Step(s: State, t: nat, c: Choice): Option<State>
    requires t < |s.threads|
  {
    var pc := s.threads[t].pc;
    if IsCloser(pc) then StepClose(s, t)
    else if InBody(pc) then StepBody(s, t, c)
    else if pc.RelLock? || pc.RelClear? || pc.RelCancel? || pc.RelUnlock? || pc.Trim? then StepRelease(s, t)
    else StepBegin(s, t, c)
  }

  /** A thread moves, or a caller (or a deadline) cancels an operation. */
  datatype Move = Run(t: nat, c: Choice) | Interrupt(t: nat)

  function Next(s: State, m: Move): Option<State> {
    if m.t >= |s.threads| then None
    else if m.Run? then Step(s, m.t, m.c)
    else if IsCloser(s.threads[m.t].pc) || s.threads[m.t].cancelled then None
    else Some(CancelThread(s, m.t))
  }

  predicate Initial(s: State) {
    && s.mu.None? && s.opMu.None? && !s.closed && s.store.None? && s.inflight.None?
    && s.openCount == 0 && s.closedStores == {} && s.tx.None?
    && s.begun == s.committedTx == s.rolledBack == 0 && !s.bad
    && forall i :: 0 <= i < |s.threads| ==>
         (s.threads[i].pc.OpStart? || s.threads[i].pc.ClLock?) && !s.threads[i].committed
  }
}
