/** The invariant of the session's lock protocol
    (internal/app/browsesession.go), kept by every statement of every thread. */
module SessionInvariant {
  import opened SessionSteps
  import opened Wrappers

  ghost predicate Global(s: State) {
    && !s.bad
    && (s.store.Some? ==> s.store.value < s.openCount && s.store.value !in s.closedStores)
    && (forall id :: id in s.closedStores ==> id < s.openCount)
    && s.begun == s.committedTx + s.rolledBack + (if s.tx.Some? then 1 else 0)
    && (s.mu.Some? ==> s.mu.value < |s.threads|)
    && (s.opMu.Some? ==> s.opMu.value < |s.threads|)
    && (s.inflight.Some? ==> s.inflight.value < |s.threads|)
    && (s.tx.Some? ==> s.tx.value < |s.threads| && InTx(s.threads[s.tx.value].pc))
    && (forall id :: 0 <= id < s.openCount && id !in s.closedStores ==> s.store == Some(id) || HeldLocally(s, id))
  }

  /** A freshly opened store that is not yet the session's. */
  predicate HeldLocally(s: State, id: nat) {
    && s.opMu.Some? && s.opMu.value < |s.threads|
    && Uninstalled(s.threads[s.opMu.value].pc)
    && s.threads[s.opMu.value].local == Some(id)
  }

  ghost predicate Local(s: State, t: nat)
    requires t < |s.threads|
  {
    var th := s.threads[t];
    && (HoldsMu(th.pc) <==> s.mu == Some(t))
    && (HoldsOpMu(th.pc) <==> s.opMu == Some(t))
    && (Registered(th.pc) <==> s.inflight == Some(t))
    && (Opening(th.pc) ==> s.store.None?)
    && (Uninstalled(th.pc) ==> th.local.Some? && th.local.value < s.openCount && th.local.value !in s.closedStores)
    && (InBody(th.pc) ==> s.store.Some? && th.local == s.store)
    && (th.pc.TxStream? || th.pc.TxCommit? ==> s.tx == Some(t))
    && (Marked(th.pc) ==> s.closed)
    && (th.pc.ClCancel? ==> s.inflight.None? || th.handle == s.inflight)
    && (Marked(th.pc) && !th.pc.ClCancel? && s.inflight.Some? && s.inflight.value < |s.threads| ==>
          s.threads[s.inflight.value].cancelled)
    && (Drained(th.pc) ==> s.store.None? && s.inflight.None? && s.tx.None?)
  }

  ghost predicate Inv(s: State) {
    && Global(s)
    && forall t {:trigger Local(s, t)} :: 0 <= t < |s.threads| ==> Local(s, t)
  }

  lemma InitialInv(s: State)
    requires Initial(s)
    ensures Inv(s)
  {
  }

  // Each statement keeps the invariant.

  lemma OwnersHoldOpMu(s: State)
    requires Inv(s)
    ensures s.inflight.Some? ==> s.opMu == s.inflight
    ensures s.tx.Some? ==> s.opMu == s.tx
  {
    if s.inflight.Some? { assert Local(s, s.inflight.value); }
    if s.tx.Some? { assert Local(s, s.tx.value); }
  }

  lemma StoreIsUsable(s: State, t: nat)
    requires Inv(s) && t < |s.threads| && InBody(s.threads[t].pc)
    ensures Touch(s, t) == s
  {
    assert Local(s, t);
  }

  lemma CancelKeeps(s: State, x: nat)
    requires Inv(s) && x < |s.threads|
    ensures Inv(CancelThread(s, x))
  {
    var s' := CancelThread(s, x);
    forall u | 0 <= u < |s'.threads| ensures Local(s', u) {
      assert Local(s, u);
    }
  }

  lemma LocalOf(s: State, t: nat)
    requires Inv(s) && t < |s.threads|
    ensures Local(s, t)
  {
  }

  /** A step that changes only the thread's own record. */
  lemma MoveKeeps(s: State, t: nat, th: Thread)
    requires Inv(s) && t < |s.threads|
    requires Local(s.(threads := s.threads[t := th]), t) == true
    requires s.threads[t].cancelled ==> th.cancelled
    requires s.tx == Some(t) ==> InTx(th.pc)
    requires !Uninstalled(s.threads[t].pc)
    ensures Inv(s.(threads := s.threads[t := th]))
  {
    var s' := s.(threads := s.threads[t := th]);
    forall u | 0 <= u < |s'.threads| ensures Local(s', u) {
      assert Local(s, u);
    }
  }

  /** A field that names a thread changes only between none and t. */
  predicate Own(before: Option<nat>, after: Option<nat>, t: nat) {
    before == after || ((before.None? || before == Some(t)) && (after.None? || after == Some(t)))
  }

  /** What thread t may do to the others' view of the session: take and release
      for itself, and change stores only under opMu. Once the session is closed
      nothing registers and no store is installed, and a transaction is begun
      only by the registered operation. */
  ghost predicate Framed(s: State, s': State, t: nat)
    requires t < |s.threads|
  {
    && |s'.threads| == |s.threads| && (forall u :: 0 <= u < |s.threads| && u != t ==> s'.threads[u] == s.threads[u])
    && (s.threads[t].cancelled ==> s'.threads[t].cancelled)
    && Own(s.mu, s'.mu, t) && Own(s.opMu, s'.opMu, t) && Own(s.inflight, s'.inflight, t) && Own(s.tx, s'.tx, t)
    && (s.closed ==> s'.closed) && s.openCount <= s'.openCount
    && (s'.store == s.store || (s.opMu == Some(t) && (s.closed ==> s'.store.None?)))
    && (s'.closedStores == s.closedStores || s.opMu == Some(t))
    && (s.closed ==> s'.inflight == s.inflight || s'.inflight.None?)
    && (s'.tx == s.tx || s'.tx.None? || s.inflight == Some(t))
  }

  /** A step within these bounds keeps the invariant of every other thread. */
  lemma StepKeeps(s: State, s': State, t: nat)
    requires Inv(s) && t < |s.threads| && Framed(s, s', t)
    requires Global(s') && Local(s', t)
    ensures Inv(s')
  {
    forall u | 0 <= u < |s'.threads| ensures Local(s', u) {
      assert Local(s, u);
    }
  }

  /** A step that leaves the stores and transactions alone. */
  lemma PlainKeeps(s: State, s': State, t: nat)
    requires Inv(s) && t < |s.threads| && Framed(s, s', t) && Local(s', t)
    requires s' == s.(threads := s'.threads, mu := s'.mu, opMu := s'.opMu, inflight := s'.inflight, closed := s'.closed)
    requires !Uninstalled(s.threads[t].pc) && (s.tx == Some(t) ==> InTx(s'.threads[t].pc))
    ensures Inv(s')
  {
    assert Local(s, t);
    forall id | 0 <= id < s.openCount && id !in s.closedStores ensures s.store == Some(id) || HeldLocally(s', id) {
      assert s.store == Some(id) || HeldLocally(s, id);
    }
    StepKeeps(s, s', t);
  }

  /** Two places that differ in nothing but a lock. */
  predicate SamePlace(pc: Pc, next: Pc) {
    && Registered(next) == Registered(pc) && Opening(next) == Opening(pc) && Uninstalled(next) == Uninstalled(pc)
    && !InBody(pc) && !InBody(next) && Marked(next) == Marked(pc) && !pc.ClCancel? && !next.ClCancel? && !Drained(next)
  }

  /** Every statement that takes mu. */
  lemma MuLockKeeps(s: State, t: nat, next: Pc)
    requires Inv(s) && t < |s.threads| && Lock(s, t, next).Some?
    requires SamePlace(s.threads[t].pc, next) && HoldsMu(next) && HoldsOpMu(next) == HoldsOpMu(s.threads[t].pc)
    ensures Inv(Lock(s, t, next).value)
  {
    assert Local(s, t);
    StepKeeps(s, Lock(s, t, next).value, t);
  }

  /** Every statement that takes opMu. */
  lemma OpLockKeeps(s: State, t: nat, next: Pc)
    requires Inv(s) && t < |s.threads| && LockOp(s, t, next).Some?
    requires SamePlace(s.threads[t].pc, next) && HoldsOpMu(next) && HoldsMu(next) == HoldsMu(s.threads[t].pc)
    ensures Inv(LockOp(s, t, next).value)
  {
    assert Local(s, t);
    StepKeeps(s, LockOp(s, t, next).value, t);
  }

  lemma OpRegisterKeeps(s: State, t: nat, c: Choice)
    requires Inv(s) && t < |s.threads| && s.threads[t].pc.OpRegister? && StepBegin(s, t, c).Some?
    ensures Inv(StepBegin(s, t, c).value)
  {
    assert Local(s, t);
    OwnersHoldOpMu(s);
    PlainKeeps(s, StepBegin(s, t, c).value, t);
  }

  lemma OpAbortKeeps(s: State, t: nat, c: Choice)
    requires Inv(s) && t < |s.threads| && s.threads[t].pc.OpAbort? && StepBegin(s, t, c).Some?
    ensures Inv(StepBegin(s, t, c).value)
  {
    assert Local(s, t);
    PlainKeeps(s, StepBegin(s, t, c).value, t);
  }

  lemma EnsCheckKeeps(s: State, t: nat, c: Choice)
    requires Inv(s) && t < |s.threads| && s.threads[t].pc.EnsCheck? && StepBegin(s, t, c).Some?
    ensures Inv(StepBegin(s, t, c).value)
  {
    assert Local(s, t);
    PlainKeeps(s, StepBegin(s, t, c).value, t);
  }

  lemma EnsOpenKeeps(s: State, t: nat, c: Choice)
    requires Inv(s) && t < |s.threads| && s.threads[t].pc.EnsOpen? && StepBegin(s, t, c).Some?
    ensures Inv(StepBegin(s, t, c).value)
  {
    assert Local(s, t);
    StepKeeps(s, StepBegin(s, t, c).value, t);
  }

  lemma EnsCtxGoesOn(s: State, t: nat)
    requires Inv(s) && t < |s.threads| && s.threads[t].pc.EnsCtx?
    ensures Inv(Goto(s, t, EnsRelock))
  {
    assert Local(s, t);
    StepKeeps(s, Goto(s, t, EnsRelock), t);
  }

  lemma EnsCtxCloses(s: State, t: nat)
    requires Inv(s) && t < |s.threads| && s.threads[t].pc.EnsCtx?
    ensures Inv(Goto(CloseLocal(s, t), t, RelLock))
  {
    assert Local(s, t);
    StepKeeps(s, Goto(CloseLocal(s, t), t, RelLock), t);
  }

  lemma EnsCtxKeeps(s: State, t: nat, c: Choice)
    requires Inv(s) && t < |s.threads| && s.threads[t].pc.EnsCtx? && StepBegin(s, t, c).Some?
    ensures Inv(StepBegin(s, t, c).value)
  {
    hide Inv, CloseLocal, Goto;
    if s.threads[t].cancelled {
      EnsCtxCloses(s, t);
    } else {
      EnsCtxGoesOn(s, t);
    }
  }

  lemma EnsInstallKeeps(s: State, t: nat, c: Choice)
    requires Inv(s) && t < |s.threads| && s.threads[t].pc.EnsInstall? && StepBegin(s, t, c).Some?
    ensures Inv(StepBegin(s, t, c).value)
  {
    assert Local(s, t);
    StepKeeps(s, StepBegin(s, t, c).value, t);
  }

  lemma UseKeeps(s: State, t: nat, c: Choice)
    requires Inv(s) && t < |s.threads| && s.threads[t].pc.Use? && StepBody(s, t, c).Some?
    ensures Inv(StepBody(s, t, c).value)
  {
    assert Local(s, t);
    StoreIsUsable(s, t);
    PlainKeeps(s, StepBody(s, t, c).value, t);
  }

  lemma TxBeginKeeps(s: State, t: nat, c: Choice)
    requires Inv(s) && t < |s.threads| && s.threads[t].pc.TxBegin? && StepBody(s, t, c).Some?
    ensures Inv(StepBody(s, t, c).value)
  {
    assert Local(s, t);
    StoreIsUsable(s, t);
    OwnersHoldOpMu(s);
    StepKeeps(s, StepBody(s, t, c).value, t);
  }

  lemma TxStreamKeeps(s: State, t: nat, c: Choice)
    requires Inv(s) && t < |s.threads| && s.threads[t].pc.TxStream? && StepBody(s, t, c).Some?
    ensures Inv(StepBody(s, t, c).value)
  {
    hide Inv;
    LocalOf(s, t);
    StoreIsUsable(s, t);
    var th := s.threads[t];
    if c.fail || (th.left == 0 && c.stop) {
      MoveKeeps(s, t, th.(pc := TxRollback));
    } else if th.left > 0 {
      MoveKeeps(s, t, th.(left := th.left - 1));
    } else {
      MoveKeeps(s, t, th.(pc := TxCommit));
    }
  }

  lemma TxCommitKeeps(s: State, t: nat, c: Choice)
    requires Inv(s) && t < |s.threads| && s.threads[t].pc.TxCommit? && StepBody(s, t, c).Some?
    ensures Inv(StepBody(s, t, c).value)
  {
    assert Local(s, t);
    StoreIsUsable(s, t);
    StepKeeps(s, StepBody(s, t, c).value, t);
  }

  lemma TxRollbackKeeps(s: State, t: nat, c: Choice)
    requires Inv(s) && t < |s.threads| && s.threads[t].pc.TxRollback? && StepBody(s, t, c).Some?
    ensures Inv(StepBody(s, t, c).value)
  {
    assert Local(s, t);
    OwnersHoldOpMu(s);
    StoreIsUsable(s, t);
    StepKeeps(s, StepBody(s, t, c).value, t);
  }

  lemma RelClearKeeps(s: State, t: nat)
    requires Inv(s) && t < |s.threads| && s.threads[t].pc.RelClear? && StepRelease(s, t).Some?
    ensures Inv(StepRelease(s, t).value)
  {
    assert Local(s, t);
    PlainKeeps(s, StepRelease(s, t).value, t);
  }

  lemma RelCancelKeeps(s: State, t: nat)
    requires Inv(s) && t < |s.threads| && s.threads[t].pc.RelCancel? && StepRelease(s, t).Some?
    ensures Inv(StepRelease(s, t).value)
  {
    assert Local(s, t);
    PlainKeeps(s, StepRelease(s, t).value, t);
  }

  lemma RelUnlockKeeps(s: State, t: nat)
    requires Inv(s) && t < |s.threads| && s.threads[t].pc.RelUnlock? && StepRelease(s, t).Some?
    ensures Inv(StepRelease(s, t).value)
  {
    assert Local(s, t);
    PlainKeeps(s, StepRelease(s, t).value, t);
  }

  lemma TrimKeeps(s: State, t: nat)
    requires Inv(s) && t < |s.threads| && s.threads[t].pc.Trim? && StepRelease(s, t).Some?
    ensures Inv(StepRelease(s, t).value)
  {
    assert Local(s, t);
    PlainKeeps(s, StepRelease(s, t).value, t);
  }

  lemma ClMarkKeeps(s: State, t: nat)
    requires Inv(s) && t < |s.threads| && s.threads[t].pc.ClMark? && StepClose(s, t).Some?
    ensures Inv(StepClose(s, t).value)
  {
    assert Local(s, t);
    PlainKeeps(s, StepClose(s, t).value, t);
  }

  lemma CancelledGoesOn(s: State, t: nat)
    requires Inv(s) && t < |s.threads| && s.threads[t].pc.ClCancel?
    requires s.inflight.Some? ==> s.inflight.value < |s.threads| && s.threads[s.inflight.value].cancelled
    ensures Inv(Goto(s, t, ClOpLock))
  {
    assert Local(s, t);
    PlainKeeps(s, Goto(s, t, ClOpLock), t);
  }

  lemma ClCancelKeeps(s: State, t: nat)
    requires Inv(s) && t < |s.threads| && s.threads[t].pc.ClCancel?
    ensures Inv(StepClose(s, t).value)
  {
    assert Local(s, t);
    hide Inv, Local;
    var h := s.threads[t].handle;
    if h.Some? && h.value < |s.threads| {
      CancelKeeps(s, h.value);
      CancelledGoesOn(CancelThread(s, h.value), t);
    } else {
      CancelledGoesOn(s, t);
    }
  }

  lemma ClCloseKeeps(s: State, t: nat)
    requires Inv(s) && t < |s.threads| && s.threads[t].pc.ClClose? && StepClose(s, t).Some?
    ensures Inv(StepClose(s, t).value)
  {
    assert Local(s, t);
    OwnersHoldOpMu(s);
    StepKeeps(s, StepClose(s, t).value, t);
  }

  lemma ClOpUnlockKeeps(s: State, t: nat)
    requires Inv(s) && t < |s.threads| && s.threads[t].pc.ClOpUnlock? && StepClose(s, t).Some?
    ensures Inv(StepClose(s, t).value)
  {
    assert Local(s, t);
    PlainKeeps(s, StepClose(s, t).value, t);
  }

  predicate TakesMu(pc: Pc) {
    pc.OpLockMu? || pc.EnsLock? || pc.EnsRelock? || pc.RelLock? || pc.ClLock? || pc.ClMuLock?
  }

  predicate TakesOpMu(pc: Pc) { pc.OpStart? || pc.ClOpLock? }

  function AfterLock(pc: Pc): Pc
    requires TakesMu(pc) || TakesOpMu(pc)
  {
    match pc
    case OpStart => OpLockMu
    case OpLockMu => OpRegister
    case EnsLock => EnsCheck
    case EnsRelock => EnsInstall
    case RelLock => RelClear
    case ClLock => ClMark
    case ClOpLock => ClMuLock
    case ClMuLock => ClClose
  }

  lemma LockingSteps(s: State, t: nat, c: Choice)
    requires t < |s.threads|
    ensures var pc := s.threads[t].pc;
      && (TakesMu(pc) ==> Step(s, t, c) == Lock(s, t, AfterLock(pc)))
      && (TakesOpMu(pc) ==> Step(s, t, c) == LockOp(s, t, AfterLock(pc)))
  {
    hide Lock, LockOp;
  }

  lemma LockKeeps(s: State, t: nat, c: Choice)
    requires Inv(s) && t < |s.threads| && Step(s, t, c).Some?
    requires TakesMu(s.threads[t].pc) || TakesOpMu(s.threads[t].pc)
    ensures Inv(Step(s, t, c).value)
  {
    LockingSteps(s, t, c);
    hide Inv, Step, Lock, LockOp;
    if TakesMu(s.threads[t].pc) {
      MuLockKeeps(s, t, AfterLock(s.threads[t].pc));
    } else {
      OpLockKeeps(s, t, AfterLock(s.threads[t].pc));
    }
  }

  lemma BeginKeeps(s: State, t: nat, c: Choice)
    requires Inv(s) && t < |s.threads| && StepBegin(s, t, c).Some?
    requires !TakesMu(s.threads[t].pc) && !TakesOpMu(s.threads[t].pc)
    ensures Inv(StepBegin(s, t, c).value)
  {
    hide Inv;
    match s.threads[t].pc
    case OpRegister => OpRegisterKeeps(s, t, c);
    case OpAbort => OpAbortKeeps(s, t, c);
    case EnsCheck => EnsCheckKeeps(s, t, c);
    case EnsOpen => EnsOpenKeeps(s, t, c);
    case EnsCtx => EnsCtxKeeps(s, t, c);
    case EnsInstall => EnsInstallKeeps(s, t, c);
    case _ =>
  }

  lemma BodyKeeps(s: State, t: nat, c: Choice)
    requires Inv(s) && t < |s.threads| && StepBody(s, t, c).Some?
    ensures Inv(StepBody(s, t, c).value)
  {
    hide Inv;
    match s.threads[t].pc
    case Use => UseKeeps(s, t, c);
    case TxBegin => TxBeginKeeps(s, t, c);
    case TxStream => TxStreamKeeps(s, t, c);
    case TxCommit => TxCommitKeeps(s, t, c);
    case TxRollback => TxRollbackKeeps(s, t, c);
    case _ =>
  }

  lemma ReleaseKeeps(s: State, t: nat)
    requires Inv(s) && t < |s.threads| && StepRelease(s, t).Some? && !TakesMu(s.threads[t].pc)
    ensures Inv(StepRelease(s, t).value)
  {
    hide Inv;
    match s.threads[t].pc
    case RelClear => RelClearKeeps(s, t);
    case RelCancel => RelCancelKeeps(s, t);
    case RelUnlock => RelUnlockKeeps(s, t);
    case Trim => TrimKeeps(s, t);
    case _ =>
  }

  lemma CloseKeeps(s: State, t: nat)
    requires Inv(s) && t < |s.threads| && StepClose(s, t).Some?
    requires !TakesMu(s.threads[t].pc) && !TakesOpMu(s.threads[t].pc)
    ensures Inv(StepClose(s, t).value)
  {
    hide Inv;
    match s.threads[t].pc
    case ClMark => ClMarkKeeps(s, t);
    case ClCancel => ClCancelKeeps(s, t);
    case ClClose => ClCloseKeeps(s, t);
    case ClOpUnlock => ClOpUnlockKeeps(s, t);
    case _ =>
  }

  lemma NextKeepsInv(s: State, m: Move)
    requires Inv(s) && Next(s, m).Some?
    ensures Inv(Next(s, m).value)
  {
    hide Inv, StepBegin, StepBody, StepRelease, StepClose;
    var t := m.t;
    var pc := s.threads[t].pc;
    if m.Interrupt? {
      CancelKeeps(s, t);
    } else if TakesMu(pc) || TakesOpMu(pc) {
      LockKeeps(s, t, m.c);
    } else if IsCloser(pc) {
      CloseKeeps(s, t);
    } else if InBody(pc) {
      BodyKeeps(s, t, m.c);
    } else if pc.RelClear? || pc.RelCancel? || pc.RelUnlock? || pc.Trim? {
      ReleaseKeeps(s, t);
    } else {
      BeginKeeps(s, t, m.c);
    }
  }
}
