/** How the session's operations end (internal/app/browsesession.go): which
    statement gives up, opens, begins, commits or trims, and what has been
    committed at any point of a run. */
module SessionOutcomes {
  import opened SessionInvariant
  import opened SessionSteps
  import opened BrowseSession
  import opened Wrappers

  /** An operation that has registered and not yet got its store. */
  predicate Preparing(pc: Pc) {
    pc.EnsLock? || pc.EnsCheck? || pc.EnsOpen? || pc.EnsCtx? || pc.EnsRelock? || pc.EnsInstall?
  }

  /** Why preparing stops: the session was closed, the store does not open, or the
      caller has cancelled by then. */
  predicate Refused(s: State, t: nat, c: Choice)
    requires t < |s.threads|
  {
    var pc := s.threads[t].pc;
    || ((pc.EnsCheck? || pc.EnsInstall?) && s.closed)
    || (pc.EnsOpen? && c.fail)
    || (pc.EnsCtx? && s.threads[t].cancelled)
  }

  /** What a step of an operation that is being prepared leads to. */
  predicate PreparingMeans(s: State, s': State, t: nat, c: Choice)
    requires t < |s.threads| && |s'.threads| == |s.threads|
  {
    var pc, to := s.threads[t].pc, s'.threads[t].pc;
    && (pc.OpRegister? ==> if s.closed then to.OpAbort? && s'.inflight == s.inflight
                           else to.EnsLock? && s'.inflight == Some(t))
    && (Preparing(pc) && Refused(s, t, c) ==> to.RelLock? && s'.store == s.store)
    && (Preparing(pc) && !Refused(s, t, c) ==> Preparing(to) || to.Use?)
    && (pc.EnsCheck? && !s.closed ==> (to.Use? <==> s.store.Some?) && (to.EnsOpen? <==> s.store.None?))
    && (to.Use? ==> s'.threads[t].local == s'.store && s'.store.Some?)
    && s'.openCount == s.openCount + (if pc.EnsOpen? && !c.fail then 1 else 0)
  }

  /** What a step of an operation with its store leads to. */
  predicate BodyMeans(s: State, s': State, t: nat, c: Choice)
    requires t < |s.threads| && |s'.threads| == |s.threads|
  {
    var th, th' := s.threads[t], s'.threads[t];
    && (th.pc.Use? ==> if th.indexing && !c.stop then th'.pc.TxBegin? else th'.pc.RelLock?)
    && (th.pc.TxBegin? ==> if c.fail then th'.pc.RelLock? else th'.pc.TxStream? && s'.tx == Some(t))
    && (th.pc.TxStream? ==>
          if c.fail then th'.pc.TxRollback?
          else if th.left > 0 then th'.pc.TxStream? && th'.left == th.left - 1
          else if c.stop then th'.pc.TxRollback?
          else th'.pc.TxCommit?)
    && (th.pc.TxCommit? ==> if c.fail then th'.pc.TxRollback? else th'.pc.RelLock? && th'.committed)
    && (th.pc.TxRollback? ==> th'.pc.RelLock?)
    && (InTx(th.pc) && !InTx(th'.pc) ==> s'.tx.None?)
  }

  /** The only statements that count: a begin that does not fail, a commit that
      does not, and for every other end one rollback. */
  predicate CountsMean(s: State, s': State, t: nat, c: Choice)
    requires t < |s.threads| && |s'.threads| == |s.threads|
  {
    var th, th' := s.threads[t], s'.threads[t];
    && s'.begun == s.begun + (if th.pc.TxBegin? && !c.fail then 1 else 0)
    && s'.committedTx == s.committedTx + (if th.pc.TxCommit? && !c.fail then 1 else 0)
    && s'.rolledBack == s.rolledBack
                        + (if (th.pc.TxCommit? && c.fail) || (th.pc.TxRollback? && s.tx.Some?) then 1 else 0)
    && (th'.committed <==> th.committed || (th.pc.TxCommit? && !c.fail))
    && (th'.left != th.left ==> th.pc.TxStream? && th'.left == th.left - 1)
    && th'.indexing == th.indexing && th'.large == th.large
  }

  /** What a step on the way out, or of a Close, leads to. */
  predicate EndMeans(s: State, s': State, t: nat)
    requires t < |s.threads| && |s'.threads| == |s.threads|
  {
    var th, th' := s.threads[t], s'.threads[t];
    && (th.pc.RelClear? ==> s'.inflight.None? && th'.pc.RelCancel?)
    && (th.pc.RelUnlock? ==> s'.opMu.None? && if th.committed && th.large then th'.pc.Trim? else th'.pc.OpDone?)
    && (th.pc.OpAbort? ==> s'.opMu.None? && th'.pc.OpDone?)
    && (th.pc.Trim? ==> th'.pc.OpDone?)
    && (th.pc.ClMark? ==> s'.closed && th'.handle == s.inflight)
    && (th.pc.ClCancel? ==> forall u :: 0 <= u < |s.threads| ==>
          (s'.threads[u].cancelled <==> s.threads[u].cancelled || th.handle == Some(u)))
    && (th.pc.ClClose? ==> s'.store.None? && s'.closedStores == s.closedStores + StoreOf(s))
    && (s'.closed && !s.closed ==> th.pc.ClMark?)
  }

  function StoreOf(s: State): set<nat> { if s.store.Some? then {s.store.value} else {} }

  /** The other threads are left alone, but for a cancellation. */
  predicate OthersKept(s: State, s': State, t: nat) {
    && |s'.threads| == |s.threads|
    && forall u :: 0 <= u < |s.threads| && u != t ==>
         s'.threads[u] == s.threads[u] || s'.threads[u] == s.threads[u].(cancelled := true)
  }

  /** What one step leads to, kind by kind. */
  predicate Means(s: State, s': State, t: nat, c: Choice)
    requires t < |s.threads|
  {
    && OthersKept(s, s', t)
    && PreparingMeans(s, s', t, c) && BodyMeans(s, s', t, c) && CountsMean(s, s', t, c) && EndMeans(s, s', t)
    && (Sound(s.threads[t]) ==> Sound(s'.threads[t]))
  }

  /** The statement that runs under the lock just taken. */
  function UnderLock(pc: Pc): Pc {
    match pc
    case OpStart => OpLockMu
    case OpLockMu => OpRegister
    case EnsLock => EnsCheck
    case EnsRelock => EnsInstall
    case RelLock => RelClear
    case ClLock => ClMark
    case ClOpLock => ClMuLock
    case ClMuLock => ClClose
    case _ => pc
  }

  lemma LockLeadsOn(s: State, t: nat, c: Choice)
    requires t < |s.threads| && Step(s, t, c).Some?
    ensures TakesMu(s.threads[t].pc) ==> Step(s, t, c) == Lock(s, t, UnderLock(s.threads[t].pc))
    ensures TakesOpMu(s.threads[t].pc) ==> Step(s, t, c) == LockOp(s, t, UnderLock(s.threads[t].pc))
  {
    hide StepBody, Lock, LockOp;
  }

  lemma LockedMeans(s: State, s': State, t: nat, c: Choice)
    requires t < |s.threads| && (TakesMu(s.threads[t].pc) || TakesOpMu(s.threads[t].pc))
    requires s' == Goto(s.(mu := s'.mu, opMu := s'.opMu), t, UnderLock(s.threads[t].pc))
    ensures Means(s, s', t, c)
  {
  }

  lemma LockMeans(s: State, t: nat, c: Choice)
    requires t < |s.threads| && (TakesMu(s.threads[t].pc) || TakesOpMu(s.threads[t].pc)) && Step(s, t, c).Some?
    ensures Means(s, Step(s, t, c).value, t, c)
  {
    LockLeadsOn(s, t, c);
    hide Step, Means, UnderLock;
    LockedMeans(s, Step(s, t, c).value, t, c);
  }

  lemma OpRegisterMeans(s: State, t: nat, c: Choice)
    requires t < |s.threads| && Local(s, t) && s.threads[t].pc.OpRegister? && StepBegin(s, t, c).Some?
    ensures Means(s, StepBegin(s, t, c).value, t, c)
  {
  }

  lemma OpAbortMeans(s: State, t: nat, c: Choice)
    requires t < |s.threads| && Local(s, t) && s.threads[t].pc.OpAbort? && StepBegin(s, t, c).Some?
    ensures Means(s, StepBegin(s, t, c).value, t, c)
  {
  }

  lemma EnsCheckMeans(s: State, t: nat, c: Choice)
    requires t < |s.threads| && Local(s, t) && s.threads[t].pc.EnsCheck? && StepBegin(s, t, c).Some?
    ensures Means(s, StepBegin(s, t, c).value, t, c)
  {
  }

  lemma EnsOpenMeans(s: State, t: nat, c: Choice)
    requires t < |s.threads| && Local(s, t) && s.threads[t].pc.EnsOpen? && StepBegin(s, t, c).Some?
    ensures Means(s, StepBegin(s, t, c).value, t, c)
  {
  }

  lemma EnsCtxMeans(s: State, t: nat, c: Choice)
    requires t < |s.threads| && Local(s, t) && s.threads[t].pc.EnsCtx? && StepBegin(s, t, c).Some?
    ensures Means(s, StepBegin(s, t, c).value, t, c)
  {
  }

  lemma EnsInstallMeans(s: State, t: nat, c: Choice)
    requires t < |s.threads| && Local(s, t) && s.threads[t].pc.EnsInstall? && StepBegin(s, t, c).Some?
    ensures Means(s, StepBegin(s, t, c).value, t, c)
  {
  }

  lemma UseMeans(s: State, t: nat, c: Choice)
    requires t < |s.threads| && Local(s, t) && s.threads[t].pc.Use? && StepBody(s, t, c).Some?
    ensures Means(s, StepBody(s, t, c).value, t, c)
  {
  }

  lemma TxBeginMeans(s: State, t: nat, c: Choice)
    requires t < |s.threads| && Local(s, t) && s.threads[t].pc.TxBegin? && StepBody(s, t, c).Some?
    ensures Means(s, StepBody(s, t, c).value, t, c)
  {
  }

  lemma TxStreamMeans(s: State, t: nat, c: Choice)
    requires t < |s.threads| && Local(s, t) && s.threads[t].pc.TxStream? && StepBody(s, t, c).Some?
    ensures Means(s, StepBody(s, t, c).value, t, c)
  {
  }

  lemma TxCommitMeans(s: State, t: nat, c: Choice)
    requires t < |s.threads| && Local(s, t) && s.threads[t].pc.TxCommit? && StepBody(s, t, c).Some?
    ensures Means(s, StepBody(s, t, c).value, t, c)
  {
  }

  lemma TxRollbackMeans(s: State, t: nat, c: Choice)
    requires t < |s.threads| && Local(s, t) && s.threads[t].pc.TxRollback? && StepBody(s, t, c).Some?
    ensures Means(s, StepBody(s, t, c).value, t, c)
  {
  }

  lemma ReleasingMeans(s: State, t: nat, c: Choice)
    requires t < |s.threads| && Local(s, t) && StepRelease(s, t).Some?
    requires s.threads[t].pc.RelClear? || s.threads[t].pc.RelCancel?
    ensures Means(s, StepRelease(s, t).value, t, c)
  {
  }

  lemma ReleasedMeans(s: State, t: nat, c: Choice)
    requires t < |s.threads| && Local(s, t) && StepRelease(s, t).Some?
    requires s.threads[t].pc.RelUnlock? || s.threads[t].pc.Trim?
    ensures Means(s, StepRelease(s, t).value, t, c)
  {
  }

  lemma CloserMeans(s: State, t: nat, c: Choice)
    requires t < |s.threads| && Local(s, t) && StepClose(s, t).Some?
    requires s.threads[t].pc.ClMark? || s.threads[t].pc.ClOpUnlock?
    ensures Means(s, StepClose(s, t).value, t, c)
  {
  }

  lemma ClCloseMeans(s: State, t: nat, c: Choice)
    requires t < |s.threads| && Local(s, t) && Global(s) && s.threads[t].pc.ClClose? && StepClose(s, t).Some?
    ensures Means(s, StepClose(s, t).value, t, c)
  {
  }

  lemma ClCancelShape(s: State, t: nat)
    requires t < |s.threads| && s.threads[t].pc.ClCancel?
    ensures var s', h := StepClose(s, t).value, s.threads[t].handle;
      && s' == s.(threads := s'.threads)
      && var cancelled := if h.Some? && h.value < |s.threads| then CancelThread(s, h.value).threads else s.threads;
         s'.threads == cancelled[t := cancelled[t].(pc := ClOpLock)]
  {
  }

  lemma ClCancelMeans(s: State, t: nat, c: Choice)
    requires t < |s.threads| && Local(s, t) && s.threads[t].pc.ClCancel? && StepClose(s, t).Some?
    ensures Means(s, StepClose(s, t).value, t, c)
  {
    ClCancelShape(s, t);
    hide StepClose, Local;
  }

  /** Statement by statement, what a thread does with what the world decides. */
  lemma StepMeans(s: State, t: nat, c: Choice)
    requires Inv(s) && t < |s.threads| && Step(s, t, c).Some?
    ensures Means(s, Step(s, t, c).value, t, c)
  {
    assert Local(s, t) && Global(s);
    hide StepBegin, StepBody, StepRelease, StepClose, Inv, Local, Global, Means;
    match s.threads[t].pc
    case OpRegister => OpRegisterMeans(s, t, c);
    case OpAbort => OpAbortMeans(s, t, c);
    case EnsCheck => EnsCheckMeans(s, t, c);
    case EnsOpen => EnsOpenMeans(s, t, c);
    case EnsCtx => EnsCtxMeans(s, t, c);
    case EnsInstall => EnsInstallMeans(s, t, c);
    case Use => UseMeans(s, t, c);
    case TxBegin => TxBeginMeans(s, t, c);
    case TxStream => TxStreamMeans(s, t, c);
    case TxCommit => TxCommitMeans(s, t, c);
    case TxRollback => TxRollbackMeans(s, t, c);
    case RelClear | RelCancel => ReleasingMeans(s, t, c);
    case RelUnlock | Trim => ReleasedMeans(s, t, c);
    case ClMark | ClOpUnlock => CloserMeans(s, t, c);
    case ClCancel => ClCancelMeans(s, t, c);
    case ClClose => ClCloseMeans(s, t, c);
    case OpDone | ClDone => FinishedStays(s, t, c);
    case _ => LockMeans(s, t, c);
  }

  lemma FinishedStays(s: State, t: nat, c: Choice)
    requires t < |s.threads| && Finished(s.threads[t].pc)
    ensures Step(s, t, c).None?
  {
  }

  /** A thread that waits for a lock gets it when it is free. */
  lemma LocksAreTaken(s: State, t: nat, c: Choice)
    requires t < |s.threads| && (TakesMu(s.threads[t].pc) || TakesOpMu(s.threads[t].pc))
    ensures TakesMu(s.threads[t].pc) ==> (Step(s, t, c).Some? <==> s.mu.None?)
    ensures TakesOpMu(s.threads[t].pc) ==> (Step(s, t, c).Some? <==> s.opMu.None?)
  {
  }

  // What has been committed.

  function Committed(ths: seq<Thread>): set<nat> { set t | 0 <= t < |ths| && ths[t].committed }

  predicate Past(pc: Pc) {
    pc.RelLock? || pc.RelClear? || pc.RelCancel? || pc.RelUnlock? || pc.Trim? || pc.OpDone?
  }

  /** Only an indexing operation is ever in a transaction, and it commits only at
      the end of its stream; only one that has committed a large index trims. */
  predicate Sound(th: Thread) {
    && (th.pc.TxBegin? || InTx(th.pc) || th.committed ==> th.indexing)
    && (th.pc.TxCommit? || th.committed ==> th.left == 0)
    && (th.committed ==> Past(th.pc))
    && (th.pc.Trim? ==> th.committed && th.large)
  }

  predicate Outcomes(s: State) {
    && (forall t :: 0 <= t < |s.threads| ==> Sound(s.threads[t]))
    && s.committedTx == |Committed(s.threads)|
  }

  lemma CommittedAdds(a: seq<Thread>, b: seq<Thread>, t: nat)
    requires |a| == |b| && t < |a| && forall u :: 0 <= u < |a| && u != t ==> a[u].committed == b[u].committed
    requires a[t].committed ==> b[t].committed
    ensures |Committed(b)| == |Committed(a)| + if b[t].committed && !a[t].committed then 1 else 0
  {
    assert Committed(b) == Committed(a) + if b[t].committed then {t} else {};
  }

  lemma OutcomesStep(s: State, m: Move)
    requires Inv(s) && Outcomes(s) && Next(s, m).Some?
    ensures Outcomes(Next(s, m).value)
  {
    var s' := Next(s, m).value;
    if m.Run? {
      StepMeans(s, m.t, m.c);
      assert Sound(s.threads[m.t]);
    }
    hide Inv, Step;
    CommittedAdds(s.threads, s'.threads, m.t);
  }

  /** In every run of calls that have not committed yet, as many transactions were
      committed as there are operations that committed; each of these indexed,
      and had streamed every node it had. */
  lemma {:induction false} CommitsAreWhole(s: State, ms: seq<Move>)
    requires Inv(s) && Outcomes(s) && RunAll(s, ms).Some?
    ensures var s' := RunAll(s, ms).value;
      && s'.committedTx == |set t | 0 <= t < |s'.threads| && s'.threads[t].committed|
      && forall t :: 0 <= t < |s'.threads| ==>
           && (s'.threads[t].committed ==> s'.threads[t].indexing && s'.threads[t].left == 0)
           && (s'.threads[t].pc.Trim? ==> s'.threads[t].committed && s'.threads[t].large)
    decreases |ms|
  {
    if ms != [] {
      NextKeepsInv(s, ms[0]);
      OutcomesStep(s, ms[0]);
      CommitsAreWhole(Next(s, ms[0]).value, ms[1..]);
    }
  }

  lemma InitialOutcomes(s: State)
    requires Initial(s)
    ensures Inv(s) && Outcomes(s)
  {
    InitialInv(s);
    assert Committed(s.threads) == {};
  }
}
