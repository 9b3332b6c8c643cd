/** What the session's lock protocol (internal/app/browsesession.go) promises
    over whole runs: safety, closing for good, no deadlock, and an end. */
module BrowseSession {
  import opened SessionInvariant
  import opened SessionSteps
  import opened Wrappers

  function RunAll(s: State, ms: seq<Move>): Option<State>
    decreases |ms|
  {
    if ms == [] then Some(s)
    else
      var s' := Next(s, ms[0]);
      if s'.None? then None else RunAll(s'.value, ms[1..])
  }

  lemma {:induction false} RunKeepsInv(s: State, ms: seq<Move>)
    requires Inv(s) && RunAll(s, ms).Some?
    ensures Inv(RunAll(s, ms).value)
    decreases |ms|
  {
    if ms != [] {
      NextKeepsInv(s, ms[0]);
      RunKeepsInv(Next(s, ms[0]).value, ms[1..]);
    }
  }

  predicate Live(s: State, id: nat) { id < s.openCount && id !in s.closedStores }

  /** For as long as an operation's body runs, its store is open. */
  predicate BodyHasStore(s: State, t: nat)
    requires t < |s.threads|
  {
    InBody(s.threads[t].pc) ==> s.threads[t].local.Some? && Live(s, s.threads[t].local.value)
  }

  /** The deferred calls run last in, first out: the trim holds no lock. */
  predicate TrimIsUnlocked(s: State, t: nat)
    requires t < |s.threads|
  {
    s.threads[t].pc.Trim? ==> s.mu != Some(t) && s.opMu != Some(t) && s.tx != Some(t)
  }

  /** In every interleaving at most one store is open, no store is used after it
      was closed or closed twice, a running operation's store stays open, and
      every transaction begun has ended in one commit or one rollback unless the
      holder of opMu is still in it. */
  lemma Safety(s0: State, ms: seq<Move>)
    requires Initial(s0) && RunAll(s0, ms).Some?
    ensures var s := RunAll(s0, ms).value;
      && !s.bad
      && (forall i: nat, j: nat :: Live(s, i) && Live(s, j) ==> i == j)
      && s.begun == s.committedTx + s.rolledBack + (if s.tx.Some? then 1 else 0)
      && (s.tx.Some? ==> s.opMu == s.tx)
      && (forall t :: 0 <= t < |s.threads| ==> BodyHasStore(s, t) && TrimIsUnlocked(s, t))
  {
    InitialInv(s0);
    RunKeepsInv(s0, ms);
    var s := RunAll(s0, ms).value;
    OwnersHoldOpMu(s);
    if s.opMu.Some? {
      assert Local(s, s.opMu.value);
    }
    assert forall i: nat :: Live(s, i) ==> s.store == Some(i) || HeldLocally(s, i);
    forall t | 0 <= t < |s.threads| ensures BodyHasStore(s, t) && TrimIsUnlocked(s, t) {
      assert Local(s, t);
    }
  }

  /** Some Close has got past closing the store. */
  ghost predicate CloseReturned(s: State) {
    exists t :: 0 <= t < |s.threads| && s.threads[t].pc.ClDone?
  }

  lemma DrainedState(s: State)
    requires Inv(s) && CloseReturned(s)
    ensures s.store.None? && s.tx.None? && s.inflight.None? && s.closed
    ensures forall id: nat :: !Live(s, id)
    ensures forall t :: 0 <= t < |s.threads| ==> !Registered(s.threads[t].pc)
  {
    var t :| 0 <= t < |s.threads| && s.threads[t].pc.ClDone?;
    assert Local(s, t);
    forall u | 0 <= u < |s.threads| ensures !Registered(s.threads[u].pc) {
      assert Local(s, u);
    }
    if s.opMu.Some? {
      assert !Registered(s.threads[s.opMu.value].pc);
    }
    assert forall id: nat :: Live(s, id) ==> s.store == Some(id) || HeldLocally(s, id);
  }

  lemma DrainedStep(s: State, m: Move)
    requires Inv(s) && CloseReturned(s) && Next(s, m).Some?
    ensures CloseReturned(Next(s, m).value) && Next(s, m).value.openCount == s.openCount
  {
    DrainedState(s);
    var t :| 0 <= t < |s.threads| && s.threads[t].pc.ClDone?;
    var s' := Next(s, m).value;
    assert |s'.threads| == |s.threads|;
    assert s'.threads[t].pc.ClDone?;
  }

  /** Once any Close has returned, no store and no transaction is open, and none
      is ever opened again, whatever runs afterwards. */
  lemma {:induction false} ClosedForGood(s: State, ms: seq<Move>)
    requires Inv(s) && CloseReturned(s) && RunAll(s, ms).Some?
    ensures var s' := RunAll(s, ms).value;
      && s'.store.None? && s'.tx.None? && s'.openCount == s.openCount
      && forall id: nat :: !Live(s', id)
    decreases |ms|
  {
    DrainedState(s);
    if ms != [] {
      NextKeepsInv(s, ms[0]);
      DrainedStep(s, ms[0]);
      ClosedForGood(Next(s, ms[0]).value, ms[1..]);
    }
  }

  /** What a Close that waits for opMu waits for: an operation already
      cancelled, one that has not registered and will see `closed`, one that is
      only releasing, or another closer. No thread holding mu waits for opMu. */
  lemma WaitingCloseIsServed(s: State, t: nat)
    requires Inv(s) && t < |s.threads| && s.threads[t].pc.ClOpLock? && s.opMu.Some?
    ensures var h := s.threads[s.opMu.value];
      || (Registered(h.pc) && h.cancelled)
      || ((h.pc.OpLockMu? || h.pc.OpRegister? || h.pc.OpAbort?) && s.closed)
      || h.pc.RelCancel? || h.pc.RelUnlock?
      || IsCloser(h.pc)
    ensures forall u :: 0 <= u < |s.threads| && s.mu == Some(u) ==>
              !s.threads[u].pc.OpStart? && !s.threads[u].pc.ClOpLock?
  {
    assert Local(s, t);
    assert Local(s, s.opMu.value);
    OwnersHoldOpMu(s);
    if s.mu.Some? {
      assert Local(s, s.mu.value);
    }
  }

  predicate CanRun(s: State, t: nat)
    requires t < |s.threads|
  {
    Step(s, t, Choice(false, false)).Some?
  }

  /** No deadlock: while some thread has not finished, some thread can move. */
  lemma SomeoneCanRun(s: State, t: nat) returns (u: nat)
    requires Inv(s) && t < |s.threads| && !Finished(s.threads[t].pc)
    ensures u < |s.threads| && CanRun(s, u)
  {
    if s.mu.Some? {
      u := s.mu.value;
    } else if s.opMu.Some? {
      u := s.opMu.value;
    } else {
      u := t;
    }
    assert Local(s, u);
  }

  function PcRank(pc: Pc): nat {
    match pc
    case OpStart => 20 case OpLockMu => 19 case OpRegister => 18 case OpAbort => 2
    case EnsLock => 17 case EnsCheck => 16 case EnsOpen => 15 case EnsCtx => 14
    case EnsRelock => 13 case EnsInstall => 12
    case Use => 11 case TxBegin => 10 case TxStream => 9 case TxCommit => 8 case TxRollback => 7
    case RelLock => 6 case RelClear => 5 case RelCancel => 4 case RelUnlock => 3 case Trim => 1 case OpDone => 0
    case ClLock => 7 case ClMark => 6 case ClCancel => 5 case ClOpLock => 4
    case ClMuLock => 3 case ClClose => 2 case ClOpUnlock => 1 case ClDone => 0
  }

  lemma BeginRanks()
    ensures PcRank(OpStart) == 20 && PcRank(OpLockMu) == 19 && PcRank(OpRegister) == 18 && PcRank(EnsLock) == 17
    ensures PcRank(EnsCheck) == 16
    ensures PcRank(EnsOpen) == 15 && PcRank(EnsCtx) == 14 && PcRank(EnsRelock) == 13 && PcRank(EnsInstall) == 12
  {
  }

  lemma BodyRanks()
    ensures PcRank(Use) == 11 && PcRank(TxBegin) == 10 && PcRank(TxStream) == 9 && PcRank(TxCommit) == 8
    ensures PcRank(TxRollback) == 7
  {
  }

  lemma ReleaseRanks()
    ensures PcRank(OpAbort) == 2 && PcRank(RelLock) == 6 && PcRank(RelClear) == 5 && PcRank(RelCancel) == 4
    ensures PcRank(RelUnlock) == 3
    ensures PcRank(Trim) == 1 && PcRank(OpDone) == 0
  {
  }

  lemma CloseRanks()
    ensures PcRank(ClLock) == 7 && PcRank(ClMark) == 6 && PcRank(ClCancel) == 5 && PcRank(ClOpLock) == 4
    ensures PcRank(ClMuLock) == 3
    ensures PcRank(ClClose) == 2 && PcRank(ClOpUnlock) == 1 && PcRank(ClDone) == 0
  {
  }

  function Rank(th: Thread): nat {
    PcRank(th.pc) + th.left + if th.cancelled then 0 else 1
  }

  function TotalRank(ths: seq<Thread>): nat {
    if ths == [] then 0 else Rank(ths[0]) + TotalRank(ths[1..])
  }

  lemma {:induction false} RankDrops(a: seq<Thread>, b: seq<Thread>, t: nat)
    requires |a| == |b| && t < |a| && Rank(b[t]) < Rank(a[t])
    requires forall i :: 0 <= i < |a| ==> Rank(b[i]) <= Rank(a[i])
    ensures TotalRank(b) < TotalRank(a)
  {
    if t == 0 {
      RankNotUp(a[1..], b[1..]);
    } else {
      RankDrops(a[1..], b[1..], t - 1);
    }
  }

  lemma {:induction false} RankNotUp(a: seq<Thread>, b: seq<Thread>)
    requires |a| == |b| && forall i :: 0 <= i < |a| ==> Rank(b[i]) <= Rank(a[i])
    ensures TotalRank(b) <= TotalRank(a)
  {
    if a != [] {
      RankNotUp(a[1..], b[1..]);
    }
  }

  /** Only the moving thread changes, and its rank falls, except that another
      may get cancelled. */
  predicate Falls(a: seq<Thread>, b: seq<Thread>, t: nat) {
    && |a| == |b| && t < |a| && Rank(b[t]) < Rank(a[t])
    && forall i :: 0 <= i < |a| && i != t ==> b[i] == a[i] || b[i] == a[i].(cancelled := true)
  }

  lemma BeginFalls(s: State, t: nat, c: Choice)
    requires t < |s.threads| && StepBegin(s, t, c).Some?
    ensures Falls(s.threads, StepBegin(s, t, c).value.threads, t)
  {
    hide PcRank;
    BeginRanks();
    ReleaseRanks();
    BodyRanks();
    var s' := StepBegin(s, t, c).value;
    match s.threads[t].pc
    case OpStart => assert Falls(s.threads, s'.threads, t);
    case OpLockMu => assert Falls(s.threads, s'.threads, t);
    case OpRegister => assert Falls(s.threads, s'.threads, t);
    case OpAbort => assert Falls(s.threads, s'.threads, t);
    case EnsLock => assert Falls(s.threads, s'.threads, t);
    case EnsCheck => assert Falls(s.threads, s'.threads, t);
    case EnsOpen => assert Falls(s.threads, s'.threads, t);
    case EnsCtx => assert Falls(s.threads, s'.threads, t);
    case EnsRelock => assert Falls(s.threads, s'.threads, t);
    case EnsInstall => assert Falls(s.threads, s'.threads, t);
  }

  lemma BodyFalls(s: State, t: nat, c: Choice)
    requires t < |s.threads| && StepBody(s, t, c).Some?
    ensures Falls(s.threads, StepBody(s, t, c).value.threads, t)
  {
    hide PcRank;
    BodyRanks();
    ReleaseRanks();
    var s' := StepBody(s, t, c).value;
    match s.threads[t].pc
    case Use => assert Falls(s.threads, s'.threads, t);
    case TxBegin => assert Falls(s.threads, s'.threads, t);
    case TxStream => assert Falls(s.threads, s'.threads, t);
    case TxCommit => assert Falls(s.threads, s'.threads, t);
    case TxRollback => assert Falls(s.threads, s'.threads, t);
  }

  lemma ReleaseFalls(s: State, t: nat)
    requires t < |s.threads| && StepRelease(s, t).Some?
    ensures Falls(s.threads, StepRelease(s, t).value.threads, t)
  {
    hide PcRank;
    ReleaseRanks();
    var s' := StepRelease(s, t).value;
    match s.threads[t].pc
    case RelLock => assert Falls(s.threads, s'.threads, t);
    case RelClear => assert Falls(s.threads, s'.threads, t);
    case RelCancel => assert Falls(s.threads, s'.threads, t);
    case RelUnlock => assert Falls(s.threads, s'.threads, t);
    case Trim => assert Falls(s.threads, s'.threads, t);
  }

  lemma CloseFalls(s: State, t: nat)
    requires t < |s.threads| && StepClose(s, t).Some?
    ensures Falls(s.threads, StepClose(s, t).value.threads, t)
  {
    hide PcRank;
    CloseRanks();
    var s' := StepClose(s, t).value;
    match s.threads[t].pc
    case ClLock => assert Falls(s.threads, s'.threads, t);
    case ClMark => assert Falls(s.threads, s'.threads, t);
    case ClCancel => assert Falls(s.threads, s'.threads, t);
    case ClOpLock => assert Falls(s.threads, s'.threads, t);
    case ClMuLock => assert Falls(s.threads, s'.threads, t);
    case ClClose => assert Falls(s.threads, s'.threads, t);
    case ClOpUnlock => assert Falls(s.threads, s'.threads, t);
  }

  lemma NextDropsRank(s: State, m: Move)
    requires Next(s, m).Some?
    ensures TotalRank(Next(s, m).value.threads) < TotalRank(s.threads)
  {
    hide StepBegin, StepBody, StepRelease, StepClose, PcRank;
    var t := m.t;
    if m.Run? {
      var pc := s.threads[t].pc;
      if IsCloser(pc) {
        CloseFalls(s, t);
      } else if InBody(pc) {
        BodyFalls(s, t, m.c);
      } else if pc.RelLock? || pc.RelClear? || pc.RelCancel? || pc.RelUnlock? || pc.Trim? {
        ReleaseFalls(s, t);
      } else {
        BeginFalls(s, t, m.c);
      }
    }
    RankDrops(s.threads, Next(s, m).value.threads, t);
  }

  /** Every run is finite: its length is bounded by the threads it starts with. */
  lemma {:induction false} RunsAreBounded(s: State, ms: seq<Move>)
    requires RunAll(s, ms).Some?
    ensures |ms| + TotalRank(RunAll(s, ms).value.threads) <= TotalRank(s.threads)
    decreases |ms|
  {
    if ms != [] {
      NextDropsRank(s, ms[0]);
      RunsAreBounded(Next(s, ms[0]).value, ms[1..]);
    }
  }

  /** Where a run ends: nothing can move only when every operation and every
      Close has returned, and then both locks are free and no transaction is
      open; with a Close among the threads, no store is open either. */
  lemma RunsEndClean(s0: State, ms: seq<Move>)
    requires Initial(s0) && RunAll(s0, ms).Some?
    requires forall t :: 0 <= t < |RunAll(s0, ms).value.threads| ==> !CanRun(RunAll(s0, ms).value, t)
    ensures var s := RunAll(s0, ms).value;
      && (forall t :: 0 <= t < |s.threads| ==> Finished(s.threads[t].pc))
      && s.mu.None? && s.opMu.None? && s.tx.None? && s.begun == s.committedTx + s.rolledBack
      && ((exists t :: 0 <= t < |s.threads| && IsCloser(s.threads[t].pc)) ==> forall id: nat :: !Live(s, id))
  {
    var s := RunAll(s0, ms).value;
    InitialInv(s0);
    RunKeepsInv(s0, ms);
    forall t | 0 <= t < |s.threads| ensures Finished(s.threads[t].pc) {
      if !Finished(s.threads[t].pc) {
        var u := SomeoneCanRun(s, t);
      }
    }
    if s.mu.Some? { assert Local(s, s.mu.value); }
    if s.opMu.Some? { assert Local(s, s.opMu.value); }
    if t :| 0 <= t < |s.threads| && IsCloser(s.threads[t].pc) {
      assert s.threads[t].pc.ClDone?;
      DrainedState(s);
    }
  }
}
