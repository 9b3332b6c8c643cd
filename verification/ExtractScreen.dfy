/** The extraction modal as the object its methods update
    (internal/tui/extract.go). Its ghost fields are the messages in flight and
    the sides it was opened with; every handler keeps the invariant of the whole
    system, and takes it to the state that the runs are made of. */
module ExtractScreen {
  import opened ExtractKeys
  import opened ExtractModal
  import opened ExtractPlan
  import opened ExtractRuns
  import opened Paths
  import opened Wrappers

  lemma PlannedHasPairDir(cfg: Cfg, req: Request)
    requires HashOk(cfg.hash16) && PlanOf(cfg, req).Ok? && req.diffContainer != ""
    ensures ExtractDiffTargetDir(cfg.root, req).Ok?
  {
    hide CleanString, CleanBrowsePath, IncludesOk, ContainerOk, SlugOf;
  }

  lemma PressKeeps(cfg: Cfg, w: World, k: Key, stagingNow: bool, vacant: Path -> bool)
    requires HashOk(cfg.hash16) && Inv(cfg, w) && w.active
    ensures var (m, fx) := HandleKey(cfg, w.modal, k, stagingNow, vacant);
            Inv(cfg, w.(modal := m, flight := w.flight + fx))
  {
    hide Inv, HandleKey;
    NextKeeps(cfg, w, Press(k, stagingNow, vacant));
  }

  lemma OpenedWorld(cfg: Cfg, before: World, reqs: seq<Request>, pair: bool)
    requires HashOk(cfg.hash16) && FlightOk(before) && CanOpen(cfg, before, reqs, pair)
    ensures var w := AfterOpen(cfg, before, reqs, pair, 0);
      && Inv(cfg, w) && w == World(true, Opened(cfg, before.modal.serial + 1, reqs, pair, 0), w.flight, reqs, [])
      && OpenMeans(cfg, before, reqs, pair, w)
  {
    OpenKeeps(cfg, before, reqs, pair, 0);
    OpenMeaning(cfg, before, reqs, pair);
    hide PlanOf, ExtractDiffTargetDir, Inv, FlightOk, OpenMeans;
  }

  /** What taking a run's result leads to: a stale one changes nothing, a failure
      stops, and a success runs the next side at once under the same root and
      privilege, or ends with all sides completed. */
  ghost predicate RunTaken(w: World, w': World, gen: nat, o: Outcome)
    requires o.RunDone?
  {
    if gen != w.modal.gen then w'.modal == w.modal && w'.done == w.done
    else if o.err.Some? then
      && (if o.err.value.Interrupted? then w'.modal.state.Canceled? else w'.modal.state.Failed?)
      && w'.modal.err == o.err && w'.done == w.done && w'.modal.result == o.result
      && (w'.modal.stagingExists <==> o.result.stagingCreated && o.stagingNow)
    else
      && w'.modal.result == o.result
      && w'.modal.published ==
         w.modal.published + (if w.modal.container.None? then []
                              else [SideResult(w.modal.req.snapshotShort, o.result)])
      && w'.done == w.done + [w.modal.req]
      && if w.modal.queue == [] then w'.modal.state.Success? && Sides(w'.done) == Sides(w.sides)
         else && w'.modal.state.Running? && w'.modal.req.targetRoot == w.modal.req.targetRoot
              && w'.modal.req.privileged == w.modal.req.privileged
  }

  /** The result of a run that this modal started, or of one of another
      generation. */
  ghost predicate RunComesIn(w: World, c: Cmd, gen: nat) {
    c in w.flight && c.RunCmd? && c.gen == gen && !Impostor(w, c)
  }

  function WithSide(m: Modal, next: Request, plan: Plan): Modal
    requires m.queue != []
  {
    m.(queue := m.queue[1..], req := next, staging := plan.staging, final := plan.final)
  }

  lemma SidesInTurn(m: Modal, next: Request, plan: Plan)
    requires m.queue != []
    ensures var (s, fx) := StartRun(WithSide(m, next, plan)); RunNext(m, next, plan) == (s.(state := Running), fx)
  {
  }

  /** The next side runs, under the root and privilege of the one before. */
  ghost predicate NextRuns(m: Modal, m': Modal, fx: Effects)
    requires m.queue != []
  {
    && m'.state.Running? && m'.err == m.err && m'.queue == m.queue[1..]
    && Side(m'.req) == Side(m.queue[0]) && fx == multiset{RunCmd(m'.serial, m'.gen, m'.req)}
    && m'.req.targetRoot == m.req.targetRoot && m'.req.privileged == m.req.privileged
  }

  lemma PlannedAdvances(cfg: Cfg, m: Modal)
    requires HashOk(cfg.hash16) && m.queue != []
    ensures Planned(cfg, m) ==> var (m', fx) := AdvanceQueue(cfg, m); NextRuns(m, m', fx)
  {
    if Planned(cfg, m) {
      ReplanSucceeds(cfg, m);
      hide PlanOf, Planned, FieldsOk;
    }
  }

  class ExtractModel {
    const cfg: Cfg
    ghost const serial: nat
    var state: ModalState
    var req: Request
    var ranTargetRoot: string
    var queue: seq<Request>
    var published: seq<SideResult>
    var container: Option<Path>
    var staging: Path
    var final: Path
    var gen: nat
    var cancel: bool
    var result: RunResult
    var err: Option<RunError>
    var stagingExists: bool
    var isSudoBusy: bool
    var counts: Option<(nat, nat)>
    ghost var flight: multiset<Cmd>
    ghost var sides: seq<Request>
    ghost var done: seq<Request>

    ghost function View(): Modal
      reads this
    {
      Modal(serial, state, req, ranTargetRoot, queue, published, container, staging, final, gen, cancel,
            result, err, stagingExists, isSudoBusy, counts)
    }

    /** The system with this modal open. */
    ghost function Now(): World
      reads this
    {
      World(true, View(), flight, sides, done)
    }

    ghost predicate Valid()
      reads this
    {
      HashOk(cfg.hash16) && Inv(cfg, Now())
    }

    /** newExtractDiffModel for a pair, newExtractModel otherwise. */
    constructor (cfg: Cfg, ghost before: World, reqs: seq<Request>, pair: bool)
      requires HashOk(cfg.hash16) && FlightOk(before) && CanOpen(cfg, before, reqs, pair)
      ensures this.cfg == cfg && Valid() && Now() == AfterOpen(cfg, before, reqs, pair, 0)
      ensures OpenMeans(cfg, before, reqs, pair, Now())
    {
      this.cfg, this.serial := cfg, before.modal.serial + 1;
      var plan := PlanOf(cfg, reqs[0]).value;
      state := Review;
      req := reqs[0];
      ranTargetRoot := "";
      queue := reqs[1..];
      published := [];
      container := if pair then Some(ExtractDiffTargetDir(cfg.root, reqs[0]).value) else None;
      staging := plan.staging;
      final := plan.final;
      gen := 0;
      cancel := false;
      result := NO_RESULT;
      err := None;
      stagingExists := false;
      isSudoBusy := false;
      counts := None;
      sides, done, flight := reqs, [], AfterOpen(cfg, before, reqs, pair, 0).flight;
      new;
      hide PlanOf, ExtractDiffTargetDir, Inv, CanOpen, FlightOk, AfterOpen, Next, HashOk, OpenMeans;
      OpenedWorld(cfg, before, reqs, pair);
    }

    lemma ValidSystem()
      requires Valid()
      ensures HashOk(cfg.hash16) && Inv(cfg, Now()) && Now().active
    {
    }

    // What the handlers share.

    method SupersedeWork()
      modifies this`gen, this`cancel
      ensures View() == Supersede(old(View()))
    {
      gen := gen + 1;
      if cancel {
        cancel := false;
      }
    }

    method StartRunCmd() returns (ghost fx: Effects)
      modifies this`gen, this`cancel, this`ranTargetRoot
      ensures (View(), fx) == StartRun(old(View()))
    {
      SupersedeWork();
      cancel := true;
      ranTargetRoot := req.targetRoot;
      fx := multiset{RunCmd(serial, gen, req)};
    }

    method CommitRunCmd() returns (ghost fx: Effects)
      modifies this`gen, this`cancel, this`ranTargetRoot, this`isSudoBusy, this`state
      ensures (View(), fx) == CommitRun(old(View()))
    {
      isSudoBusy := false;
      fx := StartRunCmd();
      state := Running;
    }

    /** The next side: it runs under the root and privilege now in force, and a
        modal whose sides were planned never fails here. */
    method Advance() returns (ghost fx: Effects)
      requires HashOk(cfg.hash16) && queue != []
      modifies this`queue, this`req, this`staging, this`final, this`err, this`stagingExists
      modifies this`gen, this`cancel, this`ranTargetRoot, this`state
      ensures (View(), fx) == AdvanceQueue(cfg, old(View()))
      ensures Planned(cfg, old(View())) ==> NextRuns(old(View()), View(), fx)
    {
      ghost var m := View();
      PlannedAdvances(cfg, m);
      hide NextRuns, PlanOf, Planned, AdvanceQueue, RunNext, HashOk, FieldsOk, StartRun;
      var next := queue[0];
      next := next.(privileged := req.privileged);
      next := next.(targetRoot := req.targetRoot);
      var plan := PlanOf(cfg, next);
      AdvancedTo(cfg, m, next, plan);
      if plan.Err? {
        err := Some(Other);
        state := Failed;
        stagingExists := false;
        fx := multiset{};
        return;
      }
      fx := RunSide(next, plan.value);
    }

    method SetSide(next: Request, plan: Plan)
      requires queue != []
      modifies this`queue, this`req, this`staging, this`final
      ensures View() == WithSide(old(View()), next, plan)
    {
      hide PlanOf, HashOk;
      queue, req := queue[1..], next;
      staging, final := plan.staging, plan.final;
    }

    method RunSide(next: Request, plan: Plan) returns (ghost fx: Effects)
      requires queue != []
      modifies this`queue, this`req, this`staging, this`final, this`gen, this`cancel, this`ranTargetRoot, this`state
      ensures (View(), fx) == RunNext(old(View()), next, plan)
    {
      ghost var m := View();
      SidesInTurn(m, next, plan);
      hide PlanOf, HashOk, RunNext, StartRun, WithSide;
      SetSide(next, plan);
      fx := StartRunCmd();
      state := Running;
    }

    // Keys.

    method BackOut() returns (ghost fx: Effects)
      modifies this`gen, this`cancel, this`state
      ensures (View(), fx) == BackFrom(old(View()))
    {
      fx := multiset{};
      match state
      case Running =>
      case FilePicker =>
        state := Review;
      case _ =>
        SupersedeWork();
        fx := multiset{BackCmd(serial)};
    }

    method PressReview(k: Key) returns (ghost fx: Effects)
      requires state.Review?
      modifies this`gen, this`cancel, this`state, this`req, this`ranTargetRoot, this`isSudoBusy
      ensures (View(), fx) == ReviewKey(old(View()), k)
    {
      fx := multiset{};
      if isSudoBusy && !k.Back? {
        return;
      }
      match k
      case Back =>
        fx := BackOut();
      case Target =>
        state := FilePicker;
      case Priv =>
        req := req.(privileged := !req.privileged);
      case Enter =>
        if req.privileged {
          SupersedeWork();
          isSudoBusy := true;
          fx := multiset{ProbeCmd(serial, gen)};
        } else {
          fx := CommitRunCmd();
        }
      case _ =>
    }

    method PressTerminal(k: Key, stagingNow: bool) returns (ghost fx: Effects)
      modifies this`gen, this`cancel, this`state, this`stagingExists, this`err, this`result
      ensures (View(), fx) == TerminalKey(old(View()), k, stagingNow)
    {
      fx := multiset{};
      if !k.Delete? && !k.Keep? && !k.Back? && !k.Target? {
        return;
      }
      stagingExists := result.stagingCreated && stagingNow;
      if stagingExists {
        if k.Delete? {
          state := KeepDelete;
          fx := multiset{DeleteCmd(serial, gen)};
        } else if k.Keep? || k.Back? {
          fx := BackOut();
        }
        return;
      }
      if err == Some(RunError.Refused) && k.Target? && |published| == 0 {
        err := None;
        result := NO_RESULT;
        state := FilePicker;
      } else if k.Back? {
        fx := BackOut();
      }
    }

    /** Replans every side under root, or changes nothing. */
    method PlanOverrideAllSides(root: string, vacant: Path -> bool) returns (r: Option<(Request, Plan)>)
      requires HashOk(cfg.hash16) && (container.Some? ==> req.diffContainer != "")
      modifies this`queue, this`container
      ensures r.Some? <==> CanRetarget(cfg, old(View()), root, vacant)
      ensures r.None? ==> View() == old(View())
      ensures r.Some? ==>
                && r.value.0 == req.(targetRoot := root) && PlanOf(cfg, r.value.0) == Ok(r.value.1)
                && queue == Retargeted(old(queue), root)
                && (container.Some? <==> old(container).Some?)
                && (container.Some? ==> ExtractDiffTargetDir(cfg.root, r.value.0) == Ok(container.value))
    {
      hide PlanExtractPaths, ExtractDiffTargetDir;
      var newReq := req.(targetRoot := root);
      var plan := PlanOf(cfg, newReq);
      if plan.Err? || !vacant(plan.value.staging) || !vacant(plan.value.final) {
        return None;
      }
      var newQueue := [];
      for i := 0 to |queue|
        invariant View() == old(View())
        invariant newQueue == Retargeted(queue, root)[..i]
        invariant forall j :: 0 <= j < i ==> Retargets(cfg, queue[j], root, vacant)
      {
        var q := queue[i].(targetRoot := root);
        var p := PlanOf(cfg, q);
        if p.Err? || !vacant(p.value.staging) || !vacant(p.value.final) {
          assert !Retargets(cfg, queue[i], root, vacant);
          return None;
        }
        newQueue := newQueue + [q];
      }
      queue := newQueue;
      if container.Some? {
        PlannedHasPairDir(cfg, newReq);
        var dir := ExtractDiffTargetDir(cfg.root, newReq);
        container := Some(dir.value);
      }
      r := Some((newReq, plan.value));
    }

    method PickTarget(root: string, vacant: Path -> bool)
      requires HashOk(cfg.hash16) && (container.Some? ==> req.diffContainer != "")
      modifies this`queue, this`container, this`req, this`staging, this`final, this`state
      ensures View() ==
              if CanRetarget(cfg, old(View()), root, vacant) then Retarget(cfg, old(View()), root) else old(View())
      ensures PickMeans(cfg, old(View()), root, vacant, View())
    {
      PickMeaning(cfg, View(), root, vacant);
      hide PlanExtractPaths, ExtractDiffTargetDir, CanRetarget, AllVacant, PickMeans;
      var r := PlanOverrideAllSides(root, vacant);
      if r.Some? {
        SetTarget(r.value.0, r.value.1);
      }
    }

    method SetTarget(newReq: Request, plan: Plan)
      modifies this`req, this`staging, this`final, this`state
      ensures View() == old(View()).(req := newReq, staging := plan.staging, final := plan.final, state := Review)
    {
      req := newReq;
      staging, final := plan.staging, plan.final;
      state := Review;
    }

    /** handleKey. */
    method HandleAnyKey(k: Key, stagingNow: bool, vacant: Path -> bool) returns (ghost fx: Effects)
      requires HashOk(cfg.hash16) && (container.Some? ==> req.diffContainer != "")
      modifies this
      ensures (View(), fx) == HandleKey(cfg, old(View()), k, stagingNow, vacant)
      ensures (flight, sides, done) == old((flight, sides, done))
    {
      hide CanRetarget, Retarget, BackFrom, ReviewKey, TerminalKey;
      fx := multiset{};
      match state
      case Review =>
        fx := PressReview(k);
      case Canceled =>
        fx := PressTerminal(k, stagingNow);
      case Failed =>
        fx := PressTerminal(k, stagingNow);
      case FilePicker =>
        if k.Back? {
          fx := BackOut();
        } else if k.Pick? {
          PickTarget(k.root, vacant);
        }
      case _ =>
        if k.Back? {
          fx := BackOut();
        }
    }

    /** Any key in any state keeps the invariant, and so loses, reorders or splits
        no side and leaves coming what the new state waits for; what it starts is
        what the key is for. */
    method Press(k: Key, stagingNow: bool, vacant: Path -> bool)
      requires Valid()
      modifies this
      ensures Valid()
      ensures Next(cfg, old(Now()), ExtractModal.Press(k, stagingNow, vacant)) == Some(Now())
      ensures KeyMeans(old(Now()), k, stagingNow, Now())
      ensures sides == old(sides) && done == old(done)
    {
      ghost var w := Now();
      PairHasContainer(cfg, w);
      hide *;
      ghost var fx := HandleAnyKey(k, stagingNow, vacant);
      flight := flight + fx;
      PressedKey(cfg, w, k, stagingNow, vacant, Now());
    }

    // Messages.

    /** applyRunDone. */
    method InstallRunDone(msgGen: nat, msgResult: RunResult, msgErr: Option<RunError>, stagingNow: bool)
      returns (ghost fx: Effects)
      requires HashOk(cfg.hash16)
      modifies this
      ensures (View(), fx) == ApplyRunDone(cfg, old(View()), msgGen, msgResult, msgErr, stagingNow)
      ensures (flight, sides, done) == old((flight, sides, done))
    {
      hide RunSucceeded, RunStopped;
      fx := multiset{};
      if msgGen == gen {
        if msgErr.Some? {
          RunStops(msgResult, msgErr.value, stagingNow);
        } else {
          fx := RunSucceeds(msgResult);
        }
      }
    }

    method RunStops(msgResult: RunResult, msgErr: RunError, stagingNow: bool)
      modifies this`result, this`err, this`state, this`stagingExists
      ensures View() == RunStopped(old(View()), msgResult, msgErr, stagingNow)
    {
      result := msgResult;
      err := Some(msgErr);
      state := if msgErr.Interrupted? then Canceled else Failed;
      stagingExists := result.stagingCreated && stagingNow;
    }

    method RunSucceeds(msgResult: RunResult) returns (ghost fx: Effects)
      requires HashOk(cfg.hash16)
      modifies this`result, this`err, this`state, this`stagingExists, this`published
      modifies this`queue, this`req, this`staging, this`final, this`gen, this`cancel, this`ranTargetRoot
      ensures (View(), fx) == RunSucceeded(cfg, old(View()), msgResult)
    {
      hide AdvanceQueue;
      fx := multiset{};
      result := msgResult;
      err := None;
      if container.Some? {
        published := published + [SideResult(req.snapshotShort, msgResult)];
        if |queue| > 0 {
          fx := Advance();
          return;
        }
      }
      state := Success;
    }

    /** A run's result keeps every side accounted for, unless it is an earlier
        modal's with this generation. */
    method TakeRunDone(ghost c: Cmd, msgGen: nat, msgResult: RunResult, msgErr: Option<RunError>, stagingNow: bool)
      requires Valid() && RunComesIn(Now(), c, msgGen)
      modifies this
      ensures Valid() && RunTaken(old(Now()), Now(), msgGen, RunDone(msgResult, msgErr, stagingNow))
      ensures Next(cfg, old(Now()), Deliver(c, RunDone(msgResult, msgErr, stagingNow))) == Some(Now())
    {
      hide Inv, HashOk, RunComesIn, Take, RunTaken, Next, ApplyRunDone;
      ghost var w, o := Now(), RunDone(msgResult, msgErr, stagingNow);
      ValidSystem();
      TakesRun(cfg, w, c, msgGen, o);
      ghost var fx := InstallRunDone(msgGen, msgResult, msgErr, stagingNow);
      flight, done := flight - multiset{c} + fx, if msgGen == w.modal.gen && msgErr.None? then done + [c.req] else done;
      TookRun(cfg, w, c, o, Now());
    }

    /** Only a busy review of the same generation reacts: a ready probe starts the
        run, another asks for the password or gives up. */
    method TakeSudoProbe(ghost c: Cmd, msgGen: nat, o: Outcome)
      requires Valid() && c in flight && c.ProbeCmd? && c.gen == msgGen
      modifies this
      ensures Valid() && Next(cfg, old(Now()), Deliver(c, o)) == Some(Now())
      ensures SudoMeans(old(Now()), c, o.Ready?, o.NeedsAuth?, Now())
    {
      ghost var w := Now();
      TakeKeeps(cfg, w, c, o);
      hide *;
      ghost var fx := InstallSudoProbe(msgGen, o);
      flight := flight - multiset{c} + fx;
      TookProbe(cfg, w, c, o, Now(), fx);
    }

    method InstallSudoProbe(msgGen: nat, o: Outcome) returns (ghost fx: Effects)
      modifies this`gen, this`cancel, this`ranTargetRoot, this`isSudoBusy, this`state
      ensures (View(), fx) == ApplySudoProbe(old(View()), msgGen, o)
    {
      fx := multiset{};
      if msgGen != gen || !state.Review? || !isSudoBusy {
        return;
      }
      if o.Ready? {
        fx := CommitRunCmd();
      } else if o.NeedsAuth? {
        fx := multiset{AuthCmd(serial, gen)};
      } else {
        isSudoBusy := false;
      }
    }

    /** Likewise: authentication starts the run, its failure gives up. */
    method TakeSudoAuth(ghost c: Cmd, msgGen: nat, o: Outcome)
      requires Valid() && c in flight && c.AuthCmd? && c.gen == msgGen
      modifies this
      ensures Valid() && Next(cfg, old(Now()), Deliver(c, o)) == Some(Now())
      ensures SudoMeans(old(Now()), c, o.AuthOk?, false, Now())
    {
      ghost var w := Now();
      TakeKeeps(cfg, w, c, o);
      hide *;
      ghost var fx := InstallSudoAuth(msgGen, o);
      flight := flight - multiset{c} + fx;
      TookAuth(cfg, w, c, o, Now(), fx);
    }

    method InstallSudoAuth(msgGen: nat, o: Outcome) returns (ghost fx: Effects)
      modifies this`gen, this`cancel, this`ranTargetRoot, this`isSudoBusy, this`state
      ensures (View(), fx) == ApplySudoAuth(old(View()), msgGen, o)
    {
      fx := multiset{};
      if msgGen != gen || !state.Review? || !isSudoBusy {
        return;
      }
      if o.AuthOk? {
        fx := CommitRunCmd();
      } else {
        isSudoBusy := false;
      }
    }
  }

  // The steps above as values.

  lemma AdvancedTo(cfg: Cfg, m: Modal, next: Request, plan: Result<Plan, Field>)
    requires HashOk(cfg.hash16) && m.queue != [] && next == NextSide(m) && plan == PlanOf(cfg, next)
    ensures plan.Err? ==>
              AdvanceQueue(cfg, m) == (m.(err := Some(Other), state := Failed, stagingExists := false), multiset{})
    ensures plan.Ok? ==> AdvanceQueue(cfg, m) == RunNext(m, next, plan.value)
    ensures plan.Ok? ==>
              var (m', fx) := RunNext(m, next, plan.value);
              && m'.state.Running? && m'.err == m.err && m'.queue == m.queue[1..] && m'.req == next
              && fx == multiset{RunCmd(m'.serial, m'.gen, next)}
  {
    hide PlanOf;
  }

  lemma PairHasContainer(cfg: Cfg, w: World)
    requires HashOk(cfg.hash16) && Inv(cfg, w) && w.active
    ensures w.modal.container.Some? ==> w.modal.req.diffContainer != ""
  {
    hide PlanOf, FieldsOk;
  }

  lemma PressedKey(cfg: Cfg, w: World, k: Key, stagingNow: bool, vacant: Path -> bool, w': World)
    requires HashOk(cfg.hash16) && Inv(cfg, w) && w.active
    requires var (m, fx) := HandleKey(cfg, w.modal, k, stagingNow, vacant);
             w' == w.(modal := m, flight := w.flight + fx)
    ensures Next(cfg, w, ExtractModal.Press(k, stagingNow, vacant)) == Some(w') && Inv(cfg, w')
    ensures KeyMeans(w, k, stagingNow, w')
  {
    PressKeeps(cfg, w, k, stagingNow, vacant);
    KeyMeaning(cfg, w.modal, k, stagingNow, vacant);
    hide HandleKey, Inv, Shows, Sent;
  }

  lemma TookRun(cfg: Cfg, w: World, c: Cmd, o: Outcome, w': World)
    requires HashOk(cfg.hash16) && w.active && c in w.flight && c.RunCmd? && o.RunDone?
    requires var (m, fx) := ApplyRunDone(cfg, w.modal, c.gen, o.result, o.err, o.stagingNow);
      w' == w.(modal := m, flight := w.flight - multiset{c} + fx,
               done := if c.gen == w.modal.gen && o.err.None? then w.done + [c.req] else w.done)
    ensures Next(cfg, w, Deliver(c, o)) == Some(w')
    ensures Take(cfg, w.(flight := w.flight - multiset{c}), c, o) == w'
  {
    hide ApplyRunDone;
  }

  /** What a run's result leads to. */
  lemma RunOutcome(cfg: Cfg, w: World, c: Cmd, o: Outcome)
    requires HashOk(cfg.hash16) && Inv(cfg, w) && w.active
    requires c in w.flight && c.RunCmd? && o.RunDone? && !Impostor(w, c)
    ensures RunTaken(w, Take(cfg, w.(flight := w.flight - multiset{c}), c, o), c.gen, o)
  {
    if c.gen != w.modal.gen {
      StaleRun(cfg, w.modal, c.gen, o);
      hide Inv, ApplyRunDone;
    } else if o.err.Some? {
      FailureIsTerminal(cfg, w.modal, o);
      hide Inv, ApplyRunDone;
    } else {
      SuccessIsRecorded(cfg, w.modal, o);
      SuccessOutcome(cfg, w, c, o);
      hide Inv, ApplyRunDone;
    }
  }

  /** A success completes the side that ran, and runs the next or is the last. */
  lemma SuccessOutcome(cfg: Cfg, w: World, c: Cmd, o: Outcome)
    requires HashOk(cfg.hash16) && Inv(cfg, w) && w.active
    requires c in w.flight && c.RunCmd? && o.RunDone? && !Impostor(w, c) && c.gen == w.modal.gen && o.err.None?
    ensures var w' := Take(cfg, w.(flight := w.flight - multiset{c}), c, o);
      && w'.done == w.done + [w.modal.req]
      && if w.modal.queue == [] then w'.modal.state.Success? && Sides(w'.done) == Sides(w.sides)
         else && w'.modal.state.Running? && w'.modal.req.targetRoot == w.modal.req.targetRoot
              && w'.modal.req.privileged == w.modal.req.privileged
  {
    hide ModalOk, Coming, ApplyRunDone;
    var w1 := w.(flight := w.flight - multiset{c});
    CurrentRun(w.modal, w.flight, c);
    SameModal(cfg, w, w1.flight);
    if w.modal.queue != [] {
      NextSideKeeps(cfg, w1, o.result, o.stagingNow);
    } else {
      LastSideKeeps(cfg, w1, o.result, o.err, o.stagingNow);
      SuccessIsComplete(cfg, Take(cfg, w1, c, o).(flight := w1.flight));
    }
  }

  lemma TakesRun(cfg: Cfg, w: World, c: Cmd, gen: nat, o: Outcome)
    requires HashOk(cfg.hash16) && Inv(cfg, w) && w.active && RunComesIn(w, c, gen) && o.RunDone?
    ensures var w' := Take(cfg, w.(flight := w.flight - multiset{c}), c, o);
            Inv(cfg, w') && RunTaken(w, w', gen, o)
    ensures c in w.flight && c.RunCmd? && c.gen == gen
  {
    TakeKeeps(cfg, w, c, o);
    RunOutcome(cfg, w, c, o);
  }

  lemma FailureIsTerminal(cfg: Cfg, m: Modal, o: Outcome)
    requires HashOk(cfg.hash16) && o.RunDone?
    ensures o.err.Some? ==>
              var m' := ApplyRunDone(cfg, m, m.gen, o.result, o.err, o.stagingNow).0;
              && m'.err == o.err && (if o.err.value.Interrupted? then m'.state.Canceled? else m'.state.Failed?)
              && m'.result == o.result && (m'.stagingExists <==> o.result.stagingCreated && o.stagingNow)
  {
  }

  lemma SuccessIsRecorded(cfg: Cfg, m: Modal, o: Outcome)
    requires HashOk(cfg.hash16) && o.RunDone?
    ensures o.err.None? ==>
              var m' := ApplyRunDone(cfg, m, m.gen, o.result, o.err, o.stagingNow).0;
              && m'.result == o.result
              && m'.published == m.published
                                 + if m.container.None? then [] else [SideResult(m.req.snapshotShort, o.result)]
  {
    hide PlanOf;
    assert m.published + [] == m.published;
  }

  lemma SuccessIsComplete(cfg: Cfg, w: World)
    requires HashOk(cfg.hash16) && ModalOk(cfg, w) && w.modal.state.Success?
    ensures Sides(w.done) == Sides(w.sides)
  {
  }

  lemma TookProbe(cfg: Cfg, w: World, c: Cmd, o: Outcome, w': World, fx: Effects)
    requires HashOk(cfg.hash16) && w.active && c in w.flight && c.ProbeCmd?
    requires (w'.modal, fx) == ApplySudoProbe(w.modal, c.gen, o)
    requires w' == w.(modal := w'.modal, flight := w.flight - multiset{c} + fx)
    ensures Next(cfg, w, Deliver(c, o)) == Some(w') && Take(cfg, w.(flight := w.flight - multiset{c}), c, o) == w'
    ensures SudoMeans(w, c, o.Ready?, o.NeedsAuth?, w')
  {
    SudoMeaning(cfg, w, c, o);
  }

  lemma TookAuth(cfg: Cfg, w: World, c: Cmd, o: Outcome, w': World, fx: Effects)
    requires HashOk(cfg.hash16) && w.active && c in w.flight && c.AuthCmd?
    requires (w'.modal, fx) == ApplySudoAuth(w.modal, c.gen, o)
    requires w' == w.(modal := w'.modal, flight := w.flight - multiset{c} + fx)
    ensures Next(cfg, w, Deliver(c, o)) == Some(w') && Take(cfg, w.(flight := w.flight - multiset{c}), c, o) == w'
    ensures SudoMeans(w, c, o.AuthOk?, false, w')
  {
    SudoMeaning(cfg, w, c, o);
  }
}
