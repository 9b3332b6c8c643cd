/** Whole runs of the extraction modal (internal/tui/extract.go with the routing
    in internal/tui/app.go): what every sequence of keys, openings and late
    messages keeps, exactly when opening a modal is safe, and a run that goes
    wrong as the program stands. */
module ExtractRuns {
  import opened ExtractModal
  import opened ExtractPlan
  import opened Paths
  import opened Wrappers

  function RunAll(cfg: Cfg, w: World, es: seq<Event>): Option<World>
    requires HashOk(cfg.hash16)
    decreases |es|
  {
    if es == [] then Some(w)
    else
      var w' := Next(cfg, w, es[0]);
      if w'.None? then None else RunAll(cfg, w'.value, es[1..])
  }

  /** What is promised whenever the modal is open: completed sides, the current
      one and the queue are the sides it was opened with, in order, until
      success, where the completed ones are all of them; what is published is
      what was completed; completed sides share the current root and privilege;
      review and the picker come before anything is published; and a running
      modal is waiting for the run it started. */
  ghost predicate Promised(cfg: Cfg, w: World)
    requires HashOk(cfg.hash16)
  {
    var m := w.modal;
    w.active ==>
      && (if m.state.Success? then Sides(w.done) == Sides(w.sides)
          else Sides(w.done) + [Side(m.req)] + Sides(m.queue) == Sides(w.sides))
      && (m.container.Some? ==> PublishedIsDone(m, w.done))
      && SharedTarget(m, w.done)
      && (m.state.Review? || m.state.FilePicker? ==> m.published == [])
      && PlanOf(cfg, m.req) == Ok(Plan(m.staging, m.final))
      && (m.state.Running? ==> RunCmd(m.serial, m.gen, m.req) in w.flight)
  }

  lemma InvPromises(cfg: Cfg, w: World)
    requires HashOk(cfg.hash16) && Inv(cfg, w)
    ensures Promised(cfg, w)
  {
    hide PlanExtractPaths, ExtractDiffTargetDir, FieldsOk;
  }

  // When opening is safe.

  /** No run still in flight carries a generation that a modal opened with this
      one could reach. The root knows its runs and can check this on opening. */
  predicate SafeToOpen(w: World, gen: nat) {
    forall c :: c in w.flight && c.RunCmd? ==> c.gen < gen
  }

  /** Every modal of the run is opened safely. */
  predicate OpensSafely(cfg: Cfg, w: World, es: seq<Event>)
    requires HashOk(cfg.hash16)
    decreases |es|
  {
    es == [] || (
      && (es[0].Open? ==> SafeToOpen(w, es[0].gen))
      && var w' := Next(cfg, w, es[0]); w'.None? || OpensSafely(cfg, w'.value, es[1..]))
  }

  predicate NoOpens(es: seq<Event>) { forall i :: 0 <= i < |es| ==> !es[i].Open? }

  /** Runs of earlier modals are behind the open one's generation. */
  ghost predicate Outdated(w: World) {
    w.active ==> forall c :: c in w.flight && c.RunCmd? && c.serial != w.modal.serial ==> c.gen < w.modal.gen
  }

  ghost predicate Grew(m: Modal, m': Modal, fx: Effects) {
    m'.serial == m.serial && m'.gen >= m.gen && forall c :: c in fx ==> c.serial == m.serial
  }

  lemma TerminalEffectsAreOwn(m: Modal, k: Key, stagingNow: bool)
    ensures var (m', fx) := TerminalKey(m, k, stagingNow); Grew(m, m', fx)
  {
  }

  lemma ReviewEffectsAreOwn(m: Modal, k: Key)
    ensures var (m', fx) := ReviewKey(m, k); Grew(m, m', fx)
  {
  }

  lemma KeyEffectsAreOwn(cfg: Cfg, m: Modal, k: Key, stagingNow: bool, vacant: Path -> bool)
    requires HashOk(cfg.hash16)
    ensures var (m', fx) := HandleKey(cfg, m, k, stagingNow, vacant); Grew(m, m', fx)
  {
    TerminalEffectsAreOwn(m, k, stagingNow);
    ReviewEffectsAreOwn(m, k);
    hide PlanOf, CanRetarget, ExtractDiffTargetDir, TerminalKey, ReviewKey;
  }

  lemma RunEffectsAreOwn(cfg: Cfg, m: Modal, gen: nat, o: Outcome)
    requires HashOk(cfg.hash16) && o.RunDone?
    ensures var (m', fx) := ApplyRunDone(cfg, m, gen, o.result, o.err, o.stagingNow); Grew(m, m', fx)
  {
    hide PlanOf;
  }

  lemma SudoEffectsAreOwn(m: Modal, gen: nat, o: Outcome)
    ensures Grew(m, ApplySudoProbe(m, gen, o).0, ApplySudoProbe(m, gen, o).1)
    ensures Grew(m, ApplySudoAuth(m, gen, o).0, ApplySudoAuth(m, gen, o).1)
    ensures Grew(m, ApplyCounts(m, gen, o), ApplyDeleteStagingDone(m, gen))
  {
  }

  /** Own commands and an advancing generation keep older runs behind. */
  lemma GrewKeeps(w: World, flight: multiset<Cmd>, m: Modal, fx: Effects)
    requires w.active && Outdated(w) && flight <= w.flight && Grew(w.modal, m, fx)
    ensures forall c :: c in flight + fx && c.RunCmd? && c.serial != m.serial ==> c.gen < m.gen
  {
    assert forall c :: c in flight ==> c in w.flight;
  }

  lemma OutdatedTake(cfg: Cfg, w: World, cmd: Cmd, o: Outcome)
    requires HashOk(cfg.hash16) && w.active && Outdated(w) && cmd in w.flight && (cmd.RunCmd? ==> o.RunDone?)
    ensures Outdated(Take(cfg, w.(flight := w.flight - multiset{cmd}), cmd, o))
  {
    hide ApplyRunDone, ApplySudoProbe, ApplySudoAuth, ApplyCounts, ApplyDeleteStagingDone;
    var m, rest := w.modal, w.flight - multiset{cmd};
    if !cmd.BackCmd? {
      if cmd.RunCmd? {
        RunEffectsAreOwn(cfg, m, cmd.gen, o);
      }
      SudoEffectsAreOwn(m, cmd.gen, o);
      var (m', fx) := match cmd
        case RunCmd(_, gen, _) => ApplyRunDone(cfg, m, gen, o.result, o.err, o.stagingNow)
        case CountsCmd(_, gen) => (ApplyCounts(m, gen, o), multiset{})
        case ProbeCmd(_, gen) => ApplySudoProbe(m, gen, o)
        case AuthCmd(_, gen) => ApplySudoAuth(m, gen, o)
        case DeleteCmd(_, gen) => (m, ApplyDeleteStagingDone(m, gen));
      GrewKeeps(w, rest, m', fx);
      assert rest + multiset{} == rest;
    }
  }

  lemma OutdatedKeeps(cfg: Cfg, w: World, e: Event)
    requires HashOk(cfg.hash16) && Outdated(w) && Next(cfg, w, e).Some? && (e.Open? ==> SafeToOpen(w, e.gen))
    ensures Outdated(Next(cfg, w, e).value)
  {
    hide HandleKey, Take, CanOpen, Grew;
    match e
    case Open(reqs, pair, gen) =>
    case Press(key, stagingNow, vacant) =>
      KeyEffectsAreOwn(cfg, w.modal, key, stagingNow, vacant);
      var (m, fx) := HandleKey(cfg, w.modal, key, stagingNow, vacant);
      GrewKeeps(w, w.flight, m, fx);
    case Deliver(cmd, o) =>
      if w.active {
        OutdatedTake(cfg, w, cmd, o);
      }
  }

  lemma NotForged(w: World, e: Event)
    requires Outdated(w)
    ensures !Forged(w, e)
  {
  }

  /** Every run whose modals are opened safely keeps the invariant. */
  lemma {:induction false} RunKeeps(cfg: Cfg, w: World, es: seq<Event>)
    requires HashOk(cfg.hash16) && Inv(cfg, w) && Outdated(w) && OpensSafely(cfg, w, es) && RunAll(cfg, w, es).Some?
    ensures Inv(cfg, RunAll(cfg, w, es).value)
    decreases |es|
  {
    hide Inv, Next, Outdated, Forged, SafeToOpen;
    if es != [] {
      NotForged(w, es[0]);
      NextKeeps(cfg, w, es[0]);
      OutdatedKeeps(cfg, w, es[0]);
      RunKeeps(cfg, Next(cfg, w, es[0]).value, es[1..]);
    }
  }

  /** Nothing open, nothing in flight. */
  predicate Idle(w: World) { !w.active && w.flight == multiset{} }

  /** From a fresh start, everything promised holds after every run of keys, late
      messages and any number of modals that are opened safely. */
  lemma SidesConserved(cfg: Cfg, w0: World, es: seq<Event>)
    requires HashOk(cfg.hash16) && Idle(w0) && RunAll(cfg, w0, es).Some? && OpensSafely(cfg, w0, es)
    ensures Promised(cfg, RunAll(cfg, w0, es).value)
  {
    RunKeeps(cfg, w0, es);
    InvPromises(cfg, RunAll(cfg, w0, es).value);
  }

  function AfterOpen(cfg: Cfg, w: World, reqs: seq<Request>, pair: bool, gen: nat): World
    requires HashOk(cfg.hash16) && CanOpen(cfg, w, reqs, pair)
  {
    Next(cfg, w, Open(reqs, pair, gen)).value
  }

  /** Whatever happens to the modal opened this way, until another is opened,
      everything promised holds. */
  ghost predicate AlwaysPromised(cfg: Cfg, w: World)
    requires HashOk(cfg.hash16)
  {
    forall es :: NoOpens(es) && RunAll(cfg, w, es).Some? ==> Promised(cfg, RunAll(cfg, w, es).value)
  }

  lemma {:induction false} NoOpensIsSafe(cfg: Cfg, w: World, es: seq<Event>)
    requires HashOk(cfg.hash16) && NoOpens(es)
    ensures OpensSafely(cfg, w, es)
    decreases |es|
  {
    hide Next, SafeToOpen;
    if es != [] && Next(cfg, w, es[0]).Some? {
      NoOpensIsSafe(cfg, Next(cfg, w, es[0]).value, es[1..]);
    }
  }

  lemma SafeOpenPromises(cfg: Cfg, w: World, reqs: seq<Request>, pair: bool, gen: nat)
    requires HashOk(cfg.hash16) && FlightOk(w) && CanOpen(cfg, w, reqs, pair) && SafeToOpen(w, gen)
    ensures AlwaysPromised(cfg, AfterOpen(cfg, w, reqs, pair, gen))
  {
    var w1 := AfterOpen(cfg, w, reqs, pair, gen);
    OpenKeeps(cfg, w, reqs, pair, gen);
    OutdatedKeeps(cfg, w, Open(reqs, pair, gen));
    hide Inv, Outdated, CanOpen, Next;
    forall es | NoOpens(es) && RunAll(cfg, w1, es).Some? ensures Promised(cfg, RunAll(cfg, w1, es).value) {
      NoOpensIsSafe(cfg, w1, es);
      RunKeeps(cfg, w1, es);
      InvPromises(cfg, RunAll(cfg, w1, es).value);
    }
  }

  // Runs one event at a time.

  const NOWHERE: Path -> bool := _ => false

  function Pressed(k: Key): Event { Press(k, false, NOWHERE) }

  lemma Step(cfg: Cfg, w: World, e: Event) returns (w': World)
    requires HashOk(cfg.hash16) && Next(cfg, w, e).Some?
    ensures Next(cfg, w, e) == Some(w')
  {
    w' := Next(cfg, w, e).value;
  }

  lemma RunOne(cfg: Cfg, w: World, e: Event, es: seq<Event>)
    requires HashOk(cfg.hash16) && Next(cfg, w, e).Some?
    ensures RunAll(cfg, w, [e] + es) == RunAll(cfg, Next(cfg, w, e).value, es)
  {
    assert ([e] + es)[1..] == es;
  }

  lemma {:induction false} RunAppend(cfg: Cfg, w: World, a: seq<Event>, b: seq<Event>)
    requires HashOk(cfg.hash16) && RunAll(cfg, w, a).Some?
    ensures RunAll(cfg, w, a + b) == RunAll(cfg, RunAll(cfg, w, a).value, b)
    decreases |a|
  {
    hide Next;
    if a == [] {
      assert a + b == b;
    } else {
      assert (a + b)[0] == a[0] && (a + b)[1..] == a[1..] + b;
      RunAppend(cfg, Next(cfg, w, a[0]).value, a[1..], b);
    }
  }

  /** Leaving review only counts the generation up until the closing message,
      which may come late, is delivered. */
  lemma {:induction false} PressBack(cfg: Cfg, w: World, k: nat) returns (es: seq<Event>, w': World)
    requires HashOk(cfg.hash16) && w.active && w.modal.state.Review?
    ensures NoOpens(es) && RunAll(cfg, w, es) == Some(w')
    ensures w'.active && w'.modal.state.Review? && w'.modal.gen == w.modal.gen + k && w'.modal.req == w.modal.req
    ensures w.flight <= w'.flight && w'.done == w.done && w'.modal.isSudoBusy == w.modal.isSudoBusy
    decreases k
  {
    if k == 0 {
      es, w' := [], w;
    } else {
      var w1 := Step(cfg, w, Pressed(Back));
      assert w1.flight == w.flight + multiset{BackCmd(w.modal.serial)};
      var rest;
      rest, w' := PressBack(cfg, w1, k - 1);
      hide Next;
      RunOne(cfg, w, Pressed(Back), rest);
      es := [Pressed(Back)] + rest;
    }
  }

  lemma DeliverBreaks(cfg: Cfg, w: World, c: Cmd)
    requires HashOk(cfg.hash16) && w.active && w.done == [] && c in w.flight && c.RunCmd? && c.gen == w.modal.gen
    requires c.req.privileged != w.modal.req.privileged
    ensures var w' := Next(cfg, w, Deliver(c, RunDone(NO_RESULT, None, false))); w'.Some? && !Promised(cfg, w'.value)
  {
    hide PlanOf, PublishedIsDone, Sides;
    var w' := Next(cfg, w, Deliver(c, RunDone(NO_RESULT, None, false))).value;
    assert w'.active && w'.done == [c.req] && w'.modal.req.privileged == w.modal.req.privileged;
    assert w'.done[0].privileged != w'.modal.req.privileged;
  }

  /** Afterwards the modal's privilege is not `other`. */
  lemma SetPrivilege(cfg: Cfg, w: World, other: bool) returns (es: seq<Event>, w': World)
    requires HashOk(cfg.hash16) && w.active && w.modal.state.Review? && !w.modal.isSudoBusy
    ensures NoOpens(es) && RunAll(cfg, w, es) == Some(w')
    ensures w'.active && w'.modal.gen == w.modal.gen && w'.done == w.done && w'.flight == w.flight
    ensures w'.modal.req.privileged != other
  {
    if w.modal.req.privileged != other {
      es, w' := [], w;
    } else {
      w' := Step(cfg, w, Pressed(Priv));
      assert w.flight + multiset{} == w.flight;
      hide Next;
      RunOne(cfg, w, Pressed(Priv), []);
      es := [Pressed(Priv)] + [];
    }
  }

  lemma JustOpened(cfg: Cfg, w: World, reqs: seq<Request>, pair: bool, gen: nat)
    requires HashOk(cfg.hash16) && CanOpen(cfg, w, reqs, pair)
    ensures var w1 := AfterOpen(cfg, w, reqs, pair, gen);
      && w1.active && w1.modal.state.Review? && w1.modal.gen == gen && w1.done == [] && !w1.modal.isSudoBusy
      && w.flight <= w1.flight
  {
    hide PlanOf, ExtractDiffTargetDir;
  }

  /** Leaving, setting the privilege and one late success break what is promised. */
  lemma UnsafeOpenBreaks(cfg: Cfg, w: World, reqs: seq<Request>, pair: bool, gen: nat)
    requires HashOk(cfg.hash16) && CanOpen(cfg, w, reqs, pair) && !SafeToOpen(w, gen)
    ensures !AlwaysPromised(cfg, AfterOpen(cfg, w, reqs, pair, gen))
  {
    var c :| c in w.flight && c.RunCmd? && c.gen >= gen;
    var w1 := AfterOpen(cfg, w, reqs, pair, gen);
    JustOpened(cfg, w, reqs, pair, gen);
    hide CanOpen, AfterOpen, Next, Promised, RunAll, AlwaysPromised, SafeToOpen, SharedTarget;
    var backs, w2 := PressBack(cfg, w1, c.gen - gen);
    var toggle, w3 := SetPrivilege(cfg, w2, c.req.privileged);
    var e := Deliver(c, RunDone(NO_RESULT, None, false));
    DeliverBreaks(cfg, w3, c);
    RunAppend(cfg, w1, backs, toggle);
    RunAppend(cfg, w1, backs + toggle, [e] + []);
    RunOne(cfg, w3, e, []);
    RunNone(cfg, Next(cfg, w3, e).value);
    OneBreaks(cfg, w1, backs + toggle + ([e] + []));
  }

  lemma OneBreaks(cfg: Cfg, w: World, es: seq<Event>)
    requires HashOk(cfg.hash16) && NoOpens(es) && RunAll(cfg, w, es).Some? && !Promised(cfg, RunAll(cfg, w, es).value)
    ensures !AlwaysPromised(cfg, w)
  {
  }

  lemma RunNone(cfg: Cfg, w: World)
    requires HashOk(cfg.hash16)
    ensures RunAll(cfg, w, []) == Some(w)
  {
  }

  /** Opening is safe exactly when no run in flight has reached the generation
      the modal is opened with: only then does everything promised hold in every
      run of that modal. */
  lemma SafeToOpenExactly(cfg: Cfg, w: World, reqs: seq<Request>, pair: bool, gen: nat)
    requires HashOk(cfg.hash16) && FlightOk(w) && CanOpen(cfg, w, reqs, pair)
    ensures SafeToOpen(w, gen) <==> AlwaysPromised(cfg, AfterOpen(cfg, w, reqs, pair, gen))
  {
    hide CanOpen, FlightOk, AlwaysPromised, AfterOpen;
    if SafeToOpen(w, gen) {
      SafeOpenPromises(cfg, w, reqs, pair, gen);
    } else {
      UnsafeOpenBreaks(cfg, w, reqs, pair, gen);
    }
  }

  /** As the program opens modals, from generation zero, that is exactly when no
      run at all is in flight. */
  lemma OpeningAtZeroIsSafe(cfg: Cfg, w: World, reqs: seq<Request>, pair: bool)
    requires HashOk(cfg.hash16) && FlightOk(w) && CanOpen(cfg, w, reqs, pair)
    ensures (forall c :: c in w.flight ==> !c.RunCmd?) <==> AlwaysPromised(cfg, AfterOpen(cfg, w, reqs, pair, 0))
  {
    hide CanOpen, FlightOk, AlwaysPromised, AfterOpen;
    SafeToOpenExactly(cfg, w, reqs, pair, 0);
  }

  // A run that goes wrong.

  predicate Succeeds(e: Event) { e.Deliver? && e.cmd.RunCmd? && e.outcome.RunDone? && e.outcome.err.None? }

  ghost predicate FinalsApart(cfg: Cfg, a: Request, b: Request)
    requires HashOk(cfg.hash16)
  {
    && PlanOf(cfg, a).Ok? && PlanOf(cfg, b).Ok?
    && !Under(PlanOf(cfg, a).value.final, PlanOf(cfg, b).value.final)
    && !Under(PlanOf(cfg, b).value.final, PlanOf(cfg, a).value.final)
  }

  /** No two successful extractions publish to places in each other's way, so the
      file system can have granted them all. */
  ghost predicate Grantable(cfg: Cfg, es: seq<Event>)
    requires HashOk(cfg.hash16)
  {
    forall i, j :: 0 <= i < j < |es| && Succeeds(es[i]) && Succeeds(es[j]) ==>
      FinalsApart(cfg, es[i].cmd.req, es[j].cmd.req)
  }

  /** The same source and snapshot extracted on its own, outside any pair. */
  function Alone(r: Request): Request { r.(diffContainer := "") }

  lemma AlonePlans(cfg: Cfg, r: Request)
    requires HashOk(cfg.hash16) && PlanOf(cfg, r).Ok? && r.diffContainer != ""
    ensures PlanOf(cfg, Alone(r)).Ok? && FinalsApart(cfg, r, Alone(r))
  {
    hide CleanBrowsePath, SlugOf, IncludesOk, ContainerOk, CleanString;
    assert WantName(Alone(r)) == WantName(r);
    PlanRejected(cfg, r);
    PlanRejected(cfg, Alone(r));
    FinalParts(cfg.root, cfg.hash16, r);
    FinalParts(cfg.root, cfg.hash16, Alone(r));
    var n, x, y := |RepoDir(cfg.root, r)|, PlanOf(cfg, r).value.final, PlanOf(cfg, Alone(r)).value.final;
    assert |x[n]| != |y[n]|;
  }

  lemma CommitAfterBack(cfg: Cfg, w1: World) returns (w2: World, w3: World)
    requires HashOk(cfg.hash16) && w1.active && w1.modal.state.Review?
    requires !w1.modal.isSudoBusy && !w1.modal.req.privileged
    ensures Next(cfg, w1, Pressed(Back)) == Some(w2) && Next(cfg, w2, Pressed(Enter)) == Some(w3)
    ensures w3.active && w3.modal.serial == w1.modal.serial
    ensures w3.flight == w1.flight
                         + multiset{BackCmd(w1.modal.serial), RunCmd(w1.modal.serial, w1.modal.gen + 2, w1.modal.req)}
  {
    hide PlanOf, ExtractDiffTargetDir, CanOpen;
    w2 := Step(cfg, w1, Pressed(Back));
    w3 := Step(cfg, w2, Pressed(Enter));
  }

  /** Committing after leaving, before the modal closes, abandons a run of
      generation two. */
  lemma AbandonRun(cfg: Cfg, w0: World, r: Request) returns (es: seq<Event>, w: World)
    requires HashOk(cfg.hash16) && Idle(w0) && CanOpen(cfg, w0, [r], false) && !r.privileged
    ensures es == [Open([r], false, 0), Pressed(Back), Pressed(Enter), Deliver(BackCmd(w0.modal.serial + 1), Deleted)]
    ensures RunAll(cfg, w0, es) == Some(w)
    ensures !w.active && w.modal.serial == w0.modal.serial + 1 && RunCmd(w.modal.serial, 2, r) in w.flight
    ensures FlightOk(w)
  {
    hide *;
    var s := w0.modal.serial + 1;
    es := [Open([r], false, 0), Pressed(Back), Pressed(Enter), Deliver(BackCmd(s), Deleted)];
    var w1 := AfterOpen(cfg, w0, [r], false, 0);
    JustOpened(cfg, w0, [r], false, 0);
    OpenedAlone(cfg, w0, r);
    var w2, w3 := CommitAfterBack(cfg, w1);
    w := CloseLate(cfg, w3);
    assert w.flight == w1.flight + multiset{RunCmd(s, 2, r)};
    RunFour(cfg, w0, es, w1, w2, w3, w);
    ClosedFlight(w);
  }

  lemma ClosedFlight(w: World)
    requires !w.active && forall c :: c in w.flight ==> c.serial <= w.modal.serial
    ensures FlightOk(w)
  {
  }

  lemma OpenedAlone(cfg: Cfg, w0: World, r: Request)
    requires HashOk(cfg.hash16) && Idle(w0) && CanOpen(cfg, w0, [r], false)
    ensures var w1 := AfterOpen(cfg, w0, [r], false, 0);
      && Next(cfg, w0, Open([r], false, 0)) == Some(w1)
      && w1.modal.serial == w0.modal.serial + 1 && w1.modal.req == r
      && forall c :: c in w1.flight ==> c.serial == w1.modal.serial
  {
    hide PlanOf, ExtractDiffTargetDir;
  }

  lemma CloseLate(cfg: Cfg, w: World) returns (w': World)
    requires HashOk(cfg.hash16) && w.active && BackCmd(w.modal.serial) in w.flight
    ensures Next(cfg, w, Deliver(BackCmd(w.modal.serial), Deleted)) == Some(w')
    ensures w' == w.(active := false, flight := w.flight - multiset{BackCmd(w.modal.serial)})
  {
    hide HandleKey, ApplyRunDone;
    w' := Next(cfg, w, Deliver(BackCmd(w.modal.serial), Deleted)).value;
  }

  lemma RunFour(cfg: Cfg, w0: World, es: seq<Event>, w1: World, w2: World, w3: World, w4: World)
    requires HashOk(cfg.hash16) && |es| == 4
    requires Next(cfg, w0, es[0]) == Some(w1) && Next(cfg, w1, es[1]) == Some(w2)
    requires Next(cfg, w2, es[2]) == Some(w3) && Next(cfg, w3, es[3]) == Some(w4)
    ensures RunAll(cfg, w0, es) == Some(w4)
  {
    hide Next;
    assert RunAll(cfg, w3, es[3..]) == Some(w4) by {
      assert es[3..][0] == es[3] && es[3..][1..] == [];
    }
    assert RunAll(cfg, w2, es[2..]) == Some(w4) by {
      assert es[2..][1..] == es[3..];
    }
    assert RunAll(cfg, w1, es[1..]) == Some(w4) by {
      assert es[1..][1..] == es[2..];
    }
  }

  /** A pair opened and committed: its first side runs as generation one, and its
      second side will plan. */
  lemma OpenPair(cfg: Cfg, w0: World, reqs: seq<Request>) returns (w1: World, w2: World)
    requires HashOk(cfg.hash16) && FlightOk(w0) && CanOpen(cfg, w0, reqs, true) && !reqs[0].privileged && |reqs| == 2
    ensures Next(cfg, w0, Open(reqs, true, 0)) == Some(w1) && Next(cfg, w1, Pressed(Enter)) == Some(w2)
    ensures w2.active && w2.sides == reqs && w2.done == [] && w2.modal.serial == w0.modal.serial + 1
    ensures w2.modal.gen == 1 && w2.modal.req == reqs[0] && w2.modal.queue == reqs[1..] && w2.modal.container.Some?
    ensures w2.flight == w0.flight + multiset{RunCmd(w2.modal.serial, 1, reqs[0])}
    ensures PlanOf(cfg, reqs[1].(privileged := reqs[0].privileged, targetRoot := reqs[0].targetRoot)).Ok?
  {
    hide PlanOf, ExtractDiffTargetDir, FieldsOk, Rejected, IsAbs, FlightOk;
    w1 := Step(cfg, w0, Open(reqs, true, 0));
    OpenKeeps(cfg, w0, reqs, true, 0);
    ReplanSucceeds(cfg, w1.modal);
    hide CanOpen, Planned, Conserved;
    w2 := Step(cfg, w1, Pressed(Enter));
    assert w1.flight == w0.flight + multiset{} == w0.flight;
  }

  /** With an abandoned run of generation two still to report, the second side
      shows success before it has run. */
  lemma StaleResult(cfg: Cfg, w0: World, reqs: seq<Request>, late: Request, ok: RunResult)
    returns (es: seq<Event>, w: World)
    requires HashOk(cfg.hash16) && FlightOk(w0) && CanOpen(cfg, w0, reqs, true) && !reqs[0].privileged && |reqs| == 2
    requires RunCmd(w0.modal.serial, 2, late) in w0.flight
    ensures es == [Open(reqs, true, 0), Pressed(Enter),
                   Deliver(RunCmd(w0.modal.serial + 1, 1, reqs[0]), RunDone(ok, None, false)),
                   Deliver(RunCmd(w0.modal.serial, 2, late), RunDone(ok, None, false))]
    ensures RunAll(cfg, w0, es) == Some(w)
    ensures w.active && w.modal.state.Success? && w.sides == reqs && w.done == [reqs[0], late]
    ensures exists c :: c in w.flight && c.RunCmd? && c.serial == w.modal.serial && c.gen == w.modal.gen
  {
    hide PlanOf, ExtractDiffTargetDir, CanOpen, Opened, FlightOk;
    var stale, first := RunCmd(w0.modal.serial, 2, late), RunCmd(w0.modal.serial + 1, 1, reqs[0]);
    var success := RunDone(ok, None, false);
    es := [Open(reqs, true, 0), Pressed(Enter), Deliver(first, success), Deliver(stale, success)];
    var w1, w2 := OpenPair(cfg, w0, reqs);
    var w3 := Step(cfg, w2, es[2]);
    assert w3.modal.gen == 2 && w3.done == [reqs[0]] && w3.modal.queue == [] && stale in w3.flight;
    w := Step(cfg, w3, es[3]);
    assert RunCmd(w3.modal.serial, 2, w3.modal.req) in w.flight;
    hide Next;
    RunFour(cfg, w0, es, w1, w2, w3, w);
  }

  /** As it is, generations restart at zero and only the tag is compared. For any
      two-sided extraction there is a run whose second side shows success while
      it is still being restored: the first side's source is extracted on its
      own, abandoned, and its success arrives after the pair's first side is
      done. The two extractions that succeed publish to places that are apart. */
  lemma StaleResultEndsPair(cfg: Cfg, w0: World, reqs: seq<Request>, ok: RunResult) returns (es: seq<Event>, w: World)
    requires HashOk(cfg.hash16) && Idle(w0) && CanOpen(cfg, w0, reqs, true) && |reqs| == 2 && !reqs[0].privileged
    ensures (forall i :: 0 <= i < |es| && es[i].Open? ==> es[i].gen == 0) && Grantable(cfg, es)
    ensures RunAll(cfg, w0, es) == Some(w)
    ensures w.active && w.modal.state.Success? && Sides(w.done) != Sides(w.sides) && !Promised(cfg, w)
    ensures exists c :: c in w.flight && c.RunCmd? && c.serial == w.modal.serial && c.gen == w.modal.gen
  {
    hide PlanOf, Next, RunAll, Promised;
    var other := Alone(reqs[0]);
    assert reqs[0].diffContainer != "" && reqs[0].diffContainer == reqs[1].diffContainer;
    AlonePlans(cfg, reqs[0]);
    hide ExtractDiffTargetDir;
    assert CanOpen(cfg, w0, [other], false);
    var es1, w1 := AbandonRun(cfg, w0, other);
    assert CanOpen(cfg, w1, reqs, true);
    hide CanOpen;
    var es2, w2 := StaleResult(cfg, w1, reqs, other, ok);
    RunAppend(cfg, w0, es1, es2);
    es, w := es1 + es2, w2;
    assert Sides(w.done)[1] != Sides(w.sides)[1];
    BrokenPromise(cfg, w);
  }

  lemma BrokenPromise(cfg: Cfg, w: World)
    requires HashOk(cfg.hash16) && w.active && w.modal.state.Success? && Sides(w.done) != Sides(w.sides)
    ensures !Promised(cfg, w)
  {
  }
}
