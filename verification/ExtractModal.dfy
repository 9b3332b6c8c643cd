/** The extraction modal (internal/tui/extract.go) with the root's routing of its
    messages (internal/tui/app.go): what any sequence of keys and late messages
    can do to a one- or two-sided extraction. */
module ExtractModal {
  import opened ExtractPlan
  import opened Paths
  import opened Wrappers

  datatype ModalState = Review | Running | Success | Canceled | Failed | FilePicker | KeepDelete

  /** Cancellation or deadline, an occupied target, anything else. */
  datatype RunError = Interrupted | Refused | Other

  datatype RunResult = RunResult(stagingDir: Option<Path>, stagingCreated: bool)

  const NO_RESULT := RunResult(None, false)

  datatype SideResult = SideResult(short: string, result: RunResult)

  /** One modal's fields. `serial` says which opening it is; the program keeps
      no such number, so nothing below may test it. `container` is set for a
      directional pair. */
  datatype Modal = Modal(
    serial: nat, state: ModalState, req: Request, ranTargetRoot: string,
    queue: seq<Request>, published: seq<SideResult>, container: Option<Path>,
    staging: Path, final: Path, gen: nat, cancel: bool,
    result: RunResult, err: Option<RunError>, stagingExists: bool, isSudoBusy: bool, counts: Option<(nat, nat)>)

  /** Work in flight; each command later delivers one message with its tag. */
  datatype Cmd =
    | RunCmd(serial: nat, gen: nat, req: Request)
    | CountsCmd(serial: nat, gen: nat)
    | ProbeCmd(serial: nat, gen: nat)
    | AuthCmd(serial: nat, gen: nat)
    | DeleteCmd(serial: nat, gen: nat)
    | BackCmd(serial: nat)

  /** What a command turns out to say. */
  datatype Outcome =
    | RunDone(result: RunResult, err: Option<RunError>, stagingNow: bool)
    | Counted(known: bool, files: nat, dirs: nat)
    | Ready | Unavailable | NeedsAuth
    | AuthOk | AuthFailed
    | Deleted

  datatype Key = Back | Target | Priv | Enter | Delete | Keep | Pick(root: string) | OtherKey

  /** Where planning happens: the configured root and the hash. */
  datatype Cfg = Cfg(root: string, hash16: string -> string)

  type Effects = multiset<Cmd>

  function PlanOf(cfg: Cfg, req: Request): Result<Plan, Field>
    requires HashOk(cfg.hash16)
  {
    PlanExtractPaths(cfg.root, cfg.hash16, req)
  }

  // The pointer methods, as functions.

  function Supersede(m: Modal): Modal { m.(gen := m.gen + 1, cancel := false) }

  function StartRun(m: Modal): (Modal, Effects) {
    var s := Supersede(m);
    (s.(cancel := true, ranTargetRoot := m.req.targetRoot), multiset{RunCmd(m.serial, s.gen, m.req)})
  }

  function CommitRun(m: Modal): (Modal, Effects) {
    var (s, fx) := StartRun(m.(isSudoBusy := false));
    (s.(state := Running), fx)
  }

  function NextSide(m: Modal): Request
    requires m.queue != []
  {
    m.queue[0].(privileged := m.req.privileged, targetRoot := m.req.targetRoot)
  }

  function RunNext(m: Modal, next: Request, plan: Plan): (Modal, Effects)
    requires m.queue != []
  {
    var (s, fx) := StartRun(m.(queue := m.queue[1..], req := next, staging := plan.staging, final := plan.final));
    (s.(state := Running), fx)
  }

  function AdvanceQueue(cfg: Cfg, m: Modal): (Modal, Effects)
    requires HashOk(cfg.hash16) && m.queue != []
  {
    var next := NextSide(m);
    var plan := PlanOf(cfg, next);
    if plan.Err? then (m.(err := Some(Other), state := Failed, stagingExists := false), multiset{})
    else RunNext(m, next, plan.value)
  }

  function RunStopped(m: Modal, result: RunResult, err: RunError, stagingNow: bool): Modal {
    m.(result := result, err := Some(err), state := if err.Interrupted? then Canceled else Failed,
       stagingExists := result.stagingCreated && stagingNow)
  }

  function RunSucceeded(cfg: Cfg, m: Modal, result: RunResult): (Modal, Effects)
    requires HashOk(cfg.hash16)
  {
    if m.container.None? then (m.(result := result, err := None, state := Success), multiset{})
    else
      var p := m.(result := result, err := None, published := m.published + [SideResult(m.req.snapshotShort, result)]);
      if m.queue != [] then AdvanceQueue(cfg, p) else (p.(state := Success), multiset{})
  }

  function ApplyRunDone(cfg: Cfg, m: Modal, gen: nat, result: RunResult, err: Option<RunError>, stagingNow: bool)
    : (Modal, Effects)
    requires HashOk(cfg.hash16)
  {
    if gen != m.gen then (m, multiset{})
    else if err.Some? then (RunStopped(m, result, err.value, stagingNow), multiset{})
    else RunSucceeded(cfg, m, result)
  }

  function ApplySudoProbe(m: Modal, gen: nat, o: Outcome): (Modal, Effects) {
    if gen != m.gen || !m.state.Review? || !m.isSudoBusy then (m, multiset{})
    else if o.Ready? then CommitRun(m)
    else if o.NeedsAuth? then (m, multiset{AuthCmd(m.serial, m.gen)})
    else (m.(isSudoBusy := false), multiset{})
  }

  function ApplySudoAuth(m: Modal, gen: nat, o: Outcome): (Modal, Effects) {
    if gen != m.gen || !m.state.Review? || !m.isSudoBusy then (m, multiset{})
    else if o.AuthOk? then CommitRun(m)
    else (m.(isSudoBusy := false), multiset{})
  }

  function ApplyDeleteStagingDone(m: Modal, gen: nat): Effects {
    if gen != m.gen then multiset{} else multiset{BackCmd(m.serial)}
  }

  function ApplyCounts(m: Modal, gen: nat, o: Outcome): Modal {
    if gen != m.gen || !o.Counted? || !o.known then m else m.(counts := Some((o.files, o.dirs)))
  }

  /** planOverrideAllSides: every side replans under root and must be vacant. */
  predicate Retargets(cfg: Cfg, req: Request, root: string, vacant: Path -> bool)
    requires HashOk(cfg.hash16)
  {
    var plan := PlanOf(cfg, req.(targetRoot := root));
    plan.Ok? && vacant(plan.value.staging) && vacant(plan.value.final)
  }

  function Retargeted(q: seq<Request>, root: string): (r: seq<Request>)
    ensures |r| == |q| && forall i :: 0 <= i < |q| ==> r[i] == q[i].(targetRoot := root)
  {
    seq(|q|, i requires 0 <= i < |q| => q[i].(targetRoot := root))
  }

  predicate CanRetarget(cfg: Cfg, m: Modal, root: string, vacant: Path -> bool)
    requires HashOk(cfg.hash16)
  {
    && Retargets(cfg, m.req, root, vacant)
    && (forall i :: 0 <= i < |m.queue| ==> Retargets(cfg, m.queue[i], root, vacant))
    && (m.container.Some? ==> ExtractDiffTargetDir(cfg.root, m.req.(targetRoot := root)).Ok?)
  }

  function Retarget(cfg: Cfg, m: Modal, root: string): Modal
    requires HashOk(cfg.hash16) && PlanOf(cfg, m.req.(targetRoot := root)).Ok?
    requires m.container.Some? ==> ExtractDiffTargetDir(cfg.root, m.req.(targetRoot := root)).Ok?
  {
    var req := m.req.(targetRoot := root);
    var plan := PlanOf(cfg, req).value;
    m.(req := req, queue := Retargeted(m.queue, root), staging := plan.staging, final := plan.final, state := Review,
       container := if m.container.Some? then Some(ExtractDiffTargetDir(cfg.root, req).value) else None)
  }

  // Keys.

  function BackFrom(m: Modal): (Modal, Effects) {
    match m.state
    case Running => (m, multiset{})                       // only cancels the run's context
    case FilePicker => (m.(state := Review), multiset{})
    case _ => (Supersede(m), multiset{BackCmd(m.serial)})
  }

  function ReviewKey(m: Modal, k: Key): (Modal, Effects) {
    if m.isSudoBusy && !k.Back? then (m, multiset{})
    else match k
      case Back => BackFrom(m)
      case Target => (m.(state := FilePicker), multiset{})
      case Priv => (m.(req := m.req.(privileged := !m.req.privileged)), multiset{})
      case Enter =>
        if m.req.privileged then
          var s := Supersede(m).(isSudoBusy := true);
          (s, multiset{ProbeCmd(m.serial, s.gen)})
        else CommitRun(m)
      case _ => (m, multiset{})
  }

  function TerminalKey(m: Modal, k: Key, stagingNow: bool): (Modal, Effects) {
    if !(k.Delete? || k.Keep? || k.Back? || k.Target?) then (m, multiset{})
    else
      var p := m.(stagingExists := m.result.stagingCreated && stagingNow);
      if p.stagingExists then
        if k.Delete? then (p.(state := KeepDelete), multiset{DeleteCmd(m.serial, m.gen)})
        else if k.Keep? || k.Back? then BackFrom(p)
        else (p, multiset{})
      else if m.err == Some(Refused) && k.Target? && m.published == [] then
        (p.(err := None, result := NO_RESULT, state := FilePicker), multiset{})
      else if k.Back? then BackFrom(p)
      else (p, multiset{})
  }

  function PickerKey(cfg: Cfg, m: Modal, k: Key, vacant: Path -> bool): (Modal, Effects)
    requires HashOk(cfg.hash16)
  {
    if k.Back? then BackFrom(m)
    else if k.Pick? && CanRetarget(cfg, m, k.root, vacant) then (Retarget(cfg, m, k.root), multiset{})
    else (m, multiset{})
  }

  function HandleKey(cfg: Cfg, m: Modal, k: Key, stagingNow: bool, vacant: Path -> bool): (Modal, Effects)
    requires HashOk(cfg.hash16)
  {
    match m.state
    case Review => ReviewKey(m, k)
    case Canceled => TerminalKey(m, k, stagingNow)
    case Failed => TerminalKey(m, k, stagingNow)
    case FilePicker => PickerKey(cfg, m, k, vacant)
    case _ => if k.Back? then BackFrom(m) else (m, multiset{})
  }

  // The root and the work in flight.

  /** `sides` are the requests the modal was opened with, `done` those whose
      successful result it has taken. */
  datatype World = World(active: bool, modal: Modal, flight: multiset<Cmd>, sides: seq<Request>, done: seq<Request>)

  datatype Event =
    | Open(reqs: seq<Request>, pair: bool, gen: nat)
    | Press(key: Key, stagingNow: bool, vacant: Path -> bool)
    | Deliver(cmd: Cmd, outcome: Outcome)

  function Opened(cfg: Cfg, serial: nat, reqs: seq<Request>, pair: bool, gen: nat): Modal
    requires HashOk(cfg.hash16) && reqs != [] && PlanOf(cfg, reqs[0]).Ok?
    requires pair ==> ExtractDiffTargetDir(cfg.root, reqs[0]).Ok?
  {
    var plan := PlanOf(cfg, reqs[0]).value;
    Modal(serial, Review, reqs[0], "", reqs[1..], [],
          if pair then Some(ExtractDiffTargetDir(cfg.root, reqs[0]).value) else None,
          plan.staging, plan.final, gen, false, NO_RESULT, None, false, false, None)
  }

  predicate CanOpen(cfg: Cfg, w: World, reqs: seq<Request>, pair: bool)
    requires HashOk(cfg.hash16)
  {
    && !w.active && reqs != [] && (pair || |reqs| == 1)
    && (forall i :: 0 <= i < |reqs| ==> PlanOf(cfg, reqs[i]).Ok?)
    && (pair ==>
          ExtractDiffTargetDir(cfg.root, reqs[0]).Ok? && forall i :: 0 <= i < |reqs| ==> SamePair(reqs[0], reqs[i]))
  }

  /** The sides of one pair are published under one container. */
  predicate SamePair(a: Request, b: Request) { a.repo == b.repo && a.diffContainer == b.diffContainer }

  function Next(cfg: Cfg, w: World, e: Event): Option<World>
    requires HashOk(cfg.hash16)
  {
    match e
    case Open(reqs, pair, gen) =>
      if !CanOpen(cfg, w, reqs, pair) then None
      else
        var m := Opened(cfg, w.modal.serial + 1, reqs, pair, gen);
        var counts :=
          if !pair && m.req.mode.ExtractDirectoryTree? then multiset{CountsCmd(m.serial, m.gen)} else multiset{};
        Some(World(true, m, w.flight + counts, reqs, []))
    case Press(key, stagingNow, vacant) =>
      if !w.active then None
      else
        var (m, fx) := HandleKey(cfg, w.modal, key, stagingNow, vacant);
        Some(w.(modal := m, flight := w.flight + fx))
    case Deliver(cmd, outcome) =>
      if cmd !in w.flight || (cmd.RunCmd? && !outcome.RunDone?) then None
      else
        var w' := w.(flight := w.flight - multiset{cmd});
        Some(if w.active then Take(cfg, w', cmd, outcome) else w')
  }

  /** The root hands a message to the modal that is open now. */
  function Take(cfg: Cfg, w: World, cmd: Cmd, o: Outcome): World
    requires HashOk(cfg.hash16) && (cmd.RunCmd? ==> o.RunDone?)
  {
    match cmd
    case RunCmd(_, gen, req) =>
      var (m, fx) := ApplyRunDone(cfg, w.modal, gen, o.result, o.err, o.stagingNow);
      w.(modal := m, flight := w.flight + fx,
         done := if gen == w.modal.gen && o.err.None? then w.done + [req] else w.done)
    case CountsCmd(_, gen) => w.(modal := ApplyCounts(w.modal, gen, o))
    case ProbeCmd(_, gen) =>
      var (m, fx) := ApplySudoProbe(w.modal, gen, o);
      w.(modal := m, flight := w.flight + fx)
    case AuthCmd(_, gen) =>
      var (m, fx) := ApplySudoAuth(w.modal, gen, o);
      w.(modal := m, flight := w.flight + fx)
    case DeleteCmd(_, gen) => w.(flight := w.flight + ApplyDeleteStagingDone(w.modal, gen))
    case BackCmd(_) => w.(active := false)
  }

  /** A message of an earlier modal that the open one would take for its own. */
  predicate Impostor(w: World, cmd: Cmd) {
    w.active && cmd.serial != w.modal.serial && (cmd.BackCmd? || cmd.gen == w.modal.gen)
  }

  // What holds whenever the modal is open.

  /** A side whichever root and privilege it runs under. */
  function Side(r: Request): Request { r.(targetRoot := "", privileged := false) }

  function Sides(rs: seq<Request>): (r: seq<Request>)
    ensures |r| == |rs| && forall i :: 0 <= i < |rs| ==> r[i] == Side(rs[i])
  {
    seq(|rs|, i requires 0 <= i < |rs| => Side(rs[i]))
  }

  /** done ++ current ++ queue is the list of sides, in order; at success done
      alone is. */
  predicate Conserved(m: Modal, sides: seq<Request>, done: seq<Request>) {
    if m.state.Success? then Sides(done) == Sides(sides) && m.queue == []
    else Sides(done) + [Side(m.req)] + Sides(m.queue) == Sides(sides)
  }

  /** Every side completed ran under the root and privilege now in force. */
  predicate SharedTarget(m: Modal, done: seq<Request>) {
    forall i :: 0 <= i < |done| ==> done[i].targetRoot == m.req.targetRoot && done[i].privileged == m.req.privileged
  }

  predicate PublishedIsDone(m: Modal, done: seq<Request>) {
    if m.container.None? then m.published == []
    else |m.published| == |done| && forall i :: 0 <= i < |done| ==> m.published[i].short == done[i].snapshotShort
  }

  ghost predicate Planned(cfg: Cfg, m: Modal)
    requires HashOk(cfg.hash16)
  {
    && PlanOf(cfg, m.req) == Ok(Plan(m.staging, m.final))
    && (forall i :: 0 <= i < |m.queue| ==> FieldsOk(m.queue[i]) && SamePair(m.req, m.queue[i]))
    && (m.container.Some? ==> ExtractDiffTargetDir(cfg.root, m.req) == Ok(m.container.value))
    && (m.container.None? ==> m.queue == [])
  }

  /** Before anything is published the modal may be reviewed and retargeted;
      afterwards it may not. */
  predicate Fresh(m: Modal, done: seq<Request>) {
    (m.state.Review? || m.state.FilePicker? ==> done == []) && (m.isSudoBusy ==> m.state.Review?)
  }

  ghost predicate ModalOk(cfg: Cfg, w: World)
    requires HashOk(cfg.hash16)
  {
    && Conserved(w.modal, w.sides, w.done) && SharedTarget(w.modal, w.done)
    && PublishedIsDone(w.modal, w.done) && Planned(cfg, w.modal) && Fresh(w.modal, w.done)
    && (w.modal.container.None? ==> |w.sides| == 1)
  }

  /** This modal's commands in flight: what they are tagged with, and that the
      state that waits for one has exactly one coming. */
  ghost predicate FlightOk(w: World) {
    && (forall c :: c in w.flight ==> c.serial <= w.modal.serial)
    && (w.active ==> Coming(w.modal, w.flight))
  }

  ghost predicate Coming(m: Modal, flight: multiset<Cmd>) {
    && (forall c :: c in flight && c.serial == m.serial && !c.BackCmd? ==> c.gen <= m.gen)
    && (forall c :: c in flight && c.serial == m.serial && c.RunCmd? && c.gen == m.gen ==>
          m.state.Running? && c.req == m.req && flight[c] == 1)
    && (m.state.Running? ==> RunCmd(m.serial, m.gen, m.req) in flight)
    && (m.state.KeepDelete? ==> DeleteCmd(m.serial, m.gen) in flight || BackCmd(m.serial) in flight)
    && (m.state.Review? && m.isSudoBusy ==>
          ProbeCmd(m.serial, m.gen) in flight || AuthCmd(m.serial, m.gen) in flight || BackCmd(m.serial) in flight)
  }

  ghost predicate Inv(cfg: Cfg, w: World)
    requires HashOk(cfg.hash16)
  {
    (w.active ==> ModalOk(cfg, w)) && FlightOk(w)
  }

  lemma ConservedCount(m: Modal, sides: seq<Request>, done: seq<Request>)
    requires Conserved(m, sides, done)
    ensures |sides| == if m.state.Success? then |done| else |done| + 1 + |m.queue|
  {
    assert |Sides(done)| == |done| && |Sides(sides)| == |sides|;
    if !m.state.Success? {
      assert |Sides(done) + [Side(m.req)] + Sides(m.queue)| == |done| + 1 + |m.queue|;
    }
  }

  /** Replanning the next side under the shared root and privilege cannot fail. */
  lemma ReplanSucceeds(cfg: Cfg, m: Modal)
    requires HashOk(cfg.hash16) && Planned(cfg, m) && m.queue != []
    ensures var next := NextSide(m);
            PlanOf(cfg, next).Ok? && Side(next) == Side(m.queue[0]) && FieldsOk(next)
  {
    hide Rejected, IsAbs;
    var next := NextSide(m);
    PlanRejected(cfg, m.req);
    PlanRejected(cfg, next);
    PlanSplits(cfg.root, m.req);
    PlanSplits(cfg.root, next);
    assert FieldsOk(m.queue[0]);
  }

  lemma PlanRejected(cfg: Cfg, req: Request)
    requires HashOk(cfg.hash16)
    ensures PlanOf(cfg, req).Ok? <==> Rejected(cfg.root, req).None?
  {
  }

  lemma PairDir(cfg: Cfg, a: Request, b: Request)
    requires SamePair(a, b) && a.targetRoot == b.targetRoot
    ensures ExtractDiffTargetDir(cfg.root, a) == ExtractDiffTargetDir(cfg.root, b)
  {
  }

  lemma SidesConcat(a: seq<Request>, r: Request)
    ensures Sides(a + [r]) == Sides(a) + [Side(r)]
    ensures a != [] ==> Sides(a) == [Side(a[0])] + Sides(a[1..])
  {
  }

  lemma LastSideKeeps(cfg: Cfg, w: World, r: RunResult, err: Option<RunError>, stagingNow: bool)
    requires HashOk(cfg.hash16) && ModalOk(cfg, w) && w.modal.state.Running? && (err.Some? || w.modal.queue == [])
    ensures var (m, fx) := ApplyRunDone(cfg, w.modal, w.modal.gen, r, err, stagingNow);
      && ModalOk(cfg, w.(modal := m, done := if err.None? then w.done + [w.modal.req] else w.done))
      && !m.state.Running? && !m.state.Review? && !m.state.KeepDelete?
      && (err.None? ==> m.state.Success?) && fx == multiset{} && m.gen == w.modal.gen && m.serial == w.modal.serial
  {
    hide Rejected, PlanExtractPaths, ExtractDiffTargetDir, FieldsOk, AdvanceQueue;
    ConservedCount(w.modal, w.sides, w.done);
    SidesConcat(w.done, w.modal.req);
  }

  lemma AdvanceShape(cfg: Cfg, m: Modal, r: RunResult, stagingNow: bool)
    requires HashOk(cfg.hash16) && m.container.Some? && m.queue != [] && PlanOf(cfg, NextSide(m)).Ok?
    ensures var next := NextSide(m); var plan := PlanOf(cfg, next).value;
      ApplyRunDone(cfg, m, m.gen, r, None, stagingNow) ==
      (m.(result := r, err := None, published := m.published + [SideResult(m.req.snapshotShort, r)],
          queue := m.queue[1..], req := next, staging := plan.staging, final := plan.final, gen := m.gen + 1,
          cancel := true, ranTargetRoot := next.targetRoot, state := Running),
       multiset{RunCmd(m.serial, m.gen + 1, next)})
  {
    hide PlanOf;
  }

  /** After a side other than the last: the next one runs at once, under the
      same root and privilege, and replanning cannot fail. */
  lemma NextSideKeeps(cfg: Cfg, w: World, r: RunResult, stagingNow: bool)
    requires HashOk(cfg.hash16) && ModalOk(cfg, w) && w.modal.state.Running? && w.modal.queue != []
    ensures var (m, fx) := ApplyRunDone(cfg, w.modal, w.modal.gen, r, None, stagingNow);
      && ModalOk(cfg, w.(modal := m, done := w.done + [w.modal.req]))
      && m.state.Running? && m.err.None? && fx == multiset{RunCmd(m.serial, m.gen, m.req)}
      && m.gen == w.modal.gen + 1 && m.serial == w.modal.serial
      && m.req.targetRoot == w.modal.req.targetRoot && m.req.privileged == w.modal.req.privileged
  {
    hide Rejected, PlanExtractPaths, ExtractDiffTargetDir, FieldsOk, ApplyRunDone;
    var m, done := w.modal, w.done + [w.modal.req];
    assert m.container.Some?;
    ReplanSucceeds(cfg, m);
    AdvanceShape(cfg, m, r, stagingNow);
    var next := NextSide(m);
    var m' := ApplyRunDone(cfg, m, m.gen, r, None, stagingNow).0;
    assert Conserved(m', w.sides, done) by {
      SidesConcat(w.done, m.req);
      SidesConcat(m.queue, m.req);
    }
    hide Conserved;
    assert Planned(cfg, m') by {
      PairDir(cfg, m.req, next);
    }
    hide Planned;
  }

  /** A key never completes, reorders or loses a side. */
  lemma KeyKeeps(cfg: Cfg, w: World, k: Key, stagingNow: bool, vacant: Path -> bool)
    requires HashOk(cfg.hash16) && ModalOk(cfg, w)
    ensures ModalOk(cfg, w.(modal := HandleKey(cfg, w.modal, k, stagingNow, vacant).0))
  {
    hide Rejected, PlanExtractPaths, ExtractDiffTargetDir, FieldsOk, Retargets;
    ConservedCount(w.modal, w.sides, w.done);
    match w.modal.state
    case Review => ReviewKeyKeeps(cfg, w, k);
    case FilePicker => PickerKeyKeeps(cfg, w, k, vacant);
    case Canceled => TerminalKeyKeeps(cfg, w, k, stagingNow);
    case Failed => TerminalKeyKeeps(cfg, w, k, stagingNow);
    case Running =>
    case Success =>
    case KeepDelete =>
  }

  lemma PrivilegeAside(cfg: Cfg, req: Request, p: bool)
    requires HashOk(cfg.hash16)
    ensures PlanOf(cfg, req.(privileged := p)) == PlanOf(cfg, req)
    ensures ExtractDiffTargetDir(cfg.root, req.(privileged := p)) == ExtractDiffTargetDir(cfg.root, req)
  {
    hide SlugOf, CleanBrowsePath, IncludesOk, ContainerOk;
    assert WantName(req.(privileged := p)) == WantName(req);
  }

  lemma ReviewKeyKeeps(cfg: Cfg, w: World, k: Key)
    requires HashOk(cfg.hash16) && ModalOk(cfg, w) && w.modal.state.Review?
    ensures ModalOk(cfg, w.(modal := ReviewKey(w.modal, k).0))
  {
    hide Rejected, PlanExtractPaths, ExtractDiffTargetDir, FieldsOk;
    PrivilegeAside(cfg, w.modal.req, !w.modal.req.privileged);
  }

  lemma TerminalKeyKeeps(cfg: Cfg, w: World, k: Key, stagingNow: bool)
    requires HashOk(cfg.hash16) && ModalOk(cfg, w) && (w.modal.state.Canceled? || w.modal.state.Failed?)
    ensures ModalOk(cfg, w.(modal := TerminalKey(w.modal, k, stagingNow).0))
  {
    hide Rejected, PlanExtractPaths, ExtractDiffTargetDir, FieldsOk;
    ConservedCount(w.modal, w.sides, w.done);
  }

  lemma RootAside(req: Request, root: string)
    ensures FieldsOk(req.(targetRoot := root)) == FieldsOk(req)
  {
  }

  lemma PickerKeyKeeps(cfg: Cfg, w: World, k: Key, vacant: Path -> bool)
    requires HashOk(cfg.hash16) && ModalOk(cfg, w) && w.modal.state.FilePicker?
    ensures ModalOk(cfg, w.(modal := PickerKey(cfg, w.modal, k, vacant).0))
  {
    hide Rejected, PlanExtractPaths, ExtractDiffTargetDir, FieldsOk;
    var m := w.modal;
    if k.Pick? && CanRetarget(cfg, m, k.root, vacant) {
      forall i | 0 <= i < |m.queue| ensures FieldsOk(m.queue[i].(targetRoot := k.root)) {
        RootAside(m.queue[i], k.root);
      }
      assert Sides(Retargeted(m.queue, k.root)) == Sides(m.queue);
    }
  }

  // The commands in flight.

  predicate Older(m: Modal, flight: multiset<Cmd>) { forall c :: c in flight ==> c.serial <= m.serial }

  /** Nothing starts and nothing waits. */
  lemma QuietKeepsFlight(m: Modal, m': Modal, flight: multiset<Cmd>)
    requires Coming(m, flight) && Older(m, flight) && !m.state.Running?
    requires m'.serial == m.serial && m'.gen >= m.gen
    requires !m'.state.Running? && !m'.state.KeepDelete? && (m'.state.Review? ==> !m'.isSudoBusy)
    ensures Coming(m', flight + multiset{}) && Older(m', flight + multiset{})
  {
    assert flight + multiset{} == flight;
  }

  lemma SupersedeKeepsFlight(m: Modal, flight: multiset<Cmd>)
    requires Coming(m, flight) && Older(m, flight) && !m.state.Running?
    ensures var m', fx := Supersede(m), multiset{BackCmd(m.serial)};
            Coming(m', flight + fx) && Older(m', flight + fx)
  {
  }

  lemma PickerKeepsFlight(cfg: Cfg, m: Modal, flight: multiset<Cmd>, k: Key, vacant: Path -> bool)
    requires HashOk(cfg.hash16) && m.state.FilePicker? && !m.isSudoBusy && Coming(m, flight) && Older(m, flight)
    ensures var (m', fx) := PickerKey(cfg, m, k, vacant);
            m'.serial == m.serial && Coming(m', flight + fx) && Older(m', flight + fx)
  {
    hide PlanExtractPaths, ExtractDiffTargetDir, CanRetarget, Coming;
    QuietKeepsFlight(m, PickerKey(cfg, m, k, vacant).0, flight);
  }

  lemma KeyKeepsFlight(cfg: Cfg, m: Modal, flight: multiset<Cmd>, k: Key, stagingNow: bool, vacant: Path -> bool)
    requires HashOk(cfg.hash16) && Coming(m, flight) && Older(m, flight)
    requires m.state.FilePicker? ==> !m.isSudoBusy
    ensures var (m', fx) := HandleKey(cfg, m, k, stagingNow, vacant);
            m'.serial == m.serial && Coming(m', flight + fx) && Older(m', flight + fx)
  {
    hide Coming, ReviewKey, TerminalKey, PickerKey;
    match m.state
    case Review => ReviewKeepsFlight(m, flight, k);
    case FilePicker => PickerKeepsFlight(cfg, m, flight, k, vacant);
    case Canceled => TerminalKeepsFlight(m, flight, k, stagingNow);
    case Failed => TerminalKeepsFlight(m, flight, k, stagingNow);
    case Running => assert flight + multiset{} == flight;
    case Success =>
      assert flight + multiset{} == flight;
      SupersedeKeepsFlight(m, flight);
    case KeepDelete =>
      assert flight + multiset{} == flight;
      SupersedeKeepsFlight(m, flight);
  }

  lemma CommitStarts(m: Modal, flight: multiset<Cmd>)
    requires m.state.Review? && Coming(m, flight) && Older(m, flight)
    ensures var (m', fx) := CommitRun(m); Coming(m', flight + fx) && Older(m', flight + fx)
  {
  }

  lemma ProbeStarts(m: Modal, flight: multiset<Cmd>)
    requires m.state.Review? && Coming(m, flight) && Older(m, flight)
    ensures var m', fx := Supersede(m).(isSudoBusy := true), multiset{ProbeCmd(m.serial, m.gen + 1)};
            Coming(m', flight + fx) && Older(m', flight + fx)
  {
  }

  lemma ReviewKeepsFlight(m: Modal, flight: multiset<Cmd>, k: Key)
    requires m.state.Review? && Coming(m, flight) && Older(m, flight)
    ensures var (m', fx) := ReviewKey(m, k);
            m'.serial == m.serial && Coming(m', flight + fx) && Older(m', flight + fx)
  {
    hide Coming;
    assert flight + multiset{} == flight;
    if k.Back? {
      SupersedeKeepsFlight(m, flight);
    } else if m.isSudoBusy || !(k.Target? || k.Priv? || k.Enter?) {
    } else if !k.Enter? {
      QuietKeepsFlight(m, ReviewKey(m, k).0, flight);
    } else if m.req.privileged {
      ProbeStarts(m, flight);
    } else {
      CommitStarts(m, flight);
    }
  }

  lemma DeleteStarts(m: Modal, flight: multiset<Cmd>)
    requires (m.state.Canceled? || m.state.Failed?) && Coming(m, flight) && Older(m, flight)
    ensures var m', fx := m.(stagingExists := true, state := KeepDelete), multiset{DeleteCmd(m.serial, m.gen)};
            Coming(m', flight + fx) && Older(m', flight + fx)
  {
  }

  lemma TerminalKeepsFlight(m: Modal, flight: multiset<Cmd>, k: Key, stagingNow: bool)
    requires (m.state.Canceled? || m.state.Failed?) && Coming(m, flight) && Older(m, flight)
    ensures var (m', fx) := TerminalKey(m, k, stagingNow);
            m'.serial == m.serial && Coming(m', flight + fx) && Older(m', flight + fx)
  {
    hide Coming, Older;
    var (m', fx) := TerminalKey(m, k, stagingNow);
    var p := m.(stagingExists := m.result.stagingCreated && stagingNow);
    QuietKeepsFlight(m, p, flight);
    assert flight + multiset{} == flight;
    if m'.state.KeepDelete? {
      DeleteStarts(m, flight);
    } else if m'.gen != m.gen {
      SupersedeKeepsFlight(p, flight);
    } else if m'.state.FilePicker? {
      QuietKeepsFlight(m, m', flight);
    }
  }

  /** The current run's only command is gone once it is delivered. */
  lemma RunKeepsFlight(m: Modal, flight: multiset<Cmd>, c: Cmd, m': Modal, fx: Effects)
    requires Coming(m, flight) && Older(m, flight) && c in flight && c == RunCmd(m.serial, m.gen, m.req)
    requires m'.serial == m.serial
    requires (m'.gen == m.gen && !m'.state.Running? && !m'.state.Review? && !m'.state.KeepDelete? && fx == multiset{})
             || (m'.gen == m.gen + 1 && m'.state.Running? && fx == multiset{RunCmd(m'.serial, m'.gen, m'.req)})
    ensures Coming(m', flight - multiset{c} + fx) && Older(m', flight - multiset{c} + fx)
  {
  }

  /** A message with another generation changes nothing here. */
  lemma StaleKeepsFlight(m: Modal, flight: multiset<Cmd>, c: Cmd)
    requires Coming(m, flight) && Older(m, flight) && c in flight && !Waited(m, c)
    ensures Coming(m, flight - multiset{c}) && Older(m, flight - multiset{c})
  {
  }

  /** The commands that some state waits for. */
  predicate Waited(m: Modal, c: Cmd) {
    c == RunCmd(m.serial, m.gen, m.req) || c == DeleteCmd(m.serial, m.gen) || c == ProbeCmd(m.serial, m.gen)
    || c == AuthCmd(m.serial, m.gen) || c == BackCmd(m.serial)
  }

  lemma SudoKeepsFlight(m: Modal, flight: multiset<Cmd>, c: Cmd, o: Outcome)
    requires Coming(m, flight) && Older(m, flight) && c in flight && (c.ProbeCmd? || c.AuthCmd?)
    ensures var (m', fx) := if c.ProbeCmd? then ApplySudoProbe(m, c.gen, o) else ApplySudoAuth(m, c.gen, o);
            m'.serial == m.serial && Coming(m', flight - multiset{c} + fx) && Older(m', flight - multiset{c} + fx)
  {
  }

  lemma DeleteKeepsFlight(m: Modal, flight: multiset<Cmd>, c: Cmd)
    requires Coming(m, flight) && Older(m, flight) && c in flight && c.DeleteCmd?
    ensures var fx := ApplyDeleteStagingDone(m, c.gen);
            Coming(m, flight - multiset{c} + fx) && Older(m, flight - multiset{c} + fx)
  {
  }

  lemma SudoKeepsModal(cfg: Cfg, w: World, c: Cmd, o: Outcome)
    requires HashOk(cfg.hash16) && ModalOk(cfg, w) && (c.ProbeCmd? || c.AuthCmd?)
    ensures var m := if c.ProbeCmd? then ApplySudoProbe(w.modal, c.gen, o).0 else ApplySudoAuth(w.modal, c.gen, o).0;
            ModalOk(cfg, w.(modal := m))
  {
    hide Rejected, PlanExtractPaths, ExtractDiffTargetDir, FieldsOk;
    ConservedCount(w.modal, w.sides, w.done);
  }

  lemma OpenKeeps(cfg: Cfg, w: World, reqs: seq<Request>, pair: bool, gen: nat)
    requires HashOk(cfg.hash16) && FlightOk(w) && CanOpen(cfg, w, reqs, pair)
    ensures Inv(cfg, Next(cfg, w, Open(reqs, pair, gen)).value)
  {
    hide Rejected, PlanExtractPaths, ExtractDiffTargetDir, FieldsOk;
    var w' := Next(cfg, w, Open(reqs, pair, gen)).value;
    assert reqs == [reqs[0]] + reqs[1..];
    assert Sides([]) + [Side(reqs[0])] + Sides(reqs[1..]) == Sides(reqs);
    forall i | 0 <= i < |reqs| ensures FieldsOk(reqs[i]) {
      PlanRejected(cfg, reqs[i]);
      PlanSplits(cfg.root, reqs[i]);
    }
  }

  /** A run result from an earlier modal that passes for this one's. */
  predicate Forged(w: World, e: Event) {
    e.Deliver? && e.cmd in w.flight && e.cmd.RunCmd? && Impostor(w, e.cmd)
  }

  lemma TakeKeeps(cfg: Cfg, w: World, cmd: Cmd, o: Outcome)
    requires HashOk(cfg.hash16) && Inv(cfg, w) && w.active && cmd in w.flight && (cmd.RunCmd? ==> o.RunDone?)
    requires cmd.RunCmd? ==> !Impostor(w, cmd)
    ensures Inv(cfg, Take(cfg, w.(flight := w.flight - multiset{cmd}), cmd, o))
  {
    hide ModalOk, Coming, ApplyRunDone, ApplySudoProbe, ApplySudoAuth;
    var m, w1 := w.modal, w.(flight := w.flight - multiset{cmd});
    assert Older(m, w.flight);
    match cmd
    case RunCmd(serial, gen, req) =>
      if gen == m.gen {
        CurrentRun(m, w.flight, cmd);
        SameModal(cfg, w, w1.flight);
        if o.err.Some? || m.queue == [] {
          LastSideKeeps(cfg, w1, o.result, o.err, o.stagingNow);
        } else {
          NextSideKeeps(cfg, w1, o.result, o.stagingNow);
        }
        var (m', fx) := ApplyRunDone(cfg, m, gen, o.result, o.err, o.stagingNow);
        RunKeepsFlight(m, w.flight, cmd, m', fx);
        SameModal(cfg, Take(cfg, w1, cmd, o).(flight := w1.flight), w1.flight + fx);
      } else {
        StaleRun(cfg, m, gen, o);
        StaleKeepsFlight(m, w.flight, cmd);
        assert w1.flight + multiset{} == w1.flight;
        SameModal(cfg, w, w1.flight);
      }
    case CountsCmd(_, gen) =>
      StaleKeepsFlight(m, w.flight, cmd);
      CountsAside(cfg, w, w1.flight, gen, o);
    case ProbeCmd(_, gen) =>
      SudoKeepsFlight(m, w.flight, cmd, o);
      SudoKeepsModal(cfg, w, cmd, o);
      var (m', fx) := ApplySudoProbe(m, gen, o);
      SameModal(cfg, w.(modal := m'), w1.flight + fx);
    case AuthCmd(_, gen) =>
      SudoKeepsFlight(m, w.flight, cmd, o);
      SudoKeepsModal(cfg, w, cmd, o);
      var (m', fx) := ApplySudoAuth(m, gen, o);
      SameModal(cfg, w.(modal := m'), w1.flight + fx);
    case DeleteCmd(_, gen) =>
      DeleteKeepsFlight(m, w.flight, cmd);
      SameModal(cfg, w, w1.flight + ApplyDeleteStagingDone(m, gen));
    case BackCmd(_) =>
  }

  lemma SameModal(cfg: Cfg, w: World, flight: multiset<Cmd>)
    requires HashOk(cfg.hash16) && ModalOk(cfg, w)
    ensures ModalOk(cfg, w.(flight := flight))
  {
    hide Conserved, SharedTarget, PublishedIsDone, Planned, Fresh;
  }

  lemma CurrentRun(m: Modal, flight: multiset<Cmd>, c: Cmd)
    requires Coming(m, flight) && c in flight && c.RunCmd? && c.serial == m.serial && c.gen == m.gen
    ensures m.state.Running? && c == RunCmd(m.serial, m.gen, m.req)
  {
  }

  lemma StaleRun(cfg: Cfg, m: Modal, gen: nat, o: Outcome)
    requires HashOk(cfg.hash16) && gen != m.gen && o.RunDone?
    ensures ApplyRunDone(cfg, m, gen, o.result, o.err, o.stagingNow) == (m, multiset{})
  {
  }

  lemma CountsAside(cfg: Cfg, w: World, flight: multiset<Cmd>, gen: nat, o: Outcome)
    requires HashOk(cfg.hash16) && ModalOk(cfg, w) && Coming(w.modal, flight)
    ensures var m := ApplyCounts(w.modal, gen, o);
            ModalOk(cfg, w.(modal := m, flight := flight)) && Coming(m, flight) && m.serial == w.modal.serial
  {
    hide PlanOf, ExtractDiffTargetDir, FieldsOk;
  }

  lemma OnlyReviewIsBusy(cfg: Cfg, w: World)
    requires HashOk(cfg.hash16) && ModalOk(cfg, w)
    ensures w.modal.isSudoBusy ==> w.modal.state.Review?
  {
  }

  lemma NextKeeps(cfg: Cfg, w: World, e: Event)
    requires HashOk(cfg.hash16) && Inv(cfg, w) && Next(cfg, w, e).Some? && !Forged(w, e)
    ensures Inv(cfg, Next(cfg, w, e).value)
  {
    hide ModalOk, Coming, Take, HandleKey, CanOpen;
    match e
    case Open(reqs, pair, gen) => OpenKeeps(cfg, w, reqs, pair, gen);
    case Press(key, stagingNow, vacant) =>
      KeyKeeps(cfg, w, key, stagingNow, vacant);
      OnlyReviewIsBusy(cfg, w);
      KeyKeepsFlight(cfg, w.modal, w.flight, key, stagingNow, vacant);
      var (m, fx) := HandleKey(cfg, w.modal, key, stagingNow, vacant);
      SameModal(cfg, w.(modal := m), w.flight + fx);
    case Deliver(cmd, o) =>
      if w.active {
        TakeKeeps(cfg, w, cmd, o);
      }
  }
}
