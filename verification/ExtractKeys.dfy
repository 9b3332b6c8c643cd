/** What each key and message of the extraction modal is for
    (internal/tui/extract.go), without regard to how the handlers branch. */
module ExtractKeys {
  import opened ExtractModal
  import opened ExtractPlan
  import opened Paths
  import opened Wrappers

  /** A review that waits for no password. */
  predicate Ready(m: Modal) { m.state.Review? && !m.isSudoBusy }

  predicate Stopped(m: Modal) { m.state.Canceled? || m.state.Failed? }

  /** A stopped run has left its staging directory behind. */
  predicate Pending(m: Modal, stagingNow: bool) { Stopped(m) && m.result.stagingCreated && stagingNow }

  predicate Leaves(m: Modal, k: Key, stagingNow: bool) {
    (k.Keep? && Pending(m, stagingNow)) || (k.Back? && !m.state.Running? && !m.state.FilePicker?)
  }

  /** The one command that a key starts, with the generation it then has: a run
      needs enter on an unprivileged review, a probe for sudo enter on a
      privileged one, a deletion the delete key and something to delete; other
      keys send nothing but the way back. */
  function Sent(m: Modal, k: Key, stagingNow: bool, gen: nat): Effects {
    if k.Enter? && Ready(m) then
      multiset{if m.req.privileged then ProbeCmd(m.serial, gen) else RunCmd(m.serial, gen, m.req)}
    else if k.Delete? && Pending(m, stagingNow) then multiset{DeleteCmd(m.serial, m.gen)}
    else if Leaves(m, k, stagingNow) then multiset{BackCmd(m.serial)}
    else multiset{}
  }

  /** What a key changes on screen: work and its generation start together, only
      a choice in the picker moves the target root, only the privilege key the
      privilege, and the picker opens where nothing is published yet. */
  predicate Shows(m: Modal, k: Key, stagingNow: bool, m': Modal) {
    && (m'.state.Running? <==> m.state.Running? || (k.Enter? && Ready(m) && !m.req.privileged))
    && (m'.state.KeepDelete? <==> m.state.KeepDelete? || (k.Delete? && Pending(m, stagingNow)))
    && (m'.state.FilePicker? && !m.state.FilePicker? <==>
          && k.Target?
          && (Ready(m)
              || (Stopped(m) && !Pending(m, stagingNow) && m.err == Some(Refused) && m.published == [])))
    && (m.state.FilePicker? && k.Back? ==> m'.state.Review?)
    && (m'.isSudoBusy <==> if k.Enter? && Ready(m) then m.req.privileged else m.isSudoBusy)
    && (m'.req.privileged != m.req.privileged <==> k.Priv? && Ready(m))
    && (m'.req.targetRoot != m.req.targetRoot ==> m.state.FilePicker? && k.Pick? && m'.req.targetRoot == k.root)
    && m'.gen == m.gen + (if (k.Enter? && Ready(m)) || Leaves(m, k, stagingNow) then 1 else 0)
    && (m'.cancel <==> if k.Enter? && Ready(m) then !m.req.privileged else m.cancel && !Leaves(m, k, stagingNow))
  }

  ghost predicate KeyMeans(w: World, k: Key, stagingNow: bool, w': World) {
    && w'.active && Shows(w.modal, k, stagingNow, w'.modal)
    && w'.flight == w.flight + Sent(w.modal, k, stagingNow, w'.modal.gen)
  }

  lemma ReviewMeaning(m: Modal, k: Key, stagingNow: bool)
    requires m.state.Review?
    ensures var (m', fx) := ReviewKey(m, k); Shows(m, k, stagingNow, m') && fx == Sent(m, k, stagingNow, m'.gen)
  {
  }

  lemma TerminalMeaning(m: Modal, k: Key, stagingNow: bool)
    requires Stopped(m)
    ensures var (m', fx) := TerminalKey(m, k, stagingNow);
            Shows(m, k, stagingNow, m') && fx == Sent(m, k, stagingNow, m'.gen)
  {
  }

  lemma PickerMeaning(cfg: Cfg, m: Modal, k: Key, stagingNow: bool, vacant: Path -> bool)
    requires HashOk(cfg.hash16) && m.state.FilePicker?
    ensures var (m', fx) := PickerKey(cfg, m, k, vacant);
            Shows(m, k, stagingNow, m') && fx == Sent(m, k, stagingNow, m'.gen)
  {
    hide PlanOf, ExtractDiffTargetDir, Retargets;
  }

  lemma KeyMeaning(cfg: Cfg, m: Modal, k: Key, stagingNow: bool, vacant: Path -> bool)
    requires HashOk(cfg.hash16)
    ensures var (m', fx) := HandleKey(cfg, m, k, stagingNow, vacant);
            Shows(m, k, stagingNow, m') && fx == Sent(m, k, stagingNow, m'.gen)
  {
    hide ReviewKey, TerminalKey, PickerKey, Shows;
    match m.state
    case Review => ReviewMeaning(m, k, stagingNow);
    case Canceled => TerminalMeaning(m, k, stagingNow);
    case Failed => TerminalMeaning(m, k, stagingNow);
    case FilePicker => PickerMeaning(cfg, m, k, stagingNow, vacant);
    case _ => OtherKeys(m, k, stagingNow);
  }

  lemma OtherKeys(m: Modal, k: Key, stagingNow: bool)
    requires m.state.Running? || m.state.Success? || m.state.KeepDelete?
    ensures var (m', fx) := if k.Back? then BackFrom(m) else (m, multiset{});
            Shows(m, k, stagingNow, m') && fx == Sent(m, k, stagingNow, m'.gen)
  {
  }

  // Choosing a target.

  predicate PlansVacant(cfg: Cfg, req: Request, vacant: Path -> bool)
    requires HashOk(cfg.hash16)
  {
    var plan := PlanExtractPaths(cfg.root, cfg.hash16, req);
    plan.Ok? && vacant(plan.value.staging) && vacant(plan.value.final)
  }

  /** Under this root every side still to come plans to paths that are free. */
  predicate AllVacant(cfg: Cfg, m: Modal, root: string, vacant: Path -> bool)
    requires HashOk(cfg.hash16)
  {
    && PlansVacant(cfg, m.req.(targetRoot := root), vacant)
    && forall r :: r in m.queue ==> PlansVacant(cfg, r.(targetRoot := root), vacant)
  }

  function PairDir(cfg: Cfg, req: Request, root: string): seq<string> {
    CleanBrowsePath(if root != "" then root else cfg.root) + [SlugOf(req.repo), req.diffContainer]
  }

  /** A root under which all sides fit becomes every side's, with the paths and
      the pair directory that follow, and the modal is back at review; any other
      changes nothing. */
  ghost predicate PickMeans(cfg: Cfg, m: Modal, root: string, vacant: Path -> bool, m': Modal)
    requires HashOk(cfg.hash16)
  {
    if !AllVacant(cfg, m, root, vacant) then m' == m
    else
      var req := m.req.(targetRoot := root);
      var plan := PlanExtractPaths(cfg.root, cfg.hash16, req).value;
      && m' == m.(req := req, queue := m'.queue, staging := plan.staging, final := plan.final, state := Review,
                  container := m'.container)
      && |m'.queue| == |m.queue|
      && (forall i :: 0 <= i < |m.queue| ==> m'.queue[i] == m.queue[i].(targetRoot := root))
      && (m'.container.Some? <==> m.container.Some?)
      && (m.container.Some? ==> m'.container.value == PairDir(cfg, m.req, root))
  }

  lemma PairDirMeans(cfg: Cfg, req: Request, root: string)
    requires HashOk(cfg.hash16) && PlanOf(cfg, req.(targetRoot := root)).Ok? && req.diffContainer != ""
    ensures ExtractDiffTargetDir(cfg.root, req.(targetRoot := root)).Ok?
    ensures ExtractDiffTargetDir(cfg.root, req.(targetRoot := root)).value == PairDir(cfg, req, root)
  {
    PairDirSpelled(cfg.root, req.(targetRoot := root));
    hide CleanBrowsePath, SlugOf, ExtractDiffTargetDir, Rejected;
  }

  lemma PickMeaning(cfg: Cfg, m: Modal, root: string, vacant: Path -> bool)
    requires HashOk(cfg.hash16) && (m.container.Some? ==> m.req.diffContainer != "")
    ensures CanRetarget(cfg, m, root, vacant) <==> AllVacant(cfg, m, root, vacant)
    ensures PickMeans(cfg, m, root, vacant, if CanRetarget(cfg, m, root, vacant) then Retarget(cfg, m, root) else m)
  {
    if m.container.Some? && PlanOf(cfg, m.req.(targetRoot := root)).Ok? {
      PairDirMeans(cfg, m.req, root);
    }
    hide PlanExtractPaths, ExtractDiffTargetDir, PairDir;
    assert forall i :: 0 <= i < |m.queue| ==>
      (Retargets(cfg, m.queue[i], root, vacant) <==> PlansVacant(cfg, m.queue[i].(targetRoot := root), vacant));
  }

  // Opening.

  /** A modal opens at review on the first request with the others waiting, at
      generation zero; a directory's contents are counted when it is alone. */
  ghost predicate OpenMeans(cfg: Cfg, before: World, reqs: seq<Request>, pair: bool, w: World)
    requires HashOk(cfg.hash16) && reqs != [] && PlanExtractPaths(cfg.root, cfg.hash16, reqs[0]).Ok?
  {
    var m, plan := w.modal, PlanExtractPaths(cfg.root, cfg.hash16, reqs[0]).value;
    && w.active && w.sides == reqs && w.done == []
    && m.state.Review? && m.req == reqs[0] && m.queue == reqs[1..] && m.gen == 0
    && m.staging == plan.staging && m.final == plan.final
    && m.published == [] && m.err.None? && !m.isSudoBusy && !m.cancel && m.counts.None?
    && !m.result.stagingCreated && !m.stagingExists
    && (m.container.Some? <==> pair)
    && (pair && reqs[0].diffContainer != "" ==> m.container.value == PairDir(cfg, reqs[0], reqs[0].targetRoot))
    && w.flight == before.flight
                   + if pair || reqs[0].mode == ExtractFile then multiset{} else multiset{CountsCmd(m.serial, 0)}
  }

  lemma OpenMeaning(cfg: Cfg, before: World, reqs: seq<Request>, pair: bool)
    requires HashOk(cfg.hash16) && CanOpen(cfg, before, reqs, pair)
    ensures Next(cfg, before, Open(reqs, pair, 0)).Some?
    ensures OpenMeans(cfg, before, reqs, pair, Next(cfg, before, Open(reqs, pair, 0)).value)
  {
    if pair && reqs[0].diffContainer != "" {
      assert reqs[0].(targetRoot := reqs[0].targetRoot) == reqs[0];
      PairDirMeans(cfg, reqs[0], reqs[0].targetRoot);
    }
    hide PlanExtractPaths, ExtractDiffTargetDir, PairDir;
    assert before.flight + multiset{} == before.flight;
  }

  // Messages.

  /** A busy review of the message's generation goes on as told: it runs, asks
      for the password, or gives up and is ready again. Nothing else reacts. */
  ghost predicate SudoMeans(w: World, c: Cmd, go: bool, ask: bool, w': World)
    requires c.ProbeCmd? || c.AuthCmd?
  {
    var m, rest := w.modal, w.flight - multiset{c};
    if c.gen != m.gen || !m.state.Review? || !m.isSudoBusy then w' == w.(flight := rest)
    else if go then
      && w'.modal.state.Running? && !w'.modal.isSudoBusy && w'.modal.req == m.req && w'.modal.gen == m.gen + 1
      && w'.flight == rest + multiset{RunCmd(m.serial, m.gen + 1, m.req)}
    else if ask then w' == w.(flight := rest + multiset{AuthCmd(m.serial, m.gen)})
    else w' == w.(modal := m.(isSudoBusy := false), flight := rest)
  }

  lemma SudoMeaning(cfg: Cfg, w: World, c: Cmd, o: Outcome)
    requires HashOk(cfg.hash16) && w.active && c in w.flight && (c.ProbeCmd? || c.AuthCmd?)
    ensures SudoMeans(w, c, if c.ProbeCmd? then o.Ready? else o.AuthOk?, c.ProbeCmd? && o.NeedsAuth?,
                      Next(cfg, w, Deliver(c, o)).value)
  {
    assert w.flight - multiset{c} + multiset{} == w.flight - multiset{c};
  }

  /** Counts are shown when they are known and of this generation; a finished
      deletion goes back; going back closes the modal. */
  lemma OtherMeaning(cfg: Cfg, w: World, c: Cmd, o: Outcome)
    requires HashOk(cfg.hash16) && w.active && c in w.flight
    ensures var w', rest := Next(cfg, w, Deliver(c, o)), w.flight - multiset{c};
      && (c.CountsCmd? ==> w' == Some(w.(flight := rest, modal :=
            if c.gen == w.modal.gen && o.Counted? && o.known then w.modal.(counts := Some((o.files, o.dirs)))
            else w.modal)))
      && (c.DeleteCmd? ==> w' == Some(w.(flight :=
            if c.gen == w.modal.gen then rest + multiset{BackCmd(w.modal.serial)} else rest)))
      && (c.BackCmd? ==> w' == Some(w.(active := false, flight := rest)))
  {
    assert w.flight - multiset{c} + multiset{} == w.flight - multiset{c};
  }
}
