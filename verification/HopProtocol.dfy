/**
 The upgrade hop protocol between the ClusterVersion reconciler, which plans a hop and
 marks the cluster with the upgrade-ready annotation, and the BKECluster reconciler,
 which runs the hop, removes the mark and patches the ClusterVersion status
 (controllers/clusterversion/clusterversion_controller.go,
 controllers/capbke/bkecluster_upgrade_dag.go).

 Every patch of the annotation or of the status is one step on a shared store.
 */
module HopProtocol {
  import opened Wrappers
  import opened HopStatus
  import U = UpgradePath

  /** A planned hop: the version it was planned for and the version it leads to. */
  datatype Hop = Hop(from: string, to: string)

  /** What the BKECluster reconciler is doing: nothing, running a hop, or it has removed
      the mark of the hop and not yet patched the status. */
  datatype Work = Idle | Running(hop: Hop) | Cleared(hop: Hop)

  /** `mark` is the annotation; only its `to` part is written to the cluster.  `planned` is
      the hop the ClusterVersion reconciler is about to mark.  `approved` collects the first
      edges of all paths found so far. */
  datatype State = State(
    cv: ClusterVersion, mark: Option<Hop>, planned: Option<Hop>, work: Work,
    catalog: U.Adjacency, approved: set<Hop>)

  datatype Step =
    | ChangeCatalog(catalog: U.Adjacency)
    | ChangeDesired(desired: string)
    | ChangePhase(phase: Phase)
    | Plan(installed: string, path: seq<U.Rule>)
    | Mark
    | Unmark
    | Begin
    | Clear
    | Finish(success: bool)
    | GiveUp
    | InstallDone(installed: string)
    | InstallSynced(installed: string)

  /** An annotation of spaces only counts as absent. */
  predicate Live(mark: Option<Hop>) {
    mark.Some? && Trim(mark.value.to) != ""
  }

  function FirstNonEmpty(a: string, b: string): string {
    if Trim(a) != "" then Trim(a) else Trim(b)
  }

  function Annotation(s: State): Option<string> {
    if s.mark.Some? then Some(s.mark.value.to) else None
  }

  ghost predicate Enabled(s: State, step: Step) {
    match step
    case Plan(installed, path) =>
      var from := FirstNonEmpty(s.cv.current, installed);
      from != "" && path != [] && U.Shortest(s.catalog, from, path, Trim(s.cv.desired))
    case Mark => s.planned.Some?
    case Begin => s.work.Idle? && Live(s.mark)
    case Clear => s.work.Running?
    case Finish(_) => s.work.Cleared?
    case GiveUp => !s.work.Idle?
    case InstallDone(_) => s.work.Idle? && !Live(s.mark)
    case InstallSynced(_) => s.work.Idle?
    case _ => true
  }

  function Next(s: State, step: Step): State
    requires step.Plan? ==> step.path != []
    requires step.Mark? ==> s.planned.Some?
    requires step.Begin? ==> s.mark.Some?
    requires step.Clear? || step.Finish? ==> !s.work.Idle?
  {
    match step
    case ChangeCatalog(catalog) => s.(catalog := catalog)
    case ChangeDesired(desired) => s.(cv := s.cv.(desired := desired))
    case ChangePhase(phase) => s.(cv := s.cv.(phase := phase))
    case Plan(_, path) =>
      var hop := Hop(path[0].from, path[0].to);
      s.(planned := Some(hop), approved := s.approved + {hop})
    case Mark => s.(mark := s.planned, planned := None)
    case Unmark => s.(mark := None)
    case Begin => s.(work := Running(s.mark.value))
    case Clear => s.(mark := None, work := Cleared(s.work.hop))
    case Finish(success) =>
      s.(work := Idle, cv := if success then CompleteHop(s.cv, s.work.hop.to) else FailHop(s.cv, s.work.hop.to))
    case GiveUp => s.(work := Idle)
    case InstallDone(installed) => s.(cv := CompleteInstall(s.cv, installed))
    case InstallSynced(installed) => s.(cv := SyncInstall(s.cv, Annotation(s), installed))
  }

  // Edge safety ---------------------------------------------------------------------

  /** Hops come from paths that were found; a hop that runs has a target. */
  predicate Known(s: State) {
    && Trim(s.cv.current) == s.cv.current
    && (s.mark.Some? ==> s.mark.value in s.approved)
    && (s.planned.Some? ==> s.planned.value in s.approved)
    && (!s.work.Idle? ==> s.work.hop in s.approved && Trim(s.work.hop.to) != "")
  }

  /** Marked and running hops start at the current version. */
  predicate UpToDate(s: State) {
    s.cv.current != "" ==>
      && (Live(s.mark) ==> s.mark.value.from == s.cv.current)
      && (!s.work.Idle? ==> s.work.hop.from == s.cv.current)
  }

  /** The record is an approved hop. */
  ghost predicate IsApproved(approved: set<Hop>, r: HopRecord) {
    exists hop :: hop in approved && hop.from == r.from && Trim(hop.to) == r.to
  }

  ghost predicate Sound(s: State) {
    forall r :: r in s.cv.history && r.succeeded ==> IsApproved(s.approved, r)
  }

  lemma StepKnown(s: State, step: Step)
    requires Known(s) && Enabled(s, step)
    ensures Known(Next(s, step))
  {
    if step.Finish? { TrimTrims(s.work.hop.to); }
    if step.InstallDone? || step.InstallSynced? { TrimTrims(s.cv.desired); }
  }

  /** A planned hop is an unblocked edge of the catalog that starts at the version in use. */
  lemma PlanIsEdge(s: State, step: Step)
    requires step.Plan? && Enabled(s, step)
    ensures var e := step.path[0];
            && e in U.Edges(s.catalog, e.from) && !e.blocked
            && e.from == FirstNonEmpty(s.cv.current, step.installed)
            && Next(s, step).approved == s.approved + {Hop(e.from, e.to)}
  {
    U.WalkTail(s.catalog, FirstNonEmpty(s.cv.current, step.installed), step.path);
  }

  /** The two steps that can go wrong, and when they do not: marking a hop planned for the
      version that is still current, and finishing a hop before the next one is marked. */
  predicate InOrder(s: State, step: Step) {
    match step
    case Mark => s.cv.current == "" || !Live(s.planned) || s.planned.value.from == s.cv.current
    case Finish(success) =>
      success && !s.work.Idle? && Live(s.mark) ==> s.mark.value.from == Trim(s.work.hop.to)
    case _ => true
  }

  /** Hops stay up to date with a step exactly when the step is in order. */
  lemma StepUpToDate(s: State, step: Step)
    requires Known(s) && UpToDate(s) && Enabled(s, step)
    ensures UpToDate(Next(s, step)) <==> InOrder(s, step)
  {
    if step.InstallDone? || step.InstallSynced? { TrimTrims(s.cv.desired); }
  }

  /** Success records are written for approved hops only. */
  lemma StepSound(s: State, step: Step)
    requires Known(s) && UpToDate(s) && Sound(s) && Enabled(s, step)
    ensures Sound(Next(s, step))
  {
    var s' := Next(s, step);
    forall r | r in s'.cv.history && r.succeeded
      ensures IsApproved(s'.approved, r)
    {
      if r in s.cv.history {
        var hop :| hop in s.approved && hop.from == r.from && Trim(hop.to) == r.to;
        assert hop in s'.approved;
      } else {
        assert step == Finish(true);
        var hop := s.work.hop;
        assert hop in s'.approved && hop.from == r.from && Trim(hop.to) == r.to;
      }
    }
  }

  /** If the step records a success, some approved hop leads from the current version to the
      version it moves to. */
  ghost predicate Backed(s: State, step: Step) {
    step == Finish(true) && !s.work.Idle? && s.cv.current != "" && Trim(s.work.hop.to) != s.cv.current ==>
      exists hop :: hop in s.approved && hop.from == s.cv.current && Trim(hop.to) == Trim(s.work.hop.to)
  }

  /** In every interleaving of single patches, marks stale or not: all success records stay
      approved hops with a step exactly when the success it records, if any, is backed. */
  lemma StepSoundExact(s: State, step: Step)
    requires Known(s) && Sound(s) && Enabled(s, step)
    ensures Sound(Next(s, step)) <==> Backed(s, step)
  {
    var s' := Next(s, step);
    forall r | IsApproved(s.approved, r) ensures IsApproved(s'.approved, r) {
      var hop :| hop in s.approved && hop.from == r.from && Trim(hop.to) == r.to;
      assert hop in s'.approved;
    }
    if step == Finish(true) && s.cv.current != "" && Trim(s.work.hop.to) != s.cv.current {
      var added := HopRecord(s.cv.current, Trim(s.work.hop.to), true);
      assert s'.cv.history == s.cv.history + [added];
      assert added in s'.cv.history;
      assert Backed(s, step) <==> IsApproved(s.approved, added);
    }
  }

  ghost predicate Run(s: State, steps: seq<Step>, s': State)
    decreases |steps|
  {
    if steps == [] then s' == s
    else Enabled(s, steps[0]) && Run(Next(s, steps[0]), steps[1..], s')
  }

  /** Every step of the run is in order. */
  ghost predicate Orderly(s: State, steps: seq<Step>)
    decreases |steps|
  {
    steps != [] ==> Enabled(s, steps[0]) && InOrder(s, steps[0]) && Orderly(Next(s, steps[0]), steps[1..])
  }

  /**
   In every run whose marks and completions are in order, the marked hop starts at the
   current version and every success record is an approved upgrade edge, although the
   desired version and the catalog change at will.
   */
  lemma {:induction false} OrderlyRunsAreSafe(s: State, steps: seq<Step>, s': State)
    requires Known(s) && UpToDate(s) && Sound(s)
    requires Run(s, steps, s') && Orderly(s, steps)
    ensures Known(s') && UpToDate(s') && Sound(s')
    decreases |steps|
  {
    if steps != [] {
      StepKnown(s, steps[0]);
      StepUpToDate(s, steps[0]);
      StepSound(s, steps[0]);
      OrderlyRunsAreSafe(Next(s, steps[0]), steps[1..], s');
    }
  }

  // Whole reconciles --------------------------------------------------------------

  datatype Image = ImageFailed | ImagePending | ImageValid

  /** What a reconcile of the ClusterVersion sees besides the ClusterVersion itself. */
  datatype View = View(installed: string, clusterReady: bool, imageKnown: bool,
                       catalogLoaded: bool, path: Result<seq<U.Rule>, U.PathError>, image: Image)

  datatype Move =
    | Reconcile(view: View)
    | CompleteUpgrade
    | AbortUpgrade
    | Installed(installed: string)
    | SyncInstalled(installed: string)
    | NewDesired(desired: string)
    | NewCatalog(catalog: U.Adjacency)

  predicate IsInstallPhase(cv: ClusterVersion, view: View) {
    var desired, current := Trim(cv.desired), Trim(cv.current);
    if current != "" then current == desired && !view.clusterReady && !view.imageKnown
    else !view.clusterReady
  }

  datatype Action =
    | Stop
    | StartInstall(failed: bool)
    | PatchPhase(phase: Phase)
    | RemoveMark
    | MarkReady(path: seq<U.Rule>)

  /** The decisions of one reconcile of the ClusterVersion. */
  function Decide(s: State, view: View): Action {
    var desired := Trim(s.cv.desired);
    var current := FirstNonEmpty(s.cv.current, view.installed);
    if desired == "" then Stop
    else if IsInstallPhase(s.cv, view) then StartInstall(view.image.ImageFailed?)
    else if current == "" then Stop
    else if current == desired then RemoveMark
    else if s.cv.phase.Failed? then Stop
    else if !view.catalogLoaded || view.path.Err? then PatchPhase(PreCheckFailed)
    else if view.path.value == [] then Stop
    else match view.image
      case ImageFailed => PatchPhase(PreCheckFailed)
      case ImagePending => Stop
      case ImageValid => if Annotation(s) == Some(view.path.value[0].to) then Stop else MarkReady(view.path.value)
  }

  /** An installation is under way while the cluster is not ready and has no version, or has the
      desired one without its release image. */
  lemma InstallPhaseExact(cv: ClusterVersion, view: View)
    ensures IsInstallPhase(cv, view) <==>
              && !view.clusterReady
              && (Trim(cv.current) == "" || (Trim(cv.current) == Trim(cv.desired) && !view.imageKnown))
  {
  }

  /** The steps of a reconcile that is not interrupted. */
  function Steps(s: State, move: Move): seq<Step> {
    match move
    case Reconcile(view) =>
      (match Decide(s, view)
       case Stop => []
       case StartInstall(failed) => [ChangePhase(Installing)] + (if failed then [ChangePhase(Failed)] else [])
       case PatchPhase(phase) => [ChangePhase(phase)]
       case RemoveMark => [Unmark]
       case MarkReady(path) => [Plan(view.installed, path), ChangePhase(PreChecking), Mark])
    case CompleteUpgrade => if Live(s.mark) then [Begin, Clear, Finish(true)] else []
    case AbortUpgrade => if Live(s.mark) then [Begin, Clear, Finish(false)] else []
    case Installed(installed) => if Live(s.mark) then [] else [InstallDone(installed)]
    case SyncInstalled(installed) => [InstallSynced(installed)]
    case NewDesired(desired) => [ChangeDesired(desired)]
    case NewCatalog(catalog) => [ChangeCatalog(catalog)]
  }

  /** No reconcile is under way, and the path that was found is the one FindPath promises. */
  ghost predicate MoveEnabled(s: State, move: Move) {
    && s.work.Idle?
    && (move.Reconcile? && move.view.catalogLoaded && move.view.path.Ok? ==>
          U.Shortest(s.catalog, FirstNonEmpty(s.cv.current, move.view.installed),
                     move.view.path.value, Trim(s.cv.desired)))
  }

  function After(s: State, steps: seq<Step>): State
    requires Fits(s, steps)
    decreases |steps|
  {
    if steps == [] then s else After(Next(s, steps[0]), steps[1..])
  }

  /** The steps make sense one after the other. */
  predicate Fits(s: State, steps: seq<Step>)
    decreases |steps|
  {
    steps != [] ==>
      && (steps[0].Plan? ==> steps[0].path != [])
      && (steps[0].Mark? ==> s.planned.Some?)
      && (steps[0].Begin? ==> s.mark.Some?)
      && (steps[0].Clear? || steps[0].Finish? ==> !s.work.Idle?)
      && Fits(Next(s, steps[0]), steps[1..])
  }

  lemma ConsStep(s: State, a: Step, rest: seq<Step>)
    requires Enabled(s, a) && InOrder(s, a) && Fits(Next(s, a), rest)
    requires Run(Next(s, a), rest, After(Next(s, a), rest)) && Orderly(Next(s, a), rest)
    ensures Fits(s, [a] + rest) && After(s, [a] + rest) == After(Next(s, a), rest)
    ensures Run(s, [a] + rest, After(s, [a] + rest)) && Orderly(s, [a] + rest)
  {
    assert ([a] + rest)[1..] == rest;
  }

  lemma TwoSteps(s: State, a: Step, b: Step)
    requires Enabled(s, a) && InOrder(s, a)
    requires Enabled(Next(s, a), b) && InOrder(Next(s, a), b)
    ensures Fits(s, [a, b]) && After(s, [a, b]) == Next(Next(s, a), b)
    ensures Run(s, [a, b], After(s, [a, b])) && Orderly(s, [a, b])
  {
    OneStep(Next(s, a), b);
    ConsStep(s, a, [b]);
    assert [a, b] == [a] + [b];
  }

  lemma ThreeSteps(s: State, a: Step, b: Step, c: Step)
    requires Enabled(s, a) && InOrder(s, a)
    requires Enabled(Next(s, a), b) && InOrder(Next(s, a), b)
    requires Enabled(Next(Next(s, a), b), c) && InOrder(Next(Next(s, a), b), c)
    ensures Fits(s, [a, b, c]) && After(s, [a, b, c]) == Next(Next(Next(s, a), b), c)
    ensures Run(s, [a, b, c], After(s, [a, b, c])) && Orderly(s, [a, b, c])
  {
    TwoSteps(Next(s, a), b, c);
    ConsStep(s, a, [b, c]);
    assert [a, b, c] == [a] + [b, c];
  }

  lemma OneStep(s: State, a: Step)
    requires Enabled(s, a) && InOrder(s, a)
    ensures Fits(s, [a]) && After(s, [a]) == Next(s, a) && Run(s, [a], Next(s, a)) && Orderly(s, [a])
  {
    assert [a][1..] == [];
  }

  /** What a reconcile that is not interrupted does. */
  function Coarse(s: State, move: Move): State {
    match move
    case Reconcile(view) =>
      (match Decide(s, view)
       case Stop => s
       case StartInstall(failed) => s.(cv := s.cv.(phase := if failed then Failed else Installing))
       case PatchPhase(phase) => s.(cv := s.cv.(phase := phase))
       case RemoveMark => s.(mark := None)
       case MarkReady(path) =>
         if path == [] then s
         else
           var hop := Hop(path[0].from, path[0].to);
           s.(cv := s.cv.(phase := PreChecking), mark := Some(hop), planned := None, approved := s.approved + {hop}))
    case CompleteUpgrade =>
      if Live(s.mark) then s.(mark := None, work := Idle, cv := CompleteHop(s.cv, s.mark.value.to)) else s
    case AbortUpgrade =>
      if Live(s.mark) then s.(mark := None, work := Idle, cv := FailHop(s.cv, s.mark.value.to)) else s
    case Installed(installed) => if Live(s.mark) then s else s.(cv := CompleteInstall(s.cv, installed))
    case SyncInstalled(installed) => s.(cv := SyncInstall(s.cv, Annotation(s), installed))
    case NewDesired(desired) => s.(cv := s.cv.(desired := desired))
    case NewCatalog(catalog) => s.(catalog := catalog)
  }

  /** The version a reconcile of the ClusterVersion starts from. */
  predicate StartsFrom(s: State, view: View, current: string) {
    current == (if Trim(s.cv.current) != "" then Trim(s.cv.current) else Trim(view.installed)) && current != ""
  }

  /** At the desired version the mark goes, and nothing else changes. */
  lemma ArrivedUnmarks(s: State, view: View)
    requires Trim(s.cv.desired) != "" && !IsInstallPhase(s.cv, view) && StartsFrom(s, view, Trim(s.cv.desired))
    ensures Coarse(s, Reconcile(view)) == s.(mark := None)
  {
  }

  /** In the phase Failed, short of the desired version, nothing changes: the hop is not tried again. */
  lemma FailedWaits(s: State, view: View, current: string)
    requires !IsInstallPhase(s.cv, view) && StartsFrom(s, view, current) && current != Trim(s.cv.desired)
    requires s.cv.phase == Phase.Failed
    ensures Coarse(s, Reconcile(view)) == s
  {
  }

  /** An aborted hop is not marked again: reconciles of the ClusterVersion leave things as they are. */
  lemma AbortedStays(s: State, view: View)
    requires Live(s.mark) && s.cv.current == Trim(s.cv.current) && s.cv.current != ""
    requires s.cv.current != Trim(s.cv.desired)
    ensures var s' := Coarse(s, AbortUpgrade);
            && s'.mark.None? && s'.cv.phase == Phase.Failed && s'.cv.current == s.cv.current
            && Coarse(s', Reconcile(view)) == s'
  {
    FailedHop(s.cv, s.mark.value.to);
  }

  /** Without a catalog, a path, or the release image of its first hop, the precheck fails. */
  lemma PrecheckFails(s: State, view: View, current: string)
    requires Trim(s.cv.desired) != "" && !IsInstallPhase(s.cv, view)
    requires StartsFrom(s, view, current) && current != Trim(s.cv.desired) && s.cv.phase != Phase.Failed
    requires !view.catalogLoaded || view.path.Err? || (view.path.value != [] && view.image == ImageFailed)
    ensures Coarse(s, Reconcile(view)) == s.(cv := s.cv.(phase := PreCheckFailed))
  {
  }

  /** With a path and the release image of its first hop that hop is marked, if it is not already;
      while the image is pending nothing changes. */
  lemma MarksFirstHop(s: State, view: View, current: string)
    requires Trim(s.cv.desired) != "" && !IsInstallPhase(s.cv, view)
    requires StartsFrom(s, view, current) && current != Trim(s.cv.desired) && s.cv.phase != Phase.Failed
    requires view.catalogLoaded && view.path.Ok? && view.path.value != [] && view.image != ImageFailed
    ensures var s', first := Coarse(s, Reconcile(view)), view.path.value[0];
            if view.image == ImageValid && (s.mark.Some? ==> s.mark.value.to != first.to)
            then && s'.mark == Some(Hop(first.from, first.to)) && s'.cv == s.cv.(phase := PreChecking)
                 && s'.approved == s.approved + {Hop(first.from, first.to)}
            else s' == s
  {
  }

  /** While an installation is under way only the phase changes. */
  lemma InstallPhases(s: State, view: View)
    requires Trim(s.cv.desired) != "" && IsInstallPhase(s.cv, view)
    ensures var phase := if view.image == ImageFailed then Phase.Failed else Installing;
            Coarse(s, Reconcile(view)) == s.(cv := s.cv.(phase := phase))
  {
  }

  lemma MarkIsOrderly(s: State, view: View, path: seq<U.Rule>)
    requires Known(s) && UpToDate(s) && MoveEnabled(s, Reconcile(view)) && Decide(s, view) == MarkReady(path)
    ensures Run(s, Steps(s, Reconcile(view)), Coarse(s, Reconcile(view))) && Orderly(s, Steps(s, Reconcile(view)))
  {
    var plan := Plan(view.installed, path);
    PlanIsEdge(s, plan);
    ThreeSteps(s, plan, ChangePhase(PreChecking), Mark);
  }

  lemma HopIsOrderly(s: State, success: bool)
    requires Known(s) && UpToDate(s) && s.work.Idle? && Live(s.mark)
    ensures var cv := if success then CompleteHop(s.cv, s.mark.value.to) else FailHop(s.cv, s.mark.value.to);
            && Run(s, [Begin, Clear, Finish(success)], s.(mark := None, work := Idle, cv := cv))
            && Orderly(s, [Begin, Clear, Finish(success)])
  {
    ThreeSteps(s, Begin, Clear, Finish(success));
  }

  lemma InstallIsOrderly(s: State)
    ensures var steps := [ChangePhase(Installing)] + [ChangePhase(Failed)];
            Run(s, steps, s.(cv := s.cv.(phase := Failed))) && Orderly(s, steps)
  {
    OneStep(Next(s, ChangePhase(Installing)), ChangePhase(Failed));
    ConsStep(s, ChangePhase(Installing), [ChangePhase(Failed)]);
  }

  /** The steps of a reconcile add up to its effect, and are an orderly run. */
  lemma MoveIsOrderly(s: State, move: Move)
    requires Known(s) && UpToDate(s) && MoveEnabled(s, move)
    ensures Run(s, Steps(s, move), Coarse(s, move)) && Orderly(s, Steps(s, move))
  {
    var steps := Steps(s, move);
    if |steps| == 1 {
      OneStep(s, steps[0]);
    } else if |steps| == 2 {
      InstallIsOrderly(s);
    } else if |steps| == 3 && move.Reconcile? {
      MarkIsOrderly(s, move.view, Decide(s, move.view).path);
    } else if |steps| == 3 {
      HopIsOrderly(s, move.CompleteUpgrade?);
    }
  }

  /** The states of a run of whole reconciles. */
  ghost predicate Moves(states: seq<State>, moves: seq<Move>) {
    && |states| == |moves| + 1
    && forall i :: 0 <= i < |moves| ==> Moved(states[i], moves[i], states[i + 1])
  }

  ghost predicate Moved(s: State, move: Move, s': State) {
    MoveEnabled(s, move) && s' == Coarse(s, move)
  }

  ghost predicate Safe(s: State) {
    Known(s) && UpToDate(s) && Sound(s)
  }

  /**
   Edge safety: with reconciles that are not interrupted, the mark always holds the first
   edge of a path found from the current version, and every success record is such an edge.
   */
  lemma {:induction false} EdgeSafety(states: seq<State>, moves: seq<Move>)
    requires Moves(states, moves) && Safe(states[0])
    ensures Safe(states[|moves|])
  {
    var n := |moves|;
    if n > 0 {
      EdgeSafety(states[..n], moves[..n - 1]);
      assert Moved(states[n - 1], moves[n - 1], states[n]);
      MoveIsOrderly(states[n - 1], moves[n - 1]);
      OrderlyRunsAreSafe(states[n - 1], Steps(states[n - 1], moves[n - 1]), states[n]);
    }
  }

  /** The hop is an unblocked edge of the catalog. */
  ghost predicate IsEdge(adj: U.Adjacency, hop: Hop) {
    exists e :: e in U.Edges(adj, hop.from) && e.from == hop.from && e.to == hop.to && !e.blocked
  }

  /** Some catalog in force during the run offered the hop. */
  ghost predicate WasOffered(states: seq<State>, hop: Hop) {
    exists i :: 0 <= i < |states| && IsEdge(states[i].catalog, hop)
  }

  lemma MoveApproves(s: State, move: Move, hop: Hop)
    requires MoveEnabled(s, move) && hop in Coarse(s, move).approved && hop !in s.approved
    ensures IsEdge(s.catalog, hop)
  {
    var path := Decide(s, move.view).path;
    U.WalkTail(s.catalog, FirstNonEmpty(s.cv.current, move.view.installed), path);
    assert path[0] in U.Edges(s.catalog, hop.from);
  }

  /** A hop is approved during a run only as an unblocked edge of the catalog of the time. */
  lemma {:induction false} ApprovedWereOffered(states: seq<State>, moves: seq<Move>, hop: Hop)
    requires Moves(states, moves) && hop in states[|moves|].approved && hop !in states[0].approved
    ensures WasOffered(states[..|moves|], hop)
  {
    var n := |moves|;
    if n > 0 {
      assert Moved(states[n - 1], moves[n - 1], states[n]);
      if hop in states[n - 1].approved {
        ApprovedWereOffered(states[..n], moves[..n - 1], hop);
        var i :| 0 <= i < n - 1 && IsEdge(states[..n][..n - 1][i].catalog, hop);
        assert states[..n][i] == states[i];
      } else {
        MoveApproves(states[n - 1], moves[n - 1], hop);
        assert states[..n][n - 1] == states[n - 1];
      }
    }
  }

  /**
   Every success record is an allowed upgrade: an unblocked edge of a catalog that was in force
   during the run, up to space around its target, or of a hop approved before it.
   */
  lemma RecordsWereOffered(states: seq<State>, moves: seq<Move>, r: HopRecord)
    requires Moves(states, moves) && Safe(states[0])
    requires r in states[|moves|].cv.history && r.succeeded
    ensures IsApproved(states[0].approved, r)
            || exists hop :: WasOffered(states[..|moves|], hop) && hop.from == r.from && Trim(hop.to) == r.to
  {
    EdgeSafety(states, moves);
    assert IsApproved(states[|moves|].approved, r);
    var hop :| hop in states[|moves|].approved && hop.from == r.from && Trim(hop.to) == r.to;
    if hop !in states[0].approved { ApprovedWereOffered(states, moves, hop); }
  }

  /** From a new ClusterVersion on, the mark and every success record are edges of catalogs that
      were in force, and the mark starts at the current version. */
  lemma OnlyOfferedUpgrades(states: seq<State>, moves: seq<Move>)
    requires Moves(states, moves)
    requires states[0].cv.history == [] && states[0].cv.current == "" && states[0].approved == {}
    requires states[0].mark.None? && states[0].planned.None? && states[0].work.Idle?
    ensures var s, before := states[|moves|], states[..|moves|];
            && (Live(s.mark) ==>
                  WasOffered(before, s.mark.value) && (s.cv.current != "" ==> s.mark.value.from == s.cv.current))
            && (forall r :: r in s.cv.history && r.succeeded ==>
                  exists hop :: WasOffered(before, hop) && hop.from == r.from && Trim(hop.to) == r.to)
  {
    assert Safe(states[0]) by { TrimTrims(""); assert Trim("") == ""; }
    EdgeSafety(states, moves);
    var s := states[|moves|];
    if Live(s.mark) { ApprovedWereOffered(states, moves, s.mark.value); }
    forall r | r in s.cv.history && r.succeeded
      ensures exists hop :: WasOffered(states[..|moves|], hop) && hop.from == r.from && Trim(hop.to) == r.to
    {
      RecordsWereOffered(states, moves, r);
    }
  }
}
