/**
 Repeated reconciles of one upgrade hop (controllers/capbke/bkecluster_upgrade_dag.go):
 each one initialises the progress for the hop target, runs the DAG, and finishes the
 hop only when the run returned no error.
 */
module Reconciles {
  import opened Wrappers
  import opened Scheduler
  import opened Execution
  import P = Progress
  import T = Topology
  import W = WorkerPool

  /** One run of the DAG: the progress it began with and the progress it left. */
  datatype Attempt = Attempt(
    plan: Plan, start: Option<P.Status>, stored: Option<P.Status>, log: Log, errs: seq<Error>)
  {
    /** What started, and how it ended. */
    ghost function Ended(): map<string, W.Outcome> {
      Outcomes(log)
    }
  }

  ghost predicate Executed(a: Attempt, target: string) {
    && ValidPlan(a.plan) && DagRun(a.plan, a.start, a.start, a.stored, a.stored, a.log, a.errs)
    && a.start.Some? && a.start.value.target == target
  }

  /** What started had to run. */
  lemma StartedWasDue(a: Attempt, target: string, n: string)
    requires Executed(a, target) && n in a.Ended()
    ensures Runnable(a.plan, a.start, n)
  {
    var b := OutcomeFrom(a.log, n);
  }

  /** The run accounts for every component of its DAG. */
  ghost predicate Complete(a: Attempt) {
    AllClassified(a.plan, a.start, a.stored, a.Ended())
  }

  /** Each run begins with at least the completions the one before it left. */
  ghost predicate Chain(attempts: seq<Attempt>, target: string) {
    && (forall i :: 0 <= i < |attempts| ==> Executed(attempts[i], target))
    && forall i :: 0 < i < |attempts| ==> KeysOf(attempts[i - 1].stored) <= KeysOf(attempts[i].start)
  }

  lemma {:induction false} ChainGrows(attempts: seq<Attempt>, target: string, i: nat, j: nat)
    requires Chain(attempts, target) && i < j < |attempts|
    ensures KeysOf(attempts[i].stored) <= KeysOf(attempts[j].start)
    decreases j
  {
    if i < j - 1 {
      ChainGrows(attempts, target, i, j - 1);
      assert Executed(attempts[j - 1], target);
    }
  }

  /**
   Over any sequence of runs for one target: recorded completions are never lost, and a
   component whose completion is recorded is never started again.
   */
  lemma NeverAgain(attempts: seq<Attempt>, target: string, i: nat, j: nat, n: string)
    requires Chain(attempts, target) && i < j < |attempts|
    ensures KeysOf(attempts[i].start) <= KeysOf(attempts[i].stored)
    ensures KeysOf(attempts[i].stored) <= KeysOf(attempts[j].start) <= KeysOf(attempts[j].stored)
    ensures n in attempts[j].Ended() ==>
              n in attempts[j].plan.nodes && KeyOf(attempts[j].plan, n) !in KeysOf(attempts[i].stored)
  {
    ChainGrows(attempts, target, i, j);
    assert Executed(attempts[i], target) && Executed(attempts[j], target);
    if n in attempts[j].Ended() {
      StartedWasDue(attempts[j], target, n);
      RecordedIsKey(attempts[j].plan, attempts[j].start, n);
    }
  }

  /** A component that succeeded in an earlier run without errors is not started again
      at the same version. */
  lemma SucceededOnce(attempts: seq<Attempt>, target: string, i: nat, j: nat, n: string)
    requires Chain(attempts, target) && i < j < |attempts|
    requires attempts[i].errs == [] && n in attempts[i].Ended() && attempts[i].Ended()[n].Succeeded?
    requires n in attempts[j].plan.nodes && KeyOf(attempts[j].plan, n) == KeyOf(attempts[i].plan, n)
    ensures n !in attempts[j].Ended()
  {
    var a := attempts[i];
    assert Executed(a, target);
    assert Classified(a.plan, a.start, a.stored, a.Ended(), n);
    NeverAgain(attempts, target, i, j, n);
  }

  /** Progress for the target is never lost. */
  ghost predicate Continues(target: string, progress: Option<P.Status>, progress': Option<P.Status>) {
    progress.Some? && progress.value.target == target ==>
      progress'.Some? && progress'.value.target == target && KeysOf(progress) <= KeysOf(progress')
  }

  /** What one reconcile did to the stored progress. */
  ghost predicate Reconciled(target: string, progress: Option<P.Status>, progress': Option<P.Status>,
                             attempt: Option<Attempt>, finished: bool) {
    match attempt
    case None => !finished && (progress' == progress || progress' == Some(P.EnsureInitialized(progress, target)))
    case Some(a) =>
      && Executed(a, target)
      && a.start == Some(P.EnsureInitialized(progress, target))
      && progress'.Some? && progress'.value.target == target && P.Keys(progress'.value) == KeysOf(a.stored)
      && (progress'.value.finished <==> finished)
      && (finished ==> progress'.value.lastFailure.None? && progress'.value.lastError == "")
      && (finished ==> Complete(a))
  }

  /**
   executeUpgradeDAG from the initialisation of the progress on.  The hop is finished
   (completeDeclarativeUpgrade) only when every component of the DAG is accounted for.
   */
  method Reconcile(plan: Plan, reliable: bool, target: string, progress: Option<P.Status>, life: LifeMap)
    returns (progress': Option<P.Status>, life': LifeMap, finished: bool, ghost attempt: Option<Attempt>)
    requires ValidPlan(plan)
    ensures Reconciled(target, progress, progress', attempt, finished)
    ensures Continues(target, progress, progress')
    ensures finished ==> progress'.Some? && progress'.value.finished && progress'.value.target == target
    ensures reliable ==> attempt.Some? && attempt.value.plan == plan && (finished <==> attempt.value.errs == [])
    ensures reliable && !finished ==> progress'.Some? && progress'.value.lastError != ""
  {
    progress', life', finished, attempt := progress, life, false, None;
    var ok: bool := *;
    if !ok && !reliable { return; }
    var start := P.EnsureInitialized(progress, target);
    progress' := Some(start);
    // the component factory or the client of the target cluster may not be had
    ok := *;
    if !ok && !reliable { return; }
    var run := new Run(plan, reliable, Some(start), life);
    var errs, entries := run.ExecuteDAG();
    assert run.log == entries;
    attempt := Some(Attempt(plan, Some(start), run.stored, run.log, errs));
    progress', life' := run.stored, run.storedLife;
    ok := *;
    if !ok && !reliable { return; }
    if errs != [] {
      // handleDeclarativeUpgradeDAGFailure records the error and retries or aborts
      progress' := Some(progress'.value.(lastError := "components failed"));
      return;
    }
    // persistDeclarativeUpgradeFinished writes the progress held in memory
    progress' := Some(run.memory.value.(finished := true, lastError := "", lastFailure := None));
    finished := true;
  }

  lemma ChainExtends(attempts: seq<Attempt>, target: string, progress: Option<P.Status>, progress': Option<P.Status>,
                     a: Attempt, finished: bool)
    requires Chain(attempts, target) && LeftBy(attempts, target, progress)
    requires Reconciled(target, progress, progress', Some(a), finished)
    ensures Chain(attempts + [a], target) && LeftBy(attempts + [a], target, progress')
  {
  }

  /** The stored progress is what the last run left. */
  ghost predicate LeftBy(attempts: seq<Attempt>, target: string, progress: Option<P.Status>) {
    attempts != [] ==>
      && progress.Some? && progress.value.target == target
      && P.Keys(progress.value) == KeysOf(attempts[|attempts| - 1].stored)
  }

  /** The plan of a dependency graph: its nodes, edges and topological batches. */
  method PlanOf(graph: T.Graph, nodes: map<string, Node>, needs: set<string>, registry: set<string>, maxParallel: int)
    returns (plan: Plan)
    requires graph.Valid() && nodes.Keys == graph.nodes
    requires forall n :: n in nodes ==> nodes[n].name == n
    ensures ValidPlan(plan) && plan.edges == graph.outEdges
    ensures plan == Plan(nodes, plan.edges, plan.batches, needs, registry, maxParallel)
  {
    var batches := graph.TopologicalBatches();
    plan := Plan(nodes, graph.outEdges, batches.value, needs, registry, maxParallel);
  }

  /** Reconciling one hop over and over, each time with the plan of the moment. */
  method ReconcileAll(plans: seq<Plan>, reliable: bool, target: string, progress: Option<P.Status>, life: LifeMap)
    returns (progress': Option<P.Status>, finished: bool, ghost attempts: seq<Attempt>)
    requires forall i :: 0 <= i < |plans| ==> ValidPlan(plans[i])
    ensures Chain(attempts, target)
    ensures LeftBy(attempts, target, progress')
    ensures Continues(target, progress, progress')
    ensures finished ==> attempts != [] && Complete(attempts[|attempts| - 1])
    ensures reliable ==> |attempts| <= |plans| && forall i :: 0 <= i < |attempts| ==> attempts[i].plan == plans[i]
    ensures reliable && !finished ==> |attempts| == |plans|
    ensures finished ==> progress'.Some? && progress'.value.finished && progress'.value.target == target
  {
    var life' := life;
    progress', finished, attempts := progress, false, [];
    for i := 0 to |plans|
      invariant !finished && Chain(attempts, target) && LeftBy(attempts, target, progress')
      invariant Continues(target, progress, progress')
      invariant reliable ==> |attempts| == i && forall j :: 0 <= j < i ==> attempts[j].plan == plans[j]
    {
      ghost var before, attempt := progress', None;
      progress', life', finished, attempt := Reconcile(plans[i], reliable, target, progress', life');
      if attempt.Some? {
        ChainExtends(attempts, target, before, progress', attempt.value, finished);
        attempts := attempts + [attempt.value];
      } else {
        assert LeftBy(attempts, target, progress');
      }
      if finished { return; }
    }
  }
}
