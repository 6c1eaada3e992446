/**
 Execution of an upgrade DAG (pkg/dagexec/scheduler.go) against the stored status
 of the cluster and its in-memory mirror (pkg/dagexec/declarative_upgrade_patch.go,
 pkg/dagexec/component_status_updater.go).

 Components, patches and reads of the store succeed or fail arbitrarily; the
 context of the caller is not cancelled.
 */
module Scheduler {
  import opened Wrappers
  import opened Collections
  import P = Progress
  import T = Topology
  import W = WorkerPool

  datatype FailurePolicy = FailFast | Continue | Rollback

  datatype Inline = Inline(handler: string, version: string)

  datatype Node = Node(name: string, version: string, inlined: Option<Inline>, policy: FailurePolicy)

  /** Everything one run is given: the DAG with its batches, the components whose
      version differs from the target, the ones an executor is registered for, and
      the configured parallelism. */
  datatype Plan = Plan(
    nodes: map<string, Node>, edges: T.Edges, batches: seq<seq<string>>,
    needs: set<string>, registry: set<string>, maxParallel: int)

  datatype Phase = Pending | Installed | Failed

  datatype Lifecycle = Lifecycle(phase: Phase, version: string, message: string)

  datatype Error = NotFound(name: string) | Component(name: string) | Persist(name: string)

  /** What happened in one batch: the components that did not have to run, and the
      outcome of each one that was started. */
  datatype Report = Report(skipped: set<string>, ran: map<string, W.Outcome>)

  type LifeMap = map<string, Lifecycle>

  function VersionKey(node: Node): (key: string)
    ensures P.Normalize(key) == key
  {
    if node.inlined.Some? then P.Normalize(node.inlined.value.version) else P.Normalize(node.version)
  }

  function StatusVersion(node: Node): string {
    if node.version != "" then node.version
    else if node.inlined.Some? && node.inlined.value.version != "" then node.inlined.value.version
    else P.DEFAULT_COMPONENT_VERSION
  }

  /** The key a component is recorded under. */
  function KeyOf(plan: Plan, n: string): (string, string)
    requires n in plan.nodes
  {
    (plan.nodes[n].name, VersionKey(plan.nodes[n]))
  }

  predicate IsFailFast(plan: Plan, n: string) {
    n in plan.nodes && plan.nodes[n].policy.FailFast?
  }

  /** The batches are those of the graph, and nodes are filed under their own names. */
  ghost predicate ValidPlan(plan: Plan) {
    && T.Closed(plan.nodes.Keys, plan.edges)
    && T.ValidBatches(plan.batches, plan.nodes.Keys, plan.edges)
    && forall n :: n in plan.nodes ==> plan.nodes[n].name == n
  }

  /** Component n is recorded as completed. */
  predicate Recorded(plan: Plan, progress: Option<P.Status>, n: string)
    requires n in plan.nodes
  {
    progress.Some? && P.IsCompleted(progress.value, plan.nodes[n].name, VersionKey(plan.nodes[n]))
  }

  predicate Runnable(plan: Plan, progress: Option<P.Status>, n: string) {
    n in plan.nodes && !Recorded(plan, progress, n) && n in plan.needs
  }

  ghost function KeysOf(progress: Option<P.Status>): set<(string, string)> {
    if progress.Some? then P.Keys(progress.value) else {}
  }

  lemma RecordedIsKey(plan: Plan, progress: Option<P.Status>, n: string)
    requires n in plan.nodes
    ensures Recorded(plan, progress, n) <==> KeyOf(plan, n) in KeysOf(progress)
  {
  }

  /** A component has to run when its version differs from the target and no completion is recorded
      under its name with the version of its inline handler, if it has one, or its own. */
  lemma RunnableMeans(plan: Plan, progress: Option<P.Status>, n: string)
    requires n in plan.nodes
    ensures var node := plan.nodes[n];
            var or := (version: string) => if version == "" then "v1.0.0" else version;
            var key := (node.name, or(if node.inlined.Some? then node.inlined.value.version else node.version));
            var known := progress.Some? && exists r :: r in progress.value.completed && key == (r.name, or(r.version));
            Runnable(plan, progress, n) <==> n in plan.needs && !known
  {
  }

  // Recording completions ---------------------------------------------------

  function MarkAll(plan: Plan, s: P.Status, names: seq<string>): P.Status
    requires forall n :: n in names ==> n in plan.nodes
    decreases |names|
  {
    if names == [] then s
    else MarkAll(plan, P.MarkCompleted(s, plan.nodes[names[0]].name, VersionKey(plan.nodes[names[0]])), names[1..])
  }

  /** The success patch: records every component and clears the failure fields. */
  function Complete(plan: Plan, s: P.Status, names: seq<string>): P.Status
    requires forall n :: n in names ==> n in plan.nodes
  {
    MarkAll(plan, s, names).(lastError := "", lastFailure := None)
  }

  ghost function NameKeys(plan: Plan, names: seq<string>): set<(string, string)>
    requires forall n :: n in names ==> n in plan.nodes
  {
    set n | n in names :: KeyOf(plan, n)
  }

  lemma {:induction false} MarkAllKeys(plan: Plan, s: P.Status, names: seq<string>)
    requires forall n :: n in names ==> n in plan.nodes
    ensures P.Keys(MarkAll(plan, s, names)) == P.Keys(s) + NameKeys(plan, names)
    ensures MarkAll(plan, s, names).target == s.target && MarkAll(plan, s, names).finished == s.finished
    decreases |names|
  {
    if names == [] {
      assert NameKeys(plan, names) == {};
    } else {
      var s' := P.MarkCompleted(s, plan.nodes[names[0]].name, VersionKey(plan.nodes[names[0]]));
      MarkAllKeys(plan, s', names[1..]);
      assert P.Keys(s') == P.Keys(s) + {KeyOf(plan, names[0])};
      assert forall n :: n in names <==> n == names[0] || n in names[1..];
      assert NameKeys(plan, names) == {KeyOf(plan, names[0])} + NameKeys(plan, names[1..]);
    }
  }

  /** The success patch records each component under its own name, with the version of its inline
      handler if it has one and its own version otherwise, "v1.0.0" standing for an empty one. */
  lemma CompletedUnder(plan: Plan, s: P.Status, names: seq<string>, n: string)
    requires (forall k :: k in names ==> k in plan.nodes) && n in names
    ensures var node := plan.nodes[n];
            var version := match node.inlined case Some(inline) => inline.version case None => node.version;
            (node.name, if version == "" then "v1.0.0" else version) in P.Keys(Complete(plan, s, names))
    ensures Complete(plan, s, names).lastError == "" && Complete(plan, s, names).lastFailure.None?
  {
    MarkAllKeys(plan, s, names);
    assert KeyOf(plan, n) in NameKeys(plan, names);
  }

  // Lifecycle entries ---------------------------------------------------------

  function Entry(life: LifeMap, n: string): Option<Lifecycle> {
    if n in life then Some(life[n]) else None
  }

  /** The lifecycle entry says what became of the component. */
  predicate Reflects(plan: Plan, life: LifeMap, n: string, outcome: W.Outcome) {
    match outcome
    case Succeeded => n in life && n in plan.nodes && life[n] == Lifecycle(Installed, StatusVersion(plan.nodes[n]), "")
    case NotInstalled => n !in life
    case RealError => n in life && life[n].phase.Failed?
  }

  /** An installed component shows its own version, else that of its inline handler, else "v1.0.0". */
  lemma InstalledVersion(plan: Plan, life: LifeMap, n: string)
    requires n in plan.nodes && Reflects(plan, life, n, W.Succeeded)
    ensures var node := plan.nodes[n];
            && n in life && life[n].phase == Installed && life[n].message == ""
            && (node.version != "" ==> life[n].version == node.version)
            && (node.version == "" && node.inlined.Some? && node.inlined.value.version != "" ==>
                  life[n].version == node.inlined.value.version)
            && (node.version == "" && (node.inlined.None? || node.inlined.value.version == "") ==>
                  life[n].version == "v1.0.0")
  {
  }

  /** What the entry of a started component shows otherwise: nothing when it is not installed, and
      Failed after a real error. */
  lemma OtherEntries(plan: Plan, life: LifeMap, n: string)
    ensures Reflects(plan, life, n, W.NotInstalled) <==> n !in life
    ensures Reflects(plan, life, n, W.RealError) <==> n in life && life[n].phase == Failed
  {
  }

  // The phases of a batch ---------------------------------------------------------

  /** The work items: every name of the batch is an item, did not have to run, or
      left an error behind and is not FailFast. */
  ghost predicate Built(plan: Plan, progress: Option<P.Status>, batch: seq<string>,
                        items: seq<string>, errs: seq<Error>, skipped: set<string>) {
    && NoDuplicates(items)
    && (forall n :: n in items ==> n in batch && Runnable(plan, progress, n))
    && (forall n :: n in skipped ==> n in batch && n in plan.nodes && !Runnable(plan, progress, n))
    && (forall n :: n in batch ==> n in items || n in skipped || (errs != [] && !IsFailFast(plan, n)))
  }

  /** The results of a settled pool: blank entries need a FailFast failure. */
  ghost predicate Pooled(plan: Plan, items: seq<string>, ran: map<string, W.Outcome>) {
    && (forall n :: n in ran ==> n in items)
    && ((exists n :: n in items && n !in ran) ==> exists n :: n in items && Fatal(plan, ran, n))
  }

  predicate Fatal(plan: Plan, ran: map<string, W.Outcome>, n: string) {
    n in ran && ran[n].RealError? && IsFailFast(plan, n)
  }

  /** Completions are only added, and only for components that succeeded. */
  ghost predicate Grows(plan: Plan, stored: Option<P.Status>, stored': Option<P.Status>, ran: map<string, W.Outcome>) {
    && (stored.Some? <==> stored'.Some?)
    && (stored.Some? ==> stored'.value.target == stored.value.target)
    && (stored.Some? ==> stored'.value.finished == stored.value.finished)
    && KeysOf(stored) <= KeysOf(stored')
    && forall k :: k in KeysOf(stored') - KeysOf(stored) ==> Earned(plan, ran, k)
  }

  ghost predicate Earned(plan: Plan, ran: map<string, W.Outcome>, k: (string, string)) {
    k.0 in ran && k.0 in plan.nodes && ran[k.0].Succeeded? && k == KeyOf(plan, k.0)
  }

  /** What persisting the results establishes. */
  ghost predicate Persisted(plan: Plan, ran: map<string, W.Outcome>, stored: Option<P.Status>,
                            stored': Option<P.Status>, errs: seq<Error>, stop: bool) {
    && (stop ==> errs != [])
    && (forall n :: n in ran && ran[n].RealError? ==> errs != [] && (IsFailFast(plan, n) ==> stop))
    && (forall n :: n in ran && ran[n].Succeeded? && n in plan.nodes && !Kept(plan, stored', n) ==>
          errs != [] && (IsFailFast(plan, n) ==> stop))
    && Grows(plan, stored, stored', ran)
  }

  /** Component n is recorded, if there is progress to record it in. */
  ghost predicate Kept(plan: Plan, progress: Option<P.Status>, n: string)
    requires n in plan.nodes
  {
    progress.Some? ==> KeyOf(plan, n) in KeysOf(progress)
  }

  /** Component n finished without a real error, or did not have to run. */
  predicate Fine(r: Report, n: string) {
    n in r.skipped || (n in r.ran && !r.ran[n].RealError?)
  }

  /** Component n is accounted for after a batch without errors. */
  ghost predicate Accounted(plan: Plan, progress: Option<P.Status>, r: Report, n: string) {
    n in r.skipped || (n in plan.nodes && n in r.ran &&
      match r.ran[n]
      case Succeeded => Kept(plan, progress, n)
      case NotInstalled => true
      case RealError => false)
  }

  /** Effect of one batch on the report, the errors and the recorded completions. */
  ghost predicate BatchDone(plan: Plan, progress: Option<P.Status>, stored: Option<P.Status>, stored': Option<P.Status>,
                            batch: seq<string>, errs: seq<Error>, stop: bool, r: Report) {
    && (forall n :: n in r.skipped ==> n in batch && n in plan.nodes && !Runnable(plan, progress, n))
    && (forall n :: n in r.ran ==> n in batch && Runnable(plan, progress, n))
    && (stop ==> errs != [])
    && (!stop ==> forall n :: n in batch && IsFailFast(plan, n) ==>
          Fine(r, n) && (n in r.ran && r.ran[n].Succeeded? ==> Kept(plan, stored', n)))
    && (errs == [] ==> forall n :: n in batch ==> Accounted(plan, stored', r, n))
    && Grows(plan, stored, stored', r.ran)
  }

  /** A run that does not stop: every FailFast item was fine and is recorded. */
  lemma GoesOn(plan: Plan, items: seq<string>, r: Report, stored: Option<P.Status>, stored': Option<P.Status>,
               errs: seq<Error>, n: string)
    requires Pooled(plan, items, r.ran) && Persisted(plan, r.ran, stored, stored', errs, false)
    requires n in items && IsFailFast(plan, n)
    ensures Fine(r, n) && (n in r.ran && r.ran[n].Succeeded? ==> Kept(plan, stored', n))
  {
    assert forall k :: k in items ==> !Fatal(plan, r.ran, k);
  }

  /** Without errors every item is accounted for. */
  lemma ItemAccounted(plan: Plan, items: seq<string>, r: Report, stored: Option<P.Status>, stored': Option<P.Status>,
                      stop: bool, n: string)
    requires Pooled(plan, items, r.ran) && Persisted(plan, r.ran, stored, stored', [], stop)
    requires n in items && n in plan.nodes
    ensures Accounted(plan, stored', r, n)
  {
    assert forall k :: k in items ==> !Fatal(plan, r.ran, k);
  }

  /** The three phases of a batch compose to its effect. */
  lemma BatchComposes(plan: Plan, progress: Option<P.Status>, stored: Option<P.Status>, stored': Option<P.Status>,
                      batch: seq<string>, items: seq<string>, r: Report,
                      errs1: seq<Error>, errs2: seq<Error>, stop: bool)
    requires Built(plan, progress, batch, items, errs1, r.skipped)
    requires Pooled(plan, items, r.ran)
    requires Persisted(plan, r.ran, stored, stored', errs2, stop)
    ensures BatchDone(plan, progress, stored, stored', batch, errs1 + errs2, stop, r)
  {
    if !stop {
      forall n | n in batch && IsFailFast(plan, n)
        ensures Fine(r, n) && (n in r.ran && r.ran[n].Succeeded? ==> Kept(plan, stored', n))
      {
        if n in items { GoesOn(plan, items, r, stored, stored', errs2, n); }
      }
    }
    if errs1 + errs2 == [] {
      forall n | n in batch ensures Accounted(plan, stored', r, n) {
        if n in items { ItemAccounted(plan, items, r, stored, stored', stop, n); }
      }
    }
  }

  // Whole runs ----------------------------------------------------------------------

  /** d must finish before n may start. */
  ghost predicate Prerequisite(plan: Plan, d: string, n: string) {
    exists p :: T.IsPath(plan.edges, p) && |p| > 1 && p[0] == d && p[|p| - 1] == n
  }

  /** d is a FailFast component on which n depends, directly or not. */
  ghost predicate NeedsFirst(plan: Plan, d: string, n: string) {
    d in plan.nodes && IsFailFast(plan, d) && Prerequisite(plan, d, n)
  }

  /** What the pools of a run started, one after the other, and how each component ended. */
  type Log = seq<map<string, W.Outcome>>

  ghost function Outcomes(log: Log): map<string, W.Outcome> {
    if log == [] then map[] else Outcomes(log[..|log| - 1]) + log[|log| - 1]
  }

  lemma OutcomesStep(log: Log, ran: map<string, W.Outcome>)
    ensures Outcomes(log + [ran]) == Outcomes(log) + ran
  {
    assert (log + [ran])[..|log|] == log;
  }

  /** A component did not have to run, by the progress in memory or in the store at the start. */
  predicate Excused(plan: Plan, m0: Option<P.Status>, s0: Option<P.Status>, n: string) {
    n in plan.nodes && (!Runnable(plan, m0, n) || !Runnable(plan, s0, n))
  }

  /** Component n ran without a real error. */
  predicate Passed(ran: map<string, W.Outcome>, n: string) {
    n in ran && !ran[n].RealError?
  }

  /** A component that started had to run, by the progress in memory or in the store. */
  ghost predicate Due(plan: Plan, m0: Option<P.Status>, s0: Option<P.Status>, log: Log) {
    forall b, n :: 0 <= b < |log| && n in log[b] ==> Runnable(plan, m0, n) || Runnable(plan, s0, n)
  }

  /** Component n ran without a real error, or did not run and did not have to. */
  predicate Settled(plan: Plan, m0: Option<P.Status>, s0: Option<P.Status>, ran: map<string, W.Outcome>, n: string) {
    Passed(ran, n) || (n !in ran && Excused(plan, m0, s0, n))
  }

  /** A component started only after each FailFast component it depends on, directly or not,
      was settled by the pool of an earlier batch. */
  ghost predicate SafeLog(plan: Plan, m0: Option<P.Status>, s0: Option<P.Status>, log: Log)
    requires |log| <= |plan.batches|
  {
    forall b, n, d :: 0 <= b < |log| && n in log[b] && NeedsFirst(plan, d, n) ==>
      exists a :: 0 <= a < b && d in plan.batches[a] && Settled(plan, m0, s0, log[a], d)
  }

  /** Pool b starts components of batch b only. */
  ghost predicate Follows(plan: Plan, log: Log) {
    |log| <= |plan.batches| && forall b, n :: 0 <= b < |log| && n in log[b] ==> n in plan.batches[b]
  }

  /** A FailFast component leaves no reason to stop: it did not have to run, or ran without a
      real error and is recorded if it succeeded. */
  ghost predicate Clean(plan: Plan, m0: Option<P.Status>, s0: Option<P.Status>, stored: Option<P.Status>,
                        ran: map<string, W.Outcome>, n: string) {
    && n in plan.nodes && Settled(plan, m0, s0, ran, n)
    && (n in ran && ran[n].Succeeded? ==> Kept(plan, stored, n))
  }

  ghost predicate AllClean(plan: Plan, m0: Option<P.Status>, s0: Option<P.Status>, stored: Option<P.Status>, log: Log)
    requires |log| <= |plan.batches|
  {
    forall b, n :: 0 <= b < |log| && n in plan.batches[b] && IsFailFast(plan, n) ==>
      Clean(plan, m0, s0, stored, log[b], n)
  }

  lemma SafeLogExtends(plan: Plan, m0: Option<P.Status>, s0: Option<P.Status>, stored: Option<P.Status>,
                       log: Log, ran: map<string, W.Outcome>)
    requires ValidPlan(plan) && |log| < |plan.batches|
    requires SafeLog(plan, m0, s0, log) && Follows(plan, log + [ran]) && AllClean(plan, m0, s0, stored, log)
    ensures SafeLog(plan, m0, s0, log + [ran])
  {
    var log' := log + [ran];
    forall b, n, d | 0 <= b < |log'| && n in log'[b] && NeedsFirst(plan, d, n)
      ensures exists a :: 0 <= a < b && d in plan.batches[a] && Settled(plan, m0, s0, log'[a], d)
    {
      if b < |log| {
        assert n in log[b];
        var a :| 0 <= a < b && d in plan.batches[a] && Settled(plan, m0, s0, log[a], d);
        assert Settled(plan, m0, s0, log'[a], d);
      } else {
        assert n in plan.batches[b];
        var p :| T.IsPath(plan.edges, p) && |p| > 1 && p[0] == d && p[|p| - 1] == n;
        assert T.InBatch(plan.batches, b, n);
        T.PathCrossesBatches(plan.batches, plan.nodes.Keys, plan.edges, p, b);
        var a :| T.InBatch(plan.batches, a, d) && a < b;
        assert Clean(plan, m0, s0, stored, log[a], d);
        assert Settled(plan, m0, s0, log'[a], d);
      }
    }
  }

  /** The progress in memory and in the store: as they were, or equal to each other. */
  predicate Tracks(m0: Option<P.Status>, s0: Option<P.Status>, m: Option<P.Status>, s: Option<P.Status>) {
    m == s || (m == m0 && s == s0)
  }

  /** The state of a run after some batches; `start` is the stored progress it began with. */
  ghost predicate RunInv(plan: Plan, start: Option<P.Status>, stored: Option<P.Status>,
                         done: nat, outcomes: map<string, W.Outcome>, errs: seq<Error>) {
    && done <= |plan.batches|
    && (forall n :: n in outcomes ==> n in T.Placed(plan.batches, done) && Runnable(plan, start, n))
    && Grows(plan, start, stored, outcomes)
    && (errs == [] ==> forall n :: n in T.Placed(plan.batches, done) ==> Classified(plan, start, stored, outcomes, n))
  }

  /**
   Component n has exactly one fate: it was recorded before or is at its target
   version, and did not run; or it ran and succeeded and is recorded now; or it ran
   and turned out not to be installed.
   */
  ghost predicate Classified(plan: Plan, start: Option<P.Status>, stored: Option<P.Status>,
                             outcomes: map<string, W.Outcome>, n: string) {
    && n in plan.nodes
    && (n in outcomes <==> Runnable(plan, start, n))
    && (n in outcomes ==> outcomes[n].NotInstalled? || (outcomes[n].Succeeded? && Kept(plan, stored, n)))
  }

  lemma RunStep(plan: Plan, start: Option<P.Status>, stored: Option<P.Status>, stored': Option<P.Status>, done: nat,
                outcomes: map<string, W.Outcome>, errs: seq<Error>, errs': seq<Error>, stop: bool, r: Report)
    requires ValidPlan(plan) && done < |plan.batches| && RunInv(plan, start, stored, done, outcomes, errs)
    requires BatchDone(plan, stored, stored, stored', plan.batches[done], errs', stop, r)
    ensures RunInv(plan, start, stored', done + 1, outcomes + r.ran, errs + errs')
  {
    PlacedStep(plan.batches, done);
    forall n | n in plan.batches[done]
      ensures n !in T.Placed(plan.batches, done) && n !in outcomes
      ensures Runnable(plan, stored, n) <==> Runnable(plan, start, n)
    {
      SameRunnable(plan, start, stored, done, outcomes, n);
    }
    GrowsTrans(plan, start, stored, stored', outcomes, r.ran);
    if errs + errs' == [] {
      forall n | n in T.Placed(plan.batches, done + 1)
        ensures Classified(plan, start, stored', outcomes + r.ran, n)
      {
        if n in plan.batches[done] {
          assert Accounted(plan, stored', r, n);
        } else {
          assert Classified(plan, start, stored, outcomes, n);
        }
      }
    }
  }

  /** Recording other components does not change whether n has to run. */
  lemma SameRunnable(plan: Plan, start: Option<P.Status>, stored: Option<P.Status>, done: nat,
                     outcomes: map<string, W.Outcome>, n: string)
    requires ValidPlan(plan) && done < |plan.batches| && n in plan.batches[done]
    requires Grows(plan, start, stored, outcomes) && forall m :: m in outcomes ==> m in T.Placed(plan.batches, done)
    ensures n !in T.Placed(plan.batches, done) && n !in outcomes && n in plan.nodes
    ensures Runnable(plan, stored, n) <==> Runnable(plan, start, n)
  {
    FreshInBatch(plan, done, n);
    RecordedIsKey(plan, start, n);
    RecordedIsKey(plan, stored, n);
    var k := KeyOf(plan, n);
    assert k.0 == n;
    assert k in KeysOf(stored) && k !in KeysOf(start) ==> Earned(plan, outcomes, k);
  }

  lemma PlacedStep(batches: seq<seq<string>>, k: nat)
    requires k < |batches|
    ensures T.Placed(batches, k + 1) == T.Placed(batches, k) + T.Elems(batches[k])
  {
  }

  lemma FreshInBatch(plan: Plan, k: nat, n: string)
    requires ValidPlan(plan) && k < |plan.batches| && n in plan.batches[k]
    ensures n !in T.Placed(plan.batches, k) && n in plan.nodes
  {
    assert T.InBatch(plan.batches, k, n);
    assert n in T.Placed(plan.batches, |plan.batches|);
    forall i | 0 <= i < k ensures n !in plan.batches[i] {
      assert T.InBatch(plan.batches, i, n) <==> n in plan.batches[i];
    }
  }

  lemma GrowsTrans(plan: Plan, s0: Option<P.Status>, s1: Option<P.Status>, s2: Option<P.Status>,
                   ran1: map<string, W.Outcome>, ran2: map<string, W.Outcome>)
    requires Grows(plan, s0, s1, ran1) && Grows(plan, s1, s2, ran2)
    requires forall n :: n in ran1 ==> n !in ran2
    ensures Grows(plan, s0, s2, ran1 + ran2)
  {
    forall k | k in KeysOf(s2) - KeysOf(s0)
      ensures Earned(plan, ran1 + ran2, k)
    {
      assert k in KeysOf(s1) ==> k in KeysOf(s1) - KeysOf(s0);
      assert k !in KeysOf(s1) ==> k in KeysOf(s2) - KeysOf(s1);
    }
  }

  /** What has to run now had to run at the start, and the other way round. */
  lemma SinceStart(plan: Plan, m0: Option<P.Status>, s0: Option<P.Status>, m: Option<P.Status>, s: Option<P.Status>,
                   done: nat, outcomes: map<string, W.Outcome>, n: string)
    requires ValidPlan(plan) && done < |plan.batches| && n in plan.batches[done] && Tracks(m0, s0, m, s)
    requires Grows(plan, s0, s, outcomes) && forall k :: k in outcomes ==> k in T.Placed(plan.batches, done)
    ensures n in plan.nodes
    ensures Runnable(plan, m, n) ==> Runnable(plan, m0, n) || Runnable(plan, s0, n)
    ensures !Runnable(plan, m, n) ==> Excused(plan, m0, s0, n)
    ensures m0 == s0 ==> (Runnable(plan, m, n) <==> Runnable(plan, s0, n))
  {
    SameRunnable(plan, s0, s, done, outcomes, n);
  }
}
