/**
 ExecuteDAG as it runs: the loops over batches, work items and results, and the
 patches of the stored status with its in-memory mirror.
 */
module Execution {
  import opened Wrappers
  import opened Collections
  import opened Scheduler
  import P = Progress
  import T = Topology
  import W = WorkerPool

  // Lifecycle map -------------------------------------------------------------

  /** From life to life': the names in `shown` that have an executor show their outcome,
      nothing else changed. */
  ghost predicate Shown(plan: Plan, life: LifeMap, life': LifeMap, shown: set<string>, ran: map<string, W.Outcome>) {
    forall n :: ShownFor(plan, life, life', n in shown, ran, n)
  }

  ghost predicate ShownFor(plan: Plan, life: LifeMap, life': LifeMap, shown: bool, ran: map<string, W.Outcome>,
                           n: string) {
    if shown && n in plan.registry then n in ran && Reflects(plan, life', n, ran[n])
    else Entry(life', n) == Entry(life, n)
  }

  /** From life to life': the items that have an executor became Pending. */
  ghost predicate Pended(plan: Plan, life: LifeMap, life': LifeMap, items: seq<string>) {
    forall n :: PendedFor(plan, life, life', n in items, n)
  }

  ghost predicate PendedFor(plan: Plan, life: LifeMap, life': LifeMap, item: bool, n: string) {
    if item && n in plan.registry then n in life' && life'[n].phase.Pending?
    else Entry(life', n) == Entry(life, n)
  }

  lemma ShownStep(plan: Plan, l0: LifeMap, l1: LifeMap, l2: LifeMap, s1: set<string>, s2: set<string>,
                  ran: map<string, W.Outcome>)
    requires Shown(plan, l0, l1, s1, ran) && Shown(plan, l1, l2, s2, ran)
    ensures Shown(plan, l0, l2, s1 + s2, ran)
  {
    forall n ensures ShownFor(plan, l0, l2, n in s1 + s2, ran, n) {
      assert ShownFor(plan, l0, l1, n in s1, ran, n) && ShownFor(plan, l1, l2, n in s2, ran, n);
    }
  }

  ghost predicate Together(plan: Plan, f: string, n: string) {
    exists batch :: batch in plan.batches && f in batch && n in batch
  }

  /** Component n had to run but was cancelled before it started: a FailFast component of
      its batch failed.  `begun` is the progress the run began with. */
  ghost predicate Cancelled(plan: Plan, begun: Option<P.Status>, outcomes: map<string, W.Outcome>, n: string) {
    && n !in outcomes && Runnable(plan, begun, n)
    && exists f :: Fatal(plan, outcomes, f) && Together(plan, f, n)
  }

  /**
   The lifecycle map after a run whose patches all succeeded: components without a
   registered executor are untouched, started ones show their outcome, one that was
   cancelled before it started may show Pending, and all others show what they showed before.
   */
  ghost predicate LifeRun(plan: Plan, begun: Option<P.Status>, exact: bool, life: LifeMap, life': LifeMap,
                          outcomes: map<string, W.Outcome>) {
    forall n :: LifeRunFor(plan, begun, exact, life, life', outcomes, n)
  }

  ghost predicate LifeRunFor(plan: Plan, begun: Option<P.Status>, exact: bool, life: LifeMap, life': LifeMap,
                             outcomes: map<string, W.Outcome>, n: string) {
    if n !in plan.registry then Entry(life', n) == Entry(life, n)
    else if n in outcomes then Reflects(plan, life', n, outcomes[n])
    else if Cancelled(plan, begun, outcomes, n)
    then IsPending(life', n) || (!exact && Entry(life', n) == Entry(life, n))
    else Entry(life', n) == Entry(life, n)
  }

  predicate IsPending(life: LifeMap, n: string) {
    n in life && life[n].phase.Pending?
  }

  /** The items of a batch that is run now; with exact knowledge of the progress, all that had to
      run when the run began. */
  ghost predicate ItemsOf(plan: Plan, begun: Option<P.Status>, exact: bool, batch: seq<string>, items: seq<string>) {
    && batch in plan.batches
    && (forall n :: n in items ==> n in batch && Runnable(plan, begun, n))
    && (exact ==> forall n :: n in batch && Runnable(plan, begun, n) ==> n in items)
    && (forall other, f :: other in plan.batches && f in other && f in batch ==> other == batch)
  }

  /** An item that did not run was cancelled. */
  lemma UnstartedIsCancelled(plan: Plan, begun: Option<P.Status>, exact: bool, batch: seq<string>, items: seq<string>,
                             outcomes: map<string, W.Outcome>, ran: map<string, W.Outcome>, n: string)
    requires ItemsOf(plan, begun, exact, batch, items) && Pooled(plan, items, ran)
    requires n in items && n !in ran && n !in outcomes
    ensures Cancelled(plan, begun, outcomes + ran, n)
  {
    var f :| f in items && Fatal(plan, ran, f);
    assert Fatal(plan, outcomes + ran, f) && Together(plan, f, n);
  }

  /** A component that is newly cancelled belongs to the batch that is run now. */
  lemma NewlyCancelled(plan: Plan, begun: Option<P.Status>, exact: bool, batch: seq<string>, items: seq<string>,
                       outcomes: map<string, W.Outcome>, ran: map<string, W.Outcome>, n: string)
    requires ItemsOf(plan, begun, exact, batch, items) && Pooled(plan, items, ran)
    requires Cancelled(plan, begun, outcomes + ran, n) && !Cancelled(plan, begun, outcomes, n)
    ensures n in batch && (exact ==> n in items)
  {
    var f :| Fatal(plan, outcomes + ran, f) && Together(plan, f, n);
    assert f in ran;
    var other :| other in plan.batches && f in other && n in other;
  }

  lemma CancelledStays(plan: Plan, begun: Option<P.Status>, outcomes: map<string, W.Outcome>,
                       ran: map<string, W.Outcome>, n: string)
    requires Cancelled(plan, begun, outcomes, n) && n !in ran && forall m :: m in ran ==> m !in outcomes
    ensures Cancelled(plan, begun, outcomes + ran, n)
  {
    var f :| Fatal(plan, outcomes, f) && Together(plan, f, n);
    assert Fatal(plan, outcomes + ran, f);
  }

  lemma LifeRunStep(plan: Plan, begun: Option<P.Status>, exact: bool, l0: LifeMap, l1: LifeMap, l2: LifeMap,
                    l3: LifeMap, batch: seq<string>, items: seq<string>,
                    outcomes: map<string, W.Outcome>, ran: map<string, W.Outcome>)
    requires LifeRun(plan, begun, exact, l0, l1, outcomes)
    requires Pended(plan, l1, l2, items) && Shown(plan, l2, l3, ran.Keys, ran)
    requires ItemsOf(plan, begun, exact, batch, items) && Pooled(plan, items, ran)
    requires forall n :: n in items || n in ran ==> n !in outcomes
    ensures LifeRun(plan, begun, exact, l0, l3, outcomes + ran)
  {
    forall n ensures LifeRunFor(plan, begun, exact, l0, l3, outcomes + ran, n) {
      assert LifeRunFor(plan, begun, exact, l0, l1, outcomes, n);
      assert PendedFor(plan, l1, l2, n in items, n);
      assert ShownFor(plan, l2, l3, n in ran.Keys, ran, n);
      if n in items && n !in ran {
        UnstartedIsCancelled(plan, begun, exact, batch, items, outcomes, ran, n);
      } else if n !in ran && Cancelled(plan, begun, outcomes, n) {
        CancelledStays(plan, begun, outcomes, ran, n);
      } else if n !in ran && Cancelled(plan, begun, outcomes + ran, n) {
        NewlyCancelled(plan, begun, exact, batch, items, outcomes, ran, n);
      }
    }
  }

  /** All nodes of the batch became items or did not have to run. */
  ghost predicate NoneLost(plan: Plan, batch: seq<string>, items: seq<string>, skipped: set<string>) {
    forall n :: n in batch && n in plan.nodes ==> n in items || n in skipped
  }

  /** Whether a component of the batch had to run is known from the start. */
  ghost predicate Foreseen(plan: Plan, begun: Option<P.Status>, exact: bool, memory: Option<P.Status>,
                           batch: seq<string>) {
    && batch in plan.batches
    && (forall other, f :: other in plan.batches && f in other && f in batch ==> other == batch)
    && (forall n :: n in batch && Runnable(plan, memory, n) ==> Runnable(plan, begun, n))
    && (exact ==> forall n :: n in batch && Runnable(plan, begun, n) ==> Runnable(plan, memory, n))
  }

  lemma BuiltItems(plan: Plan, begun: Option<P.Status>, exact: bool, memory: Option<P.Status>, batch: seq<string>,
                   items: seq<string>, errs: seq<Error>, skipped: set<string>)
    requires Foreseen(plan, begun, exact, memory, batch)
    requires Built(plan, memory, batch, items, errs, skipped) && NoneLost(plan, batch, items, skipped)
    ensures ItemsOf(plan, begun, exact, batch, items)
  {
  }

  function Mark(life: LifeMap, n: string, phase: Phase, message: string): Lifecycle {
    var version := if n in life then life[n].version else "";
    Lifecycle(phase, version, message)
  }

  // Steps of the loops ----------------------------------------------------------

  lemma BuiltSkip(plan: Plan, progress: Option<P.Status>, batch: seq<string>, i: nat,
                  items: seq<string>, errs: seq<Error>, skipped: set<string>)
    requires i < |batch| && Built(plan, progress, batch[..i], items, errs, skipped)
    requires batch[i] in plan.nodes && !Runnable(plan, progress, batch[i])
    ensures Built(plan, progress, batch[..i + 1], items, errs, skipped + {batch[i]})
  {
    assert batch[..i + 1] == batch[..i] + [batch[i]];
  }

  lemma BuiltItem(plan: Plan, progress: Option<P.Status>, batch: seq<string>, i: nat,
                  items: seq<string>, errs: seq<Error>, skipped: set<string>)
    requires i < |batch| && Built(plan, progress, batch[..i], items, errs, skipped)
    requires NoDuplicates(batch) && Runnable(plan, progress, batch[i])
    ensures Built(plan, progress, batch[..i + 1], items + [batch[i]], errs, skipped)
  {
    assert batch[..i + 1] == batch[..i] + [batch[i]];
    assert batch[i] !in batch[..i];
  }

  lemma BuiltError(plan: Plan, progress: Option<P.Status>, batch: seq<string>, i: nat,
                   items: seq<string>, errs: seq<Error>, skipped: set<string>, e: Error)
    requires i < |batch| && Built(plan, progress, batch[..i], items, errs, skipped)
    requires !IsFailFast(plan, batch[i])
    ensures Built(plan, progress, batch[..i + 1], items, errs + [e], skipped)
  {
    assert batch[..i + 1] == batch[..i] + [batch[i]];
  }

  lemma PendedStep(plan: Plan, l0: LifeMap, l1: LifeMap, l2: LifeMap, items: seq<string>, n: string)
    requires Pended(plan, l0, l1, items)
    requires l2 == if n in plan.registry then l1[n := Mark(l1, n, Pending, "")] else l1
    ensures Pended(plan, l0, l2, items + [n])
  {
    forall m ensures PendedFor(plan, l0, l2, m in items + [n], m) {
      assert PendedFor(plan, l0, l1, m in items, m);
    }
  }

  /** The outcome of each worker that ran, by component. */
  function Results(items: seq<string>, workers: seq<W.Worker>): map<string, W.Outcome>
    requires |items| == |workers|
  {
    if items == [] then map[]
    else
      var rest := Results(items[1..], workers[1..]);
      if workers[0].Done? then rest[items[0] := workers[0].outcome] else rest
  }

  lemma {:induction false} ResultsAre(items: seq<string>, workers: seq<W.Worker>)
    requires |items| == |workers| && NoDuplicates(items)
    ensures forall n :: n in Results(items, workers) ==> n in items
    ensures forall i :: 0 <= i < |items| ==>
              (items[i] in Results(items, workers) <==> workers[i].Done?)
              && (workers[i].Done? ==> Results(items, workers)[items[i]] == workers[i].outcome)
  {
    if items != [] {
      ResultsAre(items[1..], workers[1..]);
      assert items[0] !in items[1..];
      forall i | 0 < i < |items|
        ensures items[i] == items[1..][i - 1] && workers[i] == workers[1..][i - 1]
      {
      }
    }
  }

  function FailFastFlags(plan: Plan, items: seq<string>): seq<bool> {
    seq(|items|, i requires 0 <= i < |items| => IsFailFast(plan, items[i]))
  }

  lemma SettledPool(plan: Plan, items: seq<string>, pool: W.Pool, limit: nat, failFast: seq<bool>)
    requires NoDuplicates(items) && |failFast| == |items| == |pool.workers|
    requires forall i :: 0 <= i < |items| ==> failFast[i] == IsFailFast(plan, items[i])
    requires W.Inv(pool, limit, failFast) && W.Settled(pool)
    ensures Pooled(plan, items, Results(items, pool.workers))
  {
    var ran := Results(items, pool.workers);
    ResultsAre(items, pool.workers);
    if n :| n in items && n !in ran {
      var i :| 0 <= i < |items| && items[i] == n;
      assert pool.workers[i].Dropped?;
      var k: nat :| k < |pool.workers| && W.Fatal(pool, failFast, k);
      assert items[k] in items && Fatal(plan, ran, items[k]);
    }
  }

  /** The same completions are recorded. */
  ghost predicate SameKeys(stored: Option<P.Status>, stored': Option<P.Status>) {
    && (stored.Some? <==> stored'.Some?)
    && (stored.Some? ==> stored'.value.target == stored.value.target)
    && (stored.Some? ==> stored'.value.finished == stored.value.finished)
    && KeysOf(stored) == KeysOf(stored')
  }

  /** Some component has the policy FailFast. */
  ghost predicate SomeFailFast(plan: Plan) {
    exists n :: n in plan.nodes && plan.nodes[n].policy == FailFast
  }

  /** A component with an executor shows Installed at its version, or there is an error, which stops
      the run if the component is FailFast. */
  ghost predicate InstalledOrNot(plan: Plan, life: LifeMap, n: string, errs: seq<Error>, stop: bool) {
    n in plan.registry && n in plan.nodes ==>
      || (n in life && life[n] == Lifecycle(Installed, StatusVersion(plan.nodes[n]), ""))
      || (errs != [] && (plan.nodes[n].policy == FailFast ==> stop))
  }

  /** A component whose policy is FailFast ended with a real error. */
  ghost predicate HasFatal(plan: Plan, ran: map<string, W.Outcome>) {
    exists n :: n in ran && n in plan.nodes && ran[n].RealError? && plan.nodes[n].policy == FailFast
  }

  /** The errors and the verdict after persisting the failures among `names`. */
  ghost predicate FailuresPersisted(plan: Plan, names: seq<string>, ran: map<string, W.Outcome>, errs: seq<Error>,
                                    stop: bool) {
    && (stop ==> errs != [] && HasFatal(plan, ran))
    && forall n :: n in names && n in ran && ran[n].RealError? ==> errs != [] && (IsFailFast(plan, n) ==> stop)
  }

  /** The names that succeeded, or failed, among the first results. */
  ghost function Sorted(items: seq<string>, ran: map<string, W.Outcome>, succeeded: bool): set<string> {
    set n | n in items && n in ran && ran[n].Succeeded? == succeeded
  }

  lemma SortedStep(items: seq<string>, i: nat, ran: map<string, W.Outcome>)
    requires i < |items|
    ensures forall b :: Sorted(items[..i + 1], ran, b) ==
              Sorted(items[..i], ran, b) + (if items[i] in ran && ran[items[i]].Succeeded? == b then {items[i]} else {})
  {
    assert items[..i + 1] == items[..i] + [items[i]];
  }

  /** What the success patch and the lifecycle patches after it establish. */
  ghost predicate SuccessesPersisted(plan: Plan, names: seq<string>, stored: Option<P.Status>,
                                     stored': Option<P.Status>, errs: seq<Error>, stop: bool)
    requires forall n :: n in names ==> n in plan.nodes
  {
    && (stop ==> errs != [])
    && (stored.Some? <==> stored'.Some?)
    && (stored.Some? ==> stored'.value.target == stored.value.target)
    && (stored.Some? ==> stored'.value.finished == stored.value.finished)
    && (KeysOf(stored') == KeysOf(stored) ||
        (stored.Some? && KeysOf(stored') == KeysOf(stored) + NameKeys(plan, names)))
    && (stored.Some? && !(NameKeys(plan, names) <= KeysOf(stored')) ==>
          errs != [] && forall n :: n in names && IsFailFast(plan, n) ==> stop)
  }

  lemma PersistComposes(plan: Plan, items: seq<string>, ran: map<string, W.Outcome>, successes: seq<string>,
                        s0: Option<P.Status>, s1: Option<P.Status>, s2: Option<P.Status>,
                        errs: seq<Error>, stop: bool, late: seq<Error>, fatal: bool)
    requires (forall n :: n in successes ==> n in plan.nodes) && (forall n :: n in ran ==> n in items)
    requires forall n :: n in plan.nodes ==> plan.nodes[n].name == n
    requires T.Elems(successes) == Sorted(items, ran, true)
    requires FailuresPersisted(plan, items, ran, errs, stop) && SameKeys(s0, s1)
    requires SuccessesPersisted(plan, successes, s1, s2, late, fatal)
    ensures Persisted(plan, ran, s0, s2, errs + late, stop || fatal)
  {
    forall n | n in ran && ran[n].Succeeded? && n in plan.nodes
      ensures !Kept(plan, s2, n) ==> late != [] && (IsFailFast(plan, n) ==> fatal)
    {
      assert n in T.Elems(successes);
      assert KeyOf(plan, n) in NameKeys(plan, successes);
    }
    forall k | k in KeysOf(s2) - KeysOf(s0)
      ensures Earned(plan, ran, k)
    {
      var n :| n in successes && k == KeyOf(plan, n);
      assert n in T.Elems(successes);
    }
  }

  lemma NothingDone(plan: Plan, stored: Option<P.Status>)
    ensures RunInv(plan, stored, stored, 0, map[], [])
  {
    assert T.Placed(plan.batches, 0) == {};
  }

  lemma BatchIsFresh(plan: Plan, b: nat, outcomes: map<string, W.Outcome>)
    requires ValidPlan(plan) && b < |plan.batches|
    requires forall n :: n in outcomes ==> n in T.Placed(plan.batches, b)
    ensures forall n :: n in plan.batches[b] ==> n !in outcomes
  {
    forall n | n in plan.batches[b] ensures n !in outcomes {
      FreshInBatch(plan, b, n);
    }
  }

  /** The progress a run is known to have worked with from the start. */
  ghost function Begun(m0: Option<P.Status>, s0: Option<P.Status>): Option<P.Status> {
    if m0 == s0 then s0 else None
  }

  /** What a run started and recorded after the pools of `log`; m0 and s0 are the progress in
      memory and in the store when it began. */
  ghost predicate Trace(plan: Plan, m0: Option<P.Status>, s0: Option<P.Status>, stored: Option<P.Status>, log: Log) {
    && Follows(plan, log) && SafeLog(plan, m0, s0, log) && Due(plan, m0, s0, log)
    && Grows(plan, s0, stored, Outcomes(log))
    && forall n :: n in Outcomes(log) ==> n in T.Placed(plan.batches, |log|)
  }

  lemma NothingTraced(plan: Plan, m0: Option<P.Status>, s0: Option<P.Status>)
    ensures Trace(plan, m0, s0, s0, []) && AllClean(plan, m0, s0, s0, [])
  {
  }

  lemma DueExtends(plan: Plan, m0: Option<P.Status>, s0: Option<P.Status>, log: Log, ran: map<string, W.Outcome>)
    requires |log| < |plan.batches| && Follows(plan, log) && Due(plan, m0, s0, log)
    requires forall n :: n in ran ==> n in plan.batches[|log|] && (Runnable(plan, m0, n) || Runnable(plan, s0, n))
    ensures Follows(plan, log + [ran]) && Due(plan, m0, s0, log + [ran])
  {
  }

  /** What the next pool starts had to run. */
  lemma NextIsDue(plan: Plan, m0: Option<P.Status>, s0: Option<P.Status>, m: Option<P.Status>, s: Option<P.Status>,
                  done: nat, outcomes: map<string, W.Outcome>, ran: map<string, W.Outcome>)
    requires ValidPlan(plan) && done < |plan.batches| && Tracks(m0, s0, m, s) && Grows(plan, s0, s, outcomes)
    requires forall n :: n in outcomes ==> n in T.Placed(plan.batches, done)
    requires forall n :: n in ran ==> n in plan.batches[done] && Runnable(plan, m, n)
    ensures forall n :: n in ran ==> Runnable(plan, m0, n) || Runnable(plan, s0, n)
  {
    forall n | n in ran ensures Runnable(plan, m0, n) || Runnable(plan, s0, n) {
      SinceStart(plan, m0, s0, m, s, done, outcomes, n);
    }
  }

  lemma TraceExtends(plan: Plan, m0: Option<P.Status>, s0: Option<P.Status>, m: Option<P.Status>, s: Option<P.Status>,
                     s': Option<P.Status>, log: Log, errs: seq<Error>, stop: bool, r: Report)
    requires ValidPlan(plan) && |log| < |plan.batches| && Tracks(m0, s0, m, s)
    requires Trace(plan, m0, s0, s, log) && AllClean(plan, m0, s0, s, log)
    requires BatchDone(plan, m, s, s', plan.batches[|log|], errs, stop, r)
    ensures Trace(plan, m0, s0, s', log + [r.ran])
  {
    var b := |log|;
    NextIsDue(plan, m0, s0, m, s, b, Outcomes(log), r.ran);
    DueExtends(plan, m0, s0, log, r.ran);
    SafeLogExtends(plan, m0, s0, s, log, r.ran);
    OutcomesStep(log, r.ran);
    BatchIsFresh(plan, b, Outcomes(log));
    GrowsTrans(plan, s0, s, s', Outcomes(log), r.ran);
    PlacedStep(plan.batches, b);
  }

  /** A batch that was given up before its pool started changes nothing. */
  lemma TraceHalts(plan: Plan, m0: Option<P.Status>, s0: Option<P.Status>, s: Option<P.Status>, s': Option<P.Status>,
                   log: Log)
    requires Trace(plan, m0, s0, s, log) && Grows(plan, s, s', map[])
    ensures Trace(plan, m0, s0, s', log)
  {
    GrowsTrans(plan, s0, s, s', Outcomes(log), map[]);
    assert Outcomes(log) + map[] == Outcomes(log);
  }

  /** Recording more keeps earlier batches clean. */
  lemma CleanStays(plan: Plan, m0: Option<P.Status>, s0: Option<P.Status>, s: Option<P.Status>, s': Option<P.Status>,
                   log: Log, ran: map<string, W.Outcome>)
    requires |log| <= |plan.batches| && AllClean(plan, m0, s0, s, log) && Grows(plan, s, s', ran)
    ensures AllClean(plan, m0, s0, s', log)
  {
    forall b, n | 0 <= b < |log| && n in plan.batches[b] && IsFailFast(plan, n)
      ensures Clean(plan, m0, s0, s', log[b], n)
    {
      assert Clean(plan, m0, s0, s, log[b], n);
    }
  }

  /** A batch after which the run goes on is clean. */
  lemma CleanExtends(plan: Plan, m0: Option<P.Status>, s0: Option<P.Status>, m: Option<P.Status>, s: Option<P.Status>,
                     s': Option<P.Status>, log: Log, errs: seq<Error>, r: Report)
    requires ValidPlan(plan) && |log| < |plan.batches| && Tracks(m0, s0, m, s)
    requires Trace(plan, m0, s0, s, log) && AllClean(plan, m0, s0, s, log)
    requires BatchDone(plan, m, s, s', plan.batches[|log|], errs, false, r)
    ensures AllClean(plan, m0, s0, s', log + [r.ran])
  {
    CleanStays(plan, m0, s0, s, s', log, r.ran);
    forall n | n in plan.batches[|log|] && IsFailFast(plan, n) ensures Clean(plan, m0, s0, s', r.ran, n) {
      SinceStart(plan, m0, s0, m, s, |log|, Outcomes(log), n);
    }
  }

  /** The loop of ExecuteDAG between two batches. */
  ghost predicate Between(plan: Plan, m0: Option<P.Status>, s0: Option<P.Status>, m: Option<P.Status>,
                          s: Option<P.Status>,
                          log: Log, errs: seq<Error>) {
    && Tracks(m0, s0, m, s) && Trace(plan, m0, s0, s, log)
    && (m0 == s0 ==> RunInv(plan, s0, s, |log|, Outcomes(log), errs))
  }

  lemma BatchAdvances(plan: Plan, m0: Option<P.Status>, s0: Option<P.Status>, m: Option<P.Status>, s: Option<P.Status>,
                      m': Option<P.Status>, s': Option<P.Status>, log: Log,
                      errs: seq<Error>, errs': seq<Error>, stop: bool, r: Report)
    requires ValidPlan(plan) && |log| < |plan.batches| && Tracks(m, s, m', s')
    requires Between(plan, m0, s0, m, s, log, errs) && AllClean(plan, m0, s0, s, log)
    requires BatchDone(plan, m, s, s', plan.batches[|log|], errs', stop, r)
    ensures Between(plan, m0, s0, m', s', log + [r.ran], errs + errs')
    ensures AllClean(plan, m0, s0, s', log)
    ensures !stop ==> AllClean(plan, m0, s0, s', log + [r.ran])
  {
    TraceExtends(plan, m0, s0, m, s, s', log, errs', stop, r);
    CleanStays(plan, m0, s0, s, s', log, r.ran);
    OutcomesStep(log, r.ran);
    if m0 == s0 {
      RunStep(plan, s0, s, s', |log|, Outcomes(log), errs, errs', stop, r);
    }
    if !stop {
      CleanExtends(plan, m0, s0, m, s, s', log, errs', r);
    }
  }

  /**
   What a run of the DAG did: pool after pool it started components of batch after batch that had
   to run, each only after its FailFast prerequisites; only in its last pool a FailFast component
   failed or could not be recorded; completions were only added, for components that succeeded;
   and it ended early, or left a component unaccounted for, only with an error.
   */
  ghost predicate DagRun(plan: Plan, m0: Option<P.Status>, s0: Option<P.Status>, m: Option<P.Status>,
                         s: Option<P.Status>,
                         log: Log, errs: seq<Error>) {
    && Tracks(m0, s0, m, s) && Trace(plan, m0, s0, s, log)
    && AllClean(plan, m0, s0, s, if log == [] then [] else log[..|log| - 1])
    && (|log| < |plan.batches| ==> errs != [])
    && (m0 == s0 && errs == [] ==> AllClassified(plan, s0, s, Outcomes(log)))
  }

  lemma RunStops(plan: Plan, m0: Option<P.Status>, s0: Option<P.Status>, m: Option<P.Status>, s: Option<P.Status>,
                 log: Log, ran: map<string, W.Outcome>, errs: seq<Error>)
    requires |log| < |plan.batches| && errs != []
    requires Between(plan, m0, s0, m, s, log + [ran], errs) && AllClean(plan, m0, s0, s, log)
    ensures DagRun(plan, m0, s0, m, s, log + [ran], errs)
  {
    assert (log + [ran])[..|log|] == log;
  }

  lemma RunHalts(plan: Plan, m0: Option<P.Status>, s0: Option<P.Status>, m: Option<P.Status>, s: Option<P.Status>,
                 log: Log, errs: seq<Error>)
    requires |log| < |plan.batches| && errs != [] && Tracks(m0, s0, m, s)
    requires Trace(plan, m0, s0, s, log) && AllClean(plan, m0, s0, s, log)
    ensures DagRun(plan, m0, s0, m, s, log, errs)
  {
  }

  lemma RunCompletes(plan: Plan, m0: Option<P.Status>, s0: Option<P.Status>, m: Option<P.Status>, s: Option<P.Status>,
                     log: Log, errs: seq<Error>)
    requires ValidPlan(plan) && |log| == |plan.batches|
    requires Between(plan, m0, s0, m, s, log, errs) && AllClean(plan, m0, s0, s, log)
    ensures DagRun(plan, m0, s0, m, s, log, errs)
  {
    if m0 == s0 && errs == [] { RunAccounts(plan, s0, s, Outcomes(log)); }
  }

  /** Each pool of the log holds the outcomes of its components. */
  lemma {:induction false} OutcomeOf(plan: Plan, log: Log, b: nat, n: string)
    requires ValidPlan(plan) && Follows(plan, log) && b < |log| && n in log[b]
    ensures n in Outcomes(log) && Outcomes(log)[n] == log[b][n]
    decreases |log|
  {
    var last := |log| - 1;
    if b < last {
      OutcomeOf(plan, log[..last], b, n);
      assert T.InBatch(plan.batches, b, n);
      assert n in log[last] ==> T.InBatch(plan.batches, last, n);
    }
  }

  lemma {:induction false} OutcomeFrom(log: Log, n: string) returns (b: nat)
    requires n in Outcomes(log)
    ensures b < |log| && n in log[b]
  {
    var last := |log| - 1;
    if n in log[last] { b := last; } else { b := OutcomeFrom(log[..last], n); }
  }

  /** A component that did not run with its own batch did not run at all. */
  lemma NeverRan(plan: Plan, log: Log, a: nat, n: string)
    requires ValidPlan(plan) && Follows(plan, log) && a < |log| && n in plan.batches[a] && n !in log[a]
    ensures n !in Outcomes(log)
  {
    if n in Outcomes(log) {
      var b := OutcomeFrom(log, n);
      assert T.InBatch(plan.batches, a, n) && T.InBatch(plan.batches, b, n);
    }
  }

  /**
   The FailFast policy, over everything that started: a FailFast component on which another one
   that started depends ran without a real error, or did not run and did not have to.
   */
  lemma StartedSafely(plan: Plan, m0: Option<P.Status>, s0: Option<P.Status>, log: Log, d: string, n: string)
    requires ValidPlan(plan) && Follows(plan, log) && SafeLog(plan, m0, s0, log)
    requires n in Outcomes(log) && d in plan.nodes && plan.nodes[d].policy == FailFast && Prerequisite(plan, d, n)
    ensures Settled(plan, m0, s0, Outcomes(log), d)
    ensures if d in Outcomes(log) then Outcomes(log)[d] != W.RealError
            else !Runnable(plan, m0, d) || !Runnable(plan, s0, d)
  {
    assert NeedsFirst(plan, d, n);
    var b := OutcomeFrom(log, n);
    var a :| 0 <= a < b && d in plan.batches[a] && Settled(plan, m0, s0, log[a], d);
    if d in log[a] { OutcomeOf(plan, log, a, d); } else { NeverRan(plan, log, a, d); }
  }

  lemma CleanEarlier(plan: Plan, m0: Option<P.Status>, s0: Option<P.Status>, s: Option<P.Status>, log: Log, a: nat,
                     f: string)
    requires a < |log| - 1 < |plan.batches| && AllClean(plan, m0, s0, s, log[..|log| - 1])
    requires f in plan.batches[a] && IsFailFast(plan, f)
    ensures Clean(plan, m0, s0, s, log[a], f)
  {
    assert log[..|log| - 1][a] == log[a];
  }

  /** Nothing of a later batch starts when a FailFast component failed, or succeeded and could
      not be recorded. */
  lemma NothingAfterFailure(plan: Plan, m0: Option<P.Status>, s0: Option<P.Status>, s: Option<P.Status>,
                            log: Log, f: string, n: string, a: nat, b: nat)
    requires ValidPlan(plan) && Follows(plan, log) && f in Outcomes(log)
    requires f in plan.nodes && plan.nodes[f].policy == FailFast
    requires log != [] ==> AllClean(plan, m0, s0, s, log[..|log| - 1])
    requires Outcomes(log)[f].RealError? || (Outcomes(log)[f].Succeeded? && !Kept(plan, s, f))
    requires a < b < |plan.batches| && f in plan.batches[a] && n in plan.batches[b]
    ensures n !in Outcomes(log) && |log| == a + 1
  {
    var i := OutcomeFrom(log, f);
    assert T.InBatch(plan.batches, i, f) && T.InBatch(plan.batches, a, f);
    OutcomeOf(plan, log, a, f);
    if a < |log| - 1 { CleanEarlier(plan, m0, s0, s, log, a, f); }
    if n in Outcomes(log) {
      var k := OutcomeFrom(log, n);
      assert T.InBatch(plan.batches, k, n) && T.InBatch(plan.batches, b, n);
    }
  }

  /** A run without errors that saw every batch accounts for every component. */
  ghost predicate AllClassified(plan: Plan, start: Option<P.Status>, stored: Option<P.Status>,
                                outcomes: map<string, W.Outcome>) {
    forall n :: n in plan.nodes ==> Classified(plan, start, stored, outcomes, n)
  }

  lemma RunAccounts(plan: Plan, start: Option<P.Status>, stored: Option<P.Status>, outcomes: map<string, W.Outcome>)
    requires ValidPlan(plan) && RunInv(plan, start, stored, |plan.batches|, outcomes, [])
    ensures AllClassified(plan, start, stored, outcomes)
  {
    assert T.Placed(plan.batches, |plan.batches|) == plan.nodes.Keys;
  }

  lemma PlanBatch(plan: Plan, b: nat)
    requires ValidPlan(plan) && b < |plan.batches|
    ensures NoDuplicates(plan.batches[b])
    ensures forall n :: n in plan.nodes ==> plan.nodes[n].name == n
  {
  }

  class Run {
    const plan: Plan
    const reliable: bool           // every read and patch of the store succeeds
    var stored: Option<P.Status>   // BKECluster.status.declarativeUpgrade in the store
    var memory: Option<P.Status>   // and in the cluster object the run works on
    var storedLife: LifeMap        // BKECluster.status.clusterComponentStatuses
    var memoryLife: LifeMap
    ghost var log: Log             // what the pools started; only RunPool adds to it

    constructor (plan: Plan, reliable: bool, progress: Option<P.Status>, life: LifeMap)
      ensures this.plan == plan && this.reliable == reliable
      ensures stored == progress && storedLife == life && Mirrored() && log == []
    {
      this.plan, this.reliable := plan, reliable;
      stored, memory, storedLife, memoryLife, log := progress, progress, life, life, [];
    }

    predicate Mirrored()
      reads this
    {
      memory == stored && memoryLife == storedLife
    }

    /** patchDeclarativeUpgrade: get, mutate, patch, then overwrite the mirror. */
    method PatchProgress(mutate: P.Status -> P.Status) returns (ok: bool)
      modifies this`stored, this`memory
      ensures ok && old(stored).Some? ==> stored == Some(mutate(old(stored).value)) && memory == stored
      ensures !ok || old(stored).None? ==> stored == old(stored) && memory == old(memory)
      ensures reliable ==> ok
    {
      ok := *;
      if reliable { ok := true; }
      if !ok || stored.None? { return; }
      stored := Some(mutate(stored.value));
      memory := stored;
    }

    method PatchLife(n: string, entry: Lifecycle) returns (ok: bool)
      modifies this`storedLife, this`memoryLife
      ensures ok ==> storedLife == old(storedLife)[n := entry] && memoryLife == old(memoryLife)[n := entry]
      ensures !ok ==> storedLife == old(storedLife) && memoryLife == old(memoryLife)
      ensures reliable ==> ok
    {
      ok := *;
      if reliable { ok := true; }
      if !ok { return; }
      storedLife := storedLife[n := entry];
      memoryLife := memoryLife[n := entry];
    }

    method ClearLife(n: string) returns (ok: bool)
      modifies this`storedLife, this`memoryLife
      ensures ok ==> storedLife == old(storedLife) - {n}
      ensures !ok ==> storedLife == old(storedLife)
      ensures old(memoryLife == storedLife) ==> memoryLife == storedLife
      ensures reliable ==> ok
    {
      ok := *;
      if reliable { ok := true; }
      if !ok { return; }
      if n !in storedLife {
        assert storedLife - {n} == storedLife;
        return;
      }
      storedLife := storedLife - {n};
      memoryLife := memoryLife - {n};
    }

    /** Collects the work items of a batch and marks the registered ones Pending. */
    method BuildItems(batch: seq<string>)
      returns (items: seq<string>, errs: seq<Error>, stop: bool, skipped: set<string>)
      requires NoDuplicates(batch)
      modifies this`storedLife, this`memoryLife
      ensures stop ==>
                errs != [] && forall n :: n in skipped ==> n in batch && n in plan.nodes && !Runnable(plan, memory, n)
      ensures !stop ==> Built(plan, memory, batch, items, errs, skipped)
      ensures stop ==> SomeFailFast(plan)
      ensures old(Mirrored()) ==> Mirrored()
      ensures reliable ==>
                !stop && Pended(plan, old(storedLife), storedLife, items) && NoneLost(plan, batch, items, skipped)
    {
      items, errs, stop, skipped := [], [], false, {};
      for i := 0 to |batch|
        invariant !stop && Built(plan, memory, batch[..i], items, errs, skipped)
        invariant old(Mirrored()) ==> Mirrored()
        invariant reliable ==> Pended(plan, old(storedLife), storedLife, items)
        invariant reliable ==> NoneLost(plan, batch[..i], items, skipped)
      {
        var n := batch[i];
        assert batch[..i + 1] == batch[..i] + [n];
        if n !in plan.nodes {
          BuiltError(plan, memory, batch, i, items, errs, skipped, NotFound(n));
          errs := errs + [NotFound(n)];
          continue;
        }
        if Recorded(plan, memory, n) || n !in plan.needs {
          BuiltSkip(plan, memory, batch, i, items, errs, skipped);
          skipped := skipped + {n};
          continue;
        }
        var marked, life := true, storedLife;
        if n in plan.registry {
          marked := PatchLife(n, Mark(storedLife, n, Pending, ""));
        }
        if !marked {
          if IsFailFast(plan, n) {
            assert forall m :: m in batch[..i] ==> m in batch;
            return items, errs + [Persist(n)], true, skipped;
          }
          BuiltError(plan, memory, batch, i, items, errs, skipped, Persist(n));
          errs := errs + [Persist(n)];
          continue;
        }
        BuiltItem(plan, memory, batch, i, items, errs, skipped);
        if reliable { PendedStep(plan, old(storedLife), life, storedLife, items, n); }
        items := items + [n];
      }
      assert batch[..|batch|] == batch;
    }

    /** Runs the items on the pool, in any interleaving within the limit, until every worker
        has settled; `states` is the interleaving. */
    method RunPool(items: seq<string>) returns (ran: map<string, W.Outcome>, ghost states: seq<W.Pool>)
      requires NoDuplicates(items)
      modifies this`log
      ensures W.Behaviour(states, W.MaxParallel(plan.maxParallel, |items|), FailFastFlags(plan, items))
      ensures var last := states[|states| - 1];
              W.Settled(last) && |last.workers| == |items| && ran == Results(items, last.workers)
      ensures Pooled(plan, items, ran) && log == old(log) + [ran]
    {
      var limit := W.MaxParallel(plan.maxParallel, |items|);
      var failFast := FailFastFlags(plan, items);
      var pool := W.Initial(|items|);
      states := [pool];
      W.InitialInv(|items|, limit, failFast);
      while !W.Settled(pool)
        invariant W.Inv(pool, limit, failFast) && log == old(log)
        invariant W.Behaviour(states, limit, failFast) && states[|states| - 1] == pool
        decreases W.Measure(pool)
      {
        W.CanStep(pool, limit, failFast);
        var step :| W.Enabled(pool, limit, failFast, step);
        W.StepInv(pool, step, limit, failFast);
        W.BehaviourExtends(states, step, limit, failFast);
        pool := W.Next(pool, step);
        states := states + [pool];
      }
      SettledPool(plan, items, pool, limit, failFast);
      ran := Results(items, pool.workers);
      log := log + [ran];
    }

    /** persistBatchFailure: a component that is not installed leaves no trace; a real
        error is recorded and, for a FailFast component, stops the run. */
    method PersistFailure(n: string, ghost ran: map<string, W.Outcome>, outcome: W.Outcome)
      returns (errs: seq<Error>, stop: bool)
      requires n in plan.nodes && n in ran && ran[n] == outcome && !outcome.Succeeded?
      modifies this`stored, this`memory, this`storedLife, this`memoryLife
      ensures stop == (outcome.RealError? && plan.nodes[n].policy == FailFast)
      ensures outcome.RealError? ==> Component(n) in errs
      ensures SameKeys(old(stored), stored) && (reliable ==> Persist(n) !in errs)
      ensures Persist(n) !in errs ==> Shown(plan, old(storedLife), storedLife, {n}, ran)
      ensures outcome.RealError? && Persist(n) !in errs && old(stored).Some? ==>
                stored == Some(P.MarkFailure(old(stored).value, plan.nodes[n].name, VersionKey(plan.nodes[n]), n))
      ensures outcome.NotInstalled? ==> stored == old(stored) && memory == old(memory)
      ensures Tracks(old(memory), old(stored), memory, stored)
      ensures old(Mirrored()) ==> Mirrored()
      ensures reliable ==> Shown(plan, old(storedLife), storedLife, {n}, ran)
    {
      errs, stop := [], false;
      var ok := true;
      if outcome.NotInstalled? {
        if n in plan.registry {
          ok := ClearLife(n);
          if !ok { errs := [Persist(n)]; }
        }
        return;
      }
      ok := PatchProgress(s => P.MarkFailure(s, plan.nodes[n].name, VersionKey(plan.nodes[n]), n));
      if !ok { errs := errs + [Persist(n)]; }
      if n in plan.registry {
        ok := PatchLife(n, Mark(storedLife, n, Failed, n));
        if !ok { errs := errs + [Persist(n)]; }
      }
      errs := errs + [Component(n)];
      stop := IsFailFast(plan, n);
    }

    /** persistBatchSuccesses: one progress patch for all, then the lifecycle entries. */
    method PersistSuccesses(names: seq<string>, ghost ran: map<string, W.Outcome>)
      returns (errs: seq<Error>, stop: bool)
      requires forall n :: n in names ==> n in plan.nodes && n in ran && ran[n].Succeeded?
      modifies this`stored, this`memory, this`storedLife, this`memoryLife
      ensures SuccessesPersisted(plan, names, old(stored), stored, errs, stop)
      ensures (reliable ==> !stop) && (stop ==> SomeFailFast(plan))
      ensures forall n :: n in names ==> InstalledOrNot(plan, storedLife, n, errs, stop)
      ensures reliable && names != [] && old(stored).Some? ==>
                stored == Some(Complete(plan, old(stored).value, names))
      ensures Tracks(old(memory), old(stored), memory, stored)
      ensures old(Mirrored()) ==> Mirrored()
      ensures reliable ==> Shown(plan, old(storedLife), storedLife, T.Elems(names), ran)
    {
      errs, stop := [], false;
      if names == [] {
        assert NameKeys(plan, names) == {};
        return;
      }
      errs, stop := RecordCompletions(names);
      var late, fatal := MarkInstalled(names, ran);
      errs, stop := errs + late, stop || fatal;
    }

    /** markComponentsCompleted, with a complaint for each component when it fails. */
    method RecordCompletions(names: seq<string>) returns (errs: seq<Error>, stop: bool)
      requires names != [] && forall n :: n in names ==> n in plan.nodes
      modifies this`stored, this`memory
      ensures SuccessesPersisted(plan, names, old(stored), stored, errs, stop)
      ensures (reliable ==> !stop) && (stop ==> SomeFailFast(plan))
      ensures reliable && old(stored).Some? ==> stored == Some(Complete(plan, old(stored).value, names))
      ensures Tracks(old(memory), old(stored), memory, stored)
    {
      errs, stop := [], false;
      if stored.Some? { MarkAllKeys(plan, stored.value, names); }
      var ok := PatchProgress(s => Complete(plan, s, names));
      if !ok {
        errs, stop := Complaints(names);
      }
    }

    /** markLifecycleInstalled for the components with an executor. */
    method MarkInstalled(names: seq<string>, ghost ran: map<string, W.Outcome>) returns (errs: seq<Error>, stop: bool)
      requires forall n :: n in names ==> n in plan.nodes && n in ran && ran[n].Succeeded?
      modifies this`storedLife, this`memoryLife
      ensures stop ==> errs != [] && SomeFailFast(plan)
      ensures reliable ==> !stop
      ensures forall n :: n in names ==> InstalledOrNot(plan, storedLife, n, errs, stop)
      ensures old(memoryLife == storedLife) ==> memoryLife == storedLife
      ensures reliable ==> Shown(plan, old(storedLife), storedLife, T.Elems(names), ran)
    {
      errs, stop := [], false;
      for i := 0 to |names|
        invariant (stop ==> errs != [] && SomeFailFast(plan)) && (reliable ==> !stop)
        invariant forall j :: 0 <= j < i ==> InstalledOrNot(plan, storedLife, names[j], errs, stop)
        invariant old(memoryLife == storedLife) ==> memoryLife == storedLife
        invariant reliable ==> Shown(plan, old(storedLife), storedLife, T.Elems(names[..i]), ran)
      {
        var n, life := names[i], storedLife;
        T.ElemsExtend(names, i);
        if n in plan.registry {
          var ok := PatchLife(n, Lifecycle(Installed, StatusVersion(plan.nodes[n]), ""));
          if !ok {
            errs := errs + [Persist(n)];
            stop := stop || IsFailFast(plan, n);
          }
        }
        if reliable {
          assert Shown(plan, life, storedLife, {n}, ran);
          ShownStep(plan, old(storedLife), life, storedLife, T.Elems(names[..i]), {n}, ran);
        }
      }
      assert names[..|names|] == names;
    }

    method Complaints(names: seq<string>) returns (errs: seq<Error>, stop: bool)
      requires names != []
      ensures errs != [] && forall n :: n in names && IsFailFast(plan, n) ==> stop
      ensures stop ==> SomeFailFast(plan)
    {
      errs, stop := [], false;
      for i := 0 to |names|
        invariant |errs| == i && forall j :: 0 <= j < i && IsFailFast(plan, names[j]) ==> stop
        invariant stop ==> SomeFailFast(plan)
      {
        errs := errs + [Persist(names[i])];
        stop := stop || IsFailFast(plan, names[i]);
      }
    }

    /** The loop of persistBatchResults: failures are recorded one by one, successes collected. */
    method PersistFailures(items: seq<string>, ran: map<string, W.Outcome>)
      returns (errs: seq<Error>, stop: bool, successes: seq<string>)
      requires forall n :: n in items ==> n in plan.nodes
      modifies this`stored, this`memory, this`storedLife, this`memoryLife
      ensures FailuresPersisted(plan, items, ran, errs, stop) && SameKeys(old(stored), stored)
      ensures T.Elems(successes) == Sorted(items, ran, true)
      ensures Tracks(old(memory), old(stored), memory, stored)
      ensures old(Mirrored()) ==> Mirrored()
      ensures reliable ==> Shown(plan, old(storedLife), storedLife, Sorted(items, ran, false), ran)
    {
      errs, stop, successes := [], false, [];
      for i := 0 to |items|
        invariant FailuresPersisted(plan, items[..i], ran, errs, stop)
        invariant SameKeys(old(stored), stored) && Tracks(old(memory), old(stored), memory, stored)
        invariant T.Elems(successes) == Sorted(items[..i], ran, true)
        invariant old(Mirrored()) ==> Mirrored()
        invariant reliable ==> Shown(plan, old(storedLife), storedLife, Sorted(items[..i], ran, false), ran)
      {
        var n := items[i];
        assert items[..i + 1] == items[..i] + [n];
        SortedStep(items, i, ran);
        if n !in ran { continue; }
        if ran[n].Succeeded? {
          assert T.Elems(successes + [n]) == T.Elems(successes) + {n};
          successes := successes + [n];
          continue;
        }
        ghost var life := storedLife;
        var failed, fatal := PersistFailure(n, ran, ran[n]);
        if reliable {
          ShownStep(plan, old(storedLife), life, storedLife, Sorted(items[..i], ran, false), {n}, ran);
        }
        errs := errs + failed;
        assert fatal ==> Fatal(plan, ran, n);
        stop := stop || fatal;
      }
      assert items[..|items|] == items;
    }

    /** persistBatchResults: failures one by one, then all successes in one patch. */
    method PersistResults(items: seq<string>, ran: map<string, W.Outcome>) returns (errs: seq<Error>, stop: bool)
      requires forall n :: n in items ==> n in plan.nodes
      requires forall n :: n in plan.nodes ==> plan.nodes[n].name == n
      requires forall n :: n in ran ==> n in items
      modifies this`stored, this`memory, this`storedLife, this`memoryLife
      ensures Persisted(plan, ran, old(stored), stored, errs, stop)
      ensures reliable && stop ==> HasFatal(plan, ran)
      ensures stop ==> SomeFailFast(plan)
      ensures Tracks(old(memory), old(stored), memory, stored)
      ensures old(Mirrored()) ==> Mirrored()
      ensures reliable ==> Shown(plan, old(storedLife), storedLife, ran.Keys, ran)
    {
      var successes;
      errs, stop, successes := PersistFailures(items, ran);
      forall n | n in successes ensures n in plan.nodes && n in ran && ran[n].Succeeded? {
        assert n in T.Elems(successes);
      }
      ghost var s1, life := stored, storedLife;
      var late, fatal := PersistSuccesses(successes, ran);
      PersistComposes(plan, items, ran, successes, old(stored), s1, stored, errs, stop, late, fatal);
      if reliable {
        ShownStep(plan, old(storedLife), life, storedLife, Sorted(items, ran, false), Sorted(items, ran, true), ran);
        assert Sorted(items, ran, false) + Sorted(items, ran, true) == ran.Keys;
      }
      errs := errs + late;
      stop := stop || fatal;
    }

    /** executeBatchParallel: build the items, run them on the pool, persist the results.  The run
        of no items is logged as well, so that the pools of the log go with the batches. */
    method ExecuteBatch(batch: seq<string>, ghost begun: Option<P.Status>, ghost exact: bool,
                        ghost outcomes: map<string, W.Outcome>, ghost start: LifeMap)
      returns (errs: seq<Error>, stop: bool, ghost report: Report)
      requires NoDuplicates(batch) && Foreseen(plan, begun, exact, memory, batch)
      requires forall n :: n in plan.nodes ==> plan.nodes[n].name == n
      requires forall n :: n in batch ==> n !in outcomes
      requires reliable ==> LifeRun(plan, begun, exact, start, storedLife, outcomes)
      modifies this
      ensures BatchDone(plan, old(memory), old(stored), stored, batch, errs, stop, report)
      ensures log == old(log) + [report.ran] || (stop && !reliable && log == old(log) && report.ran == map[])
      ensures Tracks(old(memory), old(stored), memory, stored) && (old(Mirrored()) ==> Mirrored())
      ensures reliable && stop ==> HasFatal(plan, report.ran)
      ensures stop ==> SomeFailFast(plan)
      ensures reliable ==> LifeRun(plan, begun, exact, start, storedLife, outcomes + report.ran)
    {
      var items, built, halted, skipped := BuildItems(batch);
      if halted {
        report := Report(skipped, map[]);
        return built, true, report;
      }
      ghost var life := storedLife;
      var ran, states := RunPool(items);
      report := Report(skipped, ran);
      var late;
      late, stop := PersistResults(items, ran);
      BatchComposes(plan, old(memory), old(stored), stored, batch, items, report, built, late, stop);
      if reliable {
        BuiltItems(plan, begun, exact, old(memory), batch, items, built, skipped);
        LifeRunStep(plan, begun, exact, start, old(storedLife), life, storedLife, batch, items, outcomes, ran);
      }
      errs := built + late;
    }

    /** The lifecycle map is what the pools of the log make of it. */
    ghost predicate LifeShown(m0: Option<P.Status>, s0: Option<P.Status>, life: LifeMap, entries: Log)
      reads this
    {
      reliable ==> LifeRun(plan, Begun(m0, s0), m0 == s0, life, storedLife, Outcomes(entries))
    }

    /** One iteration of the loop of ExecuteDAG.  `before` is the log the run began with. */
    method Advance(ghost m0: Option<P.Status>, ghost s0: Option<P.Status>, ghost life: LifeMap, ghost before: Log,
                   ghost entries: Log, b: nat, ghost errs: seq<Error>)
      returns (failed: seq<Error>, stop: bool, ghost entries': Log)
      requires ValidPlan(plan) && |entries| == b < |plan.batches| && log == before + entries
      requires Between(plan, m0, s0, memory, stored, entries, errs) && AllClean(plan, m0, s0, stored, entries)
      requires LifeShown(m0, s0, life, entries)
      modifies this
      ensures log == before + entries' && (old(Mirrored()) ==> Mirrored())
      ensures stop ==> DagRun(plan, m0, s0, memory, stored, entries', errs + failed)
      ensures !stop ==> |entries'| == b + 1 && Between(plan, m0, s0, memory, stored, entries', errs + failed)
                        && AllClean(plan, m0, s0, stored, entries')
      ensures reliable && stop ==> |entries'| == b + 1 && HasFatal(plan, entries'[b])
      ensures stop ==> SomeFailFast(plan)
      ensures LifeShown(m0, s0, life, entries')
    {
      PlanBatch(plan, b);
      BatchIsFresh(plan, b, Outcomes(entries));
      ForeseenBatch(plan, m0, s0, memory, stored, b, Outcomes(entries));
      ghost var report;
      failed, stop, report := ExecuteBatch(plan.batches[b], Begun(m0, s0), m0 == s0, Outcomes(entries), life);
      entries' := entries + [report.ran];
      OutcomesStep(entries, report.ran);
      BatchAdvances(plan, m0, s0, old(memory), old(stored), memory, stored, entries, errs, failed, stop, report);
      if stop {
        if log == old(log) {
          entries' := entries;
          TraceHalts(plan, m0, s0, old(stored), stored, entries);
          RunHalts(plan, m0, s0, memory, stored, entries, errs + failed);
        } else {
          RunStops(plan, m0, s0, memory, stored, entries, report.ran, errs + failed);
        }
      }
    }

    /**
     ExecuteDAG.  For every interleaving and every pattern of failures, with what the pools
     started on record in the log:
     - a component starts only after each FailFast component it depends on was settled, and the
       batch of a FailFast failure is the last one of which anything starts;
     - no recorded component starts, completions are only added, and the mirror stays equal to
       the store;
     - a run without errors accounts for every component of the DAG;
     - with a store that never fails, only a FailFast failure ends the run early, and the
       lifecycle entries show the outcomes.
     */
    method ExecuteDAG() returns (errs: seq<Error>, ghost entries: Log)
      requires ValidPlan(plan)
      modifies this
      ensures log == old(log) + entries
      ensures DagRun(plan, old(memory), old(stored), memory, stored, entries, errs)
      ensures reliable && |entries| < |plan.batches| ==>
                entries != [] && HasFatal(plan, entries[|entries| - 1])
      ensures |entries| < |plan.batches| ==> SomeFailFast(plan)
      ensures old(Mirrored()) ==> Mirrored()
      ensures LifeShown(old(memory), old(stored), old(storedLife), entries)
    {
      errs, entries := [], [];
      ghost var m0, s0, life, before := memory, stored, storedLife, log;
      NothingTraced(plan, m0, s0);
      NothingDone(plan, s0);
      for b := 0 to |plan.batches|
        invariant |entries| == b && log == before + entries
        invariant Between(plan, m0, s0, memory, stored, entries, errs) && AllClean(plan, m0, s0, stored, entries)
        invariant old(Mirrored()) ==> Mirrored()
        invariant LifeShown(m0, s0, life, entries)
      {
        var failed, stop;
        failed, stop, entries := Advance(m0, s0, life, before, entries, b, errs);
        errs := errs + failed;
        if stop { return; }
      }
      RunCompletes(plan, m0, s0, memory, stored, entries, errs);
    }
  }

  /** Whether the components of a batch have to run is known from the start. */
  lemma ForeseenBatch(plan: Plan, m0: Option<P.Status>, s0: Option<P.Status>, m: Option<P.Status>, s: Option<P.Status>,
                      b: nat, outcomes: map<string, W.Outcome>)
    requires ValidPlan(plan) && b < |plan.batches| && Tracks(m0, s0, m, s) && Grows(plan, s0, s, outcomes)
    requires forall n :: n in outcomes ==> n in T.Placed(plan.batches, b)
    ensures Foreseen(plan, Begun(m0, s0), m0 == s0, m, plan.batches[b])
  {
    var batch := plan.batches[b];
    forall n | n in batch
      ensures Runnable(plan, m, n) ==> Runnable(plan, Begun(m0, s0), n)
      ensures m0 == s0 ==> Runnable(plan, s0, n) ==> Runnable(plan, m, n)
    {
      SinceStart(plan, m0, s0, m, s, b, outcomes, n);
    }
    forall other, f | other in plan.batches && f in other && f in batch ensures other == batch {
      var i :| 0 <= i < |plan.batches| && plan.batches[i] == other;
      assert T.InBatch(plan.batches, i, f) && T.InBatch(plan.batches, b, f);
    }
  }
}
