/**
 The worker pool that executeBatchParallel starts for the runnable components
 of one batch (pkg/dagexec/scheduler.go:189-224), as interleaved steps.

 A worker waits for the semaphore, runs, and is done; when the batch context is
 cancelled a worker that still waits may give up instead.  The semaphore is
 released before the error group cancels the context, and a Go select with both
 cases ready takes either, so a waiting worker may also start after a failure.
 */
module WorkerPool {
  datatype Outcome = Succeeded | NotInstalled | RealError

  datatype Worker = Waiting | Running | Done(outcome: Outcome) | Dropped

  datatype Pool = Pool(workers: seq<Worker>, cancelled: bool)

  datatype Step = Start(i: nat) | Finish(i: nat, outcome: Outcome) | Cancel | Drop(i: nat)

  const DEFAULT_MAX_PARALLEL := 8

  /** The semaphore's size: the configured limit, 8 when unset, and never more than the items. */
  function MaxParallel(configured: int, items: nat): (limit: nat)
    ensures 1 <= limit
    ensures items > 0 ==> limit <= items
    ensures configured > 0 ==> limit <= configured
    ensures items > 0 ==> limit == items || limit == if configured > 0 then configured else 8
  {
    if items == 0 then 1
    else
      var limit := if configured <= 0 then DEFAULT_MAX_PARALLEL else configured;
      if limit > items then items else limit
  }

  function Initial(n: nat): Pool {
    Pool(seq(n, _ => Waiting), false)
  }

  function Active(p: Pool): set<nat> {
    set i: nat | i < |p.workers| && p.workers[i].Running?
  }

  function Queued(p: Pool): set<nat> {
    set i: nat | i < |p.workers| && p.workers[i].Waiting?
  }

  predicate Settled(p: Pool) {
    forall i :: 0 <= i < |p.workers| ==> p.workers[i].Done? || p.workers[i].Dropped?
  }

  /** Component i is FailFast and returned an error other than "not installed". */
  predicate Fatal(p: Pool, failFast: seq<bool>, i: nat)
  {
    i < |p.workers| && i < |failFast| && p.workers[i] == Done(RealError) && failFast[i]
  }

  predicate Enabled(p: Pool, limit: nat, failFast: seq<bool>, step: Step) {
    match step
    case Start(i) => i < |p.workers| && p.workers[i].Waiting? && |Active(p)| < limit
    case Finish(i, _) => i < |p.workers| && p.workers[i].Running?
    case Cancel => !p.cancelled && exists i: nat :: i < |p.workers| && Fatal(p, failFast, i)
    case Drop(i) => i < |p.workers| && p.workers[i].Waiting? && p.cancelled
  }

  function Next(p: Pool, step: Step): Pool
    requires !step.Cancel? ==> step.i < |p.workers|
  {
    match step
    case Start(i) => p.(workers := p.workers[i := Running])
    case Finish(i, outcome) => p.(workers := p.workers[i := Done(outcome)])
    case Cancel => p.(cancelled := true)
    case Drop(i) => p.(workers := p.workers[i := Dropped])
  }

  ghost predicate Successor(p: Pool, q: Pool, limit: nat, failFast: seq<bool>) {
    exists step :: Enabled(p, limit, failFast, step) && q == Next(p, step)
  }

  /** One interleaving, from the start of the batch. */
  ghost predicate Behaviour(ps: seq<Pool>, limit: nat, failFast: seq<bool>) {
    && |ps| > 0
    && ps[0] == Initial(|failFast|)
    && forall k :: 0 <= k < |ps| - 1 ==> Successor(ps[k], ps[k + 1], limit, failFast)
  }

  ghost predicate Inv(p: Pool, limit: nat, failFast: seq<bool>) {
    && |p.workers| == |failFast|
    && |Active(p)| <= limit
    && (p.cancelled ==> exists i: nat :: i < |p.workers| && Fatal(p, failFast, i))
    && ((exists i :: 0 <= i < |p.workers| && p.workers[i].Dropped?) ==> p.cancelled)
  }

  /** Strictly decreases with every step, so a batch cannot run for ever. */
  function Measure(p: Pool): nat {
    2 * |Queued(p)| + |Active(p)| + (if p.cancelled then 0 else 1)
  }

  lemma InitialInv(n: nat, limit: nat, failFast: seq<bool>)
    requires n == |failFast|
    ensures Inv(Initial(n), limit, failFast)
    ensures Measure(Initial(n)) == 2 * n + 1
  {
    assert Active(Initial(n)) == {};
    InitialQueue(n);
  }

  lemma {:induction false} InitialQueue(n: nat)
    ensures |Queued(Initial(n))| == n
  {
    if n == 0 {
      assert Queued(Initial(0)) == {};
    } else {
      InitialQueue(n - 1);
      assert Queued(Initial(n)) == Queued(Initial(n - 1)) + {n - 1};
    }
  }

  lemma UpdateSets(p: Pool, i: nat, w: Worker)
    requires i < |p.workers|
    ensures var q := p.(workers := p.workers[i := w]);
            && Active(q) == (if w.Running? then Active(p) + {i} else Active(p) - {i})
            && Queued(q) == (if w.Waiting? then Queued(p) + {i} else Queued(p) - {i})
  {
  }

  /** How one step moves workers between the queue and the semaphore. */
  lemma StepMoves(p: Pool, step: Step, limit: nat, failFast: seq<bool>)
    requires |Active(p)| <= limit && Enabled(p, limit, failFast, step)
    ensures |Active(Next(p, step))| <= limit
    ensures Measure(Next(p, step)) < Measure(p)
  {
    match step {
      case Start(i) =>
        UpdateSets(p, i, Running);
        assert i in Queued(p) && i !in Active(p);
      case Finish(i, o) =>
        UpdateSets(p, i, Done(o));
        assert i in Active(p) && i !in Queued(p);
      case Cancel =>
        var q := Next(p, step);
        assert Active(q) == Active(p) && Queued(q) == Queued(p);
      case Drop(i) =>
        UpdateSets(p, i, Dropped);
        assert i in Queued(p) && i !in Active(p);
    }
  }

  /** A finished component stays finished. */
  lemma FatalStays(p: Pool, step: Step, limit: nat, failFast: seq<bool>, k: nat)
    requires Enabled(p, limit, failFast, step) && Fatal(p, failFast, k)
    ensures Fatal(Next(p, step), failFast, k)
  {
  }

  lemma StepInv(p: Pool, step: Step, limit: nat, failFast: seq<bool>)
    requires Inv(p, limit, failFast) && Enabled(p, limit, failFast, step)
    ensures Inv(Next(p, step), limit, failFast)
    ensures Measure(Next(p, step)) < Measure(p)
  {
    StepMoves(p, step, limit, failFast);
    if Next(p, step).cancelled {
      var k: nat :| k < |p.workers| && Fatal(p, failFast, k);
      FatalStays(p, step, limit, failFast, k);
    }
    if !p.cancelled {
      assert forall i :: 0 <= i < |p.workers| ==> !p.workers[i].Dropped?;
    }
  }

  /** No deadlock: until every worker has settled, some worker can move. */
  lemma CanStep(p: Pool, limit: nat, failFast: seq<bool>)
    requires Inv(p, limit, failFast) && limit >= 1 && !Settled(p)
    ensures exists step :: Enabled(p, limit, failFast, step)
  {
    if i: nat :| i in Active(p) {
      assert Enabled(p, limit, failFast, Finish(i, Succeeded));
    } else {
      assert Active(p) == {};
      var i: nat :| i < |p.workers| && !p.workers[i].Done? && !p.workers[i].Dropped?;
      assert p.workers[i].Running? ==> i in Active(p);
      assert Enabled(p, limit, failFast, Start(i));
    }
  }

  /** A step extends an interleaving. */
  lemma BehaviourExtends(ps: seq<Pool>, step: Step, limit: nat, failFast: seq<bool>)
    requires Behaviour(ps, limit, failFast) && Enabled(ps[|ps| - 1], limit, failFast, step)
    ensures Behaviour(ps + [Next(ps[|ps| - 1], step)], limit, failFast)
  {
    var qs := ps + [Next(ps[|ps| - 1], step)];
    forall k | 0 <= k < |qs| - 1 ensures Successor(qs[k], qs[k + 1], limit, failFast) {
      assert k < |ps| - 1 ==> Successor(ps[k], ps[k + 1], limit, failFast);
    }
  }

  /** Below the limit every waiting worker may start, and a waiting worker may give up only after
      a FailFast failure was noticed. */
  lemma MayStart(p: Pool, limit: nat, failFast: seq<bool>, i: nat)
    requires i < |p.workers| && p.workers[i] == Waiting
    ensures Enabled(p, limit, failFast, Start(i)) <==> |Active(p)| < limit
    ensures Enabled(p, limit, failFast, Drop(i)) <==> p.cancelled
    ensures |Active(p)| < limit ==> Next(p, Start(i)) == p.(workers := p.workers[i := Running])
  {
  }

  lemma {:induction false} BehaviourInv(ps: seq<Pool>, limit: nat, failFast: seq<bool>)
    requires Behaviour(ps, limit, failFast)
    ensures Inv(ps[|ps| - 1], limit, failFast)
    ensures Measure(ps[|ps| - 1]) + |ps| <= 2 * |failFast| + 2
  {
    var last := |ps| - 1;
    if last == 0 {
      InitialInv(|failFast|, limit, failFast);
    } else {
      BehaviourInv(ps[..last], limit, failFast);
      var p := ps[last - 1];
      assert Successor(p, ps[last], limit, failFast);
      var step :| Enabled(p, limit, failFast, step) && ps[last] == Next(p, step);
      StepInv(p, step, limit, failFast);
    }
  }

  /**
   In every reachable state of a batch at most `limit` components run, some worker
   can always move until all have settled, the batch is over after at most 2n+1
   steps, and workers that never started are explained by a FailFast failure.
   */
  lemma BatchSafety(ps: seq<Pool>, configured: int, failFast: seq<bool>)
    requires |failFast| > 0
    requires Behaviour(ps, MaxParallel(configured, |failFast|), failFast)
    ensures var p := ps[|ps| - 1];
            && |Active(p)| <= MaxParallel(configured, |failFast|)
            && |ps| <= 2 * |failFast| + 2
            && (Settled(p) || exists step :: Enabled(p, MaxParallel(configured, |failFast|), failFast, step))
            && ((exists i :: 0 <= i < |p.workers| && p.workers[i].Dropped?) ==>
                exists i: nat :: i < |p.workers| && Fatal(p, failFast, i))
  {
    var limit := MaxParallel(configured, |failFast|);
    BehaviourInv(ps, limit, failFast);
    if !Settled(ps[|ps| - 1]) {
      CanStep(ps[|ps| - 1], limit, failFast);
    }
  }
}
