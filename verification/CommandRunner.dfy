/**
 The node agent's command runner (controllers/bkeagent/command_controller.go:434-606,
 api/bkeagent/v1beta1/condition.go): commands run in order, each with retries until a
 deadline, and a restarted task resumes from the recorded conditions.

 The clock never goes back; commands, stop signals and status updates succeed, arrive or
 fail arbitrarily.
 */
module CommandRunner {
  import opened Wrappers

  datatype Phase = Running | Complete | Failed | Skip | UnknownPhase

  datatype Verdict = Unknown | True | False

  datatype Condition = Condition(id: string, status: Verdict, phase: Phase, count: nat)

  datatype Command = Command(id: string, backoffIgnore: bool)

  const DEFAULT_DEADLINE := 600

  // Conditions ----------------------------------------------------------------------

  function GetCondition(conds: seq<Condition>, id: string): Option<Condition> {
    if conds == [] then None
    else if conds[0].id == id then Some(conds[0])
    else GetCondition(conds[1..], id)
  }

  function Replaced(conds: seq<Condition>, c: Condition): seq<Condition> {
    if conds == [] then []
    else [if conds[0].id == c.id then c else conds[0]] + Replaced(conds[1..], c)
  }

  /** Replaces every condition of that ID in place, or appends the new one. */
  function ReplaceCondition(conds: seq<Condition>, c: Condition): seq<Condition> {
    if GetCondition(conds, c.id).None? then conds + [c] else Replaced(conds, c)
  }

  lemma {:induction false} GetAppended(conds: seq<Condition>, c: Condition, id: string)
    ensures GetCondition(conds + [c], id) ==
              if GetCondition(conds, id).Some? then GetCondition(conds, id) else if c.id == id then Some(c) else None
  {
    if conds != [] {
      GetAppended(conds[1..], c, id);
      assert (conds + [c])[1..] == conds[1..] + [c];
    }
  }

  lemma {:induction false} GetInReplaced(conds: seq<Condition>, c: Condition, id: string)
    ensures GetCondition(Replaced(conds, c), id) ==
              if id == c.id && GetCondition(conds, id).Some? then Some(c) else GetCondition(conds, id)
  {
    if conds != [] {
      GetInReplaced(conds[1..], c, id);
      assert Replaced(conds, c)[1..] == Replaced(conds[1..], c);
    }
  }

  /** Replacing a condition is a map update. */
  lemma GetReplaced(conds: seq<Condition>, c: Condition, id: string)
    ensures GetCondition(ReplaceCondition(conds, c), id) == if id == c.id then Some(c) else GetCondition(conds, id)
  {
    if GetCondition(conds, c.id).None? { GetAppended(conds, c, id); } else { GetInReplaced(conds, c, id); }
  }

  predicate IsComplete(conds: seq<Condition>, id: string) {
    GetCondition(conds, id).Some? && GetCondition(conds, id).value.phase.Complete?
  }

  /** The command needs no further attention: it completed, or failed and may be ignored. */
  predicate IsDone(conds: seq<Condition>, id: string) {
    && GetCondition(conds, id).Some?
    && (GetCondition(conds, id).value.phase.Complete? || GetCondition(conds, id).value.phase.Skip?)
  }

  // One task -------------------------------------------------------------------------

  predicate DistinctIds(cmds: seq<Command>) {
    forall i, j :: 0 <= i < j < |cmds| ==> cmds[i].id != cmds[j].id
  }

  /** The IDs not yet complete, in order. */
  function Pending(cmds: seq<Command>, conds: seq<Condition>): seq<string> {
    if cmds == [] then []
    else
      var rest := Pending(cmds[..|cmds| - 1], conds);
      var last := cmds[|cmds| - 1].id;
      if IsComplete(conds, last) then rest else rest + [last]
  }

  function Runs(runs: map<string, nat>, id: string): nat {
    if id in runs then runs[id] else 0
  }

  /** The final condition of a processed command says how often it ran and how it ended. */
  predicate Accounts(c: Condition, runs: nat, limit: int) {
    && c.count == runs
    && (limit < 0 ==> runs == 0)
    && (limit >= 0 ==> runs <= limit + 1)
    && (c.phase.Running? <==> runs == 0)
    && (c.phase.Complete? <==> c.status.True?)
    && (c.phase.Failed? || c.phase.Skip? <==> c.status.False?)
    && !c.phase.UnknownPhase?
  }

  ghost predicate Accounted(conds: seq<Condition>, id: string, runs: map<string, nat>, limit: int) {
    GetCondition(conds, id).Some? && Accounts(GetCondition(conds, id).value, Runs(runs, id), limit)
  }

  /** Commands that were not processed did not run and kept their condition. */
  ghost predicate Untouched(conds: seq<Condition>, conds': seq<Condition>, runs: map<string, nat>, id: string) {
    Runs(runs, id) == 0 && GetCondition(conds', id) == GetCondition(conds, id)
  }

  /** What one run of a task does to the conditions; `done` are the IDs it processed. */
  ghost predicate TaskRun(cmds: seq<Command>, conds: seq<Condition>, conds': seq<Condition>,
                          done: seq<string>, runs: map<string, nat>, limit: int) {
    && done <= Pending(cmds, conds)
    && (forall id :: id in done ==> Accounted(conds', id, runs, limit))
    && (forall id :: id !in done ==> Untouched(conds, conds', runs, id))
    && (limit >= 0 ==> AllDone(conds', if done == [] then [] else done[..|done| - 1]))
    && Ids(conds') == Ids(conds) + Without(done, Ids(conds))
  }

  ghost predicate AllDone(conds: seq<Condition>, ids: seq<string>) {
    forall k :: 0 <= k < |ids| ==> IsDone(conds, ids[k])
  }

  lemma PendingStep(cmds: seq<Command>, i: nat, conds: seq<Condition>)
    requires i < |cmds|
    ensures Pending(cmds[..i + 1], conds) ==
              if IsComplete(conds, cmds[i].id) then Pending(cmds[..i], conds)
              else Pending(cmds[..i], conds) + [cmds[i].id]
  {
    assert cmds[..i + 1][..i] == cmds[..i];
  }

  lemma {:induction false} PendingMembers(cmds: seq<Command>, conds: seq<Condition>)
    ensures forall id :: id in Pending(cmds, conds) ==> !IsComplete(conds, id) && exists c :: c in cmds && c.id == id
  {
    if cmds != [] { PendingMembers(cmds[..|cmds| - 1], conds); }
  }

  lemma {:induction false} PendingPrefix(cmds: seq<Command>, i: nat, conds: seq<Condition>)
    requires i <= |cmds|
    ensures Pending(cmds[..i], conds) <= Pending(cmds, conds)
    decreases |cmds| - i
  {
    if i < |cmds| {
      PendingStep(cmds, i, conds);
      PendingPrefix(cmds, i + 1, conds);
    } else {
      assert cmds[..i] == cmds;
    }
  }

  /** The ID of the next command is new among those before it. */
  lemma NextIsNew(cmds: seq<Command>, i: nat, conds: seq<Condition>)
    requires DistinctIds(cmds) && i < |cmds|
    ensures cmds[i].id !in Pending(cmds[..i], conds)
  {
    PendingMembers(cmds[..i], conds);
  }

  /** A completed command is not processed. */
  lemma CompleteIsUntouched(cmds: seq<Command>, conds: seq<Condition>, conds': seq<Condition>,
                            done: seq<string>, runs: map<string, nat>, limit: int, id: string)
    requires TaskRun(cmds, conds, conds', done, runs, limit) && IsComplete(conds, id)
    ensures id !in done && Runs(runs, id) == 0 && IsComplete(conds', id)
  {
    PendingMembers(cmds, conds);
    assert id !in done;
    assert Untouched(conds, conds', runs, id);
  }

  /**
   Once a command ends Failed, no later command runs: it is the last one that
   was processed, even when the deadline kept the failure from stopping the loop itself.
   */
  lemma FailedIsLast(cmds: seq<Command>, conds: seq<Condition>, conds': seq<Condition>,
                     done: seq<string>, runs: map<string, nat>, limit: int, k: nat)
    requires TaskRun(cmds, conds, conds', done, runs, limit) && limit >= 0 && k < |done|
    requires GetCondition(conds', done[k]).Some? && GetCondition(conds', done[k]).value.phase.Failed?
    ensures k == |done| - 1
    ensures forall id :: Runs(runs, id) > 0 ==> id in done
  {
    assert k < |done| - 1 ==> IsDone(conds', done[..|done| - 1][k]);
    forall id | Runs(runs, id) > 0 ensures id in done {
      assert id !in done ==> Untouched(conds, conds', runs, id);
    }
  }

  /** With a negative limit nothing ever runs. */
  lemma NegativeLimitRunsNothing(cmds: seq<Command>, conds: seq<Condition>, conds': seq<Condition>,
                                 done: seq<string>, runs: map<string, nat>, limit: int, id: string)
    requires TaskRun(cmds, conds, conds', done, runs, limit) && limit < 0
    ensures Runs(runs, id) == 0
  {
    if id in done { assert Accounted(conds', id, runs, limit); } else { assert Untouched(conds, conds', runs, id); }
  }

  // Runs as events, for any list of commands ------------------------------------------

  /** The conditions after these commands were processed, each ending in its event. */
  function Applied(conds: seq<Condition>, events: seq<Condition>): seq<Condition> {
    if events == [] then conds
    else ReplaceCondition(Applied(conds, events[..|events| - 1]), events[|events| - 1])
  }

  /** How often a command ran in all. */
  function Total(events: seq<Condition>, id: string): nat {
    if events == [] then 0
    else
      var last := events[|events| - 1];
      Total(events[..|events| - 1], id) + if last.id == id then last.count else 0
  }

  /** One run of a command, and whether it went well. */
  datatype Attempt = Attempt(id: string, ok: bool)

  /** The attempts behind a final condition: all failed, except the last one of a command that is
      complete. */
  function Tries(c: Condition): seq<Attempt> {
    seq(c.count, i => Attempt(c.id, c.phase.Complete? && i == c.count - 1))
  }

  /** What ran, in the order of time, and how: the attempts of each event, one after the other. */
  function Attempts(events: seq<Condition>): seq<Attempt> {
    if events == [] then []
    else Attempts(events[..|events| - 1]) + Tries(events[|events| - 1])
  }

  lemma AttemptsStep(events: seq<Condition>, c: Condition)
    ensures Attempts(events + [c]) == Attempts(events) + Tries(c)
  {
    assert (events + [c])[..|events|] == events;
  }

  /** Going through the commands in order, each was complete at its turn and passed over, or
      was not complete and is the next event. */
  ghost predicate Picked(cmds: seq<Command>, conds: seq<Condition>, events: seq<Condition>) {
    if cmds == [] then events == []
    else
      var rest, id := cmds[..|cmds| - 1], cmds[|cmds| - 1].id;
      || (Picked(rest, conds, events) && IsComplete(Applied(conds, events), id))
      || (&& events != [] && events[|events| - 1].id == id
          && Picked(rest, conds, events[..|events| - 1]) && !IsComplete(Applied(conds, events[..|events| - 1]), id)
          && Ignored(cmds[|cmds| - 1], events[|events| - 1]))
  }

  /** A command that failed is skipped exactly when its failure may be ignored. */
  predicate Ignored(cmd: Command, c: Condition) {
    c.status.False? ==> c.phase == if cmd.backoffIgnore then Skip else Failed
  }

  predicate Finished(c: Condition) {
    c.phase.Complete? || c.phase.Skip?
  }

  /** A run through these commands: what was processed, how it ended, and how often it ran. */
  ghost predicate EventRun(cmds: seq<Command>, conds: seq<Condition>, conds': seq<Condition>,
                           events: seq<Condition>, runs: map<string, nat>, limit: int) {
    && Picked(cmds, conds, events) && conds' == Applied(conds, events)
    && (forall k :: 0 <= k < |events| ==> Accounts(events[k], events[k].count, limit))
    && (limit >= 0 ==> forall k :: 0 <= k < |events| - 1 ==> Finished(events[k]))
    && (forall id :: Runs(runs, id) == Total(events, id))
  }

  ghost predicate LastFinished(events: seq<Condition>) {
    events == [] || Finished(events[|events| - 1])
  }

  lemma EventSkip(cmds: seq<Command>, i: nat, conds: seq<Condition>, conds': seq<Condition>,
                  events: seq<Condition>, runs: map<string, nat>, limit: int)
    requires i < |cmds| && EventRun(cmds[..i], conds, conds', events, runs, limit) && IsComplete(conds', cmds[i].id)
    ensures EventRun(cmds[..i + 1], conds, conds', events, runs, limit)
  {
    assert cmds[..i + 1][..i] == cmds[..i];
  }

  lemma EventNext(cmds: seq<Command>, i: nat, conds: seq<Condition>, conds': seq<Condition>, conds2: seq<Condition>,
                  events: seq<Condition>, runs: map<string, nat>, runs': map<string, nat>, limit: int, c: Condition)
    requires i < |cmds| && EventRun(cmds[..i], conds, conds', events, runs, limit) && !IsComplete(conds', cmds[i].id)
    requires c.id == cmds[i].id && Processed(conds', conds2, runs, runs', c, limit) && Ignored(cmds[i], c)
    requires limit >= 0 ==> LastFinished(events)
    ensures EventRun(cmds[..i + 1], conds, conds2, events + [c], runs', limit)
  {
    var events' := events + [c];
    assert cmds[..i + 1][..i] == cmds[..i] && events'[..|events|] == events;
  }

  /** The recorded end of a command is what its attempts were: complete exactly when the last one
      went well, and all before it failed. */
  lemma EndIsOutcome(c: Condition, limit: int)
    requires Accounts(c, c.count, limit)
    ensures |Tries(c)| == c.count && (c.phase.Running? <==> Tries(c) == [])
    ensures c.phase.Complete? <==> Tries(c) != [] && Tries(c)[c.count - 1].ok
    ensures c.phase.Failed? || c.phase.Skip? <==> Tries(c) != [] && !Tries(c)[c.count - 1].ok
    ensures forall i :: 0 <= i < c.count - 1 ==> !Tries(c)[i].ok
    ensures forall i :: 0 <= i < c.count ==> Tries(c)[i].id == c.id
  {
  }

  /** Whatever the IDs are: a command that ends Failed is the last one that is processed. */
  lemma FailureEndsRun(cmds: seq<Command>, conds: seq<Condition>, conds': seq<Condition>,
                       events: seq<Condition>, runs: map<string, nat>, limit: int, k: nat)
    requires EventRun(cmds, conds, conds', events, runs, limit) && limit >= 0
    requires k < |events| && events[k].phase.Failed?
    ensures k == |events| - 1
  {
  }

  /** A command that is complete stays so and does not run. */
  lemma {:induction false} PickedRespects(cmds: seq<Command>, conds: seq<Condition>, events: seq<Condition>, id: string)
    requires Picked(cmds, conds, events) && IsComplete(conds, id)
    ensures IsComplete(Applied(conds, events), id) && Total(events, id) == 0
  {
    if cmds != [] {
      var rest := cmds[..|cmds| - 1];
      if Picked(rest, conds, events) {
        PickedRespects(rest, conds, events, id);
      } else {
        var before := events[..|events| - 1];
        PickedRespects(rest, conds, before, id);
        GetReplaced(Applied(conds, before), events[|events| - 1], id);
      }
    }
  }

  // Restarts -----------------------------------------------------------------------

  /** Completions are kept. */
  ghost predicate Keeps(conds: seq<Condition>, conds': seq<Condition>) {
    forall id :: IsComplete(conds, id) ==> IsComplete(conds', id)
  }

  lemma EventsKeep(cmds: seq<Command>, conds: seq<Condition>, conds': seq<Condition>,
                   events: seq<Condition>, runs: map<string, nat>, limit: int)
    requires EventRun(cmds, conds, conds', events, runs, limit)
    ensures Keeps(conds, conds')
  {
    forall id | IsComplete(conds, id) ensures IsComplete(conds', id) {
      PickedRespects(cmds, conds, events, id);
    }
  }

  /** One run of a task, from the conditions it found in the store to those it left there. */
  datatype Restart = Restart(cmds: seq<Command>, found: seq<Condition>, last: seq<Condition>, left: seq<Condition>,
                             events: seq<Condition>, runs: map<string, nat>, limit: int)

  ghost predicate IsRestart(r: Restart) {
    EventRun(r.cmds, r.found, r.last, r.events, r.runs, r.limit) && Keeps(r.found, r.left)
  }

  ghost predicate Restarts(rs: seq<Restart>) {
    && (forall i :: 0 <= i < |rs| ==> IsRestart(rs[i]))
    && forall i :: 0 < i < |rs| ==> rs[i].found == rs[i - 1].left
  }

  /** Across restarts, a command recorded as complete is never executed again. */
  lemma {:induction false} CompleteForGood(rs: seq<Restart>, i: nat, j: nat, id: string)
    requires Restarts(rs) && i <= j < |rs| && IsComplete(rs[i].found, id)
    ensures IsComplete(rs[j].found, id) && Runs(rs[j].runs, id) == 0
    decreases j
  {
    if i < j {
      CompleteForGood(rs, i, j - 1, id);
      assert IsRestart(rs[j - 1]);
    }
    assert IsRestart(rs[j]);
    PickedRespects(rs[j].cmds, rs[j].found, rs[j].events, id);
  }

  // The verdict ---------------------------------------------------------------------

  function Ids(conds: seq<Condition>): seq<string> {
    seq(|conds|, i requires 0 <= i < |conds| => conds[i].id)
  }

  function CommandIds(cmds: seq<Command>): seq<string> {
    seq(|cmds|, i requires 0 <= i < |cmds| => cmds[i].id)
  }

  /** The IDs that are not known yet, in order. */
  function Without(ids: seq<string>, known: seq<string>): seq<string> {
    if ids == [] then []
    else
      var rest, last := Without(ids[..|ids| - 1], known), ids[|ids| - 1];
      if last in known then rest else rest + [last]
  }

  lemma WithoutStep(ids: seq<string>, id: string, known: seq<string>)
    ensures Without(ids + [id], known) == if id in known then Without(ids, known) else Without(ids, known) + [id]
  {
    assert (ids + [id])[..|ids|] == ids;
  }

  lemma {:induction false} WithoutNothing(ids: seq<string>)
    ensures Without(ids, []) == ids
  {
    if ids != [] {
      WithoutNothing(ids[..|ids| - 1]);
      assert ids == ids[..|ids| - 1] + [ids[|ids| - 1]];
    }
  }

  lemma {:induction false} WithoutPrefix(ids: seq<string>, k: nat, known: seq<string>)
    requires k <= |ids|
    ensures Without(ids[..k], known) <= Without(ids, known)
  {
    if k < |ids| {
      WithoutPrefix(ids[..|ids| - 1], k, known);
      assert ids[..|ids| - 1][..k] == ids[..k];
    } else {
      assert ids[..k] == ids;
    }
  }

  /** The overall phase, read off the number of conditions and the last of them. */
  function TaskPhase(conds: seq<Condition>, commands: nat): Phase {
    if conds == [] then Running
    else
      var latest := conds[|conds| - 1].phase;
      if latest.Failed? then Failed
      else if |conds| < commands && (latest.Running? || latest.Skip? || latest.Complete?) then Running
      else if |conds| == commands && latest.Running? then Running
      else if |conds| == commands && (latest.Skip? || latest.Complete?) then Complete
      else UnknownPhase
  }

  lemma {:induction false} GetById(conds: seq<Condition>, id: string)
    ensures GetCondition(conds, id).None? <==> id !in Ids(conds)
    ensures GetCondition(conds, id).Some? ==>
              GetCondition(conds, id).value in conds && GetCondition(conds, id).value.id == id
  {
    if conds != [] {
      GetById(conds[1..], id);
      assert Ids(conds) == [conds[0].id] + Ids(conds[1..]);
    }
  }

  lemma {:induction false} ReplacedIds(conds: seq<Condition>, c: Condition)
    ensures Ids(Replaced(conds, c)) == Ids(conds)
  {
    if conds != [] {
      ReplacedIds(conds[1..], c);
      assert Ids(conds) == [conds[0].id] + Ids(conds[1..]);
      assert Replaced(conds, c)[1..] == Replaced(conds[1..], c);
      assert Ids(Replaced(conds, c)) == [conds[0].id] + Ids(Replaced(conds[1..], c));
    }
  }

  /** A condition with a new ID goes to the end. */
  lemma NewIdLast(conds: seq<Condition>, c: Condition)
    ensures Ids(ReplaceCondition(conds, c)) == Ids(conds) + if c.id in Ids(conds) then [] else [c.id]
  {
    GetById(conds, c.id);
    ReplacedIds(conds, c);
  }

  lemma {:induction false} PendingFresh(cmds: seq<Command>)
    ensures Pending(cmds, []) == CommandIds(cmds)
  {
    if cmds != [] {
      PendingFresh(cmds[..|cmds| - 1]);
      assert CommandIds(cmds) == CommandIds(cmds[..|cmds| - 1]) + [cmds[|cmds| - 1].id];
    }
  }

  lemma GetNth(conds: seq<Condition>, k: nat)
    requires k < |conds| && forall i, j :: 0 <= i < j < |conds| ==> Ids(conds)[i] != Ids(conds)[j]
    ensures GetCondition(conds, Ids(conds)[k]) == Some(conds[k])
  {
    GetById(conds, Ids(conds)[k]);
    var c := GetCondition(conds, Ids(conds)[k]).value;
    var i :| 0 <= i < |conds| && conds[i] == c;
    assert Ids(conds)[i] == Ids(conds)[k];
  }

  /**
   For a task run from scratch the last condition tells the whole story: the verdict is
   Complete exactly when every command is done, and Failed exactly when one failed.
   */
  lemma VerdictIsRight(cmds: seq<Command>, conds: seq<Condition>, done: seq<string>, runs: map<string, nat>, limit: int)
    requires DistinctIds(cmds) && cmds != [] && limit >= 0
    requires TaskRun(cmds, [], conds, done, runs, limit)
    ensures TaskPhase(conds, |cmds|).Complete? <==> forall c :: c in cmds ==> IsDone(conds, c.id)
    ensures TaskPhase(conds, |cmds|).Failed? <==> exists c :: c in conds && c.phase.Failed?
    ensures !TaskPhase(conds, |cmds|).UnknownPhase?
  {
    FreshEntries(cmds, conds, done, runs, limit);
    var n := |conds|;
    if n > 0 { assert InPlace(cmds, conds, n - 1); }
    if n < |cmds| {
      assert !IsDone(conds, cmds[n].id);
    } else {
      forall c | c in cmds ensures !TaskPhase(conds, |cmds|).Complete? || IsDone(conds, c.id) {
        var k :| 0 <= k < |cmds| && cmds[k] == c;
        assert InPlace(cmds, conds, k);
      }
      assert IsDone(conds, cmds[n - 1].id) ==> TaskPhase(conds, |cmds|).Complete?;
    }
    forall c | c in conds && c.phase.Failed? ensures TaskPhase(conds, |cmds|).Failed? {
      var k :| 0 <= k < n && conds[k] == c;
      assert InPlace(cmds, conds, k);
    }
  }

  // The verdict on a resumed run -----------------------------------------------------

  function LastId(cmds: seq<Command>): string
    requires cmds != []
  {
    cmds[|cmds| - 1].id
  }

  /** Called Complete exactly when every command is done. */
  ghost predicate RightVerdict(cmds: seq<Command>, conds: seq<Condition>) {
    TaskPhase(conds, |cmds|).Complete? <==> forall c :: c in cmds ==> IsDone(conds, c.id)
  }

  ghost predicate AlwaysRight(cmds: seq<Command>, conds: seq<Condition>, limit: int) {
    forall conds', done, runs :: TaskRun(cmds, conds, conds', done, runs, limit) ==> RightVerdict(cmds, conds')
  }

  /** The recorded conditions are those of the first commands, in order. */
  predicate InOrder(cmds: seq<Command>, conds: seq<Condition>) {
    |conds| <= |cmds| && Ids(conds) == CommandIds(cmds)[..|conds|]
  }

  /** Before the run: the last command is still to be done, or it is the only one that can run. */
  ghost predicate Resumable(cmds: seq<Command>, conds: seq<Condition>)
    requires cmds != []
  {
    !IsDone(conds, LastId(cmds)) || forall id :: id in Pending(cmds, conds) ==> id == LastId(cmds)
  }

  lemma {:induction false} PendingHas(cmds: seq<Command>, conds: seq<Condition>, i: nat)
    requires i < |cmds| && !IsComplete(conds, cmds[i].id)
    ensures cmds[i].id in Pending(cmds, conds)
  {
    if i < |cmds| - 1 { PendingHas(cmds[..|cmds| - 1], conds, i); }
  }

  lemma IdKnown(cmds: seq<Command>, conds: seq<Condition>, i: nat)
    requires DistinctIds(cmds) && InOrder(cmds, conds) && i < |cmds|
    ensures cmds[i].id in Ids(conds) <==> i < |conds|
    ensures i >= |conds| ==> GetCondition(conds, cmds[i].id).None?
  {
    GetById(conds, cmds[i].id);
    assert forall k :: 0 <= k < |conds| ==> Ids(conds)[k] == CommandIds(cmds)[k] == cmds[k].id;
  }

  lemma {:induction false} KnownPending(cmds: seq<Command>, conds: seq<Condition>, i: nat)
    requires DistinctIds(cmds) && InOrder(cmds, conds) && i <= |conds|
    ensures Without(Pending(cmds[..i], conds), Ids(conds)) == []
  {
    if i > 0 {
      KnownPending(cmds, conds, i - 1);
      PendingStep(cmds, i - 1, conds);
      IdKnown(cmds, conds, i - 1);
      WithoutStep(Pending(cmds[..i - 1], conds), cmds[i - 1].id, Ids(conds));
    }
  }

  /** The pending commands without a condition are those after the recorded ones. */
  lemma {:induction false} NewPending(cmds: seq<Command>, conds: seq<Condition>, i: nat)
    requires DistinctIds(cmds) && InOrder(cmds, conds) && |conds| <= i <= |cmds|
    ensures Without(Pending(cmds[..i], conds), Ids(conds)) == CommandIds(cmds)[|conds|..i]
  {
    if i == |conds| {
      KnownPending(cmds, conds, i);
    } else {
      NewPending(cmds, conds, i - 1);
      PendingStep(cmds, i - 1, conds);
      IdKnown(cmds, conds, i - 1);
      WithoutStep(Pending(cmds[..i - 1], conds), cmds[i - 1].id, Ids(conds));
      IdsStep(cmds, |conds|, i - 1);
    }
  }

  lemma IdsStep(cmds: seq<Command>, m: nat, i: nat)
    requires m <= i < |cmds|
    ensures CommandIds(cmds)[m..i + 1] == CommandIds(cmds)[m..i] + [cmds[i].id]
  {
  }

  /** The pending commands are those before the last one, and the last one if it is pending. */
  lemma PendingSplit(cmds: seq<Command>, conds: seq<Condition>)
    requires DistinctIds(cmds) && cmds != []
    ensures var rest := Pending(cmds[..|cmds| - 1], conds);
            && Pending(cmds, conds) == rest + (if IsComplete(conds, LastId(cmds)) then [] else [LastId(cmds)])
            && LastId(cmds) !in rest
  {
    NextIsNew(cmds, |cmds| - 1, conds);
  }

  /** With a condition for each command the last one decides. */
  lemma LastDecides(cmds: seq<Command>, conds: seq<Condition>)
    requires DistinctIds(cmds) && cmds != [] && Ids(conds) == CommandIds(cmds)
    ensures TaskPhase(conds, |cmds|).Complete? <==> IsDone(conds, LastId(cmds))
  {
    assert forall i :: 0 <= i < |cmds| ==> Ids(conds)[i] == CommandIds(cmds)[i] == cmds[i].id;
    GetNth(conds, |cmds| - 1);
  }

  /** When the last command was processed, all pending ones were. */
  lemma AllProcessed(cmds: seq<Command>, conds: seq<Condition>, done: seq<string>)
    requires DistinctIds(cmds) && cmds != [] && done <= Pending(cmds, conds) && LastId(cmds) in done
    ensures done == Pending(cmds, conds) == Pending(cmds[..|cmds| - 1], conds) + [LastId(cmds)]
  {
    PendingSplit(cmds, conds);
    ReachesLast(done, Pending(cmds[..|cmds| - 1], conds), LastId(cmds));
  }

  lemma ReachesLast(done: seq<string>, rest: seq<string>, last: string)
    requires done <= rest + [last] && last !in rest
    ensures if last in done then done == rest + [last] else done <= rest
  {
    if |done| <= |rest| {
      assert done == rest[..|done|];
    } else {
      assert done == rest + [last];
    }
  }

  /** When the last command was processed, all others are done. */
  lemma LastProcessed(cmds: seq<Command>, conds: seq<Condition>, conds': seq<Condition>, done: seq<string>,
                      runs: map<string, nat>, limit: int)
    requires DistinctIds(cmds) && cmds != [] && InOrder(cmds, conds) && limit >= 0
    requires TaskRun(cmds, conds, conds', done, runs, limit) && LastId(cmds) in done
    ensures Ids(conds') == CommandIds(cmds)
    ensures forall i :: 0 <= i < |cmds| - 1 ==> IsDone(conds', cmds[i].id)
  {
    var n := |cmds|;
    AllProcessed(cmds, conds, done);
    NewPending(cmds, conds, n);
    assert cmds[..n] == cmds && CommandIds(cmds)[..|conds|] + CommandIds(cmds)[|conds|..n] == CommandIds(cmds);
    forall i | 0 <= i < n - 1 ensures IsDone(conds', cmds[i].id) {
      OtherDone(cmds, conds, conds', done, runs, limit, i);
    }
  }

  lemma OtherDone(cmds: seq<Command>, conds: seq<Condition>, conds': seq<Condition>, done: seq<string>,
                  runs: map<string, nat>, limit: int, i: nat)
    requires limit >= 0 && i < |cmds| - 1 && TaskRun(cmds, conds, conds', done, runs, limit)
    requires done == Pending(cmds[..|cmds| - 1], conds) + [LastId(cmds)]
    ensures IsDone(conds', cmds[i].id)
  {
    if IsComplete(conds, cmds[i].id) {
      CompleteIsUntouched(cmds, conds, conds', done, runs, limit, cmds[i].id);
    } else {
      PendingHas(cmds[..|cmds| - 1], conds, i);
      assert done[..|done| - 1] == Pending(cmds[..|cmds| - 1], conds);
    }
  }

  lemma ShortOfLast(cmds: seq<Command>, conds: seq<Condition>, done: seq<string>)
    requires DistinctIds(cmds) && cmds != [] && InOrder(cmds, conds)
    requires done <= Pending(cmds[..|cmds| - 1], conds)
    ensures var added := Without(done, Ids(conds));
            if |conds| == |cmds| then added == [] else |conds| + |added| < |cmds|
  {
    var rest := Pending(cmds[..|cmds| - 1], conds);
    assert done == rest[..|done|];
    WithoutPrefix(rest, |done|, Ids(conds));
    if |conds| == |cmds| {
      KnownPending(cmds, conds, |cmds| - 1);
    } else {
      NewPending(cmds, conds, |cmds| - 1);
    }
  }

  /** When it was not, there is a condition for it only if there was one before. */
  lemma LastNotProcessed(cmds: seq<Command>, conds: seq<Condition>, conds': seq<Condition>, done: seq<string>,
                         runs: map<string, nat>, limit: int)
    requires DistinctIds(cmds) && cmds != [] && InOrder(cmds, conds)
    requires TaskRun(cmds, conds, conds', done, runs, limit) && LastId(cmds) !in done
    ensures if |conds| == |cmds| then Ids(conds') == CommandIds(cmds) else |conds'| < |cmds|
  {
    PendingSplit(cmds, conds);
    ReachesLast(done, Pending(cmds[..|cmds| - 1], conds), LastId(cmds));
    ShortOfLast(cmds, conds, done);
    assert |Ids(conds')| == |conds'| && CommandIds(cmds)[..|cmds|] == CommandIds(cmds);
  }

  lemma ResumableIsRight(cmds: seq<Command>, conds: seq<Condition>, conds': seq<Condition>, done: seq<string>,
                         runs: map<string, nat>, limit: int)
    requires DistinctIds(cmds) && cmds != [] && InOrder(cmds, conds) && limit >= 0 && Resumable(cmds, conds)
    requires TaskRun(cmds, conds, conds', done, runs, limit)
    ensures RightVerdict(cmds, conds')
  {
    var last := LastId(cmds);
    assert cmds[|cmds| - 1] in cmds;
    if last in done {
      LastProcessed(cmds, conds, conds', done, runs, limit);
      LastDecides(cmds, conds');
    } else {
      LastNotProcessed(cmds, conds, conds', done, runs, limit);
      assert Untouched(conds, conds', runs, last);
      if |conds| == |cmds| { LastDecides(cmds, conds'); }
      if IsDone(conds, last) {
        IdKnown(cmds, conds, |cmds| - 1);
        NothingElse(cmds, conds, conds', done, runs, limit);
      }
    }
  }

  /** With nothing but the last command pending, and that one not processed, all others stay complete. */
  lemma NothingElse(cmds: seq<Command>, conds: seq<Condition>, conds': seq<Condition>, done: seq<string>,
                    runs: map<string, nat>, limit: int)
    requires cmds != [] && TaskRun(cmds, conds, conds', done, runs, limit)
    requires forall id :: id in Pending(cmds, conds) ==> id == LastId(cmds)
    ensures forall i :: 0 <= i < |cmds| && cmds[i].id != LastId(cmds) ==> IsDone(conds', cmds[i].id)
  {
    forall i | 0 <= i < |cmds| && cmds[i].id != LastId(cmds) ensures IsDone(conds', cmds[i].id) {
      if !IsComplete(conds, cmds[i].id) { PendingHas(cmds, conds, i); }
      CompleteIsUntouched(cmds, conds, conds', done, runs, limit, cmds[i].id);
    }
  }

  /** The first pending command runs into the deadline before its first attempt. */
  lemma TimedOutRun(cmds: seq<Command>, conds: seq<Condition>, limit: int)
    returns (conds': seq<Condition>, done: seq<string>, runs: map<string, nat>)
    requires Pending(cmds, conds) != []
    ensures TaskRun(cmds, conds, conds', done, runs, limit) && done == [Pending(cmds, conds)[0]]
    ensures Updates(conds, conds', Condition(Pending(cmds, conds)[0], Unknown, Running, 0))
  {
    var first := Pending(cmds, conds)[0];
    var c := Condition(first, Unknown, Running, 0);
    conds', done, runs := ReplaceCondition(conds, c), [first], map[];
    ReplaceUpdates(conds, c);
    NothingRun([], conds, limit);
    var none: seq<string> := [];
    assert none + [first] == done;
    RunExtends([], cmds, conds, conds, conds', none, map[], map[], limit, c);
  }

  /** Otherwise the first pending command can run into the deadline, and the last condition,
      from before, still has the run called Complete. */
  lemma StaleVerdict(cmds: seq<Command>, conds: seq<Condition>, limit: int)
    returns (conds': seq<Condition>, done: seq<string>, runs: map<string, nat>)
    requires DistinctIds(cmds) && cmds != [] && InOrder(cmds, conds) && limit >= 0 && !Resumable(cmds, conds)
    ensures TaskRun(cmds, conds, conds', done, runs, limit)
    ensures TaskPhase(conds', |cmds|).Complete? && exists c :: c in cmds && !IsDone(conds', c.id)
  {
    PendingSplit(cmds, conds);
    var first := Pending(cmds, conds)[0];
    assert first != LastId(cmds);
    conds', done, runs := TimedOutRun(cmds, conds, limit);
    PendingMembers(cmds, conds);
    assert first in Pending(cmds, conds);
    var cmd :| cmd in cmds && cmd.id == first;
    assert !IsDone(conds', cmd.id) && IsDone(conds', LastId(cmds));
    IdKnown(cmds, conds, |cmds| - 1);
    LastNotProcessed(cmds, conds, conds', done, runs, limit);
    LastDecides(cmds, conds');
  }

  /** What a run leaves is again in order. */
  lemma InOrderStays(cmds: seq<Command>, conds: seq<Condition>, conds': seq<Condition>, done: seq<string>,
                     runs: map<string, nat>, limit: int)
    requires DistinctIds(cmds) && InOrder(cmds, conds) && TaskRun(cmds, conds, conds', done, runs, limit)
    ensures InOrder(cmds, conds')
  {
    var all, pending := CommandIds(cmds), Pending(cmds, conds);
    assert done == pending[..|done|] && cmds[..|cmds|] == cmds;
    WithoutPrefix(pending, |done|, Ids(conds));
    NewPending(cmds, conds, |cmds|);
    var added := Without(done, Ids(conds));
    assert added == all[|conds|..][..|added|];
    assert |Ids(conds')| == |conds'| == |conds| + |added|;
    assert all[..|conds|] + all[|conds|..][..|added|] == all[..|conds'|];
  }

  /**
   Every run resumed from these conditions is judged rightly, if and only if the last command
   is not done yet or nothing but the last command is left to run.
   */
  lemma ResumeExact(cmds: seq<Command>, conds: seq<Condition>, limit: int)
    requires DistinctIds(cmds) && cmds != [] && InOrder(cmds, conds) && limit >= 0
    ensures AlwaysRight(cmds, conds, limit) <==> Resumable(cmds, conds)
  {
    if Resumable(cmds, conds) {
      forall conds', done, runs | TaskRun(cmds, conds, conds', done, runs, limit) ensures RightVerdict(cmds, conds') {
        ResumableIsRight(cmds, conds, conds', done, runs, limit);
      }
    } else {
      var conds', done, runs := StaleVerdict(cmds, conds, limit);
      assert TaskRun(cmds, conds, conds', done, runs, limit) && !RightVerdict(cmds, conds');
    }
  }

  /** A skipped command before a completed one: resuming can be called Complete wrongly. */
  lemma ResumedVerdict() returns (cmds: seq<Command>, conds: seq<Condition>)
    ensures DistinctIds(cmds) && cmds != [] && InOrder(cmds, conds) && !Resumable(cmds, conds)
    ensures !AlwaysRight(cmds, conds, 0)
  {
    cmds := [Command("a", true), Command("b", false)];
    var a, b := Condition("a", False, Skip, 1), Condition("b", True, Complete, 1);
    conds := [a, b];
    assert conds[1..] == [b] && [b][1..] == [];
    assert GetCondition(conds, "a") == Some(a) && GetCondition(conds, "b") == GetCondition([b], "b") == Some(b);
    PendingHas(cmds, conds, 0);
    assert Ids(conds) == CommandIds(cmds)[..2];
    ResumeExact(cmds, conds, 0);
  }

  /** Condition k belongs to command k, which is done unless it is the last one processed. */
  ghost predicate InPlace(cmds: seq<Command>, conds: seq<Condition>, k: nat) {
    && k < |conds| <= |cmds|
    && GetCondition(conds, cmds[k].id) == Some(conds[k]) && !conds[k].phase.UnknownPhase?
    && (k < |conds| - 1 ==> IsDone(conds, cmds[k].id))
  }

  lemma FreshIds(cmds: seq<Command>, conds: seq<Condition>, done: seq<string>, runs: map<string, nat>, limit: int)
    requires TaskRun(cmds, [], conds, done, runs, limit)
    ensures Ids(conds) == done <= CommandIds(cmds)
  {
    PendingFresh(cmds);
    WithoutNothing(done);
    assert Ids([]) == [];
  }

  lemma FreshEntries(cmds: seq<Command>, conds: seq<Condition>, done: seq<string>, runs: map<string, nat>, limit: int)
    requires DistinctIds(cmds) && limit >= 0 && TaskRun(cmds, [], conds, done, runs, limit)
    ensures |conds| <= |cmds| && forall k :: 0 <= k < |conds| ==> InPlace(cmds, conds, k)
    ensures |conds| < |cmds| ==> !IsDone(conds, cmds[|conds|].id)
  {
    FreshIds(cmds, conds, done, runs, limit);
    var n := |conds|;
    assert forall k :: 0 <= k < n ==> Ids(conds)[k] == done[k] == CommandIds(cmds)[k] == cmds[k].id;
    forall k | 0 <= k < n ensures InPlace(cmds, conds, k) {
      GetNth(conds, k);
      assert Accounted(conds, done[k], runs, limit);
      assert k < n - 1 ==> IsDone(conds, done[..n - 1][k]);
    }
    if n < |cmds| {
      GetById(conds, cmds[n].id);
    }
  }

  // Steps of the loop ---------------------------------------------------------------

  /** The loop of startTask before command i: everything pending before it was processed,
      and all of it is done unless the deadline has passed. */
  ghost predicate Underway(cmds: seq<Command>, i: nat, conds: seq<Condition>, conds': seq<Condition>,
                           runs: map<string, nat>, limit: int, late: bool)
    requires i <= |cmds|
  {
    && TaskRun(cmds[..i], conds, conds', Pending(cmds[..i], conds), runs, limit)
    && (limit >= 0 && !late ==> AllDone(conds', Pending(cmds[..i], conds)))
  }

  /** The same seen from the whole list of commands. */
  lemma UnderwayIsRun(cmds: seq<Command>, i: nat, conds: seq<Condition>, conds': seq<Condition>,
                      runs: map<string, nat>, limit: int)
    requires i <= |cmds| && TaskRun(cmds[..i], conds, conds', Pending(cmds[..i], conds), runs, limit)
    ensures TaskRun(cmds, conds, conds', Pending(cmds[..i], conds), runs, limit)
  {
    PendingPrefix(cmds, i, conds);
  }

  lemma SkipStep(cmds: seq<Command>, i: nat, conds: seq<Condition>, conds': seq<Condition>,
                 runs: map<string, nat>, limit: int)
    requires DistinctIds(cmds) && i < |cmds| && Underway(cmds, i, conds, conds', runs, limit, false)
    requires IsComplete(conds', cmds[i].id)
    ensures Underway(cmds, i + 1, conds, conds', runs, limit, false)
  {
    NextIsNew(cmds, i, conds);
    PendingStep(cmds, i, conds);
    assert Untouched(conds, conds', runs, cmds[i].id);
  }

  /** conds' holds c, and otherwise what conds holds. */
  ghost predicate Updates(conds: seq<Condition>, conds': seq<Condition>, c: Condition) {
    forall id :: GetCondition(conds', id) == if id == c.id then Some(c) else GetCondition(conds, id)
  }

  lemma ReplaceUpdates(conds: seq<Condition>, c: Condition)
    ensures Updates(conds, ReplaceCondition(conds, c), c)
  {
    forall id
      ensures GetCondition(ReplaceCondition(conds, c), id) == if id == c.id then Some(c) else GetCondition(conds, id)
    {
      GetReplaced(conds, c, id);
    }
  }

  /** A command was processed: its condition is new, its runs are counted, all else is as before. */
  ghost predicate Processed(conds: seq<Condition>, conds': seq<Condition>, runs: map<string, nat>,
                            runs': map<string, nat>,
                            c: Condition, limit: int) {
    && conds' == ReplaceCondition(conds, c) && Updates(conds, conds', c) && Accounts(c, c.count, limit)
    && Runs(runs', c.id) == Runs(runs, c.id) + c.count
    && forall id :: id != c.id ==> Runs(runs', id) == Runs(runs, id)
  }

  /** Processing one more command extends a run in which all was done. */
  lemma RunExtends(cmds: seq<Command>, cmds': seq<Command>, conds: seq<Condition>, conds': seq<Condition>,
                   conds2: seq<Condition>,
                   done: seq<string>, runs: map<string, nat>, runs': map<string, nat>, limit: int, c: Condition)
    requires TaskRun(cmds, conds, conds', done, runs, limit) && (limit >= 0 ==> AllDone(conds', done)) && c.id !in done
    requires Processed(conds', conds2, runs, runs', c, limit)
    requires done + [c.id] <= Pending(cmds', conds)
    ensures TaskRun(cmds', conds, conds2, done + [c.id], runs', limit)
    ensures limit >= 0 && (c.phase.Complete? || c.phase.Skip?) ==> AllDone(conds2, done + [c.id])
  {
    var after := done + [c.id];
    assert Untouched(conds, conds', runs, c.id);
    assert after[..|after| - 1] == done;
    NewIdLast(conds', c);
    GetById(conds', c.id);
    GetById(conds, c.id);
    WithoutStep(done, c.id, Ids(conds));
    forall id | id in after ensures Accounted(conds2, id, runs', limit) {
      assert id != c.id ==> Accounted(conds', id, runs, limit);
    }
    forall id | id !in after ensures Untouched(conds, conds2, runs', id) {
      assert Untouched(conds, conds', runs, id);
    }
    if limit >= 0 {
      forall k | 0 <= k < |done| ensures IsDone(conds2, done[k]) {
        assert IsDone(conds', done[k]);
      }
    }
  }

  lemma ProcessStep(cmds: seq<Command>, i: nat, conds: seq<Condition>, conds': seq<Condition>, conds2: seq<Condition>,
                    runs: map<string, nat>, runs': map<string, nat>, limit: int, c: Condition, late: bool)
    requires DistinctIds(cmds) && i < |cmds| && Underway(cmds, i, conds, conds', runs, limit, false)
    requires !IsComplete(conds', cmds[i].id) && c.id == cmds[i].id
    requires Processed(conds', conds2, runs, runs', c, limit)
    ensures TaskRun(cmds[..i + 1], conds, conds2, Pending(cmds[..i + 1], conds), runs', limit)
    ensures (limit >= 0 && !late ==> c.phase.Complete? || c.phase.Skip?) ==>
              Underway(cmds, i + 1, conds, conds2, runs', limit, late)
  {
    NextIsNew(cmds, i, conds);
    PendingStep(cmds, i, conds);
    var before := Pending(cmds[..i], conds);
    assert Untouched(conds, conds', runs, c.id);
    RunExtends(cmds[..i], cmds[..i + 1], conds, conds', conds2, before, runs, runs', limit, c);
  }

  lemma NothingRun(cmds: seq<Command>, conds: seq<Condition>, limit: int)
    ensures Underway(cmds, 0, conds, conds, map[], limit, false)
  {
    assert forall id :: Untouched(conds, conds, map[], id);
  }

  /** The loop of startTask before command i. */
  ghost predicate Ongoing(cmds: seq<Command>, i: nat, conds: seq<Condition>, conds': seq<Condition>,
                          events: seq<Condition>, runs: map<string, nat>, limit: int, late: bool)
    requires i <= |cmds|
  {
    && EventRun(cmds[..i], conds, conds', events, runs, limit)
    && (limit >= 0 && !late ==> LastFinished(events))
    && (DistinctIds(cmds) ==> Underway(cmds, i, conds, conds', runs, limit, late))
  }

  /** The run ended before command i. */
  ghost predicate Ended(cmds: seq<Command>, i: nat, conds: seq<Condition>, conds': seq<Condition>,
                        events: seq<Condition>, runs: map<string, nat>, limit: int)
    requires i <= |cmds|
  {
    && EventRun(cmds[..i], conds, conds', events, runs, limit)
    && (DistinctIds(cmds) ==> TaskRun(cmds, conds, conds', Pending(cmds[..i], conds), runs, limit))
    && Keeps(conds, conds')
  }

  lemma OngoingEnds(cmds: seq<Command>, i: nat, conds: seq<Condition>, conds': seq<Condition>,
                    events: seq<Condition>, runs: map<string, nat>, limit: int, late: bool)
    requires i <= |cmds| && Ongoing(cmds, i, conds, conds', events, runs, limit, late)
    ensures Ended(cmds, i, conds, conds', events, runs, limit)
  {
    EventsKeep(cmds[..i], conds, conds', events, runs, limit);
    if DistinctIds(cmds) { UnderwayIsRun(cmds, i, conds, conds', runs, limit); }
  }

  lemma OngoingSkip(cmds: seq<Command>, i: nat, conds: seq<Condition>, conds': seq<Condition>,
                    events: seq<Condition>, runs: map<string, nat>, limit: int)
    requires i < |cmds| && Ongoing(cmds, i, conds, conds', events, runs, limit, false) && IsComplete(conds', cmds[i].id)
    ensures Ongoing(cmds, i + 1, conds, conds', events, runs, limit, false)
  {
    EventSkip(cmds, i, conds, conds', events, runs, limit);
    if DistinctIds(cmds) { SkipStep(cmds, i, conds, conds', runs, limit); }
  }

  lemma OngoingNext(cmds: seq<Command>, i: nat, conds: seq<Condition>, conds': seq<Condition>, conds2: seq<Condition>,
                    events: seq<Condition>, runs: map<string, nat>, runs': map<string, nat>, limit: int,
                    c: Condition, late: bool)
    requires i < |cmds| && Ongoing(cmds, i, conds, conds', events, runs, limit, false)
    requires !IsComplete(conds', cmds[i].id)
    requires c.id == cmds[i].id && Processed(conds', conds2, runs, runs', c, limit) && Ignored(cmds[i], c)
    ensures Ended(cmds, i + 1, conds, conds2, events + [c], runs', limit)
    ensures (limit >= 0 && !late ==> Finished(c)) ==>
              Ongoing(cmds, i + 1, conds, conds2, events + [c], runs', limit, late)
  {
    EventNext(cmds, i, conds, conds', conds2, events, runs, runs', limit, c);
    EventsKeep(cmds[..i + 1], conds, conds2, events + [c], runs', limit);
    if DistinctIds(cmds) {
      ProcessStep(cmds, i, conds, conds', conds2, runs, runs', limit, c, late);
      UnderwayIsRun(cmds, i + 1, conds, conds2, runs', limit);
    }
  }

  class Task {
    const limit: int               // spec.backoffLimit
    const stopTime: int
    const reliable: bool           // every status update succeeds
    var now: int                   // the clock
    var conditions: seq<Condition> // in memory
    var stored: seq<Condition>     // in the Command object of the API server
    var stopped: bool              // the stop channel is closed
    ghost var runs: map<string, nat>
    ghost var log: seq<Attempt>    // what ran, in the order of time, and how; only Execute adds to it
    ghost var clear: bool          // a deadline check has passed since the last attempt

    constructor (limit: int, deadlineSeconds: int, startTime: int, conditions: seq<Condition>, reliable: bool)
      ensures this.limit == limit && this.conditions == stored == conditions && this.reliable == reliable
      ensures runs == map[] && log == []
      ensures stopTime == startTime + if deadlineSeconds > 0 then deadlineSeconds else 600
    {
      this.limit, this.reliable := limit, reliable;
      stopTime := startTime + if deadlineSeconds > 0 then deadlineSeconds else DEFAULT_DEADLINE;
      now, this.conditions, stored, stopped := startTime, conditions, conditions, false;
      runs, log, clear := map[], [], false;
    }

    /** Time passes, and the clock is read. */
    method PastDeadline() returns (late: bool)
      modifies this`now, this`clear
      ensures now >= old(now) && late == (stopTime < now) && clear == !late
    {
      var passed: int := *;
      if passed > 0 { now := now + passed; }
      late := stopTime < now;
      clear := !late;
    }

    /** Looks at the stop channel; once closed it stays closed. */
    method StopRequested() returns (stop: bool)
      modifies this`stopped
      ensures stop == stopped && (old(stopped) ==> stop)
    {
      stop := *;
      stop := stop || stopped;
      stopped := stop;
    }

    /** Runs the command once, each time after a deadline check of its own. */
    method Execute(id: string) returns (ok: bool)
      requires clear
      modifies this`now, this`runs, this`log, this`clear
      ensures now >= old(now) && !clear && runs == old(runs)[id := Runs(old(runs), id) + 1]
      ensures log == old(log) + [Attempt(id, ok)]
    {
      ok := *;
      var passed: int := *;
      if passed > 0 { now := now + passed; }
      runs, log, clear := runs[id := Runs(runs, id) + 1], log + [Attempt(id, ok)], false;
    }

    /** executeWithRetry. */
    method ExecuteWithRetry(condition: Condition) returns (c: Condition, timedOut: bool)
      requires condition == Condition(condition.id, Unknown, Running, 0)
      modifies this`now, this`runs, this`log, this`clear
      ensures now >= old(now) && c.id == condition.id && !c.phase.Skip?
      ensures log == old(log) + Tries(c)
      ensures Accounts(c, c.count, limit)
      ensures Runs(runs, c.id) == Runs(old(runs), c.id) + c.count
      ensures forall id :: id != c.id ==> Runs(runs, id) == Runs(old(runs), id)
      ensures timedOut ==> stopTime < now && !c.phase.Complete?
      ensures !timedOut && limit >= 0 ==> c.phase.Complete? || (c.phase.Failed? && c.count == limit + 1)
    {
      c, timedOut := condition, false;
      while limit >= 0 && c.count <= limit
        invariant now >= old(now) && c.id == condition.id && !c.phase.Skip? && !c.phase.Complete?
        invariant Accounts(c, c.count, limit) && log == old(log) + Tries(c)
        invariant Runs(runs, c.id) == Runs(old(runs), c.id) + c.count
        invariant forall id :: id != c.id ==> Runs(runs, id) == Runs(old(runs), id)
        decreases limit + 1 - c.count
      {
        var late := PastDeadline();
        if late { return c, true; }
        var ok := Execute(c.id);
        ghost var tried := c;
        c := c.(count := c.count + 1);
        if !ok {
          c := c.(status := False, phase := Failed);
          assert Tries(c) == Tries(tried) + [Attempt(c.id, false)];
          continue;
        }
        c := c.(status := True, phase := Complete);
        assert Tries(c) == Tries(tried) + [Attempt(c.id, true)];
        break;
      }
    }

    /** processExecCommand. */
    method ProcessExecCommand(cmd: Command) returns (shouldBreak: bool, synced: bool, ghost c: Condition)
      modifies this`now, this`runs, this`log, this`clear, this`conditions, this`stored
      ensures now >= old(now) && c.id == cmd.id && log == old(log) + Tries(c)
      ensures Ignored(cmd, c)
      ensures c.phase.Skip? <==> cmd.backoffIgnore && log != old(log) && !log[|log| - 1].ok
      ensures (shouldBreak ==> c.phase.Failed?) && (reliable ==> synced)
      ensures conditions == ReplaceCondition(old(conditions), c)
      ensures Processed(old(conditions), conditions, old(runs), runs, c, limit)
      ensures limit >= 0 && synced && !shouldBreak ==> Finished(c) || stopTime < now
      ensures stored == if synced then conditions else old(stored)
    {
      var condition := Condition(cmd.id, Unknown, Running, 0);
      conditions := ReplaceCondition(conditions, condition);
      var timedOut;
      condition, timedOut := ExecuteWithRetry(condition);
      ghost var ran := condition;
      if condition.status.False? && cmd.backoffIgnore {
        condition := condition.(phase := Skip);
      }
      assert Tries(condition) == Tries(ran);
      c := condition;
      EndIsOutcome(c, limit);
      ReplaceTwice(old(conditions), Condition(cmd.id, Unknown, Running, 0), condition);
      conditions := ReplaceCondition(conditions, condition);
      ReplaceUpdates(old(conditions), condition);
      synced := *;
      synced := synced || reliable;
      if !synced { return false, false, c; }
      stored := conditions;
      shouldBreak := !timedOut && condition.phase.Failed?;
    }

    /**
     startTask.  The stop signal, the deadline, a failure or a failed status update end it
     before command `upto`; `events` are the final conditions of the commands it processed.
     */
    method StartTask(cmds: seq<Command>) returns (ghost upto: nat, ghost events: seq<Condition>)
      requires runs == map[] && stored == conditions
      modifies this
      ensures upto <= |cmds| && EventRun(cmds[..upto], old(conditions), conditions, events, runs, limit)
      ensures log == old(log) + Attempts(events)
      ensures DistinctIds(cmds) ==>
                TaskRun(cmds, old(conditions), conditions, Pending(cmds[..upto], old(conditions)), runs, limit)
      ensures Keeps(old(conditions), stored) && (reliable ==> stored == conditions)
      ensures reliable && upto < |cmds| ==> EndsEarly(events)
    {
      ghost var start := conditions;
      NothingRun(cmds, start, limit);
      events, upto := [], 0;
      for i := 0 to |cmds|
        invariant Ongoing(cmds, i, start, conditions, events, runs, limit, stopTime < now)
        invariant Keeps(start, stored) && (reliable ==> stored == conditions)
        invariant log == old(log) + Attempts(events)
      {
        var go;
        go, upto, events := RunCommand(cmds, i, start, events, old(log));
        if !go { return; }
      }
      upto := |cmds|;
      OngoingEnds(cmds, |cmds|, start, conditions, events, runs, limit, stopTime < now);
      Finalize();
    }

    /** There is a reason to end: stopping was requested, the deadline has passed, or the last
        command that was processed failed. */
    ghost predicate EndsEarly(events: seq<Condition>)
      reads this
    {
      stopped || stopTime < now || (events != [] && events[|events| - 1].phase.Failed?)
    }

    /** One iteration of the loop; `go` tells whether it goes on. */
    method RunCommand(cmds: seq<Command>, i: nat, ghost start: seq<Condition>, ghost events: seq<Condition>,
                      ghost before: seq<Attempt>)
      returns (go: bool, ghost upto: nat, ghost events': seq<Condition>)
      requires i < |cmds| && Ongoing(cmds, i, start, conditions, events, runs, limit, stopTime < now)
      requires Keeps(start, stored) && (reliable ==> stored == conditions) && log == before + Attempts(events)
      modifies this
      ensures Keeps(start, stored) && (reliable ==> stored == conditions) && log == before + Attempts(events')
      ensures go ==> Ongoing(cmds, i + 1, start, conditions, events', runs, limit, stopTime < now)
      ensures !go ==> upto <= |cmds| && Ended(cmds, upto, start, conditions, events', runs, limit)
      ensures !go && reliable ==> EndsEarly(events')
      ensures old(stopped) ==> !go && conditions == old(conditions) && log == old(log)
    {
      go, upto, events' := false, i, events;
      OngoingEnds(cmds, i, start, conditions, events, runs, limit, stopTime < now);
      var stop := StopRequested();
      if stop { return; }
      var late := PastDeadline();
      if late {
        Finalize();
        return;
      }
      if IsComplete(conditions, cmds[i].id) {
        OngoingSkip(cmds, i, start, conditions, events, runs, limit);
        return true, i, events;
      }
      go, events' := ProcessNext(cmds, i, start, events, before);
      upto := i + 1;
    }

    /** The part of the iteration that processes the command. */
    method ProcessNext(cmds: seq<Command>, i: nat, ghost start: seq<Condition>, ghost events: seq<Condition>,
                       ghost before: seq<Attempt>)
      returns (go: bool, ghost events': seq<Condition>)
      requires i < |cmds| && Ongoing(cmds, i, start, conditions, events, runs, limit, false)
      requires Keeps(start, stored) && !IsComplete(conditions, cmds[i].id) && log == before + Attempts(events)
      modifies this`now, this`runs, this`log, this`clear, this`conditions, this`stored
      ensures Keeps(start, stored) && (reliable ==> stored == conditions) && log == before + Attempts(events')
      ensures Ended(cmds, i + 1, start, conditions, events', runs, limit)
      ensures go ==> Ongoing(cmds, i + 1, start, conditions, events', runs, limit, stopTime < now)
      ensures !go && reliable ==> EndsEarly(events')
    {
      var shouldBreak, synced, c := ProcessExecCommand(cmds[i]);
      go, events' := synced && !shouldBreak, events + [c];
      AttemptsStep(events, c);
      OngoingNext(cmds, i, start, old(conditions), conditions, events, old(runs), runs, limit, c, stopTime < now);
      if synced && shouldBreak { Finalize(); }
    }

    /** finalizeTaskStatus, as far as the conditions go. */
    method Finalize()
      modifies this`stored
      ensures stored == old(stored) || stored == conditions
      ensures reliable ==> stored == conditions
    {
      var synced: bool := *;
      if synced || reliable { stored := conditions; }
    }
  }

  lemma {:induction false} ReplacedTwice(conds: seq<Condition>, a: Condition, b: Condition)
    requires a.id == b.id
    ensures Replaced(Replaced(conds, a), b) == Replaced(conds, b)
  {
    if conds != [] {
      ReplacedTwice(conds[1..], a, b);
      assert Replaced(conds, a)[1..] == Replaced(conds[1..], a);
    }
  }

  lemma {:induction false} ReplacedAppend(conds: seq<Condition>, a: Condition, b: Condition)
    requires a.id == b.id && GetCondition(conds, a.id).None?
    ensures Replaced(conds + [a], b) == conds + [b]
  {
    if conds != [] {
      ReplacedAppend(conds[1..], a, b);
      assert (conds + [a])[1..] == conds[1..] + [a];
    }
  }

  /** Writing the running condition first makes no difference to the final list. */
  lemma ReplaceTwice(conds: seq<Condition>, a: Condition, b: Condition)
    requires a.id == b.id
    ensures ReplaceCondition(ReplaceCondition(conds, a), b) == ReplaceCondition(conds, b)
  {
    GetReplaced(conds, a, b.id);
    if GetCondition(conds, a.id).None? { ReplacedAppend(conds, a, b); } else { ReplacedTwice(conds, a, b); }
  }
}
