/**
 The agent's registry of running tasks (pkg/job/job.go) and the operations on it
 (controllers/bkeagent/command_controller.go): reconcile, suspend, delete, finalize, and
 the clean-up of finished commands.
 */
module TaskRegistry {
  import opened Wrappers

  datatype Phase = Running | Complete | Failed | Suspend

  class Task {
    const gid: string
    const generation: int
    const ttl: int
    var phase: Phase
    var closed: bool       // the stop channel is closed, the Once is used up
    var hasTimer: bool
    ghost var closes: nat     // how often the stop channel was closed
    ghost var schedules: nat  // how often the deletion was scheduled

    constructor (gid: string, generation: int, ttl: int)
      ensures this.gid == gid && this.generation == generation && this.ttl == ttl
      ensures Valid() && phase.Running? && !closed && !hasTimer
    {
      this.gid, this.generation, this.ttl := gid, generation, ttl;
      phase, closed, hasTimer, closes, schedules := Running, false, false, 0, 0;
    }

    /** Closed at most once, scheduled at most once, and closed when complete. */
    ghost predicate Valid()
      reads this
    {
      && closes == (if closed then 1 else 0)
      && schedules == (if hasTimer then 1 else 0)
      && (phase.Complete? ==> closed)
    }

    method SafeClose()
      requires Valid()
      modifies this
      ensures Valid() && closed && phase == old(phase) && hasTimer == old(hasTimer)
    {
      if !closed {
        closed := true;
        closes := closes + 1;
      }
    }

    /** SetPhase and SafeClose as finalizeTaskStatus and handleSuspend use them. */
    method End(phase: Phase)
      requires Valid()
      modifies this
      ensures Valid() && closed && this.phase == phase && hasTimer == old(hasTimer)
    {
      SafeClose();
      this.phase := phase;
    }

    predicate ShouldProcessTTL()
      reads this
    {
      !hasTimer && ttl != 0 && phase.Complete?
    }

    method MarkTimerAdded() returns (r: Option<int>)
      requires Valid()
      modifies this
      ensures Valid() && hasTimer && phase == old(phase) && closed == old(closed)
      ensures r == if old(hasTimer) then None else Some(ttl)
    {
      if hasTimer { return None; }
      hasTimer := true;
      schedules := schedules + 1;
      return Some(ttl);
    }
  }

  ghost predicate Increasing(s: seq<int>) {
    forall i, j :: 0 <= i < j < |s| ==> s[i] < s[j]
  }

  datatype Found = NotFound | NotReady | Ready

  datatype Step =
    | Reconcile(gid: string, generation: int, ttl: int)
    | SuspendTask(gid: string)
    | Delete(gid: string)
    | Finalize(gid: string, phase: Phase)
    | Snapshot
    | ProcessTTL(gid: string, found: Found)

  class Job {
    var tasks: map<string, Task>
    ghost var ever: set<Task>                     // every task stored so far
    ghost var stored: map<string, seq<int>>       // the generations stored since the last deletion

    constructor ()
      ensures Valid() && NoOrphan() && ever == {} && tasks == map[]
    {
      tasks, ever, stored := map[], {}, map[];
    }

    ghost predicate Valid()
      reads this, ever
    {
      && (forall t :: t in ever ==> t.Valid())
      && (forall g :: g in tasks ==> Filed(g))
    }

    /** A stored task is filed under its own name, and generations grew up to it. */
    ghost predicate Filed(g: string)
      requires g in tasks
      reads this
    {
      && tasks[g] in ever && tasks[g].gid == g
      && g in stored && stored[g] != [] && Increasing(stored[g])
      && stored[g][|stored[g]| - 1] == tasks[g].generation
    }

    predicate IsCurrent(t: Task)
      reads this
    {
      t.gid in tasks && tasks[t.gid] == t
    }

    predicate IsCurrentFor(gid: string, t: Task)
      reads this
    {
      gid in tasks && tasks[gid] == t
    }

    /** The tasks that are lost: still open, but no longer in the registry, so that nothing
        can close them any more. */
    ghost function Orphans(): set<Task>
      reads this, ever
    {
      set t | t in ever && !t.closed && !IsCurrent(t)
    }

    /** Every task ever stored, other than the current ones, is closed. */
    ghost predicate NoOrphan()
      reads this, ever
    {
      Orphans() == {}
    }

    /** The current task of gid, if it is open. */
    ghost function OpenEntry(gid: string): set<Task>
      reads this, tasks.Values
    {
      if gid in tasks && !tasks[gid].closed then {tasks[gid]} else {}
    }

    /** The generations stored under gid since its entry was last deleted. */
    ghost function Generations(gid: string): seq<int>
      reads this
    {
      if gid in tasks && gid in stored then stored[gid] else []
    }

    /** shouldSkipOldTask and createAndStartTask. */
    method Reconciled(gid: string, generation: int, ttl: int) returns (started: bool)
      requires Valid()
      modifies this, ever
      ensures Valid() && Orphans() == old(Orphans()) && old(ever) <= ever && fresh(ever - old(ever))
      ensures started == (gid !in old(tasks) || generation > old(tasks)[gid].generation)
      ensures started ==> gid in tasks && fresh(tasks[gid]) && tasks == old(tasks)[gid := tasks[gid]]
                          && tasks[gid].generation == generation && tasks[gid].ttl == ttl
                          && !tasks[gid].closed && !tasks[gid].hasTimer
      ensures forall t :: t in old(ever) ==> t.phase == old(t.phase) && t.hasTimer == old(t.hasTimer)
      ensures started && gid in old(tasks) ==> old(tasks)[gid].closed
      ensures started ==> stored == old(stored)[gid := old(Generations(gid)) + [generation]]
      ensures !started ==> tasks == old(tasks) && ever == old(ever)
    {
      ghost var before: seq<int> := [];
      if gid in tasks {
        if generation <= tasks[gid].generation { return false; }
        assert Filed(gid);
        before := stored[gid];
        Supersede(gid);
      }
      var task := new Task(gid, generation, ttl);
      SetTask(gid, task, before);
      started := true;
    }

    method SetTask(gid: string, task: Task, ghost before: seq<int>)
      requires Valid() && task.Valid() && task.gid == gid && task !in ever
      requires gid in tasks ==> tasks[gid].closed
      requires Increasing(before + [task.generation])
      modifies this
      ensures Valid() && Orphans() == old(Orphans())
      ensures tasks == old(tasks)[gid := task] && ever == old(ever) + {task}
      ensures stored == old(stored)[gid := before + [task.generation]]
    {
      ghost var was := tasks;
      tasks := tasks[gid := task];
      ever := ever + {task};
      stored := stored[gid := before + [task.generation]];
      forall g | g in tasks ensures Filed(g) {
        assert g != gid ==> old(Filed(g));
      }
      forall t | t in ever ensures t in Orphans() <==> t in old(Orphans()) {
        assert t == task || IsCurrent(t) == (t.gid != gid && t.gid in was && was[t.gid] == t);
      }
    }

    /** shouldSkipOldTask closes a task that is about to be replaced. */
    method Supersede(gid: string)
      requires Valid() && gid in tasks
      modifies tasks[gid]
      ensures Valid() && Orphans() == old(Orphans()) && tasks[gid].closed
      ensures tasks[gid].phase == old(tasks[gid].phase) && tasks[gid].hasTimer == old(tasks[gid].hasTimer)
    {
      assert Filed(gid);
      tasks[gid].SafeClose();
    }

    /** handleSuspend and finalizeTaskStatus: they end whatever task is current. */
    method EndCurrent(gid: string, phase: Phase)
      requires Valid()
      modifies ever
      ensures Valid() && Orphans() == old(Orphans())
      ensures gid in tasks ==>
                tasks[gid].closed && tasks[gid].phase == phase && tasks[gid].hasTimer == old(tasks[gid].hasTimer)
      ensures forall t :: t in ever && !IsCurrentFor(gid, t) ==> unchanged(t)
    {
      if gid in tasks {
        assert Filed(gid);
        tasks[gid].End(phase);
      }
    }

    /** Job.DeleteTask: drops the entry, whatever it is. */
    method DeleteTask(gid: string)
      requires Valid()
      modifies this
      ensures Valid() && tasks == old(tasks) - {gid} && ever == old(ever)
    {
      tasks := tasks - {gid};
      forall g | g in tasks ensures Filed(g) {
        assert old(Filed(g));
      }
    }

    /** Dropping an entry loses its task exactly when that is open. */
    method DropEntry(gid: string)
      requires Valid()
      modifies this
      ensures Valid() && tasks == old(tasks) - {gid} && ever == old(ever)
      ensures Orphans() == old(Orphans()) + old(OpenEntry(gid))
    {
      ghost var was := tasks;
      assert gid in tasks ==> Filed(gid);
      DeleteTask(gid);
      assert gid in was ==> was[gid] in ever && !IsCurrent(was[gid]);
      assert forall t :: t in ever && t.gid != gid ==> (IsCurrent(t) <==> t.gid in was && was[t.gid] == t);
    }

    /** cleanupTask. */
    method Cleanup(gid: string)
      requires Valid()
      modifies this, ever
      ensures Valid() && Orphans() == old(Orphans()) && tasks == old(tasks) - {gid} && ever == old(ever)
      ensures forall t :: t in ever ==> t.phase == old(t.phase) && t.hasTimer == old(t.hasTimer)
    {
      if gid in tasks {
        assert Filed(gid);
        tasks[gid].SafeClose();
        DropEntry(gid);
      } else {
        assert tasks == tasks - {gid};
      }
    }

    /** The clean-up of a task from a snapshot will drop the entry of that name. */
    predicate Drops(value: Task, found: Found)
      reads value
    {
      value.ShouldProcessTTL() && found.NotFound?
    }

    /**
     processTTLTask for a task of a snapshot.  When the command object is gone it drops the
     entry of that name, which need not be the one of the snapshot any more.
     */
    method ProcessTTLTask(gid: string, value: Task, found: Found) returns (scheduled: bool)
      requires Valid() && value in ever
      modifies this, value
      ensures Valid() && ever == old(ever)
      ensures tasks == if old(!value.hasTimer && value.phase == Complete) && value.ttl != 0 && found.NotFound?
                       then old(tasks) - {gid} else old(tasks)
      ensures scheduled == (old(!value.hasTimer && value.phase == Complete) && value.ttl != 0 && found.Ready?)
      ensures Orphans() == old(Orphans()) + if old(Drops(value, found)) then old(OpenEntry(gid)) else {}
      ensures scheduled == (old(value.ShouldProcessTTL()) && found.Ready?)
      ensures scheduled ==> value.schedules == 1 && old(value.schedules) == 0
    {
      scheduled := false;
      if !value.ShouldProcessTTL() { return; }
      if found.NotFound? {
        DropEntry(gid);
        return;
      }
      if found.NotReady? { return; }
      var ttl := value.MarkTimerAdded();
      scheduled := ttl.Some?;
    }

    /** A task of the snapshot that is still the current one is complete, so closed. */
    lemma CurrentIsDroppable(gid: string)
      requires Valid() && gid in tasks && tasks[gid].ShouldProcessTTL()
      ensures OpenEntry(gid) == {}
    {
      assert Filed(gid);
    }

    /** An open entry that is dropped was not lost before. */
    lemma NewLoss(gid: string)
      requires Valid()
      ensures Orphans() !! OpenEntry(gid) && |OpenEntry(gid)| == if gid in tasks && !tasks[gid].closed then 1 else 0
    {
      assert gid in tasks ==> Filed(gid);
    }

    /** One step of a run; `lost` tells whether it loses an open task. */
    method RunStep(step: Step, snapshot: map<string, Task>) returns (snapshot': map<string, Task>, lost: bool)
      requires Valid() && snapshot.Values <= ever
      modifies this, ever
      ensures Valid() && old(ever) <= ever && fresh(ever - old(ever)) && snapshot'.Values <= ever
      ensures |Orphans()| == |old(Orphans())| + if lost then 1 else 0
      ensures lost == (step.ProcessTTL? && step.gid in snapshot && old(Drops(snapshot[step.gid], step.found))
                       && step.gid in old(tasks) && !old(tasks[step.gid].closed))
      ensures snapshot' == if step.Snapshot? then old(tasks) else snapshot
      ensures match step
              case Reconcile(gid, generation, ttl) =>
                if gid in old(tasks) && generation <= old(tasks)[gid].generation then tasks == old(tasks)
                else && gid in tasks && tasks == old(tasks)[gid := tasks[gid]] && fresh(tasks[gid])
                     && tasks[gid].generation == generation && !tasks[gid].closed
              case Delete(gid) => tasks == old(tasks) - {gid}
              case ProcessTTL(gid, found) =>
                tasks == if gid in snapshot && old(snapshot[gid].ShouldProcessTTL()) && found.NotFound?
                         then old(tasks) - {gid} else old(tasks)
              case SuspendTask(gid) => tasks == old(tasks) && (gid in tasks ==>
                  tasks[gid].closed && tasks[gid].phase == Suspend)
              case Finalize(gid, phase) => tasks == old(tasks) && (gid in tasks ==>
                  tasks[gid].closed && tasks[gid].phase == phase)
              case Snapshot => tasks == old(tasks)
    {
      snapshot', lost := snapshot, false;
      match step {
        case Reconcile(gid, generation, ttl) =>
          var started := Reconciled(gid, generation, ttl);
        case SuspendTask(gid) =>
          EndCurrent(gid, Suspend);
        case Delete(gid) =>
          Cleanup(gid);
        case Finalize(gid, phase) =>
          EndCurrent(gid, phase);
        case Snapshot =>
          assert forall g :: g in tasks ==> Filed(g);
          snapshot' := tasks;
        case ProcessTTL(gid, found) =>
          if gid in snapshot {
            NewLoss(gid);
            lost := Drops(snapshot[gid], found) && gid in tasks && !tasks[gid].closed;
            var scheduled := ProcessTTLTask(gid, snapshot[gid], found);
          }
      }
    }

    /**
     Any run of reconcile, suspend, delete, finalize, snapshot and clean-up steps: generations
     under a name increase until its entry is deleted, each task is closed and scheduled at
     most once, and as many open tasks are lost as there were clean-ups that found their
     command gone while an open task was filed under its name.  With no such clean-up every
     task other than the current ones is closed.
     */
    method RunAll(steps: seq<Step>) returns (losses: seq<nat>)
      requires Valid()
      modifies this, ever
      ensures Valid()
      ensures |Orphans()| == |old(Orphans())| + |losses|
      ensures old(NoOrphan()) ==> (NoOrphan() <==> losses == [])
      ensures forall i :: i in losses ==> i < |steps| && steps[i].ProcessTTL? && steps[i].found.NotFound?
    {
      var snapshot: map<string, Task> := map[];
      losses := [];
      for i := 0 to |steps|
        invariant Valid() && old(ever) <= ever && fresh(ever - old(ever)) && snapshot.Values <= ever
        invariant |Orphans()| == |old(Orphans())| + |losses|
        invariant forall j :: j in losses ==> j < i && steps[j].ProcessTTL? && steps[j].found.NotFound?
      {
        var lost;
        snapshot, lost := RunStep(steps[i], snapshot);
        if lost { losses := losses + [i]; }
      }
    }
  }

  /** A stale snapshot can lose an open task: the command was deleted and created again
      between the snapshot and the clean-up. */
  method RecreatedCommand() returns (job: Job)
    ensures job.Valid() && !job.NoOrphan()
  {
    job := new Job();
    var started := job.Reconciled("ns/c", 1, 10);
    var old1 := job.tasks["ns/c"];
    assert job.Filed("ns/c");
    job.EndCurrent("ns/c", Complete);
    job.Cleanup("ns/c");
    assert old1 in job.ever && old1.ShouldProcessTTL();
    started := job.Reconciled("ns/c", 1, 10);
    assert job.Filed("ns/c");
    var scheduled := job.ProcessTTLTask("ns/c", old1, NotFound);
  }
}
