/**
 Which machine gets which node (controllers/capbke/bkemachine_controller_phases.go,
 controllers/capbke/bkemachine_controller.go): the record of nodes being booted, kept
 under a mutex, and the labels that machines get once their bootstrap command exists.
 */
module NodeAllocation {
  import opened Wrappers

  type Machine = string
  type IP = string

  /** `inFlight` holds nodes that were allocated to a machine whose label is not persisted
      yet; `booting` is nodesBootRecord, `nodeOf` the Status.Node of the machines. */
  datatype State = State(
    labels: map<Machine, IP>, inFlight: map<Machine, IP>, booting: set<IP>, nodeOf: map<Machine, IP>)

  datatype Step =
    | Join(m: Machine, nodes: seq<IP>, prefer: IP)
    | Init(m: Machine, nodes: seq<IP>, prefer: IP)
    | PersistLabel(m: Machine)
    | Abandon(m: Machine)
    | ProcessCommand(m: Machine)
    | FailBootstrap(m: Machine)
    | PreDelete(m: Machine)
    | PostDelete(m: Machine)
    | Remove(m: Machine)

  // Choosing a node ---------------------------------------------------------------------

  predicate Free(s: State, ip: IP) {
    ip !in s.booting && ip !in s.labels.Values
  }

  /** The candidates in their order, without those that are booting or bound. */
  function Available(s: State, nodes: seq<IP>): seq<IP> {
    if nodes == [] then []
    else
      var rest := Available(s, nodes[..|nodes| - 1]);
      var last := nodes[|nodes| - 1];
      if Free(s, last) then rest + [last] else rest
  }

  /** The preferred node if it is a candidate, else the first candidate. */
  function Pick(nodes: seq<IP>, prefer: IP): (r: Option<IP>)
    ensures r.Some? <==> nodes != []
    ensures r.Some? ==> r.value in nodes
    ensures prefer != "" && prefer in nodes ==> r == Some(prefer)
    ensures (prefer == "" || prefer !in nodes) && nodes != [] ==> r == Some(nodes[0])
  {
    if nodes == [] then None
    else if prefer != "" && prefer in nodes then Some(prefer)
    else Some(nodes[0])
  }

  lemma {:induction false} AvailableAreFree(s: State, nodes: seq<IP>)
    ensures forall ip :: ip in Available(s, nodes) <==> ip in nodes && Free(s, ip)
  {
    if nodes != [] {
      AvailableAreFree(s, nodes[..|nodes| - 1]);
      assert nodes == nodes[..|nodes| - 1] + [nodes[|nodes| - 1]];
    }
  }

  lemma AvailableStep(s: State, nodes: seq<IP>, i: nat)
    requires i < |nodes|
    ensures Available(s, nodes[..i + 1]) == Available(s, nodes[..i]) + if Free(s, nodes[i]) then [nodes[i]] else []
  {
    assert nodes[..i + 1][..i] == nodes[..i];
  }

  /** What is left after the first candidate stays in its order. */
  lemma AvailableOrder(s: State, ip: IP, nodes: seq<IP>)
    ensures Available(s, nodes + [ip]) ==
              Available(s, nodes) + if ip !in s.booting && ip !in s.labels.Values then [ip] else []
  {
    assert (nodes + [ip])[..|nodes|] == nodes;
  }

  // The protocol ------------------------------------------------------------------------

  /** The node a delete works on: the one in the status, else the one in the label. */
  function DeletedNode(s: State, m: Machine): Option<IP> {
    if m in s.nodeOf then Some(s.nodeOf[m])
    else if m in s.labels then Some(s.labels[m])
    else None
  }

  predicate Enabled(s: State, step: Step) {
    match step
    case Join(m, nodes, _) => m !in s.labels && m !in s.inFlight && Available(s, nodes) != []
    case Init(m, nodes, _) => m !in s.labels && m !in s.inFlight && nodes != []
    case PersistLabel(m) => m in s.inFlight
    case Abandon(m) => m in s.inFlight
    case ProcessCommand(m) => m in s.labels
    case FailBootstrap(m) => m in s.labels
    case PreDelete(m) => m in s.labels
    case PostDelete(m) => DeletedNode(s, m).Some?
    case Remove(m) => m !in s.inFlight
  }

  function Next(s: State, step: Step): State
    requires Enabled(s, step)
  {
    match step
    case Join(m, nodes, prefer) => Take(s, m, Pick(Available(s, nodes), prefer).value)
    case Init(m, nodes, prefer) => Take(s, m, Pick(nodes, prefer).value)
    case PersistLabel(m) =>
      s.(labels := s.labels[m := s.inFlight[m]], nodeOf := s.nodeOf[m := s.inFlight[m]], inFlight := s.inFlight - {m})
    case Abandon(m) => s.(inFlight := s.inFlight - {m})
    case ProcessCommand(m) => s.(booting := s.booting - {s.labels[m]})
    case FailBootstrap(m) => s.(labels := s.labels - {m})
    case PreDelete(m) => s.(booting := s.booting - {s.labels[m]})
    case PostDelete(m) => s.(booting := s.booting - {DeletedNode(s, m).value})
    case Remove(m) => s.(labels := s.labels - {m}, nodeOf := s.nodeOf - {m})
  }

  function Take(s: State, m: Machine, ip: IP): State {
    s.(inFlight := s.inFlight[m := ip], booting := s.booting + {ip})
  }

  /** When each step can be taken: a machine without a node joins or starts the cluster, one that was
      given a node gets its label or gives it up, one with a label reports, fails or is deleted,
      and one that was given no node goes. */
  lemma WhenEnabled(s: State, m: Machine, nodes: seq<IP>, prefer: IP)
    ensures Enabled(s, Join(m, nodes, prefer)) <==>
              m !in s.labels && m !in s.inFlight &&
              exists ip :: ip in nodes && ip !in s.booting && ip !in s.labels.Values
    ensures Enabled(s, Init(m, nodes, prefer)) <==> m !in s.labels && m !in s.inFlight && nodes != []
    ensures Enabled(s, PersistLabel(m)) <==> m in s.inFlight
    ensures Enabled(s, Abandon(m)) <==> m in s.inFlight
    ensures Enabled(s, ProcessCommand(m)) <==> m in s.labels
    ensures Enabled(s, FailBootstrap(m)) <==> m in s.labels
    ensures Enabled(s, PreDelete(m)) <==> m in s.labels
    ensures Enabled(s, PostDelete(m)) <==> m in s.nodeOf || m in s.labels
    ensures Enabled(s, Remove(m)) <==> m !in s.inFlight
  {
    AvailableAreFree(s, nodes);
    if Available(s, nodes) != [] { assert Available(s, nodes)[0] in Available(s, nodes); }
  }

  /** Machine m has node ip, by label or in flight. */
  predicate Has(s: State, m: Machine, ip: IP) {
    (m in s.labels && s.labels[m] == ip) || (m in s.inFlight && s.inFlight[m] == ip)
  }

  /** No node is given to two machines. */
  ghost predicate Exclusive(s: State) {
    forall m, n, ip :: Has(s, m, ip) && Has(s, n, ip) ==> m == n
  }

  ghost predicate Inv(s: State) {
    && Exclusive(s)
    && (forall m :: m in s.inFlight ==> m !in s.labels && s.inFlight[m] in s.booting)
  }

  ghost predicate Taken(s: State, ip: IP) {
    exists m :: Has(s, m, ip)
  }

  /** Init takes a node without looking, and a delete may drop the record of a node that
      another machine is booting meanwhile; every other step is safe. */
  ghost predicate Guard(s: State, step: Step) {
    match step
    case Init(_, nodes, prefer) => nodes != [] && !Taken(s, Pick(nodes, prefer).value)
    case PostDelete(m) => DeletedNode(s, m).Some? ==> DeletedNode(s, m).value !in s.inFlight.Values
    case _ => true
  }

  lemma FreeIsNotTaken(s: State, ip: IP)
    requires Inv(s) && Free(s, ip)
    ensures !Taken(s, ip)
  {
  }

  lemma TakeExact(s: State, m: Machine, ip: IP)
    requires Inv(s) && m !in s.labels && m !in s.inFlight
    ensures Inv(Take(s, m, ip)) <==> !Taken(s, ip)
  {
    var s' := Take(s, m, ip);
    assert Has(s', m, ip);
    assert forall n, p :: n != m ==> (Has(s', n, p) <==> Has(s, n, p));
    assert forall n :: Has(s, n, ip) ==> n != m && Has(s', n, ip);
  }

  lemma DropExact(s: State, ip: IP)
    requires Inv(s)
    ensures Inv(s.(booting := s.booting - {ip})) <==> ip !in s.inFlight.Values
  {
    var s' := s.(booting := s.booting - {ip});
    assert forall m, p :: Has(s', m, p) <==> Has(s, m, p);
  }

  lemma LabelledIsNotInFlight(s: State, m: Machine)
    requires Inv(s) && m in s.labels
    ensures s.labels[m] !in s.inFlight.Values
  {
    if n :| n in s.inFlight && s.inFlight[n] == s.labels[m] {
      assert Has(s, n, s.labels[m]) && Has(s, m, s.labels[m]);
    }
  }

  lemma RelabelKeeps(s: State, s': State)
    requires Inv(s) && s'.booting == s.booting
    requires forall m, ip :: Has(s', m, ip) ==> Has(s, m, ip)
    requires forall m :: m in s'.inFlight ==> m in s.inFlight && s'.inFlight[m] == s.inFlight[m] && m !in s'.labels
    ensures Inv(s')
  {
  }

  /** Exactly the guarded steps keep the allocation exclusive and the in-flight nodes recorded. */
  lemma StepExact(s: State, step: Step)
    requires Inv(s) && Enabled(s, step)
    ensures Inv(Next(s, step)) <==> Guard(s, step)
  {
    match step {
      case Join(m, nodes, prefer) =>
        AvailableAreFree(s, nodes);
        FreeIsNotTaken(s, Pick(Available(s, nodes), prefer).value);
        TakeExact(s, m, Pick(Available(s, nodes), prefer).value);
      case Init(m, nodes, prefer) =>
        TakeExact(s, m, Pick(nodes, prefer).value);
      case ProcessCommand(m) =>
        LabelledIsNotInFlight(s, m);
        DropExact(s, s.labels[m]);
      case PreDelete(m) =>
        LabelledIsNotInFlight(s, m);
        DropExact(s, s.labels[m]);
      case PostDelete(m) =>
        DropExact(s, DeletedNode(s, m).value);
      case PersistLabel(m) => RelabelKeeps(s, Next(s, step));
      case Abandon(m) => RelabelKeeps(s, Next(s, step));
      case FailBootstrap(m) => RelabelKeeps(s, Next(s, step));
      case Remove(m) => RelabelKeeps(s, Next(s, step));
    }
  }

  /** Deleting a machine whose status agrees with its label is always safe. */
  lemma AgreeingDeleteIsSafe(s: State, m: Machine)
    requires Inv(s) && m in s.labels && (m in s.nodeOf ==> s.nodeOf[m] == s.labels[m])
    ensures Guard(s, PostDelete(m))
  {
    LabelledIsNotInFlight(s, m);
  }

  ghost predicate Run(s: State, steps: seq<Step>, s': State)
    decreases |steps|
  {
    if steps == [] then s' == s else Enabled(s, steps[0]) && Run(Next(s, steps[0]), steps[1..], s')
  }

  ghost predicate Guarded(s: State, steps: seq<Step>)
    decreases |steps|
  {
    steps != [] ==> Enabled(s, steps[0]) && Guard(s, steps[0]) && Guarded(Next(s, steps[0]), steps[1..])
  }

  /** In every guarded run no node is ever given to two machines. */
  lemma {:induction false} GuardedRunsAreExclusive(s: State, steps: seq<Step>, s': State)
    requires Inv(s) && Run(s, steps, s') && Guarded(s, steps)
    ensures Inv(s')
    decreases |steps|
  {
    if steps != [] {
      StepExact(s, steps[0]);
      GuardedRunsAreExclusive(Next(s, steps[0]), steps[1..], s');
    }
  }

  // A double allocation -----------------------------------------------------------------

  /** Machine a failed on the node and lost its label, machine b is booting it now. */
  const HANDED_OVER := State(map[], map["b" := "10.0.0.1"], {"10.0.0.1"}, map["a" := "10.0.0.1"])

  lemma RunCons(s: State, a: Step, rest: seq<Step>, s': State)
    requires Enabled(s, a) && Run(Next(s, a), rest, s')
    ensures Run(s, [a] + rest, s')
  {
    assert ([a] + rest)[1..] == rest;
  }

  lemma HandOver() returns (steps: seq<Step>)
    ensures Run(State(map[], map[], {}, map[]), steps, HANDED_OVER)
  {
    var ip := "10.0.0.1";
    var s0 := State(map[], map[], {}, map[]);
    var joinA, joinB := Join("a", [ip], ""), Join("b", [ip], "");
    AvailableAreFree(s0, [ip]);
    assert ip in [ip];
    var s1 := Next(s0, joinA);
    assert s1 == State(map[], map["a" := ip], {ip}, map[]);
    var s2 := Next(s1, PersistLabel("a"));
    assert s2 == State(map["a" := ip], map[], {ip}, map["a" := ip]);
    var s3 := Next(s2, ProcessCommand("a"));
    assert s3 == State(map["a" := ip], map[], {}, map["a" := ip]);
    var s4 := Next(s3, FailBootstrap("a"));
    assert s4 == State(map[], map[], {}, map["a" := ip]);
    AvailableAreFree(s4, [ip]);
    assert Next(s4, joinB) == HANDED_OVER;
    RunCons(s4, joinB, [], HANDED_OVER);
    RunCons(s3, FailBootstrap("a"), [joinB] + [], HANDED_OVER);
    RunCons(s2, ProcessCommand("a"), [FailBootstrap("a")] + ([joinB] + []), HANDED_OVER);
    RunCons(s1, PersistLabel("a"), [ProcessCommand("a")] + ([FailBootstrap("a")] + ([joinB] + [])), HANDED_OVER);
    RunCons(s0, joinA, [PersistLabel("a")] + ([ProcessCommand("a")] + ([FailBootstrap("a")] + ([joinB] + []))),
            HANDED_OVER);
    steps := [joinA] + ([PersistLabel("a")] + ([ProcessCommand("a")] + ([FailBootstrap("a")] + ([joinB] + []))));
  }

  /** Deleting machine a drops the record, and a third machine gets the same node.  The clean-up
      deletes the node object as well, so this takes a list of nodes that was read before it, or
      a delete that failed. */
  lemma DoubleAllocation() returns (steps: seq<Step>, s: State)
    ensures Run(HANDED_OVER, steps, s) && !Exclusive(s)
  {
    var ip := "10.0.0.1";
    var join := Join("c", [ip], "");
    var s1 := Next(HANDED_OVER, PostDelete("a"));
    AvailableAreFree(s1, [ip]);
    assert ip in [ip];
    s := Next(s1, join);
    RunCons(s1, join, [], s);
    RunCons(HANDED_OVER, PostDelete("a"), [join] + [], s);
    steps := [PostDelete("a")] + ([join] + []);
    assert Has(s, "b", ip) && Has(s, "c", ip);
  }

  // The reconciler --------------------------------------------------------------------------

  class MachineReconciler {
    var labels: map<Machine, IP>     // the persisted machine labels
    var booting: set<IP>             // nodesBootRecord
    var nodeOf: map<Machine, IP>
    ghost var inFlight: map<Machine, IP>

    constructor ()
      ensures Value() == State(map[], map[], {}, map[])
    {
      labels, booting, nodeOf, inFlight := map[], {}, map[], map[];
    }

    ghost function Value(): State
      reads this
    {
      State(labels, inFlight, booting, nodeOf)
    }

    /** filterAvailableNode, while holding the mutex; a join lists the machines first, which may fail. */
    method FilterAvailableNode(m: Machine, nodes: seq<IP>, prefer: IP, init: bool) returns (listed: bool, r: Option<IP>)
      requires m !in labels && m !in inFlight
      requires init ==> nodes != []
      modifies this
      ensures listed ==> r == Pick(if init then nodes else Available(old(Value()), nodes), prefer)
      ensures !listed ==> !init && r.None?
      ensures r.Some? ==> var step := (if init then Init(m, nodes, prefer) else Join(m, nodes, prefer));
                          Enabled(old(Value()), step) && Value() == Next(old(Value()), step)
      ensures r.None? ==> Value() == old(Value())
    {
      var candidates := nodes;
      listed := true;
      if !init {
        listed := *;
        if !listed { return false, None; }
        candidates := [];
        for i := 0 to |nodes|
          invariant candidates == Available(Value(), nodes[..i])
          invariant Value() == old(Value())
        {
          AvailableStep(Value(), nodes, i);
          if nodes[i] in booting { continue; }
          var bound := IsBound(nodes[i]);
          if !bound { candidates := candidates + [nodes[i]]; }
        }
        assert nodes[..|nodes|] == nodes;
        if candidates == [] { return true, None; }
      }
      var chosen := Preferred(candidates, prefer);
      booting := booting + {chosen};
      inFlight := inFlight[m := chosen];
      r := Some(chosen);
    }

    /** handleRealBootstrap: the label and the status are set once the command exists. */
    method HandleRealBootstrap(m: Machine, ip: IP, created: bool)
      requires m in inFlight && inFlight[m] == ip
      modifies this
      ensures Value() == Next(old(Value()), if created then PersistLabel(m) else Abandon(m))
    {
      if created {
        labels := labels[m := ip];
        nodeOf := nodeOf[m := ip];
      }
      inFlight := inFlight - {m};
    }

    /** processBootstrapCommand, and processBootstrapFailure once the control plane is up. */
    method ProcessBootstrapCommand(m: Machine, failed: bool)
      requires m in labels
      modifies this
      ensures Enabled(old(Value()), ProcessCommand(m))
      ensures var s := Next(old(Value()), ProcessCommand(m));
              Value() == if failed then Next(s, FailBootstrap(m)) else s
    {
      booting := booting - {labels[m]};
      if failed { labels := labels - {m}; }
    }

    /** handlePostNodeSetupCleanup on the node bkeMachineToNode finds. */
    method PostNodeSetupCleanup(m: Machine) returns (found: bool)
      modifies this`booting
      ensures found <==> Enabled(old(Value()), PostDelete(m))
      ensures Value() == if found then Next(old(Value()), PostDelete(m)) else old(Value())
    {
      if m !in nodeOf && m !in labels { return false; }
      booting := booting - {if m in nodeOf then nodeOf[m] else labels[m]};
      found := true;
    }

    /** Looks through the labels of all machines. */
    method IsBound(ip: IP) returns (bound: bool)
      ensures bound <==> ip in labels.Values
    {
      var rest := labels.Keys;
      while rest != {}
        invariant rest <= labels.Keys && forall m :: m in labels && m !in rest ==> labels[m] != ip
        decreases rest
      {
        var m :| m in rest;
        if labels[m] == ip { return true; }
        rest := rest - {m};
      }
      bound := false;
    }

    method Preferred(candidates: seq<IP>, prefer: IP) returns (ip: IP)
      requires candidates != []
      ensures Pick(candidates, prefer) == Some(ip)
    {
      if prefer != "" {
        for i := 0 to |candidates|
          invariant prefer !in candidates[..i]
        {
          if candidates[i] == prefer { return prefer; }
        }
        assert candidates[..|candidates|] == candidates;
      }
      ip := candidates[0];
    }
  }
}
