/**
 The race between the two reconcilers: a hop that is marked after the version it was
 planned for was left is recorded as an upgrade no catalog offered.
 */
module HopRace {
  import opened Wrappers
  import opened HopStatus
  import opened HopProtocol
  import U = UpgradePath

  /** Three different versions, of which a can be upgraded to b and to c. */
  predicate Trio(a: string, b: string, c: string) {
    && a != b && b != c && a != c && a != "" && b != "" && c != ""
    && Trim(a) == a && Trim(b) == b && Trim(c) == c
  }

  function Catalog(a: string, b: string, c: string): U.Adjacency {
    map[a := [U.Rule(a, b, false), U.Rule(a, c, false)]]
  }

  lemma DirectEdge(adj: U.Adjacency, e: U.Rule)
    requires e in U.Edges(adj, e.from) && !e.blocked && e.from != e.to
    ensures U.Shortest(adj, e.from, [e], e.to)
  {
    assert U.StepAt(adj, e.from, [e], 0);
    assert U.Leads(adj, e.from, [e], e.to);
  }

  lemma RunCons(s: State, a: Step, rest: seq<Step>, s': State)
    requires Enabled(s, a) && Run(Next(s, a), rest, s')
    ensures Run(s, [a] + rest, s')
  {
    assert ([a] + rest)[1..] == rest;
  }

  /** Version b is desired and nothing is marked. */
  function Start(a: string, b: string, c: string): State {
    State(ClusterVersion(b, a, Ready, []), None, None, Idle, Catalog(a, b, c), {})
  }

  /** The hop to b is marked. */
  function Marked(a: string, b: string, c: string): State {
    State(ClusterVersion(b, a, PreChecking, []), Some(Hop(a, b)), None, Idle, Catalog(a, b, c), {Hop(a, b)})
  }

  /** The hop to b is being run; meanwhile c is desired, and a hop from a to c was planned. */
  function Midway(a: string, b: string, c: string): State {
    State(ClusterVersion(c, a, PreChecking, []), Some(Hop(a, b)), Some(Hop(a, c)), Running(Hop(a, b)),
          Catalog(a, b, c), {Hop(a, b), Hop(a, c)})
  }

  /** The hop to b is complete, and the hop from a to c is about to be marked. */
  function Stale(a: string, b: string, c: string): State {
    State(ClusterVersion(c, b, PreChecking, [HopRecord(a, b, true)]), None, Some(Hop(a, c)), Idle,
          Catalog(a, b, c), {Hop(a, b), Hop(a, c)})
  }

  /** An upgrade from b to c is on record. */
  function Unsound(a: string, b: string, c: string): State {
    State(ClusterVersion(c, c, Ready, [HopRecord(a, b, true), HopRecord(b, c, true)]), None, None, Idle,
          Catalog(a, b, c), {Hop(a, b), Hop(a, c)})
  }

  lemma ReachMarked(a: string, b: string, c: string) returns (steps: seq<Step>)
    requires Trio(a, b, c)
    ensures Run(Start(a, b, c), steps, Marked(a, b, c)) && Orderly(Start(a, b, c), steps)
  {
    var toB := U.Rule(a, b, false);
    DirectEdge(Catalog(a, b, c), toB);
    steps := [Plan("", [toB]), ChangePhase(PreChecking), Mark];
    ThreeSteps(Start(a, b, c), steps[0], steps[1], steps[2]);
    assert After(Start(a, b, c), steps) == Marked(a, b, c);
  }

  lemma LeaveMarked(a: string, b: string, c: string) returns (steps: seq<Step>)
    requires Trio(a, b, c)
    ensures Run(Marked(a, b, c), steps, Midway(a, b, c)) && Orderly(Marked(a, b, c), steps)
  {
    var toC := U.Rule(a, c, false);
    DirectEdge(Catalog(a, b, c), toC);
    steps := [Begin, ChangeDesired(c), Plan("", [toC])];
    ThreeSteps(Marked(a, b, c), steps[0], steps[1], steps[2]);
    assert After(Marked(a, b, c), steps) == Midway(a, b, c);
  }

  lemma {:induction false} RunAppend(s: State, xs: seq<Step>, s1: State, ys: seq<Step>, s2: State)
    requires Run(s, xs, s1) && Run(s1, ys, s2)
    ensures Run(s, xs + ys, s2)
    ensures Orderly(s, xs) && Orderly(s1, ys) ==> Orderly(s, xs + ys)
    decreases |xs|
  {
    if xs == [] {
      assert xs + ys == ys;
    } else {
      RunAppend(Next(s, xs[0]), xs[1..], s1, ys, s2);
      assert (xs + ys)[1..] == xs[1..] + ys;
    }
  }

  /** An orderly run plans a second hop while the first is still running. */
  lemma ReachMidway(a: string, b: string, c: string) returns (steps: seq<Step>)
    requires Trio(a, b, c)
    ensures Safe(Start(a, b, c)) && Run(Start(a, b, c), steps, Midway(a, b, c)) && Orderly(Start(a, b, c), steps)
  {
    var xs := ReachMarked(a, b, c);
    var ys := LeaveMarked(a, b, c);
    RunAppend(Start(a, b, c), xs, Marked(a, b, c), ys, Midway(a, b, c));
    steps := xs + ys;
  }

  /** The hop to b completes. */
  lemma ReachStale(a: string, b: string, c: string) returns (steps: seq<Step>)
    requires Trio(a, b, c)
    ensures Run(Midway(a, b, c), steps, Stale(a, b, c))
  {
    steps := [Clear, Finish(true), ChangePhase(PreChecking)];
    ThreeSteps(Midway(a, b, c), steps[0], steps[1], steps[2]);
    assert After(Midway(a, b, c), steps) == Stale(a, b, c);
  }

  /** The stale hop is marked and completes as well. */
  lemma LeaveStale(a: string, b: string, c: string) returns (steps: seq<Step>)
    requires Trio(a, b, c)
    ensures Run(Stale(a, b, c), steps, Unsound(a, b, c))
  {
    var s1 := Next(Stale(a, b, c), Mark);
    var s2 := Next(s1, Begin);
    var s3 := Next(s2, Clear);
    assert Next(s3, Finish(true)) == Unsound(a, b, c);
    RunCons(s3, Finish(true), [], Unsound(a, b, c));
    RunCons(s2, Clear, [Finish(true)] + [], Unsound(a, b, c));
    RunCons(s1, Begin, [Clear] + ([Finish(true)] + []), Unsound(a, b, c));
    steps := [Mark] + ([Begin] + ([Clear] + ([Finish(true)] + [])));
    RunCons(Stale(a, b, c), Mark, [Begin] + ([Clear] + ([Finish(true)] + [])), Unsound(a, b, c));
  }

  /** For any three such versions the race ends in a success record that is no approved hop. */
  lemma StaleMark(a: string, b: string, c: string) returns (steps: seq<Step>)
    requires Trio(a, b, c)
    ensures Run(Midway(a, b, c), steps, Unsound(a, b, c)) && !Sound(Unsound(a, b, c))
    ensures !IsEdge(Catalog(a, b, c), Hop(b, c))
  {
    var xs := ReachStale(a, b, c);
    var ys := LeaveStale(a, b, c);
    RunAppend(Midway(a, b, c), xs, Stale(a, b, c), ys, Unsound(a, b, c));
    steps := xs + ys;
    var r := HopRecord(b, c, true);
    assert r in Unsound(a, b, c).cv.history && !IsApproved(Unsound(a, b, c).approved, r);
  }

  /** There are such versions. */
  lemma SomeTrio()
    ensures Trio("v1", "v2", "v3")
  {
    TrimmedIsFixed("v1");
    TrimmedIsFixed("v2");
    TrimmedIsFixed("v3");
  }
}
