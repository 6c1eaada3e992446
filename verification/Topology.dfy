/**
 The dependency graph of an upgrade and its execution batches
 (pkg/topology/graph.go).  An edge x -> y means that x must finish before y runs.
 */
module Topology {
  import opened Wrappers
  import opened Collections

  type Edges = map<string, set<string>>

  datatype EdgeError = EmptyEndpoint | SelfEdge | CycleDetected

  function Succ(out: Edges, x: string): set<string> {
    if x in out then out[x] else {}
  }

  /** Consecutive names of p are joined by edges. */
  ghost predicate IsPath(out: Edges, p: seq<string>) {
    && |p| > 0
    && forall i :: 0 <= i < |p| - 1 ==> p[i + 1] in Succ(out, p[i])
  }

  ghost predicate Reaches(out: Edges, x: string, y: string) {
    exists p :: IsPath(out, p) && p[0] == x && p[|p| - 1] == y
  }

  /** A numbering that grows along every edge; it exists exactly for acyclic graphs. */
  ghost predicate IsRank(out: Edges, rank: map<string, nat>) {
    && (forall x :: x in out ==> x in rank)
    && forall x, y :: x in out && y in out[x] ==> y in rank && rank[x] < rank[y]
  }

  ghost predicate Acyclic(out: Edges) {
    exists rank :: IsRank(out, rank)
  }

  /** The prerequisites of y among the nodes. */
  function Preds(nodes: set<string>, out: Edges, y: string): set<string> {
    set x | x in nodes && y in Succ(out, x)
  }

  lemma {:induction false} RankAlongPath(out: Edges, rank: map<string, nat>, p: seq<string>)
    requires IsRank(out, rank) && IsPath(out, p) && |p| > 1
    ensures p[0] in rank && p[|p| - 1] in rank && rank[p[0]] < rank[p[|p| - 1]]
  {
    var n := |p| - 1;
    assert p[n] in Succ(out, p[n - 1]);
    if n > 1 {
      assert IsPath(out, p[..n]);
      RankAlongPath(out, rank, p[..n]);
    }
  }

  /** The rank definition means what it should: no path leads back to its start. */
  lemma AcyclicHasNoCycle(out: Edges, p: seq<string>)
    requires Acyclic(out) && IsPath(out, p) && |p| > 1
    ensures p[0] != p[|p| - 1]
  {
    var rank :| IsRank(out, rank);
    RankAlongPath(out, rank, p);
  }

  lemma ReachesStep(out: Edges, x: string, y: string, z: string)
    requires Reaches(out, x, y) && z in Succ(out, y)
    ensures Reaches(out, x, z)
  {
    var p :| IsPath(out, p) && p[0] == x && p[|p| - 1] == y;
    assert IsPath(out, p + [z]);
  }

  /** A set that holds x and is closed under edges holds everything x reaches. */
  lemma {:induction false} ClosedSet(out: Edges, s: set<string>, p: seq<string>)
    requires IsPath(out, p) && p[0] in s
    requires forall v, w :: v in s && w in Succ(out, v) ==> w in s
    ensures p[|p| - 1] in s
  {
    var n := |p| - 1;
    if n > 0 {
      assert IsPath(out, p[..n]);
      ClosedSet(out, s, p[..n]);
      assert p[n] in Succ(out, p[n - 1]);
    }
  }

  lemma MaxRank(rank: map<string, nat>, keys: set<string>) returns (bound: nat)
    requires keys <= rank.Keys
    ensures forall x :: x in keys ==> rank[x] <= bound
  {
    bound := 0;
    var rest := keys;
    while rest != {}
      invariant rest <= keys
      invariant forall x :: x in keys - rest ==> rank[x] <= bound
    {
      var x :| x in rest;
      if rank[x] > bound { bound := rank[x]; }
      rest := rest - {x};
    }
  }

  /** Adding x -> y keeps the graph acyclic when y does not already reach x. */
  lemma AddEdgeAcyclic(out: Edges, x: string, y: string)
    requires Acyclic(out) && x in out && y in out && x != y
    requires forall v :: v in out ==> out[v] <= out.Keys
    requires !Reaches(out, y, x)
    ensures Acyclic(WithEdge(out, x, y))
  {
    var out' := WithEdge(out, x, y);
    var rank :| IsRank(out, rank);
    var bound := MaxRank(rank, out.Keys);
    var shifted := map v | v in out :: if Reaches(out, y, v) then rank[v] + bound + 1 else rank[v];
    assert IsPath(out, [y]);
    forall v, w | v in out' && w in out'[v]
      ensures w in shifted && shifted[v] < shifted[w]
    {
      if w in out[v] {
        if Reaches(out, y, v) { ReachesStep(out, y, v, w); }
      } else {
        assert v == x && w == y;
        assert [y][0] == y && Reaches(out, y, y);
      }
    }
    assert IsRank(out', shifted);
  }

  function WithNode(out: Edges, x: string): Edges {
    if x == "" || x in out then out else out[x := {}]
  }

  function WithEdge(out: Edges, x: string, y: string): Edges
    requires x in out
  {
    out[x := out[x] + {y}]
  }

  lemma WithNodeReaches(out: Edges, n: string, x: string, y: string)
    ensures Reaches(out, x, y) <==> Reaches(WithNode(out, n), x, y)
  {
    assert forall v :: Succ(out, v) == Succ(WithNode(out, n), v);
    assert forall p :: IsPath(out, p) <==> IsPath(WithNode(out, n), p);
  }

  lemma FreshNodeAcyclic(out: Edges, x: string)
    requires Acyclic(out) && x !in out
    ensures Acyclic(out[x := {}])
  {
    var rank :| IsRank(out, rank);
    var rank' := if x in rank then rank else rank[x := 0];
    assert IsRank(out[x := {}], rank');
  }

  // Batches ---------------------------------------------------------------

  /** Name x is in batch i. */
  ghost predicate InBatch(batches: seq<seq<string>>, i: int, x: string) {
    0 <= i < |batches| && x in batches[i]
  }

  function Elems(s: seq<string>): set<string> {
    set x | x in s
  }

  lemma ElemsExtend(s: seq<string>, i: nat)
    requires i < |s|
    ensures Elems(s[..i + 1]) == Elems(s[..i]) + {s[i]}
  {
    assert s[..i + 1] == s[..i] + [s[i]];
  }

  /** The nodes of the first k batches. */
  ghost function Placed(batches: seq<seq<string>>, k: nat): set<string>
    requires k <= |batches|
  {
    set i, x | 0 <= i < k && x in batches[i] :: x
  }

  /**
   What TopologicalBatches promises: the batches split the nodes, every
   prerequisite sits in a strictly earlier batch, and no node waits longer than
   it must - it has a prerequisite in the batch just before its own.
   */
  ghost predicate ValidBatches(batches: seq<seq<string>>, nodes: set<string>, out: Edges) {
    && Placed(batches, |batches|) == nodes
    && (forall i :: 0 <= i < |batches| ==> batches[i] != [] && NoDuplicates(batches[i]))
    && (forall i, j, x :: InBatch(batches, i, x) && InBatch(batches, j, x) ==> i == j)
    && (forall i, j, x, y :: InBatch(batches, i, x) && InBatch(batches, j, y) && y in Succ(out, x) ==> i < j)
    && (forall j, y :: InBatch(batches, j, y) && j > 0 ==>
        exists x :: InBatch(batches, j - 1, x) && y in Succ(out, x))
  }

  /** Transitive prerequisites, too, are in strictly earlier batches. */
  lemma {:induction false} PathCrossesBatches(batches: seq<seq<string>>, nodes: set<string>, out: Edges,
                                              p: seq<string>, j: int)
    requires ValidBatches(batches, nodes, out)
    requires forall x, y :: x in nodes && y in Succ(out, x) ==> y in nodes
    requires IsPath(out, p) && |p| > 1 && p[0] in nodes && InBatch(batches, j, p[|p| - 1])
    ensures exists i :: InBatch(batches, i, p[0]) && i < j
  {
    var n := |p| - 1;
    assert IsPath(out, p[..n]);
    ClosedSet(out, nodes, p[..n]);
    assert p[n - 1] in Placed(batches, |batches|);
    var k :| 0 <= k < |batches| && p[n - 1] in batches[k];
    assert InBatch(batches, k, p[n - 1]);
    assert p[n] in Succ(out, p[n - 1]);
    if n > 1 {
      PathCrossesBatches(batches, nodes, out, p[..n], k);
    }
  }

  // Search ----------------------------------------------------------------

  predicate Closed(nodes: set<string>, out: Edges) {
    out.Keys == nodes && forall x :: x in nodes ==> out[x] <= nodes
  }

  function SuccOf(out: Edges, vs: seq<string>): set<string> {
    set v, w | v in vs && w in Succ(out, v) :: w
  }

  lemma SuccOfExtend(out: Edges, vs: seq<string>, i: nat)
    requires i < |vs|
    ensures SuccOf(out, vs[..i + 1]) == SuccOf(out, vs[..i]) + Succ(out, vs[i])
  {
    assert vs[..i + 1] == vs[..i] + [vs[i]];
  }

  lemma SuccOfPrefix(out: Edges, vs: seq<string>, i: nat)
    requires i <= |vs|
    ensures SuccOf(out, vs[..i]) <= SuccOf(out, vs)
  {
    assert forall v :: v in vs[..i] ==> v in vs;
  }

  /** The search reached exactly `visited`; only `current` still has successors to look at. */
  ghost predicate Searching(out: Edges, from: string, to: string, visited: set<string>, current: seq<string>) {
    && from in visited && to !in visited
    && (forall v :: v in visited ==> Reaches(out, from, v))
    && (forall v :: v in current ==> v in visited)
    && forall v, w :: v in visited && v !in current && w in Succ(out, v) ==> w in visited
  }

  lemma SuccOfReached(out: Edges, from: string, to: string, visited: set<string>, current: seq<string>, w: string)
    requires Searching(out, from, to, visited, current) && w in SuccOf(out, current)
    ensures Reaches(out, from, w)
  {
    var v :| v in current && w in Succ(out, v);
    ReachesStep(out, from, v, w);
  }

  lemma SearchStep(out: Edges, from: string, to: string, visited: set<string>, current: seq<string>,
                   seen: set<string>, next: seq<string>)
    requires Searching(out, from, to, visited, current) && to !in SuccOf(out, current)
    requires seen == visited + SuccOf(out, current)
    requires forall w :: w in next <==> w in seen && w !in visited
    ensures Searching(out, from, to, seen, next)
  {
    forall w | w in seen ensures Reaches(out, from, w) {
      if w !in visited { SuccOfReached(out, from, to, visited, current, w); }
    }
    forall v, w | v in seen && v !in next && w in Succ(out, v) ensures w in seen {
      if v in current { assert w in SuccOf(out, current); }
    }
  }

  lemma QueueShrinks(nodes: set<string>, visited: set<string>, seen: set<string>, next: seq<string>)
    requires visited <= seen <= nodes
    requires forall w :: w in next <==> w in seen && w !in visited
    ensures if next == [] then seen == visited else |nodes - seen| < |nodes - visited|
  {
    if next == [] {
      assert forall w :: w in seen ==> w in visited;
    } else {
      RestShrinks(nodes, visited, seen, next[0]);
    }
  }

  lemma SearchExhausted(out: Edges, from: string, to: string, visited: set<string>)
    requires Searching(out, from, to, visited, [])
    ensures !Reaches(out, from, to)
  {
    forall p | IsPath(out, p) && p[0] == from
      ensures p[|p| - 1] != to
    {
      ClosedSet(out, visited, p);
    }
  }

  // In-degrees ------------------------------------------------------------

  /** Each remaining in-degree counts the prerequisites that are not processed yet. */
  ghost predicate Degrees(nodes: set<string>, out: Edges, degree: map<string, int>, processed: set<string>) {
    && degree.Keys == nodes
    && forall y :: y in nodes ==> degree[y] == |Preds(nodes - processed, out, y)|
  }

  lemma AddEdgeDegrees(nodes: set<string>, out: Edges, degree: map<string, int>, x: string, y: string)
    requires Closed(nodes, out) && Degrees(nodes, out, degree, {})
    requires x in nodes && y in nodes && y !in out[x]
    ensures Degrees(nodes, WithEdge(out, x, y), degree[y := degree[y] + 1], {})
  {
    forall v | v in nodes
      ensures degree[y := degree[y] + 1][v] == |Preds(nodes - {}, WithEdge(out, x, y), v)|
    {
      WithEdgePreds(nodes - {}, out, x, y, v);
    }
  }

  lemma WithEdgeClosed(nodes: set<string>, out: Edges, x: string, y: string)
    requires Closed(nodes, out) && x in nodes && y in nodes
    ensures Closed(nodes, WithEdge(out, x, y))
    ensures y in out[x] ==> WithEdge(out, x, y) == out
  {
    assert y in out[x] ==> out[x] + {y} == out[x];
  }

  lemma WithEdgePreds(nodes: set<string>, out: Edges, x: string, y: string, v: string)
    requires x in nodes && x in out && y !in out[x]
    ensures |Preds(nodes, WithEdge(out, x, y), v)| == |Preds(nodes, out, v)| + (if v == y then 1 else 0)
  {
    var now, before := Preds(nodes, WithEdge(out, x, y), v), Preds(nodes, out, v);
    forall u ensures u in now <==> u in before || (u == x && v == y) {
      assert u != x ==> Succ(WithEdge(out, x, y), u) == Succ(out, u);
    }
    assert now == before + (if v == y then {x} else {}) && (v == y ==> x !in before);
  }

  lemma AddNodeDegrees(nodes: set<string>, out: Edges, degree: map<string, int>, x: string)
    requires Closed(nodes, out) && Degrees(nodes, out, degree, {}) && x !in nodes
    ensures Degrees(nodes + {x}, out[x := {}], degree[x := 0], {})
  {
    var out' := out[x := {}];
    forall v | v in nodes + {x}
      ensures degree[x := 0][v] == |Preds(nodes + {x} - {}, out', v)|
    {
      var now := Preds(nodes + {x} - {}, out', v);
      if v == x { assert now == {}; } else { assert now == Preds(nodes - {}, out, v); }
    }
  }

  lemma ReleaseDegrees(nodes: set<string>, out: Edges, degree: map<string, int>, degree': map<string, int>,
                       processed: set<string>, name: string)
    requires Degrees(nodes, out, degree, processed) && name in out && name in nodes && name !in processed
    requires degree'.Keys == degree.Keys
    requires forall y :: y in degree ==> degree'[y] == degree[y] - (if y in out[name] then 1 else 0)
    ensures Degrees(nodes, out, degree', processed + {name})
  {
    forall y | y in nodes
      ensures degree'[y] == |Preds(nodes - (processed + {name}), out, y)|
    {
      var open := Preds(nodes - processed, out, y);
      assert Preds(nodes - (processed + {name}), out, y) == open - {name};
      assert name in open <==> y in out[name];
    }
  }

  // Batches under construction --------------------------------------------

  /** The nodes that may run once `processed` has. */
  ghost predicate Ready(nodes: set<string>, out: Edges, processed: set<string>, x: string) {
    x in nodes && x !in processed && Preds(nodes - processed, out, x) == {}
  }

  /** ValidBatches for the part of the graph already placed, ready to be extended. */
  ghost predicate Levels(nodes: set<string>, out: Edges, batches: seq<seq<string>>, processed: set<string>) {
    && processed <= nodes
    && ValidBatches(batches, processed, out)
    && (forall x, y :: y in processed && x in nodes && y in Succ(out, x) ==> x in processed)
    && (batches != [] ==> forall y :: Ready(nodes, out, processed, y) ==>
        exists x :: InBatch(batches, |batches| - 1, x) && y in Succ(out, x))
  }

  ghost predicate IsReadyBatch(nodes: set<string>, out: Edges, processed: set<string>, batch: seq<string>) {
    NoDuplicates(batch) && forall x :: x in batch <==> Ready(nodes, out, processed, x)
  }

  lemma ReadyMeansZero(nodes: set<string>, out: Edges, degree: map<string, int>, processed: set<string>,
                       batch: seq<string>)
    requires Degrees(nodes, out, degree, processed) && NoDuplicates(batch)
    requires forall x :: x in batch <==> x in nodes && x !in processed && degree[x] == 0
    ensures IsReadyBatch(nodes, out, processed, batch)
  {
    forall x | x in nodes
      ensures degree[x] == 0 <==> Preds(nodes - processed, out, x) == {}
    {
    }
  }

  /** Among the unprocessed nodes one of least rank has no unprocessed prerequisite. */
  lemma SomeNodeReady(nodes: set<string>, out: Edges, processed: set<string>, batch: seq<string>)
    requires Closed(nodes, out) && Acyclic(out) && !(nodes <= processed)
    requires IsReadyBatch(nodes, out, processed, batch)
    ensures batch != []
  {
    var rank :| IsRank(out, rank);
    var low :| low in nodes && low !in processed;
    var rest := nodes - processed;
    while rest != {}
      invariant rest <= nodes - processed && low in nodes - processed
      invariant forall x :: x in nodes - processed - rest ==> rank[low] <= rank[x]
    {
      var x :| x in rest;
      if rank[x] < rank[low] { low := x; }
      rest := rest - {x};
    }
    assert Ready(nodes, out, processed, low);
  }

  /** Placing the ready nodes keeps the batches valid. */
  lemma LevelsExtend(nodes: set<string>, out: Edges, batches: seq<seq<string>>, processed: set<string>,
                     batch: seq<string>)
    requires Levels(nodes, out, batches, processed)
    requires batch != [] && IsReadyBatch(nodes, out, processed, batch)
    ensures Levels(nodes, out, batches + [batch], processed + Elems(batch))
  {
    var after := processed + Elems(batch);
    var bs := batches + [batch];
    LevelsExtendValid(nodes, out, batches, processed, batch);
    forall x, y | y in after && x in nodes && y in Succ(out, x)
      ensures x in after
    {
      assert y in batch ==> x !in nodes - processed || x in Preds(nodes - processed, out, y);
    }
    forall y | Ready(nodes, out, after, y)
      ensures exists x :: InBatch(bs, |bs| - 1, x) && y in Succ(out, x)
    {
      assert y !in batch && !Ready(nodes, out, processed, y);
      var x :| x in Preds(nodes - processed, out, y);
      assert x !in Preds(nodes - after, out, y);
      assert InBatch(bs, |bs| - 1, x);
    }
  }

  lemma LevelsExtendValid(nodes: set<string>, out: Edges, batches: seq<seq<string>>, processed: set<string>,
                          batch: seq<string>)
    requires Levels(nodes, out, batches, processed)
    requires batch != [] && IsReadyBatch(nodes, out, processed, batch)
    ensures ValidBatches(batches + [batch], processed + Elems(batch), out)
  {
    var bs, n := batches + [batch], |batches|;
    PlacedExtend(batches, batch);
    forall i, x | InBatch(bs, i, x)
      ensures if i == n then x in batch else InBatch(batches, i, x) && x in processed
    {
      if i != n { assert x in Placed(batches, n); }
    }
    forall i, j, x, y | InBatch(bs, i, x) && InBatch(bs, j, y) && y in Succ(out, x)
      ensures i < j
    {
      assert j == n ==> x !in nodes - processed || x in Preds(nodes - processed, out, y);
    }
    forall j, y | InBatch(bs, j, y) && j > 0
      ensures exists x :: InBatch(bs, j - 1, x) && y in Succ(out, x)
    {
      var x :| InBatch(batches, j - 1, x) && y in Succ(out, x);
      assert InBatch(bs, j - 1, x);
    }
  }

  lemma NothingPlaced(nodes: set<string>, out: Edges)
    ensures Levels(nodes, out, [], {})
  {
    assert Placed([], 0) == {};
  }

  /** One round of Kahn's algorithm: some node is ready, and placing the ready ones makes progress. */
  lemma PlaceReady(nodes: set<string>, out: Edges, degree: map<string, int>, processed: set<string>,
                   batches: seq<seq<string>>, batch: seq<string>)
    requires Closed(nodes, out) && Acyclic(out) && processed != nodes
    requires Degrees(nodes, out, degree, processed) && Levels(nodes, out, batches, processed)
    requires NoDuplicates(batch)
    requires forall x :: x in batch <==> x in nodes && x !in processed && degree[x] == 0
    ensures batch != []
    ensures Levels(nodes, out, batches + [batch], processed + Elems(batch))
    ensures |nodes - (processed + Elems(batch))| < |nodes - processed|
  {
    ReadyMeansZero(nodes, out, degree, processed, batch);
    SomeNodeReady(nodes, out, processed, batch);
    LevelsExtend(nodes, out, batches, processed, batch);
    RestShrinks(nodes, processed, processed + Elems(batch), batch[0]);
  }

  class Graph {
    var nodes: set<string>
    var outEdges: Edges
    var inDegree: map<string, int>

    ghost predicate Valid()
      reads this
    {
      && Closed(nodes, outEdges)
      && Degrees(nodes, outEdges, inDegree, {})
      && Acyclic(outEdges)
    }

    constructor ()
      ensures Valid() && nodes == {} && outEdges == map[]
    {
      nodes := {};
      outEdges := map[];
      inDegree := map[];
      new;
      var rank: map<string, nat> := map[];
      assert IsRank(outEdges, rank);
    }

    method AddNode(name: string)
      requires Valid()
      modifies this
      ensures Valid() && outEdges == WithNode(old(outEdges), name)
      ensures if name == "" || name in old(nodes) then nodes == old(nodes) && outEdges == old(outEdges)
              else nodes == old(nodes) + {name} && outEdges == old(outEdges)[name := {}]
    {
      if name == "" || name in nodes { return; }
      FreshNodeAcyclic(outEdges, name);
      AddNodeDegrees(nodes, outEdges, inDegree, name);
      nodes := nodes + {name};
      inDegree := inDegree[name := 0];
      outEdges := outEdges[name := {}];
    }

    /**
     The edge is added unless it would close a cycle: it is refused as a cycle
     exactly when the dependent already reaches the prerequisite.
     */
    method AddEdge(prerequisite: string, dependent: string) returns (r: Result<(), EdgeError>)
      requires Valid()
      modifies this
      ensures Valid()
      ensures r == (if prerequisite == "" || dependent == "" then Err(EmptyEndpoint)
                    else if prerequisite == dependent then Err(SelfEdge)
                    else if Reaches(old(outEdges), dependent, prerequisite) then Err(CycleDetected)
                    else Ok(()))
      ensures var out := WithNode(WithNode(old(outEdges), prerequisite), dependent);
              outEdges == match r
                          case Ok(_) => WithEdge(out, prerequisite, dependent)
                          case Err(CycleDetected) => out
                          case _ => old(outEdges)
    {
      if prerequisite == "" || dependent == "" { return Err(EmptyEndpoint); }
      if prerequisite == dependent { return Err(SelfEdge); }
      ghost var before := outEdges;
      AddNode(prerequisite);
      ghost var middle := outEdges;
      AddNode(dependent);
      WithNodeReaches(before, prerequisite, dependent, prerequisite);
      WithNodeReaches(middle, dependent, dependent, prerequisite);
      var cyclic := HasPath(dependent, prerequisite);
      if cyclic { return Err(CycleDetected); }
      Insert(prerequisite, dependent);
      return Ok(());
    }

    method Insert(prerequisite: string, dependent: string)
      requires Valid() && prerequisite in nodes && dependent in nodes && prerequisite != dependent
      requires !Reaches(outEdges, dependent, prerequisite)
      modifies this
      ensures Valid() && outEdges == WithEdge(old(outEdges), prerequisite, dependent)
    {
      WithEdgeClosed(nodes, outEdges, prerequisite, dependent);
      if dependent in outEdges[prerequisite] { return; }
      AddEdgeAcyclic(outEdges, prerequisite, dependent);
      AddEdgeDegrees(nodes, outEdges, inDegree, prerequisite, dependent);
      inDegree := inDegree[dependent := inDegree[dependent] + 1];
      outEdges := WithEdge(outEdges, prerequisite, dependent);
    }

    /** The two-queue breadth-first search answers reachability. */
    method HasPath(from: string, to: string) returns (found: bool)
      requires Closed(nodes, outEdges) && from in nodes
      ensures found <==> Reaches(outEdges, from, to)
    {
      var out := outEdges;
      assert IsPath(out, [from]) && [from][0] == from;
      if from == to { return true; }
      var visited := {from};
      var current := [from];
      while |current| > 0
        invariant visited <= nodes
        invariant Searching(out, from, to, visited, current)
        decreases |nodes - visited|, |current|
      {
        var hit, seen, next := Expand(current, visited, to);
        if hit {
          SuccOfReached(out, from, to, visited, current, to);
          return true;
        }
        SearchStep(out, from, to, visited, current, seen, next);
        QueueShrinks(nodes, visited, seen, next);
        visited, current := seen, next;
      }
      SearchExhausted(out, from, to, visited);
      return false;
    }

    /** One level of the search: the successors of `current`, unless `to` is among them. */
    method Expand(current: seq<string>, visited: set<string>, to: string)
      returns (found: bool, seen: set<string>, next: seq<string>)
      requires Closed(nodes, outEdges) && visited <= nodes && forall v :: v in current ==> v in nodes
      ensures found <==> to in SuccOf(outEdges, current)
      ensures !found ==> seen == visited + SuccOf(outEdges, current) && seen <= nodes
      ensures !found ==> forall w :: w in next <==> w in seen && w !in visited
    {
      seen, next := visited, [];
      assert current[..0] == [];
      for i := 0 to |current|
        invariant to !in SuccOf(outEdges, current[..i])
        invariant seen == visited + SuccOf(outEdges, current[..i]) && seen <= nodes
        invariant forall w :: w in next <==> w in seen && w !in visited
      {
        SuccOfExtend(outEdges, current, i);
        var hit, seen', next' := ExpandOne(outEdges[current[i]], seen, next, to);
        if hit {
          SuccOfPrefix(outEdges, current, i + 1);
          return true, seen, next;
        }
        seen, next := seen', next';
      }
      assert current[..|current|] == current;
      found := false;
    }

    method ExpandOne(succs: set<string>, visited: set<string>, next: seq<string>, to: string)
      returns (found: bool, seen: set<string>, next': seq<string>)
      ensures found <==> to in succs
      ensures !found ==> seen == visited + succs
      ensures !found ==> forall w :: w in next' <==> w in next || (w in succs && w !in visited)
    {
      seen, next' := visited, next;
      var rest := succs;
      while rest != {}
        invariant rest <= succs && to !in succs - rest
        invariant seen == visited + (succs - rest)
        invariant forall w :: w in next' <==> w in next || (w in succs - rest && w !in visited)
      {
        var succ :| succ in rest;
        if succ == to { return true, seen, next'; }
        rest := rest - {succ};
        if succ !in seen {
          seen := seen + {succ};
          next' := next' + [succ];
        }
      }
      found := false;
    }

    /**
     Kahn's algorithm, batch by batch.  On a graph built by AddNode and AddEdge it
     never fails, and its batches are the ones ValidBatches describes.
     */
    method TopologicalBatches() returns (r: Result<seq<seq<string>>, EdgeError>)
      requires Valid()
      ensures r.Ok? && ValidBatches(r.value, nodes, outEdges)
    {
      var batches: seq<seq<string>> := [];
      var degree := inDegree;
      var processed: set<string> := {};
      NothingPlaced(nodes, outEdges);
      while processed != nodes
        invariant Degrees(nodes, outEdges, degree, processed)
        invariant Levels(nodes, outEdges, batches, processed)
        decreases |nodes - processed|
      {
        var batch := ReadyNodes(degree, processed);
        PlaceReady(nodes, outEdges, degree, processed, batches, batch);
        if |batch| == 0 { assert false; }
        degree := ReleaseAll(degree, processed, batch);
        processed := processed + Elems(batch);
        batches := batches + [batch];
      }
      return Ok(batches);
    }

    /** The unprocessed nodes of degree zero, in an arbitrary order. */
    method ReadyNodes(degree: map<string, int>, processed: set<string>) returns (batch: seq<string>)
      requires degree.Keys == nodes
      ensures NoDuplicates(batch)
      ensures forall x :: x in batch <==> x in nodes && x !in processed && degree[x] == 0
    {
      batch := [];
      var rest := nodes;
      while rest != {}
        invariant rest <= nodes && NoDuplicates(batch)
        invariant forall x :: x in batch <==> x in nodes && x !in rest && x !in processed && degree[x] == 0
      {
        var name :| name in rest;
        rest := rest - {name};
        if name !in processed && degree[name] == 0 {
          batch := batch + [name];
        }
      }
    }

    /** Decrements the in-degree of the successors of every node of a batch. */
    method ReleaseAll(degree: map<string, int>, ghost processed: set<string>, batch: seq<string>)
      returns (degree': map<string, int>)
      requires Closed(nodes, outEdges) && Degrees(nodes, outEdges, degree, processed) && NoDuplicates(batch)
      requires forall x :: x in batch ==> x in nodes && x !in processed
      ensures Degrees(nodes, outEdges, degree', processed + Elems(batch))
    {
      degree' := degree;
      ghost var done := processed;
      for i := 0 to |batch|
        invariant done == processed + Elems(batch[..i])
        invariant Degrees(nodes, outEdges, degree', done)
      {
        var name := batch[i];
        ElemsExtend(batch, i);
        assert name in batch && name !in batch[..i];
        var before := degree';
        degree' := Decrement(degree', outEdges[name]);
        ReleaseDegrees(nodes, outEdges, before, degree', done, name);
        done := done + {name};
      }
      assert batch[..|batch|] == batch;
    }

    method Decrement(degree: map<string, int>, succs: set<string>) returns (degree': map<string, int>)
      requires succs <= degree.Keys
      ensures degree'.Keys == degree.Keys
      ensures forall y :: y in degree ==> degree'[y] == degree[y] - (if y in succs then 1 else 0)
    {
      degree' := degree;
      var rest := succs;
      while rest != {}
        invariant rest <= succs && degree'.Keys == degree.Keys
        invariant forall y :: y in degree ==> degree'[y] == degree[y] - (if y in succs && y !in rest then 1 else 0)
      {
        var succ :| succ in rest;
        rest := rest - {succ};
        degree' := degree'[succ := degree'[succ] - 1];
      }
    }
  }

  lemma PlacedExtend(batches: seq<seq<string>>, batch: seq<string>)
    ensures Placed(batches + [batch], |batches| + 1) == Placed(batches, |batches|) + Elems(batch)
  {
    var bs, n := batches + [batch], |batches|;
    forall x | x in Placed(batches, n) ensures x in Placed(bs, n + 1) {
      var i :| 0 <= i < n && x in batches[i];
      assert x in bs[i];
    }
    forall x | x in batch ensures x in Placed(bs, n + 1) {
      assert x in bs[n];
    }
  }
}
