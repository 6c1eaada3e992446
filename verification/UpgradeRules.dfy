/**
 What the catalog of upgrades accepts (pkg/upgradepath/graph.go): rules that are well formed
 and, taken together, lead round in no circle.
 */
module UpgradeRules {
  import opened Wrappers
  import opened Collections
  import opened UpgradePath

  datatype RuleError =
    | EmptyFrom(index: nat)
    | EmptyTo(index: nat)
    | SelfLoop(index: nat)
    | EmptyCheckName(index: nat)
    | DuplicateEdge(index: nat)
    | CycleDetected(cycle: seq<string>)

  // Single rules ---------------------------------------------------------------------------

  /** The key by which duplicates are found. */
  function Key(r: Rule): string {
    r.from + ['\0'] + r.to
  }

  predicate WellFormed(r: Rule) {
    r.from != "" && r.to != "" && r.from != r.to && "" !in r.checks
  }

  ghost predicate ValidRules(rules: seq<Rule>) {
    && (forall i :: 0 <= i < |rules| ==> WellFormed(rules[i]))
    && (forall i, j :: 0 <= i < j < |rules| ==> Key(rules[i]) != Key(rules[j]))
  }

  /** A list is valid when no rule has an empty or repeated end or an empty check name, and no two
      rules have the same key. */
  lemma ValidMeans(rules: seq<Rule>)
    ensures ValidRules(rules) <==>
              && !(exists r :: r in rules && (r.from == "" || r.to == "" || r.from == r.to || "" in r.checks))
              && !(exists i, j :: 0 <= i < j < |rules|
                     && rules[i].from + ['\0'] + rules[i].to == rules[j].from + ['\0'] + rules[j].to)
  {
    assert forall i :: 0 <= i < |rules| ==> rules[i] in rules;
    assert forall i :: 0 <= i < |rules| ==> Key(rules[i]) == rules[i].from + ['\0'] + rules[i].to;
  }

  /** What is wrong with rule i, given the rules before it. */
  ghost predicate Wrong(rules: seq<Rule>, e: RuleError) {
    match e
    case EmptyFrom(i) => i < |rules| && rules[i].from == ""
    case EmptyTo(i) => i < |rules| && rules[i].to == ""
    case SelfLoop(i) => i < |rules| && rules[i].from == rules[i].to
    case EmptyCheckName(i) => i < |rules| && "" in rules[i].checks
    case DuplicateEdge(i) => i < |rules| && exists j :: 0 <= j < i && Key(rules[j]) == Key(rules[i])
    case CycleDetected(_) => false
  }

  /** ValidateRules: accepts exactly the valid lists, and names a rule that is wrong. */
  method ValidateRules(rules: seq<Rule>) returns (r: Result<(), RuleError>)
    ensures r.Ok? <==> ValidRules(rules)
    ensures r.Err? ==> Wrong(rules, r.error)
  {
    var seen: set<string> := {};
    for i := 0 to |rules|
      invariant ValidRules(rules[..i])
      invariant forall k :: k in seen <==> exists j :: 0 <= j < i && Key(rules[j]) == k
    {
      var rule := rules[i];
      if rule.from == "" { return Err(EmptyFrom(i)); }
      if rule.to == "" { return Err(EmptyTo(i)); }
      if rule.from == rule.to { return Err(SelfLoop(i)); }
      if "" in rule.checks { return Err(EmptyCheckName(i)); }
      if Key(rule) in seen { return Err(DuplicateEdge(i)); }
      seen := seen + {Key(rule)};
    }
    assert rules[..|rules|] == rules;
    r := Ok(());
  }

  /** For names without the separator, equal keys mean equal ends. */
  lemma KeyInjective(a: Rule, b: Rule)
    requires '\0' !in a.from && '\0' !in b.from && Key(a) == Key(b)
    ensures a.from == b.from && a.to == b.to
  {
    var m, n := |a.from|, |b.from|;
    assert Key(a)[m] == '\0' && Key(b)[n] == '\0';
    assert forall i :: 0 <= i < m ==> Key(a)[i] == a.from[i];
    assert forall i :: 0 <= i < n ==> Key(b)[i] == b.from[i];
    assert m == n;
    assert a.from == Key(a)[..m] && b.from == Key(b)[..n];
    assert a.to == Key(a)[m + 1..] && b.to == Key(b)[n + 1..];
  }

  // Circles --------------------------------------------------------------------------------

  /** Some rule, blocked or not, leads from x to y. */
  ghost predicate Joined(adj: Adjacency, x: string, y: string) {
    exists e :: e in Edges(adj, x) && e.to == y
  }

  ghost predicate IsTrail(adj: Adjacency, p: seq<string>) {
    forall i :: 0 <= i < |p| - 1 ==> Joined(adj, p[i], p[i + 1])
  }

  /** A trail that returns to its start. */
  ghost predicate IsCycle(adj: Adjacency, c: seq<string>) {
    |c| > 1 && c[0] == c[|c| - 1] && IsTrail(adj, c)
  }

  /** The finished versions: their rules lead to versions finished earlier. */
  ghost predicate Finished(adj: Adjacency, black: set<string>, rank: map<string, nat>) {
    && rank.Keys == black
    && (forall x :: x in black ==> rank[x] < |black|)
    && (forall x, e :: x in black && e in Edges(adj, x) ==> e.to in black && rank[e.to] < rank[x])
  }

  lemma {:induction false} RankFalls(adj: Adjacency, black: set<string>, rank: map<string, nat>, p: seq<string>)
    requires Finished(adj, black, rank) && IsTrail(adj, p) && |p| > 1 && p[0] in black
    ensures p[|p| - 1] in black && rank[p[|p| - 1]] < rank[p[0]]
  {
    var n := |p| - 1;
    if n > 1 {
      assert IsTrail(adj, p[..n]);
      RankFalls(adj, black, rank, p[..n]);
    }
    assert Joined(adj, p[n - 1], p[n]);
  }

  /** When every version is finished there is no circle. */
  lemma AllFinished(adj: Adjacency, versions: set<string>, rank: map<string, nat>, c: seq<string>)
    requires WellFiled(adj, versions) && Finished(adj, versions, rank)
    ensures !IsCycle(adj, c)
  {
    if IsCycle(adj, c) {
      assert Joined(adj, c[0], c[1]);
      RankFalls(adj, versions, rank, c);
    }
  }

  /** The stack of the search: a trail without repetition through unfinished versions. */
  ghost predicate IsStack(adj: Adjacency, versions: set<string>, stack: seq<string>, black: set<string>) {
    && IsTrail(adj, stack) && NoDuplicates(stack)
    && (forall x :: x in stack ==> x in versions && x !in black)
  }

  /** The search with `path` as its stack and `black` finished. */
  ghost predicate Searching(adj: Adjacency, versions: set<string>, path: seq<string>, black: set<string>,
                            rank: map<string, nat>) {
    black <= versions && IsStack(adj, versions, path, black) && Finished(adj, black, rank)
  }

  /** The versions the search has not come to. */
  function White(versions: set<string>, path: seq<string>, black: set<string>): set<string> {
    set x | x in versions && x !in path && x !in black
  }

  lemma Push(adj: Adjacency, versions: set<string>, stack: seq<string>, black: set<string>, rank: map<string, nat>,
             v: string)
    requires Searching(adj, versions, stack, black, rank) && v in White(versions, stack, black)
    requires stack != [] ==> Joined(adj, stack[|stack| - 1], v)
    ensures Searching(adj, versions, stack + [v], black, rank)
    ensures |White(versions, stack + [v], black)| < |White(versions, stack, black)|
  {
    assert White(versions, stack + [v], black) == White(versions, stack, black) - {v};
  }

  /** A rule back to a version on the stack closes a circle. */
  lemma BackEdge(adj: Adjacency, stack: seq<string>, k: nat, to: string)
    requires IsTrail(adj, stack) && k < |stack| && stack[k] == to && Joined(adj, stack[|stack| - 1], to)
    ensures IsCycle(adj, stack[k..] + [to])
  {
    var c := stack[k..] + [to];
    forall i | 0 <= i < |c| - 1 ensures Joined(adj, c[i], c[i + 1]) {
      if i < |c| - 2 { assert Joined(adj, stack[k + i], stack[k + i + 1]); }
    }
  }

  ghost predicate Followed(edges: seq<Rule>, black: set<string>) {
    forall e :: e in edges ==> e.to in black
  }

  lemma EdgeOut(adj: Adjacency, versions: set<string>, v: string, i: nat)
    requires WellFiled(adj, versions) && i < |Edges(adj, v)|
    ensures Edges(adj, v)[i].to in versions && Joined(adj, v, Edges(adj, v)[i].to)
  {
    assert Edges(adj, v)[i] in Edges(adj, v);
  }

  /** With all its rules followed, the last version on the path is finished. */
  lemma Finish(adj: Adjacency, black: set<string>, rank: map<string, nat>, v: string, stack: seq<string>,
               versions: set<string>)
    requires Searching(adj, versions, stack + [v], black, rank) && Followed(Edges(adj, v), black)
    ensures Searching(adj, versions, stack, black + {v}, rank[v := |black|])
  {
    assert v in stack + [v];
    Pop(adj, versions, stack, black, v);
    RankNext(adj, black, rank, v);
  }

  lemma RankNext(adj: Adjacency, black: set<string>, rank: map<string, nat>, v: string)
    requires Finished(adj, black, rank) && v !in black && Followed(Edges(adj, v), black)
    ensures Finished(adj, black + {v}, rank[v := |black|])
  {
  }

  /** The part of the stack from `to` on, and `to` again. */
  method FormatCycle(stack: seq<string>, to: string) returns (c: seq<string>)
    requires to in stack
    ensures exists k: nat :: k < |stack| && stack[k] == to && c == stack[k..] + [to]
  {
    var k := 0;
    while stack[k] != to
      invariant 0 <= k < |stack| && to in stack[k..]
      decreases |stack| - k
    {
      assert stack[k..] == [stack[k]] + stack[k + 1..];
      k := k + 1;
    }
    c := stack[k..] + [to];
  }

  /** visit: finishes v and everything it leads to, or finds a circle. */
  method Visit(adj: Adjacency, versions: set<string>, v: string, stack: seq<string>, black: set<string>,
               ghost rank: map<string, nat>)
    returns (cycle: Option<seq<string>>, black': set<string>, ghost rank': map<string, nat>)
    requires WellFiled(adj, versions) && Searching(adj, versions, stack, black, rank)
    requires v in White(versions, stack, black) && (stack != [] ==> Joined(adj, stack[|stack| - 1], v))
    ensures cycle.Some? ==> IsCycle(adj, cycle.value)
    ensures cycle.None? ==> black + {v} <= black' && Searching(adj, versions, stack, black', rank')
    decreases |White(versions, stack, black)|, 0
  {
    Push(adj, versions, stack, black, rank, v);
    cycle, black', rank' := FollowAll(adj, versions, v, stack + [v], black, rank);
    if cycle.Some? { return; }
    Finish(adj, black', rank', v, stack, versions);
    rank' := rank'[v := |black'|];
    black' := black' + {v};
  }

  /** All rules out of the last version on the path. */
  method FollowAll(adj: Adjacency, versions: set<string>, v: string, path: seq<string>, black: set<string>,
                   ghost rank: map<string, nat>)
    returns (cycle: Option<seq<string>>, black': set<string>, ghost rank': map<string, nat>)
    requires WellFiled(adj, versions) && Searching(adj, versions, path, black, rank) && path != []
    requires path[|path| - 1] == v
    ensures cycle.Some? ==> IsCycle(adj, cycle.value)
    ensures cycle.None? ==>
              black <= black' && Searching(adj, versions, path, black', rank') && Followed(Edges(adj, v), black')
    decreases |White(versions, path, black)|, 2
  {
    cycle, black', rank' := None, black, rank;
    var edges := Edges(adj, v);
    for i := 0 to |edges|
      invariant cycle.None? && black <= black' && Searching(adj, versions, path, black', rank')
      invariant Followed(edges[..i], black')
    {
      EdgeOut(adj, versions, v, i);
      Fewer(versions, path, black, black');
      ghost var before := black';
      cycle, black', rank' := Follow(adj, versions, edges[i].to, path, black', rank');
      if cycle.Some? { return; }
      FollowedStep(edges, i, before, black');
    }
    assert edges[..|edges|] == edges;
  }

  lemma FollowedStep(edges: seq<Rule>, i: nat, black: set<string>, black': set<string>)
    requires i < |edges| && Followed(edges[..i], black) && black + {edges[i].to} <= black'
    ensures Followed(edges[..i + 1], black')
  {
    assert edges[..i + 1] == edges[..i] + [edges[i]];
  }

  /** One rule out of the last version on the path. */
  method Follow(adj: Adjacency, versions: set<string>, to: string, path: seq<string>, black: set<string>,
                ghost rank: map<string, nat>)
    returns (cycle: Option<seq<string>>, black': set<string>, ghost rank': map<string, nat>)
    requires WellFiled(adj, versions) && Searching(adj, versions, path, black, rank)
    requires path != [] && to in versions && Joined(adj, path[|path| - 1], to)
    ensures cycle.Some? ==> IsCycle(adj, cycle.value)
    ensures cycle.None? ==> black + {to} <= black' && Searching(adj, versions, path, black', rank')
    decreases |White(versions, path, black)|, 1
  {
    cycle, black', rank' := None, black, rank;
    if to in path {
      var c := FormatCycle(path, to);
      var k: nat :| k < |path| && path[k] == to && c == path[k..] + [to];
      BackEdge(adj, path, k, to);
      return Some(c), black', rank';
    }
    if to !in black {
      cycle, black', rank' := Visit(adj, versions, to, path, black, rank);
    }
  }

  lemma Fewer(versions: set<string>, path: seq<string>, black: set<string>, black': set<string>)
    requires black <= black'
    ensures |White(versions, path, black')| <= |White(versions, path, black)|
  {
    var a, b := White(versions, path, black'), White(versions, path, black);
    assert a + (b - a) == b;
  }

  lemma Pop(adj: Adjacency, versions: set<string>, stack: seq<string>, black: set<string>, v: string)
    requires IsStack(adj, versions, stack + [v], black)
    ensures IsStack(adj, versions, stack, black + {v})
  {
    var path := stack + [v];
    assert stack == path[..|stack|];
    forall i | 0 <= i < |stack| - 1 ensures Joined(adj, stack[i], stack[i + 1]) {
      assert Joined(adj, path[i], path[i + 1]);
    }
    forall i | 0 <= i < |stack| ensures stack[i] != v {
      assert path[i] != path[|stack|];
    }
    assert forall x :: x in stack ==> x in path;
  }

  /** Visits every version. */
  method VisitAll(adj: Adjacency, versions: set<string>) returns (cycle: Option<seq<string>>)
    requires WellFiled(adj, versions)
    ensures cycle.Some? ==> IsCycle(adj, cycle.value)
    ensures cycle.None? ==> forall c :: !IsCycle(adj, c)
  {
    var black: set<string> := {};
    ghost var rank: map<string, nat> := map[];
    var rest := versions;
    while rest != {}
      invariant rest <= versions && versions - rest <= black && Searching(adj, versions, [], black, rank)
      decreases rest
    {
      var v :| v in rest;
      rest := rest - {v};
      if v !in black {
        cycle, black, rank := Visit(adj, versions, v, [], black, rank);
        if cycle.Some? { return; }
      }
    }
    assert black == versions;
    forall c ensures !IsCycle(adj, c) {
      AllFinished(adj, versions, rank, c);
    }
    cycle := None;
  }

  /** Rules lead from each version of c to the next one, and back to the first. */
  ghost predicate Circle(rules: seq<Rule>, c: seq<string>) {
    && |c| > 1 && c[0] == c[|c| - 1]
    && forall i :: 0 <= i < |c| - 1 ==> exists e :: e in rules && e.from == c[i] && e.to == c[i + 1]
  }

  lemma CircleIsCycle(rules: seq<Rule>, adj: Adjacency, versions: set<string>, c: seq<string>)
    requires Offers(adj, rules) && WellFiled(adj, versions)
    ensures Circle(rules, c) <==> IsCycle(adj, c)
  {
    forall x, y ensures Joined(adj, x, y) <==> exists e :: e in rules && e.from == x && e.to == y {
      if Joined(adj, x, y) {
        var e :| e in Edges(adj, x) && e.to == y;
        assert e in rules && e.from == x;
      }
    }
    if Circle(rules, c) {
      forall i | 0 <= i < |c| - 1 ensures Joined(adj, c[i], c[i + 1]) {
      }
    }
    if IsCycle(adj, c) {
      forall i | 0 <= i < |c| - 1 ensures exists e :: e in rules && e.from == c[i] && e.to == c[i + 1] {
        assert Joined(adj, c[i], c[i + 1]);
      }
    }
  }

  /** DetectCycle: reports a circle exactly when the rules lead round in one. */
  method DetectCycle(rules: seq<Rule>) returns (cycle: Option<seq<string>>)
    ensures cycle.Some? ==> Circle(rules, cycle.value)
    ensures cycle.None? ==> forall c :: !Circle(rules, c)
  {
    var adj, versions := BuildGraph(rules);
    cycle := VisitAll(adj, versions);
    if cycle.Some? {
      CircleIsCycle(rules, adj, versions, cycle.value);
    } else {
      forall c ensures !Circle(rules, c) {
        CircleIsCycle(rules, adj, versions, c);
      }
    }
  }

  // Loading ----------------------------------------------------------------------------------

  /**
   Load: replaces the catalog exactly when the rules are valid and lead round in no circle, and
   leaves it alone otherwise.
   */
  method Load(service: Service, rules: seq<Rule>) returns (r: Result<(), RuleError>)
    requires service.Valid()
    modifies service
    ensures service.Valid()
    ensures r.Ok? <==> ValidRules(rules) && forall c :: !Circle(rules, c)
    ensures r.Ok? ==> Offers(service.adj, rules) && service.versions == Ends(rules)
    ensures r.Err? ==> service.adj == old(service.adj) && service.versions == old(service.versions)
    ensures r.Err? && r.error.CycleDetected? ==> Circle(rules, r.error.cycle)
  {
    r := ValidateRules(rules);
    if r.Err? { return; }
    var cycle := DetectCycle(rules);
    if cycle.Some? { return Err(CycleDetected(cycle.value)); }
    service.Replace(rules);
    r := Ok(());
  }
}
