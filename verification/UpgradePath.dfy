/**
 The catalog of allowed upgrades and its path search (pkg/upgradepath/graph.go).
 */
module UpgradePath {
  import opened Wrappers
  import opened Collections

  /** An upgrade rule with the names of its checks. */
  datatype Rule = Rule(from: string, to: string, blocked: bool, checks: seq<string> := [])

  datatype PathError = VersionNotFound(version: string) | NoPath

  type Adjacency = map<string, seq<Rule>>

  function Edges(adj: Adjacency, v: string): seq<Rule> {
    if v in adj then adj[v] else []
  }

  /** Every edge is filed under its own start, and both its ends are known versions. */
  ghost predicate WellFiled(adj: Adjacency, versions: set<string>) {
    forall v, e :: v in adj && e in adj[v] ==> e.from == v && v in versions && e.to in versions
  }

  /** The version a walk along `path` ends at. */
  function End(from: string, path: seq<Rule>): string {
    if path == [] then from else path[|path| - 1].to
  }

  /** A walk along unblocked edges that starts at `from`. */
  ghost predicate IsWalk(adj: Adjacency, from: string, path: seq<Rule>) {
    forall i :: 0 <= i < |path| ==> StepAt(adj, from, path, i)
  }

  /** Step i takes an unblocked edge from where the steps before it lead. */
  ghost predicate StepAt(adj: Adjacency, from: string, path: seq<Rule>, i: int)
    requires 0 <= i < |path|
  {
    var at := if i == 0 then from else path[i - 1].to;
    path[i] in Edges(adj, at) && path[i].from == at && !path[i].blocked
  }

  ghost predicate Leads(adj: Adjacency, from: string, path: seq<Rule>, to: string) {
    IsWalk(adj, from, path) && End(from, path) == to
  }

  /** No walk from `from` to `to` is shorter. */
  ghost predicate Shortest(adj: Adjacency, from: string, path: seq<Rule>, to: string) {
    && Leads(adj, from, path, to)
    && forall q :: Leads(adj, from, q, to) ==> |path| <= |q|
  }

  ghost predicate Connected(adj: Adjacency, from: string, to: string) {
    exists q :: Leads(adj, from, q, to)
  }

  lemma WalkPrefix(adj: Adjacency, from: string, path: seq<Rule>, k: nat)
    requires IsWalk(adj, from, path) && k <= |path|
    ensures IsWalk(adj, from, path[..k])
  {
    forall i | 0 <= i < k
      ensures StepAt(adj, from, path[..k], i)
    {
      assert StepAt(adj, from, path, i);
    }
  }

  lemma WalkExtend(adj: Adjacency, from: string, path: seq<Rule>, e: Rule)
    requires IsWalk(adj, from, path)
    requires e in Edges(adj, End(from, path)) && e.from == End(from, path) && !e.blocked
    ensures IsWalk(adj, from, path + [e]) && End(from, path + [e]) == e.to
  {
    var p := path + [e];
    forall i | 0 <= i < |p|
      ensures StepAt(adj, from, p, i)
    {
      assert i < |path| ==> StepAt(adj, from, path, i);
    }
  }

  /** Dropping the first edge of a walk leaves a walk from that edge's end. */
  lemma WalkTail(adj: Adjacency, from: string, path: seq<Rule>)
    requires IsWalk(adj, from, path) && path != []
    ensures IsWalk(adj, path[0].to, path[1..]) && End(path[0].to, path[1..]) == End(from, path)
    ensures path[0] in Edges(adj, from) && path[0].from == from && !path[0].blocked
  {
    assert StepAt(adj, from, path, 0);
    forall i | 0 <= i < |path| - 1
      ensures StepAt(adj, path[0].to, path[1..], i)
    {
      assert StepAt(adj, from, path, i + 1);
    }
  }

  /** Putting an edge in front of a walk gives a walk. */
  lemma WalkCons(adj: Adjacency, e: Rule, path: seq<Rule>)
    requires e in Edges(adj, e.from) && !e.blocked && IsWalk(adj, e.to, path)
    ensures IsWalk(adj, e.from, [e] + path) && End(e.from, [e] + path) == End(e.to, path)
  {
    var p := [e] + path;
    forall i | 0 <= i < |p|
      ensures StepAt(adj, e.from, p, i)
    {
      assert i > 0 ==> StepAt(adj, e.to, path, i - 1);
    }
  }

  /** A shortest walk takes one step closer to its end. */
  lemma ShortestTail(adj: Adjacency, from: string, path: seq<Rule>, to: string)
    requires Shortest(adj, from, path, to) && path != []
    ensures Shortest(adj, path[0].to, path[1..], to)
  {
    WalkTail(adj, from, path);
    forall q | Leads(adj, path[0].to, q, to)
      ensures |path[1..]| <= |q|
    {
      WalkCons(adj, path[0], q);
      assert Leads(adj, from, [path[0]] + q, to);
    }
  }

  /** Both ends of a path are versions of the catalog; staying put needs no path. */
  lemma ConnectedVersions(adj: Adjacency, versions: set<string>, from: string, to: string)
    requires WellFiled(adj, versions)
    ensures from == to ==> Connected(adj, from, to)
    ensures Connected(adj, from, to) && from != to ==> from in versions && to in versions
  {
    if from == to {
      assert Leads(adj, from, [], to);
    } else if Connected(adj, from, to) {
      var q :| Leads(adj, from, q, to);
      assert StepAt(adj, from, q, 0) && StepAt(adj, from, q, |q| - 1);
    }
  }

  // Breadth-first search ---------------------------------------------------

  datatype Item = Item(version: string, path: seq<Rule>)

  ghost predicate OnLevel(adj: Adjacency, from: string, items: seq<Item>, depth: nat) {
    forall k :: 0 <= k < |items| ==> AtDepth(adj, from, items[k], depth)
  }

  /** The item holds a walk of `depth` edges to its version. */
  ghost predicate AtDepth(adj: Adjacency, from: string, item: Item, depth: nat) {
    Leads(adj, from, item.path, item.version) && |item.path| == depth
  }

  ghost function Versions(items: seq<Item>): set<string> {
    set k | 0 <= k < |items| :: items[k].version
  }

  /** Every unblocked edge out of v ends in `visited`. */
  ghost predicate Expanded(adj: Adjacency, visited: set<string>, v: string) {
    forall e :: e in Edges(adj, v) && !e.blocked ==> e.to in visited
  }

  /** Everything within `depth` edges is visited, and only `open` is not expanded yet. */
  ghost predicate Searched(adj: Adjacency, from: string, visited: set<string>, open: set<string>, depth: nat) {
    && from in visited
    && (forall q :: IsWalk(adj, from, q) && |q| <= depth ==> End(from, q) in visited)
    && forall v :: v in visited && v !in open ==> Expanded(adj, visited, v)
  }

  /** With every visited version expanded, one more edge stays within `visited`. */
  lemma SearchDeeper(adj: Adjacency, from: string, visited: set<string>, open: set<string>, before: set<string>,
                     depth: nat)
    requires before <= visited && Searched(adj, from, before, open, depth)
    requires forall v :: v in before ==> Expanded(adj, visited, v)
    ensures Searched(adj, from, visited, visited - before, depth + 1)
  {
    forall q | IsWalk(adj, from, q) && |q| <= depth + 1
      ensures End(from, q) in visited
    {
      if |q| > 0 {
        var n := |q| - 1;
        WalkPrefix(adj, from, q, n);
        assert End(from, q[..n]) in before;
        assert StepAt(adj, from, q, n);
      }
    }
  }

  lemma {:induction false} NothingOpen(adj: Adjacency, from: string, visited: set<string>, depth: nat, q: seq<Rule>)
    requires Searched(adj, from, visited, {}, depth) && IsWalk(adj, from, q)
    ensures End(from, q) in visited
  {
    if |q| > 0 {
      var n := |q| - 1;
      WalkPrefix(adj, from, q, n);
      NothingOpen(adj, from, visited, depth, q[..n]);
      assert StepAt(adj, from, q, n);
      assert Expanded(adj, visited, End(from, q[..n]));
    }
  }

  // Loading -----------------------------------------------------------------

  function Ends(rules: seq<Rule>): set<string> {
    (set e | e in rules :: e.from) + (set e | e in rules :: e.to)
  }

  ghost predicate Offers(adj: Adjacency, rules: seq<Rule>) {
    forall e :: e in rules <==> e in Edges(adj, e.from)
  }

  lemma FileRule(adj: Adjacency, rules: seq<Rule>, i: nat)
    requires i < |rules| && Offers(adj, rules[..i])
    ensures var rule := rules[i];
            var filed := adj[rule.from := Edges(adj, rule.from) + [rule]];
            && Offers(filed, rules[..i + 1])
            && (rule.to !in filed ==> Offers(filed[rule.to := []], rules[..i + 1]))
            && Ends(rules[..i + 1]) == Ends(rules[..i]) + {rule.from, rule.to}
  {
    var rule := rules[i];
    var filed := adj[rule.from := Edges(adj, rule.from) + [rule]];
    assert rules[..i + 1] == rules[..i] + [rule];
    OffersExtend(adj, rules[..i], rule);
    if rule.to !in filed { OffersEmpty(filed, rules[..i + 1], rule.to); }
  }

  lemma OffersExtend(adj: Adjacency, rules: seq<Rule>, rule: Rule)
    requires Offers(adj, rules)
    ensures Offers(adj[rule.from := Edges(adj, rule.from) + [rule]], rules + [rule])
  {
  }

  lemma OffersEmpty(adj: Adjacency, rules: seq<Rule>, v: string)
    requires Offers(adj, rules) && v !in adj
    ensures Offers(adj[v := []], rules)
  {
  }

  /** Files every rule under its start and makes both its ends versions. */
  method BuildGraph(rules: seq<Rule>) returns (adj: Adjacency, versions: set<string>)
    ensures WellFiled(adj, versions) && Offers(adj, rules) && versions == Ends(rules)
  {
    adj, versions := map[], {};
    for i := 0 to |rules|
      invariant WellFiled(adj, versions) && versions == Ends(rules[..i])
      invariant Offers(adj, rules[..i])
    {
      var rule := rules[i];
      FileRule(adj, rules, i);
      adj := adj[rule.from := Edges(adj, rule.from) + [rule]];
      if rule.to !in adj { adj := adj[rule.to := []]; }
      versions := versions + {rule.from, rule.to};
    }
    assert rules[..|rules|] == rules;
  }

  class Service {
    var adj: Adjacency
    var versions: set<string>

    ghost predicate Valid()
      reads this
    {
      WellFiled(adj, versions)
    }

    constructor ()
      ensures Valid() && adj == map[] && versions == {}
    {
      adj := map[];
      versions := {};
    }

    /** Replaces the catalog: it offers the rules it is given and no others. */
    method Replace(rules: seq<Rule>)
      modifies this
      ensures Valid() && Offers(adj, rules) && versions == Ends(rules)
    {
      adj, versions := BuildGraph(rules);
    }

    /**
     The level-by-level search returns a shortest unblocked path, and reports that
     there is none exactly when there is none.
     */
    method FindPath(from: string, to: string) returns (r: Result<seq<Rule>, PathError>)
      requires Valid()
      ensures from == to ==> r == Ok([])
      ensures from != to && from !in versions ==> r == Err(VersionNotFound(from))
      ensures from != to && from in versions && to !in versions ==> r == Err(VersionNotFound(to))
      ensures r.Ok? ==> Shortest(adj, from, r.value, to) && (from != to ==> r.value != [])
      ensures from != to && from in versions && to in versions ==> (r.Ok? <==> Connected(adj, from, to))
      ensures from in versions && to in versions && r.Err? ==> r == Err(NoPath)
    {
      if from == to {
        assert Leads(adj, from, [], to);
        return Ok([]);
      }
      if from !in versions { return Err(VersionNotFound(from)); }
      if to !in versions { return Err(VersionNotFound(to)); }
      var visited := {from};
      var level := [Item(from, [])];
      ghost var depth := 0;
      StartSearch(adj, from);
      while |level| > 0
        invariant visited <= versions && to !in visited
        invariant OnLevel(adj, from, level, depth) && Searched(adj, from, visited, Versions(level), depth)
        decreases |versions - visited|, |level|
      {
        var hit, seen, next := Expand(from, to, level, visited, depth);
        if hit.Some? {
          ShortestHit(adj, from, to, visited, Versions(level), depth, hit.value);
          return Ok(hit.value);
        }
        SearchDeeper(adj, from, seen, Versions(level), visited, depth);
        LevelShrinks(versions, visited, seen, next);
        visited, level, depth := seen, next, depth + 1;
      }
      forall q | IsWalk(adj, from, q)
        ensures End(from, q) != to
      {
        NothingOpen(adj, from, visited, depth, q);
      }
      return Err(NoPath);
    }

    /** One level: either an edge into `to`, or every version on the level expanded. */
    method Expand(from: string, to: string, level: seq<Item>, visited: set<string>, ghost depth: nat)
      returns (hit: Option<seq<Rule>>, seen: set<string>, next: seq<Item>)
      requires Valid() && visited <= versions && to !in visited && OnLevel(adj, from, level, depth)
      requires forall v :: v in visited && v !in Versions(level) ==> Expanded(adj, visited, v)
      ensures hit.Some? ==> Leads(adj, from, hit.value, to) && |hit.value| == depth + 1
      ensures hit.None? ==> visited <= seen <= versions && to !in seen && OnLevel(adj, from, next, depth + 1)
      ensures hit.None? ==> Versions(next) == seen - visited
      ensures hit.None? ==> forall v :: v in visited ==> Expanded(adj, seen, v)
    {
      hit, seen, next := None, visited, [];
      for k := 0 to |level|
        invariant hit.None? && Growing(adj, versions, from, to, visited, seen, next, depth)
        invariant ExpandedUpTo(adj, seen, level, k)
      {
        ghost var before := seen;
        hit, seen, next := ExpandOne(from, to, level[k], seen, next, visited, depth);
        if hit.Some? { return; }
        ExpandedGrows(adj, level, k, before, seen);
      }
      LevelExpanded(adj, level, visited, seen);
    }

    method ExpandOne(from: string, to: string, item: Item, seen0: set<string>, next0: seq<Item>,
                     ghost visited: set<string>, ghost depth: nat)
      returns (hit: Option<seq<Rule>>, seen: set<string>, next: seq<Item>)
      requires Valid() && Leads(adj, from, item.path, item.version) && |item.path| == depth
      requires Growing(adj, versions, from, to, visited, seen0, next0, depth)
      ensures hit.Some? ==> Leads(adj, from, hit.value, to) && |hit.value| == depth + 1
      ensures hit.None? ==> seen0 <= seen && Growing(adj, versions, from, to, visited, seen, next, depth)
      ensures hit.None? ==> Expanded(adj, seen, item.version)
    {
      hit, seen, next := None, seen0, next0;
      var edges := Edges(adj, item.version);
      for i := 0 to |edges|
        invariant hit.None? && seen0 <= seen && Growing(adj, versions, from, to, visited, seen, next, depth)
        invariant forall j :: 0 <= j < i ==> edges[j].blocked || edges[j].to in seen
      {
        var e := edges[i];
        if e.blocked || e.to in seen { continue; }
        assert e in adj[item.version];
        EdgeTaken(adj, versions, from, to, item, e, visited, seen, next, depth);
        var path := item.path + [e];
        if e.to == to { return Some(path), seen, next; }
        seen := seen + {e.to};
        next := next + [Item(e.to, path)];
      }
    }
  }

  /** The next level under construction: what `seen` adds to `visited`, each with a walk to it. */
  ghost predicate Growing(adj: Adjacency, versions: set<string>, from: string, to: string,
                          visited: set<string>, seen: set<string>, next: seq<Item>, depth: nat) {
    && visited <= seen <= versions && to !in seen
    && OnLevel(adj, from, next, depth + 1) && Versions(next) == seen - visited
  }

  /** Following an unblocked edge reaches its end one level deeper. */
  lemma EdgeTaken(adj: Adjacency, versions: set<string>, from: string, to: string, item: Item, e: Rule,
                  visited: set<string>, seen: set<string>, next: seq<Item>, depth: nat)
    requires Leads(adj, from, item.path, item.version) && |item.path| == depth
    requires e in Edges(adj, item.version) && e.from == item.version && !e.blocked
    requires Growing(adj, versions, from, to, visited, seen, next, depth)
    requires e.to !in seen && e.to in versions
    ensures Leads(adj, from, item.path + [e], e.to)
    ensures e.to != to ==>
              Growing(adj, versions, from, to, visited, seen + {e.to}, next + [Item(e.to, item.path + [e])], depth)
  {
    WalkExtend(adj, from, item.path, e);
    var added := Item(e.to, item.path + [e]);
    VersionsExtend(next, added);
    LevelExtend(adj, from, next, added, depth + 1);
  }

  lemma LevelExtend(adj: Adjacency, from: string, items: seq<Item>, item: Item, depth: nat)
    requires OnLevel(adj, from, items, depth) && AtDepth(adj, from, item, depth)
    ensures OnLevel(adj, from, items + [item], depth)
  {
  }

  lemma StartSearch(adj: Adjacency, from: string)
    ensures OnLevel(adj, from, [Item(from, [])], 0)
    ensures Searched(adj, from, {from}, Versions([Item(from, [])]), 0)
  {
    var items := [Item(from, [])];
    assert items[0].version in Versions(items);
  }

  lemma VersionsExtend(items: seq<Item>, item: Item)
    ensures Versions(items + [item]) == Versions(items) + {item.version}
  {
    var all := items + [item];
    forall k | 0 <= k < |items| ensures items[k].version in Versions(all) {
      assert all[k] == items[k];
    }
    assert all[|items|] == item;
  }

  ghost predicate ExpandedUpTo(adj: Adjacency, seen: set<string>, level: seq<Item>, k: nat) {
    forall j :: 0 <= j < k && j < |level| ==> Expanded(adj, seen, level[j].version)
  }

  lemma ExpandedGrows(adj: Adjacency, level: seq<Item>, k: nat, before: set<string>, seen: set<string>)
    requires k < |level| && before <= seen
    requires ExpandedUpTo(adj, before, level, k) && Expanded(adj, seen, level[k].version)
    ensures ExpandedUpTo(adj, seen, level, k + 1)
  {
  }

  lemma LevelExpanded(adj: Adjacency, level: seq<Item>, visited: set<string>, seen: set<string>)
    requires ExpandedUpTo(adj, seen, level, |level|) && visited <= seen
    requires forall v :: v in visited && v !in Versions(level) ==> Expanded(adj, visited, v)
    ensures forall v :: v in visited ==> Expanded(adj, seen, v)
  {
    forall v | v in visited ensures Expanded(adj, seen, v) {
      assert v !in Versions(level) ==> Expanded(adj, visited, v);
    }
  }

  lemma ShortestHit(adj: Adjacency, from: string, to: string, visited: set<string>, open: set<string>, depth: nat,
                    path: seq<Rule>)
    requires Searched(adj, from, visited, open, depth) && to !in visited
    requires Leads(adj, from, path, to) && |path| == depth + 1
    ensures Shortest(adj, from, path, to) && Connected(adj, from, to)
  {
  }

  lemma LevelShrinks(versions: set<string>, visited: set<string>, seen: set<string>, next: seq<Item>)
    requires visited <= seen <= versions && Versions(next) == seen - visited
    ensures if next == [] then seen == visited else |versions - seen| < |versions - visited|
  {
    if next == [] {
      assert Versions(next) == {};
      assert seen == visited + (seen - visited);
    } else {
      var x := next[0].version;
      assert x in Versions(next);
      RestShrinks(versions, visited, seen, x);
    }
  }
}
