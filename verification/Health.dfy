/**
 The staged health check of a cluster (pkg/kube/health_unified.go) over cached lists
 (pkg/kube/health_cache.go): nodes first, then the components by priority, and a verdict
 whose error tree tells when to check again.

 The lists of nodes and pods are a fixed snapshot; a list that cannot be read is None.
 */
module Health {
  import opened Wrappers

  datatype Priority = Critical | Important | Optional | Other(n: int)

  datatype Node = Node(name: string, skip: bool, healthy: bool)

  datatype Pod = Pod(name: string, healthy: bool)

  datatype Component = Component(name: string, namespace: string, prefixes: seq<string>, priority: Priority)

  datatype Snapshot = Snapshot(nodes: Option<seq<Node>>, pods: map<string, seq<Pod>>)

  // The simple check ----------------------------------------------------------------

  predicate NodeFine(n: Node) {
    n.skip || n.healthy
  }

  predicate NodesFine(s: Snapshot) {
    s.nodes.Some? && forall n :: n in s.nodes.value ==> NodeFine(n)
  }

  /** Some pod has the prefix and, for coredns one, otherwise all of them are healthy. */
  predicate PrefixFine(pods: seq<Pod>, prefix: string) {
    && (exists p :: p in pods && prefix <= p.name && (prefix == "coredns" ==> p.healthy))
    && (prefix != "coredns" ==> forall p :: p in pods && prefix <= p.name ==> p.healthy)
  }

  predicate ComponentFine(s: Snapshot, c: Component) {
    c.namespace in s.pods && forall prefix :: prefix in c.prefixes ==> PrefixFine(s.pods[c.namespace], prefix)
  }

  predicate GroupFine(s: Snapshot, cs: seq<Component>) {
    forall c :: c in cs ==> ComponentFine(s, c)
  }

  predicate AllFine(s: Snapshot, cs: seq<Component>) {
    NodesFine(s) && GroupFine(s, cs)
  }

  /** Everything is fine when the nodes can be listed and none that counts is unhealthy, the pods of
      every component can be listed, and for each of its prefixes there is a pod with it; for
      coredns one of them is healthy, for any other prefix none is unhealthy. */
  lemma FineMeans(s: Snapshot, cs: seq<Component>)
    ensures AllFine(s, cs) <==>
              && s.nodes.Some? && !(exists n :: n in s.nodes.value && !n.skip && !n.healthy)
              && forall c :: c in cs ==> c.namespace in s.pods && forall prefix :: prefix in c.prefixes ==>
                   var pods := s.pods[c.namespace];
                   if prefix == "coredns" then exists p :: p in pods && prefix <= p.name && p.healthy
                   else && (exists p :: p in pods && prefix <= p.name)
                        && !(exists p :: p in pods && prefix <= p.name && !p.healthy)
  {
    forall c | c in cs && c.namespace in s.pods
      ensures forall prefix :: prefix in c.prefixes ==>
                (PrefixFine(s.pods[c.namespace], prefix) <==>
                 var pods := s.pods[c.namespace];
                 if prefix == "coredns" then exists p :: p in pods && prefix <= p.name && p.healthy
                 else && (exists p :: p in pods && prefix <= p.name)
                      && !(exists p :: p in pods && prefix <= p.name && !p.healthy))
    {
    }
  }

  // Errors ----------------------------------------------------------------------------

  datatype Error =
    | Plain
    | HealthError(priority: Priority, cause: Error)
    | Wrapped(inner: Error)
    | Aggregate(errs: seq<Error>)
    | Joined(parts: seq<Error>)

  /** errors.As: the first health error along the chain of causes; it looks into joined
      errors but not into an aggregate. */
  function AsHealth(e: Error): Option<Priority> {
    match e
    case Plain => None
    case HealthError(p, _) => Some(p)
    case Wrapped(inner) => AsHealth(inner)
    case Aggregate(_) => None
    case Joined(parts) => FirstHealth(parts)
  }

  function FirstHealth(parts: seq<Error>): Option<Priority> {
    if parts == [] then None
    else if AsHealth(parts[0]).Some? then AsHealth(parts[0])
    else FirstHealth(parts[1..])
  }

  /** Of joined errors the first that holds a health error counts. */
  lemma {:induction false} FirstHealthIs(parts: seq<Error>, k: nat)
    requires k < |parts| && AsHealth(parts[k]).Some? && forall i :: 0 <= i < k ==> AsHealth(parts[i]).None?
    ensures AsHealth(Joined(parts)) == AsHealth(parts[k])
  {
    if k > 0 { FirstHealthIs(parts[1..], k - 1); }
  }

  predicate HasPriority(e: Error, target: Priority) {
    || AsHealth(e) == Some(target)
    || (match e
        case Plain => false
        case HealthError(_, cause) => HasPriority(cause, target)
        case Wrapped(inner) => HasPriority(inner, target)
        case Aggregate(errs) => exists x :: x in errs && HasPriority(x, target)
        case Joined(parts) => exists x :: x in parts && HasPriority(x, target))
  }

  /** A health error of this priority occurs somewhere in the tree. */
  predicate Occurs(e: Error, target: Priority) {
    match e
    case Plain => false
    case HealthError(p, cause) => p == target || Occurs(cause, target)
    case Wrapped(inner) => Occurs(inner, target)
    case Aggregate(errs) => exists x :: x in errs && Occurs(x, target)
    case Joined(parts) => exists x :: x in parts && Occurs(x, target)
  }

  lemma {:induction false} AsHealthOccurs(e: Error)
    ensures AsHealth(e).Some? ==> Occurs(e, AsHealth(e).value)
  {
    match e
    case Plain =>
    case HealthError(_, _) =>
    case Wrapped(inner) => AsHealthOccurs(inner);
    case Aggregate(_) =>
    case Joined(parts) => FirstHealthOccurs(parts);
  }

  lemma {:induction false} FirstHealthOccurs(parts: seq<Error>)
    ensures FirstHealth(parts).Some? ==> exists x :: x in parts && Occurs(x, FirstHealth(parts).value)
  {
    if parts != [] {
      AsHealthOccurs(parts[0]);
      FirstHealthOccurs(parts[1..]);
      assert AsHealth(parts[0]).Some? ==> parts[0] in parts;
    }
  }

  /** The search with its shortcut finds a priority exactly when it occurs in the tree. */
  lemma {:induction false} HasPriorityIsOccurs(e: Error, target: Priority)
    ensures HasPriority(e, target) <==> Occurs(e, target)
  {
    AsHealthOccurs(e);
    match e
    case Plain =>
    case HealthError(_, cause) => HasPriorityIsOccurs(cause, target);
    case Wrapped(inner) => HasPriorityIsOccurs(inner, target);
    case Aggregate(errs) =>
      forall x | x in errs ensures HasPriority(x, target) <==> Occurs(x, target) {
        HasPriorityIsOccurs(x, target);
      }
    case Joined(parts) =>
      forall x | x in parts ensures HasPriority(x, target) <==> Occurs(x, target) {
        HasPriorityIsOccurs(x, target);
      }
  }

  datatype Intervals = Intervals(critical: int, important: int, optional: int, normal: int)

  function RequeueInterval(e: Option<Error>, t: Intervals): int {
    if e.None? then t.normal
    else if HasPriority(e.value, Critical) then t.critical
    else if HasPriority(e.value, Important) then t.important
    else t.optional
  }

  /** Health errors of this priority, and of no other, occur. */
  ghost predicate Only(e: Error, p: Priority) {
    forall q :: Occurs(e, q) <==> q == p
  }

  function NewAggregate(errs: seq<Error>): Option<Error> {
    if errs == [] then None else Some(Aggregate(errs))
  }

  ghost predicate AllOnly(errs: seq<Error>, p: Priority) {
    forall e :: e in errs ==> Only(e, p)
  }

  lemma AggregateOnly(errs: seq<Error>, p: Priority)
    requires errs != [] && AllOnly(errs, p)
    ensures Only(Aggregate(errs), p)
  {
    assert errs[0] in errs && Only(errs[0], p);
  }

  function HealthErrorOf(p: Priority): (e: Error)
    ensures Only(e, p)
  {
    HealthError(p, Plain)
  }

  // The staged check ---------------------------------------------------------------------

  /** The highest priority that fails in the simple check. */
  ghost function ExpectedInterval(s: Snapshot, cs: seq<Component>, t: Intervals): int {
    if AllFine(s, cs) then t.normal
    else if !NodesFine(s) || Failing(s, cs, Critical) then t.critical
    else if Failing(s, cs, Important) then t.important
    else t.optional
  }

  ghost predicate Failing(s: Snapshot, cs: seq<Component>, p: Priority) {
    exists c :: c in cs && c.priority == p && !ComponentFine(s, c)
  }

  /** The errors of a group: none when it is fine, and of the priorities that fail in it. */
  ghost predicate Faults(s: Snapshot, cs: seq<Component>, errs: seq<Error>) {
    && (errs == [] <==> GroupFine(s, cs))
    && forall p :: (exists e :: e in errs && Occurs(e, p)) <==> Failing(s, cs, p)
  }

  ghost predicate Grouped(cs: seq<Component>, critical: seq<Component>, important: seq<Component>,
                          optional: seq<Component>) {
    && (forall c :: c in cs <==> c in critical || c in important || c in optional)
    && (forall c :: c in critical ==> c.priority.Critical?)
    && (forall c :: c in important ==> c.priority.Important?)
    && (forall c :: c in optional ==> !c.priority.Critical? && !c.priority.Important?)
  }

  /** The verdict is right: no error exactly when everything is fine, else the priorities show. */
  ghost predicate Verdict(s: Snapshot, cs: seq<Component>, e: Option<Error>) {
    && (e.None? <==> AllFine(s, cs))
    && (e.Some? ==> (Occurs(e.value, Critical) <==> !NodesFine(s) || Failing(s, cs, Critical)))
    && (e.Some? && !Occurs(e.value, Critical) ==> (Occurs(e.value, Important) <==> Failing(s, cs, Important)))
  }

  /** The interval read back from the error tree is that of the highest failing priority. */
  lemma IntervalIsRight(s: Snapshot, cs: seq<Component>, e: Option<Error>, t: Intervals)
    requires Verdict(s, cs, e)
    ensures RequeueInterval(e, t) == ExpectedInterval(s, cs, t)
  {
    if e.Some? {
      HasPriorityIsOccurs(e.value, Critical);
      HasPriorityIsOccurs(e.value, Important);
    }
  }

  lemma FaultsStep(s: Snapshot, cs: seq<Component>, errs: seq<Error>, c: Component, e: Option<Error>)
    requires Faults(s, cs, errs) && (e.None? <==> ComponentFine(s, c)) && (e.Some? ==> Only(e.value, c.priority))
    ensures Faults(s, cs + [c], if e.None? then errs else errs + [e.value])
  {
    var errs' := if e.None? then errs else errs + [e.value];
    forall p ensures (exists x :: x in errs' && Occurs(x, p)) <==> Failing(s, cs + [c], p) {
      assert Failing(s, cs, p) ==> Failing(s, cs + [c], p) by {
        if d :| d in cs && d.priority == p && !ComponentFine(s, d) { assert d in cs + [c]; }
      }
      assert e.Some? ==> (Occurs(e.value, p) <==> c.priority == p);
      assert e.Some? ==> e.value in errs' && c in cs + [c];
      assert forall x :: x in errs ==> x in errs';
    }
  }

  lemma FaultsSame(s: Snapshot, cs: seq<Component>, ds: seq<Component>, errs: seq<Error>)
    requires Faults(s, cs, errs) && forall c :: c in cs <==> c in ds
    ensures Faults(s, ds, errs)
  {
    forall p ensures Failing(s, cs, p) <==> Failing(s, ds, p) {
    }
  }

  lemma StagesGiveVerdict(s: Snapshot, cs: seq<Component>, critical: seq<Component>, important: seq<Component>,
                          optional: seq<Component>,
                          errs2: seq<Error>, errs3: seq<Error>)
    requires NodesFine(s) && Grouped(cs, critical, important, optional) && GroupFine(s, critical)
    requires Faults(s, important, errs2) && Faults(s, optional, errs3)
    ensures Verdict(s, cs, NewAggregate(errs2 + errs3))
  {
    var all := errs2 + errs3;
    forall p ensures (exists x :: x in all && Occurs(x, p)) <==> Failing(s, important, p) || Failing(s, optional, p) {
      assert forall x :: x in all <==> x in errs2 || x in errs3;
    }
    assert !Failing(s, cs, Critical) && !Failing(s, important, Critical) && !Failing(s, optional, Critical);
    assert !Failing(s, optional, Important);
    assert Failing(s, cs, Important) <==> Failing(s, important, Important);
    assert forall p :: Occurs(Aggregate(all), p) <==> exists x :: x in all && Occurs(x, p);
    assert GroupFine(s, cs) <==> GroupFine(s, important) && GroupFine(s, optional);
  }

  class Cache {
    const snapshot: Snapshot
    var nodes: Option<seq<Node>>
    var pods: map<string, seq<Pod>>

    constructor (snapshot: Snapshot)
      ensures this.snapshot == snapshot && Valid()
    {
      this.snapshot, nodes, pods := snapshot, None, map[];
    }

    /** What is cached is what the snapshot holds. */
    predicate Valid()
      reads this
    {
      && (nodes.Some? ==> nodes == snapshot.nodes)
      && forall ns :: ns in pods ==> ns in snapshot.pods && pods[ns] == snapshot.pods[ns]
    }

    method GetNodes() returns (r: Option<seq<Node>>)
      requires Valid()
      modifies this
      ensures Valid() && r == snapshot.nodes
    {
      if nodes.None? { nodes := snapshot.nodes; }
      r := nodes;
    }

    method GetPods(namespace: string) returns (r: Option<seq<Pod>>)
      requires Valid()
      modifies this
      ensures Valid() && r == if namespace in snapshot.pods then Some(snapshot.pods[namespace]) else None
    {
      if namespace in pods { return Some(pods[namespace]); }
      if namespace !in snapshot.pods { return None; }
      pods := pods[namespace := snapshot.pods[namespace]];
      r := Some(pods[namespace]);
    }
  }

  class Checker {
    const cache: Cache
    const components: seq<Component>

    constructor (cache: Cache, components: seq<Component>)
      ensures this.cache == cache && this.components == components
    {
      this.cache, this.components := cache, components;
    }

    /** verifyComponentPods. */
    method VerifyPods(pods: seq<Pod>, prefix: string, p: Priority) returns (e: Option<Error>)
      ensures e.None? <==> PrefixFine(pods, prefix)
      ensures e.Some? ==> Only(e.value, p)
    {
      var matched, errs := false, [];
      for i := 0 to |pods|
        invariant matched <==> exists x :: x in pods[..i] && prefix <= x.name
        invariant AllOnly(errs, p)
        invariant prefix == "coredns" ==> forall x :: x in pods[..i] && prefix <= x.name ==> !x.healthy
        invariant errs == [] <==> forall x :: x in pods[..i] && prefix <= x.name ==> x.healthy
      {
        assert pods[..i + 1] == pods[..i] + [pods[i]];
        if prefix <= pods[i].name {
          matched := true;
          if !pods[i].healthy {
            errs := errs + [HealthErrorOf(p)];
          } else if prefix == "coredns" {
            assert pods[i] in pods;
            return None;
          }
        }
      }
      assert pods[..|pods|] == pods;
      if !matched { return Some(HealthErrorOf(p)); }
      if errs != [] { AggregateOnly(errs, p); }
      e := NewAggregate(errs);
    }

    /** checkComponent. */
    method CheckComponent(c: Component) returns (e: Option<Error>)
      requires cache.Valid()
      modifies cache
      ensures cache.Valid() && (e.None? <==> ComponentFine(cache.snapshot, c))
      ensures e.Some? ==> Only(e.value, c.priority)
    {
      var pods := cache.GetPods(c.namespace);
      if pods.None? { return Some(HealthErrorOf(c.priority)); }
      var errs: seq<Error> := [];
      for i := 0 to |c.prefixes|
        invariant cache.Valid() && AllOnly(errs, c.priority)
        invariant errs == [] <==> forall prefix :: prefix in c.prefixes[..i] ==> PrefixFine(pods.value, prefix)
      {
        assert c.prefixes[..i + 1] == c.prefixes[..i] + [c.prefixes[i]];
        var err := VerifyPods(pods.value, c.prefixes[i], c.priority);
        if err.Some? { errs := errs + [err.value]; }
      }
      assert c.prefixes[..|c.prefixes|] == c.prefixes;
      if errs != [] { AggregateOnly(errs, c.priority); }
      e := NewAggregate(errs);
    }

    /** checkComponentsParallel: the components finish in any order. */
    method CheckComponents(cs: seq<Component>) returns (errs: seq<Error>)
      requires cache.Valid()
      modifies cache
      ensures cache.Valid() && Faults(cache.snapshot, cs, errs)
    {
      errs := [];
      var open := multiset(cs);
      ghost var done: seq<Component> := [];
      while open != multiset{}
        invariant cache.Valid() && Faults(cache.snapshot, done, errs)
        invariant Finished(cs, open, done)
        decreases |open|
      {
        var c :| c in open;
        var e := CheckComponent(c);
        FaultsStep(cache.snapshot, done, errs, c, e);
        if e.Some? { errs := errs + [e.value]; }
        open, done := open - multiset{c}, done + [c];
      }
      FaultsSame(cache.snapshot, done, cs, errs);
    }

    /** checkNodesParallel. */
    method CheckNodes() returns (e: Option<Error>)
      requires cache.Valid()
      modifies cache
      ensures cache.Valid() && (e.None? <==> NodesFine(cache.snapshot))
      ensures e.Some? ==> Only(e.value, Critical)
    {
      var nodes := cache.GetNodes();
      if nodes.None? { return Some(HealthErrorOf(Critical)); }
      var errs: seq<Error> := [];
      var open := multiset(nodes.value);
      ghost var checked: set<Node> := {};
      while open != multiset{}
        invariant AllOnly(errs, Critical) && cache.Valid()
        invariant forall n :: n in nodes.value ==> n in open || n in checked
        invariant forall n :: n in open || n in checked ==> n in nodes.value
        invariant errs == [] <==> forall n :: n in checked ==> NodeFine(n)
        decreases |open|
      {
        var n :| n in open;
        if !n.skip && !n.healthy { errs := errs + [HealthErrorOf(Critical)]; }
        open, checked := open - multiset{n}, checked + {n};
      }
      if errs != [] { AggregateOnly(errs, Critical); }
      e := NewAggregate(errs);
    }

    method GroupByPriority() returns (critical: seq<Component>, important: seq<Component>, optional: seq<Component>)
      ensures Grouped(components, critical, important, optional)
    {
      critical, important, optional := [], [], [];
      for i := 0 to |components|
        invariant Grouped(components[..i], critical, important, optional)
      {
        var c := components[i];
        assert components[..i + 1] == components[..i] + [c];
        match c.priority {
          case Critical => critical := critical + [c];
          case Important => important := important + [c];
          case _ => optional := optional + [c];
        }
      }
      assert components[..|components|] == components;
    }

    /**
     Check: node errors and critical component errors end it at once, the others are
     collected.  The verdict is that of the simple check over everything.
     */
    method Check() returns (e: Option<Error>)
      requires cache.Valid()
      modifies cache
      ensures cache.Valid() && Verdict(cache.snapshot, components, e)
    {
      e := CheckNodes();
      if e.Some? { return; }
      var critical, important, optional := GroupByPriority();
      var errs := CheckComponents(critical);
      if errs != [] {
        CriticalVerdict(cache.snapshot, components, critical, important, optional, errs);
        return NewAggregate(errs);
      }
      var errs2 := CheckComponents(important);
      var errs3 := CheckComponents(optional);
      StagesGiveVerdict(cache.snapshot, components, critical, important, optional, errs2, errs3);
      e := NewAggregate(errs2 + errs3);
    }
  }

  /** Each component is still open or done. */
  ghost predicate Finished(cs: seq<Component>, open: multiset<Component>, done: seq<Component>) {
    && (forall c :: c in cs ==> c in open || c in done)
    && (forall c :: c in open || c in done ==> c in cs)
  }

  lemma CriticalVerdict(s: Snapshot, cs: seq<Component>, critical: seq<Component>, important: seq<Component>,
                        optional: seq<Component>, errs: seq<Error>)
    requires Grouped(cs, critical, important, optional) && Faults(s, critical, errs) && errs != []
    ensures Verdict(s, cs, NewAggregate(errs))
  {
    var c :| c in critical && !ComponentFine(s, c);
    assert c in cs && Failing(s, critical, Critical) && Failing(s, cs, Critical);
    assert Occurs(Aggregate(errs), Critical);
  }
}
