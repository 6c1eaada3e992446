/**
 Where the hops lead: for a fixed catalog and desired version, successes and hops left are
 conserved, and the desired version is reached.
 */
module HopConvergence {
  import opened Wrappers
  import opened HopStatus
  import opened HopProtocol
  import U = UpgradePath

  // Distance ---------------------------------------------------------------------------

  /** The shortest way from v to d takes k hops. */
  ghost predicate Dist(adj: U.Adjacency, v: string, d: string, k: nat) {
    exists p :: U.Shortest(adj, v, p, d) && |p| == k
  }

  /** w is the next version on a shortest way from v to d. */
  ghost predicate OnWay(adj: U.Adjacency, v: string, w: string, d: string) {
    exists p: seq<U.Rule> :: p != [] && U.Shortest(adj, v, p, d) && p[0].to == w
  }

  ghost predicate TidyPath(p: seq<U.Rule>) {
    forall i :: 0 <= i < |p| ==> Trim(p[i].to) == p[i].to
  }

  /** The versions on the shortest ways from v to d are written without surrounding space. */
  ghost predicate TidyWay(adj: U.Adjacency, v: string, d: string) {
    forall p :: U.Shortest(adj, v, p, d) ==> TidyPath(p)
  }

  lemma DistUnique(adj: U.Adjacency, v: string, d: string, j: nat, k: nat)
    requires Dist(adj, v, d, j) && Dist(adj, v, d, k)
    ensures j == k
  {
    var p :| U.Shortest(adj, v, p, d) && |p| == j;
    var q :| U.Shortest(adj, v, q, d) && |q| == k;
  }

  lemma DistDiffers(adj: U.Adjacency, v: string, w: string, d: string, j: nat, k: nat)
    requires Dist(adj, v, d, j) && Dist(adj, w, d, k) && j != k
    ensures v != w
  {
    if v == w { DistUnique(adj, v, d, j, k); }
  }

  lemma StayPut(adj: U.Adjacency, v: string)
    ensures Dist(adj, v, v, 0)
  {
    var none: seq<U.Rule> := [];
    assert U.Shortest(adj, v, none, v);
  }

  lemma DistZero(adj: U.Adjacency, v: string, d: string, k: nat)
    requires Dist(adj, v, d, k)
    ensures k == 0 <==> v == d
  {
    if v == d {
      StayPut(adj, v);
      DistUnique(adj, v, d, k, 0);
    }
  }

  /** A shortest way from the end of the first hop makes a shortest way from its start. */
  lemma ShortestCons(adj: U.Adjacency, v: string, p: seq<U.Rule>, q: seq<U.Rule>, d: string)
    requires p != [] && U.Shortest(adj, v, p, d) && U.Shortest(adj, p[0].to, q, d)
    ensures U.Shortest(adj, v, [p[0]] + q, d)
  {
    U.WalkTail(adj, v, p);
    U.WalkCons(adj, p[0], q);
    assert |q| <= |p[1..]|;
  }

  lemma TidyTail(adj: U.Adjacency, v: string, p: seq<U.Rule>, d: string)
    requires p != [] && U.Shortest(adj, v, p, d) && TidyWay(adj, v, d)
    ensures Trim(p[0].to) == p[0].to && TidyWay(adj, p[0].to, d)
  {
    assert TidyPath(p);
    forall q: seq<U.Rule> | U.Shortest(adj, p[0].to, q, d) ensures TidyPath(q) {
      ShortestCons(adj, v, p, q, d);
      var all: seq<U.Rule> := [p[0]] + q;
      assert TidyPath(all);
      forall i | 0 <= i < |q| ensures Trim(q[i].to) == q[i].to {
        assert all[i + 1] == q[i];
      }
    }
  }

  /** One hop on the way is one hop less to go. */
  lemma WayIsCloser(adj: U.Adjacency, v: string, w: string, d: string, k: nat)
    requires OnWay(adj, v, w, d) && Dist(adj, v, d, k)
    ensures k > 0 && Dist(adj, w, d, k - 1) && w != v
    ensures TidyWay(adj, v, d) ==> Trim(w) == w && TidyWay(adj, w, d)
  {
    var p: seq<U.Rule> :| p != [] && U.Shortest(adj, v, p, d) && p[0].to == w;
    if TidyWay(adj, v, d) { TidyTail(adj, v, p, d); }
    U.ShortestTail(adj, v, p, d);
    U.WalkTail(adj, v, p);
    assert Dist(adj, w, d, |p[1..]|);
    assert Dist(adj, v, d, |p|);
    DistUnique(adj, v, d, |p|, k);
    DistDiffers(adj, v, w, d, k, k - 1);
  }

  // Conservation --------------------------------------------------------------------------

  function Successes(history: seq<HopRecord>): nat {
    if history == [] then 0
    else Successes(history[..|history| - 1]) + (if history[|history| - 1].succeeded then 1 else 0)
  }

  lemma SuccessesAppend(history: seq<HopRecord>, r: HopRecord)
    ensures Successes([]) == 0
    ensures Successes(history + [r]) == Successes(history) + if r.succeeded then 1 else 0
  {
    assert (history + [r])[..|history|] == history;
  }

  /** k hops are left, and the marked hop is the first of them. */
  ghost predicate Left(s: State, k: nat) {
    && s.cv.current != "" && Trim(s.cv.current) == s.cv.current
    && TidyWay(s.catalog, s.cv.current, Trim(s.cv.desired))
    && Dist(s.catalog, s.cv.current, Trim(s.cv.desired), k)
    && (Live(s.mark) ==> OnWay(s.catalog, s.cv.current, s.mark.value.to, Trim(s.cv.desired)))
  }

  /** The move completes a hop. */
  predicate Completes(s: State, move: Move) {
    move.CompleteUpgrade? && Live(s.mark)
  }

  predicate KeepsGoal(move: Move) {
    !move.NewDesired? && !move.NewCatalog?
  }

  /** From s with k hops left to s': a completed hop is one hop less to go and one success
      more, anything else changes neither. */
  ghost predicate Conserves(s: State, s': State, k: nat, completed: bool) {
    && (completed ==> k > 0 && Left(s', k - 1))
    && (!completed ==> Left(s', k))
    && Successes(s'.cv.history) == Successes(s.cv.history) + (if completed then 1 else 0)
    && s'.catalog == s.catalog && s'.cv.desired == s.cv.desired
  }

  lemma CompleteCloses(s: State, k: nat)
    requires Left(s, k) && Live(s.mark)
    ensures Conserves(s, Coarse(s, CompleteUpgrade), k, true)
  {
    var to := s.mark.value.to;
    WayIsCloser(s.catalog, s.cv.current, to, Trim(s.cv.desired), k);
    SuccessesAppend(s.cv.history, HopRecord(s.cv.current, to, true));
  }

  lemma AbortKeeps(s: State, k: nat)
    requires Left(s, k)
    ensures Conserves(s, Coarse(s, AbortUpgrade), k, false)
  {
    if Live(s.mark) {
      SuccessesAppend(s.cv.history, HopRecord(s.cv.current, Trim(s.mark.value.to), false));
    }
  }

  lemma InstallKeeps(s: State, move: Move, k: nat)
    requires Left(s, k) && (move.Installed? || move.SyncInstalled?)
    ensures Conserves(s, Coarse(s, move), k, false)
  {
    TrimTrims(s.cv.desired);
    var s' := Coarse(s, move);
    assert s' == s.(cv := s.cv.(phase := s'.cv.phase));
  }

  lemma PathIsWay(adj: U.Adjacency, v: string, p: seq<U.Rule>, d: string)
    requires p != [] && U.Shortest(adj, v, p, d)
    ensures OnWay(adj, v, p[0].to, d)
  {
  }

  lemma ReconcileEffect(s: State, view: View)
    ensures var s' := Coarse(s, Reconcile(view));
            && s'.cv == s.cv.(phase := s'.cv.phase) && s'.catalog == s.catalog
            && (s'.mark != s.mark && s'.mark.Some? ==>
                && view.catalogLoaded && view.path.Ok? && view.path.value != []
                && s'.mark.value.to == view.path.value[0].to)
  {
  }

  lemma SameWay(s: State, s': State, k: nat)
    requires Left(s, k) && s'.cv == s.cv.(phase := s'.cv.phase) && s'.catalog == s.catalog
    requires s'.mark != s.mark && Live(s'.mark) ==> OnWay(s.catalog, s.cv.current, s'.mark.value.to, Trim(s.cv.desired))
    ensures Conserves(s, s', k, false)
  {
  }

  lemma ReconcileKeeps(s: State, view: View, k: nat)
    requires Left(s, k) && MoveEnabled(s, Reconcile(view))
    ensures Conserves(s, Coarse(s, Reconcile(view)), k, false)
  {
    ReconcileEffect(s, view);
    if view.catalogLoaded && view.path.Ok? && view.path.value != [] {
      PathIsWay(s.catalog, s.cv.current, view.path.value, Trim(s.cv.desired));
    }
    SameWay(s, Coarse(s, Reconcile(view)), k);
  }

  lemma MoveCloses(s: State, move: Move, k: nat)
    requires Left(s, k) && MoveEnabled(s, move) && KeepsGoal(move)
    ensures Conserves(s, Coarse(s, move), k, Completes(s, move))
  {
    if move.Reconcile? {
      ReconcileKeeps(s, move.view, k);
    } else if move.AbortUpgrade? {
      AbortKeeps(s, k);
    } else if move.CompleteUpgrade? {
      if Live(s.mark) { CompleteCloses(s, k); }
    } else {
      InstallKeeps(s, move, k);
    }
  }

  /**
   Conservation: in every run for a fixed goal, the successes so far and the hops left add
   up to the hops left at the start.  So there are never more successes than that, and the
   desired version is reached exactly with the last of them.
   */
  lemma {:induction false} HopsAreConserved(states: seq<State>, moves: seq<Move>, k: nat)
    requires Moves(states, moves) && Left(states[0], k)
    requires forall i :: 0 <= i < |moves| ==> KeepsGoal(moves[i])
    ensures Conserved(states[0], states[|moves|], k)
  {
    var n := |moves|;
    if n == 0 {
      NothingConserved(states[0], k);
    } else {
      MovesPrefix(states, moves);
      HopsAreConserved(states[..n], moves[..n - 1], k);
      ConservedStep(states[0], states[n - 1], moves[n - 1], k);
    }
  }

  lemma NothingConserved(s: State, k: nat)
    requires Left(s, k)
    ensures Conserved(s, s, k)
  {
    DistZero(s.catalog, s.cv.current, Trim(s.cv.desired), k);
  }

  lemma MovesPrefix(states: seq<State>, moves: seq<Move>)
    requires Moves(states, moves) && moves != []
    ensures var n := |moves|; Moves(states[..n], moves[..n - 1]) && Moved(states[n - 1], moves[n - 1], states[n])
  {
  }

  ghost predicate Conserved(s0: State, s: State, k: nat) {
    var done := Successes(s.cv.history) - Successes(s0.cv.history);
    && 0 <= done <= k && Left(s, k - done)
    && s.cv.desired == s0.cv.desired
    && (s.cv.current == Trim(s.cv.desired) <==> done == k)
  }

  lemma ConservedStep(s0: State, s: State, move: Move, k: nat)
    requires Conserved(s0, s, k) && MoveEnabled(s, move) && KeepsGoal(move)
    ensures Conserved(s0, Coarse(s, move), k)
  {
    var left := k - (Successes(s.cv.history) - Successes(s0.cv.history));
    MoveCloses(s, move, left);
    var s' := Coarse(s, move);
    DistZero(s'.catalog, s'.cv.current, Trim(s'.cv.desired), if Completes(s, move) then left - 1 else left);
  }

  /** The hop that reaches the desired version leaves the phase Ready exactly when the
      desired version was written without surrounding space. */
  lemma ReadyOnArrival(s: State, k: nat)
    requires Left(s, k) && Live(s.mark)
    ensures var s' := Coarse(s, CompleteUpgrade);
            s'.cv.current == Trim(s.cv.desired) ==> (s'.cv.phase.Ready? <==> Trimmed(s.cv.desired))
  {
    if Coarse(s, CompleteUpgrade).cv.current == Trim(s.cv.desired) {
      ReadyAfterHop(s.cv, s.mark.value.to);
    }
  }

  // Versions with surrounding space -----------------------------------------------------

  ghost predicate IsVersion(adj: U.Adjacency, v: string) {
    exists u, e :: u in adj && e in adj[u] && (e.from == v || e.to == v)
  }

  /** No two versions of the catalog differ in surrounding space only. */
  ghost predicate DistinctTrims(adj: U.Adjacency) {
    forall a, b :: IsVersion(adj, a) && IsVersion(adj, b) && Trim(a) == Trim(b) ==> a == b
  }

  lemma WalkVersions(adj: U.Adjacency, v: string, p: seq<U.Rule>)
    requires U.IsWalk(adj, v, p) && p != []
    ensures IsVersion(adj, v) && IsVersion(adj, p[0].to) && IsVersion(adj, U.End(v, p))
  {
    assert U.StepAt(adj, v, p, 0) && U.StepAt(adj, v, p, |p| - 1);
  }

  /** From a version that is none of the catalog, nothing leads elsewhere. */
  lemma NoVersionNoWay(adj: U.Adjacency, v: string, d: string, k: nat)
    requires Dist(adj, v, d, k) && v != d
    ensures IsVersion(adj, v)
  {
    var p :| U.Shortest(adj, v, p, d) && |p| == k;
    assert p != [];
    WalkVersions(adj, v, p);
  }

  /**
   A completed hop stores the trimmed version.  It is one hop less to go, if and only if the
   catalog writes the target of the hop without surrounding space.
   */
  lemma HopExact(adj: U.Adjacency, v: string, to: string, d: string, k: nat)
    requires DistinctTrims(adj) && OnWay(adj, v, to, d) && Dist(adj, v, d, k) && Trim(d) == d
    ensures k > 0 && (Dist(adj, Trim(to), d, k - 1) <==> Trim(to) == to)
  {
    WayIsCloser(adj, v, to, d, k);
    TrimTrims(to);
    var p: seq<U.Rule> :| p != [] && U.Shortest(adj, v, p, d) && p[0].to == to;
    WalkVersions(adj, v, p);
    if Dist(adj, Trim(to), d, k - 1) && Trim(to) != d {
      NoVersionNoWay(adj, Trim(to), d, k - 1);
    }
  }

  /** A hop to "v2 " arrives at "v2", from where no edge leads on. */
  lemma UntidyCatalog() returns (s: State)
    ensures Dist(s.catalog, s.cv.current, Trim(s.cv.desired), 2) && Live(s.mark)
    ensures OnWay(s.catalog, s.cv.current, s.mark.value.to, Trim(s.cv.desired))
    ensures var s' := Coarse(s, CompleteUpgrade);
            !U.Connected(s'.catalog, s'.cv.current, Trim(s'.cv.desired))
  {
    var first, second := U.Rule("v1", "v2 ", false), U.Rule("v2 ", "v3", false);
    var catalog: U.Adjacency := map["v1" := [first], "v2 " := [second]];
    s := State(ClusterVersion("v3", "v1", Ready, []), Some(Hop("v1", "v2 ")), None, Idle, catalog, {});
    UntidyNames();
    TwoHops(catalog, first, second);
    DeadEnd(catalog, "v2", "v3");
  }

  lemma UntidyNames()
    ensures Trim("v3") == "v3" && Trim("v2 ") == "v2" && Trim("v1") == "v1"
  {
    TrimmedIsFixed("v3");
    TrimmedIsFixed("v1");
    TrimSpaceAfter("v2");
    assert "v2" + " " == "v2 ";
  }

  lemma DeadEnd(adj: U.Adjacency, v: string, d: string)
    requires U.Edges(adj, v) == [] && v != d
    ensures !U.Connected(adj, v, d)
  {
    forall q | U.IsWalk(adj, v, q) ensures U.End(v, q) == v {
      assert q != [] ==> U.StepAt(adj, v, q, 0);
    }
  }

  /** Two edges in a row, with no other edge out of the first version, are a shortest path. */
  lemma TwoHops(adj: U.Adjacency, a: U.Rule, b: U.Rule)
    requires U.Edges(adj, a.from) == [a] && U.Edges(adj, a.to) == [b] && a.to == b.from
    requires !a.blocked && !b.blocked && a.from != b.to && a.to != b.to
    ensures U.Shortest(adj, a.from, [a, b], b.to)
    ensures Dist(adj, a.from, b.to, 2) && OnWay(adj, a.from, a.to, b.to)
  {
    var p := [a, b];
    assert U.StepAt(adj, a.from, p, 0) && U.StepAt(adj, a.from, p, 1);
    assert U.Leads(adj, a.from, p, b.to);
    forall q | U.Leads(adj, a.from, q, b.to) ensures |q| >= 2 {
      if |q| == 1 { U.WalkTail(adj, a.from, q); }
    }
  }

  // Convergence ------------------------------------------------------------------------------

  /** No rule leads to the empty version; rule validation sees to that. */
  ghost predicate Named(adj: U.Adjacency) {
    forall v, e :: v in adj && e in adj[v] ==> e.to != ""
  }

  lemma WalkEndsSomewhere(adj: U.Adjacency, v: string, p: seq<U.Rule>)
    requires Named(adj) && U.IsWalk(adj, v, p) && p != []
    ensures U.End(v, p) != "" && p[0].to != ""
  {
    assert U.StepAt(adj, v, p, 0) && U.StepAt(adj, v, p, |p| - 1);
  }

  lemma SomePath(s: State, k: nat) returns (p: seq<U.Rule>)
    requires Left(s, k) && k > 0 && Named(s.catalog)
    ensures U.Shortest(s.catalog, s.cv.current, p, Trim(s.cv.desired)) && p != []
    ensures s.cv.current != Trim(s.cv.desired) && Trim(s.cv.desired) != "" && Trim(p[0].to) != ""
  {
    p :| U.Shortest(s.catalog, s.cv.current, p, Trim(s.cv.desired)) && |p| == k;
    DistZero(s.catalog, s.cv.current, Trim(s.cv.desired), k);
    WalkEndsSomewhere(s.catalog, s.cv.current, p);
    assert TidyPath(p);
  }

  /** A reconcile that finds the shortest path and a valid release image marks the cluster. */
  lemma MarksNextHop(s: State, view: View)
    requires view.catalogLoaded && view.clusterReady && view.image.ImageValid? && view.path.Ok? && view.path.value != []
    requires s.cv.current == Trim(s.cv.current) != "" && Trim(s.cv.desired) != "" && s.cv.current != Trim(s.cv.desired)
    requires s.mark.None? && !s.cv.phase.Failed? && Trim(view.path.value[0].to) != ""
    ensures Decide(s, view) == MarkReady(view.path.value)
    ensures Live(Coarse(s, Reconcile(view)).mark) && Coarse(s, Reconcile(view)).work == s.work
  {
  }

  /** One round: mark the next hop and complete it. */
  lemma Round(s: State, k: nat) returns (view: View, s1: State, s2: State)
    requires Left(s, k) && k > 0 && Named(s.catalog) && s.work.Idle? && s.mark.None? && !s.cv.phase.Failed?
    ensures Moved(s, Reconcile(view), s1) && Moved(s1, CompleteUpgrade, s2)
    ensures Conserves(s, s2, k, true)
    ensures s2.work.Idle? && s2.mark.None? && !s2.cv.phase.Failed?
    ensures s2.cv.current == Trim(s.cv.desired) && Trimmed(s.cv.desired) ==> s2.cv.phase.Ready?
  {
    var p := SomePath(s, k);
    view := View("", true, true, true, Ok(p), ImageValid);
    s1 := Coarse(s, Reconcile(view));
    MarksNextHop(s, view);
    ReconcileKeeps(s, view, k);
    s2 := CompleteRound(s1, k);
  }

  lemma CompleteRound(s: State, k: nat) returns (s': State)
    requires Left(s, k) && Live(s.mark) && s.work.Idle?
    ensures Moved(s, CompleteUpgrade, s') && Conserves(s, s', k, true)
    ensures s'.work.Idle? && s'.mark.None? && !s'.cv.phase.Failed?
    ensures s'.cv.current == Trim(s.cv.desired) && Trimmed(s.cv.desired) ==> s'.cv.phase.Ready?
  {
    s' := Coarse(s, CompleteUpgrade);
    CompleteCloses(s, k);
    ReadyOnArrival(s, k);
  }

  /** The run starts in s, takes two moves for each hop, keeps its goal and reaches it. */
  ghost predicate Arrives(s: State, k: nat, states: seq<State>, moves: seq<Move>) {
    && Moves(states, moves) && states[0] == s && |moves| == 2 * k
    && (forall i :: 0 <= i < |moves| ==> KeepsGoal(moves[i]))
    && Reached(s, k, states[|moves|])
  }

  ghost predicate Reached(s: State, k: nat, end: State) {
    && end.cv.current == Trim(s.cv.desired)
    && Successes(end.cv.history) == Successes(s.cv.history) + k
    && (k > 0 && Trimmed(s.cv.desired) ==> end.cv.phase.Ready?)
  }

  lemma PrependRound(s: State, s1: State, s2: State, view: View, k: nat, ss: seq<State>, ms: seq<Move>)
    requires k > 0 && Arrives(s2, k - 1, ss, ms)
    requires Moved(s, Reconcile(view), s1) && Moved(s1, CompleteUpgrade, s2)
    requires Reached(s, k, ss[|ms|])
    ensures Arrives(s, k, [s, s1] + ss, [Reconcile(view), CompleteUpgrade] + ms)
  {
    ConsMove(s1, CompleteUpgrade, ss, ms);
    ConsMove(s, Reconcile(view), [s1] + ss, [CompleteUpgrade] + ms);
    assert [s] + ([s1] + ss) == [s, s1] + ss;
    assert [Reconcile(view)] + ([CompleteUpgrade] + ms) == [Reconcile(view), CompleteUpgrade] + ms;
  }

  lemma ConsMove(s: State, move: Move, ss: seq<State>, ms: seq<Move>)
    requires Moves(ss, ms) && Moved(s, move, ss[0])
    ensures Moves([s] + ss, [move] + ms)
  {
    var states, moves := [s] + ss, [move] + ms;
    forall i | 0 <= i < |moves| ensures Moved(states[i], moves[i], states[i + 1]) {
      if i > 0 { assert Moved(ss[i - 1], ms[i - 1], ss[i]); }
    }
  }

  /** From k hops away, k rounds of marking and completing lead to the desired version. */
  lemma {:induction false} Converges(s: State, k: nat) returns (states: seq<State>, moves: seq<Move>)
    requires Left(s, k) && Named(s.catalog) && s.work.Idle? && s.mark.None? && !s.cv.phase.Failed?
    ensures Arrives(s, k, states, moves)
    decreases k
  {
    DistZero(s.catalog, s.cv.current, Trim(s.cv.desired), k);
    if k == 0 {
      states, moves := [s], [];
    } else {
      var view, s1, s2 := Round(s, k);
      var ss, ms := Converges(s2, k - 1);
      assert k == 1 ==> ss[|ms|] == s2;
      PrependRound(s, s1, s2, view, k, ss, ms);
      states, moves := [s, s1] + ss, [Reconcile(view), CompleteUpgrade] + ms;
    }
  }
}
