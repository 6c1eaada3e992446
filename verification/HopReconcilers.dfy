/**
 The two reconcilers as they read and patch the shared objects, each patch succeeding or
 failing.
 */
module HopReconcilers {
  import opened Wrappers
  import opened HopStatus
  import opened HopProtocol
  import U = UpgradePath
  import R = UpgradeRules

  /** There is a catalog object, and its rules are accepted. */
  ghost predicate Loads(rules: Option<seq<U.Rule>>) {
    rules.Some? && R.ValidRules(rules.value) && forall c :: !R.Circle(rules.value, c)
  }

  /** The reconcile comes to the point where it loads and searches the catalog. */
  predicate Searches(cv: ClusterVersion, view: View) {
    && Trim(cv.desired) != "" && !IsInstallPhase(cv, view) && !cv.phase.Failed?
    && FirstNonEmpty(cv.current, view.installed) != ""
    && FirstNonEmpty(cv.current, view.installed) != Trim(cv.desired)
  }

  /** The catalog is that of the rules if they were loaded, and a path is found in it exactly when
      there is one; otherwise it stays. */
  ghost predicate Searched(cv: ClusterVersion, view: View, rules: Option<seq<U.Rule>>, adj: U.Adjacency,
                           adj': U.Adjacency) {
    if Searches(cv, view) && Loads(rules)
    then && U.Offers(adj', rules.value)
         && (view.path.Ok? <==> U.Connected(adj', FirstNonEmpty(cv.current, view.installed), Trim(cv.desired)))
    else adj' == adj
  }

  predicate Sees(view: View, installed: string, clusterReady: bool, imageKnown: bool, catalogLoaded: bool,
                 image: Image) {
    view == View(installed, clusterReady, imageKnown, catalogLoaded, view.path, image)
  }

  /** The state once a path was looked for and the release image of its first hop ensured. */
  function Prepared(s: State, found: Result<seq<U.Rule>, U.PathError>, image: Image): State {
    if found.Err? || (found.value != [] && image.ImageFailed?) then s.(cv := s.cv.(phase := PreCheckFailed))
    else if found.value == [] || image.ImagePending? || Annotation(s) == Some(found.value[0].to) then s
    else
      var hop := Hop(found.value[0].from, found.value[0].to);
      s.(cv := s.cv.(phase := PreChecking), mark := Some(hop), planned := None, approved := s.approved + {hop})
  }

  lemma PreparedByReconcile(s: State, view: View)
    requires Trim(s.cv.desired) != "" && !IsInstallPhase(s.cv, view) && view.catalogLoaded && !s.cv.phase.Failed?
    requires FirstNonEmpty(s.cv.current, view.installed) != ""
    requires FirstNonEmpty(s.cv.current, view.installed) != Trim(s.cv.desired)
    ensures Coarse(s, Reconcile(view)) == Prepared(s, view.path, view.image)
  {
  }

  class Objects {
    var cv: ClusterVersion
    var annotation: Option<string>   // cvo.openfuyao.cn/upgrade-ready of the BKECluster
    const paths: U.Service
    const reliable: bool             // every patch succeeds
    ghost var origin: string         // the version the marked hop was planned for
    ghost var approved: set<Hop>

    constructor (cv: ClusterVersion, paths: U.Service, reliable: bool)
      ensures this.cv == cv && annotation.None? && this.paths == paths && approved == {} && this.reliable == reliable
    {
      this.cv, this.annotation, this.paths, this.reliable := cv, None, paths, reliable;
      origin, approved := "", {};
    }

    ghost function Value(): State
      reads this, paths
    {
      State(cv, if annotation.Some? then Some(Hop(origin, annotation.value)) else None, None, Idle, paths.adj, approved)
    }

    /** A patch goes through or not. */
    method Patched() returns (ok: bool)
      ensures reliable ==> ok
    {
      ok := *;
      ok := ok || reliable;
    }

    /** setStatus. */
    method PatchPhase(phase: Phase) returns (ok: bool)
      modifies this`cv
      ensures cv == if ok then old(cv).(phase := phase) else old(cv)
      ensures reliable ==> ok
    {
      ok := Patched();
      if ok { cv := cv.(phase := phase); }
    }

    /** The ClusterVersion reconciler.  `rules` is the catalog object, if there is one. */
    method Reconcile(installed: string, clusterReady: bool, imageKnown: bool, rules: Option<seq<U.Rule>>, image: Image)
      returns (ok: bool, ghost view: View)
      requires paths.Valid()
      modifies this, paths
      ensures paths.Valid() && Sees(view, installed, clusterReady, imageKnown, Loads(rules), image)
      ensures Searched(old(cv), view, rules, old(paths.adj), paths.adj)
      ensures MoveEnabled(old(Value()).(catalog := paths.adj), HopProtocol.Reconcile(view))
      ensures ok ==> Value() == Coarse(old(Value()).(catalog := paths.adj), HopProtocol.Reconcile(view))
      ensures !ok ==> !reliable && annotation == old(annotation) && cv == old(cv).(phase := cv.phase)
    {
      var seen := View(installed, clusterReady, imageKnown, false, Err(U.NoPath), image);
      ok, view := true, seen.(catalogLoaded := Loads(rules));
      if Trim(cv.desired) == "" { return; }
      if IsInstallPhase(cv, seen) {
        ok := PatchPhase(Installing);
        if ok && image.ImageFailed? { ok := PatchPhase(Failed); }
        return;
      }
      ok, view := ReconcileUpgrade(seen, rules);
    }

    method ReconcileUpgrade(seen: View, rules: Option<seq<U.Rule>>) returns (ok: bool, ghost view: View)
      requires paths.Valid() && seen.path.Err?
      requires Trim(cv.desired) != "" && !IsInstallPhase(cv, seen)
      modifies this, paths
      ensures paths.Valid() && view == seen.(path := view.path, catalogLoaded := Loads(rules))
      ensures Searched(old(cv), view, rules, old(paths.adj), paths.adj)
      ensures MoveEnabled(old(Value()).(catalog := paths.adj), HopProtocol.Reconcile(view))
      ensures ok ==> Value() == Coarse(old(Value()).(catalog := paths.adj), HopProtocol.Reconcile(view))
      ensures !ok ==> !reliable && annotation == old(annotation) && cv == old(cv).(phase := cv.phase)
    {
      ok, view := true, seen.(catalogLoaded := Loads(rules));
      var desired, current := Trim(cv.desired), FirstNonEmpty(cv.current, seen.installed);
      if current == "" { return; }
      if current == desired {
        ok := Patched();
        if annotation.None? { ok := true; }
        if ok { annotation := None; }
        return;
      }
      if cv.phase.Failed? { return; }
      if rules.None? {
        ok := PatchPhase(PreCheckFailed);
        return;
      }
      var loaded, found := SearchCatalog(rules.value, current, desired);
      if !loaded {
        ok := PatchPhase(PreCheckFailed);
        return;
      }
      view := view.(path := found);
      PreparedByReconcile(old(Value()).(catalog := paths.adj), view);
      ok := PrepareHop(found, seen.image);
    }

    method SearchCatalog(rules: seq<U.Rule>, current: string, desired: string)
      returns (loaded: bool, found: Result<seq<U.Rule>, U.PathError>)
      requires paths.Valid()
      modifies paths
      ensures paths.Valid() && loaded == Loads(Some(rules))
      ensures loaded && found.Ok? ==> U.Shortest(paths.adj, current, found.value, desired)
      ensures loaded ==> U.Offers(paths.adj, rules) && (found.Ok? <==> U.Connected(paths.adj, current, desired))
      ensures !loaded ==> paths.adj == old(paths.adj)
    {
      found := Err(U.NoPath);
      var r := R.Load(paths, rules);
      loaded := r.Ok?;
      if loaded {
        found := paths.FindPath(current, desired);
        U.ConnectedVersions(paths.adj, paths.versions, current, desired);
      }
    }

    /** What reconcileUpgrade does with the path it found. */
    method PrepareHop(found: Result<seq<U.Rule>, U.PathError>, image: Image) returns (ok: bool)
      modifies this
      ensures ok ==> Value() == Prepared(old(Value()), found, image)
      ensures !ok ==> !reliable && annotation == old(annotation) && cv == old(cv).(phase := cv.phase)
    {
      if found.Err? || (found.value != [] && image.ImageFailed?) {
        ok := PatchPhase(PreCheckFailed);
        return;
      }
      ok := true;
      if found.value == [] || image.ImagePending? || annotation == Some(found.value[0].to) { return; }
      ok := PatchPhase(PreChecking);
      if !ok { return; }
      ok := Patched();
      if ok {
        annotation, origin := Some(found.value[0].to), found.value[0].from;
        approved := approved + {Hop(found.value[0].from, found.value[0].to)};
      }
    }

    /** completeDeclarativeUpgrade: remove the mark, then patch the status; without a mark it is
        an error. */
    method CompleteUpgrade() returns (ok: bool)
      modifies this`cv, this`annotation
      ensures ok ==> Live(old(Value()).mark) && Value() == Coarse(old(Value()), HopProtocol.CompleteUpgrade)
      ensures !ok ==> cv == old(cv) && (annotation == old(annotation) || annotation.None?)
      ensures ok ==>
                var from, to := Trim(old(cv.current)), Trim(old(annotation).value);
                && annotation.None? && cv.current == to && cv.desired == old(cv.desired)
                && cv.phase == (if to == cv.desired then Ready else Upgrading)
                && cv.history == old(cv.history) + if from != "" && to != from then [HopRecord(from, to, true)] else []
      ensures !Live(old(Value()).mark) ==> !ok && annotation == old(annotation)
      ensures reliable && Live(old(Value()).mark) ==> ok
    {
      ok := false;
      if annotation.None? || Trim(annotation.value) == "" { return; }
      var hop := Trim(annotation.value);
      ok := Patched();
      if !ok { return; }
      annotation := None;
      ok := Patched();
      if !ok { return; }
      TrimTrims(old(annotation).value);
      var from := Trim(cv.current);
      var phase := if hop == cv.desired then Ready else Upgrading;
      var history := cv.history;
      if from != "" && hop != from { history := history + [HopRecord(from, hop, true)]; }
      cv := cv.(current := hop, phase := phase, history := history);
    }

    /** abortDeclarativeUpgrade. */
    method AbortUpgrade() returns (ok: bool)
      modifies this`cv, this`annotation
      ensures ok && Live(old(Value()).mark) ==> Value() == Coarse(old(Value()), HopProtocol.AbortUpgrade)
      ensures ok && Live(old(Value()).mark) ==>
                annotation.None? && cv == old(cv).(phase := Phase.Failed, history := cv.history)
      ensures ok && Live(old(Value()).mark) ==>
                var from, to := Trim(old(cv.current)), Trim(old(annotation).value);
                cv.history == old(cv.history) + if from != "" && to != from then [HopRecord(from, to, false)] else []
      ensures !(ok && Live(old(Value()).mark)) ==> cv == old(cv) && (annotation == old(annotation) || annotation.None?)
      ensures reliable ==> ok
    {
      var hop := if annotation.Some? then Trim(annotation.value) else "";
      ok := Patched();
      if !ok { return; }
      annotation := None;
      if hop == "" { return; }
      ok := Patched();
      if !ok { return; }
      TrimTrims(old(annotation).value);
      var from := Trim(cv.current);
      var history := cv.history;
      if from != "" && hop != from { history := history + [HopRecord(from, hop, false)]; }
      cv := cv.(phase := Failed, history := history);
    }

    /** completeClusterVersionInstall, for a cluster that is ready. */
    method CompleteInstallation(installed: string) returns (ok: bool)
      modifies this`cv
      ensures ok ==> Value() == Coarse(old(Value()), Installed(installed))
      ensures !ok ==> !reliable && cv == old(cv)
    {
      ok := true;
      if annotation.Some? && Trim(annotation.value) != "" { return; }
      if installed == "" || !NeedsInstallCompletion(cv) { return; }
      var desired := Trim(cv.desired);
      if desired != "" && desired != installed { return; }
      ok := Patched();
      if ok { cv := cv.(current := Trim(installed), phase := Ready); }
    }
  }
}
