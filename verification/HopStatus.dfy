/**
 The status of a ClusterVersion and its writers (pkg/clusterversion/status.go,
 pkg/clusterversion/install_complete.go, controllers/capbke/bkecluster_clusterversion.go).
 */
module HopStatus {
  import opened Wrappers

  // White space -----------------------------------------------------------------

  predicate IsSpace(c: char) {
    c in {' ', '\t', '\n', '\r', '\U{000B}', '\U{000C}', '\U{0085}', '\U{00A0}', '\U{1680}',
          '\U{2028}', '\U{2029}', '\U{202F}', '\U{205F}', '\U{3000}'}
    || '\U{2000}' <= c <= '\U{200A}'
  }

  function TrimLeft(s: string): string {
    if s != "" && IsSpace(s[0]) then TrimLeft(s[1..]) else s
  }

  function TrimRight(s: string): string {
    if s != "" && IsSpace(s[|s| - 1]) then TrimRight(s[..|s| - 1]) else s
  }

  function Trim(s: string): string {
    TrimRight(TrimLeft(s))
  }

  predicate Trimmed(s: string) {
    s == "" || (!IsSpace(s[0]) && !IsSpace(s[|s| - 1]))
  }

  lemma {:induction false} TrimLeftStarts(s: string)
    ensures TrimLeft(s) == "" || !IsSpace(TrimLeft(s)[0])
  {
    if s != "" && IsSpace(s[0]) { TrimLeftStarts(s[1..]); }
  }

  lemma {:induction false} TrimRightEnds(s: string)
    requires s == "" || !IsSpace(s[0])
    ensures Trimmed(TrimRight(s))
  {
    if s != "" && IsSpace(s[|s| - 1]) { TrimRightEnds(s[..|s| - 1]); }
  }

  /** Trimming leaves no space at either end, and nothing to trim. */
  lemma TrimTrims(s: string)
    ensures Trimmed(Trim(s)) && Trim(Trim(s)) == Trim(s)
  {
    TrimLeftStarts(s);
    TrimRightEnds(TrimLeft(s));
  }

  // Status --------------------------------------------------------------------------

  datatype Phase = Unset | Installing | PreChecking | PreCheckFailed | Upgrading | Ready | Failed

  datatype HopRecord = HopRecord(from: string, to: string, succeeded: bool)

  datatype ClusterVersion = ClusterVersion(desired: string, current: string, phase: Phase, history: seq<HopRecord>)

  function Log(cv: ClusterVersion, hop: string, succeeded: bool): seq<HopRecord> {
    var from := Trim(cv.current);
    if hop != "" && from != "" && hop != from then cv.history + [HopRecord(from, hop, succeeded)] else cv.history
  }

  /** CompleteUpgradeHop; an empty hop is an error and changes nothing. */
  function CompleteHop(cv: ClusterVersion, hop: string): ClusterVersion {
    var to := Trim(hop);
    if to == "" then cv
    else cv.(current := to, phase := if to == cv.desired then Ready else Upgrading, history := Log(cv, to, true))
  }

  /** FailUpgradeHop. */
  function FailHop(cv: ClusterVersion, hop: string): ClusterVersion {
    cv.(phase := Failed, history := Log(cv, Trim(hop), false))
  }

  predicate NeedsInstallCompletion(cv: ClusterVersion) {
    var desired, current := Trim(cv.desired), Trim(cv.current);
    && desired != ""
    && (current == "" || current == desired)
    && (cv.phase.Upgrading? ==> current == "")
  }

  function ApplyInstallComplete(cv: ClusterVersion, installed: string): ClusterVersion {
    cv.(current := Trim(installed), phase := Ready)
  }

  /** completeClusterVersionInstall once the cluster is ready and no upgrade is marked. */
  function CompleteInstall(cv: ClusterVersion, installed: string): ClusterVersion {
    if installed == "" || !NeedsInstallCompletion(cv) || Trim(cv.desired) != installed then cv
    else ApplyInstallComplete(cv, installed)
  }

  /** SyncClusterVersionInstallStatus: the same write behind a narrower guard. */
  predicate ShouldSyncInstall(cv: ClusterVersion, annotation: Option<string>, installed: string) {
    && (annotation.Some? ==> Trim(annotation.value) == "")
    && NeedsInstallCompletion(cv)
    && installed != "" && installed == Trim(cv.desired)
    && !(cv.phase.Ready? && Trim(cv.current) == Trim(cv.desired))
  }

  function SyncInstall(cv: ClusterVersion, annotation: Option<string>, installed: string): ClusterVersion {
    if ShouldSyncInstall(cv, annotation, installed) then ApplyInstallComplete(cv, installed) else cv
  }

  // History replay ---------------------------------------------------------------------

  /** The version one arrives at from `first` by the recorded hops: only successes move. */
  function Replay(first: string, history: seq<HopRecord>): string {
    if history == [] then first
    else
      var last := history[|history| - 1];
      if last.succeeded then last.to else Replay(first, history[..|history| - 1])
  }

  /** Each record starts at the version the records before it lead to, and goes elsewhere. */
  ghost predicate Faithful(first: string, history: seq<HopRecord>) {
    forall i :: 0 <= i < |history| ==>
      history[i].from == Replay(first, history[..i]) && history[i].to != history[i].from && history[i].to != ""
  }

  /** The first version the cluster had. */
  function First(cv: ClusterVersion): string {
    if cv.history == [] then cv.current else cv.history[0].from
  }

  ghost predicate Replays(cv: ClusterVersion) {
    && Trim(cv.current) == cv.current
    && (cv.current == "" ==> cv.history == [])
    && (cv.current != "" ==>
          First(cv) != "" && Faithful(First(cv), cv.history) && cv.current == Replay(First(cv), cv.history))
  }

  lemma ReplayAppend(first: string, history: seq<HopRecord>, r: HopRecord)
    requires Faithful(first, history) && r.from == Replay(first, history) && r.to != r.from && r.to != ""
    ensures Faithful(first, history + [r])
    ensures Replay(first, history + [r]) == if r.succeeded then r.to else r.from
  {
    var h := history + [r];
    assert h[..|history|] == history;
    forall i | 0 <= i < |h|
      ensures h[..i] == history[..i]
    {
    }
  }

  /** Every status or spec patch, with any argument: none of them checks who sent it. */
  datatype Write =
    | Complete(hop: string)
    | Fail(hop: string)
    | Install(version: string)
    | Sync(annotation: Option<string>, version: string)
    | SetPhase(phase: Phase)
    | SetDesired(desired: string)

  function Apply(cv: ClusterVersion, w: Write): ClusterVersion {
    match w
    case Complete(hop) => CompleteHop(cv, hop)
    case Fail(hop) => FailHop(cv, hop)
    case Install(version) => CompleteInstall(cv, version)
    case Sync(annotation, version) => SyncInstall(cv, annotation, version)
    case SetPhase(phase) => cv.(phase := phase)
    case SetDesired(desired) => cv.(desired := desired)
  }

  function ApplyAll(cv: ClusterVersion, ws: seq<Write>): ClusterVersion {
    if ws == [] then cv else Apply(ApplyAll(cv, ws[..|ws| - 1]), ws[|ws| - 1])
  }

  /** Appending the record of a hop keeps the history faithful. */
  lemma LogReplays(cv: ClusterVersion, to: string, succeeded: bool)
    requires Replays(cv) && Trim(to) == to && to != "" && to != cv.current && cv.current != ""
    ensures var h := Log(cv, to, succeeded);
            && h == cv.history + [HopRecord(cv.current, to, succeeded)]
            && Faithful(First(cv), h) && h[0].from == First(cv)
            && Replay(First(cv), h) == if succeeded then to else cv.current
  {
    ReplayAppend(First(cv), cv.history, HopRecord(cv.current, to, succeeded));
  }

  /** From cv to cv': still a replay, with the same first version and at most one more record. */
  ghost predicate StillReplays(cv: ClusterVersion, cv': ClusterVersion) {
    && Replays(cv')
    && (cv.current != "" ==> cv'.current != "" && First(cv') == First(cv))
    && cv.history <= cv'.history && |cv'.history| <= |cv.history| + 1
  }

  lemma CompleteReplays(cv: ClusterVersion, hop: string)
    requires Replays(cv)
    ensures StillReplays(cv, CompleteHop(cv, hop))
  {
    TrimTrims(hop);
    if Trim(hop) != "" && cv.current != "" && Trim(hop) != cv.current {
      LogReplays(cv, Trim(hop), true);
    }
  }

  lemma FailReplays(cv: ClusterVersion, hop: string)
    requires Replays(cv)
    ensures StillReplays(cv, FailHop(cv, hop))
  {
    TrimTrims(hop);
    if Trim(hop) != "" && cv.current != "" && Trim(hop) != cv.current {
      LogReplays(cv, Trim(hop), false);
    }
  }

  lemma InstallReplays(cv: ClusterVersion, installed: string)
    requires Replays(cv) && NeedsInstallCompletion(cv) && installed == Trim(cv.desired)
    ensures StillReplays(cv, ApplyInstallComplete(cv, installed))
  {
    TrimTrims(cv.desired);
  }

  lemma WriteReplays(cv: ClusterVersion, w: Write)
    requires Replays(cv)
    ensures StillReplays(cv, Apply(cv, w))
  {
    match w {
      case Complete(hop) => CompleteReplays(cv, hop);
      case Fail(hop) => FailReplays(cv, hop);
      case Install(version) =>
        if CompleteInstall(cv, version) != cv { InstallReplays(cv, version); }
      case Sync(annotation, version) =>
        if SyncInstall(cv, annotation, version) != cv { InstallReplays(cv, version); }
      case SetPhase(phase) =>
      case SetDesired(desired) =>
    }
  }

  /**
   In every interleaving of writes to a new ClusterVersion: the history is empty while no
   version is installed, and afterwards the current version is the replay of the history
   from the first installed version.
   */
  lemma {:induction false} HistoryReplays(desired: string, ws: seq<Write>)
    ensures Replays(ApplyAll(ClusterVersion(desired, "", Unset, []), ws))
  {
    var start := ClusterVersion(desired, "", Unset, []);
    if ws == [] {
      assert Trim("") == "";
    } else {
      HistoryReplays(desired, ws[..|ws| - 1]);
      WriteReplays(ApplyAll(start, ws[..|ws| - 1]), ws[|ws| - 1]);
    }
  }

  /** The first version and the records written so far never change again. */
  lemma {:induction false} FirstStays(cv: ClusterVersion, ws: seq<Write>)
    requires Replays(cv) && cv.current != ""
    ensures var cv' := ApplyAll(cv, ws);
            Replays(cv') && cv'.current != "" && First(cv') == First(cv) && cv.history <= cv'.history
  {
    if ws != [] {
      FirstStays(cv, ws[..|ws| - 1]);
      WriteReplays(ApplyAll(cv, ws[..|ws| - 1]), ws[|ws| - 1]);
    }
  }

  /** Repeating a completed hop adds no record and changes nothing. */
  lemma CompleteTwice(cv: ClusterVersion, hop: string)
    ensures CompleteHop(CompleteHop(cv, hop), hop) == CompleteHop(cv, hop)
  {
    TrimTrims(hop);
  }

  /** A failed hop leaves the version alone, ends in the phase Failed, and is on record when it
      was to lead elsewhere. */
  lemma FailedHop(cv: ClusterVersion, hop: string)
    requires Trim(cv.current) == cv.current
    ensures var cv' := FailHop(cv, hop);
            && cv'.phase == Phase.Failed && cv'.current == cv.current && cv'.desired == cv.desired
            && (cv.current != "" && Trim(hop) != "" && Trim(hop) != cv.current ==>
                  cv'.history == cv.history + [HopRecord(cv.current, Trim(hop), false)])
            && (cv.current == "" || Trim(hop) == "" || Trim(hop) == cv.current ==> cv'.history == cv.history)
  {
  }

  /** A completed hop moves the version, is on record when it came from elsewhere, and leaves the
      phase Ready at the desired version and Upgrading on the way. */
  lemma CompletedHop(cv: ClusterVersion, hop: string)
    requires Trim(cv.current) == cv.current && Trim(hop) != ""
    ensures var cv' := CompleteHop(cv, hop);
            && cv'.current == Trim(hop) && cv'.desired == cv.desired
            && cv'.phase == (if Trim(hop) == cv.desired then Ready else Upgrading)
            && (cv.current != "" && Trim(hop) != cv.current ==>
                  cv'.history == cv.history + [HopRecord(cv.current, Trim(hop), true)])
            && (cv.current == "" || Trim(hop) == cv.current ==> cv'.history == cv.history)
  {
  }

  /** Completing an installation sets the desired version and the phase Ready, exactly when that
      version was installed, nothing newer is under way, and no other version is recorded. */
  lemma InstallCompletes(cv: ClusterVersion, installed: string)
    requires Trim(cv.current) == cv.current
    ensures var cv' := CompleteInstall(cv, installed);
            if installed != "" && installed == Trim(cv.desired)
               && (cv.current == "" || (cv.current == installed && cv.phase != Upgrading))
            then cv' == ClusterVersion(cv.desired, installed, Ready, cv.history)
            else cv' == cv
  {
    TrimTrims(cv.desired);
  }

  /** The other writer of an installation does the same behind a narrower guard: there is no mark,
      and the status does not say so already. */
  lemma SyncCompletes(cv: ClusterVersion, annotation: Option<string>, installed: string)
    requires Trim(cv.current) == cv.current
    ensures var marked := annotation.Some? && Trim(annotation.value) != "";
            var known := cv.phase == Ready && cv.current == Trim(cv.desired);
            SyncInstall(cv, annotation, installed) == if marked || known then cv else CompleteInstall(cv, installed)
  {
  }

  /** Completing an installation never moves a version that is already there. */
  lemma InstallKeepsVersion(cv: ClusterVersion, installed: string)
    requires Replays(cv) && cv.current != ""
    ensures CompleteInstall(cv, installed).current == cv.current
    ensures CompleteInstall(cv, installed).history == cv.history
  {
    TrimTrims(cv.desired);
  }

  /** After a completed hop, the phase is Ready exactly when the trimmed hop is the desired
      version as it was written, spaces included. */
  lemma ReadyAfterHop(cv: ClusterVersion, hop: string)
    requires Trim(hop) == Trim(cv.desired) && Trim(hop) != ""
    ensures CompleteHop(cv, hop).current == Trim(cv.desired)
    ensures CompleteHop(cv, hop).phase.Ready? <==> Trimmed(cv.desired)
  {
    TrimTrims(hop);
    TrimTrims(cv.desired);
    if Trimmed(cv.desired) {
      TrimmedIsFixed(cv.desired);
    }
  }

  /** With "v2 " desired, the hop that arrives at v2 leaves the phase Upgrading. */
  lemma NotReadyAfterHop()
    ensures var cv := CompleteHop(ClusterVersion("v2 ", "v1", PreChecking, []), "v2");
            cv.current == Trim("v2 ") && cv.phase.Upgrading?
  {
    TrimmedIsFixed("v2");
    TrimSpaceAfter("v2");
    assert "v2" + " " == "v2 ";
  }

  lemma TrimSpaceAfter(v: string)
    requires Trimmed(v) && v != ""
    ensures Trim(v + " ") == v
  {
    var s := v + " ";
    assert s[0] == v[0] && s[|s| - 1] == ' ' && s[..|s| - 1] == v;
    assert TrimLeft(s) == s;
    assert TrimRight(s) == TrimRight(v);
  }

  lemma TrimmedIsFixed(s: string)
    requires Trimmed(s)
    ensures Trim(s) == s
  {
  }
}
