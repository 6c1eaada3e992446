/**
 The persisted progress of one declarative upgrade hop
 (api/bkecommon/v1beta1/bkecluster_status.go).  Time stamps are left out.
 */
module Progress {
  import opened Wrappers

  const DEFAULT_COMPONENT_VERSION := "v1.0.0"

  datatype Record = Record(name: string, version: string)

  datatype Failure = Failure(name: string, version: string, error: string, attempt: int)

  datatype Status = Status(
    target: string, finished: bool, lastError: string,
    lastFailure: Option<Failure>, completed: seq<Record>)

  function Normalize(version: string): string {
    if version == "" then DEFAULT_COMPONENT_VERSION else version
  }

  /** What a completion record stands for: the component and its version key. */
  function Key(r: Record): (string, string) {
    (r.name, Normalize(r.version))
  }

  /** The set of recorded completions. */
  ghost function Keys(s: Status): set<(string, string)> {
    set r | r in s.completed :: Key(r)
  }

  predicate IsCompleted(s: Status, name: string, version: string) {
    exists r :: r in s.completed && Key(r) == (name, Normalize(version))
  }

  function MarkCompleted(s: Status, name: string, version: string): (t: Status)
    ensures Keys(t) == Keys(s) + {(name, Normalize(version))}
    ensures IsCompleted(s, name, version) ==> t == s
    ensures t.target == s.target && t.finished == s.finished
  {
    if IsCompleted(s, name, Normalize(version)) then s
    else
      var added := Record(name, Normalize(version));
      var t := s.(completed := s.completed + [added]);
      assert Keys(t) == Keys(s) + {Key(added)};
      t
  }

  /** Attempt counts consecutive failures of the same component and version. */
  function MarkFailure(s: Status, name: string, version: string, error: string): (t: Status)
    ensures Keys(t) == Keys(s) && t.target == s.target && t.finished == s.finished
  {
    var again := s.lastFailure.Some? && s.lastFailure.value.name == name
                 && Normalize(s.lastFailure.value.version) == Normalize(version)
                 && s.lastFailure.value.attempt > 0;
    var attempt := if again then s.lastFailure.value.attempt + 1 else 1;
    s.(lastFailure := Some(Failure(name, Normalize(version), error, attempt)), lastError := error)
  }

  /** The same component failing over and over. */
  function FailAll(s: Status, name: string, version: string, errors: seq<string>): Status {
    if errors == [] then s
    else MarkFailure(FailAll(s, name, version, errors[..|errors| - 1]), name, version, errors[|errors| - 1])
  }

  predicate FailedBefore(s: Status, name: string, version: string) {
    && s.lastFailure.Some? && s.lastFailure.value.name == name
    && Normalize(s.lastFailure.value.version) == Normalize(version)
  }

  /** Attempts count the failures of one component in a row; another component starts over. */
  lemma {:induction false} AttemptsCount(s: Status, name: string, version: string, errors: seq<string>)
    requires errors != []
    ensures var before := if FailedBefore(s, name, version) && s.lastFailure.value.attempt > 0
                          then s.lastFailure.value.attempt else 0;
            FailAll(s, name, version, errors).lastFailure ==
              Some(Failure(name, if version == "" then "v1.0.0" else version, errors[|errors| - 1], before + |errors|))
    ensures FailAll(s, name, version, errors).lastError == errors[|errors| - 1]
    ensures Keys(FailAll(s, name, version, errors)) == Keys(s)
  {
    if |errors| > 1 {
      AttemptsCount(s, name, version, errors[..|errors| - 1]);
    } else {
      assert FailAll(s, name, version, errors[..0]) == s;
    }
  }

  /** A new target forgets every completion; the same target keeps them all. */
  function EnsureInitialized(s: Option<Status>, target: string): (t: Status)
    ensures t.target == target && !t.finished
    ensures s.Some? && s.value.target == target ==> Keys(t) == Keys(s.value) && t == s.value.(finished := false)
    ensures !(s.Some? && s.value.target == target) ==> Keys(t) == {}
  {
    var present := if s.Some? then s.value else Status("", false, "", None, []);
    if present.target != target then
      Status(target, false, "", None, [])
    else
      present.(finished := false)
  }
}
