/** Facts about sequences and sets that several models use. */
module Collections {
  ghost predicate NoDuplicates<T(!new)>(s: seq<T>) {
    forall i, j :: 0 <= i < j < |s| ==> s[i] != s[j]
  }

  /** What is left of `all` gets smaller when something is added to what was taken. */
  lemma RestShrinks<T>(all: set<T>, before: set<T>, after: set<T>, x: T)
    requires before <= after <= all && x in after && x !in before
    ensures |all - after| < |all - before|
  {
    var rest := all - before - {x};
    assert (all - after) + (rest - (all - after)) == rest;
    assert |rest| == |all - before| - 1;
  }
}
