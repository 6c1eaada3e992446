/**
 When a command distributed to nodes is complete, and what is reported for nodes that did
 not answer in time (pkg/command/command.go, utils/utils.go).  Go iterates over maps in
 any order, and so do the loops here.
 */
module CommandStatus {
  import opened Wrappers
  import opened Collections

  datatype Phase = Suspend | Running | Complete | Failed | Skip | Unknown

  datatype NodeStatus = NodeStatus(phase: Phase, succeeded: bool, failed: int)

  datatype Command = Command(suspended: bool, status: map<string, NodeStatus>, selector: map<string, string>)

  // Completion ---------------------------------------------------------------------------

  predicate Pending(s: NodeStatus) {
    s.phase.Suspend? || s.phase.Running?
  }

  /** The node finished with everything done. */
  predicate Succeeds(s: NodeStatus) {
    !Pending(s) && !s.phase.Failed? && s.succeeded && s.failed <= 0
  }

  /** Every selected node reported, and none of them is still at it. */
  predicate IsComplete(c: Command) {
    && c.status != map[] && !c.suspended && |c.selector| == |c.status|
    && NonePending(c, c.status.Keys)
  }

  /** The nodes seen so far, told apart. */
  ghost predicate Sorted(c: Command, seen: set<string>, success: seq<string>, failed: seq<string>) {
    && NoDuplicates(success) && NoDuplicates(failed)
    && (forall n :: n in success <==> n in seen && n in c.status && Succeeds(c.status[n]))
    && (forall n :: n in failed <==> n in seen && n in c.status && !Succeeds(c.status[n]))
  }

  lemma SortedStep(c: Command, seen: set<string>, success: seq<string>, failed: seq<string>, n: string)
    requires Sorted(c, seen, success, failed) && n in c.status && n !in seen
    ensures if Succeeds(c.status[n]) then Sorted(c, seen + {n}, success + [n], failed)
            else Sorted(c, seen + {n}, success, failed + [n])
  {
  }

  lemma {:induction false} Cardinality(s: seq<string>, t: set<string>)
    requires NoDuplicates(s) && forall n :: n in s <==> n in t
    ensures |s| == |t|
  {
    if s == [] {
      assert t == {};
    } else {
      var n := s[|s| - 1];
      assert s == s[..|s| - 1] + [n];
      Cardinality(s[..|s| - 1], t - {n});
    }
  }

  lemma SortedCount(c: Command, seen: set<string>, success: seq<string>, failed: seq<string>)
    requires Sorted(c, seen, success, failed) && seen <= c.status.Keys
    ensures |success| + |failed| == |seen|
  {
    var good := set n | n in seen && Succeeds(c.status[n]);
    var bad := set n | n in seen && !Succeeds(c.status[n]);
    Cardinality(success, good);
    Cardinality(failed, bad);
    assert good + bad == seen && good !! bad;
  }

  /**
   CheckCommandStatus: in every iteration order the flag is the same, and when it is set the
   two lists partition the nodes that reported.
   */
  method CheckCommandStatus(c: Command) returns (complete: bool, success: seq<string>, failed: seq<string>)
    ensures complete <==> IsComplete(c)
    ensures complete <==> && c.status != map[] && !c.suspended && |c.selector| == |c.status|
                          && forall n :: n in c.status ==> c.status[n].phase !in {Suspend, Running}
    ensures complete ==> Sorted(c, c.status.Keys, success, failed)
    ensures complete ==> forall n :: n in success <==> && n in c.status && c.status[n].phase != Failed
                                                       && c.status[n].succeeded && c.status[n].failed <= 0
    ensures complete ==> |success| + |failed| == |c.status|
  {
    complete, success, failed := false, [], [];
    if c.status == map[] { return; }
    if c.suspended { return; }
    var settled, count;
    settled, count, success, failed := SortNodes(c);
    if !settled { return; }
    SortedCount(c, c.status.Keys, success, failed);
    complete := |success| + |failed| == count && count != 0 && |c.selector| == count;
  }

  /** The loop over the status map; it ends at the first node that is not settled. */
  method SortNodes(c: Command) returns (settled: bool, count: nat, success: seq<string>, failed: seq<string>)
    ensures settled <==> NonePending(c, c.status.Keys)
    ensures settled ==> count == |c.status| && Sorted(c, c.status.Keys, success, failed)
  {
    settled, count, success, failed := false, 0, [], [];
    var rest := c.status.Keys;
    ghost var seen: set<string> := {};
    while rest != {}
      invariant seen + rest == c.status.Keys && seen !! rest && count == |seen|
      invariant Sorted(c, seen, success, failed) && NonePending(c, seen) && !settled
      decreases rest
    {
      var n :| n in rest;
      SortedStep(c, seen, success, failed, n);
      var s := c.status[n];
      if s.phase.Suspend? || s.phase.Running? { return; }
      if s.phase.Failed? || !s.succeeded || s.failed > 0 {
        failed := failed + [n];
      } else {
        success := success + [n];
      }
      count, rest, seen := count + 1, rest - {n}, seen + {n};
    }
    assert seen == c.status.Keys;
    settled := true;
  }

  predicate NonePending(c: Command, seen: set<string>) {
    forall n :: n in seen && n in c.status ==> !Pending(c.status[n])
  }

  // Time-out -------------------------------------------------------------------------------

  /** The part of the result before the first slash, and what follows it. */
  function Cut(s: string): (r: (string, Option<string>))
    ensures r.1.None? ==> r.0 == s
    ensures r.1.Some? ==> s == r.0 + "/" + r.1.value
    ensures '/' !in r.0
  {
    if s == "" then ("", None)
    else if s[0] == '/' then ("", Some(s[1..]))
    else var (a, b) := Cut(s[1..]); ([s[0]] + a, b)
  }

  /** With exactly one slash the address follows it, otherwise it is what comes first. */
  function NodeIP(result: string): string {
    var (first, rest) := Cut(result);
    if rest.Some? && '/' !in rest.value then rest.value else first
  }

  lemma {:induction false} CutAt(a: string, b: string)
    requires '/' !in a
    ensures Cut(a + "/" + b) == (a, Some(b)) && Cut(a) == (a, None)
  {
    var s := a + "/" + b;
    if a == "" {
      assert s[0] == '/' && s[1..] == b;
      assert Cut(s) == ("", Some(s[1..]));
    } else {
      CutAt(a[1..], b);
      assert s[1..] == a[1..] + "/" + b && s[0] == a[0];
      assert [a[0]] + a[1..] == a;
    }
  }

  /** Both forms of a wait result, address and name/address, give the address. */
  lemma NodeIPOfResult(name: string, ip: string)
    requires '/' !in name && '/' !in ip
    ensures NodeIP(ip) == ip && NodeIP(name + "/" + ip) == ip
  {
    CutAt(name, ip);
    CutAt(ip, "");
  }

  ghost predicate Names(results: seq<string>, ip: string) {
    exists r :: r in results && NodeIP(r) == ip
  }

  /** Collects the addresses of results. */
  method Addresses(results: seq<string>) returns (ips: set<string>)
    ensures forall ip :: ip in ips <==> Names(results, ip)
  {
    ips := {};
    for i := 0 to |results|
      invariant forall ip :: ip in ips <==> Names(results[..i], ip)
    {
      NamesStep(results, i);
      ips := ips + {NodeIP(results[i])};
    }
    assert results[..|results|] == results;
  }

  lemma NamesStep(results: seq<string>, i: nat)
    requires i < |results|
    ensures forall ip :: Names(results[..i + 1], ip) <==> Names(results[..i], ip) || ip == NodeIP(results[i])
  {
    var before, after := results[..i], results[..i + 1];
    assert after == before + [results[i]];
    forall ip ensures Names(after, ip) <==> Names(before, ip) || ip == NodeIP(results[i]) {
      if Names(before, ip) {
        var r :| r in before && NodeIP(r) == ip;
        assert r in after;
      }
      assert results[i] in after;
    }
  }

  /** The selected nodes that no result names. */
  ghost predicate Silent(selector: set<string>, success: seq<string>, failed: seq<string>, n: string) {
    n in selector && !Names(success, n) && !Names(failed, n)
  }

  /**
   handleTimeoutCase: exactly the selected nodes that no result names are appended to the
   failed ones, each once; so afterwards every selected node is named by a result or listed.
   When the command cannot be read the lists stay as they are.
   */
  method HandleTimeout(command: Option<Command>, success: seq<string>, failed: seq<string>)
    returns (ok: bool, success': seq<string>, failed': seq<string>)
    ensures ok == command.Some? && success' == success && failed <= failed'
    ensures !ok ==> failed' == failed
    ensures ok ==> NoDuplicates(failed'[|failed|..])
    ensures ok ==> forall n :: n in failed'[|failed|..] <==> Silent(command.value.selector.Keys, success, failed, n)
    ensures ok ==> forall n :: n in command.value.selector ==> Names(success', n) || Names(failed, n) || n in failed'
  {
    ok, success', failed' := command.Some?, success, failed;
    if !ok { return; }
    var selector := command.value.selector.Keys;
    var good := Addresses(success);
    var bad := Addresses(failed);
    var added: seq<string> := [];
    var rest := selector;
    while rest != {}
      invariant rest <= selector && NoDuplicates(added)
      invariant forall n :: n in added <==> n in selector - rest && Silent(selector, success, failed, n)
      invariant forall n :: n in bad <==> Names(failed, n) || n in added
      decreases rest
    {
      var n :| n in rest;
      rest := rest - {n};
      if n in good { continue; }
      if n in bad { continue; }
      added := added + [n];
      bad := bad + {n};
    }
    failed' := failed + added;
    assert failed'[|failed|..] == added;
    forall n | n in selector ensures Names(success, n) || Names(failed, n) || n in failed' {
      assert Silent(selector, success, failed, n) ==> n in added;
    }
  }

  /** With addresses as selectors, every selected node is named by a result after a time-out. */
  lemma EveryoneIsNamed(selector: set<string>, success: seq<string>, failed: seq<string>, failed': seq<string>,
                        n: string)
    requires n in selector && '/' !in n && failed <= failed'
    requires Names(success, n) || Names(failed, n) || n in failed'
    ensures Names(success, n) || Names(failed', n)
  {
    NodeIPOfResult("", n);
    if Names(failed, n) {
      var r :| r in failed && NodeIP(r) == n;
      assert r in failed';
    }
  }
}
