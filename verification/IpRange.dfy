/**
 Expansion of an address range "a-b" (parseFabricExcludeIPRange in pkg/kube/addon.go), on
 addresses as arrays of four octets.
 */
module IpRange {
  type octet = x: int | 0 <= x < 256

  const SPACE: int := 0x1_0000_0000

  /** The address as a number. */
  function Value(a: seq<octet>): (v: int)
    requires |a| == 4
    ensures 0 <= v < SPACE
  {
    var a0: int, a1: int, a2: int, a3: int := a[0], a[1], a[2], a[3];
    a0 * 0x100_0000 + a1 * 0x1_0000 + a2 * 0x100 + a3
  }

  lemma ValueInjective(a: seq<octet>, b: seq<octet>)
    requires |a| == |b| == 4 && Value(a) == Value(b)
    ensures a == b
  {
    assert a[0] == b[0];
    assert a[1] == b[1];
    assert a[2] == b[2];
    assert a[3] == b[3];
  }

  /** The distance from one address up to another, around the end of the address space. */
  function Ahead(from: int, to: int): (d: nat)
    requires 0 <= from < SPACE && 0 <= to < SPACE
    ensures d < SPACE && (from + d) % SPACE == to
    ensures d == 0 <==> from == to
  {
    if from <= to then to - from else to - from + SPACE
  }

  /** The next octet, with wrap-around. */
  function Bump(x: octet): octet {
    if x == 255 then 0 else x + 1
  }

  /** The carry loop is +1 modulo 2^32. */
  method Increment(ip: array<octet>)
    requires ip.Length == 4
    modifies ip
    ensures Value(ip[..]) == (Value(old(ip[..])) + 1) % SPACE
  {
    var j := 3;
    while j >= 0
      invariant -1 <= j <= 3
      invariant forall k :: 0 <= k <= j ==> ip[k] == old(ip[k])
      invariant forall k :: j < k < 4 ==> ip[k] == 0 && old(ip[k]) == 255
      decreases j
    {
      ip[j] := Bump(ip[j]);
      if ip[j] > 0 {
        break;
      }
      j := j - 1;
    }
  }

  /** The closure ipLe: the addresses differ, and some octet of the first is greater. */
  predicate SomeOctetGreater(a: seq<octet>, b: seq<octet>)
    requires |a| == |b| == 4
  {
    exists i :: 0 <= i < 4 && a[i] > b[i]
  }

  method IpLe(src: array<octet>, dst: array<octet>) returns (r: bool)
    requires src.Length == dst.Length == 4
    ensures r <==> SomeOctetGreater(src[..], dst[..])
  {
    if src[..] == dst[..] { return false; }
    for i := 0 to 4
      invariant forall k :: 0 <= k < i ==> src[k] <= dst[k]
    {
      if src[i] > dst[i] {
        assert src[..][i] > dst[..][i];
        return true;
      }
    }
    assert forall k :: 0 <= k < 4 ==> src[..][k] == src[k] && dst[..][k] == dst[k];
    r := false;
  }

  /** The addresses from one up to another, in order, around the end if need be. */
  ghost predicate Walk(ips: seq<seq<octet>>, from: int, steps: nat) {
    && |ips| == steps + 1
    && forall k :: 0 <= k < |ips| ==> |ips[k]| == 4 && Value(ips[k]) == (from + k) % SPACE
  }

  /** Every listed address is listed once. */
  lemma WalkListsOnce(ips: seq<seq<octet>>, from: int, steps: nat, i: nat, j: nat)
    requires Walk(ips, from, steps) && 0 <= from < SPACE && steps < SPACE && i < j < |ips|
    ensures ips[i] != ips[j]
  {
    assert Value(ips[i]) == (from + i) % SPACE && Value(ips[j]) == (from + j) % SPACE;
    Apart(from, i, j);
  }

  lemma Apart(from: int, i: nat, j: nat)
    requires 0 <= from < SPACE && i < j < i + SPACE
    ensures (from + i) % SPACE != (from + j) % SPACE
  {
  }

  /** Lists the addresses from `ip` to `end`, advancing `ip` in place. */
  method Enumerate(ip: array<octet>, end: array<octet>) returns (ips: seq<seq<octet>>)
    requires ip.Length == end.Length == 4 && ip != end
    modifies ip
    ensures Walk(ips, Value(old(ip[..])), Ahead(Value(old(ip[..])), Value(old(end[..]))))
  {
    ghost var from, to := Value(ip[..]), Value(end[..]);
    ips := [ip[..]];
    ghost var k: nat := 0;
    while ip[..] != end[..]
      invariant end[..] == old(end[..])
      invariant k <= Ahead(from, to) && Walk(ips, from, k) && Value(ip[..]) == (from + k) % SPACE
      invariant ips[k] == ip[..]
      decreases Ahead(from, to) - k
    {
      NotYet(from, to, k, ip[..], end[..]);
      Increment(ip);
      Successor(from, k);
      ips := ips + [ip[..]];
      k := k + 1;
    }
    Arrived(from, to, k);
    var last := end[..];
    if last !in ips {
      ips := ips + [last];
    }
  }

  lemma NotYet(from: int, to: int, k: nat, ip: seq<octet>, end: seq<octet>)
    requires 0 <= from < SPACE && 0 <= to < SPACE && k <= Ahead(from, to)
    requires |ip| == |end| == 4 && ip != end && Value(ip) == (from + k) % SPACE && Value(end) == to
    ensures k < Ahead(from, to)
  {
    if Value(ip) == Value(end) { ValueInjective(ip, end); }
  }

  lemma Successor(from: int, k: nat)
    requires 0 <= from < SPACE
    ensures ((from + k) % SPACE + 1) % SPACE == (from + k + 1) % SPACE
  {
  }

  lemma Arrived(from: int, to: int, k: nat)
    requires 0 <= from < SPACE && 0 <= to < SPACE && k <= Ahead(from, to) && (from + k) % SPACE == to
    ensures k == Ahead(from, to)
  {
    if k < Ahead(from, to) { Apart(from, k, Ahead(from, to)); }
  }

  /** The first and last address the expansion works with. */
  function Bounds(a: seq<octet>, b: seq<octet>): (int, int)
    requires |a| == |b| == 4
  {
    if SomeOctetGreater(a, b) then (Value(b), Value(a)) else (Value(a), Value(b))
  }

  /** parseFabricExcludeIPRange, once both ends are parsed. */
  method ParseRange(start: array<octet>, end: array<octet>) returns (ips: seq<seq<octet>>)
    requires start.Length == end.Length == 4 && start != end
    modifies start, end
    ensures var (from, to) := Bounds(old(start[..]), old(end[..])); Walk(ips, from, Ahead(from, to))
  {
    var swap := IpLe(start, end);
    if swap {
      ips := Enumerate(end, start);
    } else {
      ips := Enumerate(start, end);
    }
  }

  // What the list contains -----------------------------------------------------------------

  ghost predicate Lists(ips: seq<seq<octet>>, v: int) {
    exists k :: 0 <= k < |ips| && |ips[k]| == 4 && Value(ips[k]) == v
  }

  /** The list holds exactly the addresses between its ends, going up and around. */
  lemma WalkLists(ips: seq<seq<octet>>, from: int, to: int, v: int)
    requires 0 <= from < SPACE && 0 <= to < SPACE && 0 <= v < SPACE && Walk(ips, from, Ahead(from, to))
    ensures Lists(ips, v) <==> Ahead(from, v) <= Ahead(from, to)
  {
    var k := Ahead(from, v);
    forall i: nat | i < |ips| && i != k ensures Value(ips[i]) != v {
      if i < k { Apart(from, i, k); } else { Apart(from, k, i); }
    }
    assert k <= Ahead(from, to) ==> Value(ips[k]) == v;
  }

  /** Octet by octet the first address is not greater. */
  predicate Below(a: seq<octet>, b: seq<octet>)
    requires |a| == |b| == 4
  {
    a[0] <= b[0] && a[1] <= b[1] && a[2] <= b[2] && a[3] <= b[3]
  }

  lemma GreaterIsNotBelow(a: seq<octet>, b: seq<octet>)
    requires |a| == |b| == 4
    ensures SomeOctetGreater(a, b) <==> !Below(a, b)
    ensures Below(a, b) ==> Value(a) <= Value(b)
  {
    assert a[0] > b[0] || a[1] > b[1] || a[2] > b[2] || a[3] > b[3] ==> SomeOctetGreater(a, b);
  }

  /** The list is the inclusive interval between the two addresses. */
  ghost predicate IsInterval(ips: seq<seq<octet>>, a: int, b: int) {
    forall v :: 0 <= v < SPACE ==> (Lists(ips, v) <==> (a <= v <= b || b <= v <= a))
  }

  /**
   The result is the inclusive interval exactly when the first address is not the smaller
   one, or is not greater in any octet.
   */
  lemma RangeExact(a: seq<octet>, b: seq<octet>, ips: seq<seq<octet>>)
    requires |a| == |b| == 4
    requires var (from, to) := Bounds(a, b); Walk(ips, from, Ahead(from, to))
    ensures IsInterval(ips, Value(a), Value(b)) <==> Value(a) >= Value(b) || Below(a, b)
  {
    var (from, to) := Bounds(a, b);
    GreaterIsNotBelow(a, b);
    forall v | 0 <= v < SPACE ensures Lists(ips, v) <==> Ahead(from, v) <= Ahead(from, to) {
      WalkLists(ips, from, to, v);
    }
    if Value(a) < Value(b) && !Below(a, b) {
      var v := if Value(b) > Value(a) + 1 then Value(a) + 1 else if Value(b) + 1 < SPACE then Value(b) + 1 else 0;
      assert Lists(ips, v) <==> Ahead(from, v) <= Ahead(from, to);
    }
  }

  /** A range that is read the wrong way round: 1.0.0.5-1.0.1.0 leaves out 1.0.0.6. */
  lemma WrongWayRound()
    ensures var (from, to) := Bounds([1, 0, 0, 5], [1, 0, 1, 0]);
            Ahead(from, Value([1, 0, 0, 6])) > Ahead(from, to)
  {
    GreaterIsNotBelow([1, 0, 0, 5], [1, 0, 1, 0]);
  }
}
