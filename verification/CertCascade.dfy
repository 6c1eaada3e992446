/**
 Regeneration of the cluster certificates (pkg/certs/generator.go, with the certificate
 list of utils/bkeagent/pkiutil/bkecertlist.go) when the CAs are self-signed.

 A certificate is its key, the key that signed it, and whether it expires soon.  New keys
 are numbered upwards, so a new key differs from every key and signer in use.
 */
module CertCascade {
  datatype Cert = Cert(key: nat, signer: nat, expiring: bool)

  /** An entry of the certificate list; a CA and the kubeconfig name no CA. */
  datatype Spec = Spec(name: string, caName: string)

  type Certs = map<string, Cert>

  const CA_NAMES: seq<string> := ["ca", "etcd", "proxy"]
  const KUBECONFIG := "kubeconfig"
  const SERVICE_ACCOUNT := "sa"

  // Names -----------------------------------------------------------------------------

  predicate Contains(s: string, part: string) {
    part <= s || (s != "" && Contains(s[1..], part))
  }

  function TrimSuffix(s: string, suffix: string): string {
    if |suffix| <= |s| && s[|s| - |suffix|..] == suffix then s[..|s| - |suffix|] else s
  }

  /** A suffix that is there is taken off, and nothing else. */
  lemma TrimSuffixIs(s: string, suffix: string, rest: string)
    ensures TrimSuffix(rest + suffix, suffix) == rest
    ensures TrimSuffix(s, suffix) == s || TrimSuffix(s, suffix) + suffix == s
  {
    assert (rest + suffix)[|rest|..] == suffix && (rest + suffix)[..|rest|] == rest;
  }

  /** The CA with this name can sign for the CA name of a leaf. */
  predicate Matches(ca: string, caName: string) {
    ca == caName || Contains(TrimSuffix(caName, "-ca"), ca)
  }

  /** Exactly one CA matches. */
  ghost predicate Signs(ca: string, caName: string) {
    ca in CA_NAMES && Matches(ca, caName) && forall c :: c in CA_NAMES && Matches(c, caName) ==> c == ca
  }

  predicate IsLeaf(spec: Spec) {
    spec.caName != ""
  }

  predicate IsCA(spec: Spec) {
    spec.caName == "" && spec.name != KUBECONFIG
  }

  /** A list in order: names are distinct, CAs are the known ones, and the one CA that
      matches a leaf comes before it. */
  ghost predicate WellOrdered(certs: seq<Spec>) {
    && (forall i, j :: 0 <= i < j < |certs| ==> certs[i].name != certs[j].name)
    && (forall i :: 0 <= i < |certs| ==> IsCA(certs[i]) ==> certs[i].name in CA_NAMES)
    && (forall i :: 0 <= i < |certs| ==> certs[i].name != SERVICE_ACCOUNT)
    && (forall i :: 0 <= i < |certs| ==> IsLeaf(certs[i]) ==>
          certs[i].name !in CA_NAMES && certs[i].caName != KUBECONFIG && SignedAbove(certs, i))
  }

  ghost predicate SignedAbove(certs: seq<Spec>, i: nat)
    requires i < |certs|
  {
    exists j :: 0 <= j < i && IsCA(certs[j]) && Signs(certs[j].name, certs[i].caName)
  }

  /** The secret exists and does not expire soon. */
  predicate Present(secrets: Certs, name: string) {
    name in secrets && !secrets[name].expiring
  }

  /** The stored leaf is signed by the stored CA. */
  predicate SignedBy(secrets: Certs, leaf: string, ca: string) {
    leaf in secrets && ca in secrets ==> secrets[leaf].signer == secrets[ca].key
  }

  /** Every stored leaf is signed by the stored CA it names. */
  ghost predicate Chained(certs: seq<Spec>, secrets: Certs) {
    forall spec, ca :: spec in certs && IsLeaf(spec) && Signs(ca, spec.caName) ==> SignedBy(secrets, spec.name, ca)
  }

  /** The leaf is kept while its CA is replaced: the cascade looks for the CA under the name
      the leaf uses, but CAs are noted under their own. */
  ghost predicate Missed(secrets: Certs, spec: Spec, ca: string) {
    Present(secrets, spec.name) && !Present(secrets, ca) && spec.caName != ca
  }

  ghost predicate NoneMissed(certs: seq<Spec>, secrets: Certs) {
    forall spec, ca :: spec in certs && IsLeaf(spec) && Signs(ca, spec.caName) ==> !Missed(secrets, spec, ca)
  }

  /** If leaves use the names of their CAs, the cascade misses nothing. */
  lemma ExactNamesMissNothing(certs: seq<Spec>, secrets: Certs)
    requires forall spec :: spec in certs && IsLeaf(spec) ==> spec.caName in CA_NAMES
    ensures NoneMissed(certs, secrets)
  {
    assert forall c :: Matches(c, c);
  }

  // The list of the program -------------------------------------------------------------

  const DEFAULT_CERTS: seq<Spec> := [
    Spec("ca", ""), Spec("apiserver", "ca"), Spec("apiserver-kubelet-client", "ca"),
    Spec("proxy", ""), Spec("front-proxy-client", "front-proxy-ca"),
    Spec("etcd", ""), Spec("etcd-server", "etcd-ca"), Spec("etcd-peer", "etcd-ca"),
    Spec("etcd-healthcheck-client", "etcd-ca"), Spec("apiserver-etcd-client", "etcd-ca"),
    Spec(KUBECONFIG, "")]

  lemma {:induction false} NoSuchCharacter(s: string, part: string, k: nat)
    requires k < |part| && part[k] !in s
    ensures !Contains(s, part)
  {
    assert |part| <= |s| ==> s[k] in s;
    if s != "" { NoSuchCharacter(s[1..], part, k); }
  }

  lemma {:induction false} ContainsAt(s: string, part: string, i: nat)
    requires i <= |s| && part <= s[i..]
    ensures Contains(s, part)
  {
    if i > 0 {
      assert s[1..][i - 1..] == s[i..];
      ContainsAt(s[1..], part, i - 1);
    }
  }

  lemma OnlyMatch(ca: string, other: string, third: string, caName: string)
    requires multiset{ca, other, third} == multiset(CA_NAMES)
    requires Matches(ca, caName) && !Matches(other, caName) && !Matches(third, caName)
    ensures Signs(ca, caName)
  {
    forall c | c in CA_NAMES ensures c == ca || c == other || c == third {
      assert c in multiset(CA_NAMES);
    }
    assert ca in multiset(CA_NAMES);
  }

  /** One CA name occurs in the trimmed name, the others have a letter that does not. */
  lemma OnlyOccurrence(caName: string, trimmed: string, ca: string, i: nat, other: string, k: nat, third: string,
                       l: nat)
    requires multiset{ca, other, third} == multiset(CA_NAMES)
    requires TrimSuffix(caName, "-ca") == trimmed && i <= |trimmed| && ca <= trimmed[i..]
    requires k < |other| && other[k] !in trimmed && l < |third| && third[l] !in trimmed
    requires other != caName && third != caName
    ensures Signs(ca, caName)
  {
    ContainsAt(trimmed, ca, i);
    NoSuchCharacter(trimmed, other, k);
    NoSuchCharacter(trimmed, third, l);
    OnlyMatch(ca, other, third, caName);
  }

  lemma RootSigner()
    ensures Signs("ca", "ca")
  {
    OnlyOccurrence("ca", "ca", "ca", 0, "etcd", 0, "proxy", 0);
  }

  lemma EtcdSigner()
    ensures Signs("etcd", "etcd-ca")
  {
    OnlyOccurrence("etcd-ca", "etcd", "etcd", 0, "ca", 1, "proxy", 0);
  }

  lemma ProxySigner()
    ensures Signs("proxy", "front-proxy-ca")
  {
    OnlyOccurrence("front-proxy-ca", "front-proxy", "proxy", 6, "ca", 0, "etcd", 0);
  }

  // What the loop maintains ------------------------------------------------------------

  /** All keys and signers in use are below `next`. */
  ghost predicate Below(secrets: Certs, next: nat) {
    forall n :: n in secrets ==> secrets[n].key < next && secrets[n].signer < next
  }

  /** The CA contents in memory: replaced in this run, or as stored. */
  ghost predicate CaContent(secrets: Certs, first: nat, renewed: set<string>, cas: Certs) {
    && (forall c :: c in cas ==>
          c in CA_NAMES
          && if c in renewed then cas[c].key >= first && !cas[c].expiring else c in secrets && cas[c] == secrets[c])
    && (forall c :: c in renewed && c in CA_NAMES ==> c in cas)
  }

  predicate Replaced(secrets: Certs, renewed: set<string>, spec: Spec) {
    !Present(secrets, spec.name) || spec.caName in renewed
  }

  /** A leaf that was replaced is signed by the CA in memory. */
  ghost predicate LeafContent(secrets: Certs, renewed: set<string>, cas: Certs, leaves: Certs, spec: Spec) {
    if Replaced(secrets, renewed, spec)
    then && spec.name in leaves && !leaves[spec.name].expiring
         && forall ca :: Signs(ca, spec.caName) ==> ca in cas && leaves[spec.name].signer == cas[ca].key
    else spec.name !in leaves
  }

  ghost predicate LeafContents(certs: seq<Spec>, i: nat, secrets: Certs, renewed: set<string>, cas: Certs,
                               leaves: Certs)
    requires i <= |certs|
  {
    && (forall j :: 0 <= j < i && IsLeaf(certs[j]) ==> LeafContent(secrets, renewed, cas, leaves, certs[j]))
    && LeafNames(certs, i, leaves)
  }

  /** What was generated for leaves belongs to entries seen so far. */
  ghost predicate LeafNames(certs: seq<Spec>, i: nat, leaves: Certs)
    requires i <= |certs|
  {
    forall n :: n in leaves ==> n !in CA_NAMES && exists j :: 0 <= j < i && certs[j].name == n
  }

  /** CAs, and the kubeconfig, are renewed when they are not present. */
  ghost predicate Renewals(certs: seq<Spec>, i: nat, secrets: Certs, renewed: set<string>)
    requires i <= |certs|
  {
    && (forall j :: 0 <= j < i && !IsLeaf(certs[j]) ==>
          (certs[j].name in renewed <==> !Present(secrets, certs[j].name)))
    && (forall n :: n in renewed ==> exists j :: 0 <= j < i && !IsLeaf(certs[j]) && certs[j].name == n)
  }

  lemma RenewStep(certs: seq<Spec>, i: nat, secrets: Certs, renewed: set<string>, renewed': set<string>)
    requires WellOrdered(certs) && i < |certs| && Renewals(certs, i, secrets, renewed)
    requires renewed' ==
               if !IsLeaf(certs[i]) && !Present(secrets, certs[i].name) then renewed + {certs[i].name} else renewed
    ensures Renewals(certs, i + 1, secrets, renewed')
  {
    forall n | n in renewed'
      ensures exists j :: 0 <= j < i + 1 && !IsLeaf(certs[j]) && certs[j].name == n
    {
      if n in renewed {
        var j :| 0 <= j < i && !IsLeaf(certs[j]) && certs[j].name == n;
      }
    }
  }

  /** Renewing a CA further down the list does not touch a leaf above it. */
  lemma LeafStays(certs: seq<Spec>, j: nat, i: nat, secrets: Certs, renewed: set<string>, cas: Certs, cas': Certs,
                  leaves: Certs)
    requires WellOrdered(certs) && j < i < |certs| && !IsLeaf(certs[i]) && IsLeaf(certs[j])
    requires LeafContent(secrets, renewed, cas, leaves, certs[j])
    requires forall c :: c in cas && c != certs[i].name ==> c in cas' && cas'[c] == cas[c]
    ensures LeafContent(secrets, renewed + {certs[i].name}, cas', leaves, certs[j])
  {
    var spec, name := certs[j], certs[i].name;
    var k :| 0 <= k < j && IsCA(certs[k]) && Signs(certs[k].name, spec.caName);
    assert forall ca :: Signs(ca, spec.caName) ==> ca == certs[k].name;
    assert certs[k].name != name;
    assert Matches(name, name) && (name != KUBECONFIG ==> name in CA_NAMES);
    assert spec.caName != name;
  }

  lemma LeavesStay(certs: seq<Spec>, i: nat, secrets: Certs, renewed: set<string>, cas: Certs, cas': Certs,
                   leaves: Certs)
    requires WellOrdered(certs) && i < |certs| && !IsLeaf(certs[i])
    requires LeafContents(certs, i, secrets, renewed, cas, leaves)
    requires forall c :: c in cas && c != certs[i].name ==> c in cas' && cas'[c] == cas[c]
    ensures LeafContents(certs, i + 1, secrets, renewed + {certs[i].name}, cas', leaves)
  {
    forall j | 0 <= j < i && IsLeaf(certs[j])
      ensures LeafContent(secrets, renewed + {certs[i].name}, cas', leaves, certs[j])
    {
      LeafStays(certs, j, i, secrets, renewed, cas, cas', leaves);
    }
    LeafNamesStep(certs, i, leaves, leaves);
  }

  /** Adding the content of the next leaf, or keeping it. */
  lemma LeafStep(certs: seq<Spec>, i: nat, secrets: Certs, renewed: set<string>, cas: Certs, leaves: Certs,
                 leaves': Certs)
    requires WellOrdered(certs) && i < |certs| && IsLeaf(certs[i])
    requires LeafContents(certs, i, secrets, renewed, cas, leaves)
    requires LeafContent(secrets, renewed, cas, leaves', certs[i])
    requires certs[i].name in leaves' ==> leaves' == leaves[certs[i].name := leaves'[certs[i].name]]
    requires certs[i].name !in leaves' ==> leaves' == leaves
    ensures LeafContents(certs, i + 1, secrets, renewed, cas, leaves')
  {
    forall j | 0 <= j < i && IsLeaf(certs[j])
      ensures LeafContent(secrets, renewed, cas, leaves', certs[j])
    {
      assert LeafContent(secrets, renewed, cas, leaves, certs[j]);
    }
    LeafNamesStep(certs, i, leaves, leaves');
  }

  lemma LeafNamesStep(certs: seq<Spec>, i: nat, leaves: Certs, leaves': Certs)
    requires i < |certs| && LeafNames(certs, i, leaves)
    requires forall n :: n in leaves' ==> n in leaves || (n == certs[i].name && n !in CA_NAMES)
    ensures LeafNames(certs, i + 1, leaves')
  {
    forall n | n in leaves' ensures exists j :: 0 <= j < i + 1 && certs[j].name == n {
      if n in leaves {
        var j :| 0 <= j < i && certs[j].name == n;
      }
    }
  }

  /** Loading the stored CAs into an empty memory changes nothing for the leaves so far: there
      are no replaced ones. */
  lemma LoadStep(certs: seq<Spec>, i: nat, secrets: Certs, renewed: set<string>, cas: Certs, leaves: Certs)
    requires i <= |certs| && LeafContents(certs, i, secrets, renewed, map[], leaves) && WellOrdered(certs)
    ensures LeafContents(certs, i, secrets, renewed, cas, leaves)
  {
    forall j | 0 <= j < i && IsLeaf(certs[j])
      ensures LeafContent(secrets, renewed, cas, leaves, certs[j])
    {
      assert LeafContent(secrets, renewed, map[], leaves, certs[j]);
      var k :| 0 <= k < j && IsCA(certs[k]) && Signs(certs[k].name, certs[j].caName);
      assert Signs(certs[k].name, certs[j].caName);
    }
  }

  // The stored certificates after a run ------------------------------------------------

  function Merged(secrets: Certs, leaves: Certs, cas: Certs): Certs {
    secrets + leaves + cas
  }

  /** The fate of one leaf: it is signed by its CA after the run unless it was missed. */
  lemma LeafFate(certs: seq<Spec>, i: nat, j: nat, secrets: Certs, first: nat, renewed: set<string>, cas: Certs,
                 leaves: Certs)
    requires WellOrdered(certs) && 0 <= j < i < |certs| && IsLeaf(certs[i]) && IsCA(certs[j])
    requires Signs(certs[j].name, certs[i].caName)
    requires Below(secrets, first) && SignedBy(secrets, certs[i].name, certs[j].name)
    requires CaContent(secrets, first, renewed, cas) && Renewals(certs, |certs|, secrets, renewed)
    requires LeafContents(certs, |certs|, secrets, renewed, cas, leaves)
    ensures SignedBy(Merged(secrets, leaves, cas), certs[i].name, certs[j].name) <==>
              !Missed(secrets, certs[i], certs[j].name)
  {
    var leaf, ca := certs[i], certs[j].name;
    assert LeafContent(secrets, renewed, cas, leaves, leaf);
    assert ca in renewed <==> !Present(secrets, ca);
    assert leaf.caName != ca ==> leaf.caName !in renewed by {
      if leaf.caName != ca && leaf.caName in renewed {
        var k :| 0 <= k < |certs| && !IsLeaf(certs[k]) && certs[k].name == leaf.caName;
        assert IsCA(certs[k]) && Matches(leaf.caName, leaf.caName);
      }
    }
  }

  /**
   After a successful run every stored leaf is signed by the stored CA it names, exactly
   when there was no leaf that is present, names its CA by another name, and whose CA was
   missing or about to expire.
   */
  lemma CascadeExact(certs: seq<Spec>, secrets: Certs, first: nat, renewed: set<string>, cas: Certs, leaves: Certs)
    requires WellOrdered(certs) && Below(secrets, first) && Chained(certs, secrets)
    requires CaContent(secrets, first, renewed, cas) && Renewals(certs, |certs|, secrets, renewed)
    requires LeafContents(certs, |certs|, secrets, renewed, cas, leaves)
    ensures Chained(certs, Merged(secrets, leaves, cas)) <==> NoneMissed(certs, secrets)
  {
    forall spec, ca | spec in certs && IsLeaf(spec) && Signs(ca, spec.caName)
      ensures SignedBy(Merged(secrets, leaves, cas), spec.name, ca) <==> !Missed(secrets, spec, ca)
    {
      var i :| 0 <= i < |certs| && certs[i] == spec;
      var j :| 0 <= j < i && IsCA(certs[j]) && Signs(certs[j].name, certs[i].caName);
      assert ca == certs[j].name;
      assert SignedBy(secrets, spec.name, ca);
      LeafFate(certs, i, j, secrets, first, renewed, cas, leaves);
    }
  }

  // When a run succeeds --------------------------------------------------------------------

  /** Entry i is a leaf that has to be generated. */
  ghost predicate NeedsLeaf(certs: seq<Spec>, secrets: Certs, i: nat)
    requires i < |certs|
  {
    IsLeaf(certs[i]) && (!Present(secrets, certs[i].name) || Cascades(certs, secrets, i))
  }

  ghost predicate Cascades(certs: seq<Spec>, secrets: Certs, i: nat)
    requires i < |certs|
  {
    exists j :: 0 <= j < i && !IsLeaf(certs[j]) && certs[j].name == certs[i].caName && !Present(secrets, certs[j].name)
  }

  ghost predicate CAsPresent(certs: seq<Spec>, secrets: Certs, i: nat)
    requires i <= |certs|
  {
    forall j :: 0 <= j < i && IsCA(certs[j]) ==> Present(secrets, certs[j].name)
  }

  /** The stored CAs were loaded before entry i: some leaf was generated before any CA was. */
  ghost predicate LoadedBefore(certs: seq<Spec>, secrets: Certs, i: nat)
    requires i <= |certs|
  {
    exists k :: 0 <= k < i && NeedsLeaf(certs, secrets, k) && CAsPresent(certs, secrets, k)
  }

  /** A CA for entry i is at hand: it was renewed, or the stored ones are loaded by then. */
  ghost predicate Servable(certs: seq<Spec>, secrets: Certs, i: nat)
    requires i < |certs|
  {
    NeedsLeaf(certs, secrets, i) ==>
      LoadedBefore(certs, secrets, i + 1) || forall ca :: Signs(ca, certs[i].caName) ==> !Present(secrets, ca)
  }

  ghost predicate AllServable(certs: seq<Spec>, secrets: Certs) {
    forall i :: 0 <= i < |certs| ==> Servable(certs, secrets, i)
  }

  /** What is in memory before entry i: all stored CAs if they were loaded, else renewed ones only. */
  ghost predicate Memory(certs: seq<Spec>, i: nat, secrets: Certs, renewed: set<string>, cas: Certs)
    requires i <= |certs|
  {
    if LoadedBefore(certs, secrets, i) then forall c :: c in CA_NAMES && c in secrets ==> c in cas
    else forall c :: c in cas ==> c in renewed
  }

  lemma LoadedBeforeStep(certs: seq<Spec>, secrets: Certs, i: nat)
    requires i < |certs|
    ensures LoadedBefore(certs, secrets, i + 1) <==>
              LoadedBefore(certs, secrets, i) || (NeedsLeaf(certs, secrets, i) && CAsPresent(certs, secrets, i))
  {
    if LoadedBefore(certs, secrets, i) {
      var k :| 0 <= k < i && NeedsLeaf(certs, secrets, k) && CAsPresent(certs, secrets, k);
    }
  }

  lemma ReplacedIsNeeded(certs: seq<Spec>, i: nat, secrets: Certs, renewed: set<string>)
    requires i < |certs| && IsLeaf(certs[i]) && Renewals(certs, i, secrets, renewed)
    ensures NeedsLeaf(certs, secrets, i) <==> Replaced(secrets, renewed, certs[i])
  {
    if certs[i].caName in renewed {
      var j :| 0 <= j < i && !IsLeaf(certs[j]) && certs[j].name == certs[i].caName;
    }
  }

  /** Memory is empty exactly when nothing was loaded and no CA was renewed. */
  lemma NothingInMemory(certs: seq<Spec>, i: nat, secrets: Certs, first: nat, renewed: set<string>, cas: Certs)
    requires WellOrdered(certs) && i <= |certs| && CaContent(secrets, first, renewed, cas)
    requires Renewals(certs, i, secrets, renewed) && Memory(certs, i, secrets, renewed, cas)
    requires !LoadedBefore(certs, secrets, i)
    ensures cas == map[] <==> CAsPresent(certs, secrets, i)
  {
    if cas == map[] {
      forall j | 0 <= j < i && IsCA(certs[j]) ensures Present(secrets, certs[j].name) {
        assert certs[j].name !in renewed;
      }
    } else {
      var c :| c in cas;
      var j :| 0 <= j < i && !IsLeaf(certs[j]) && certs[j].name == c;
      assert KUBECONFIG !in CA_NAMES;
      assert IsCA(certs[j]) && !Present(secrets, certs[j].name);
    }
  }

  /** A leaf finds its CA in memory exactly when it is servable. */
  lemma FoundExactly(certs: seq<Spec>, i: nat, secrets: Certs, first: nat, renewed: set<string>, cas0: Certs,
                     cas: Certs)
    requires WellOrdered(certs) && i < |certs| && NeedsLeaf(certs, secrets, i)
    requires CaContent(secrets, first, renewed, cas0) && Renewals(certs, i, secrets, renewed)
    requires Memory(certs, i, secrets, renewed, cas0)
    requires if cas0 != map[] then cas == cas0 else Loaded(CA_NAMES, secrets, cas)
    ensures (exists c :: c in cas && Matches(c, certs[i].caName)) <==> Servable(certs, secrets, i)
    ensures Memory(certs, i + 1, secrets, renewed, cas)
  {
    LoadedBeforeStep(certs, secrets, i);
    if !LoadedBefore(certs, secrets, i) { NothingInMemory(certs, i, secrets, first, renewed, cas0); }
    var j :| 0 <= j < i && IsCA(certs[j]) && Signs(certs[j].name, certs[i].caName);
    var ca := certs[j].name;
    assert forall c :: c in CA_NAMES && Matches(c, certs[i].caName) ==> c == ca;
    assert forall c :: c in cas ==> c in CA_NAMES;
    assert (exists c :: c in cas && Matches(c, certs[i].caName)) <==> ca in cas;
    assert ca in renewed <==> !Present(secrets, ca);
  }

  class Generator {
    const readable: bool            // every read of a secret succeeds
    var secrets: Certs           // the stored secrets
    var cas: Certs               // caCertificatesContent
    var leaves: Certs            // certificatesContent
    var next: nat                // the next new key

    constructor (secrets: Certs, next: nat, readable: bool)
      ensures this.secrets == secrets && this.next == next && this.readable == readable && cas == leaves == map[]
    {
      this.secrets, this.next, this.readable, cas, leaves := secrets, next, readable, map[], map[];
    }

    /** All keys and signers in use are older than the next key, which is new therefore. */
    ghost predicate Fresh()
      reads this
    {
      Below(secrets, next) && Below(cas, next) && Below(leaves, next)
    }

    method Read() returns (ok: bool)
      ensures readable ==> ok
    {
      ok := *;
      ok := ok || readable;
    }

    /** loadCaCertContent. */
    method LoadCaCertContent() returns (ok: bool)
      requires cas == map[]
      modifies this`cas
      ensures readable ==> ok
      ensures ok ==> Loaded(CA_NAMES, secrets, cas)
      ensures forall c :: c in cas ==> c in secrets && cas[c] == secrets[c]
    {
      for i := 0 to |CA_NAMES|
        invariant Loaded(CA_NAMES[..i], secrets, cas)
      {
        ok := Read();
        if !ok { return; }
        LoadedStep(CA_NAMES, i, secrets, cas);
        if CA_NAMES[i] in secrets {
          cas := cas[CA_NAMES[i] := secrets[CA_NAMES[i]]];
        }
      }
      assert CA_NAMES[..|CA_NAMES|] == CA_NAMES;
      ok := true;
    }

    /** generateCertAndKeyWithCA; the contents of the CAs are searched in any order. */
    method GenerateWithCA(spec: Spec) returns (ok: bool)
      modifies this`cas, this`leaves, this`next
      ensures next == if ok then old(next) + 1 else old(next)
      ensures ok ==> spec.name in leaves && leaves[spec.name].key == old(next)
      ensures old(Fresh()) ==> Fresh()
      ensures ok || readable ==> if old(cas) != map[] then cas == old(cas) else Loaded(CA_NAMES, secrets, cas)
      ensures !ok ==> leaves == old(leaves)
      ensures ok ==> Signed(spec, cas, old(leaves), leaves)
      ensures readable ==> (ok <==> exists c :: c in cas && Matches(c, spec.caName))
    {
      ok := true;
      if cas == map[] { ok := LoadCaCertContent(); }
      if !ok { return; }
      var rest := cas.Keys;
      ok := false;
      while rest != {}
        invariant rest <= cas.Keys && !ok && leaves == old(leaves) && next == old(next)
        invariant forall c :: c in cas && c !in rest ==> !Matches(c, spec.caName)
        decreases rest
      {
        var c :| c in rest;
        if c == spec.caName || Contains(TrimSuffix(spec.caName, "-ca"), c) {
          leaves := leaves[spec.name := Cert(next, cas[c].key, false)];
          next := next + 1;
          return true;
        }
        rest := rest - {c};
      }
    }

    /** generateCACertAndKey; for the kubeconfig there is nothing to generate here. */
    method GenerateCA(spec: Spec)
      modifies this`cas, this`next
      ensures next == (if spec.name == KUBECONFIG then old(next) else old(next) + 1) && (old(Fresh()) ==> Fresh())
      ensures cas == if spec.name == KUBECONFIG then old(cas)
                     else old(cas)[spec.name := Cert(old(next), old(next), false)]
    {
      if spec.name == KUBECONFIG { return; }
      cas := cas[spec.name := Cert(next, next, false)];
      next := next + 1;
    }

    /** One entry of the certificate list; with reads that succeed it fails exactly when it is
        a leaf that finds no CA. */
    method GenerateEntry(certs: seq<Spec>, i: nat, regenerated: set<string>, ghost first: nat)
      returns (ok: bool, generated: bool, regenerated': set<string>)
      requires WellOrdered(certs) && i < |certs| && next >= first
      requires Generated(certs, i, secrets, first, regenerated, cas, leaves)
      modifies this`cas, this`leaves, this`next
      ensures ok ==> next >= first && Generated(certs, i + 1, secrets, first, regenerated', cas, leaves)
      ensures !generated ==> cas == old(cas) && leaves == old(leaves)
      ensures old(Fresh()) ==> Fresh()
      ensures readable ==> (ok <==> Servable(certs, secrets, i))
    {
      var spec := certs[i];
      generated, regenerated' := false, regenerated;
      ok := Read();
      if !ok { return; }
      if IsLeaf(spec) { ReplacedIsNeeded(certs, i, secrets, regenerated); }
      var present := Present(secrets, spec.name);
      if present && spec.caName != "" && spec.caName in regenerated { present := false; }
      if present {
        KeptStep(certs, i, secrets, first, regenerated, cas, leaves);
        return;
      }
      generated := true;
      if spec.caName != "" {
        ok := GenerateWithCA(spec);
        if ok || readable { FoundExactly(certs, i, secrets, first, regenerated, old(cas), cas); }
        if ok { SignedStep(certs, i, secrets, first, regenerated, old(cas), cas, old(leaves), leaves); }
        return;
      }
      GenerateCA(spec);
      RenewedStep(certs, i, secrets, first, regenerated, old(cas), cas, leaves);
      regenerated' := regenerated + {spec.name};
    }

    /** The loop of generateCertificates over the list. */
    method GenerateListed(certs: seq<Spec>) returns (ok: bool, needed: bool, ghost renewed: set<string>)
      requires WellOrdered(certs) && cas == leaves == map[]
      modifies this`cas, this`leaves, this`next
      ensures (next >= old(next) || !ok) && (old(Fresh()) ==> Fresh())
      ensures ok ==> Generated(certs, |certs|, secrets, old(next), renewed, cas, leaves)
      ensures ok && !needed ==> cas == leaves == map[]
      ensures readable ==> (ok <==> AllServable(certs, secrets))
    {
      var regenerated: set<string> := {};
      renewed, needed := {}, false;
      for i := 0 to |certs|
        invariant next >= old(next) && renewed == regenerated
        invariant Generated(certs, i, secrets, old(next), regenerated, cas, leaves)
        invariant (!needed ==> cas == leaves == map[]) && (old(Fresh()) ==> Fresh())
        invariant readable ==> forall j :: 0 <= j < i ==> Servable(certs, secrets, j)
      {
        var generated;
        ok, generated, regenerated := GenerateEntry(certs, i, regenerated, old(next));
        renewed, needed := regenerated, needed || generated;
        if !ok { return; }
      }
      ok := true;
    }

    /** generateCertificates: the list, then the service account key.  `listed` is what was
        generated for the leaves of the list. */
    method GenerateCertificates(certs: seq<Spec>)
      returns (ok: bool, needed: bool, ghost renewed: set<string>, ghost listed: Certs)
      requires WellOrdered(certs) && cas == leaves == map[]
      modifies this`cas, this`leaves, this`next
      ensures ok ==> Generated(certs, |certs|, secrets, old(next), renewed, cas, listed)
      ensures ok ==> WithServiceAccount(secrets, listed, leaves)
      ensures old(Fresh()) ==> Fresh()
      ensures ok && !needed ==> Merged(secrets, leaves, cas) == secrets
      ensures readable ==> (ok <==> AllServable(certs, secrets))
    {
      listed := map[];
      ok, needed, renewed := GenerateListed(certs);
      if !ok { return; }
      listed := leaves;
      ok := Read();
      if ok && !Present(secrets, SERVICE_ACCOUNT) {
        needed := true;
        leaves := leaves[SERVICE_ACCOUNT := Cert(next, next, false)];
        next := next + 1;
      }
    }

    /** LookUpOrGenerate in self-signed mode, with secret writes that succeed. */
    method LookUpOrGenerate(certs: seq<Spec>) returns (ok: bool)
      requires WellOrdered(certs) && cas == leaves == map[] && Below(secrets, next)
      modifies this
      ensures ok && old(Chained(certs, secrets)) ==> (Chained(certs, secrets) <==> old(NoneMissed(certs, secrets)))
      ensures ok ==> forall spec :: spec in certs && spec.name != KUBECONFIG ==> Present(secrets, spec.name)
      ensures ok ==> Present(secrets, SERVICE_ACCOUNT)
      ensures Below(secrets, next)
      ensures !ok ==> secrets == old(secrets)
      ensures readable ==> (ok <==> old(AllServable(certs, secrets)))
    {
      var needed;
      ghost var renewed, listed, first := {}, map[], next;
      ok, needed, renewed, listed := GenerateCertificates(certs);
      if !ok { return; }
      RunEffect(certs, secrets, first, renewed, cas, listed, leaves);
      MergedBelow(secrets, leaves, cas, next);
      if needed {
        secrets := Merged(secrets, leaves, cas);
      }
    }
  }

  /** What a run makes of the stored secrets. */
  lemma RunEffect(certs: seq<Spec>, secrets: Certs, first: nat, renewed: set<string>, cas: Certs, listed: Certs,
                  leaves: Certs)
    requires WellOrdered(certs) && Below(secrets, first)
    requires Generated(certs, |certs|, secrets, first, renewed, cas, listed)
    requires WithServiceAccount(secrets, listed, leaves)
    ensures var after := Merged(secrets, leaves, cas);
            && (Chained(certs, secrets) ==> (Chained(certs, after) <==> NoneMissed(certs, secrets)))
            && (forall spec :: spec in certs && spec.name != KUBECONFIG ==> Present(after, spec.name))
            && Present(after, SERVICE_ACCOUNT)
  {
    if Chained(certs, secrets) { CascadeExact(certs, secrets, first, renewed, cas, listed); }
    AllPresent(certs, secrets, first, renewed, cas, listed);
    ServiceAccountApart(certs, secrets, listed, leaves, cas);
  }

  lemma MergedBelow(secrets: Certs, leaves: Certs, cas: Certs, next: nat)
    requires Below(secrets, next) && Below(leaves, next) && Below(cas, next)
    ensures Below(Merged(secrets, leaves, cas), next)
  {
  }

  /** The service account key is generated when it is not present. */
  ghost predicate WithServiceAccount(secrets: Certs, listed: Certs, leaves: Certs) {
    if Present(secrets, SERVICE_ACCOUNT) then leaves == listed
    else && SERVICE_ACCOUNT in leaves && !leaves[SERVICE_ACCOUNT].expiring
         && leaves == listed[SERVICE_ACCOUNT := leaves[SERVICE_ACCOUNT]]
  }

  /** It has nothing to do with the certificates of the list. */
  lemma ServiceAccountApart(certs: seq<Spec>, secrets: Certs, listed: Certs, leaves: Certs, cas: Certs)
    requires WellOrdered(certs) && WithServiceAccount(secrets, listed, leaves)
    requires LeafNames(certs, |certs|, listed) && forall c :: c in cas ==> c in CA_NAMES
    ensures Chained(certs, Merged(secrets, leaves, cas)) <==> Chained(certs, Merged(secrets, listed, cas))
    ensures forall spec :: spec in certs ==>
              (Present(Merged(secrets, leaves, cas), spec.name) <==> Present(Merged(secrets, listed, cas), spec.name))
    ensures Present(Merged(secrets, leaves, cas), SERVICE_ACCOUNT)
  {
    NotACertificate(certs, listed);
    AgreeMerged(secrets, listed, leaves, cas);
    AgreeChained(certs, Merged(secrets, leaves, cas), Merged(secrets, listed, cas));
  }

  ghost predicate Agree(a: Certs, b: Certs) {
    forall n :: n != SERVICE_ACCOUNT ==> (n in a <==> n in b) && (n in a ==> a[n] == b[n])
  }

  lemma AgreeMerged(secrets: Certs, listed: Certs, leaves: Certs, cas: Certs)
    requires WithServiceAccount(secrets, listed, leaves) && SERVICE_ACCOUNT !in listed && SERVICE_ACCOUNT !in cas
    ensures Agree(Merged(secrets, leaves, cas), Merged(secrets, listed, cas))
    ensures Present(Merged(secrets, leaves, cas), SERVICE_ACCOUNT)
  {
  }

  lemma AgreeChained(certs: seq<Spec>, a: Certs, b: Certs)
    requires Agree(a, b) && SERVICE_ACCOUNT !in CA_NAMES
    requires forall spec :: spec in certs ==> spec.name != SERVICE_ACCOUNT
    ensures Chained(certs, a) <==> Chained(certs, b)
    ensures forall spec :: spec in certs ==> (Present(a, spec.name) <==> Present(b, spec.name))
  {
    forall spec, ca | spec in certs && IsLeaf(spec) && Signs(ca, spec.caName)
      ensures SignedBy(a, spec.name, ca) <==> SignedBy(b, spec.name, ca)
    {
      assert ca != SERVICE_ACCOUNT;
    }
  }

  lemma NotACertificate(certs: seq<Spec>, listed: Certs)
    requires WellOrdered(certs) && LeafNames(certs, |certs|, listed)
    ensures SERVICE_ACCOUNT !in CA_NAMES && SERVICE_ACCOUNT !in listed
    ensures forall spec :: spec in certs ==> spec.name != SERVICE_ACCOUNT
  {
    assert forall c :: c in CA_NAMES ==> c != SERVICE_ACCOUNT;
  }

  /** The stored ones among the named CAs. */
  ghost predicate Loaded(names: seq<string>, secrets: Certs, cas: Certs) {
    forall c :: (c in cas <==> c in names && c in secrets) && (c in cas ==> cas[c] == secrets[c])
  }

  lemma LoadedStep(names: seq<string>, i: nat, secrets: Certs, cas: Certs)
    requires i < |names| && Loaded(names[..i], secrets, cas)
    ensures Loaded(names[..i + 1], secrets, if names[i] in secrets then cas[names[i] := secrets[names[i]]] else cas)
  {
    assert names[..i + 1] == names[..i] + [names[i]];
  }

  /** The leaf was added, signed by some matching CA. */
  ghost predicate Signed(spec: Spec, cas: Certs, leaves: Certs, leaves': Certs) {
    && spec.name in leaves' && leaves' == leaves[spec.name := leaves'[spec.name]] && !leaves'[spec.name].expiring
    && exists c :: c in cas && Matches(c, spec.caName) && leaves'[spec.name].signer == cas[c].key
  }

  /** The loop of generateCertificates before entry i. */
  ghost predicate Generated(certs: seq<Spec>, i: nat, secrets: Certs, first: nat, renewed: set<string>, cas: Certs,
                            leaves: Certs) {
    && i <= |certs|
    && CaContent(secrets, first, renewed, cas)
    && Renewals(certs, i, secrets, renewed)
    && LeafContents(certs, i, secrets, renewed, cas, leaves)
    && Memory(certs, i, secrets, renewed, cas)
  }

  lemma KeptStep(certs: seq<Spec>, i: nat, secrets: Certs, first: nat, renewed: set<string>, cas: Certs, leaves: Certs)
    requires WellOrdered(certs) && i < |certs| && Generated(certs, i, secrets, first, renewed, cas, leaves)
    requires Present(secrets, certs[i].name) && (IsLeaf(certs[i]) ==> certs[i].caName !in renewed)
    ensures Generated(certs, i + 1, secrets, first, renewed, cas, leaves)
  {
    RenewStep(certs, i, secrets, renewed, renewed);
    LoadedBeforeStep(certs, secrets, i);
    if IsLeaf(certs[i]) {
      LeafStep(certs, i, secrets, renewed, cas, leaves, leaves);
      ReplacedIsNeeded(certs, i, secrets, renewed);
    }
  }

  lemma SignedStep(certs: seq<Spec>, i: nat, secrets: Certs, first: nat, renewed: set<string>,
                   cas0: Certs, cas: Certs, leaves: Certs, leaves': Certs)
    requires WellOrdered(certs) && i < |certs| && Generated(certs, i, secrets, first, renewed, cas0, leaves)
    requires IsLeaf(certs[i]) && Replaced(secrets, renewed, certs[i]) && Signed(certs[i], cas, leaves, leaves')
    requires if cas0 != map[] then cas == cas0 else Loaded(CA_NAMES, secrets, cas)
    requires Memory(certs, i + 1, secrets, renewed, cas)
    ensures Generated(certs, i + 1, secrets, first, renewed, cas, leaves')
  {
    RenewStep(certs, i, secrets, renewed, renewed);
    if cas0 == map[] { LoadStep(certs, i, secrets, renewed, cas, leaves); }
    assert CaContent(secrets, first, renewed, cas);
    LeafStep(certs, i, secrets, renewed, cas, leaves, leaves');
  }

  lemma ContentRenewed(secrets: Certs, first: nat, renewed: set<string>, cas0: Certs, cas: Certs, name: string)
    requires CaContent(secrets, first, renewed, cas0)
    requires if name !in CA_NAMES then cas == cas0
             else name in cas && cas == cas0[name := cas[name]] && cas[name].key >= first && !cas[name].expiring
    ensures CaContent(secrets, first, renewed + {name}, cas)
  {
  }

  lemma MemoryRenewed(certs: seq<Spec>, i: nat, secrets: Certs, renewed: set<string>, cas0: Certs, cas: Certs)
    requires i < |certs| && !IsLeaf(certs[i]) && Memory(certs, i, secrets, renewed, cas0)
    requires cas == cas0 || (certs[i].name in cas && cas == cas0[certs[i].name := cas[certs[i].name]])
    ensures Memory(certs, i + 1, secrets, renewed + {certs[i].name}, cas)
  {
    LoadedBeforeStep(certs, secrets, i);
  }

  lemma RenewedStep(certs: seq<Spec>, i: nat, secrets: Certs, first: nat, renewed: set<string>,
                    cas0: Certs, cas: Certs, leaves: Certs)
    requires WellOrdered(certs) && i < |certs| && Generated(certs, i, secrets, first, renewed, cas0, leaves)
    requires !IsLeaf(certs[i]) && !Present(secrets, certs[i].name)
    requires if certs[i].name == KUBECONFIG then cas == cas0
             else certs[i].name in cas && cas == cas0[certs[i].name := cas[certs[i].name]]
                  && cas[certs[i].name].key >= first && !cas[certs[i].name].expiring
    ensures Generated(certs, i + 1, secrets, first, renewed + {certs[i].name}, cas, leaves)
  {
    RenewStep(certs, i, secrets, renewed, renewed + {certs[i].name});
    ContentRenewed(secrets, first, renewed, cas0, cas, certs[i].name);
    MemoryRenewed(certs, i, secrets, renewed, cas0, cas);
    LeavesStay(certs, i, secrets, renewed, cas0, cas, leaves);
  }

  lemma AllPresent(certs: seq<Spec>, secrets: Certs, first: nat, renewed: set<string>, cas: Certs, leaves: Certs)
    requires WellOrdered(certs) && Generated(certs, |certs|, secrets, first, renewed, cas, leaves)
    ensures forall spec :: spec in certs && spec.name != KUBECONFIG ==> Present(Merged(secrets, leaves, cas), spec.name)
  {
    forall spec | spec in certs && spec.name != KUBECONFIG
      ensures Present(Merged(secrets, leaves, cas), spec.name)
    {
      var i :| 0 <= i < |certs| && certs[i] == spec;
      if IsLeaf(spec) {
        assert LeafContent(secrets, renewed, cas, leaves, certs[i]);
      } else {
        assert spec.name in renewed <==> !Present(secrets, spec.name);
      }
    }
  }

  lemma DefaultListInOrder()
    ensures WellOrdered(DEFAULT_CERTS)
  {
    DefaultNames();
    DefaultCAs();
    DefaultNotServiceAccount();
    forall i | 0 <= i < |DEFAULT_CERTS| && IsLeaf(DEFAULT_CERTS[i])
      ensures DEFAULT_CERTS[i].name !in CA_NAMES && DEFAULT_CERTS[i].caName != KUBECONFIG
      ensures SignedAbove(DEFAULT_CERTS, i)
    {
      DefaultLeaf(i);
    }
  }

  const LENGTHS: seq<nat> := [2, 9, 24, 5, 18, 4, 11, 9, 23, 21, 10]

  /** Names are told apart by their lengths, and the two of length nine by their first letters. */
  lemma DefaultNames()
    ensures forall i, j :: 0 <= i < j < |DEFAULT_CERTS| ==> DEFAULT_CERTS[i].name != DEFAULT_CERTS[j].name
  {
    forall i, j | 0 <= i < j < |DEFAULT_CERTS| ensures DEFAULT_CERTS[i].name != DEFAULT_CERTS[j].name {
      NameLength(i);
      NameLength(j);
      assert LENGTHS[i] != LENGTHS[j] || (i == 1 && j == 7);
      assert DEFAULT_CERTS[1].name[0] == 'a' && DEFAULT_CERTS[7].name[0] == 'e';
    }
  }

  lemma DefaultNotServiceAccount()
    ensures forall i :: 0 <= i < |DEFAULT_CERTS| ==> DEFAULT_CERTS[i].name != SERVICE_ACCOUNT
  {
    forall i | 0 <= i < |DEFAULT_CERTS| ensures DEFAULT_CERTS[i].name != SERVICE_ACCOUNT {
      NameLength(i);
      assert DEFAULT_CERTS[0].name[0] == 'c' && SERVICE_ACCOUNT[0] == 's';
    }
  }

  lemma NameLength(i: nat)
    requires i < |DEFAULT_CERTS|
    ensures |DEFAULT_CERTS[i].name| == LENGTHS[i]
  {
  }

  lemma DefaultCAs()
    ensures forall i :: 0 <= i < |DEFAULT_CERTS| && IsCA(DEFAULT_CERTS[i]) ==> DEFAULT_CERTS[i].name in CA_NAMES
  {
    assert DEFAULT_CERTS[0].name == CA_NAMES[0] && DEFAULT_CERTS[3].name == CA_NAMES[2];
    assert DEFAULT_CERTS[5].name == CA_NAMES[1];
    assert forall i :: 0 <= i < |DEFAULT_CERTS| && IsCA(DEFAULT_CERTS[i]) ==> i == 0 || i == 3 || i == 5;
  }

  lemma DefaultLeaf(i: nat)
    requires i < |DEFAULT_CERTS| && IsLeaf(DEFAULT_CERTS[i])
    ensures DEFAULT_CERTS[i].name !in CA_NAMES && DEFAULT_CERTS[i].caName != KUBECONFIG && SignedAbove(DEFAULT_CERTS, i)
  {
    NameLength(i);
    assert LENGTHS[i] >= 9;
    assert forall c :: c in CA_NAMES ==> |c| <= 5;
    RootSigner();
    ProxySigner();
    EtcdSigner();
    DefaultCaOf(i);
    var j := CaIndex(i);
    assert IsCA(DEFAULT_CERTS[j]) && Signs(DEFAULT_CERTS[j].name, DEFAULT_CERTS[i].caName);
  }

  function CaIndex(i: nat): nat {
    if i < 3 then 0 else if i < 5 then 3 else 5
  }

  lemma DefaultCaOf(i: nat)
    requires i < |DEFAULT_CERTS| && IsLeaf(DEFAULT_CERTS[i])
    ensures DEFAULT_CERTS[i].caName == (if i < 3 then "ca" else if i < 5 then "front-proxy-ca" else "etcd-ca")
    ensures CaIndex(i) < i
    ensures DEFAULT_CERTS[CaIndex(i)] == Spec(if i < 3 then "ca" else if i < 5 then "proxy" else "etcd", "")
  {
  }

  /** When every CA has to be renewed, all leaves find theirs. */
  lemma AllRenewed(certs: seq<Spec>, secrets: Certs)
    requires forall c :: c in CA_NAMES ==> !Present(secrets, c)
    ensures AllServable(certs, secrets)
  {
  }

  /** With the list of the program the cascade does miss: when the front proxy CA is about to
      expire, the client certificate it signed is kept. */
  lemma DefaultListMisses() returns (secrets: Certs)
    ensures Below(secrets, 10) && Chained(DEFAULT_CERTS, secrets) && !NoneMissed(DEFAULT_CERTS, secrets)
    ensures AllServable(DEFAULT_CERTS, secrets)
  {
    ProxySigner();
    var leaf := DEFAULT_CERTS[4];
    secrets := map["proxy" := Cert(1, 1, true), leaf.name := Cert(2, 1, false)];
    assert leaf in DEFAULT_CERTS;
    assert Missed(secrets, leaf, "proxy");
    assert forall c :: c in CA_NAMES && c in secrets ==> c == "proxy";
    AllRenewed(DEFAULT_CERTS, secrets);
    forall spec, ca | spec in DEFAULT_CERTS && IsLeaf(spec) && Signs(ca, spec.caName)
      ensures SignedBy(secrets, spec.name, ca)
    {
      assert forall n :: n in secrets ==> secrets[n].signer == 1;
    }
  }

  /** A CA that is renewed before any leaf is generated keeps the stored CAs from being loaded:
      a leaf further down fails although its CA is stored. */
  lemma LoadBlocked(certs: seq<Spec>, secrets: Certs, j: nat, i: nat, ca: string)
    requires j < i < |certs| && IsCA(certs[j]) && !Present(secrets, certs[j].name)
    requires forall k :: 0 <= k < j ==> !NeedsLeaf(certs, secrets, k)
    requires NeedsLeaf(certs, secrets, i) && Signs(ca, certs[i].caName) && Present(secrets, ca)
    ensures !Servable(certs, secrets, i)
  {
    forall k | 0 <= k < i + 1 && NeedsLeaf(certs, secrets, k) ensures !CAsPresent(certs, secrets, k) {
      assert k > j;
    }
  }

  /** The secrets of a cluster whose front proxy CA and etcd certificates are missing. */
  function StuckSecrets(): Certs {
    map["ca" := Cert(1, 1, false), DEFAULT_CERTS[1].name := Cert(2, 1, false),
        DEFAULT_CERTS[2].name := Cert(3, 1, false), "etcd" := Cert(4, 4, false)]
  }

  lemma StuckLeaves()
    ensures var secrets := StuckSecrets();
            && (forall k :: 0 <= k < 3 ==> !NeedsLeaf(DEFAULT_CERTS, secrets, k))
            && IsCA(DEFAULT_CERTS[3]) && !Present(secrets, DEFAULT_CERTS[3].name)
            && NeedsLeaf(DEFAULT_CERTS, secrets, 6) && Present(secrets, "etcd")
  {
    DefaultNames();
    var secrets, certs := StuckSecrets(), DEFAULT_CERTS;
    assert certs[0].name == "ca" && certs[3].name == "proxy" && certs[5].name == "etcd";
    assert Present(secrets, certs[0].name) && Present(secrets, certs[1].name) && Present(secrets, certs[2].name);
    assert certs[6].name !in secrets && certs[3].name !in secrets;
  }

  /** With them a run fails, and since nothing is written so does the next one. */
  lemma StuckRun()
    ensures !AllServable(DEFAULT_CERTS, StuckSecrets()) && Below(StuckSecrets(), 5)
    ensures SignedBy(StuckSecrets(), DEFAULT_CERTS[1].name, "ca")
    ensures SignedBy(StuckSecrets(), DEFAULT_CERTS[2].name, "ca")
  {
    DefaultNames();
    StuckLeaves();
    EtcdSigner();
    LoadBlocked(DEFAULT_CERTS, StuckSecrets(), 3, 6, "etcd");
  }
}
