/**
 From a Kubernetes snapshot to the candidate handed to the engine: the compiled
 set plus the classification of every local workload.
*/
module NativeEngine {
  import opened Ordering
  import opened PolicySets
  import opened Options
  import opened NativePolicies
  import opened Resolution
  import opened CompilerSpec
  import opened CompiledSets
  import opened Compiler
  import opened GuardCheck

  /** A cgroup of a pod that runs on this node outside the host network. */
  ghost predicate IsWorkload(raw: ResolutionInput, c: Cgroup) {
    exists pod :: pod in raw.pods && pod.local && !pod.hostNetwork && c in pod.cgroups
  }

  /** The candidate: the compiled set, and every workload classified. */
  ghost predicate IsCandidate(ps: seq<NetworkPolicy>, raw: ResolutionInput, p: PolicySet) {
    && IsCompiled(ps, Normalize(raw), p.(classified := []))
    && StrictlySorted(p.classified, CgroupRank)
    && forall c :: c in p.classified <==> IsWorkload(raw, c)
  }

  /** Every subject is a workload, so the guard check never rejects a compiled candidate. */
  lemma SubjectsAreClassified(ps: seq<NetworkPolicy>, raw: ResolutionInput, p: PolicySet)
    requires IsCandidate(ps, raw, p)
    ensures GuardAccepts(p)
  {
    hide IsWorkload, IsSubject;
    forall i | 0 <= i < |p.subjects|
      ensures p.subjects[i].cgroup in p.classified
    {
      assert p.subjects[i] in p.(classified := []).subjects;
      SubjectIsWorkload(ps, raw, p.subjects[i]);
    }
  }

  lemma SubjectIsWorkload(ps: seq<NetworkPolicy>, raw: ResolutionInput, s: Subject)
    requires IsSubject(ps, Normalize(raw), s)
    ensures IsWorkload(raw, s.cgroup)
  {
    var n := Normalize(raw);
    var pod :| Owns(n, pod, s.cgroup) && AnySelects(ps, pod) && s == SubjectFor(ps, pod, s.cgroup);
    var k :| 0 <= k < |n.pods| && n.pods[k] == pod;
    NormalizePodKeeps(raw.pods[k]);
    var j :| 0 <= j < |ps| && Selects(ps[j], pod);
    assert raw.pods[k] in raw.pods;
  }

  lemma ClassifiedAreDistinct(raw: ResolutionInput, cs: seq<Cgroup>)
    requires GoodInput(raw) && StrictlySorted(cs, CgroupRank) && forall c :: c in cs ==> IsWorkload(raw, c)
    ensures forall i :: 0 <= i < |cs| ==> cs[i] != 0
    ensures forall i, j :: 0 <= i < j < |cs| ==> cs[i] != cs[j]
  {
    forall i | 0 <= i < |cs|
      ensures cs[i] != 0
    {
      assert cs[i] in cs;
      var pod :| pod in raw.pods && pod.local && !pod.hostNetwork && cs[i] in pod.cgroups;
      var k :| 0 <= k < |raw.pods| && raw.pods[k] == pod;
      assert GoodPod(raw, raw.pods[k]);
    }
    assert forall i, j :: 0 <= i < j < |cs| ==> CgroupRank(cs[i]) < CgroupRank(cs[j]);
  }

  lemma ClassifiedValid(bare: PolicySet, p: PolicySet)
    requires Valid(bare) && bare == p.(classified := [])
    requires forall i :: 0 <= i < |p.classified| ==> p.classified[i] != 0
    requires forall i, j :: 0 <= i < j < |p.classified| ==> p.classified[i] != p.classified[j]
    ensures Valid(p) <==> |p.classified| <= MAX_SUBJECTS
  {
    assert forall i :: 0 <= i < |p.rules| ==> HasSubject(bare, p.rules[i].cgroup) ==> HasSubject(p, p.rules[i].cgroup);
    assert RuleEntryCount(p) == RuleEntryCount(bare);
  }

  /** The candidate passes ValidatePolicySet exactly when the classification fits. */
  lemma CandidateIsValid(ps: seq<NetworkPolicy>, raw: ResolutionInput, p: PolicySet)
    requires GoodInput(raw) && !CannotCompile(ps, Normalize(raw)) && IsCandidate(ps, raw, p)
    ensures Valid(p) <==> |p.classified| <= MAX_SUBJECTS
  {
    NormalizedIsReady(raw);
    CompiledIsValid(ps, Normalize(raw), p.(classified := []));
    ClassifiedAreDistinct(raw, p.classified);
    ClassifiedValid(p.(classified := []), p);
  }

  /** The cgroups of the local workloads, in the order of the snapshot. */
  method LocalCgroups(pods: seq<Pod>) returns (all: seq<Cgroup>)
    ensures forall c :: c in all <==> exists pod :: pod in pods && pod.local && !pod.hostNetwork && c in pod.cgroups
  {
    all := [];
    for i := 0 to |pods|
      invariant forall c :: c in all <==> exists pod ::
                pod in pods[..i] && pod.local && !pod.hostNetwork && c in pod.cgroups
    {
      assert pods[..i + 1] == pods[..i] + [pods[i]];
      if pods[i].local && !pods[i].hostNetwork {
        all := all + pods[i].cgroups;
      }
    }
    assert pods[..|pods|] == pods;
  }

  /** ReconcileNativePolicySnapshot, up to the call of Apply. */
  method Candidate(policies: seq<NetworkPolicy>, raw: ResolutionInput) returns (r: Option<PolicySet>)
    ensures r.Some? <==> GoodInput(raw) && !CannotCompile(policies, Normalize(raw))
    ensures r.Some? ==> IsCandidate(policies, raw, r.value) && GuardAccepts(r.value)
    ensures r.Some? ==> (Valid(r.value) <==> |r.value.classified| <= MAX_SUBJECTS)
  {
    hide ValidSubject, ValidRule;
    var compiled := CompileNativePolicies(policies, raw);
    if compiled.None? {
      return None;
    }
    var set0 := compiled.value.0;
    var local := LocalCgroups(raw.pods);
    UniqueSortedIsListing(set0.classified + local, CgroupRank);
    var p := set0.(classified := UniqueSorted(set0.classified + local, CgroupRank));
    assert p.(classified := []) == set0;
    SubjectsAreClassified(policies, raw, p);
    CandidateIsValid(policies, raw, p);
    return Some(p);
  }
}
