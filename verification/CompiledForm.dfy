/**
 The form of what the compiler returns, told on the snapshot: when it refuses, that there
 is always a set the policies stand for, and in what order that set is listed.
*/
module CompiledForm {
  import opened Ordering
  import opened PolicySets
  import N = NativePolicies
  import opened Resolution
  import C = CompilerSpec
  import S = CompiledSets
  import M = PolicyMeaning
  import A = MeaningAgreement
  import W = CompilerMeaning

  // ----- what is refused -----

  lemma {:induction false} SortedListing<T(!new)>(xs: set<T>, rank: T -> int) returns (list: seq<T>)
    requires forall x, y :: x in xs && y in xs && rank(x) == rank(y) ==> x == y
    ensures StrictlySorted(list, rank) && forall x :: x in list <==> x in xs
    decreases xs
  {
    if xs == {} {
      list := [];
    } else {
      var x :| x in xs;
      var rest := SortedListing(xs - {x}, rank);
      UniqueSortedIsListing([x] + rest, rank);
      list := UniqueSorted([x] + rest, rank);
    }
  }

  /** Whether or not it fits, there is a set that the policies compile to. */
  lemma SomeSetIsCompiled(ps: seq<N.NetworkPolicy>, n: N.ResolutionInput) returns (p: PolicySet)
    requires C.OneOwner(n)
    ensures S.IsCompiled(ps, n, p)
  {
    var subjects := set pod, c | pod in n.pods && C.AnySelects(ps, pod) && c in pod.cgroups :: S.SubjectFor(ps, pod, c);
    forall s
      ensures s in subjects <==> S.IsSubject(ps, n, s)
    {
      if S.IsSubject(ps, n, s) {
        var pod :| C.Owns(n, pod, s.cgroup) && C.AnySelects(ps, pod) && s == S.SubjectFor(ps, pod, s.cgroup);
      }
      if s in subjects {
        var pod, c :| pod in n.pods && C.AnySelects(ps, pod) && c in pod.cgroups && s == S.SubjectFor(ps, pod, c);
        assert C.Owns(n, pod, s.cgroup);
      }
    }
    forall a | a in C.RuleSet(ps, n)
      ensures S.InRange(a)
    {
      S.RulesAreInRange(ps, n, a);
    }
    var rules := set a | a in C.RuleSet(ps, n) :: S.RuleOf(a);
    forall r, r' | r in rules && r' in rules && S.RuleRank(r) == S.RuleRank(r')
      ensures r == r'
    {
      S.RuleRankSeparates(r, r');
    }
    forall r
      ensures r in rules <==> S.IsRule(ps, n, r)
    {
    }
    SubjectsByCgroup(ps, n, subjects);
    var ss := SortedListing(subjects, S.SubjectRank);
    var rs := SortedListing(rules, S.RuleRank);
    p := PolicySet(n.nodeIPs, ss, rs, []);
  }

  lemma SubjectsByCgroup(ps: seq<N.NetworkPolicy>, n: N.ResolutionInput, subjects: set<Subject>)
    requires C.OneOwner(n) && forall s :: s in subjects ==> S.IsSubject(ps, n, s)
    ensures forall s, t :: s in subjects && t in subjects && S.SubjectRank(s) == S.SubjectRank(t) ==> s == t
  {
    forall s, t | s in subjects && t in subjects && S.SubjectRank(s) == S.SubjectRank(t)
      ensures s == t
    {
      var pod :| C.Owns(n, pod, s.cgroup) && C.AnySelects(ps, pod) && s == S.SubjectFor(ps, pod, s.cgroup);
      var qod :| C.Owns(n, qod, t.cgroup) && C.AnySelects(ps, qod) && t == S.SubjectFor(ps, qod, t.cgroup);
      assert pod == qod;
    }
  }

  /** When a good snapshot is refused: a pod that a policy is about could not be resolved, or the one
      set that the policies stand for has more than 16384 subjects, or more than 16384 rules, node
      addresses and own addresses together. */
  lemma RefusalMeans(ps: seq<N.NetworkPolicy>, raw: N.ResolutionInput, p: PolicySet)
    requires M.GoodSnapshot(raw) && S.IsCompiled(ps, Normalize(raw), p)
    ensures C.CannotCompile(ps, Normalize(raw)) <==>
              || (exists pod :: pod in raw.pods && M.Chosen(ps, pod) && pod.failure != N.NoFailure)
              || |p.subjects| > 16_384
              || |p.rules| + |p.nodeIPs| + |OwnAddresses(p.subjects)| > 16_384
  {
    A.SnapshotsAgree(raw);
    C.NormalizedIsReady(raw);
    S.Recount(ps, Normalize(raw), p);
    CountIsLength(p.subjects);
    FailuresAgree(ps, raw);
  }

  lemma PodByPod(raw: N.ResolutionInput)
    ensures |Normalize(raw).pods| == |raw.pods|
    ensures forall i :: 0 <= i < |raw.pods| ==> Normalize(raw).pods[i].failure == raw.pods[i].failure
  {
  }

  lemma SelectionByPod(ps: seq<N.NetworkPolicy>, raw: N.ResolutionInput, i: nat)
    requires i < |raw.pods|
    ensures i < |Normalize(raw).pods|
    ensures C.AnySelects(ps, Normalize(raw).pods[i]) <==> M.Chosen(ps, raw.pods[i])
  {
    hide C.AnySelects, C.AnyIsolates, C.AnyQuarantines, M.Chosen;
    W.SameMasks(ps, raw.pods[i], 0);
    W.MasksAgree(ps, raw.pods[i], 0);
  }

  lemma FailuresAgree(ps: seq<N.NetworkPolicy>, raw: N.ResolutionInput)
    ensures (exists pod :: pod in Normalize(raw).pods && C.AnySelects(ps, pod) && !pod.failure.NoFailure?) <==>
              exists pod :: pod in raw.pods && M.Chosen(ps, pod) && pod.failure != N.NoFailure
  {
    hide C.AnySelects, M.Chosen, Normalize;
    var n := Normalize(raw);
    PodByPod(raw);
    forall i | 0 <= i < |raw.pods|
      ensures C.AnySelects(ps, n.pods[i]) <==> M.Chosen(ps, raw.pods[i])
    {
      SelectionByPod(ps, raw, i);
    }
    if q :| q in n.pods && C.AnySelects(ps, q) && !q.failure.NoFailure? {
      var k :| 0 <= k < |n.pods| && n.pods[k] == q;
      assert raw.pods[k] in raw.pods;
    }
    if pod :| pod in raw.pods && M.Chosen(ps, pod) && pod.failure != N.NoFailure {
      var k :| 0 <= k < |raw.pods| && raw.pods[k] == pod;
      assert n.pods[k] in n.pods;
    }
  }

  // ----- in what order it is listed -----

  predicate Ascending(xs: seq<Addr>) {
    forall i, j :: 0 <= i < j < |xs| ==> xs[i].V4? && xs[j].V4? && xs[i].value < xs[j].value
  }

  lemma SortedAscends(xs: seq<Addr>)
    requires StrictlySorted(xs, AddrRank) && forall x :: x in xs ==> x.V4?
    ensures Ascending(xs)
  {
    forall i, j | 0 <= i < j < |xs|
      ensures xs[i].V4? && xs[j].V4? && xs[i].value < xs[j].value
    {
      assert xs[i] in xs && xs[j] in xs && AddrRank(xs[i]) < AddrRank(xs[j]);
    }
  }

  /** The order of compareRules: cgroup, direction with egress first, peer address, prefix length,
      protocol, port. */
  predicate Precedes(r: Rule, s: Rule) {
    if r.cgroup != s.cgroup then r.cgroup < s.cgroup
    else if r.direction != s.direction then r.direction.egress && s.direction.ingress
    else if r.peer.addr != s.peer.addr then r.peer.addr.V4? && s.peer.addr.V4? && r.peer.addr.value < s.peer.addr.value
    else if r.peer.bits != s.peer.bits then r.peer.bits < s.peer.bits
    else if r.protocol != s.protocol then r.protocol < s.protocol
    else r.port < s.port
  }

  lemma RankPrecedes(r: Rule, s: Rule)
    requires ValidRule(r) && ValidRule(s) && S.RuleRank(r) < S.RuleRank(s)
    ensures Precedes(r, s)
  {
  }

  /** A compiled set is listed in order: subjects by cgroup, rules as compareRules says, addresses
      ascending; each without repetition. */
  lemma CompiledOrder(ps: seq<N.NetworkPolicy>, raw: N.ResolutionInput, p: PolicySet)
    requires S.IsCompiled(ps, Normalize(raw), p)
    ensures forall i, j :: 0 <= i < j < |p.subjects| ==> p.subjects[i].cgroup < p.subjects[j].cgroup
    ensures forall i, j :: 0 <= i < j < |p.rules| ==> Precedes(p.rules[i], p.rules[j])
    ensures Ascending(p.nodeIPs) && forall s :: s in p.subjects ==> Ascending(s.podIPs)
  {
    hide Precedes, S.IsSubject;
    NormalizeNodeIPs(raw);
    SortedAscends(p.nodeIPs);
    forall i, j | 0 <= i < j < |p.subjects|
      ensures p.subjects[i].cgroup < p.subjects[j].cgroup
    {
      assert S.SubjectRank(p.subjects[i]) < S.SubjectRank(p.subjects[j]);
    }
    forall i, j | 0 <= i < j < |p.rules|
      ensures Precedes(p.rules[i], p.rules[j])
    {
      assert p.rules[i] in p.rules && p.rules[j] in p.rules;
      RankPrecedes(p.rules[i], p.rules[j]);
    }
    forall s | s in p.subjects
      ensures Ascending(s.podIPs)
    {
      OwnAddressesAscend(ps, Normalize(raw), s);
    }
  }

  lemma OwnAddressesAscend(ps: seq<N.NetworkPolicy>, n: N.ResolutionInput, s: Subject)
    requires S.IsSubject(ps, n, s)
    ensures Ascending(s.podIPs)
  {
    var pod :| C.Owns(n, pod, s.cgroup) && C.AnySelects(ps, pod) && s == S.SubjectFor(ps, pod, s.cgroup);
    UniqueSortedIsListing(OnlyIPv4(pod.podIPs), AddrRank);
    SortedAscends(s.podIPs);
  }
}
