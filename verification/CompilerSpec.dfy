/**
 What the compiler must produce: the subjects, the masks and the rules that a
 list of policies stands for, as sets defined by membership in the list, so that
 order and repetition of policies cannot matter.
*/
module CompilerSpec {
  import opened Cidr
  import opened Ordering
  import opened PolicySets
  import opened IpBlock
  import opened NativePolicies
  import opened Resolution

  /** A deduplicated rule: the compiler's ruleKey. */
  datatype Allow = Allow(cgroup: nat, direction: Direction, addr: nat, bits: nat, protocol: nat, port: int)

  // ----- the input after normalization -----

  /** The pod a cgroup belongs to. */
  ghost predicate Owns(n: ResolutionInput, pod: Pod, c: Cgroup) {
    pod in n.pods && c in pod.cgroups
  }

  ghost predicate OneOwner(n: ResolutionInput) {
    forall p, q, c :: Owns(n, p, c) && Owns(n, q, c) ==> p == q
  }

  ghost predicate Ready(n: ResolutionInput) {
    && n.nodeIPs != [] && Tidy(n.nodeIPs) && (forall a :: a in n.nodeIPs ==> a.V4?)
    && (forall i :: 0 <= i < |n.pods| ==> ReadyPod(n, n.pods[i]))
    && (forall i, j :: 0 <= i < j < |n.pods| ==> PodKey(n.pods[i]) != PodKey(n.pods[j]))
    && OneOwner(n)
    && (forall i, j :: 0 <= i < j < |n.namespaces| && n.namespaces[i].name == n.namespaces[j].name ==>
          n.namespaces[i].labels == n.namespaces[j].labels)
  }

  ghost predicate ReadyPod(n: ResolutionInput, pod: Pod) {
    && Tidy(pod.podIPs) && (forall a :: a in pod.podIPs ==> a.V4? || a.V6?)
    && StrictlySorted(pod.cgroups, CgroupRank) && (forall c :: c in pod.cgroups ==> c != 0)
    && pod.namespace == PodNamespace(pod)
    && exists i :: 0 <= i < |n.namespaces| && n.namespaces[i].name == pod.namespace
  }

  lemma NormalizedPodIsReady(raw: ResolutionInput, i: nat)
    requires GoodInput(raw) && i < |raw.pods|
    ensures ReadyPod(Normalize(raw), Normalize(raw).pods[i])
  {
    NormalizePodKeeps(raw.pods[i]);
    assert GoodPod(raw, raw.pods[i]);
  }

  lemma NormalizedPodsDiffer(raw: ResolutionInput, i: nat, j: nat)
    requires GoodInput(raw) && i < |raw.pods| && j < |raw.pods|
    ensures var n := Normalize(raw);
            && (i != j ==> PodKey(n.pods[i]) != PodKey(n.pods[j]))
            && (i != j ==> forall c :: c in n.pods[i].cgroups ==> c !in n.pods[j].cgroups)
  {
    NormalizePodKeeps(raw.pods[i]);
    NormalizePodKeeps(raw.pods[j]);
  }

  lemma NormalizedIsReady(raw: ResolutionInput)
    requires GoodInput(raw)
    ensures Ready(Normalize(raw))
  {
    var n := Normalize(raw);
    assert n.nodeIPs != [] && Tidy(n.nodeIPs) && (forall a :: a in n.nodeIPs ==> a.V4?) by {
      NormalizeNodeIPs(raw);
      var a :| a in raw.nodeIPs && a.Unmap().V4?;
      assert V4(a.Unmap().value) in n.nodeIPs;
    }
    forall i | 0 <= i < |n.pods|
      ensures ReadyPod(n, n.pods[i])
    {
      NormalizedPodIsReady(raw, i);
    }
    forall i, j | 0 <= i < |n.pods| && 0 <= j < |n.pods| && i != j
      ensures PodKey(n.pods[i]) != PodKey(n.pods[j])
      ensures forall c :: c in n.pods[i].cgroups ==> c !in n.pods[j].cgroups
    {
      NormalizedPodsDiffer(raw, i, j);
    }
  }

  // ----- subjects -----

  ghost predicate AnySelects(ps: seq<NetworkPolicy>, pod: Pod) {
    exists i :: 0 <= i < |ps| && Selects(ps[i], pod)
  }

  ghost predicate AnyIsolates(ps: seq<NetworkPolicy>, pod: Pod, w: Way) {
    exists i :: 0 <= i < |ps| && Isolates(ps[i], pod, w)
  }

  ghost predicate AnyQuarantines(ps: seq<NetworkPolicy>, pod: Pod, w: Way) {
    exists i :: 0 <= i < |ps| && Quarantines(ps[i], pod, w)
  }

  ghost function IsolatedMask(ps: seq<NetworkPolicy>, pod: Pod): Direction {
    MaskOf(AnyIsolates(ps, pod, 0), AnyIsolates(ps, pod, 1))
  }

  ghost function QuarantinedMask(ps: seq<NetworkPolicy>, pod: Pod): Direction {
    MaskOf(AnyQuarantines(ps, pod, 0), AnyQuarantines(ps, pod, 1))
  }

  function IPv4sOf(pod: Pod): seq<Addr> {
    UniqueSorted(OnlyIPv4(pod.podIPs), AddrRank)
  }

  ghost function SubjectSet(ps: seq<NetworkPolicy>, n: ResolutionInput): set<Cgroup> {
    set pod, c | pod in n.pods && AnySelects(ps, pod) && c in pod.cgroups :: c
  }

  ghost function BypassesOf(n: ResolutionInput, c: Cgroup): nat {
    if pod :| Owns(n, pod, c) then |IPv4sOf(pod)| else 0
  }

  ghost function BypassTotal(n: ResolutionInput, cs: set<Cgroup>): nat {
    if cs == {} then 0
    else
      var c :| c in cs;
      BypassesOf(n, c) + BypassTotal(n, cs - {c})
  }

  lemma {:induction false} BypassTotalAdds(n: ResolutionInput, cs: set<Cgroup>, c: Cgroup)
    requires c in cs
    ensures BypassTotal(n, cs) == BypassesOf(n, c) + BypassTotal(n, cs - {c})
    decreases |cs|
  {
    var d :| d in cs && BypassTotal(n, cs) == BypassesOf(n, d) + BypassTotal(n, cs - {d});
    if d != c {
      BypassTotalAdds(n, cs - {d}, c);
      BypassTotalAdds(n, cs - {c}, d);
      assert cs - {d} - {c} == cs - {c} - {d};
    }
  }

  lemma {:induction false} BypassTotalGrows(n: ResolutionInput, cs: set<Cgroup>, ds: set<Cgroup>)
    requires cs <= ds
    ensures BypassTotal(n, cs) <= BypassTotal(n, ds)
    decreases |ds|
  {
    if cs != ds {
      var d :| d in ds && d !in cs;
      BypassTotalAdds(n, ds, d);
      BypassTotalGrows(n, cs, ds - {d});
    }
  }

  // ----- rules -----

  /** The prefixes one peer resolves to. */
  ghost function PeerBlocks(p: NetworkPolicy, peer: Peer, n: ResolutionInput): set<Block> {
    if peer.ipBlock.Some? then (if Accepted(peer.ipBlock.value) then MaximalSet(Target(peer.ipBlock.value)) else {})
    else set pod, x | pod in n.pods && PeerSelectsPod(p, peer, n, pod) && x in pod.podIPs && x.V4? :: Block(x.value, 32)
  }

  ghost function PeersBlocks(p: NetworkPolicy, peers: seq<Peer>, n: ResolutionInput): set<Block> {
    set i, b | 0 <= i < |peers| && b in PeerBlocks(p, peers[i], n) :: b
  }

  ghost function AllowOf(c: Cgroup, d: Direction, b: Block, q: Port): Allow {
    Allow(c, d, b.start, b.bits, ProtocolOf(q), q.port)
  }

  ghost function Grid(cs: seq<Cgroup>, d: Direction, blocks: set<Block>, ports: seq<Port>): set<Allow> {
    set c, b, q | c in cs && b in blocks && q in ports :: AllowOf(c, d, b, q)
  }

  /** What one rule of a policy gives one pod. */
  ghost function RuleGrid(p: NetworkPolicy, n: ResolutionInput, pod: Pod, w: Way, r: PeerRule): set<Allow> {
    Grid(pod.cgroups, Bit(w), PeersBlocks(p, r.peers, n), r.ports)
  }

  ghost function RulesUpTo(p: NetworkPolicy, n: ResolutionInput, pod: Pod, w: Way, k: nat): set<Allow>
    requires k <= |RulesFor(p, w)|
  {
    set i, a | 0 <= i < k && a in RuleGrid(p, n, pod, w, RulesFor(p, w)[i]) :: a
  }

  /** What a policy gives a pod in one direction. */
  ghost function RulesOf(p: NetworkPolicy, n: ResolutionInput, pod: Pod, w: Way): set<Allow> {
    if ValidPolicy(p) && Isolates(p, pod, w) then RulesUpTo(p, n, pod, w, |RulesFor(p, w)|) else {}
  }

  ghost function RuleSet(ps: seq<NetworkPolicy>, n: ResolutionInput): set<Allow> {
    set i, pod, w: Way, a | 0 <= i < |ps| && pod in n.pods && w in {0, 1} && a in RulesOf(ps[i], n, pod, w) :: a
  }

  // ----- success -----

  ghost function EntryTotal(ps: seq<NetworkPolicy>, n: ResolutionInput): nat {
    |RuleSet(ps, n)| + |n.nodeIPs| + BypassTotal(n, SubjectSet(ps, n))
  }

  /** The reasons a well-formed snapshot can still be refused. */
  ghost predicate CannotCompile(ps: seq<NetworkPolicy>, n: ResolutionInput) {
    || (exists pod :: pod in n.pods && AnySelects(ps, pod) && !pod.failure.NoFailure?)
    || |SubjectSet(ps, n)| > MAX_SUBJECTS
    || EntryTotal(ps, n) > MAX_RULES
  }
}
