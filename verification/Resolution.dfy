/**
 Normalizing the resolution input: unmapping, sorting and deduplicating
 addresses and cgroups, and refusing snapshots that contradict themselves.
 Normalization changes no fact that a policy can depend on.
*/
module Resolution {
  import opened Cidr
  import opened Ordering
  import opened PolicySets
  import opened Options
  import opened NativePolicies

  function AddrRank(a: Addr): int {
    match a
    case NoAddr => -1
    case V4(v) => v
    case V6(b) => ADDRESSES + b
    case V4In6(v) => v
  }

  function UnmapAll(xs: seq<Addr>): (ys: seq<Addr>)
    ensures |ys| == |xs| && forall i :: 0 <= i < |xs| ==> ys[i] == xs[i].Unmap()
  {
    seq(|xs|, i requires 0 <= i < |xs| => xs[i].Unmap())
  }

  function OnlyIPv4(xs: seq<Addr>): (ys: seq<Addr>)
    ensures forall a :: a in ys <==> a in xs && a.V4?
  {
    if xs == [] then [] else (if xs[0].V4? then [xs[0]] else []) + OnlyIPv4(xs[1..])
  }

  function CgroupRank(c: Cgroup): int {
    c
  }

  function NormalizePod(pod: Pod): Pod {
    pod.(namespace := PodNamespace(pod),
         podIPs := UniqueSorted(UnmapAll(pod.podIPs), AddrRank),
         cgroups := UniqueSorted(pod.cgroups, CgroupRank))
  }

  function Normalize(n: ResolutionInput): ResolutionInput {
    ResolutionInput(UniqueSorted(OnlyIPv4(UnmapAll(n.nodeIPs)), AddrRank), n.namespaces,
                    seq(|n.pods|, i requires 0 <= i < |n.pods| => NormalizePod(n.pods[i])))
  }

  /** Unmapped, sorted, without repetition. */
  ghost predicate Tidy(xs: seq<Addr>) {
    StrictlySorted(xs, AddrRank) && forall x :: x in xs ==> x.Unmap() == x
  }

  lemma TidyAddrs(xs: seq<Addr>)
    requires forall x :: x in xs ==> x.Unmap() == x
    ensures Tidy(UniqueSorted(xs, AddrRank)) && SameElements(UniqueSorted(xs, AddrRank), xs)
  {
    UniqueSortedIsListing(xs, AddrRank);
  }

  lemma UnmapKeeps(xs: seq<Addr>)
    ensures forall x :: x in UnmapAll(xs) ==> x.Unmap() == x
    ensures forall a :: a in UnmapAll(xs) <==> exists x :: x in xs && x.Unmap() == a
  {
    var ys := UnmapAll(xs);
    forall x | x in xs
      ensures x.Unmap() in ys
    {
      var i :| 0 <= i < |xs| && xs[i] == x;
      assert ys[i] == x.Unmap();
    }
  }

  /** A normalized pod has the same addresses, cgroups and identity as the original. */
  lemma NormalizePodKeeps(pod: Pod)
    ensures var q := NormalizePod(pod);
            && Tidy(q.podIPs) && StrictlySorted(q.cgroups, CgroupRank)
            && (forall a :: HasIPv4(pod, a) <==> V4(a) in q.podIPs)
            && (forall a :: HasIPv4(q, a) <==> V4(a) in q.podIPs)
            && (HasIPv6(pod) <==> exists x :: x in q.podIPs && x.Is6())
            && (HasIPv6(pod) <==> HasIPv6(q))
            && (forall c :: c in q.cgroups <==> c in pod.cgroups)
            && PodNamespace(q) == PodNamespace(pod) == q.namespace
            && PodKey(q) == PodKey(pod)
            && ((forall a :: a in pod.podIPs ==> !a.NoAddr?) ==> (forall a :: a in q.podIPs ==> a.V4? || a.V6?))
  {
    UnmapKeeps(pod.podIPs);
    TidyAddrs(UnmapAll(pod.podIPs));
    UniqueSortedIsListing(pod.cgroups, CgroupRank);
  }

  lemma NormalizeNodeIPs(n: ResolutionInput)
    ensures var ips := Normalize(n).nodeIPs;
            && Tidy(ips) && (forall a :: a in ips ==> a.V4?)
            && (forall a: U32 :: V4(a) in ips <==> exists x :: x in n.nodeIPs && x.Unmap() == V4(a))
  {
    UnmapKeeps(n.nodeIPs);
    var v4 := OnlyIPv4(UnmapAll(n.nodeIPs));
    assert forall x :: x in v4 ==> x in UnmapAll(n.nodeIPs);
    TidyAddrs(v4);
  }

  method NormalizeNodes(n: ResolutionInput) returns (r: Option<seq<Addr>>)
    ensures r.Some? <==> (forall a :: a in n.nodeIPs ==> !a.NoAddr?) && exists a :: a in n.nodeIPs && a.Unmap().V4?
    ensures r.Some? ==> r.value == Normalize(n).nodeIPs
  {
    for i := 0 to |n.nodeIPs|
      invariant forall k :: 0 <= k < i ==> !n.nodeIPs[k].NoAddr?
    {
      if n.nodeIPs[i].NoAddr? {
        assert n.nodeIPs[i] in n.nodeIPs;
        return None;
      }
    }
    var nodeIPs := UniqueSorted(OnlyIPv4(UnmapAll(n.nodeIPs)), AddrRank);
    NormalizeNodeIPs(n);
    if |nodeIPs| == 0 {
      assert forall a: U32 :: V4(a) !in nodeIPs;
      return None;
    }
    assert nodeIPs[0] in nodeIPs;
    return Some(nodeIPs);
  }

  ghost predicate GoodNamespaces(ns: seq<Namespace>) {
    && (forall i :: 0 <= i < |ns| ==> !Blank(ns[i].name))
    && (forall i, j :: 0 <= i < j < |ns| && ns[i].name == ns[j].name ==> ns[i].labels == ns[j].labels)
  }

  /** The map of namespace labels says what the list says. */
  ghost predicate Indexes(ns: seq<Namespace>, namespaces: map<string, Labels>) {
    && (forall name :: name in namespaces <==> exists k :: 0 <= k < |ns| && ns[k].name == name)
    && (forall k :: 0 <= k < |ns| ==> namespaces[ns[k].name] == ns[k].labels)
  }

  method IndexNamespaces(ns: seq<Namespace>) returns (r: Option<map<string, Labels>>)
    ensures r.Some? <==> GoodNamespaces(ns)
    ensures r.Some? ==> Indexes(ns, r.value)
  {
    var namespaces: map<string, Labels> := map[];
    for i := 0 to |ns|
      invariant GoodNamespaces(ns[..i])
      invariant forall name :: name in namespaces <==> exists k :: 0 <= k < i && ns[k].name == name
      invariant forall k :: 0 <= k < i ==> namespaces[ns[k].name] == ns[k].labels
    {
      var namespace := ns[i];
      if Blank(namespace.name) {
        return None;
      }
      if namespace.name in namespaces && namespaces[namespace.name] != namespace.labels {
        return None;
      }
      namespaces := namespaces[namespace.name := namespace.labels];
    }
    return Some(namespaces);
  }

  /** Claim the cgroups of one pod; refuse zero and cgroups another pod has claimed. */
  method ClaimCgroups(claims: map<Cgroup, string>, key: string, mine: seq<Cgroup>)
    returns (r: Option<map<Cgroup, string>>)
    requires forall c :: c in claims ==> claims[c] != key
    ensures r.Some? <==> forall c :: c in mine ==> c != 0 && c !in claims
    ensures r.Some? ==> forall c :: c in r.value <==> c in claims || c in mine
    ensures r.Some? ==> forall c :: c in r.value ==> r.value[c] == if c in mine then key else claims[c]
  {
    var owners := claims;
    for j := 0 to |mine|
      invariant forall k :: 0 <= k < j ==> mine[k] != 0 && mine[k] !in claims
      invariant forall c :: c in owners <==> c in claims || c in mine[..j]
      invariant forall c :: c in owners ==> owners[c] == if c in mine[..j] then key else claims[c]
    {
      var cgroup := mine[j];
      assert cgroup in mine;
      if cgroup == 0 {
        return None;
      }
      if cgroup in owners && owners[cgroup] != key {
        return None;
      }
      owners := owners[cgroup := key];
      assert mine[..j + 1] == mine[..j] + [cgroup];
    }
    assert mine[..|mine|] == mine;
    return Some(owners);
  }

  ghost predicate GoodPods(n: ResolutionInput, pods: seq<Pod>) {
    && (forall i :: 0 <= i < |pods| ==> GoodPod(n, pods[i]))
    && (forall i, j :: 0 <= i < j < |pods| ==> PodKey(pods[i]) != PodKey(pods[j]))
    && (forall i, j, c :: 0 <= i < j < |pods| && c in pods[i].cgroups ==> c !in pods[j].cgroups)
  }

  lemma FewerPods(n: ResolutionInput, pods: seq<Pod>, i: nat)
    requires i <= |pods| && GoodPods(n, pods)
    ensures GoodPods(n, pods[..i])
  {
  }

  ghost predicate NamesOf(n: ResolutionInput, namespaces: map<string, Labels>) {
    forall name :: name in namespaces <==> exists k :: 0 <= k < |n.namespaces| && n.namespaces[k].name == name
  }

  /** One turn of the pod loop: check a pod against what the earlier pods have claimed. */
  method AdmitPod(n: ResolutionInput, pod: Pod, namespaces: map<string, Labels>, podKeys: set<string>,
                  cgroups: map<Cgroup, string>)
    returns (r: Option<(Pod, map<Cgroup, string>)>)
    requires NamesOf(n, namespaces)
    requires forall c :: c in cgroups ==> cgroups[c] in podKeys
    ensures r.Some? <==> GoodPod(n, pod) && PodKey(pod) !in podKeys && forall c :: c in pod.cgroups ==> c !in cgroups
    ensures r.Some? ==>
              && r.value.0 == NormalizePod(pod)
              && (forall c :: c in r.value.1 <==> c in cgroups || c in pod.cgroups)
              && (forall c :: c in r.value.1 ==> r.value.1[c] in podKeys || r.value.1[c] == PodKey(pod))
  {
    var key := PodKey(pod);
    if Blank(pod.name) || PodNamespace(pod) !in namespaces {
      return None;
    }
    if key in podKeys {
      return None;
    }
    var addressed := AllAddressed(pod.podIPs);
    if !addressed {
      return None;
    }
    var normalized := NormalizePod(pod);
    NormalizePodKeeps(pod);
    var claimed := ClaimCgroups(cgroups, key, normalized.cgroups);
    if claimed.None? {
      return None;
    }
    return Some((normalized, claimed.value));
  }

  ghost function KeysOf(pods: seq<Pod>): set<string> {
    set pod | pod in pods :: PodKey(pod)
  }

  ghost function CgroupsOf(pods: seq<Pod>): set<Cgroup> {
    set pod, c | pod in pods && c in pod.cgroups :: c
  }

  /** What the pod loop has claimed: the keys and the cgroups of the pods it has passed. */
  ghost predicate Claimed(pods: seq<Pod>, podKeys: set<string>, cgroups: map<Cgroup, string>) {
    && podKeys == KeysOf(pods)
    && cgroups.Keys == CgroupsOf(pods)
    && (forall c :: c in cgroups ==> cgroups[c] in podKeys)
  }

  lemma ClaimOneMore(done: seq<Pod>, pod: Pod, podKeys: set<string>, cgroups: map<Cgroup, string>,
                     cgroups': map<Cgroup, string>)
    requires Claimed(done, podKeys, cgroups)
    requires forall c :: c in cgroups' <==> c in cgroups || c in pod.cgroups
    requires forall c :: c in cgroups' ==> cgroups'[c] in podKeys || cgroups'[c] == PodKey(pod)
    ensures Claimed(done + [pod], podKeys + {PodKey(pod)}, cgroups')
  {
    var pods := done + [pod];
    assert forall q :: q in pods <==> q in done || q == pod;
    assert KeysOf(pods) == KeysOf(done) + {PodKey(pod)};
    forall c
      ensures c in CgroupsOf(pods) <==> c in CgroupsOf(done) || c in pod.cgroups
    {
    }
    assert cgroups'.Keys == CgroupsOf(pods);
  }

  /** The pods so far and this one are good exactly when this one can be admitted. */
  lemma AdmittedIsGood(n: ResolutionInput, done: seq<Pod>, pod: Pod)
    requires GoodPods(n, done)
    ensures GoodPods(n, done + [pod]) <==>
              GoodPod(n, pod) && PodKey(pod) !in KeysOf(done) && forall c :: c in pod.cgroups ==> c !in CgroupsOf(done)
  {
    var pods := done + [pod];
    if GoodPods(n, pods) {
      forall q | q in done
        ensures PodKey(q) != PodKey(pod) && forall c :: c in q.cgroups ==> c !in pod.cgroups
      {
        var k :| 0 <= k < |done| && done[k] == q;
        assert pods[k] == q && pods[|done|] == pod;
      }
      assert pods[|done|] == pod;
    }
  }

  ghost predicate NormalizedPods(pods: seq<Pod>, raw: seq<Pod>) {
    |pods| == |raw| && forall k :: 0 <= k < |raw| ==> pods[k] == NormalizePod(raw[k])
  }

  lemma NormalizedOneMore(pods: seq<Pod>, raw: seq<Pod>, pod: Pod)
    requires NormalizedPods(pods, raw)
    ensures NormalizedPods(pods + [NormalizePod(pod)], raw + [pod])
  {
  }

  lemma NoPodsYet(n: ResolutionInput)
    ensures NormalizedPods([], n.pods[..0]) && GoodPods(n, n.pods[..0]) && Claimed(n.pods[..0], {}, map[])
  {
  }

  method NormalizePods(n: ResolutionInput, namespaces: map<string, Labels>) returns (r: Option<seq<Pod>>)
    requires NamesOf(n, namespaces)
    ensures r.Some? <==> GoodPods(n, n.pods)
    ensures r.Some? ==> NormalizedPods(r.value, n.pods)
  {
    hide NormalizedPods, NamesOf, GoodPod, GoodPods, KeysOf, CgroupsOf;
    var podKeys: set<string> := {};
    var cgroups: map<Cgroup, string> := map[];
    var pods: seq<Pod> := [];
    NoPodsYet(n);
    for i := 0 to |n.pods|
      invariant NormalizedPods(pods, n.pods[..i])
      invariant GoodPods(n, n.pods[..i]) && Claimed(n.pods[..i], podKeys, cgroups)
    {
      assert n.pods[..i + 1] == n.pods[..i] + [n.pods[i]];
      AdmittedIsGood(n, n.pods[..i], n.pods[i]);
      if GoodPods(n, n.pods) {
        FewerPods(n, n.pods, i + 1);
      }
      var admitted := AdmitPod(n, n.pods[i], namespaces, podKeys, cgroups);
      if admitted.None? {
        return None;
      }
      ClaimOneMore(n.pods[..i], n.pods[i], podKeys, cgroups, admitted.value.1);
      podKeys := podKeys + {PodKey(n.pods[i])};
      cgroups := admitted.value.1;
      NormalizedOneMore(pods, n.pods[..i], n.pods[i]);
      pods := pods + [admitted.value.0];
    }
    assert n.pods[..|n.pods|] == n.pods;
    return Some(pods);
  }

  method AllAddressed(xs: seq<Addr>) returns (ok: bool)
    ensures ok <==> forall a :: a in xs ==> !a.NoAddr?
  {
    for j := 0 to |xs|
      invariant forall k :: 0 <= k < j ==> !xs[k].NoAddr?
    {
      if xs[j].NoAddr? {
        assert xs[j] in xs;
        return false;
      }
    }
    return true;
  }

  method NormalizeResolutionInput(n: ResolutionInput) returns (r: Option<(ResolutionInput, map<string, Labels>)>)
    ensures r.Some? <==> GoodInput(n)
    ensures r.Some? ==> r.value.0 == Normalize(n) && Indexes(n.namespaces, r.value.1)
  {
    var nodeIPs := NormalizeNodes(n);
    if nodeIPs.None? {
      return None;
    }
    var namespaces := IndexNamespaces(n.namespaces);
    if namespaces.None? {
      return None;
    }
    var pods := NormalizePods(n, namespaces.value);
    if pods.None? {
      return None;
    }
    assert pods.value == Normalize(n).pods;
    return Some((ResolutionInput(nodeIPs.value, n.namespaces, pods.value), namespaces.value));
  }
}
