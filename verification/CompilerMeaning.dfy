/**
 The compiler preserves meaning: what the packet program decides from the packed
 keys of a slot is what direct evaluation of the source policies decides.
*/
module CompilerMeaning {
  import opened Cidr
  import opened Ordering
  import opened PolicySets
  import opened RangeSplit
  import opened IpBlock
  import N = NativePolicies
  import opened Resolution
  import C = CompilerSpec
  import S = CompiledSets
  import E = NativeEngine
  import M = PolicyMeaning
  import A = MeaningAgreement
  import opened EngineKeys
  import opened SlotVerdict

  /** The pod a packet belongs to: the one whose container has this cgroup. */
  ghost predicate PodOf(raw: N.ResolutionInput, pod: N.Pod, c: Cgroup) {
    pod in raw.pods && c in pod.cgroups
  }

  // ----- normalization changes no meaning -----

  lemma SameSelection(p: N.NetworkPolicy, pod: N.Pod, w: Way)
    ensures var q := NormalizePod(pod);
            && (N.Selects(p, q) <==> N.Selects(p, pod))
            && (N.Isolates(p, q, w) <==> N.Isolates(p, pod, w))
            && (N.Quarantines(p, q, w) <==> N.Quarantines(p, pod, w))
  {
    NormalizePodKeeps(pod);
  }

  lemma SameMasks(ps: seq<N.NetworkPolicy>, pod: N.Pod, w: Way)
    ensures var q := NormalizePod(pod);
            && (C.AnySelects(ps, q) <==> C.AnySelects(ps, pod))
            && (C.AnyIsolates(ps, q, w) <==> C.AnyIsolates(ps, pod, w))
            && (C.AnyQuarantines(ps, q, w) <==> C.AnyQuarantines(ps, pod, w))
  {
    forall i | 0 <= i < |ps|
      ensures var q := NormalizePod(pod);
              && (N.Selects(ps[i], q) <==> N.Selects(ps[i], pod))
              && (N.Isolates(ps[i], q, w) <==> N.Isolates(ps[i], pod, w))
              && (N.Quarantines(ps[i], q, w) <==> N.Quarantines(ps[i], pod, w))
    {
      SameSelection(ps[i], pod, w);
    }
  }

  lemma SamePeer(p: N.NetworkPolicy, peer: N.Peer, raw: N.ResolutionInput, pod: N.Pod)
    ensures N.PeerSelectsPod(p, peer, Normalize(raw), NormalizePod(pod)) <==> N.PeerSelectsPod(p, peer, raw, pod)
  {
    NormalizePodKeeps(pod);
    if peer.namespaceSelector.Some? {
      var s, name := peer.namespaceSelector.value, N.PodNamespace(pod);
      assert N.NamespaceMatches(s, Normalize(raw), name) <==> N.NamespaceMatches(s, raw, name);
    }
  }

  // ----- prefixes mean addresses -----

  /** Some prefix of the peer contains the address exactly when the peer allows it. */
  lemma PeerBlocksMean(p: N.NetworkPolicy, peer: N.Peer, raw: N.ResolutionInput, a: U32)
    ensures (exists b :: b in C.PeerBlocks(p, peer, Normalize(raw)) && b.Has(a)) <==> N.PeerAllows(p, peer, raw, a)
  {
    if peer.ipBlock.Some? {
      BlockPeerMeans(p, peer, Normalize(raw), a);
    } else {
      PodPeerMeans(p, peer, raw, a);
    }
  }

  lemma BlockPeerMeans(p: N.NetworkPolicy, peer: N.Peer, n: N.ResolutionInput, a: U32)
    requires peer.ipBlock.Some?
    ensures (exists b :: b in C.PeerBlocks(p, peer, n) && b.Has(a)) <==>
              Accepted(peer.ipBlock.value) && a in Target(peer.ipBlock.value)
  {
    if Accepted(peer.ipBlock.value) {
      var region := Target(peer.ipBlock.value);
      MaximalsCover(region, a);
      forall b
        ensures b in C.PeerBlocks(p, peer, n) <==> Maximal(b, region)
      {
        InMaximalSet(b, region);
      }
    }
  }

  lemma PodPeerMeans(p: N.NetworkPolicy, peer: N.Peer, raw: N.ResolutionInput, a: U32)
    requires peer.ipBlock.None?
    ensures (exists b :: b in C.PeerBlocks(p, peer, Normalize(raw)) && b.Has(a)) <==>
              exists pod :: pod in raw.pods && N.PeerSelectsPod(p, peer, raw, pod) && N.HasIPv4(pod, a)
  {
    if b :| b in C.PeerBlocks(p, peer, Normalize(raw)) && b.Has(a) {
      var pod := BlockComesFromPod(p, peer, raw, b, a);
    }
    if pod :| pod in raw.pods && N.PeerSelectsPod(p, peer, raw, pod) && N.HasIPv4(pod, a) {
      PodGivesBlock(p, peer, raw, pod, a);
      SingleAddress(Block(a, 32), a);
    }
  }

  lemma BlockComesFromPod(p: N.NetworkPolicy, peer: N.Peer, raw: N.ResolutionInput, b: Block, a: U32)
    returns (pod: N.Pod)
    requires peer.ipBlock.None? && b in C.PeerBlocks(p, peer, Normalize(raw)) && b.Has(a)
    ensures pod in raw.pods && N.PeerSelectsPod(p, peer, raw, pod) && N.HasIPv4(pod, a)
  {
    var n := Normalize(raw);
    var q, x :| q in n.pods && N.PeerSelectsPod(p, peer, n, q) && x in q.podIPs && x.V4? && b == Block(x.value, 32);
    SingleAddress(b, a);
    var k :| 0 <= k < |n.pods| && n.pods[k] == q;
    pod := raw.pods[k];
    NormalizePodKeeps(pod);
    SamePeer(p, peer, raw, pod);
    assert x == V4(a);
  }

  lemma PodGivesBlock(p: N.NetworkPolicy, peer: N.Peer, raw: N.ResolutionInput, pod: N.Pod, a: U32)
    requires peer.ipBlock.None? && pod in raw.pods && N.PeerSelectsPod(p, peer, raw, pod) && N.HasIPv4(pod, a)
    ensures Block(a, 32) in C.PeerBlocks(p, peer, Normalize(raw))
  {
    var n := Normalize(raw);
    var k :| 0 <= k < |raw.pods| && raw.pods[k] == pod;
    var q := n.pods[k];
    NormalizePodKeeps(pod);
    SamePeer(p, peer, raw, pod);
    assert q in n.pods && V4(a) in q.podIPs && V4(a).value == a;
  }

  lemma SingleAddress(b: Block, a: int)
    requires b.bits == 32
    ensures b.Has(a) <==> a == b.start
  {
  }

  // ----- rules mean policies -----

  ghost predicate AllowAdmits(a: C.Allow, w: Way, packet: Packet) {
    && a.direction == Bit(w) && a.protocol == packet.protocol && a.port == packet.destinationPort
    && a.bits <= 32 && Block(a.addr, a.bits).Has(packet.Peer(w))
  }

  /** One rule of one policy, for one pod. */
  lemma RuleGridMeans(p: N.NetworkPolicy, raw: N.ResolutionInput, pod: N.Pod, w: Way, r: N.PeerRule, c: Cgroup,
                      packet: Packet)
    requires c in pod.cgroups
    ensures (exists a ::
            a in C.RuleGrid(p, Normalize(raw), pod, w, r) && a.cgroup == c && AllowAdmits(a, w, packet)) <==>
              N.RuleAllows(p, r, raw, packet.Peer(w), packet.protocol, packet.destinationPort)
  {
    hide Normalize, N.PeerAllows;
    var n, peer := Normalize(raw), packet.Peer(w);
    if a :| a in C.RuleGrid(p, n, pod, w, r) && a.cgroup == c && AllowAdmits(a, w, packet) {
      var c0, b, q :| c0 in pod.cgroups && b in C.PeersBlocks(p, r.peers, n) && q in r.ports
          && C.AllowOf(c0, Bit(w), b, q) == a;
      var i :| 0 <= i < |r.peers| && b in C.PeerBlocks(p, r.peers[i], n);
      PeerBlocksMean(p, r.peers[i], raw, peer);
      assert b == Block(a.addr, a.bits);
      var j :| 0 <= j < |r.ports| && r.ports[j] == q;
    }
    if N.RuleAllows(p, r, raw, peer, packet.protocol, packet.destinationPort) {
      var i :| 0 <= i < |r.peers| && N.PeerAllows(p, r.peers[i], raw, peer);
      PeerBlocksMean(p, r.peers[i], raw, peer);
      var b :| b in C.PeerBlocks(p, r.peers[i], n) && b.Has(peer);
      var j :| 0 <= j < |r.ports| && N.ProtocolOf(r.ports[j]) == packet.protocol
          && r.ports[j].port == packet.destinationPort;
      var a := C.AllowOf(c, Bit(w), b, r.ports[j]);
      assert b in C.PeersBlocks(p, r.peers, n) && r.ports[j] in r.ports;
      assert a in C.RuleGrid(p, n, pod, w, r);
      assert b == Block(a.addr, a.bits);
    }
  }

  lemma RulesOfMean(p: N.NetworkPolicy, raw: N.ResolutionInput, pod: N.Pod, w: Way, c: Cgroup, packet: Packet)
    requires c in pod.cgroups
    ensures (exists a :: a in C.RulesOf(p, Normalize(raw), pod, w) && a.cgroup == c && AllowAdmits(a, w, packet)) <==>
              N.Allows(p, pod, w, raw, packet.Peer(w), packet.protocol, packet.destinationPort)
  {
    var n, rules := Normalize(raw), N.RulesFor(p, w);
    if a :| a in C.RulesOf(p, n, pod, w) && a.cgroup == c && AllowAdmits(a, w, packet) {
      var i :| 0 <= i < |rules| && a in C.RuleGrid(p, n, pod, w, rules[i]);
      RuleGridMeans(p, raw, pod, w, rules[i], c, packet);
    }
    if N.Allows(p, pod, w, raw, packet.Peer(w), packet.protocol, packet.destinationPort) {
      var i :| 0 <= i < |rules| && N.RuleAllows(p, rules[i], raw, packet.Peer(w), packet.protocol,
          packet.destinationPort);
      RuleGridMeans(p, raw, pod, w, rules[i], c, packet);
      var a :| a in C.RuleGrid(p, n, pod, w, rules[i]) && a.cgroup == c && AllowAdmits(a, w, packet);
      assert a in C.RulesOf(p, n, pod, w);
    }
  }

  /** Direction is part of a rule: rules of one direction do not admit packets of the other. */
  lemma RuleDirection(p: N.NetworkPolicy, n: N.ResolutionInput, pod: N.Pod, w: Way, a: C.Allow)
    requires a in C.RulesOf(p, n, pod, w)
    ensures a.direction == Bit(w) && a.cgroup in pod.cgroups
  {
    var i :| 0 <= i < |N.RulesFor(p, w)| && a in C.RuleGrid(p, n, pod, w, N.RulesFor(p, w)[i]);
  }

  /** The deduplicated rules of a cgroup admit a packet exactly when some accepted policy does. */
  lemma RuleSetMeans(ps: seq<N.NetworkPolicy>, raw: N.ResolutionInput, pod: N.Pod, w: Way, c: Cgroup, packet: Packet)
    requires C.OneOwner(Normalize(raw)) && C.Owns(Normalize(raw), pod, c)
    ensures (exists a :: a in C.RuleSet(ps, Normalize(raw)) && a.cgroup == c && AllowAdmits(a, w, packet)) <==>
              exists i :: 0 <= i < |ps| && N.Allows(ps[i], pod, w, raw, packet.Peer(w), packet.protocol,
                  packet.destinationPort)
  {
    var n := Normalize(raw);
    if a :| a in C.RuleSet(ps, n) && a.cgroup == c && AllowAdmits(a, w, packet) {
      var i, q, v: Way :| 0 <= i < |ps| && q in n.pods && a in C.RulesOf(ps[i], n, q, v);
      RuleDirection(ps[i], n, q, v, a);
      assert C.Owns(n, q, c) && v == w;
      RulesOfMean(ps[i], raw, pod, w, c, packet);
    }
    if i :| 0 <= i < |ps| && N.Allows(ps[i], pod, w, raw, packet.Peer(w), packet.protocol, packet.destinationPort) {
      RulesOfMean(ps[i], raw, pod, w, c, packet);
      var a :| a in C.RulesOf(ps[i], n, pod, w) && a.cgroup == c && AllowAdmits(a, w, packet);
      assert w in {0, 1};
      assert a in C.RuleSet(ps, n);
    }
  }

  lemma RuleOfAdmits(a: C.Allow, c: Cgroup, w: Way, packet: Packet)
    requires S.InRange(a)
    ensures RuleAdmits(S.RuleOf(a), c, w, packet) <==> a.cgroup == c && AllowAdmits(a, w, packet)
  {
    S.InRangeFits(a);
    FloorIsAligned(a.addr, 32 - a.bits);
    FloorOfAligned(a.addr, 32 - a.bits);
  }

  /** The rules of the compiled set, through the same door. */
  lemma CompiledRulesMean(ps: seq<N.NetworkPolicy>, raw: N.ResolutionInput, p: PolicySet, pod: N.Pod, w: Way,
                          c: Cgroup, packet: Packet)
    requires C.OneOwner(Normalize(raw)) && C.Owns(Normalize(raw), pod, c)
    requires forall r :: r in p.rules <==> S.IsRule(ps, Normalize(raw), r)
    ensures (exists i :: 0 <= i < |p.rules| && RuleAdmits(p.rules[i], c, w, packet)) <==>
              exists i :: 0 <= i < |ps| && N.Allows(ps[i], pod, w, raw, packet.Peer(w), packet.protocol,
                  packet.destinationPort)
  {
    var n := Normalize(raw);
    RuleSetMeans(ps, raw, pod, w, c, packet);
    if i :| 0 <= i < |p.rules| && RuleAdmits(p.rules[i], c, w, packet) {
      assert p.rules[i] in p.rules;
      var a :| a in C.RuleSet(ps, n) && S.InRange(a) && p.rules[i] == S.RuleOf(a);
      RuleOfAdmits(a, c, w, packet);
    }
    if a :| a in C.RuleSet(ps, n) && a.cgroup == c && AllowAdmits(a, w, packet) {
      S.RulesAreInRange(ps, n, a);
      RuleOfAdmits(a, c, w, packet);
      assert S.IsRule(ps, n, S.RuleOf(a));
      var i :| 0 <= i < |p.rules| && p.rules[i] == S.RuleOf(a);
    }
  }

  lemma SameAllows(p: N.NetworkPolicy, raw: N.ResolutionInput, pod: N.Pod, w: Way, packet: Packet)
    ensures N.Allows(p, NormalizePod(pod), w, raw, packet.Peer(w), packet.protocol, packet.destinationPort) <==>
              N.Allows(p, pod, w, raw, packet.Peer(w), packet.protocol, packet.destinationPort)
  {
    SameSelection(p, pod, w);
  }

  // ----- the whole decision -----

  /** The pod that owns a cgroup, before and after normalization. */
  lemma OwnerNormalizes(raw: N.ResolutionInput, pod: N.Pod, c: Cgroup)
    requires N.GoodInput(raw) && PodOf(raw, pod, c)
    ensures C.Ready(Normalize(raw)) && C.Owns(Normalize(raw), NormalizePod(pod), c)
  {
    C.NormalizedIsReady(raw);
    NormalizePodKeeps(pod);
    var k :| 0 <= k < |raw.pods| && raw.pods[k] == pod;
    assert Normalize(raw).pods[k] == NormalizePod(pod);
  }

  lemma OwnerExists(raw: N.ResolutionInput, q: N.Pod, c: Cgroup)
    requires C.Owns(Normalize(raw), q, c)
    ensures exists pod :: PodOf(raw, pod, c)
  {
    var k :| 0 <= k < |raw.pods| && Normalize(raw).pods[k] == q;
    NormalizePodKeeps(raw.pods[k]);
    assert PodOf(raw, raw.pods[k], c);
  }

  /** A cgroup is a subject exactly when a policy selects its pod, with that pod's masks. */
  lemma SubjectOf(ps: seq<N.NetworkPolicy>, raw: N.ResolutionInput, p: PolicySet, pod: N.Pod, c: Cgroup)
    requires N.GoodInput(raw) && PodOf(raw, pod, c) && S.IsCompiled(ps, Normalize(raw), p.(classified := []))
    ensures C.AnySelects(ps, pod) ==> S.SubjectFor(ps, NormalizePod(pod), c) in p.subjects
    ensures !C.AnySelects(ps, pod) ==> !HasSubject(p, c)
  {
    var n, q := Normalize(raw), NormalizePod(pod);
    OwnerNormalizes(raw, pod, c);
    SameMasks(ps, pod, 0);
    if C.AnySelects(ps, pod) {
      assert S.IsSubject(ps, n, S.SubjectFor(ps, q, c));
    } else {
      SubjectsOwned(ps, raw, p);
    }
  }

  ghost predicate OwnedAndSelected(ps: seq<N.NetworkPolicy>, n: N.ResolutionInput, c: Cgroup) {
    exists q :: C.Owns(n, q, c) && C.AnySelects(ps, q)
  }

  lemma SubjectsOwned(ps: seq<N.NetworkPolicy>, raw: N.ResolutionInput, p: PolicySet)
    requires S.IsCompiled(ps, Normalize(raw), p.(classified := []))
    ensures forall i :: 0 <= i < |p.subjects| ==> OwnedAndSelected(ps, Normalize(raw), p.subjects[i].cgroup)
  {
    forall i | 0 <= i < |p.subjects|
      ensures OwnedAndSelected(ps, Normalize(raw), p.subjects[i].cgroup)
    {
      var s := p.subjects[i];
      assert s in p.(classified := []).subjects;
      assert S.IsSubject(ps, Normalize(raw), s);
    }
  }

  lemma SelfAddresses(pod: N.Pod, a: U32)
    ensures V4(a) in C.IPv4sOf(NormalizePod(pod)) <==> N.HasIPv4(pod, a)
  {
    var q := NormalizePod(pod);
    NormalizePodKeeps(pod);
    UniqueSortedIsListing(OnlyIPv4(q.podIPs), AddrRank);
  }

  /** The bypass lookups for a selected pod. */
  lemma SelfLookup(ps: seq<N.NetworkPolicy>, p: PolicySet, pod: N.Pod, c: Cgroup, a: U32)
    requires Valid(p) && S.SubjectFor(ps, NormalizePod(pod), c) in p.subjects
    ensures (exists i :: 0 <= i < |p.subjects| && p.subjects[i].cgroup == c && V4(a) in p.subjects[i].podIPs) <==>
            M.HasAddress(pod, a)
  {
    SelfAddresses(pod, a);
    A.AddressesAgree(pod, a);
    var k :| 0 <= k < |p.subjects| && p.subjects[k] == S.SubjectFor(ps, NormalizePod(pod), c);
    assert forall i :: 0 <= i < |p.subjects| && p.subjects[i].cgroup == c ==> i == k;
  }

  /** What all policies together make of a pod. */
  lemma MasksAgree(ps: seq<N.NetworkPolicy>, pod: N.Pod, w: Way)
    ensures C.AnySelects(ps, pod) <==> M.Chosen(ps, pod)
    ensures C.AnyIsolates(ps, pod, w) <==> M.Isolated(ps, pod, w == 0)
    ensures C.AnyQuarantines(ps, pod, w) <==> M.InQuarantine(ps, pod, w == 0)
  {
    hide N.Selects, N.Isolates, N.Quarantines, M.Chooses, M.IsolatesDirection, M.Accepts;
    forall i | 0 <= i < |ps|
      ensures ps[i] in ps
      ensures N.Selects(ps[i], pod) <==> M.Chooses(ps[i], pod)
      ensures N.Isolates(ps[i], pod, w) <==> M.Chooses(ps[i], pod) && M.IsolatesDirection(ps[i], w == 0)
      ensures N.Quarantines(ps[i], pod, w) <==>
                && M.Chooses(ps[i], pod) && M.IsolatesDirection(ps[i], w == 0)
                && (!M.Accepts(ps[i]) || exists x :: x in pod.podIPs && x.V6?)
    {
      A.SelectionAgrees(ps[i], pod, w);
      A.QuarantineAgrees(ps[i], pod, w);
    }
  }

  lemma SubjectBits(ps: seq<N.NetworkPolicy>, p: PolicySet, maps: Maps, slot: nat, pod: N.Pod, c: Cgroup, w: Way)
    requires Valid(p) && slot < 2 && Holds(maps, slot, p) && S.SubjectFor(ps, NormalizePod(pod), c) in p.subjects
    ensures var subject := SubjectLookup(maps, slot, c);
            && subject.Some? && subject.value.State?
            && (Covers(subject.value.isolated, w) <==> M.Isolated(ps, pod, w == 0))
            && (Covers(subject.value.quarantined, w) <==> M.InQuarantine(ps, pod, w == 0))
  {
    SubjectLookupMeans(maps, slot, p, c);
    SameMasks(ps, pod, w);
    MasksAgree(ps, pod, w);
    var k :| 0 <= k < |p.subjects| && p.subjects[k] == S.SubjectFor(ps, NormalizePod(pod), c);
    assert p.subjects[k].cgroup == c;
  }

  lemma NodeLookup(raw: N.ResolutionInput, p: PolicySet, maps: Maps, slot: nat, a: U32)
    requires Valid(p) && slot < 2 && Holds(maps, slot, p) && p.nodeIPs == Normalize(raw).nodeIPs
    ensures IsNodeAddress(maps, slot, a) <==> M.NodeHas(raw, a)
  {
    NormalizeNodeIPs(raw);
    assert forall x: Addr :: x.Unmap() == V4(a) <==> M.Writes(x, a);
    FlagLookupMeans(maps, slot, p, NodeKey(slot, a));
  }

  lemma RuleLookup(ps: seq<N.NetworkPolicy>, raw: N.ResolutionInput, p: PolicySet, maps: Maps, slot: nat, pod: N.Pod,
                   c: Cgroup, w: Way, packet: Packet)
    requires N.GoodInput(raw) && PodOf(raw, pod, c) && S.IsCompiled(ps, Normalize(raw), p.(classified := []))
    requires Valid(p) && slot < 2 && Holds(maps, slot, p) && RulesWellFormed(maps)
    ensures RuleMatches(maps, slot, c, w, packet) <==> M.Permitted(ps, raw, pod, w == 0, packet)
  {
    OwnerNormalizes(raw, pod, c);
    LookupMeansRule(maps, slot, p, c, w, packet);
    assert forall r :: r in p.rules <==> r in p.(classified := []).rules;
    CompiledRulesMean(ps, raw, p, NormalizePod(pod), w, c, packet);
    forall i | 0 <= i < |ps|
      ensures N.Allows(ps[i], NormalizePod(pod), w, raw, packet.Peer(w), packet.protocol, packet.destinationPort) <==>
                M.Permits(ps[i], raw, pod, w == 0, packet)
    {
      SameAllows(ps[i], raw, pod, w, packet);
      A.PermissionAgrees(ps[i], raw, pod, w, packet);
    }
    hide M.Permits, N.Allows, RuleAdmits;
    assert forall i :: 0 <= i < |ps| ==> ps[i] in ps;
  }

  /** The bypasses of a selected pod. */
  lemma BypassLookups(ps: seq<N.NetworkPolicy>, raw: N.ResolutionInput, p: PolicySet, maps: Maps, slot: nat,
                      pod: N.Pod, c: Cgroup, w: Way, packet: Packet)
    requires Valid(p) && slot < 2 && Holds(maps, slot, p) && p.nodeIPs == Normalize(raw).nodeIPs
    requires S.SubjectFor(ps, NormalizePod(pod), c) in p.subjects
    ensures IsNodeAddress(maps, slot, packet.Peer(w)) <==>
              M.NodeHas(raw, if w == 0 then packet.destination else packet.source)
    ensures IsSelfAddress(maps, slot, c, packet.source, packet.destination) <==>
              packet.source == packet.destination && M.HasAddress(pod, packet.source)
  {
    NodeLookup(raw, p, maps, slot, packet.Peer(w));
    SelfLookup(ps, p, pod, c, packet.source);
    FlagLookupMeans(maps, slot, p, SelfKey(c, slot, packet.source));
  }

  lemma SelectedPodDecision(ps: seq<N.NetworkPolicy>, raw: N.ResolutionInput, p: PolicySet, maps: Maps, slot: nat,
                            pod: N.Pod, c: Cgroup, w: Way, packet: Packet, connected: bool)
    requires N.GoodInput(raw) && PodOf(raw, pod, c) && S.IsCompiled(ps, Normalize(raw), p.(classified := []))
    requires Valid(p) && slot < 2 && Holds(maps, slot, p) && RulesWellFormed(maps)
    requires M.Chosen(ps, pod)
    ensures SlotDecision(maps, slot, c, w, packet, connected) == M.Decision(ps, raw, pod, w == 0, packet, connected)
  {
    hide Valid, Holds, RulesWellFormed, Normalize, PodOf, M.Isolated, M.InQuarantine, M.Permitted, M.Chosen;
    hide M.NodeHas, M.HasAddress, RuleMatches, IsNodeAddress, IsSelfAddress, SubjectLookup, Covers;
    MasksAgree(ps, pod, w);
    SubjectOf(ps, raw, p, pod, c);
    SubjectBits(ps, p, maps, slot, pod, c, w);
    BypassLookups(ps, raw, p, maps, slot, pod, c, w, packet);
    RuleLookup(ps, raw, p, maps, slot, pod, c, w, packet);
  }

  /** Compilation preserves meaning. For every accepted snapshot, whatever the other slot holds,
      the packet program decides every packet of every workload as the policies do; cgroups of
      no workload pod are not subjects. */
  lemma CompilationPreservesMeaning(ps: seq<N.NetworkPolicy>, raw: N.ResolutionInput, p: PolicySet, maps: Maps,
                                    slot: nat, c: Cgroup, w: Way, packet: Packet, connected: bool)
    requires M.GoodSnapshot(raw) && E.IsCandidate(ps, raw, p) && Valid(p)
    requires slot < 2 && Holds(maps, slot, p) && RulesWellFormed(maps)
    ensures forall pod :: PodOf(raw, pod, c) ==>
              SlotDecision(maps, slot, c, w, packet, connected) == M.Decision(ps, raw, pod, w == 0, packet, connected)
    ensures (forall pod :: !PodOf(raw, pod, c)) ==> SlotDecision(maps, slot, c, w, packet, connected) == Pass
  {
    A.SnapshotsAgree(raw);
    forall pod | PodOf(raw, pod, c)
      ensures SlotDecision(maps, slot, c, w, packet, connected) == M.Decision(ps, raw, pod, w == 0, packet, connected)
    {
      MasksAgree(ps, pod, w);
      if M.Chosen(ps, pod) {
        SelectedPodDecision(ps, raw, p, maps, slot, pod, c, w, packet, connected);
      } else {
        SubjectOf(ps, raw, p, pod, c);
        SubjectLookupMeans(maps, slot, p, c);
      }
    }
    if forall pod :: !PodOf(raw, pod, c) {
      NobodysCgroup(ps, raw, p, c);
      SubjectLookupMeans(maps, slot, p, c);
    }
  }

  lemma NobodysCgroup(ps: seq<N.NetworkPolicy>, raw: N.ResolutionInput, p: PolicySet, c: Cgroup)
    requires S.IsCompiled(ps, Normalize(raw), p.(classified := [])) && forall pod :: !PodOf(raw, pod, c)
    ensures !HasSubject(p, c)
  {
    if HasSubject(p, c) {
      var i :| 0 <= i < |p.subjects| && p.subjects[i].cgroup == c;
      assert p.subjects[i] in p.(classified := []).subjects;
      var q :| C.Owns(Normalize(raw), q, c) && C.AnySelects(ps, q) && p.subjects[i] == S.SubjectFor(ps, q, c);
      OwnerExists(raw, q, c);
    }
  }

  /** The parent guard lets through exactly the local workloads, and every subject is one. */
  lemma GuardMeansWorkload(ps: seq<N.NetworkPolicy>, raw: N.ResolutionInput, p: PolicySet, maps: Maps, slot: nat,
                           c: Cgroup)
    requires E.IsCandidate(ps, raw, p) && Valid(p) && slot < 2 && Holds(maps, slot, p)
    ensures ClassKey(c, slot) in maps <==> M.RunsHere(raw, c)
    ensures SubjectLookup(maps, slot, c).Some? ==> ClassKey(c, slot) in maps
  {
    FlagLookupMeans(maps, slot, p, ClassKey(c, slot));
    E.SubjectsAreClassified(ps, raw, p);
    SubjectLookupMeans(maps, slot, p, c);
  }
}
