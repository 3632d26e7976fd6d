/**
 Kubernetes NetworkPolicy objects, the facts they are resolved against, and what
 they mean: which local pods a policy isolates, which it quarantines, and which
 packets its rules allow. None here knows about cgroup maps or slots.
*/
module NativePolicies {
  import opened PolicySets
  import opened Options
  import opened RangeSplit
  import opened IpBlock

  type Labels = map<string, string>

  /** A label selector: whether it converts to a selector at all, and what it then matches. */
  datatype Selector = Selector(wellFormed: bool, matches: Labels -> bool)

  datatype Peer = Peer(podSelector: Option<Selector>, namespaceSelector: Option<Selector>,
                       ipBlock: Option<NativeIPBlock>)
  datatype Port = Port(protocol: string, port: int, portName: string, hasEndPort: bool)
  datatype PeerRule = PeerRule(peers: seq<Peer>, ports: seq<Port>)
  datatype Spec = Spec(podSelector: Option<Selector>, policyTypes: Option<seq<string>>, ingress: seq<PeerRule>,
                       egress: seq<PeerRule>)

  /** `wellFormed` stands for the checks on names, labels and annotations. */
  datatype Metadata = Metadata(namespace: string, wellFormed: bool)
  datatype NetworkPolicy = NetworkPolicy(apiVersion: string, kind: string, metadata: Option<Metadata>,
                                         spec: Option<Spec>)

  datatype Namespace = Namespace(name: string, labels: Labels)
  datatype Failure = NoFailure | CgroupNotFound | UnsupportedRuntime
  datatype Pod = Pod(
    namespace: string, name: string, labels: Labels, podIPs: seq<Addr>, cgroups: seq<Cgroup>,
    failure: Failure, local: bool, hostNetwork: bool)
  datatype ResolutionInput = ResolutionInput(nodeIPs: seq<Addr>, namespaces: seq<Namespace>, pods: seq<Pod>)

  // ----- directions -----

  function MaskOf(egress: bool, ingress: bool): Direction {
    Direction(egress, ingress, false)
  }

  /** nativePolicyDirections */
  function Directions(p: NetworkPolicy): (m: Direction)
    ensures m != NO_DIRECTION && m.Subset(ALL_DIRECTIONS)
  {
    if p.spec.None? then ALL_DIRECTIONS
    else
      var s := p.spec.value;
      if s.policyTypes.None? then MaskOf(|s.egress| > 0, true)
      else
        var egress := "Egress" in s.policyTypes.value || |s.egress| > 0;
        var ingress := "Ingress" in s.policyTypes.value || |s.ingress| > 0;
        if !egress && !ingress then ALL_DIRECTIONS else MaskOf(egress, ingress)
  }

  function NamespaceOf(p: NetworkPolicy): string {
    if p.metadata.Some? && p.metadata.value.namespace != "" then p.metadata.value.namespace else "default"
  }

  function RulesFor(p: NetworkPolicy, w: Way): seq<PeerRule> {
    if p.spec.None? then [] else if w == 0 then p.spec.value.egress else p.spec.value.ingress
  }

  // ----- acceptance -----

  function IsSpace(c: char): bool {
    c == ' ' || c == '\t' || c == '\n' || c == '\r' || c == '\U{000B}' || c == '\U{000C}'
  }

  predicate Blank(s: string) {
    forall c :: c in s ==> IsSpace(c)
  }

  ghost predicate Expandable(b: NativeIPBlock) {
    Accepted(b) && |MaximalSet(Target(b))| <= MAX_EXPANSION
  }

  ghost predicate ValidPeer(p: Peer) {
    && (p.podSelector.Some? || p.namespaceSelector.Some? || p.ipBlock.Some?)
    && !(p.ipBlock.Some? && (p.podSelector.Some? || p.namespaceSelector.Some?))
    && (p.podSelector.Some? ==> p.podSelector.value.wellFormed)
    && (p.namespaceSelector.Some? ==> p.namespaceSelector.value.wellFormed)
    && (p.ipBlock.Some? ==> Expandable(p.ipBlock.value))
  }

  predicate ValidPort(p: Port) {
    && (p.protocol == "TCP" || p.protocol == "UDP")
    && Blank(p.portName)
    && !p.hasEndPort
    && 1 <= p.port <= 65535
  }

  ghost predicate ValidPeerRule(r: PeerRule) {
    && r.peers != [] && r.ports != []
    && (forall i :: 0 <= i < |r.peers| ==> ValidPeer(r.peers[i]))
    && (forall i :: 0 <= i < |r.ports| ==> ValidPort(r.ports[i]))
  }

  predicate ValidTypes(s: Spec) {
    s.policyTypes.Some? ==>
      var types := s.policyTypes.value;
      && types != []
      && (forall i :: 0 <= i < |types| ==> types[i] == "Ingress" || types[i] == "Egress")
      && (forall i, j :: 0 <= i < j < |types| ==> types[i] != types[j])
      && (|s.ingress| > 0 ==> "Ingress" in types)
      && (|s.egress| > 0 ==> "Egress" in types)
  }

  predicate ValidHead(p: NetworkPolicy) {
    && p.apiVersion == "networking.k8s.io/v1"
    && p.kind == "NetworkPolicy"
    && p.metadata.Some? && p.metadata.value.wellFormed
    && p.spec.Some? && p.spec.value.podSelector.Some? && p.spec.value.podSelector.value.wellFormed
    && ValidTypes(p.spec.value)
  }

  /** validateNativePolicy accepts. */
  ghost predicate ValidPolicy(p: NetworkPolicy) {
    && ValidHead(p)
    && (forall i :: 0 <= i < |p.spec.value.ingress| ==> ValidPeerRule(p.spec.value.ingress[i]))
    && (forall i :: 0 <= i < |p.spec.value.egress| ==> ValidPeerRule(p.spec.value.egress[i]))
  }

  method ValidateNativePeer(p: Peer) returns (ok: bool)
    ensures ok <==> ValidPeer(p)
  {
    if p.podSelector.None? && p.namespaceSelector.None? && p.ipBlock.None? {
      return false;
    }
    if p.ipBlock.Some? && (p.podSelector.Some? || p.namespaceSelector.Some?) {
      return false;
    }
    if p.podSelector.Some? && !p.podSelector.value.wellFormed {
      return false;
    }
    if p.namespaceSelector.Some? && !p.namespaceSelector.value.wellFormed {
      return false;
    }
    if p.ipBlock.Some? {
      var expanded := ExpandNativeIPBlock(p.ipBlock.value);
      return expanded.Ok?;
    }
    return true;
  }

  method ValidatePeerRules(rules: seq<PeerRule>) returns (ok: bool)
    ensures ok <==> forall i :: 0 <= i < |rules| ==> ValidPeerRule(rules[i])
  {
    for i := 0 to |rules|
      invariant forall k :: 0 <= k < i ==> ValidPeerRule(rules[k])
    {
      var rule := rules[i];
      if rule.peers == [] || rule.ports == [] {
        assert !ValidPeerRule(rules[i]);
        return false;
      }
      for j := 0 to |rule.peers|
        invariant forall k :: 0 <= k < j ==> ValidPeer(rule.peers[k])
      {
        var fine := ValidateNativePeer(rule.peers[j]);
        if !fine {
          assert !ValidPeerRule(rules[i]);
          return false;
        }
      }
      for j := 0 to |rule.ports|
        invariant forall k :: 0 <= k < j ==> ValidPort(rule.ports[k])
      {
        if !ValidPort(rule.ports[j]) {
          assert !ValidPeerRule(rules[i]);
          return false;
        }
      }
    }
    return true;
  }

  method ValidateNativePolicy(p: NetworkPolicy) returns (ok: bool)
    ensures ok <==> ValidPolicy(p)
  {
    if !ValidHead(p) {
      return false;
    }
    ok := ValidatePeerRules(p.spec.value.ingress);
    if ok {
      ok := ValidatePeerRules(p.spec.value.egress);
    }
  }

  // ----- what policies mean -----

  function PodNamespace(pod: Pod): string {
    if pod.namespace == "" then "default" else pod.namespace
  }

  ghost predicate HasIPv4(pod: Pod, a: U32) {
    exists x :: x in pod.podIPs && x.Unmap() == V4(a)
  }

  ghost predicate HasIPv6(pod: Pod) {
    exists x :: x in pod.podIPs && x.Unmap().Is6()
  }

  predicate SelectorUsable(p: NetworkPolicy) {
    p.spec.Some? && p.spec.value.podSelector.Some? && p.spec.value.podSelector.value.wellFormed
  }

  /** The policy is about this pod: by its selector, or, if it has none to go by, by namespace. */
  predicate Selects(p: NetworkPolicy, pod: Pod) {
    && pod.local && !pod.hostNetwork
    && PodNamespace(pod) == NamespaceOf(p)
    && (SelectorUsable(p) ==> p.spec.value.podSelector.value.matches(pod.labels))
  }

  predicate Isolates(p: NetworkPolicy, pod: Pod, w: Way) {
    Selects(p, pod) && Covers(Directions(p), w)
  }

  predicate Names(p: NetworkPolicy, w: Way) {
    && p.spec.Some? && p.spec.value.policyTypes.Some?
    && (if w == 0 then "Egress" else "Ingress") in p.spec.value.policyTypes.value
  }

  predicate Silent(p: NetworkPolicy, w: Way) {
    RulesFor(p, w) == [] && !Names(p, w)
  }

  /** Which directions a policy isolates: those it has rules for or names; ingress, if it does not
      list types; both, if it says nothing that counts. No rule is ever ignored. */
  lemma DirectionsMean(p: NetworkPolicy, w: Way)
    ensures Covers(Directions(p), w) <==>
              || p.spec.None? || !Silent(p, w)
              || (p.spec.value.policyTypes.None? && w == 1)
              || (p.spec.value.policyTypes.Some? && Silent(p, 0) && Silent(p, 1))
  {
    if p.spec.Some? && p.spec.value.policyTypes.Some? {
      assert Silent(p, 0) && Silent(p, 1) ==> Directions(p) == ALL_DIRECTIONS;
    }
  }

  /** A refused policy quarantines what it selects; an accepted one quarantines IPv6 pods. */
  ghost predicate Quarantines(p: NetworkPolicy, pod: Pod, w: Way) {
    Isolates(p, pod, w) && (!ValidPolicy(p) || HasIPv6(pod))
  }

  ghost predicate NamespaceMatches(s: Selector, input: ResolutionInput, name: string) {
    exists i :: 0 <= i < |input.namespaces| && input.namespaces[i].name == name && s.matches(input.namespaces[i].labels)
  }

  ghost predicate PeerSelectsPod(p: NetworkPolicy, peer: Peer, input: ResolutionInput, pod: Pod) {
    && !pod.hostNetwork
    && (peer.podSelector.Some? ==> peer.podSelector.value.matches(pod.labels))
    && if peer.namespaceSelector.None? then PodNamespace(pod) == NamespaceOf(p)
       else NamespaceMatches(peer.namespaceSelector.value, input, PodNamespace(pod))
  }

  ghost predicate PeerAllows(p: NetworkPolicy, peer: Peer, input: ResolutionInput, a: U32) {
    if peer.ipBlock.Some? then Accepted(peer.ipBlock.value) && a in Target(peer.ipBlock.value)
    else exists pod :: pod in input.pods && PeerSelectsPod(p, peer, input, pod) && HasIPv4(pod, a)
  }

  function ProtocolOf(q: Port): U8 {
    if q.protocol == "UDP" then UDP else TCP
  }

  ghost predicate RuleAllows(p: NetworkPolicy, r: PeerRule, input: ResolutionInput, a: U32, protocol: U8, port: U16) {
    && (exists i :: 0 <= i < |r.peers| && PeerAllows(p, r.peers[i], input, a))
    && (exists i :: 0 <= i < |r.ports| && ProtocolOf(r.ports[i]) == protocol && r.ports[i].port == port)
  }

  /** An accepted policy allows the pod to exchange such packets with the peer address. */
  ghost predicate Allows(p: NetworkPolicy, pod: Pod, w: Way, input: ResolutionInput, a: U32, protocol: U8, port: U16) {
    && ValidPolicy(p) && Isolates(p, pod, w)
    && exists i :: 0 <= i < |RulesFor(p, w)| && RuleAllows(p, RulesFor(p, w)[i], input, a, protocol, port)
  }

  // ----- resolution input -----

  function PodKey(pod: Pod): string {
    PodNamespace(pod) + "/" + pod.name
  }

  /** normalizeResolutionInput accepts. */
  ghost predicate GoodInput(n: ResolutionInput) {
    && (forall a :: a in n.nodeIPs ==> !a.NoAddr?)
    && (exists a :: a in n.nodeIPs && a.Unmap().V4?)
    && (forall i :: 0 <= i < |n.namespaces| ==> !Blank(n.namespaces[i].name))
    && (forall i, j :: 0 <= i < j < |n.namespaces| && n.namespaces[i].name == n.namespaces[j].name ==>
          n.namespaces[i].labels == n.namespaces[j].labels)
    && (forall i :: 0 <= i < |n.pods| ==> GoodPod(n, n.pods[i]))
    && (forall i, j :: 0 <= i < j < |n.pods| ==> PodKey(n.pods[i]) != PodKey(n.pods[j]))
    && (forall i, j, c :: 0 <= i < j < |n.pods| && c in n.pods[i].cgroups ==> c !in n.pods[j].cgroups)
  }

  ghost predicate GoodPod(n: ResolutionInput, pod: Pod) {
    && !Blank(pod.name)
    && (exists i :: 0 <= i < |n.namespaces| && n.namespaces[i].name == PodNamespace(pod))
    && (forall a :: a in pod.podIPs ==> !a.NoAddr?)
    && (forall c :: c in pod.cgroups ==> c != 0)
  }
}
