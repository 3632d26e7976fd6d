/**
 What policies mean, evaluated directly on the snapshot as it was given: addresses
 as they are written, names, labels, text prefixes and protocol numbers. Nothing here
 is shared with the compiler: no normalization, no masks, no sets of prefixes, and none
 of the predicates it is specified with.
*/
module PolicyMeaning {
  import opened PolicySets
  import opened Options
  import opened IpBlock
  import N = NativePolicies
  import opened SlotVerdict

  // ----- addresses -----

  /** The IPv4 address, or the same mapped into IPv6. */
  predicate Writes(x: Addr, a: U32) {
    x == V4(a) || x == V4In6(a)
  }

  ghost predicate HasAddress(pod: N.Pod, a: U32) {
    exists x :: x in pod.podIPs && Writes(x, a)
  }

  ghost predicate NodeHas(raw: N.ResolutionInput, a: U32) {
    exists x :: x in raw.nodeIPs && Writes(x, a)
  }

  /** All but the last e bits. */
  function Leading(a: nat, e: nat): nat {
    if e == 0 then a else Leading(a / 2, e - 1)
  }

  /** The leading bits of the address are those of the text. */
  predicate InPrefix(t: CidrText, a: nat) {
    t.IPv4Text? && Leading(a, 32 - t.bits) == Leading(t.addr, 32 - t.bits)
  }

  predicate InBlock(b: NativeIPBlock, a: nat) {
    InPrefix(b.cidr, a) && forall i :: 0 <= i < |b.excepts| ==> !InPrefix(b.excepts[i], a)
  }

  /** IPv4 texts throughout, every except no shorter than the CIDR and starting in it. */
  predicate WellWritten(b: NativeIPBlock) {
    && b.cidr.IPv4Text?
    && forall i :: 0 <= i < |b.excepts| ==>
         && b.excepts[i].IPv4Text? && b.cidr.bits <= b.excepts[i].bits
         && InPrefix(b.cidr, b.excepts[i].addr)
  }

  /** These prefixes, and no others, hold the addresses of the block. */
  ghost predicate WritesOut(ts: seq<CidrText>, b: NativeIPBlock) {
    forall a: U32 :: InBlock(b, a) <==> exists i :: 0 <= i < |ts| && InPrefix(ts[i], a)
  }

  /** The block can be written with at most 1024 prefixes. */
  ghost predicate Writable(b: NativeIPBlock) {
    exists ts: seq<CidrText> :: |ts| <= 1024 && WritesOut(ts, b)
  }

  // ----- which policies are accepted -----

  ghost predicate GoodPeer(peer: N.Peer) {
    if peer.ipBlock.Some? then
      && peer.podSelector.None? && peer.namespaceSelector.None?
      && WellWritten(peer.ipBlock.value) && Writable(peer.ipBlock.value)
    else
      && !(peer.podSelector.None? && peer.namespaceSelector.None?)
      && (peer.podSelector.None? || peer.podSelector.value.wellFormed)
      && (peer.namespaceSelector.None? || peer.namespaceSelector.value.wellFormed)
  }

  predicate GoodPort(q: N.Port) {
    && q.protocol in {"TCP", "UDP"}
    && (forall c :: c in q.portName ==> c in " \t\n\r\U{000B}\U{000C}")
    && !q.hasEndPort && 0 < q.port < 0x1_0000
  }

  ghost predicate GoodRules(rules: seq<N.PeerRule>) {
    forall r :: r in rules ==>
      && |r.peers| > 0 && (forall peer :: peer in r.peers ==> GoodPeer(peer))
      && |r.ports| > 0 && (forall q :: q in r.ports ==> GoodPort(q))
  }

  /** Types, if listed, are a nonempty list without repetition of the two known ones, and cover
      the rules there are. */
  predicate GoodTypes(s: N.Spec) {
    s.policyTypes.None? || (
      var types := s.policyTypes.value;
      && types in [["Ingress"], ["Egress"], ["Ingress", "Egress"], ["Egress", "Ingress"]]
      && (s.ingress == [] || "Ingress" in types)
      && (s.egress == [] || "Egress" in types))
  }

  ghost predicate Accepts(p: N.NetworkPolicy) {
    && p.apiVersion == "networking.k8s.io/v1" && p.kind == "NetworkPolicy"
    && p.metadata.Some? && p.metadata.value.wellFormed
    && p.spec.Some? && p.spec.value.podSelector.Some? && p.spec.value.podSelector.value.wellFormed
    && GoodTypes(p.spec.value) && GoodRules(p.spec.value.ingress) && GoodRules(p.spec.value.egress)
  }

  // ----- which pods a policy is about -----

  function OrDefault(namespace: string): string {
    if namespace == "" then "default" else namespace
  }

  function Home(p: N.NetworkPolicy): string {
    match p.metadata
    case None => "default"
    case Some(m) => OrDefault(m.namespace)
  }

  /** A local pod of the policy's namespace outside the host network, which the selector matches
      if the policy has one that can be used. */
  predicate Chooses(p: N.NetworkPolicy, pod: N.Pod) {
    && pod.local && !pod.hostNetwork && OrDefault(pod.namespace) == Home(p)
    && (p.spec.Some? && p.spec.value.podSelector.Some? && p.spec.value.podSelector.value.wellFormed ==>
          p.spec.value.podSelector.value.matches(pod.labels))
  }

  function Rules(p: N.NetworkPolicy, egress: bool): seq<N.PeerRule> {
    match p.spec
    case None => []
    case Some(s) => if egress then s.egress else s.ingress
  }

  function Listed(p: N.NetworkPolicy): Option<seq<string>> {
    if p.spec.None? then None else p.spec.value.policyTypes
  }

  /** The policy speaks about a direction: it has rules for it or lists it. */
  predicate Speaks(p: N.NetworkPolicy, egress: bool) {
    || Rules(p, egress) != []
    || (Listed(p).Some? && (if egress then "Egress" else "Ingress") in Listed(p).value)
  }

  /** It isolates the directions it speaks about; ingress in any case, if it has a specification
      that lists no types; and both, if it speaks about neither otherwise. */
  predicate IsolatesDirection(p: N.NetworkPolicy, egress: bool) {
    if p.spec.Some? && Listed(p).None? then !egress || Speaks(p, egress)
    else Speaks(p, egress) || (!Speaks(p, true) && !Speaks(p, false))
  }

  // ----- which packets it allows -----

  /** Without a namespace selector, pods of the policy's own namespace; with one, pods of the
      namespaces it matches; never pods in the host network. */
  ghost predicate NamesPod(p: N.NetworkPolicy, peer: N.Peer, raw: N.ResolutionInput, pod: N.Pod) {
    && pod in raw.pods && !pod.hostNetwork
    && (match peer.podSelector
        case None => true
        case Some(s) => s.matches(pod.labels))
    && (match peer.namespaceSelector
        case None => OrDefault(pod.namespace) == Home(p)
        case Some(s) => exists ns ::
          ns in raw.namespaces && ns.name == OrDefault(pod.namespace) && s.matches(ns.labels))
  }

  ghost predicate PeerHas(p: N.NetworkPolicy, peer: N.Peer, raw: N.ResolutionInput, a: U32) {
    match peer.ipBlock
    case Some(b) => WellWritten(b) && InBlock(b, a)
    case None => exists pod :: NamesPod(p, peer, raw, pod) && HasAddress(pod, a)
  }

  /** TCP is protocol 6 and UDP is protocol 17. */
  predicate PortHas(q: N.Port, protocol: U8, port: U16) {
    q.port == port && ((q.protocol == "TCP" && protocol == 6) || (q.protocol == "UDP" && protocol == 17))
  }

  ghost predicate RuleHas(p: N.NetworkPolicy, r: N.PeerRule, raw: N.ResolutionInput, a: U32, protocol: U8, port: U16) {
    && (exists peer :: peer in r.peers && PeerHas(p, peer, raw, a))
    && (exists q :: q in r.ports && PortHas(q, protocol, port))
  }

  /** The policy is accepted, about this pod, and one of its rules has the other end of the packet
      and its destination port. */
  ghost predicate Permits(p: N.NetworkPolicy, raw: N.ResolutionInput, pod: N.Pod, egress: bool, packet: Packet) {
    && Accepts(p) && Chooses(p, pod) && IsolatesDirection(p, egress)
    && exists r :: r in Rules(p, egress) && RuleHas(p, r, raw, if egress then packet.destination else packet.source,
                                                    packet.protocol, packet.destinationPort)
  }

  // ----- the decision -----

  ghost predicate Chosen(ps: seq<N.NetworkPolicy>, pod: N.Pod) {
    exists p :: p in ps && Chooses(p, pod)
  }

  ghost predicate Isolated(ps: seq<N.NetworkPolicy>, pod: N.Pod, egress: bool) {
    exists p :: p in ps && Chooses(p, pod) && IsolatesDirection(p, egress)
  }

  /** Some policy isolates it that is not accepted; or it has an IPv6 address. */
  ghost predicate InQuarantine(ps: seq<N.NetworkPolicy>, pod: N.Pod, egress: bool) {
    exists p :: p in ps && Chooses(p, pod) && IsolatesDirection(p, egress)
                && (!Accepts(p) || exists x :: x in pod.podIPs && x.V6?)
  }

  ghost predicate Permitted(ps: seq<N.NetworkPolicy>, raw: N.ResolutionInput, pod: N.Pod, egress: bool,
                            packet: Packet) {
    exists p :: p in ps && Permits(p, raw, pod, egress, packet)
  }

  /** A pod no policy is about is not touched; then isolation; then, for packets that could be
      parsed, the node and the pod's own addresses; then quarantine; then what could not be parsed;
      then connection state; then the union of the accepted policies. */
  ghost function Decision(ps: seq<N.NetworkPolicy>, raw: N.ResolutionInput, pod: N.Pod, egress: bool,
                          packet: Packet, connected: bool): Verdict {
    if !Chosen(ps, pod) then Pass
    else if !Isolated(ps, pod, egress) then Decided(true, Unisolated)
    else if packet.status == PacketValid && NodeHas(raw, if egress then packet.destination else packet.source) then
      Decided(true, NodeBypass)
    else if packet.status == PacketValid && packet.source == packet.destination && HasAddress(pod, packet.source) then
      Decided(true, SelfBypass)
    else if InQuarantine(ps, pod, egress) then Decided(false, Quarantined)
    else if packet.status == PacketIPv6 then Decided(false, IPv6)
    else if packet.status == PacketFragment then Decided(false, Fragment)
    else if packet.status == PacketMalformed then Decided(false, Malformed)
    else if packet.status == PacketUnsupported then Decided(false, Unsupported)
    else if connected then Decided(true, Connected)
    else if Permitted(ps, raw, pod, egress, packet) then Decided(true, RuleAllowed)
    else Decided(false, DefaultDeny)
  }

  /** The cgroup of a pod that runs on this node outside the host network. */
  ghost predicate RunsHere(raw: N.ResolutionInput, c: Cgroup) {
    exists pod :: pod in raw.pods && c in pod.cgroups && pod.local && !pod.hostNetwork
  }

  // ----- snapshots -----

  ghost predicate GoodPod(raw: N.ResolutionInput, pod: N.Pod) {
    && (exists c :: c in pod.name && c !in " \t\n\r\U{000B}\U{000C}")
    && NoAddr !in pod.podIPs && 0 !in pod.cgroups
    && exists ns :: ns in raw.namespaces && ns.name == OrDefault(pod.namespace)
  }

  /** Every address was parsed and the node has an IPv4 one; namespaces have names and do not
      contradict each other; pods have names, known namespaces and cgroups of their own. */
  ghost predicate GoodSnapshot(raw: N.ResolutionInput) {
    && NoAddr !in raw.nodeIPs && (exists a: U32 :: NodeHas(raw, a))
    && (forall ns :: ns in raw.namespaces ==> exists c :: c in ns.name && c !in " \t\n\r\U{000B}\U{000C}")
    && (forall ns, ms :: ns in raw.namespaces && ms in raw.namespaces && ns.name == ms.name ==> ns == ms)
    && (forall pod :: pod in raw.pods ==> GoodPod(raw, pod))
    && (forall i, j :: 0 <= i < j < |raw.pods| ==>
          && OrDefault(raw.pods[i].namespace) + "/" + raw.pods[i].name
             != OrDefault(raw.pods[j].namespace) + "/" + raw.pods[j].name
          && forall c :: c in raw.pods[i].cgroups ==> c !in raw.pods[j].cgroups)
  }
}
