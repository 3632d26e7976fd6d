/**
 The kernel-neutral policy set that crosses from the compiler to the engine, and
 the check both sides make on it.
*/
module PolicySets {
  import opened Cidr

  type U8 = n: nat | n < 0x100
  type U16 = n: nat | n < 0x1_0000
  type U32 = n: nat | n < 0x1_0000_0000
  type U64 = n: nat | n < 0x1_0000_0000_0000_0000
  type Cgroup = U64

  /** netip.Addr: the zero address, an IPv4 address, an IPv6 address, or IPv4 mapped into IPv6. */
  datatype Addr = NoAddr | V4(value: U32) | V6(bits: nat) | V4In6(value: U32) {
    function Unmap(): Addr {
      if V4In6? then V4(value) else this
    }

    predicate Is6() {
      V6? || V4In6?
    }
  }

  /** netip.Prefix */
  datatype Prefix = Prefix(addr: Addr, bits: int) {
    predicate IsIPv4() {
      addr.V4? && 0 <= bits <= 32
    }

    /** The first address of the masked prefix. */
    function Masked(): U32
      requires IsIPv4()
    {
      FloorIsAligned(addr.value, 32 - bits);
      Floor(addr.value, 32 - bits)
    }
  }

  /** A bit mask of directions: bit 0, bit 1, and whether any other bit is set. */
  datatype Direction = Direction(egress: bool, ingress: bool, stray: bool) {
    function Or(that: Direction): Direction {
      Direction(egress || that.egress, ingress || that.ingress, stray || that.stray)
    }

    /** No bit of this mask is missing from that one. */
    predicate Subset(that: Direction) {
      (egress ==> that.egress) && (ingress ==> that.ingress) && (stray ==> that.stray)
    }
  }

  const NO_DIRECTION := Direction(false, false, false)
  const EGRESS := Direction(true, false, false)
  const INGRESS := Direction(false, true, false)
  const ALL_DIRECTIONS := Direction(true, true, false)

  /** 0 is egress and 1 is ingress, as in the packet program. */
  type Way = w: nat | w < 2

  function Bit(w: Way): Direction {
    if w == 0 then EGRESS else INGRESS
  }

  /** The mask has the bit of this direction. */
  predicate Covers(m: Direction, w: Way) {
    if w == 0 then m.egress else m.ingress
  }

  const TCP: U8 := 6
  const UDP: U8 := 17

  datatype Subject = Subject(cgroup: Cgroup, isolated: Direction, quarantined: Direction, podIPs: seq<Addr>)
  datatype Rule = Rule(cgroup: Cgroup, direction: Direction, peer: Prefix, protocol: U8, port: U16)
  datatype PolicySet = PolicySet(nodeIPs: seq<Addr>, subjects: seq<Subject>, rules: seq<Rule>, classified: seq<Cgroup>)

  const MAX_SUBJECTS := 16_384
  const MAX_RULES := 16_384

  function PodIPCount(subjects: seq<Subject>): nat {
    if subjects == [] then 0 else |subjects[0].podIPs| + PodIPCount(subjects[1..])
  }

  /** Rules and bypasses share one budget. */
  function RuleEntryCount(p: PolicySet): nat {
    |p.rules| + |p.nodeIPs| + PodIPCount(p.subjects)
  }

  predicate ValidSubject(s: Subject) {
    && s.cgroup != 0
    && s.isolated != NO_DIRECTION && s.isolated.Subset(ALL_DIRECTIONS)
    && s.quarantined.Subset(s.isolated)
    && forall a :: a in s.podIPs ==> a.V4?
  }

  predicate ValidRule(r: Rule) {
    && (r.direction == EGRESS || r.direction == INGRESS)
    && r.peer.IsIPv4()
    && (r.protocol == TCP || r.protocol == UDP)
    && r.port != 0
  }

  /** ValidatePolicySet accepts. */
  predicate Valid(p: PolicySet) {
    && |p.classified| <= MAX_SUBJECTS
    && (forall i :: 0 <= i < |p.classified| ==> p.classified[i] != 0)
    && (forall i, j :: 0 <= i < j < |p.classified| ==> p.classified[i] != p.classified[j])
    && p.nodeIPs != []
    && (forall a :: a in p.nodeIPs ==> a.V4?)
    && (forall i :: 0 <= i < |p.subjects| ==> ValidSubject(p.subjects[i]))
    && (forall i, j :: 0 <= i < j < |p.subjects| ==> p.subjects[i].cgroup != p.subjects[j].cgroup)
    && (forall i :: 0 <= i < |p.rules| ==> ValidRule(p.rules[i]))
    && (forall i :: 0 <= i < |p.rules| ==> HasSubject(p, p.rules[i].cgroup))
    && |p.subjects| <= MAX_SUBJECTS
    && RuleEntryCount(p) <= MAX_RULES
  }

  predicate HasSubject(p: PolicySet, c: Cgroup) {
    exists i :: 0 <= i < |p.subjects| && p.subjects[i].cgroup == c
  }

  // ----- what the check accepts -----

  /** The own addresses of all subjects, one after the other. */
  function OwnAddresses(subjects: seq<Subject>): seq<Addr> {
    if subjects == [] then [] else subjects[0].podIPs + OwnAddresses(subjects[1..])
  }

  lemma {:induction false} CountIsLength(subjects: seq<Subject>)
    ensures PodIPCount(subjects) == |OwnAddresses(subjects)|
  {
    if subjects != [] {
      CountIsLength(subjects[1..]);
    }
  }

  /** A subject is isolated in some direction, quarantined at most where it is isolated, and has
      IPv4 addresses only. */
  predicate GoodSubject(s: Subject) {
    && s.cgroup > 0 && (s.isolated.egress || s.isolated.ingress) && !s.isolated.stray && !s.quarantined.stray
    && (s.quarantined.egress ==> s.isolated.egress) && (s.quarantined.ingress ==> s.isolated.ingress)
    && forall a :: a in s.podIPs ==> a.V4?
  }

  /** A rule has one direction, an IPv4 prefix, TCP or UDP, and a port. */
  predicate GoodRule(r: Rule) {
    && r.direction.egress != r.direction.ingress && !r.direction.stray
    && r.peer.addr.V4? && 0 <= r.peer.bits <= 32 && r.protocol in {6, 17} && r.port > 0
  }

  /** The check in plain words: at most 16384 subjects, as many classifications, and as many rules,
      node addresses and own addresses together; no cgroup twice, none zero; rules only for
      subjects; and a node address. */
  lemma ValidMeans(p: PolicySet)
    ensures Valid(p) <==>
              && |p.subjects| <= 16_384 && |p.classified| <= 16_384
              && |p.rules| + |p.nodeIPs| + |OwnAddresses(p.subjects)| <= 16_384
              && |p.nodeIPs| > 0 && (forall a :: a in p.nodeIPs ==> a.V4?)
              && 0 !in p.classified
              && (forall i, j :: 0 <= i < j < |p.classified| ==> p.classified[i] != p.classified[j])
              && (forall s :: s in p.subjects ==> GoodSubject(s))
              && (forall i, j :: 0 <= i < j < |p.subjects| ==> p.subjects[i].cgroup != p.subjects[j].cgroup)
              && (forall r :: r in p.rules ==> GoodRule(r) && exists s :: s in p.subjects && s.cgroup == r.cgroup)
  {
    CountIsLength(p.subjects);
    assert forall s :: ValidSubject(s) <==> GoodSubject(s);
    assert forall r :: ValidRule(r) <==> GoodRule(r);
    forall c: Cgroup
      ensures HasSubject(p, c) <==> exists s :: s in p.subjects && s.cgroup == c
    {
      if s :| s in p.subjects && s.cgroup == c {
        var i :| 0 <= i < |p.subjects| && p.subjects[i] == s;
      }
    }
    assert forall i :: 0 <= i < |p.subjects| ==> p.subjects[i] in p.subjects;
    assert forall i :: 0 <= i < |p.rules| ==> p.rules[i] in p.rules;
    assert forall i :: 0 <= i < |p.classified| ==> p.classified[i] in p.classified;
  }
}
