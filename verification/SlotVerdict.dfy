/**
 What the packet program decides from the maps of the slot it is registered on:
 the lookups and their order, and what each lookup means for the policy set that
 is installed in the slot.
*/
module SlotVerdict {
  import opened Cidr
  import opened PolicySets
  import opened Options
  import opened EngineKeys
  import opened LpmTrie

  /** Nanoseconds. */
  const SECOND: nat := 1_000_000_000

  datatype Status = PacketValid | PacketIPv6 | PacketMalformed | PacketFragment | PacketUnsupported

  /** The TCP flags the program looks at (section 3.1 of RFC 9293). */
  datatype Flags = Flags(fin: bool, syn: bool, rst: bool, ack: bool)

  datatype Packet = Packet(
    status: Status, source: U32, destination: U32, sourcePort: U16, destinationPort: U16, protocol: U8, flags: Flags) {
    function Peer(w: Way): U32 {
      if w == 0 then destination else source
    }
  }

  datatype Reason =
    | Unisolated | NodeBypass | SelfBypass | Connected | RuleAllowed | Quarantined | DefaultDeny
    | Malformed | Fragment | IPv6 | Unsupported | NoConfig

  /** Pass: no subject, the packet goes through uncounted. */
  datatype Verdict = Pass | Decided(allowed: bool, reason: Reason)

  type Maps = map<Key, Value>

  /** Every rule in the maps was written by the encoder of some slot: its prefix covers the
      packed word and the cgroup. */
  predicate RulesWellFormed(maps: Maps) {
    forall k :: k in maps && k.RuleKey? ==> 96 <= k.prefixLength <= 128
  }

  /** The slot holds exactly what the policy set installs. The other slot is arbitrary. */
  ghost predicate Holds(maps: Maps, slot: nat, p: PolicySet)
    requires slot < 2 && Valid(p)
  {
    forall k, v :: SlotOf(k) == slot ==> ((k in maps && maps[k] == v) <==> Installs(slot, p, (k, v)))
  }

  function SubjectLookup(maps: Maps, slot: U32, cgroup: Cgroup): Option<Value> {
    var k := SubjectKey(cgroup, slot);
    if k in maps then Some(maps[k]) else None
  }

  predicate IsNodeAddress(maps: Maps, slot: U32, address: U32) {
    NodeKey(slot, address) in maps
  }

  predicate IsSelfAddress(maps: Maps, slot: U32, cgroup: Cgroup, source: U32, destination: U32) {
    source == destination && SelfKey(cgroup, slot, source) in maps
  }

  /** rule_matches: the trie finds an entry for the packed key. */
  predicate RuleMatches(maps: Maps, slot: nat, cgroup: Cgroup, w: Way, packet: Packet)
    requires slot < 2
  {
    exists k :: k in maps && k.RuleKey? && k.prefixLength <= 128
                && Matches(k, Meta(slot, w, packet.protocol, packet.destinationPort), cgroup, packet.Peer(w))
  }

  /** enforce_packet after it has registered, with the answer of the connection table. */
  function SlotDecision(maps: Maps, slot: nat, cgroup: Cgroup, w: Way, packet: Packet, connected: bool): Verdict
    requires slot < 2
  {
    var subject := SubjectLookup(maps, slot, cgroup);
    if subject.None? || !subject.value.State? then Pass
    else if !Covers(subject.value.isolated, w) then Decided(true, Unisolated)
    else if packet.status.PacketValid? && IsNodeAddress(maps, slot, packet.Peer(w)) then Decided(true, NodeBypass)
    else if packet.status.PacketValid? && IsSelfAddress(maps, slot, cgroup, packet.source, packet.destination)
        then Decided(true, SelfBypass)
    else if Covers(subject.value.quarantined, w) then Decided(false, Quarantined)
    else match packet.status
      case PacketIPv6 => Decided(false, IPv6)
      case PacketFragment => Decided(false, Fragment)
      case PacketMalformed => Decided(false, Malformed)
      case PacketUnsupported => Decided(false, Unsupported)
      case PacketValid =>
        if connected then Decided(true, Connected)
        else if RuleMatches(maps, slot, cgroup, w, packet) then Decided(true, RuleAllowed)
        else Decided(false, DefaultDeny)
  }

  // ----- what the lookups mean -----

  /** The rule admits such packets of the cgroup. */
  ghost predicate RuleAdmits(r: Rule, cgroup: Cgroup, w: Way, packet: Packet) {
    && r.cgroup == cgroup && r.direction == (if w == 0 then EGRESS else INGRESS)
    && r.protocol == packet.protocol && r.port == packet.destinationPort
    && r.peer.IsIPv4()
    && Block(r.peer.Masked(), r.peer.bits).Has(if w == 0 then packet.destination else packet.source)
  }

  lemma RuleKeyMatches(r: Rule, slot: nat, cgroup: Cgroup, w: Way, packet: Packet)
    requires slot < 2 && ValidRule(r)
    ensures Matches(RuleKeyOf(slot, r), Meta(slot, w, packet.protocol, packet.destinationPort), cgroup,
            packet.Peer(w)) <==>
              RuleAdmits(r, cgroup, w, packet)
  {
    var k, e := RuleKeyOf(slot, r), 32 - r.peer.bits;
    var meta := Meta(slot, w, packet.protocol, packet.destinationPort);
    MatchMeans(k, r.peer.bits, meta, cgroup, packet.Peer(w));
    FloorIsAligned(r.peer.addr.value, e);
    SameLeadingBits(k.peer, packet.Peer(w), e);
    if k.meta == meta {
      MetaIsInjective(slot, DirectionBit(r.direction), r.protocol, r.port, slot, w, packet.protocol,
          packet.destinationPort);
    }
  }

  lemma EntryHasSlot(k: Key, slot: nat, w: Way, packet: Packet, cgroup: Cgroup)
    requires slot < 2 && k.RuleKey? && 96 <= k.prefixLength <= 128
    requires Matches(k, Meta(slot, w, packet.protocol, packet.destinationPort), cgroup, packet.Peer(w))
    ensures SlotOf(k) == slot
  {
    MatchMeans(k, k.prefixLength - 96, Meta(slot, w, packet.protocol, packet.destinationPort), cgroup, packet.Peer(w));
    MetaUnpacks(slot, w, packet.protocol, packet.destinationPort);
  }

  /** The trie lookup succeeds if and only if some rule of the slot's set admits the packet;
      the rules of the other slot, whatever they are, cannot make it succeed. */
  lemma LookupMeansRule(maps: Maps, slot: nat, p: PolicySet, cgroup: Cgroup, w: Way, packet: Packet)
    requires slot < 2 && Valid(p) && Holds(maps, slot, p) && RulesWellFormed(maps)
    ensures RuleMatches(maps, slot, cgroup, w, packet) <==>
              exists i :: 0 <= i < |p.rules| && RuleAdmits(p.rules[i], cgroup, w, packet)
  {
    var meta := Meta(slot, w, packet.protocol, packet.destinationPort);
    if RuleMatches(maps, slot, cgroup, w, packet) {
      var k :| k in maps && k.RuleKey? && k.prefixLength <= 128 && Matches(k, meta, cgroup, packet.Peer(w));
      EntryHasSlot(k, slot, w, packet, cgroup);
      assert Installs(slot, p, (k, maps[k]));
      var i :| 0 <= i < |p.rules| && k == RuleKeyOf(slot, p.rules[i]);
      RuleKeyMatches(p.rules[i], slot, cgroup, w, packet);
    }
    if i :| 0 <= i < |p.rules| && RuleAdmits(p.rules[i], cgroup, w, packet) {
      InstalledRule(maps, slot, p, i);
      RuleKeyMatches(p.rules[i], slot, cgroup, w, packet);
    }
  }

  lemma InstalledRule(maps: Maps, slot: nat, p: PolicySet, i: nat)
    requires slot < 2 && Valid(p) && Holds(maps, slot, p) && i < |p.rules|
    ensures RuleKeyOf(slot, p.rules[i]) in maps
  {
    var r := p.rules[i];
    var k := RuleKeyOf(slot, r);
    MetaUnpacks(slot, DirectionBit(r.direction), r.protocol, r.port);
    assert Installs(slot, p, (k, Present));
  }

  /** The hash-map lookups find what the set says. */
  lemma LookupsMeanSet(maps: Maps, slot: nat, p: PolicySet, cgroup: Cgroup, address: U32)
    requires slot < 2 && Valid(p) && Holds(maps, slot, p)
    ensures forall i :: 0 <= i < |p.subjects| && p.subjects[i].cgroup == cgroup ==>
              SubjectLookup(maps, slot, cgroup) == Some(State(p.subjects[i].isolated, p.subjects[i].quarantined))
    ensures !HasSubject(p, cgroup) ==> SubjectLookup(maps, slot, cgroup) == None
    ensures IsNodeAddress(maps, slot, address) <==> V4(address) in p.nodeIPs
    ensures SelfKey(cgroup, slot, address) in maps <==>
              exists i :: 0 <= i < |p.subjects| && p.subjects[i].cgroup == cgroup && V4(address) in p.subjects[i].podIPs
    ensures ClassKey(cgroup, slot) in maps <==> cgroup in p.classified
  {
    SubjectLookupMeans(maps, slot, p, cgroup);
    FlagLookupMeans(maps, slot, p, NodeKey(slot, address));
    FlagLookupMeans(maps, slot, p, SelfKey(cgroup, slot, address));
    FlagLookupMeans(maps, slot, p, ClassKey(cgroup, slot));
  }

  lemma SubjectLookupMeans(maps: Maps, slot: nat, p: PolicySet, cgroup: Cgroup)
    requires slot < 2 && Valid(p) && Holds(maps, slot, p)
    ensures forall i :: 0 <= i < |p.subjects| && p.subjects[i].cgroup == cgroup ==>
              SubjectLookup(maps, slot, cgroup) == Some(State(p.subjects[i].isolated, p.subjects[i].quarantined))
    ensures !HasSubject(p, cgroup) ==> SubjectLookup(maps, slot, cgroup) == None
  {
    var k := SubjectKey(cgroup, slot);
    forall i | 0 <= i < |p.subjects| && p.subjects[i].cgroup == cgroup
      ensures k in maps && maps[k] == State(p.subjects[i].isolated, p.subjects[i].quarantined)
    {
      assert Installs(slot, p, SubjectRow(slot, p.subjects[i]));
    }
    if k in maps {
      assert Installs(slot, p, (k, maps[k]));
    }
  }

  lemma FlagLookupMeans(maps: Maps, slot: nat, p: PolicySet, k: Key)
    requires slot < 2 && Valid(p) && Holds(maps, slot, p) && SlotOf(k) == slot && !k.SubjectKey?
    ensures k in maps <==> Installs(slot, p, (k, Present))
  {
    if k in maps {
      assert Installs(slot, p, (k, maps[k]));
    }
  }
}
