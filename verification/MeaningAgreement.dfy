/**
 The predicates the compiler is specified with agree with the direct evaluation of the
 policies on the snapshot.
*/
module MeaningAgreement {
  import opened Cidr
  import opened PolicySets
  import opened RangeSplit
  import opened IpBlock
  import opened SlotVerdict
  import opened PolicyMeaning

  // ----- snapshots -----

  lemma BlankAgrees(s: string)
    ensures !N.Blank(s) <==> exists c :: c in s && c !in " \t\n\r\U{000B}\U{000C}"
  {
    assert forall c: char :: N.IsSpace(c) <==> c in " \t\n\r\U{000B}\U{000C}";
  }

  lemma PodsAgree(raw: N.ResolutionInput, pod: N.Pod)
    ensures N.GoodPod(raw, pod) <==> GoodPod(raw, pod)
  {
    BlankAgrees(pod.name);
    if ns :| ns in raw.namespaces && ns.name == OrDefault(pod.namespace) {
      var i :| 0 <= i < |raw.namespaces| && raw.namespaces[i] == ns;
    }
  }

  lemma NodesAgree(raw: N.ResolutionInput)
    ensures (exists x :: x in raw.nodeIPs && x.Unmap().V4?) <==> exists a: U32 :: NodeHas(raw, a)
  {
    if x :| x in raw.nodeIPs && x.Unmap().V4? {
      assert Writes(x, x.value);
      assert NodeHas(raw, x.value);
    }
  }

  lemma NamespacesAgree(raw: N.ResolutionInput)
    ensures (forall i :: 0 <= i < |raw.namespaces| ==> !N.Blank(raw.namespaces[i].name)) <==>
              forall ns :: ns in raw.namespaces ==> exists c :: c in ns.name && c !in " \t\n\r\U{000B}\U{000C}"
    ensures (forall i, j :: 0 <= i < j < |raw.namespaces| && raw.namespaces[i].name == raw.namespaces[j].name ==>
              raw.namespaces[i].labels == raw.namespaces[j].labels) <==>
              forall ns, ms :: ns in raw.namespaces && ms in raw.namespaces && ns.name == ms.name ==> ns == ms
  {
    forall s: string
      ensures !N.Blank(s) <==> exists c :: c in s && c !in " \t\n\r\U{000B}\U{000C}"
    {
      BlankAgrees(s);
    }
    forall ns, ms | ns in raw.namespaces && ms in raw.namespaces && ns.name == ms.name && ns != ms
      ensures exists i, j :: 0 <= i < j < |raw.namespaces| && raw.namespaces[i].name == raw.namespaces[j].name
                && raw.namespaces[i].labels != raw.namespaces[j].labels
    {
      var i :| 0 <= i < |raw.namespaces| && raw.namespaces[i] == ns;
      var j :| 0 <= j < |raw.namespaces| && raw.namespaces[j] == ms;
      var k, l := if i < j then i else j, if i < j then j else i;
      assert raw.namespaces[k].name == raw.namespaces[l].name && raw.namespaces[k].labels != raw.namespaces[l].labels;
    }
  }

  lemma SnapshotsAgree(raw: N.ResolutionInput)
    ensures N.GoodInput(raw) <==> GoodSnapshot(raw)
  {
    hide N.GoodPod, GoodPod, N.Blank, NodeHas;
    NodesAgree(raw);
    NamespacesAgree(raw);
    forall pod
      ensures N.GoodPod(raw, pod) <==> GoodPod(raw, pod)
    {
      PodsAgree(raw, pod);
    }
  }

  lemma AddressesAgree(pod: N.Pod, a: U32)
    ensures N.HasIPv4(pod, a) <==> HasAddress(pod, a)
    ensures N.HasIPv6(pod) <==> exists x :: x in pod.podIPs && x.V6?
  {
    assert forall x: Addr :: x.Unmap() == V4(a) <==> Writes(x, a);
    assert forall x: Addr :: x.Unmap().Is6() <==> x.V6?;
  }

  lemma {:induction false} SameLeading(a: nat, b: nat, e: nat)
    ensures Leading(a, e) == Leading(b, e) <==> Floor(a, e) == Floor(b, e)
  {
    if e > 0 {
      SameLeading(a / 2, b / 2, e - 1);
    }
  }

  lemma PrefixesAgree(t: CidrText, a: nat)
    requires t.IPv4Text?
    ensures InPrefix(t, a) <==> Masked(t).Has(a)
  {
    hide Floor, Aligned, Pow2, Leading;
    var e := 32 - t.bits;
    SameLeading(a, t.addr, e);
    FloorIsAligned(a, e);
    FloorIsAligned(t.addr, e);
    if Floor(a, e) < Floor(t.addr, e) {
      AlignedGap(Floor(a, e), Floor(t.addr, e), e);
    } else if Floor(t.addr, e) < Floor(a, e) {
      AlignedGap(Floor(t.addr, e), Floor(a, e), e);
    }
  }

  lemma ExceptsAgree(c: CidrText, t: CidrText)
    requires c.IPv4Text?
    ensures Acceptable(Masked(c), t) <==> t.IPv4Text? && c.bits <= t.bits && InPrefix(c, t.addr)
  {
    if t.IPv4Text? && c.bits <= t.bits {
      MaskedIsValid(c);
      MaskedIsValid(t);
      PrefixesAgree(c, t.addr);
      if Masked(c).Has(t.addr) {
        Nested(Masked(c), Masked(t), t.addr);
      }
      if Masked(c).Has(Masked(t).start) {
        Nested(Masked(c), Masked(t), Masked(t).start);
      }
    }
  }

  lemma BlocksAgree(b: NativeIPBlock)
    ensures Accepted(b) <==> WellWritten(b)
    ensures Accepted(b) ==> forall a: nat :: a in Target(b) <==> InBlock(b, a)
  {
    if b.cidr.IPv4Text? {
      forall i | 0 <= i < |b.excepts|
        ensures Acceptable(Masked(b.cidr), b.excepts[i]) <==>
                  b.excepts[i].IPv4Text? && b.cidr.bits <= b.excepts[i].bits && InPrefix(b.cidr, b.excepts[i].addr)
      {
        ExceptsAgree(b.cidr, b.excepts[i]);
      }
      if Accepted(b) {
        forall a: nat
          ensures a in Target(b) <==> InBlock(b, a)
        {
          TargetAgrees(b, a);
        }
      }
    }
  }

  lemma TargetAgrees(b: NativeIPBlock, a: nat)
    requires Accepted(b)
    ensures a in Target(b) <==> InBlock(b, a)
  {
    PrefixesAgree(b.cidr, a);
    forall i | 0 <= i < |b.excepts|
      ensures AcceptedBlocks(b.excepts)[i].Has(a) <==> InPrefix(b.excepts[i], a)
    {
      PrefixesAgree(b.excepts[i], a);
    }
  }

  // ----- as many prefixes as it takes -----

  lemma {:induction false} TextsOf(bs: set<Block>) returns (ts: seq<CidrText>)
    requires forall b :: b in bs ==> b.Valid()
    ensures |ts| == |bs| && forall i :: 0 <= i < |ts| ==> ts[i].IPv4Text? && Masked(ts[i]) in bs
    ensures forall b :: b in bs ==> exists i :: 0 <= i < |ts| && ts[i].IPv4Text? && Masked(ts[i]) == b
  {
    if bs == {} {
      ts := [];
    } else {
      var b :| b in bs;
      var rest := TextsOf(bs - {b});
      FloorOfAligned(b.start, 32 - b.bits);
      ts := [IPv4Text(b.start, b.bits)] + rest;
      forall c | c in bs
        ensures exists i :: 0 <= i < |ts| && ts[i].IPv4Text? && Masked(ts[i]) == c
      {
        if c == b {
          assert Masked(ts[0]) == b;
        } else {
          assert c in bs - {b};
          var i :| 0 <= i < |rest| && rest[i].IPv4Text? && Masked(rest[i]) == c;
          assert ts[i + 1] == rest[i];
        }
      }
    }
  }

  /** The blocks of a list of texts. */
  ghost function BlocksOf(ts: seq<CidrText>): set<Block> {
    if ts == [] then {}
    else BlocksOf(ts[1..]) + if ts[0].IPv4Text? then {Masked(ts[0])} else {}
  }

  lemma {:induction false} BlocksOfMean(ts: seq<CidrText>)
    ensures |BlocksOf(ts)| <= |ts|
    ensures forall i :: 0 <= i < |ts| && ts[i].IPv4Text? ==> Masked(ts[i]) in BlocksOf(ts)
    ensures forall b :: b in BlocksOf(ts) ==> exists i :: 0 <= i < |ts| && ts[i].IPv4Text? && Masked(ts[i]) == b
  {
    if ts != [] {
      hide Masked;
      BlocksOfMean(ts[1..]);
      forall b | b in BlocksOf(ts)
        ensures exists i :: 0 <= i < |ts| && ts[i].IPv4Text? && Masked(ts[i]) == b
      {
        if b in BlocksOf(ts[1..]) {
          var i :| 0 <= i < |ts| - 1 && ts[1..][i].IPv4Text? && Masked(ts[1..][i]) == b;
          assert ts[i + 1] == ts[1..][i];
        } else {
          assert Masked(ts[0]) == b;
        }
      }
      forall i | 0 < i < |ts| && ts[i].IPv4Text?
        ensures Masked(ts[i]) in BlocksOf(ts)
      {
        assert ts[i] == ts[1..][i - 1];
      }
    }
  }

  lemma WritableInMaximals(b: NativeIPBlock)
    requires Accepted(b) && |MaximalSet(Target(b))| <= 1024
    ensures Writable(b)
  {
    var region := Target(b);
    forall m
      ensures m in MaximalSet(region) <==> Maximal(m, region)
    {
      InMaximalSet(m, region);
    }
    var ts := TextsOf(MaximalSet(region));
    forall a: U32
      ensures InBlock(b, a) <==> exists i :: 0 <= i < |ts| && InPrefix(ts[i], a)
    {
      TargetAgrees(b, a);
      MaximalsCover(region, a);
      forall i | 0 <= i < |ts|
        ensures InPrefix(ts[i], a) <==> Masked(ts[i]).Has(a)
      {
        PrefixesAgree(ts[i], a);
      }
    }
    assert WritesOut(ts, b);
  }

  lemma MaximalsAreFew(b: NativeIPBlock, ts: seq<CidrText>)
    requires Accepted(b) && WritesOut(ts, b)
    ensures |MaximalSet(Target(b))| <= |ts|
  {
    var region, cover := Target(b), BlocksOf(ts);
    BlocksOfMean(ts);
    forall c | c in cover
      ensures Fits(c, region)
    {
      var i :| 0 <= i < |ts| && ts[i].IPv4Text? && Masked(ts[i]) == c;
      MaskedIsValid(ts[i]);
      forall a | c.Has(a)
        ensures a in region
      {
        PrefixesAgree(ts[i], a);
        TargetAgrees(b, a);
        assert InBlock(b, a as U32);
      }
    }
    forall m | m in MaximalSet(region)
      ensures Maximal(m, region) && exists c :: c in cover && c.Has(m.start)
    {
      InMaximalSet(m, region);
      assert m.Has(m.start);
      TargetAgrees(b, m.start);
      var i :| 0 <= i < |ts| && InPrefix(ts[i], m.start);
      PrefixesAgree(ts[i], m.start);
    }
    MaximalsAreFewest(region, cover, MaximalSet(region));
  }

  /** A block is accepted exactly when it is well written and can be written with 1024 prefixes. */
  lemma ExpandableMeansWritable(b: NativeIPBlock)
    ensures N.Expandable(b) <==> WellWritten(b) && Writable(b)
  {
    BlocksAgree(b);
    if Accepted(b) {
      if |MaximalSet(Target(b))| <= 1024 {
        WritableInMaximals(b);
      }
      if ts: seq<CidrText> :| |ts| <= 1024 && WritesOut(ts, b) {
        MaximalsAreFew(b, ts);
      }
    }
  }

  // ----- policies -----

  lemma PortsAgree(q: N.Port)
    ensures N.ValidPort(q) <==> GoodPort(q)
  {
    assert forall c: char :: N.IsSpace(c) <==> c in " \t\n\r\U{000B}\U{000C}";
  }

  lemma PeersAgree(peer: N.Peer)
    ensures N.ValidPeer(peer) <==> GoodPeer(peer)
  {
    if peer.ipBlock.Some? {
      ExpandableMeansWritable(peer.ipBlock.value);
    }
  }

  lemma RulesAgree(rules: seq<N.PeerRule>)
    ensures (forall i :: 0 <= i < |rules| ==> N.ValidPeerRule(rules[i])) <==> GoodRules(rules)
  {
    hide N.ValidPeer, GoodPeer, N.ValidPort, GoodPort;
    forall peer
      ensures N.ValidPeer(peer) <==> GoodPeer(peer)
    {
      PeersAgree(peer);
    }
    forall q
      ensures N.ValidPort(q) <==> GoodPort(q)
    {
      PortsAgree(q);
    }
    assert forall i :: 0 <= i < |rules| ==> rules[i] in rules;
  }

  lemma TypesAgree(s: N.Spec)
    ensures N.ValidTypes(s) <==> GoodTypes(s)
  {
    if s.policyTypes.Some? {
      var types := s.policyTypes.value;
      if N.ValidTypes(s) {
        assert |types| <= 2 by {
          if |types| > 2 {
            assert types[0] != types[1] && types[1] != types[2] && types[0] != types[2];
          }
        }
        assert types == if |types| == 1 then [types[0]] else [types[0], types[1]];
      }
    }
  }

  /** Exactly the same policies are accepted. */
  lemma AcceptanceAgrees(p: N.NetworkPolicy)
    ensures N.ValidPolicy(p) <==> Accepts(p)
  {
    hide N.ValidPeerRule, GoodRules;
    if p.spec.Some? {
      TypesAgree(p.spec.value);
      RulesAgree(p.spec.value.ingress);
      RulesAgree(p.spec.value.egress);
    }
  }

  lemma SelectionAgrees(p: N.NetworkPolicy, pod: N.Pod, w: Way)
    ensures N.Selects(p, pod) <==> Chooses(p, pod)
    ensures N.Isolates(p, pod, w) <==> Chooses(p, pod) && IsolatesDirection(p, w == 0)
    ensures N.RulesFor(p, w) == Rules(p, w == 0)
  {
  }

  lemma QuarantineAgrees(p: N.NetworkPolicy, pod: N.Pod, w: Way)
    ensures N.Quarantines(p, pod, w) <==>
              && Chooses(p, pod) && IsolatesDirection(p, w == 0)
              && (!Accepts(p) || exists x :: x in pod.podIPs && x.V6?)
  {
    hide N.ValidPolicy, Accepts, N.Isolates, Chooses, IsolatesDirection;
    AcceptanceAgrees(p);
    SelectionAgrees(p, pod, w);
    AddressesAgree(pod, 0);
  }

  /** The pods a peer names. */
  lemma NamedPodsAgree(p: N.NetworkPolicy, peer: N.Peer, raw: N.ResolutionInput, pod: N.Pod)
    ensures pod in raw.pods && N.PeerSelectsPod(p, peer, raw, pod) <==> NamesPod(p, peer, raw, pod)
  {
    if peer.namespaceSelector.Some? {
      var s := peer.namespaceSelector.value;
      if ns :| ns in raw.namespaces && ns.name == OrDefault(pod.namespace) && s.matches(ns.labels) {
        var i :| 0 <= i < |raw.namespaces| && raw.namespaces[i] == ns;
      }
    }
  }

  /** The addresses a peer allows: those of its block, or of the pods it names. */
  lemma PeerAddressesAgree(p: N.NetworkPolicy, peer: N.Peer, raw: N.ResolutionInput, a: U32)
    ensures N.PeerAllows(p, peer, raw, a) <==> PeerHas(p, peer, raw, a)
  {
    if peer.ipBlock.Some? {
      BlocksAgree(peer.ipBlock.value);
    } else {
      hide N.PeerSelectsPod, NamesPod, N.HasIPv4, HasAddress;
      forall pod
        ensures pod in raw.pods && N.PeerSelectsPod(p, peer, raw, pod) && N.HasIPv4(pod, a) <==>
                NamesPod(p, peer, raw, pod) && HasAddress(pod, a)
      {
        NamedPodsAgree(p, peer, raw, pod);
        AddressesAgree(pod, a);
      }
    }
  }

  /** What a rule with good ports allows. */
  lemma AllowedAgrees(p: N.NetworkPolicy, r: N.PeerRule, raw: N.ResolutionInput, a: U32, protocol: U8, port: U16)
    requires forall q :: q in r.ports ==> GoodPort(q)
    ensures N.RuleAllows(p, r, raw, a, protocol, port) <==> RuleHas(p, r, raw, a, protocol, port)
  {
    hide N.PeerAllows, PeerHas;
    forall peer
      ensures N.PeerAllows(p, peer, raw, a) <==> PeerHas(p, peer, raw, a)
    {
      PeerAddressesAgree(p, peer, raw, a);
    }
    forall q | q in r.ports
      ensures N.ProtocolOf(q) == protocol && q.port == port <==> PortHas(q, protocol, port)
    {
      assert GoodPort(q);
    }
  }

  /** The packets a policy allows by a rule. */
  lemma PermissionAgrees(p: N.NetworkPolicy, raw: N.ResolutionInput, pod: N.Pod, w: Way, packet: Packet)
    ensures N.Allows(p, pod, w, raw, packet.Peer(w), packet.protocol, packet.destinationPort) <==>
              Permits(p, raw, pod, w == 0, packet)
  {
    hide N.RuleAllows, RuleHas, N.Isolates, Chooses, IsolatesDirection, N.ValidPolicy;
    SelectionAgrees(p, pod, w);
    AcceptanceAgrees(p);
    if Accepts(p) {
      var rules := Rules(p, w == 0);
      forall r | r in rules
        ensures N.RuleAllows(p, r, raw, packet.Peer(w), packet.protocol, packet.destinationPort) <==>
                RuleHas(p, r, raw, if w == 0 then packet.destination else packet.source, packet.protocol,
                        packet.destinationPort)
      {
        AllowedAgrees(p, r, raw, packet.Peer(w), packet.protocol, packet.destinationPort);
      }
      assert forall i :: 0 <= i < |rules| ==> rules[i] in rules;
    }
  }
}
