/**
 The policy set a list of policies compiles to: it is determined by the policies
 and the input as sets, it passes the boundary check, and its size is the
 running count.
*/
module CompiledSets {
  import opened Cidr
  import opened Ordering
  import opened PolicySets
  import opened IpBlock
  import opened NativePolicies
  import opened Resolution
  import opened CompilerSpec

  function SubjectRank(s: Subject): int {
    s.cgroup
  }

  function DirectionRank(d: Direction): nat {
    (if d.egress then 1 else 0) + (if d.ingress then 2 else 0) + (if d.stray then 4 else 0)
  }

  /** compareRules, as one number. */
  function RuleRank(r: Rule): int {
    if r.peer.IsIPv4() then
      ((((r.cgroup * 8 + DirectionRank(r.direction)) * 0x1_0000_0000 + r.peer.addr.value) * 64 +
          r.peer.bits) * 0x100 + r.protocol) * 0x1_0000 + r.port
    else -1
  }

  ghost function SubjectFor(ps: seq<NetworkPolicy>, pod: Pod, c: Cgroup): Subject {
    Subject(c, IsolatedMask(ps, pod), QuarantinedMask(ps, pod), IPv4sOf(pod))
  }

  ghost predicate IsSubject(ps: seq<NetworkPolicy>, n: ResolutionInput, s: Subject) {
    exists pod :: Owns(n, pod, s.cgroup) && AnySelects(ps, pod) && s == SubjectFor(ps, pod, s.cgroup)
  }

  /** The values fit the kernel's fields. */
  predicate InRange(a: Allow) {
    && a.cgroup < 0x1_0000_0000_0000_0000
    && (a.direction == EGRESS || a.direction == INGRESS)
    && a.bits <= 32 && Block(a.addr, a.bits).Valid()
    && (a.protocol == TCP || a.protocol == UDP)
    && 1 <= a.port <= 65535
  }

  lemma InRangeFits(a: Allow)
    requires InRange(a)
    ensures a.addr < 0x1_0000_0000
  {
  }

  function RuleOf(a: Allow): (r: Rule)
    requires InRange(a)
    ensures ValidRule(r)
  {
    InRangeFits(a);
    Rule(a.cgroup, a.direction, Prefix(V4(a.addr), a.bits), a.protocol, a.port)
  }

  ghost predicate IsRule(ps: seq<NetworkPolicy>, n: ResolutionInput, r: Rule) {
    exists a :: a in RuleSet(ps, n) && InRange(a) && r == RuleOf(a)
  }

  /** compareRules returns zero only for equal rules. */
  lemma RuleRankSeparates(r: Rule, s: Rule)
    requires ValidRule(r) && ValidRule(s)
    ensures RuleRank(r) == RuleRank(s) ==> r == s
  {
    if RuleRank(r) != RuleRank(s) {
      return;
    }
    var a, b := r.cgroup * 8 + DirectionRank(r.direction), s.cgroup * 8 + DirectionRank(s.direction);
    var c, d := a * 0x1_0000_0000 + r.peer.addr.value, b * 0x1_0000_0000 + s.peer.addr.value;
    var e, f := c * 64 + r.peer.bits, d * 64 + s.peer.bits;
    assert e * 0x100 + r.protocol == f * 0x100 + s.protocol;
    assert e == f && c == d && a == b;
  }

  /** The one policy set that the policies stand for. */
  ghost predicate IsCompiled(ps: seq<NetworkPolicy>, n: ResolutionInput, p: PolicySet) {
    && p.nodeIPs == n.nodeIPs
    && p.classified == []
    && StrictlySorted(p.subjects, SubjectRank) && (forall s :: s in p.subjects <==> IsSubject(ps, n, s))
    && StrictlySorted(p.rules, RuleRank) && (forall r :: r in p.rules <==> IsRule(ps, n, r))
  }

  /** Where a rule of the rule set comes from. */
  lemma RuleSource(ps: seq<NetworkPolicy>, n: ResolutionInput, a: Allow)
    returns (i: nat, pod: Pod, w: Way, k: nat, b: Block, q: Port)
    requires a in RuleSet(ps, n)
    ensures i < |ps| && pod in n.pods && ValidPolicy(ps[i]) && Isolates(ps[i], pod, w)
    ensures k < |RulesFor(ps[i], w)|
    ensures a.cgroup in pod.cgroups && b in PeersBlocks(ps[i], RulesFor(ps[i], w)[k].peers, n)
            && q in RulesFor(ps[i], w)[k].ports
    ensures a == AllowOf(a.cgroup, Bit(w), b, q)
  {
    hide ValidPolicy, PeersBlocks, RulesFor, Isolates;
    var i0, pod0, w0: Way :| 0 <= i0 < |ps| && pod0 in n.pods && a in RulesOf(ps[i0], n, pod0, w0);
    i, pod, w := i0, pod0, w0;
    var k0 :| 0 <= k0 < |RulesFor(ps[i], w)| && a in RuleGrid(ps[i], n, pod, w, RulesFor(ps[i], w)[k0]);
    k := k0;
    var c0, b0, q0 :| c0 in pod.cgroups && b0 in PeersBlocks(ps[i], RulesFor(ps[i], w)[k].peers, n)
                      && q0 in RulesFor(ps[i], w)[k].ports && AllowOf(c0, Bit(w), b0, q0) == a;
    b, q := b0, q0;
  }

  lemma PeerBlockIsValid(p: NetworkPolicy, peer: Peer, n: ResolutionInput, b: Block)
    requires b in PeerBlocks(p, peer, n)
    ensures b.Valid()
  {
    if peer.ipBlock.Some? {
      InMaximalSet(b, Target(peer.ipBlock.value));
    } else {
      HostBlockIsValid(b);
    }
  }

  lemma HostBlockIsValid(b: Block)
    requires b.bits == 32 && b.start < ADDRESSES
    ensures b.Valid()
  {
  }

  lemma ValidPorts(p: NetworkPolicy, w: Way, k: nat, q: Port)
    requires ValidPolicy(p) && k < |RulesFor(p, w)| && q in RulesFor(p, w)[k].ports
    ensures 1 <= q.port <= 65535
  {
    var r := RulesFor(p, w)[k];
    assert ValidPeerRule(r);
    var j :| 0 <= j < |r.ports| && r.ports[j] == q;
    assert ValidPort(r.ports[j]);
  }

  /** Every rule is in range, and its cgroup is a subject isolated in its direction. */
  lemma RulesAreInRange(ps: seq<NetworkPolicy>, n: ResolutionInput, a: Allow)
    requires a in RuleSet(ps, n)
    ensures InRange(a)
    ensures exists pod :: Owns(n, pod, a.cgroup) && AnySelects(ps, pod)
  {
    var i, pod, w, k, b, q := RuleSource(ps, n, a);
    var peers := RulesFor(ps[i], w)[k].peers;
    var j :| 0 <= j < |peers| && b in PeerBlocks(ps[i], peers[j], n);
    PeerBlockIsValid(ps[i], peers[j], n, b);
    ValidPorts(ps[i], w, k, q);
    assert Owns(n, pod, a.cgroup) && Selects(ps[i], pod);
  }

  /** Two sets compiled from the same policies, in any order and any multiplicity, and from the
      same pods in any order, are equal. */
  lemma CompiledIsUnique(ps: seq<NetworkPolicy>, qs: seq<NetworkPolicy>, n: ResolutionInput, m: ResolutionInput,
                         p: PolicySet, q: PolicySet)
    requires IsCompiled(ps, n, p) && IsCompiled(qs, m, q) && SameElements(ps, qs) && SameInput(n, m)
    ensures p == q
  {
    SubjectsAgree(ps, qs, n, m);
    SubjectsAgree(qs, ps, m, n);
    assert SameElements(p.subjects, q.subjects);
    SortedListingIsUnique(p.subjects, q.subjects, SubjectRank);
    RuleSetsAgree(ps, qs, n, m);
    forall r
      ensures IsRule(ps, n, r) <==> IsRule(qs, m, r)
    {
    }
    assert SameElements(p.rules, q.rules);
    SortedListingIsUnique(p.rules, q.rules, RuleRank);
  }

  ghost predicate SameInput(n: ResolutionInput, m: ResolutionInput) {
    n.nodeIPs == m.nodeIPs && n.namespaces == m.namespaces && SameElements(n.pods, m.pods)
  }

  lemma AnyAgree(ps: seq<NetworkPolicy>, qs: seq<NetworkPolicy>, pod: Pod, w: Way)
    requires forall p :: p in ps ==> p in qs
    ensures AnySelects(ps, pod) ==> AnySelects(qs, pod)
    ensures AnyIsolates(ps, pod, w) ==> AnyIsolates(qs, pod, w)
    ensures AnyQuarantines(ps, pod, w) ==> AnyQuarantines(qs, pod, w)
  {
    forall i | 0 <= i < |ps|
      ensures exists j :: 0 <= j < |qs| && qs[j] == ps[i]
    {
      assert ps[i] in qs;
    }
  }

  lemma MasksAgree(ps: seq<NetworkPolicy>, qs: seq<NetworkPolicy>, pod: Pod)
    requires SameElements(ps, qs)
    ensures AnySelects(ps, pod) <==> AnySelects(qs, pod)
    ensures IsolatedMask(ps, pod) == IsolatedMask(qs, pod) && QuarantinedMask(ps, pod) == QuarantinedMask(qs, pod)
  {
    AnyAgree(ps, qs, pod, 0);
    AnyAgree(ps, qs, pod, 1);
    AnyAgree(qs, ps, pod, 0);
    AnyAgree(qs, ps, pod, 1);
  }

  lemma SubjectsAgree(ps: seq<NetworkPolicy>, qs: seq<NetworkPolicy>, n: ResolutionInput, m: ResolutionInput)
    requires SameElements(ps, qs) && SameInput(n, m)
    ensures forall s :: IsSubject(ps, n, s) ==> IsSubject(qs, m, s)
  {
    forall s | IsSubject(ps, n, s)
      ensures IsSubject(qs, m, s)
    {
      var pod :| Owns(n, pod, s.cgroup) && AnySelects(ps, pod) && s == SubjectFor(ps, pod, s.cgroup);
      MasksAgree(ps, qs, pod);
      assert Owns(m, pod, s.cgroup);
    }
  }

  lemma RulesOfAgree(p: NetworkPolicy, n: ResolutionInput, m: ResolutionInput, pod: Pod, w: Way)
    requires SameInput(n, m)
    ensures RulesOf(p, n, pod, w) == RulesOf(p, m, pod, w)
  {
    forall peer
      ensures PeerBlocks(p, peer, n) == PeerBlocks(p, peer, m)
    {
      forall q ensures PeerSelectsPod(p, peer, n, q) <==> PeerSelectsPod(p, peer, m, q) {
      }
    }
    forall peers
      ensures PeersBlocks(p, peers, n) == PeersBlocks(p, peers, m)
    {
    }
    if ValidPolicy(p) && Isolates(p, pod, w) {
      assert forall r :: RuleGrid(p, n, pod, w, r) == RuleGrid(p, m, pod, w, r);
    }
  }

  lemma RulesWithin(ps: seq<NetworkPolicy>, qs: seq<NetworkPolicy>, n: ResolutionInput, m: ResolutionInput)
    requires SameElements(ps, qs) && SameInput(n, m)
    ensures RuleSet(ps, n) <= RuleSet(qs, m)
  {
    forall a | a in RuleSet(ps, n)
      ensures a in RuleSet(qs, m)
    {
      var i, pod, w: Way :| 0 <= i < |ps| && pod in n.pods && a in RulesOf(ps[i], n, pod, w);
      RulesOfAgree(ps[i], n, m, pod, w);
      assert ps[i] in qs;
      var j :| 0 <= j < |qs| && qs[j] == ps[i];
      assert a in RulesOf(qs[j], m, pod, w) && w in {0, 1};
    }
  }

  lemma RuleSetsAgree(ps: seq<NetworkPolicy>, qs: seq<NetworkPolicy>, n: ResolutionInput, m: ResolutionInput)
    requires SameElements(ps, qs) && SameInput(n, m)
    ensures RuleSet(ps, n) == RuleSet(qs, m)
  {
    RulesWithin(ps, qs, n, m);
    RulesWithin(qs, ps, m, n);
  }

  // ----- whether compilation succeeds does not depend on the order either -----

  lemma BypassesAgree(n: ResolutionInput, m: ResolutionInput, c: Cgroup)
    requires OneOwner(n) && SameInput(n, m)
    ensures BypassesOf(n, c) == BypassesOf(m, c)
  {
    assert forall pod :: Owns(n, pod, c) <==> Owns(m, pod, c);
  }

  lemma {:induction false} BypassTotalsAgree(n: ResolutionInput, m: ResolutionInput, cs: set<Cgroup>)
    requires OneOwner(n) && SameInput(n, m)
    ensures BypassTotal(n, cs) == BypassTotal(m, cs)
    decreases |cs|
  {
    if cs != {} {
      var c :| c in cs;
      BypassTotalAdds(n, cs, c);
      BypassTotalAdds(m, cs, c);
      BypassesAgree(n, m, c);
      BypassTotalsAgree(n, m, cs - {c});
    }
  }

  lemma RefusalIsOrderFree(ps: seq<NetworkPolicy>, qs: seq<NetworkPolicy>, n: ResolutionInput, m: ResolutionInput)
    requires OneOwner(n) && SameElements(ps, qs) && SameInput(n, m)
    ensures CannotCompile(ps, n) <==> CannotCompile(qs, m)
  {
    forall pod
      ensures AnySelects(ps, pod) <==> AnySelects(qs, pod)
    {
      MasksAgree(ps, qs, pod);
    }
    assert SubjectSet(ps, n) == SubjectSet(qs, m);
    BypassTotalsAgree(n, m, SubjectSet(ps, n));
    RuleSetsAgree(ps, qs, n, m);
  }

  // ----- the recount -----

  ghost function CgroupsIn(subjects: seq<Subject>): set<Cgroup> {
    set s | s in subjects :: s.cgroup
  }

  lemma CgroupsOneMore(subjects: seq<Subject>)
    requires subjects != [] && StrictlySorted(subjects, SubjectRank)
    ensures CgroupsIn(subjects) == CgroupsIn(subjects[1..]) + {subjects[0].cgroup}
    ensures subjects[0].cgroup !in CgroupsIn(subjects[1..])
  {
    assert forall t :: t in subjects <==> t == subjects[0] || t in subjects[1..];
    forall t | t in subjects[1..]
      ensures t.cgroup != subjects[0].cgroup
    {
      assert SubjectRank(subjects[0]) < SubjectRank(t);
    }
  }

  lemma OneMoreBypass(n: ResolutionInput, cs: set<Cgroup>, c: Cgroup)
    requires c !in cs
    ensures BypassTotal(n, cs + {c}) == BypassesOf(n, c) + BypassTotal(n, cs)
    ensures |cs + {c}| == |cs| + 1
  {
    BypassTotalAdds(n, cs + {c}, c);
    assert cs + {c} - {c} == cs;
  }

  lemma SubjectBypasses(ps: seq<NetworkPolicy>, n: ResolutionInput, s: Subject)
    requires OneOwner(n) && IsSubject(ps, n, s)
    ensures BypassesOf(n, s.cgroup) == |s.podIPs|
  {
    var pod :| Owns(n, pod, s.cgroup) && AnySelects(ps, pod) && s == SubjectFor(ps, pod, s.cgroup);
  }

  lemma {:induction false} RecountBypasses(n: ResolutionInput, subjects: seq<Subject>)
    requires StrictlySorted(subjects, SubjectRank)
    requires forall i :: 0 <= i < |subjects| ==> BypassesOf(n, subjects[i].cgroup) == |subjects[i].podIPs|
    ensures PodIPCount(subjects) == BypassTotal(n, CgroupsIn(subjects))
    ensures |CgroupsIn(subjects)| == |subjects|
  {
    if subjects != [] {
      RecountBypasses(n, subjects[1..]);
      CgroupsOneMore(subjects);
      OneMoreBypass(n, CgroupsIn(subjects[1..]), subjects[0].cgroup);
    }
  }

  lemma {:induction false} DistinctSize<T>(xs: seq<T>)
    requires forall i, j :: 0 <= i < j < |xs| ==> xs[i] != xs[j]
    ensures |Elements(xs)| == |xs|
  {
    if xs != [] {
      DistinctSize(xs[1..]);
      assert Elements(xs) == {xs[0]} + Elements(xs[1..]) by {
        assert forall x :: x in xs <==> x == xs[0] || x in xs[1..];
      }
    }
  }

  lemma SubjectCgroups(ps: seq<NetworkPolicy>, n: ResolutionInput, p: PolicySet)
    requires IsCompiled(ps, n, p)
    ensures CgroupsIn(p.subjects) == SubjectSet(ps, n)
  {
    forall c | c in SubjectSet(ps, n)
      ensures c in CgroupsIn(p.subjects)
    {
      var pod :| pod in n.pods && AnySelects(ps, pod) && c in pod.cgroups;
      var s := SubjectFor(ps, pod, c);
      assert Owns(n, pod, s.cgroup);
      assert s in p.subjects;
    }
  }

  /** Rules and prefixes correspond one to one. */
  lemma {:induction false} RuleCount(rules: seq<Rule>, allows: set<Allow>)
    requires forall a :: a in allows ==> InRange(a)
    requires forall r :: r in rules <==> exists a :: a in allows && InRange(a) && r == RuleOf(a)
    requires forall i, j :: 0 <= i < j < |rules| ==> rules[i] != rules[j]
    ensures |rules| == |allows|
  {
    assert forall a :: a in allows ==> RuleOf(a) in rules;
    if rules != [] {
      var r, rest := rules[0], rules[1..];
      assert r in rules;
      var a :| a in allows && InRange(a) && r == RuleOf(a);
      forall x
        ensures x in rest <==> exists b :: b in allows - {a} && InRange(b) && x == RuleOf(b)
      {
        assert x in rest <==> x in rules && x != r;
      }
      RuleCount(rest, allows - {a});
    }
  }

  lemma RankedDistinct<T>(xs: seq<T>, rank: T -> int)
    requires StrictlySorted(xs, rank)
    ensures forall i, j :: 0 <= i < j < |xs| ==> xs[i] != xs[j]
  {
    forall i, j | 0 <= i < j < |xs|
      ensures xs[i] != xs[j]
    {
      assert rank(xs[i]) < rank(xs[j]);
    }
  }

  /** The count of ValidatePolicySet is the total the compiler keeps. */
  lemma Recount(ps: seq<NetworkPolicy>, n: ResolutionInput, p: PolicySet)
    requires OneOwner(n) && IsCompiled(ps, n, p)
    ensures RuleEntryCount(p) == EntryTotal(ps, n) && |p.subjects| == |SubjectSet(ps, n)|
  {
    forall i | 0 <= i < |p.subjects|
      ensures BypassesOf(n, p.subjects[i].cgroup) == |p.subjects[i].podIPs|
    {
      SubjectBypasses(ps, n, p.subjects[i]);
    }
    RecountBypasses(n, p.subjects);
    SubjectCgroups(ps, n, p);
    forall a | a in RuleSet(ps, n)
      ensures InRange(a)
    {
      RulesAreInRange(ps, n, a);
    }
    RankedDistinct(p.rules, RuleRank);
    RuleCount(p.rules, RuleSet(ps, n));
  }

  // ----- validity -----

  lemma SubjectIsValid(ps: seq<NetworkPolicy>, n: ResolutionInput, s: Subject)
    requires Ready(n) && IsSubject(ps, n, s)
    ensures ValidSubject(s)
  {
    hide AnySelects, AnyIsolates, AnyQuarantines, Ready, ReadyPod, IPv4sOf;
    var pod :| Owns(n, pod, s.cgroup) && AnySelects(ps, pod) && s == SubjectFor(ps, pod, s.cgroup);
    OwnersAreListed(n, pod, s.cgroup);
    SelectedIsIsolated(ps, pod);
    QuarantinedIsIsolated(ps, pod, 0);
    QuarantinedIsIsolated(ps, pod, 1);
    ListedAddresses(pod);
  }

  lemma OwnersAreListed(n: ResolutionInput, pod: Pod, c: Cgroup)
    requires Ready(n) && Owns(n, pod, c)
    ensures c != 0
  {
    var k :| 0 <= k < |n.pods| && n.pods[k] == pod;
    assert ReadyPod(n, n.pods[k]);
  }

  lemma SelectedIsIsolated(ps: seq<NetworkPolicy>, pod: Pod)
    requires AnySelects(ps, pod)
    ensures AnyIsolates(ps, pod, 0) || AnyIsolates(ps, pod, 1)
  {
    var i :| 0 <= i < |ps| && Selects(ps[i], pod);
    assert Isolates(ps[i], pod, 0) || Isolates(ps[i], pod, 1);
  }

  lemma QuarantinedIsIsolated(ps: seq<NetworkPolicy>, pod: Pod, w: Way)
    ensures AnyQuarantines(ps, pod, w) ==> AnyIsolates(ps, pod, w)
  {
    if AnyQuarantines(ps, pod, w) {
      var i :| 0 <= i < |ps| && Quarantines(ps[i], pod, w);
      assert Isolates(ps[i], pod, w);
    }
  }

  lemma ListedAddresses(pod: Pod)
    ensures forall a :: a in IPv4sOf(pod) ==> a.V4?
  {
    UniqueSortedIsListing(OnlyIPv4(pod.podIPs), AddrRank);
  }

  lemma RuleHasSubject(ps: seq<NetworkPolicy>, n: ResolutionInput, p: PolicySet, r: Rule)
    requires IsCompiled(ps, n, p) && r in p.rules
    ensures ValidRule(r) && HasSubject(p, r.cgroup)
  {
    var a :| a in RuleSet(ps, n) && InRange(a) && r == RuleOf(a);
    RulesAreInRange(ps, n, a);
    var pod :| Owns(n, pod, a.cgroup) && AnySelects(ps, pod);
    var s := SubjectFor(ps, pod, a.cgroup);
    assert IsSubject(ps, n, s);
    assert s in p.subjects;
  }

  /** Every successful result passes ValidatePolicySet. */
  lemma CompiledIsValid(ps: seq<NetworkPolicy>, n: ResolutionInput, p: PolicySet)
    requires Ready(n) && IsCompiled(ps, n, p) && !CannotCompile(ps, n)
    ensures Valid(p)
  {
    hide ReadyPod, ValidSubject, ValidRule, HasSubject, OneOwner;
    Recount(ps, n, p);
    forall i | 0 <= i < |p.subjects|
      ensures ValidSubject(p.subjects[i])
    {
      SubjectIsValid(ps, n, p.subjects[i]);
    }
    forall i | 0 <= i < |p.rules|
      ensures ValidRule(p.rules[i]) && HasSubject(p, p.rules[i].cgroup)
    {
      RuleHasSubject(ps, n, p, p.rules[i]);
    }
    forall i, j | 0 <= i < j < |p.subjects|
      ensures p.subjects[i].cgroup != p.subjects[j].cgroup
    {
      assert SubjectRank(p.subjects[i]) < SubjectRank(p.subjects[j]);
    }
  }
}
