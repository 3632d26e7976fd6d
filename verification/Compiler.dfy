/**
 The policy compiler: CompileNativePolicies and its compileState, whose methods
 fill the subject and rule tables policy by policy. Each method is proved
 against the sets of CompilerSpec; a refusal is proved to be a refusal of the
 whole input, whatever the order of the policies.
*/
module Compiler {
  import opened Cidr
  import opened Ordering
  import opened PolicySets
  import opened Options
  import opened RangeSplit
  import opened IpBlock
  import opened NativePolicies
  import opened Resolution
  import opened CompilerSpec
  import opened CompiledSets

  datatype SubjectState = SubjectState(subject: Subject, podKey: string)
  type SubjectTable = map<Cgroup, SubjectState>

  function IsoAt(t: SubjectTable, c: Cgroup): Direction {
    if c in t then t[c].subject.isolated else NO_DIRECTION
  }

  function QuarAt(t: SubjectTable, c: Cgroup): Direction {
    if c in t then t[c].subject.quarantined else NO_DIRECTION
  }

  /** t' is t with `isolated` and `quarantined` added to every cgroup of the given pods. */
  ghost predicate Marked(n: ResolutionInput, t: SubjectTable, t': SubjectTable, pods: seq<Pod>, isolated: Direction,
                         quarantined: Direction) {
    forall pod, c :: Owns(n, pod, c) ==>
      && (c in t' <==> c in t || pod in pods)
      && IsoAt(t', c) == (if pod in pods then IsoAt(t, c).Or(isolated) else IsoAt(t, c))
      && QuarAt(t', c) == (if pod in pods then QuarAt(t, c).Or(quarantined) else QuarAt(t, c))
  }

  lemma MarkedTwice(n: ResolutionInput, t: SubjectTable, t': SubjectTable, t'': SubjectTable,
                    pods: seq<Pod>, pod: Pod, isolated: Direction, quarantined: Direction)
    requires Marked(n, t, t', pods, isolated, quarantined) && Marked(n, t', t'', [pod], isolated, quarantined)
    ensures Marked(n, t, t'', pods + [pod], isolated, quarantined)
  {
    forall q, c | Owns(n, q, c)
      ensures q in pods + [pod] <==> q in pods || q in [pod]
    {
    }
  }

  /** Every entry names its own cgroup and the pod that owns it. */
  ghost predicate EntriesOk(n: ResolutionInput, t: SubjectTable) {
    forall pod, c :: Owns(n, pod, c) && c in t ==> EntryOk(pod, c, t[c])
  }

  predicate EntryOk(pod: Pod, c: Cgroup, e: SubjectState) {
    e.podKey == PodKey(pod) && e.subject.cgroup == c && e.subject.podIPs == IPv4sOf(pod)
  }

  function NewEntry(pod: Pod, c: Cgroup): SubjectState {
    SubjectState(Subject(c, NO_DIRECTION, NO_DIRECTION, IPv4sOf(pod)), PodKey(pod))
  }

  function MarkEntry(e: SubjectState, isolated: Direction, quarantined: Direction): SubjectState {
    e.(subject := e.subject.(isolated := e.subject.isolated.Or(isolated),
        quarantined := e.subject.quarantined.Or(quarantined)))
  }

  lemma EntriesStay(n: ResolutionInput, t: SubjectTable, pod: Pod, c: Cgroup, e: SubjectState)
    requires OneOwner(n) && EntriesOk(n, t) && Owns(n, pod, c) && EntryOk(pod, c, e)
    ensures EntriesOk(n, t[c := e])
  {
  }

  /** The cgroup's masks have grown by the given ones. */
  predicate MaskedMore(t: SubjectTable, t': SubjectTable, c: Cgroup, isolated: Direction, quarantined: Direction) {
    IsoAt(t', c) == IsoAt(t, c).Or(isolated) && QuarAt(t', c) == QuarAt(t, c).Or(quarantined)
  }

  predicate MaskedSame(t: SubjectTable, t': SubjectTable, c: Cgroup) {
    IsoAt(t', c) == IsoAt(t, c) && QuarAt(t', c) == QuarAt(t, c)
  }

  /** t' is t with the masks added to the given cgroups. */
  ghost predicate MarkedUpTo(t: SubjectTable, t': SubjectTable, cs: set<Cgroup>, isolated: Direction,
                             quarantined: Direction) {
    && t'.Keys == t.Keys + cs
    && (forall c :: c in cs ==> MaskedMore(t, t', c, isolated, quarantined))
    && (forall c :: c !in cs ==> MaskedSame(t, t', c))
  }

  lemma MarkedPod(n: ResolutionInput, t: SubjectTable, t': SubjectTable, pod: Pod, isolated: Direction,
                  quarantined: Direction)
    requires OneOwner(n) && pod in n.pods && MarkedUpTo(t, t', Elements(pod.cgroups), isolated, quarantined)
    ensures Marked(n, t, t', [pod], isolated, quarantined)
  {
    forall q, c | Owns(n, q, c)
      ensures q in [pod] <==> c in pod.cgroups
      ensures c in t' <==> c in t || q in [pod]
      ensures if q in [pod] then MaskedMore(t, t', c, isolated, quarantined) else MaskedSame(t, t', c)
    {
      assert c in pod.cgroups ==> Owns(n, pod, c);
      assert c in t' <==> c in t'.Keys;
    }
  }

  lemma MarkOneMore(t: SubjectTable, t': SubjectTable, t'': SubjectTable, cs: set<Cgroup>, c: Cgroup,
                    isolated: Direction, quarantined: Direction)
    requires c !in cs
    requires MarkedUpTo(t, t', cs, isolated, quarantined) && MarkedUpTo(t', t'', {c}, isolated, quarantined)
    ensures MarkedUpTo(t, t'', cs + {c}, isolated, quarantined)
  {
    forall d
      ensures d in cs + {c} ==> MaskedMore(t, t'', d, isolated, quarantined)
      ensures d !in cs + {c} ==> MaskedSame(t, t'', d)
    {
      assert d == c || MaskedSame(t', t'', d);
      assert d in cs || MaskedSame(t, t', d);
    }
  }

  lemma PutMarked(t: SubjectTable, pod: Pod, c: Cgroup, isolated: Direction, quarantined: Direction)
    ensures var t' := if c in t then t else t[c := NewEntry(pod, c)];
            MarkedUpTo(t, t'[c := MarkEntry(t'[c], isolated, quarantined)], {c}, isolated, quarantined)
  {
    var entry := MarkEntry(if c in t then t[c] else NewEntry(pod, c), isolated, quarantined);
    OneMarked(t, c, entry, isolated, quarantined);
    assert t[c := NewEntry(pod, c)][c := entry] == t[c := entry];
  }

  lemma OneMarked(t: SubjectTable, c: Cgroup, e: SubjectState, isolated: Direction, quarantined: Direction)
    requires e.subject.isolated == IsoAt(t, c).Or(isolated) && e.subject.quarantined == QuarAt(t, c).Or(quarantined)
    ensures MarkedUpTo(t, t[c := e], {c}, isolated, quarantined)
  {
  }

  lemma TakeOneMore(cs: seq<Cgroup>, j: nat)
    requires j < |cs| && StrictlySorted(cs, CgroupRank)
    ensures Elements(cs[..j + 1]) == Elements(cs[..j]) + {cs[j]}
    ensures cs[j] !in Elements(cs[..j])
  {
    assert cs[..j + 1] == cs[..j] + [cs[j]];
  }

  lemma AppendOne<T>(xs: seq<T>, j: nat)
    requires j < |xs|
    ensures xs[..j + 1] == xs[..j] + [xs[j]]
  {
  }

  lemma TakeAll<T>(xs: seq<T>)
    ensures xs[..|xs|] == xs
  {
  }

  lemma EntryIsOwn(n: ResolutionInput, t: SubjectTable, pod: Pod, c: Cgroup)
    requires EntriesOk(n, t) && Owns(n, pod, c) && c in t
    ensures EntryOk(pod, c, t[c])
  {
  }

  lemma SameSize<K, V>(a: map<K, V>, b: map<K, V>)
    requires a.Keys == b.Keys
    ensures |a| == |b|
  {
    assert |a| == |a.Keys| && |b| == |b.Keys|;
  }

  // ----- peers -----

  ghost predicate PodsReady(n: ResolutionInput) {
    forall pod :: pod in n.pods ==> ReadyPod(n, pod)
  }

  ghost predicate SelectedBy(p: NetworkPolicy, n: ResolutionInput, pods: seq<Pod>) {
    forall pod :: pod in pods <==> pod in n.pods && Selects(p, pod)
  }

  /** resolvePeers can resolve this peer. */
  ghost predicate Resolvable(peer: Peer) {
    if peer.ipBlock.Some? then Expandable(peer.ipBlock.value)
    else
      && (peer.podSelector.Some? ==> peer.podSelector.value.wellFormed)
      && (peer.namespaceSelector.Some? ==> peer.namespaceSelector.value.wellFormed)
  }

  /** uniqueSortedPrefixes: by address, then by length. */
  function PrefixRank(b: Block): int {
    b.start * 64 + b.bits
  }

  ghost predicate PodBlock(p: NetworkPolicy, peer: Peer, n: ResolutionInput, pods: seq<Pod>, b: Block) {
    exists pod :: pod in pods && PeerSelectsPod(p, peer, n, pod) && HostBlock(pod.podIPs, b)
  }

  ghost predicate HostBlock(xs: seq<Addr>, b: Block) {
    exists x :: x in xs && x.V4? && b == Block(x.value, 32)
  }

  /** The IPv4 addresses as single-address prefixes. */
  method HostPrefixes(xs: seq<Addr>) returns (bs: seq<Block>)
    ensures forall b :: b in bs <==> HostBlock(xs, b)
  {
    bs := [];
    for i := 0 to |xs|
      invariant forall b :: b in bs <==> HostBlock(xs[..i], b)
    {
      AppendOne(xs, i);
      if xs[i].V4? {
        bs := bs + [Block(xs[i].value, 32)];
      }
    }
    TakeAll(xs);
  }

  lemma IpBlockPeer(p: NetworkPolicy, peer: Peer, n: ResolutionInput, prefixes: seq<Block>)
    requires peer.ipBlock.Some? && Accepted(peer.ipBlock.value)
    requires forall b :: b in prefixes <==> Maximal(b, Target(peer.ipBlock.value))
    ensures forall b :: b in prefixes <==> b in PeerBlocks(p, peer, n)
  {
    forall b
      ensures b in prefixes <==> b in PeerBlocks(p, peer, n)
    {
      InMaximalSet(b, Target(peer.ipBlock.value));
    }
  }

  lemma PeersOneMore(p: NetworkPolicy, peers: seq<Peer>, i: nat, n: ResolutionInput)
    requires i < |peers|
    ensures PeersBlocks(p, peers[..i + 1], n) == PeersBlocks(p, peers[..i], n) + PeerBlocks(p, peers[i], n)
  {
    var upTo, more := peers[..i], peers[..i + 1];
    forall b
      ensures b in PeersBlocks(p, more, n) <==> b in PeersBlocks(p, upTo, n) || b in PeerBlocks(p, peers[i], n)
    {
      if b in PeersBlocks(p, upTo, n) {
        var k :| 0 <= k < |upTo| && b in PeerBlocks(p, upTo[k], n);
        assert more[k] == upTo[k];
      }
      if b in PeersBlocks(p, more, n) {
        var k :| 0 <= k < |more| && b in PeerBlocks(p, more[k], n);
        assert k < i ==> upTo[k] == more[k];
      }
      assert more[i] == peers[i];
    }
  }

  lemma ElementsAppend<T>(xs: seq<T>, ys: seq<T>)
    ensures Elements(xs + ys) == Elements(xs) + Elements(ys)
  {
  }

  lemma ResolvedSorts(p: NetworkPolicy, peers: seq<Peer>, n: ResolutionInput, resolved: seq<Block>)
    requires Elements(resolved) == PeersBlocks(p, peers, n)
    ensures Elements(UniqueSorted(resolved, PrefixRank)) == PeersBlocks(p, peers, n)
    ensures StrictlySorted(UniqueSorted(resolved, PrefixRank), PrefixRank)
  {
    forall b | b in resolved
      ensures b.start < ADDRESSES && b.bits <= 32
    {
      assert b in Elements(resolved);
      var k :| 0 <= k < |peers| && b in PeerBlocks(p, peers[k], n);
      PeerBlockFits(p, peers[k], n, b);
    }
    UniqueSortedIsListing(resolved, PrefixRank);
  }

  lemma PeerBlockFits(p: NetworkPolicy, peer: Peer, n: ResolutionInput, b: Block)
    requires b in PeerBlocks(p, peer, n)
    ensures b.start < ADDRESSES && b.bits <= 32
  {
    if peer.ipBlock.Some? {
      InMaximalSet(b, Target(peer.ipBlock.value));
    }
  }

  // ----- one more policy -----

  ghost predicate EntryReflects(t: SubjectTable, done: seq<NetworkPolicy>, pod: Pod, c: Cgroup) {
    && (c in t <==> AnySelects(done, pod))
    && IsoAt(t, c) == IsolatedMask(done, pod)
    && QuarAt(t, c) == QuarantinedMask(done, pod)
  }

  /** The subject table is that of the policies done. */
  ghost predicate TableReflects(n: ResolutionInput, t: SubjectTable, done: seq<NetworkPolicy>) {
    && (forall pod :: pod in n.pods && AnySelects(done, pod) ==> pod.failure.NoFailure?)
    && (forall pod, c :: Owns(n, pod, c) ==> EntryReflects(t, done, pod, c))
  }

  /** What compilePolicy adds to the masks of a pod it selects. */
  ghost function QuarantineOf(p: NetworkPolicy, pod: Pod): Direction {
    if !ValidPolicy(p) || HasIPv6(pod) then Directions(p) else NO_DIRECTION
  }

  ghost predicate MarkedOne(t: SubjectTable, t': SubjectTable, c: Cgroup, chosen: bool, isolated: Direction,
                            quarantined: Direction) {
    && (c in t' <==> c in t || chosen)
    && IsoAt(t', c) == (if chosen then IsoAt(t, c).Or(isolated) else IsoAt(t, c))
    && QuarAt(t', c) == (if chosen then QuarAt(t, c).Or(quarantined) else QuarAt(t, c))
  }

  /** t' is t with the policy's directions added to every cgroup of the pods. */
  ghost predicate MarkedBy(n: ResolutionInput, t: SubjectTable, t': SubjectTable, pods: seq<Pod>, p: NetworkPolicy) {
    forall pod, c :: Owns(n, pod, c) ==> MarkedOne(t, t', c, pod in pods, Directions(p), QuarantineOf(p, pod))
  }

  lemma MarkedByOneMore(n: ResolutionInput, t: SubjectTable, t': SubjectTable, t'': SubjectTable, pods: seq<Pod>,
                        pod: Pod, p: NetworkPolicy)
    requires MarkedBy(n, t, t', pods, p) && Marked(n, t', t'', [pod], Directions(p), QuarantineOf(p, pod))
    ensures MarkedBy(n, t, t'', pods + [pod], p)
  {
    forall q, c | Owns(n, q, c)
      ensures MarkedOne(t, t'', c, q in pods + [pod], Directions(p), QuarantineOf(p, q))
    {
      assert MarkedOne(t, t', c, q in pods, Directions(p), QuarantineOf(p, q));
      assert q in pods + [pod] <==> q in pods || q in [pod];
    }
  }

  lemma MarkedByRejected(n: ResolutionInput, t: SubjectTable, t': SubjectTable, pods: seq<Pod>, p: NetworkPolicy)
    requires !ValidPolicy(p) && Marked(n, t, t', pods, Directions(p), Directions(p))
    ensures MarkedBy(n, t, t', pods, p)
  {
  }

  lemma AnyOneMore(done: seq<NetworkPolicy>, p: NetworkPolicy, pod: Pod, w: Way)
    ensures AnySelects(done + [p], pod) <==> AnySelects(done, pod) || Selects(p, pod)
    ensures AnyIsolates(done + [p], pod, w) <==> AnyIsolates(done, pod, w) || Isolates(p, pod, w)
    ensures AnyQuarantines(done + [p], pod, w) <==> AnyQuarantines(done, pod, w) || Quarantines(p, pod, w)
  {
    var more := done + [p];
    assert more[|done|] == p;
    assert forall i :: 0 <= i < |done| ==> more[i] == done[i];
  }

  /** What the policy itself adds to the masks. */
  lemma MasksOfOne(p: NetworkPolicy, pod: Pod)
    ensures MaskOf(Isolates(p, pod, 0), Isolates(p, pod, 1)) == if Selects(p, pod) then Directions(p) else NO_DIRECTION
    ensures MaskOf(Quarantines(p, pod, 0), Quarantines(p, pod, 1)) == if Selects(p, pod) then QuarantineOf(p, pod)
            else NO_DIRECTION
  {
  }

  lemma MaskOfOr(a: bool, b: bool, c: bool, d: bool)
    ensures MaskOf(a || c, b || d) == MaskOf(a, b).Or(MaskOf(c, d))
    ensures MaskOf(a, b).Or(NO_DIRECTION) == MaskOf(a, b)
  {
  }

  lemma MasksOneMore(done: seq<NetworkPolicy>, p: NetworkPolicy, pod: Pod)
    ensures AnySelects(done + [p], pod) <==> AnySelects(done, pod) || Selects(p, pod)
    ensures IsolatedMask(done + [p], pod) ==
            if Selects(p, pod) then IsolatedMask(done, pod).Or(Directions(p)) else IsolatedMask(done, pod)
    ensures QuarantinedMask(done + [p], pod) ==
            if Selects(p, pod) then QuarantinedMask(done, pod).Or(QuarantineOf(p, pod)) else QuarantinedMask(done, pod)
  {
    AnyOneMore(done, p, pod, 0);
    AnyOneMore(done, p, pod, 1);
    MasksOfOne(p, pod);
    MaskOfOr(AnyIsolates(done, pod, 0), AnyIsolates(done, pod, 1), Isolates(p, pod, 0), Isolates(p, pod, 1));
    MaskOfOr(AnyQuarantines(done, pod, 0), AnyQuarantines(done, pod, 1), Quarantines(p, pod, 0),
        Quarantines(p, pod, 1));
  }

  lemma TableOneMore(n: ResolutionInput, t: SubjectTable, t': SubjectTable, done: seq<NetworkPolicy>,
                     p: NetworkPolicy, pods: seq<Pod>)
    requires TableReflects(n, t, done) && SelectedBy(p, n, pods) && MarkedBy(n, t, t', pods, p)
    requires forall pod :: pod in pods ==> pod.failure.NoFailure?
    ensures TableReflects(n, t', done + [p])
  {
    forall pod | pod in n.pods && AnySelects(done + [p], pod)
      ensures pod.failure.NoFailure?
    {
      MasksOneMore(done, p, pod);
    }
    forall pod, c | Owns(n, pod, c)
      ensures EntryReflects(t', done + [p], pod, c)
    {
      MasksOneMore(done, p, pod);
      assert EntryReflects(t, done, pod, c);
      assert MarkedOne(t, t', c, pod in pods, Directions(p), QuarantineOf(p, pod));
    }
  }

  /** What the first k rules of a policy give the pods it selects, in one direction. */
  ghost function DirectionGrid(p: NetworkPolicy, n: ResolutionInput, pods: seq<Pod>, w: Way, k: nat): set<Allow>
    requires k <= |RulesFor(p, w)|
  {
    set i, a | 0 <= i < k && a in PodsGrid(p, n, pods, w, RulesFor(p, w)[i]) :: a
  }

  ghost function PolicyGrid(p: NetworkPolicy, n: ResolutionInput, pods: seq<Pod>, w: Way): set<Allow> {
    if ValidPolicy(p) && Covers(Directions(p), w) then DirectionGrid(p, n, pods, w, |RulesFor(p, w)|) else {}
  }

  lemma InPolicyGrid(p: NetworkPolicy, n: ResolutionInput, pods: seq<Pod>, w: Way, a: Allow)
    requires SelectedBy(p, n, pods)
    ensures a in PolicyGrid(p, n, pods, w) <==> exists pod :: pod in n.pods && a in RulesOf(p, n, pod, w)
  {
    if a in PolicyGrid(p, n, pods, w) {
      var i :| 0 <= i < |RulesFor(p, w)| && a in PodsGrid(p, n, pods, w, RulesFor(p, w)[i]);
      var pod :| pod in pods && a in RuleGrid(p, n, pod, w, RulesFor(p, w)[i]);
      assert a in RulesOf(p, n, pod, w);
    }
    if pod :| pod in n.pods && a in RulesOf(p, n, pod, w) {
      var i :| 0 <= i < |RulesFor(p, w)| && a in RuleGrid(p, n, pod, w, RulesFor(p, w)[i]);
      assert a in PodsGrid(p, n, pods, w, RulesFor(p, w)[i]);
    }
  }

  /** A rule of some policy, pod and direction. */
  ghost predicate Asked(ps: seq<NetworkPolicy>, n: ResolutionInput, a: Allow) {
    exists i, pod, w: Way :: 0 <= i < |ps| && pod in n.pods && a in RulesOf(ps[i], n, pod, w)
  }

  lemma InRuleSet(ps: seq<NetworkPolicy>, n: ResolutionInput, a: Allow)
    ensures a in RuleSet(ps, n) <==> Asked(ps, n, a)
  {
    if Asked(ps, n, a) {
      var i, pod, w: Way :| 0 <= i < |ps| && pod in n.pods && a in RulesOf(ps[i], n, pod, w);
      assert w in {0, 1};
    }
  }

  lemma AskedOneMore(done: seq<NetworkPolicy>, p: NetworkPolicy, n: ResolutionInput, pods: seq<Pod>, a: Allow)
    requires SelectedBy(p, n, pods)
    ensures Asked(done + [p], n, a) <==>
            Asked(done, n, a) || a in PolicyGrid(p, n, pods, 1) || a in PolicyGrid(p, n, pods, 0)
  {
    var more := done + [p];
    InPolicyGrid(p, n, pods, 0, a);
    InPolicyGrid(p, n, pods, 1, a);
    assert more[|done|] == p;
    if Asked(done, n, a) {
      var i, pod, w: Way :| 0 <= i < |done| && pod in n.pods && a in RulesOf(done[i], n, pod, w);
      assert a in RulesOf(more[i], n, pod, w);
    }
    if Asked(more, n, a) {
      var i, pod, w: Way :| 0 <= i < |more| && pod in n.pods && a in RulesOf(more[i], n, pod, w);
      if i < |done| {
        assert a in RulesOf(done[i], n, pod, w);
      } else {
        assert w == 0 || w == 1;
      }
    }
  }

  lemma RuleSetOneMore(done: seq<NetworkPolicy>, p: NetworkPolicy, n: ResolutionInput, pods: seq<Pod>)
    requires SelectedBy(p, n, pods)
    ensures RuleSet(done + [p], n) == RuleSet(done, n) + PolicyGrid(p, n, pods, 1) + PolicyGrid(p, n, pods, 0)
  {
    forall a
      ensures a in RuleSet(done + [p], n) <==>
                a in RuleSet(done, n) || a in PolicyGrid(p, n, pods, 1) || a in PolicyGrid(p, n, pods, 0)
    {
      InRuleSet(done, n, a);
      InRuleSet(done + [p], n, a);
      AskedOneMore(done, p, n, pods, a);
    }
  }

  lemma AcceptedRules(done: seq<NetworkPolicy>, p: NetworkPolicy, n: ResolutionInput, pods: seq<Pod>, r: set<Allow>)
    requires SelectedBy(p, n, pods) && r == RuleSet(done, n) + PolicyGrid(p, n, pods, 1) + PolicyGrid(p, n, pods, 0)
    ensures r == RuleSet(done + [p], n)
  {
    RuleSetOneMore(done, p, n, pods);
  }

  lemma RejectedRules(done: seq<NetworkPolicy>, p: NetworkPolicy, n: ResolutionInput, pods: seq<Pod>)
    requires !ValidPolicy(p) && SelectedBy(p, n, pods)
    ensures RuleSet(done + [p], n) == RuleSet(done, n)
  {
    RuleSetOneMore(done, p, n, pods);
  }

  lemma DirectionDone(p: NetworkPolicy, n: ResolutionInput, pods: seq<Pod>, w: Way)
    requires ValidPolicy(p) && Covers(Directions(p), w)
    ensures DirectionGrid(p, n, pods, w, |RulesFor(p, w)|) == PolicyGrid(p, n, pods, w)
  {
  }

  lemma NoRulesYet(base: set<Allow>, p: NetworkPolicy, n: ResolutionInput, pods: seq<Pod>, w: Way)
    ensures base == base + DirectionGrid(p, n, pods, w, 0)
  {
  }

  lemma DirectionAbsent(p: NetworkPolicy, n: ResolutionInput, pods: seq<Pod>, w: Way)
    requires !Covers(Directions(p), w)
    ensures PolicyGrid(p, n, pods, w) == {}
  {
  }

  /** The subjects selected by a policy whose selector cannot be used. */
  lemma NamespaceSelected(p: NetworkPolicy, n: ResolutionInput, pods: seq<Pod>)
    requires PodsReady(n) && !SelectorUsable(p)
    requires forall pod :: pod in pods <==>
               pod in n.pods && pod.local && !pod.hostNetwork && pod.namespace == NamespaceOf(p)
    ensures SelectedBy(p, n, pods)
  {
    forall pod
      ensures pod in pods <==> pod in n.pods && Selects(p, pod)
    {
      if pod in n.pods {
        assert ReadyPod(n, pod);
      }
    }
  }

  /** One rule of one policy of the input asks for no more than the input does. */
  lemma GridIsAsked(ps: seq<NetworkPolicy>, p: NetworkPolicy, n: ResolutionInput, pods: seq<Pod>, w: Way, i: nat)
    requires p in ps && ValidPolicy(p) && SelectedBy(p, n, pods) && Covers(Directions(p), w)
    requires i < |RulesFor(p, w)|
    ensures PodsGrid(p, n, pods, w, RulesFor(p, w)[i]) <= RuleSet(ps, n)
  {
    var k :| 0 <= k < |ps| && ps[k] == p;
    forall a | a in PodsGrid(p, n, pods, w, RulesFor(p, w)[i])
      ensures a in RuleSet(ps, n)
    {
      var pod :| pod in pods && a in RuleGrid(p, n, pod, w, RulesFor(p, w)[i]);
      assert a in RulesOf(ps[k], n, pod, w);
      InRuleSet(ps, n, a);
    }
  }

  lemma DirectionOneMore(p: NetworkPolicy, n: ResolutionInput, pods: seq<Pod>, w: Way, i: nat)
    requires i < |RulesFor(p, w)|
    ensures DirectionGrid(p, n, pods, w, i + 1) ==
            DirectionGrid(p, n, pods, w, i) + PodsGrid(p, n, pods, w, RulesFor(p, w)[i])
  {
  }

  lemma ValidRulesResolve(p: NetworkPolicy, w: Way, i: nat)
    requires ValidPolicy(p) && i < |RulesFor(p, w)|
    ensures ValidPeerRule(RulesFor(p, w)[i])
    ensures forall q :: q in RulesFor(p, w)[i].ports ==> 1 <= q.port <= 65535
    ensures forall k :: 0 <= k < |RulesFor(p, w)[i].peers| ==> Resolvable(RulesFor(p, w)[i].peers[k])
  {
    var r := RulesFor(p, w)[i];
    assert ValidPeerRule(r);
    forall q | q in r.ports
      ensures 1 <= q.port <= 65535
    {
      var k :| 0 <= k < |r.ports| && r.ports[k] == q;
      assert ValidPort(r.ports[k]);
    }
    forall k | 0 <= k < |r.peers|
      ensures Resolvable(r.peers[k])
    {
      assert ValidPeer(r.peers[k]);
    }
  }

  lemma SelectedIsAsked(ps: seq<NetworkPolicy>, p: NetworkPolicy, n: ResolutionInput, pods: seq<Pod>)
    requires p in ps && SelectedBy(p, n, pods) && PodsReady(n)
    ensures forall pod :: pod in pods ==>
            pod in n.pods && AnySelects(ps, pod) && StrictlySorted(pod.cgroups, CgroupRank)
  {
    var k :| 0 <= k < |ps| && ps[k] == p;
    forall pod | pod in pods
      ensures pod in n.pods && AnySelects(ps, pod) && StrictlySorted(pod.cgroups, CgroupRank)
    {
      assert Selects(ps[k], pod) && ReadyPod(n, pod);
    }
  }

  /** podHasIPv6 */
  method PodHasIPv6(n: ResolutionInput, pod: Pod) returns (has: bool)
    requires ReadyPod(n, pod)
    ensures has <==> HasIPv6(pod)
  {
    for i := 0 to |pod.podIPs|
      invariant forall k :: 0 <= k < i ==> !pod.podIPs[k].Is6()
    {
      assert pod.podIPs[i] in pod.podIPs;
      if pod.podIPs[i].Is6() {
        return true;
      }
    }
    return false;
  }

  // ----- the result -----

  lemma ReadyPods(n: ResolutionInput)
    requires Ready(n)
    ensures PodsReady(n) && OneOwner(n)
  {
    forall pod | pod in n.pods
      ensures ReadyPod(n, pod)
    {
      var k :| 0 <= k < |n.pods| && n.pods[k] == pod;
      assert ReadyPod(n, n.pods[k]);
    }
  }

  /** The entries are the subjects of the policies. */
  lemma EntriesAreSubjects(n: ResolutionInput, t: SubjectTable, ps: seq<NetworkPolicy>)
    requires OneOwner(n) && EntriesOk(n, t) && TableReflects(n, t, ps) && t.Keys <= SubjectSet(ps, n)
    ensures forall c :: c in t ==> t[c].subject.cgroup == c
    ensures forall s :: IsSubject(ps, n, s) <==> s.cgroup in t && s == t[s.cgroup].subject
  {
    forall c | c in t
      ensures exists pod :: Owns(n, pod, c) && AnySelects(ps, pod) && t[c].subject == SubjectFor(ps, pod, c)
    {
      assert c in SubjectSet(ps, n);
      var pod :| pod in n.pods && AnySelects(ps, pod) && c in pod.cgroups;
      EntryIsSubject(n, t, ps, pod, c);
    }
    forall s | IsSubject(ps, n, s)
      ensures s.cgroup in t && s == t[s.cgroup].subject
    {
      var pod :| Owns(n, pod, s.cgroup) && AnySelects(ps, pod) && s == SubjectFor(ps, pod, s.cgroup);
      EntryIsSubject(n, t, ps, pod, s.cgroup);
    }
  }

  lemma EntryIsSubject(n: ResolutionInput, t: SubjectTable, ps: seq<NetworkPolicy>, pod: Pod, c: Cgroup)
    requires EntriesOk(n, t) && TableReflects(n, t, ps) && pod in n.pods && AnySelects(ps, pod) && c in pod.cgroups
    ensures Owns(n, pod, c) && c in t && t[c].subject == SubjectFor(ps, pod, c)
  {
    assert Owns(n, pod, c);
    assert EntryReflects(t, ps, pod, c);
    assert EntryOk(pod, c, t[c]);
  }

  lemma ListedSubjects(t: SubjectTable, cgroups: seq<Cgroup>, xs: seq<Subject>)
    requires forall c :: c in t ==> t[c].subject.cgroup == c
    requires forall c :: c in cgroups <==> c in t.Keys
    requires forall i, j :: 0 <= i < j < |cgroups| ==> cgroups[i] != cgroups[j]
    requires |xs| == |cgroups| && forall k :: 0 <= k < |xs| ==> cgroups[k] in t && xs[k] == t[cgroups[k]].subject
    ensures RanksDiffer(xs, SubjectRank)
    ensures forall s: Subject :: s in xs <==> s.cgroup in t && s == t[s.cgroup].subject
  {
    forall s: Subject | s.cgroup in t && s == t[s.cgroup].subject
      ensures s in xs
    {
      assert s.cgroup in cgroups;
      var k :| 0 <= k < |cgroups| && cgroups[k] == s.cgroup;
      assert xs[k] == s;
    }
  }

  lemma ListedRules(rules: set<Allow>, keys: seq<Allow>, xs: seq<Rule>)
    requires forall a :: a in rules ==> InRange(a)
    requires forall a :: a in keys <==> a in rules
    requires forall i, j :: 0 <= i < j < |keys| ==> keys[i] != keys[j]
    requires |xs| == |keys| && forall k :: 0 <= k < |xs| ==>
             keys[k] in rules && InRange(keys[k]) && xs[k] == RuleOf(keys[k])
    ensures RanksDiffer(xs, RuleRank)
    ensures forall r :: r in xs <==> exists a :: a in rules && InRange(a) && r == RuleOf(a)
  {
    forall i, j | 0 <= i < j < |xs|
      ensures RuleRank(xs[i]) != RuleRank(xs[j])
    {
      RuleRankSeparates(xs[i], xs[j]);
    }
    forall r | exists a :: a in rules && InRange(a) && r == RuleOf(a)
      ensures r in xs
    {
      var a :| a in rules && InRange(a) && r == RuleOf(a);
      assert a in keys;
      var k :| 0 <= k < |keys| && keys[k] == a;
      assert xs[k] == r;
    }
  }

  // ----- rules -----

  lemma GridOnePort(c: Cgroup, d: Direction, b: Block, ports: seq<Port>, i: nat)
    requires i < |ports|
    ensures Grid([c], d, {b}, ports[..i + 1]) == Grid([c], d, {b}, ports[..i]) + {AllowOf(c, d, b, ports[i])}
    ensures AllowOf(c, d, b, ports[i]) in Grid([c], d, {b}, ports)
  {
    AppendOne(ports, i);
    assert c in [c] && b in {b} && ports[i] in ports && ports[i] in ports[..i + 1];
  }

  lemma GridOnePrefix(cs: seq<Cgroup>, d: Direction, bs: seq<Block>, i: nat, ports: seq<Port>)
    requires i < |bs|
    ensures Grid(cs, d, Elements(bs[..i + 1]), ports) ==
            Grid(cs, d, Elements(bs[..i]), ports) + Grid(cs, d, {bs[i]}, ports)
    ensures Grid(cs, d, {bs[i]}, ports) <= Grid(cs, d, Elements(bs), ports)
  {
    AppendOne(bs, i);
    assert Elements(bs[..i + 1]) == Elements(bs[..i]) + {bs[i]};
    assert bs[i] in Elements(bs);
  }

  lemma GridOneCgroup(cs: seq<Cgroup>, d: Direction, bs: set<Block>, i: nat, ports: seq<Port>)
    requires i < |cs|
    ensures Grid(cs[..i + 1], d, bs, ports) == Grid(cs[..i], d, bs, ports) + Grid([cs[i]], d, bs, ports)
    ensures Grid([cs[i]], d, bs, ports) <= Grid(cs, d, bs, ports)
  {
    AppendOne(cs, i);
    assert forall c :: c in cs[..i + 1] <==> c in cs[..i] || c in [cs[i]];
    assert forall c :: c in [cs[i]] ==> c in cs;
  }

  /** What a rule gives a list of pods. */
  ghost function PodsGrid(p: NetworkPolicy, n: ResolutionInput, pods: seq<Pod>, w: Way, r: PeerRule): set<Allow> {
    set pod, a | pod in pods && a in RuleGrid(p, n, pod, w, r) :: a
  }

  lemma GridOnePod(p: NetworkPolicy, n: ResolutionInput, pods: seq<Pod>, w: Way, r: PeerRule, i: nat)
    requires i < |pods|
    ensures PodsGrid(p, n, pods[..i + 1], w, r) == PodsGrid(p, n, pods[..i], w, r) + RuleGrid(p, n, pods[i], w, r)
    ensures RuleGrid(p, n, pods[i], w, r) <= PodsGrid(p, n, pods, w, r)
  {
    AppendOne(pods, i);
    assert forall pod :: pod in pods[..i + 1] <==> pod in pods[..i] || pod == pods[i];
    assert pods[i] in pods;
  }

  class CompileState {
    const input: ResolutionInput
    const namespaces: map<string, Labels>
    ghost const all: seq<NetworkPolicy>
    var subjects: SubjectTable
    var rules: set<Allow>
    var bypasses: nat
    var rejected: seq<NetworkPolicy>

    constructor (n: ResolutionInput, labels: map<string, Labels>, ghost policies: seq<NetworkPolicy>)
      requires OneOwner(n)
      ensures input == n && namespaces == labels && all == policies
      ensures Within() && Reflects([]) && rejected == []
      ensures subjects == map[] && rules == {} && bypasses == |n.nodeIPs|
    {
      input := n;
      namespaces := labels;
      all := policies;
      subjects := map[];
      rules := {};
      bypasses := |n.nodeIPs|;
      rejected := [];
    }

    function RuleEntryCount(): nat
      reads this
    {
      |rules| + bypasses
    }

    /** What holds at every moment: nothing has been recorded that the whole input does not
        ask for, and the running bypass count is the true one. */
    ghost predicate Within()
      reads this
    {
      && OneOwner(input)
      && EntriesOk(input, subjects)
      && subjects.Keys <= SubjectSet(all, input)
      && rules <= RuleSet(all, input)
      && bypasses == |input.nodeIPs| + BypassTotal(input, subjects.Keys)
    }

    ghost predicate Fits()
      reads this
    {
      |subjects| <= MAX_SUBJECTS && RuleEntryCount() <= MAX_RULES
    }

    /** What holds between policies: the tables are exactly those of the policies done. */
    ghost predicate Reflects(done: seq<NetworkPolicy>)
      reads this
    {
      TableReflects(input, subjects, done) && rules == RuleSet(done, input)
    }

    /** A table that has outgrown its limit refuses the whole input. */
    lemma OverflowRefuses(cs: set<Cgroup>, extra: set<Allow>, bypassed: nat)
      requires cs <= SubjectSet(all, input) && extra <= RuleSet(all, input)
      requires bypassed == |input.nodeIPs| + BypassTotal(input, cs)
      requires |cs| > MAX_SUBJECTS || |extra| + bypassed > MAX_RULES
      ensures CannotCompile(all, input)
    {
      SubsetSize(cs, SubjectSet(all, input));
      SubsetSize(extra, RuleSet(all, input));
      BypassTotalGrows(input, cs, SubjectSet(all, input));
    }

    /** The bypasses a new cgroup adds. */
    lemma NewCgroupBypasses(cs: set<Cgroup>, pod: Pod, c: Cgroup)
      requires OneOwner(input) && Owns(input, pod, c) && c !in cs
      ensures BypassTotal(input, cs + {c}) == BypassTotal(input, cs) + |IPv4sOf(pod)|
    {
      OneMoreBypass(input, cs, c);
    }

    /** The entry of one cgroup, created if it is new; false if a limit is exceeded. */
    method EnsureEntry(pod: Pod, c: Cgroup) returns (ok: bool)
      requires Within() && Fits() && Owns(input, pod, c) && AnySelects(all, pod)
      modifies this`subjects, this`bypasses
      ensures ok ==> Within() && Fits()
      ensures ok ==> subjects == if c in old(subjects) then old(subjects) else old(subjects)[c := NewEntry(pod, c)]
      ensures !ok ==> CannotCompile(all, input)
    {
      hide AnySelects, CannotCompile;
      if c !in subjects {
        var entry := NewEntry(pod, c);
        EntriesStay(input, subjects, pod, c, entry);
        NewCgroupBypasses(subjects.Keys, pod, c);
        ghost var keys := subjects.Keys + {c};
        subjects := subjects[c := entry];
        bypasses := bypasses + |entry.subject.podIPs|;
        assert subjects.Keys == keys;
        assert c in SubjectSet(all, input);
        if |subjects| > MAX_SUBJECTS {
          OverflowRefuses(keys, {}, bypasses);
          return false;
        }
        if RuleEntryCount() > MAX_RULES {
          OverflowRefuses(keys, rules, bypasses);
          return false;
        }
      } else if subjects[c].podKey != PodKey(pod) {
        assert false;  // "belongs to multiple pods": normalization has excluded it
      }
      return true;
    }

    /** Put a marked entry back. */
    method StoreEntry(pod: Pod, c: Cgroup, entry: SubjectState)
      requires Within() && Fits() && Owns(input, pod, c) && EntryOk(pod, c, entry) && c in subjects
      modifies this`subjects
      ensures Within() && Fits()
      ensures subjects == old(subjects)[c := entry]
    {
      EntriesStay(input, subjects, pod, c, entry);
      assert subjects[c := entry].Keys == subjects.Keys;
      SameSize(subjects, subjects[c := entry]);
      subjects := subjects[c := entry];
    }

    method AddCgroup(pod: Pod, c: Cgroup, isolated: Direction, quarantined: Direction) returns (ok: bool)
      requires Within() && Fits() && Owns(input, pod, c) && AnySelects(all, pod)
      modifies this`subjects, this`bypasses
      ensures ok ==> Within() && Fits()
      ensures ok ==> MarkedUpTo(old(subjects), subjects, {c}, isolated, quarantined)
      ensures !ok ==> CannotCompile(all, input)
    {
      hide AnySelects, CannotCompile, MarkedUpTo, CompileState.Fits;
      ok := EnsureEntry(pod, c);
      if ok {
        var entry := MarkEntry(subjects[c], isolated, quarantined);
        EntryIsOwn(input, subjects, pod, c);
        PutMarked(old(subjects), pod, c, isolated, quarantined);
        StoreEntry(pod, c, entry);
      }
    }

    /** The cgroups of one pod of addSelectedSubjects. */
    method AddCgroups(pod: Pod, isolated: Direction, quarantined: Direction) returns (ok: bool)
      requires Within() && Fits() && pod in input.pods && AnySelects(all, pod)
      requires StrictlySorted(pod.cgroups, CgroupRank)
      modifies this`subjects, this`bypasses
      ensures ok ==> Within() && Fits()
      ensures ok ==> MarkedUpTo(old(subjects), subjects, Elements(pod.cgroups), isolated, quarantined)
      ensures !ok ==> CannotCompile(all, input)
    {
      for j := 0 to |pod.cgroups|
        invariant Within() && Fits()
        invariant MarkedUpTo(old(subjects), subjects, Elements(pod.cgroups[..j]), isolated, quarantined)
      {
        var c := pod.cgroups[j];
        ghost var before := subjects;
        TakeOneMore(pod.cgroups, j);
        ok := AddCgroup(pod, c, isolated, quarantined);
        if !ok {
          return;
        }
        MarkOneMore(old(subjects), before, subjects, Elements(pod.cgroups[..j]), c, isolated, quarantined);
      }
      TakeAll(pod.cgroups);
      return true;
    }

    /** One pod of addSelectedSubjects. */
    method AddPod(pod: Pod, isolated: Direction, quarantined: Direction) returns (ok: bool)
      requires Within() && Fits() && pod in input.pods && AnySelects(all, pod)
      requires StrictlySorted(pod.cgroups, CgroupRank)
      modifies this`subjects, this`bypasses
      ensures ok ==> Within() && Fits() && pod.failure.NoFailure?
      ensures ok ==> Marked(input, old(subjects), subjects, [pod], isolated, quarantined)
      ensures !ok ==> CannotCompile(all, input)
    {
      if !pod.failure.NoFailure? {
        return false;
      }
      ok := AddCgroups(pod, isolated, quarantined);
      if ok {
        MarkedPod(input, old(subjects), subjects, pod, isolated, quarantined);
      }
    }

    method AddSelectedSubjects(pods: seq<Pod>, isolated: Direction, quarantined: Direction) returns (ok: bool)
      requires Within() && Fits()
      requires forall pod :: pod in pods ==>
                 pod in input.pods && AnySelects(all, pod) && StrictlySorted(pod.cgroups, CgroupRank)
      modifies this`subjects, this`bypasses
      ensures ok ==> Within() && Fits() && (forall pod :: pod in pods ==> pod.failure.NoFailure?)
      ensures ok ==> Marked(input, old(subjects), subjects, pods, isolated, quarantined)
      ensures !ok ==> CannotCompile(all, input)
    {
      for i := 0 to |pods|
        invariant Within() && Fits()
        invariant forall pod :: pod in pods[..i] ==> pod.failure.NoFailure?
        invariant Marked(input, old(subjects), subjects, pods[..i], isolated, quarantined)
      {
        ghost var before := subjects;
        assert pods[i] in pods;
        ok := AddPod(pods[i], isolated, quarantined);
        if !ok {
          return;
        }
        MarkedTwice(input, old(subjects), before, subjects, pods[..i], pods[i], isolated, quarantined);
        AppendOne(pods, i);
      }
      TakeAll(pods);
      return true;
    }

    // ----- selection -----

    /** None: the selector is unavailable. */
    method SelectedLocalPods(p: NetworkPolicy) returns (r: Option<seq<Pod>>)
      requires PodsReady(input)
      ensures r.Some? <==> SelectorUsable(p)
      ensures r.Some? ==> SelectedBy(p, input, r.value)
    {
      if p.spec.None? || p.spec.value.podSelector.None? {
        return None;
      }
      var selector := p.spec.value.podSelector.value;
      if !selector.wellFormed {
        return None;
      }
      var namespace := NamespaceOf(p);
      var selected: seq<Pod> := [];
      for i := 0 to |input.pods|
        invariant forall pod :: pod in selected <==> pod in input.pods[..i] && Selects(p, pod)
      {
        var pod := input.pods[i];
        assert ReadyPod(input, pod);
        if pod.local && !pod.hostNetwork && pod.namespace == namespace {
          if selector.matches(pod.labels) {
            selected := selected + [pod];
          }
        }
        AppendOne(input.pods, i);
      }
      TakeAll(input.pods);
      return Some(selected);
    }

    method LocalPodsInNamespace(namespace: string) returns (result: seq<Pod>)
      ensures forall pod :: pod in result <==>
                pod in input.pods && pod.local && !pod.hostNetwork && pod.namespace == namespace
    {
      result := [];
      for i := 0 to |input.pods|
        invariant forall pod :: pod in result <==>
                    pod in input.pods[..i] && pod.local && !pod.hostNetwork && pod.namespace == namespace
      {
        var pod := input.pods[i];
        if pod.local && !pod.hostNetwork && pod.namespace == namespace {
          result := result + [pod];
        }
        AppendOne(input.pods, i);
      }
      TakeAll(input.pods);
    }

    // ----- peers -----

    /** The prefixes of one peer that names pods; None if a selector cannot be converted. */
    method ResolvePodPeer(p: NetworkPolicy, peer: Peer) returns (r: Option<seq<Block>>)
      requires PodsReady(input) && Indexes(input.namespaces, namespaces)
      requires peer.ipBlock.None?
      ensures r.Some? <==> Resolvable(peer)
      ensures r.Some? ==> forall b :: b in r.value <==> b in PeerBlocks(p, peer, input)
    {
      if peer.podSelector.Some? && !peer.podSelector.value.wellFormed {
        return None;
      }
      if peer.namespaceSelector.Some? && !peer.namespaceSelector.value.wellFormed {
        return None;
      }
      var resolved: seq<Block> := [];
      for i := 0 to |input.pods|
        invariant forall b :: b in resolved <==> PodBlock(p, peer, input, input.pods[..i], b)
      {
        var pod := input.pods[i];
        var more := [];
        var chosen := PeerChooses(p, peer, pod);
        if chosen {
          more := HostPrefixes(pod.podIPs);
        }
        resolved := resolved + more;
        AppendOne(input.pods, i);
      }
      TakeAll(input.pods);
      assert forall b :: b in resolved <==> PodBlock(p, peer, input, input.pods, b);
      return Some(resolved);
    }

    /** The tests of the pod loop of resolvePeers. */
    method PeerChooses(p: NetworkPolicy, peer: Peer, pod: Pod) returns (chosen: bool)
      requires PodsReady(input) && Indexes(input.namespaces, namespaces) && pod in input.pods
      ensures chosen <==> PeerSelectsPod(p, peer, input, pod)
    {
      assert ReadyPod(input, pod);
      if pod.hostNetwork || (peer.podSelector.Some? && !peer.podSelector.value.matches(pod.labels)) {
        return false;
      }
      if peer.namespaceSelector.None? {
        return pod.namespace == NamespaceOf(p);
      }
      if pod.namespace !in namespaces {
        assert false;  // "has no matching namespace entry": normalization has excluded it
      }
      return peer.namespaceSelector.value.matches(namespaces[pod.namespace]);
    }

    method ResolvePeer(p: NetworkPolicy, peer: Peer) returns (r: Option<seq<Block>>)
      requires PodsReady(input) && Indexes(input.namespaces, namespaces)
      ensures r.Some? <==> Resolvable(peer)
      ensures r.Some? ==> Elements(r.value) == PeerBlocks(p, peer, input)
    {
      if peer.ipBlock.None? {
        r := ResolvePodPeer(p, peer);
        return;
      }
      var expanded := ExpandNativeIPBlock(peer.ipBlock.value);
      if expanded.Err? {
        return None;
      }
      IpBlockPeer(p, peer, input, expanded.value);
      return Some(expanded.value);
    }

    method ResolvePeers(p: NetworkPolicy, peers: seq<Peer>) returns (r: Option<seq<Block>>)
      requires PodsReady(input) && Indexes(input.namespaces, namespaces)
      ensures r.Some? <==> forall i :: 0 <= i < |peers| ==> Resolvable(peers[i])
      ensures r.Some? ==> Elements(r.value) == PeersBlocks(p, peers, input) && StrictlySorted(r.value, PrefixRank)
    {
      var resolved: seq<Block> := [];
      for i := 0 to |peers|
        invariant forall k :: 0 <= k < i ==> Resolvable(peers[k])
        invariant Elements(resolved) == PeersBlocks(p, peers[..i], input)
      {
        var prefixes := ResolvePeer(p, peers[i]);
        if prefixes.None? {
          return None;
        }
        PeersOneMore(p, peers, i, input);
        ElementsAppend(resolved, prefixes.value);
        resolved := resolved + prefixes.value;
      }
      TakeAll(peers);
      ResolvedSorts(p, peers, input, resolved);
      return Some(UniqueSorted(resolved, PrefixRank));
    }

    // ----- rules -----

    /** What adding rules promises: exactly `more` is added, or the input does not fit, or a
        port is out of range. */
    twostate predicate Added(more: set<Allow>, ports: seq<Port>, ok: bool)
      reads this
    {
      && (ok ==> Within() && Fits() && rules == old(rules) + more)
      && (!ok ==> CannotCompile(all, input) || exists q :: q in ports && !(1 <= q.port <= 65535))
    }

    method AddRule(rule: Allow) returns (ok: bool)
      requires Within() && Fits() && rule in RuleSet(all, input)
      modifies this`rules
      ensures ok ==> Within() && Fits() && rules == old(rules) + {rule}
      ensures !ok ==> CannotCompile(all, input)
    {
      if rule !in rules {
        var observed := RuleEntryCount() + 1;
        if observed > MAX_RULES {
          OverflowRefuses(subjects.Keys, rules + {rule}, bypasses);
          return false;
        }
        rules := rules + {rule};
      }
      return true;
    }

    /** One cgroup and one prefix. */
    method AddPorts(c: Cgroup, w: Way, prefix: Block, ports: seq<Port>) returns (ok: bool)
      requires Within() && Fits() && Grid([c], Bit(w), {prefix}, ports) <= RuleSet(all, input)
      modifies this`rules
      ensures Added(Grid([c], Bit(w), {prefix}, ports), ports, ok)
    {
      hide CannotCompile, RuleSet, CompileState.Within, CompileState.Fits;
      for i := 0 to |ports|
        invariant Within() && Fits()
        invariant rules == old(rules) + Grid([c], Bit(w), {prefix}, ports[..i])
      {
        var port := ports[i];
        if port.port < 1 || port.port > 65535 {
          return false;
        }
        var protocol := TCP;
        if port.protocol == "UDP" {
          protocol := UDP;
        }
        GridOnePort(c, Bit(w), prefix, ports, i);
        ok := AddRule(Allow(c, Bit(w), prefix.start, prefix.bits, protocol, port.port));
        if !ok {
          return;
        }
      }
      TakeAll(ports);
      return true;
    }

    /** One cgroup. */
    method AddPrefixes(c: Cgroup, w: Way, prefixes: seq<Block>, ports: seq<Port>) returns (ok: bool)
      requires Within() && Fits() && Grid([c], Bit(w), Elements(prefixes), ports) <= RuleSet(all, input)
      modifies this`rules
      ensures Added(Grid([c], Bit(w), Elements(prefixes), ports), ports, ok)
    {
      for i := 0 to |prefixes|
        invariant Within() && Fits()
        invariant rules == old(rules) + Grid([c], Bit(w), Elements(prefixes[..i]), ports)
      {
        GridOnePrefix([c], Bit(w), prefixes, i, ports);
        ok := AddPorts(c, w, prefixes[i], ports);
        if !ok {
          return;
        }
      }
      TakeAll(prefixes);
      return true;
    }

    /** One pod. */
    method AddPodRules(cgroups: seq<Cgroup>, w: Way, prefixes: seq<Block>, ports: seq<Port>) returns (ok: bool)
      requires Within() && Fits() && Grid(cgroups, Bit(w), Elements(prefixes), ports) <= RuleSet(all, input)
      modifies this`rules
      ensures Added(Grid(cgroups, Bit(w), Elements(prefixes), ports), ports, ok)
    {
      for i := 0 to |cgroups|
        invariant Within() && Fits()
        invariant rules == old(rules) + Grid(cgroups[..i], Bit(w), Elements(prefixes), ports)
      {
        GridOneCgroup(cgroups, Bit(w), Elements(prefixes), i, ports);
        ok := AddPrefixes(cgroups[i], w, prefixes, ports);
        if !ok {
          return;
        }
      }
      TakeAll(cgroups);
      return true;
    }

    /** One rule of a policy; false: a selector, a block or a port is unusable, or it does not fit. */
    method AddRules(p: NetworkPolicy, pods: seq<Pod>, w: Way, peers: seq<Peer>, ports: seq<Port>) returns (ok: bool)
      requires Within() && Fits() && PodsReady(input) && Indexes(input.namespaces, namespaces)
      requires PodsGrid(p, input, pods, w, PeerRule(peers, ports)) <= RuleSet(all, input)
      modifies this`rules
      ensures ok ==> Within() && Fits() && rules == old(rules) + PodsGrid(p, input, pods, w, PeerRule(peers, ports))
      ensures !ok ==>
                || CannotCompile(all, input)
                || (exists q :: q in ports && !(1 <= q.port <= 65535))
                || (exists i :: 0 <= i < |peers| && !Resolvable(peers[i]))
    {
      var prefixes := ResolvePeers(p, peers);
      if prefixes.None? {
        return false;
      }
      ok := AddPodsRules(p, pods, w, prefixes.value, PeerRule(peers, ports));
    }

    method AddPodsRules(p: NetworkPolicy, pods: seq<Pod>, w: Way, prefixes: seq<Block>, rule: PeerRule)
      returns (ok: bool)
      requires Within() && Fits() && Elements(prefixes) == PeersBlocks(p, rule.peers, input)
      requires PodsGrid(p, input, pods, w, rule) <= RuleSet(all, input)
      modifies this`rules
      ensures Added(PodsGrid(p, input, pods, w, rule), rule.ports, ok)
    {
      hide PeersBlocks, RuleSet, CannotCompile, CompileState.Within, CompileState.Fits;
      for i := 0 to |pods|
        invariant Within() && Fits()
        invariant rules == old(rules) + PodsGrid(p, input, pods[..i], w, rule)
      {
        GridOnePod(p, input, pods, w, rule, i);
        ok := AddPodRules(pods[i].cgroups, w, prefixes, rule.ports);
        if !ok {
          return;
        }
      }
      TakeAll(pods);
      return true;
    }

    // ----- one policy -----

    method MarkAccepted(p: NetworkPolicy, selected: seq<Pod>) returns (ok: bool)
      requires Within() && Fits() && PodsReady(input) && p in all && ValidPolicy(p) && SelectedBy(p, input, selected)
      modifies this`subjects, this`bypasses
      ensures ok ==> Within() && Fits() && MarkedBy(input, old(subjects), subjects, selected, p)
      ensures ok ==> forall pod :: pod in selected ==> pod.failure.NoFailure?
      ensures !ok ==> CannotCompile(all, input)
    {
      SelectedIsAsked(all, p, input, selected);
      for i := 0 to |selected|
        invariant Within() && Fits() && MarkedBy(input, old(subjects), subjects, selected[..i], p)
        invariant forall pod :: pod in selected[..i] ==> pod.failure.NoFailure?
      {
        var pod := selected[i];
        assert pod in selected;
        ghost var before := subjects;
        var quarantined := NO_DIRECTION;
        var ipv6 := PodHasIPv6(input, pod);
        if ipv6 {
          quarantined := Directions(p);
        }
        ok := AddSelectedSubjects([pod], Directions(p), quarantined);
        if !ok {
          return;
        }
        assert pod in [pod];
        MarkedByOneMore(input, old(subjects), before, subjects, selected[..i], pod, p);
        AppendOne(selected, i);
      }
      TakeAll(selected);
      return true;
    }

    /** The rules of one direction of an accepted policy. */
    method AddDirection(p: NetworkPolicy, selected: seq<Pod>, w: Way) returns (ok: bool)
      requires Within() && Fits() && PodsReady(input) && Indexes(input.namespaces, namespaces)
      requires p in all && ValidPolicy(p) && SelectedBy(p, input, selected)
      modifies this`rules
      ensures ok ==> Within() && Fits() && rules == old(rules) + PolicyGrid(p, input, selected, w)
      ensures !ok ==> CannotCompile(all, input)
    {
      if Covers(Directions(p), w) {
        DirectionDone(p, input, selected, w);
        ok := AddListedRules(p, selected, w);
      } else {
        DirectionAbsent(p, input, selected, w);
        ok := true;
      }
    }

    method AddListedRules(p: NetworkPolicy, selected: seq<Pod>, w: Way) returns (ok: bool)
      requires Within() && Fits() && PodsReady(input) && Indexes(input.namespaces, namespaces)
      requires p in all && ValidPolicy(p) && SelectedBy(p, input, selected) && Covers(Directions(p), w)
      modifies this`rules
      ensures ok ==> Within() && Fits() && rules == old(rules) + DirectionGrid(p, input, selected, w, |RulesFor(p, w)|)
      ensures !ok ==> CannotCompile(all, input)
    {
      ghost var base := rules;
      ok := true;
      NoRulesYet(base, p, input, selected, w);
      var i := 0;
      while i < |RulesFor(p, w)| && ok
        invariant i <= |RulesFor(p, w)|
        invariant ok ==> Within() && Fits() && rules == base + DirectionGrid(p, input, selected, w, i)
        invariant !ok ==> CannotCompile(all, input)
      {
        ok := AddListedRule(p, selected, w, i, base);
        i := i + 1;
      }
    }

    method AddListedRule(p: NetworkPolicy, selected: seq<Pod>, w: Way, i: nat, ghost base: set<Allow>)
      returns (ok: bool)
      requires Within() && Fits() && PodsReady(input) && Indexes(input.namespaces, namespaces)
      requires p in all && ValidPolicy(p) && SelectedBy(p, input, selected) && Covers(Directions(p), w)
      requires i < |RulesFor(p, w)| && rules == base + DirectionGrid(p, input, selected, w, i)
      modifies this`rules
      ensures ok ==> Within() && Fits() && rules == base + DirectionGrid(p, input, selected, w, i + 1)
      ensures !ok ==> CannotCompile(all, input)
    {
      hide ValidPolicy, CannotCompile, PodsReady, Indexes, DirectionGrid, PodsGrid, RuleSet, Covers;
      hide CompileState.Within, CompileState.Fits;
      GridIsAsked(all, p, input, selected, w, i);
      DirectionOneMore(p, input, selected, w, i);
      ValidRulesResolve(p, w, i);
      var rule := RulesFor(p, w)[i];
      ok := AddRules(p, selected, w, rule.peers, rule.ports);
    }

    /** The policy is refused: quarantine what it selects. */
    method RejectPolicy(p: NetworkPolicy, pods: seq<Pod>, ghost done: seq<NetworkPolicy>) returns (ok: bool)
      requires Within() && Fits() && Reflects(done) && p in all && PodsReady(input)
      requires !ValidPolicy(p) && SelectedBy(p, input, pods)
      modifies this
      ensures ok ==> Within() && Fits() && Reflects(done + [p]) && rejected == old(rejected) + [p]
      ensures !ok ==> CannotCompile(all, input)
    {
      SelectedIsAsked(all, p, input, pods);
      rejected := rejected + [p];
      ok := AddSelectedSubjects(pods, Directions(p), Directions(p));
      if ok {
        MarkedByRejected(input, old(subjects), subjects, pods, p);
        TableOneMore(input, old(subjects), subjects, done, p, pods);
        RejectedRules(done, p, input, pods);
      }
    }

    method AcceptPolicy(p: NetworkPolicy, selected: seq<Pod>, ghost done: seq<NetworkPolicy>) returns (ok: bool)
      requires Within() && Fits() && Reflects(done) && p in all
      requires PodsReady(input) && Indexes(input.namespaces, namespaces)
      requires ValidPolicy(p) && SelectedBy(p, input, selected)
      modifies this`subjects, this`bypasses, this`rules
      ensures ok ==> Within() && Fits() && Reflects(done + [p])
      ensures !ok ==> CannotCompile(all, input)
    {
      ok := MarkAccepted(p, selected);
      if ok {
        TableOneMore(input, old(subjects), subjects, done, p, selected);
        ok := AddDirection(p, selected, 1);
      }
      if ok {
        ok := AddDirection(p, selected, 0);
      }
      if ok {
        AcceptedRules(done, p, input, selected, rules);
      }
    }

    method CompilePolicy(p: NetworkPolicy, ghost done: seq<NetworkPolicy>) returns (ok: bool)
      requires Within() && Fits() && Reflects(done) && p in all
      requires PodsReady(input) && Indexes(input.namespaces, namespaces)
      modifies this
      ensures ok ==> Within() && Fits() && Reflects(done + [p])
      ensures ok ==> rejected == old(rejected) + if ValidPolicy(p) then [] else [p]
      ensures !ok ==> CannotCompile(all, input)
    {
      var selected := SelectedLocalPods(p);
      var valid := ValidateNativePolicy(p);
      if valid && selected.Some? {
        ok := AcceptPolicy(p, selected.value, done);
      } else {
        var pods;
        if selected.None? {
          pods := LocalPodsInNamespace(NamespaceOf(p));
          NamespaceSelected(p, input, pods);
        } else {
          pods := selected.value;
        }
        ok := RejectPolicy(p, pods, done);
      }
    }

    /** The policy loop. The source sorts the policies first; any order does. */
    method CompileAll(policies: seq<NetworkPolicy>) returns (ok: bool)
      requires Within() && Reflects([]) && rejected == [] && policies == all
      requires PodsReady(input) && Indexes(input.namespaces, namespaces)
      requires subjects == map[] && rules == {} && bypasses == |input.nodeIPs|
      modifies this
      ensures ok ==> Within() && Fits() && Reflects(all)
      ensures ok ==> forall p :: p in rejected <==> p in policies && !ValidPolicy(p)
      ensures !ok ==> CannotCompile(all, input)
    {
      if RuleEntryCount() > MAX_RULES {
        OverflowRefuses({}, {}, bypasses);
        return false;
      }
      for i := 0 to |policies|
        invariant Within() && Fits() && Reflects(policies[..i])
        invariant forall p :: p in rejected <==> p in policies[..i] && !ValidPolicy(p)
      {
        ok := CompilePolicy(policies[i], policies[..i]);
        if !ok {
          return;
        }
        AppendOne(policies, i);
      }
      TakeAll(policies);
      return true;
    }

    /** Tables that reflect all policies and fit: nothing refuses the input. */
    lemma FitsAll()
      requires Within() && Fits() && Reflects(all)
      ensures !CannotCompile(all, input)
    {
      forall c
        ensures c in SubjectSet(all, input) <==> c in subjects.Keys
      {
        if c in SubjectSet(all, input) {
          var pod :| pod in input.pods && AnySelects(all, pod) && c in pod.cgroups;
          assert Owns(input, pod, c);
          assert EntryReflects(subjects, all, pod, c);
        }
      }
      assert SubjectSet(all, input) == subjects.Keys;
      assert |subjects| == |subjects.Keys|;
    }

    // ----- the result -----

    method ListSubjects() returns (xs: seq<Subject>)
      requires forall c :: c in subjects ==> subjects[c].subject.cgroup == c
      ensures StrictlySorted(xs, SubjectRank)
      ensures forall s: Subject :: s in xs <==> s.cgroup in subjects && s == subjects[s.cgroup].subject
    {
      var cgroups := Listing(subjects.Keys);
      xs := [];
      for i := 0 to |cgroups|
        invariant |xs| == i && forall k :: 0 <= k < i ==> xs[k] == subjects[cgroups[k]].subject
      {
        assert cgroups[i] in subjects.Keys;
        xs := xs + [subjects[cgroups[i]].subject];
      }
      ListedSubjects(subjects, cgroups, xs);
      SortKeepsElements(xs, SubjectRank);
      SortSorts(xs, SubjectRank);
      xs := SortBy(xs, SubjectRank);
    }

    method ListRules() returns (xs: seq<Rule>)
      requires forall a :: a in rules ==> InRange(a)
      ensures StrictlySorted(xs, RuleRank)
      ensures forall r :: r in xs <==> exists a :: a in rules && InRange(a) && r == RuleOf(a)
    {
      var keys := Listing(rules);
      xs := [];
      for i := 0 to |keys|
        invariant |xs| == i && forall k :: 0 <= k < i ==>
                  keys[k] in rules && InRange(keys[k]) && xs[k] == RuleOf(keys[k])
      {
        assert keys[i] in rules;
        xs := xs + [RuleOf(keys[i])];
      }
      ListedRules(rules, keys, xs);
      SortKeepsElements(xs, RuleRank);
      SortSorts(xs, RuleRank);
      xs := SortBy(xs, RuleRank);
    }

    method PolicySetOf() returns (p: PolicySet)
      requires Within() && Reflects(all)
      ensures IsCompiled(all, input, p)
    {
      EntriesAreSubjects(input, subjects, all);
      var subjectList := ListSubjects();
      forall a | a in rules
        ensures InRange(a)
      {
        RulesAreInRange(all, input, a);
      }
      var ruleList := ListRules();
      p := PolicySet(input.nodeIPs, subjectList, ruleList, []);
    }
  }

  /** CompileNativePolicies: it succeeds exactly when the snapshot is consistent and fits, and
      what it returns is the one set the policies stand for. */
  method CompileNativePolicies(policies: seq<NetworkPolicy>, raw: ResolutionInput)
    returns (r: Option<(PolicySet, seq<NetworkPolicy>)>)
    ensures r.Some? <==> GoodInput(raw) && !CannotCompile(policies, Normalize(raw))
    ensures r.Some? ==> IsCompiled(policies, Normalize(raw), r.value.0) && Valid(r.value.0)
    ensures r.Some? ==> forall p :: p in r.value.1 <==> p in policies && !ValidPolicy(p)
  {
    var normalized := NormalizeResolutionInput(raw);
    if normalized.None? {
      return None;
    }
    NormalizedIsReady(raw);
    r := CompileReady(policies, normalized.value.0, normalized.value.1);
  }

  method CompileReady(policies: seq<NetworkPolicy>, n: ResolutionInput, namespaces: map<string, Labels>)
    returns (r: Option<(PolicySet, seq<NetworkPolicy>)>)
    requires Ready(n) && Indexes(n.namespaces, namespaces)
    ensures r.Some? <==> !CannotCompile(policies, n)
    ensures r.Some? ==> IsCompiled(policies, n, r.value.0) && Valid(r.value.0)
    ensures r.Some? ==> forall p :: p in r.value.1 <==> p in policies && !ValidPolicy(p)
  {
    ReadyPods(n);
    var state := new CompileState(n, namespaces, policies);
    var ok := state.CompileAll(policies);
    if !ok {
      return None;
    }
    var p := state.PolicySetOf();
    Recount(policies, n, p);
    state.FitsAll();
    CompiledIsValid(policies, n, p);
    if !Valid(p) {
      assert false;  // the final check never fails
    }
    return Some((p, state.rejected));
  }
}
