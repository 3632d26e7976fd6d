/**
 From policies to packets: the compiler, the encoding, the engine with its crashes
 and restarts, the commit protocol and the packet program together.
*/
module EndToEnd {
  import opened PolicySets
  import N = NativePolicies
  import C = CompilerMeaning
  import E = NativeEngine
  import M = PolicyMeaning
  import opened EngineKeys
  import opened SlotVerdict
  import opened DurableKernel
  import P = SlotProtocol
  import opened AgentHistory
  import opened SystemRuns
  import K = Connections
  import T = Traffic

  /** The slot decides every packet of every workload as the policies do that the set was
      compiled from. */
  ghost predicate DecidesAs(maps: Maps, slot: nat, p: PolicySet)
    requires slot < 2
  {
    forall ps: seq<N.NetworkPolicy>, raw: N.ResolutionInput, pod: N.Pod, c: Cgroup, w: Way, packet: Packet,
        connected: bool ::
      M.GoodSnapshot(raw) && E.IsCandidate(ps, raw, p) && C.PodOf(raw, pod, c) ==>
        SlotDecision(maps, slot, c, w, packet, connected) == M.Decision(ps, raw, pod, w == 0, packet, connected)
  }

  /** The slot classifies exactly the local workloads of the snapshot that the set was compiled from. */
  ghost predicate GuardsAs(maps: Maps, slot: nat, p: PolicySet)
    requires slot < 2
  {
    forall ps: seq<N.NetworkPolicy>, raw: N.ResolutionInput, c: Cgroup :: E.IsCandidate(ps, raw, p) ==>
      (ClassKey(c, slot) in maps <==> M.RunsHere(raw, c))
  }

  /** The kernel's maps while the system is in its i-th state. */
  ghost function MapsAt(eps: seq<Episode>, xs: seq<System>, i: nat): Maps
    requires i < |xs| && xs[i].at < |History(eps)|
  {
    History(eps)[xs[i].at].kernel.maps
  }

  lemma SoundRules(k: Kernel)
    requires Sound(k)
    ensures RulesWellFormed(k.maps)
  {
    forall key | key in k.maps && key.RuleKey?
      ensures 96 <= key.prefixLength <= 128
    {
      assert ShapeOk(key, k.maps[key]);
    }
  }

  lemma HeldSetDecides(maps: Maps, slot: nat, p: PolicySet)
    requires slot < 2 && Valid(p) && IsImage(RowsOf(maps, slot), slot, p) && RulesWellFormed(maps)
    ensures DecidesAs(maps, slot, p) && GuardsAs(maps, slot, p)
  {
    ImageIsHolds(maps, slot, p);
    forall ps: seq<N.NetworkPolicy>, raw: N.ResolutionInput, pod: N.Pod, c: Cgroup, w: Way, packet: Packet,
        connected: bool |
      M.GoodSnapshot(raw) && E.IsCandidate(ps, raw, p) && C.PodOf(raw, pod, c)
      ensures SlotDecision(maps, slot, c, w, packet, connected) == M.Decision(ps, raw, pod, w == 0, packet, connected)
    {
      C.CompilationPreservesMeaning(ps, raw, p, maps, slot, c, w, packet, connected);
    }
    forall ps: seq<N.NetworkPolicy>, raw: N.ResolutionInput, c: Cgroup | E.IsCandidate(ps, raw, p)
      ensures ClassKey(c, slot) in maps <==> M.RunsHere(raw, c)
    {
      C.GuardMeansWorkload(ps, raw, p, maps, slot, c);
    }
  }

  lemma KeysAreRows(maps: Maps, slot: nat)
    ensures forall k :: k in maps && SlotOf(k) == slot ==> (k, maps[k]) in RowsOf(maps, slot)
  {
  }

  lemma EmptySlotPasses(maps: Maps, slot: nat, c: Cgroup, w: Way, packet: Packet, connected: bool)
    requires slot < 2 && RowsOf(maps, slot) == {}
    ensures SlotDecision(maps, slot, c, w, packet, connected) == Pass
  {
    KeysAreRows(maps, slot);
  }

  /** Over the whole life of a node, through calls that succeed and calls that fail, crashes at any
      moment and restarts, and with any packets on any CPUs in between: a packet that has validated
      its registration is decided, for as long as it is registered, by the policies of one set that
      Apply was given, the one its epoch published; before the first commit it passes. */
  lemma ValidatedPacketsObeyTheirEpoch(eps: seq<Episode>, xs: seq<System>, labels: seq<SystemLabel>, i: nat,
                                       id: P.ReaderId)
    requires Life(eps) && SystemRun(History(eps), xs, labels) && i < |xs|
    requires id in xs[i].state.readers && xs[i].state.readers[id].phase.Holding?
    ensures xs[i].at < |History(eps)|
    ensures var r, maps := xs[i].state.readers[id].phase, MapsAt(eps, xs, i);
            && r.slot < 2
            && (r.epoch == 0 ==> forall c, w, packet, connected ::
                 SlotDecision(maps, r.slot, c, w, packet, connected) == Pass)
            && (r.epoch > 0 ==> exists j :: 0 <= j < |eps| && DecidesAs(maps, r.slot, eps[j].desired))
  {
    ReadersSeeGivenSets(eps, xs, labels, i, id);
    var r, maps := xs[i].state.readers[id].phase, MapsAt(eps, xs, i);
    if r.epoch == 0 {
      forall c, w, packet, connected
        ensures SlotDecision(maps, r.slot, c, w, packet, connected) == Pass
      {
        EmptySlotPasses(maps, r.slot, c, w, packet, connected);
      }
    } else {
      var j :| IsGiven(Committed(r.slot, r.epoch, RowsOf(maps, r.slot)), eps, j);
      SoundRules(History(eps)[xs[i].at].kernel);
      HeldSetDecides(maps, r.slot, eps[j].desired);
    }
  }

  /** The parent guard, registered on its own, lets through exactly the local workloads of the
      snapshot that the set of its epoch was compiled from, and nobody before the first commit. */
  lemma GuardObeysItsEpoch(eps: seq<Episode>, xs: seq<System>, labels: seq<SystemLabel>, i: nat, id: P.ReaderId)
    requires Life(eps) && SystemRun(History(eps), xs, labels) && i < |xs|
    requires id in xs[i].state.readers && xs[i].state.readers[id].phase.Holding?
    ensures xs[i].at < |History(eps)|
    ensures var r, maps := xs[i].state.readers[id].phase, MapsAt(eps, xs, i);
            && r.slot < 2
            && (r.epoch == 0 ==> forall c :: ClassKey(c, r.slot) !in maps)
            && (r.epoch > 0 ==> exists j :: 0 <= j < |eps| && GuardsAs(maps, r.slot, eps[j].desired))
  {
    ReadersSeeGivenSets(eps, xs, labels, i, id);
    var r, maps := xs[i].state.readers[id].phase, MapsAt(eps, xs, i);
    if r.epoch == 0 {
      KeysAreRows(maps, r.slot);
    } else {
      var j :| IsGiven(Committed(r.slot, r.epoch, RowsOf(maps, r.slot)), eps, j);
      SoundRules(History(eps)[xs[i].at].kernel);
      HeldSetDecides(maps, r.slot, eps[j].desired);
    }
  }

  /** The source policies behind the set allow the packet by a rule, in its direction. */
  ghost predicate AllowsByRule(p: PolicySet, c: Cgroup, w: Way, packet: Packet) {
    forall ps: seq<N.NetworkPolicy>, raw: N.ResolutionInput, pod: N.Pod ::
      M.GoodSnapshot(raw) && E.IsCandidate(ps, raw, p) && C.PodOf(raw, pod, c) ==>
        M.Decision(ps, raw, pod, w == 0, packet, false) == Decided(true, RuleAllowed)
  }

  lemma RuleVerdictAllows(maps: Maps, slot: nat, p: PolicySet, c: Cgroup, w: Way, packet: Packet, connected: bool)
    requires slot < 2 && DecidesAs(maps, slot, p)
    requires SlotDecision(maps, slot, c, w, packet, connected) == Decided(true, RuleAllowed)
    ensures AllowsByRule(p, c, w, packet)
  {
    assert SlotDecision(maps, slot, c, w, packet, false) == Decided(true, RuleAllowed);
    forall ps: seq<N.NetworkPolicy>, raw: N.ResolutionInput, pod: N.Pod |
      M.GoodSnapshot(raw) && E.IsCandidate(ps, raw, p) && C.PodOf(raw, pod, c)
      ensures M.Decision(ps, raw, pod, w == 0, packet, false) == Decided(true, RuleAllowed)
    {
      assert SlotDecision(maps, slot, c, w, packet, false) == M.Decision(ps, raw, pod, w == 0, packet, false);
    }
  }

  /** The set that Apply was given for the epoch a packet holds; it decides the packet. */
  ghost predicate Governs(eps: seq<Episode>, xs: seq<System>, at: nat, id: P.ReaderId, j: nat)
    requires T.InPlace(History(eps), xs, at, id) && j < |eps|
  {
    var r, maps := xs[at].state.readers[id].phase, MapsAt(eps, xs, at);
    Valid(eps[j].desired) && IsImage(RowsOf(maps, r.slot), r.slot, eps[j].desired)
        && DecidesAs(maps, r.slot, eps[j].desired)
  }

  lemma SameSetGoverns(eps: seq<Episode>, xs: seq<System>, labels: seq<SystemLabel>, at: nat, id: P.ReaderId, j: nat,
                       rows: set<Row>)
    requires Life(eps) && SystemRun(History(eps), xs, labels) && T.Holds(xs, at, id) && j < |eps|
    requires var e := xs[at].state.readers[id].phase.epoch;
             && e in xs[at].state.committed && xs[at].state.committed[e] == rows
             && IsGiven(Committed(e % 2, e, rows), eps, j)
    ensures T.InPlace(History(eps), xs, at, id) && Governs(eps, xs, at, id, j)
  {
    hide DecidesAs, GuardsAs;
    T.HoldersAreInPlace(eps, xs, labels, at, id);
    SoundRules(History(eps)[xs[at].at].kernel);
    HeldSetDecides(MapsAt(eps, xs, at), xs[at].state.readers[id].phase.slot, eps[j].desired);
  }

  /** A packet that state admits holds an epoch that a call has published. */
  lemma GivenFor(eps: seq<Episode>, xs: seq<System>, labels: seq<SystemLabel>, ds: seq<T.Act>, n: nat) returns (j: nat)
    requires Life(eps) && SystemRun(History(eps), xs, labels)
    requires n < |ds| && ds[n].Decision? && T.InPlace(History(eps), xs, ds[n].at, ds[n].id)
    requires T.VerdictAt(History(eps), xs, ds, n) == Decided(true, Connected)
    ensures var e := xs[ds[n].at].state.readers[ds[n].id].phase.epoch;
            && j < |eps| && e in xs[ds[n].at].state.committed
            && IsGiven(Committed(e % 2, e, xs[ds[n].at].state.committed[e]), eps, j)
  {
    var d := ds[n];
    var r, maps := xs[d.at].state.readers[d.id].phase, MapsAt(eps, xs, d.at);
    T.HoldersAreInPlace(eps, xs, labels, d.at, d.id);
    PublishedWasGiven(eps, xs, labels, d.at, r.epoch);
    var c := Committed(r.epoch % 2, r.epoch, xs[d.at].state.committed[r.epoch]);
    if r.epoch == 0 {
      forall connected
        ensures SlotDecision(maps, r.slot, d.cgroup, d.way, d.packet, connected) == Pass
      {
        EmptySlotPasses(maps, r.slot, d.cgroup, d.way, d.packet, connected);
      }
      assert false;
    }
    var k :| IsGiven(c, eps, k);
    j := k;
  }

  lemma RuleDecisionAllows(eps: seq<Episode>, xs: seq<System>, ds: seq<T.Act>, m: nat, j: nat)
    requires m < |ds| && ds[m].Decision? && T.InPlace(History(eps), xs, ds[m].at, ds[m].id)
    requires T.VerdictAt(History(eps), xs, ds, m) == Decided(true, RuleAllowed)
    requires j < |eps| && Governs(eps, xs, ds[m].at, ds[m].id, j)
    ensures AllowsByRule(eps[j].desired, ds[m].cgroup, ds[m].way, ds[m].packet)
  {
    hide DecidesAs, AllowsByRule;
    var d := ds[m];
    var r, maps := xs[d.at].state.readers[d.id].phase, MapsAt(eps, xs, d.at);
    var key := T.KeyAt(xs, d);
    RuleVerdictAllows(maps, r.slot, eps[j].desired, d.cgroup, d.way, d.packet,
                      K.Admits(T.TableAt(History(eps), xs, ds, m), key, d.now, d.packet.flags));
  }

  /** Where connection state gets its right from, over the whole life of a node: a packet that state
      admits has an earlier packet of the same epoch, cgroup and tuple that the source policies of
      the very set this epoch published allow by a rule, with no allowed reset in between. */
  lemma StateObeysThePolicies(eps: seq<Episode>, xs: seq<System>, labels: seq<SystemLabel>, ds: seq<T.Act>, n: nat)
    returns (m: nat, j: nat)
    requires Life(eps) && SystemRun(History(eps), xs, labels) && T.InOrder(xs, ds)
    requires n < |ds| && ds[n].Decision? && T.InPlace(History(eps), xs, ds[n].at, ds[n].id)
    requires T.VerdictAt(History(eps), xs, ds, n) == Decided(true, Connected)
    ensures m < n && ds[m].Decision? && T.InPlace(History(eps), xs, ds[m].at, ds[m].id)
    ensures xs[ds[m].at].state.readers[ds[m].id].phase.epoch == xs[ds[n].at].state.readers[ds[n].id].phase.epoch
    ensures K.StateKey(T.KeyAt(xs, ds[m])) == K.StateKey(T.KeyAt(xs, ds[n])) && ds[m].cgroup == ds[n].cgroup
    ensures K.Vouches(T.TableRun(History(eps), xs, ds), m, n, K.StateKey(T.KeyAt(xs, ds[n])))
    ensures T.VerdictAt(History(eps), xs, ds, m) == Decided(true, RuleAllowed)
    ensures j < |eps| && Governs(eps, xs, ds[n].at, ds[n].id, j) && Governs(eps, xs, ds[m].at, ds[m].id, j)
    ensures AllowsByRule(eps[j].desired, ds[m].cgroup, ds[m].way, ds[m].packet)
  {
    hide DecidesAs, GuardsAs, Life, SystemRun, AllowsByRule, K.Vouches;
    var h := History(eps);
    m := T.StateGoesBackToARule(h, xs, ds, n);
    j := GivenFor(eps, xs, labels, ds, n);
    var e := xs[ds[n].at].state.readers[ds[n].id].phase.epoch;
    var rows := xs[ds[n].at].state.committed[e];
    SameSetGoverns(eps, xs, labels, ds[n].at, ds[n].id, j, rows);
    T.HoldersAreInPlace(eps, xs, labels, ds[m].at, ds[m].id);
    T.PublishedStays(eps, xs, labels, ds[m].at, ds[n].at, e);
    SameSetGoverns(eps, xs, labels, ds[m].at, ds[m].id, j, rows);
    RuleDecisionAllows(eps, xs, ds, m, j);
  }
}
