/**
 Packets that decide while they are registered, and the connection table they share:
 one table run for all of them, in the order of their decisions, with evictions in
 between.
*/
module Traffic {
  import opened PolicySets
  import opened EngineKeys
  import opened SlotVerdict
  import opened PacketProgram
  import opened DurableKernel
  import opened AgentHistory
  import opened SystemRuns
  import T = Connections

  /** One decision of a packet, made while the system is in a certain state; or an eviction. */
  datatype Act =
    | Decision(at: nat, id: P.ReaderId, cgroup: Cgroup, way: Way, packet: Packet, now: U64)
    | Evict(keys: set<T.ConnKey>)

  /** The packet holds a validated registration at that moment. */
  ghost predicate Holds(xs: seq<System>, at: nat, id: P.ReaderId) {
    at < |xs| && id in xs[at].state.readers && xs[at].state.readers[id].phase.Holding?
  }

  /** Its slot is one of the two, its epoch fits a word, and the kernel is in a moment of its history. */
  ghost predicate InPlace(h: seq<Moment>, xs: seq<System>, at: nat, id: P.ReaderId) {
    && Holds(xs, at, id) && xs[at].at < |h|
    && xs[at].state.readers[id].phase.slot < 2 && xs[at].state.readers[id].phase.epoch < EPOCHS
  }

  /** Only packets with a registration decide, in the order of the list. */
  ghost predicate InOrder(xs: seq<System>, ds: seq<Act>) {
    && (forall k :: 0 <= k < |ds| && ds[k].Decision? ==> Holds(xs, ds[k].at, ds[k].id))
    && (forall k, l :: 0 <= k < l < |ds| && ds[k].Decision? && ds[l].Decision? ==> ds[k].at <= ds[l].at)
  }

  /** The step of the connection table, as the packet program takes it. */
  ghost function StepOf(h: seq<Moment>, xs: seq<System>, d: Act, t: T.Table): T.Step {
    match d
    case Evict(keys) => T.Eviction(keys)
    case Decision(at, id, c, w, packet, now) =>
      if InPlace(h, xs, at, id) then
        var r := xs[at].state.readers[id].phase;
        TableStep(h[xs[at].at].kernel.maps, r.slot, r.epoch, c, w, packet, now, t)
      else T.Eviction({})
  }

  ghost function TableRun(h: seq<Moment>, xs: seq<System>, ds: seq<Act>): (run: seq<T.Step>)
    ensures |run| == |ds|
  {
    if ds == [] then []
    else
      var before := TableRun(h, xs, ds[..|ds| - 1]);
      before + [StepOf(h, xs, ds[|ds| - 1], T.Reached(before))]
  }

  lemma {:induction false} TableRunIs(h: seq<Moment>, xs: seq<System>, ds: seq<Act>, n: nat)
    requires n <= |ds|
    ensures TableRun(h, xs, ds)[..n] == TableRun(h, xs, ds[..n])
    ensures n < |ds| ==> TableRun(h, xs, ds)[n] == StepOf(h, xs, ds[n], T.Reached(TableRun(h, xs, ds[..n])))
  {
    if n == |ds| {
      assert ds[..n] == ds;
    } else if n < |ds| - 1 {
      TableRunIs(h, xs, ds[..|ds| - 1], n);
      assert ds[..|ds| - 1][..n] == ds[..n];
    }
  }

  /** The table that the n-th act finds. */
  ghost function TableAt(h: seq<Moment>, xs: seq<System>, ds: seq<Act>, n: nat): T.Table
    requires n <= |ds|
  {
    T.Reached(TableRun(h, xs, ds[..n]))
  }

  ghost function VerdictAt(h: seq<Moment>, xs: seq<System>, ds: seq<Act>, n: nat): Verdict
    requires n < |ds| && ds[n].Decision? && InPlace(h, xs, ds[n].at, ds[n].id)
  {
    var d := ds[n];
    var r := xs[d.at].state.readers[d.id].phase;
    VerdictOn(h[xs[d.at].at].kernel.maps, r.slot, r.epoch, d.cgroup, d.way, d.packet, d.now, TableAt(h, xs, ds, n))
  }

  ghost function KeyAt(xs: seq<System>, d: Act): T.ConnKey
    requires d.Decision? && Holds(xs, d.at, d.id) && xs[d.at].state.readers[d.id].phase.epoch < EPOCHS
  {
    T.KeyFor(xs[d.at].state.readers[d.id].phase.epoch, d.cgroup, d.way, d.packet)
  }

  /** A packet that reaches the check is allowed by state exactly if the table admits it. */
  lemma ConnectedMeansAdmitted(maps: Maps, slot: U32, c: Cgroup, w: Way, packet: Packet, connected: bool)
    requires slot < 2
    ensures SlotDecision(maps, slot, c, w, packet, connected) == Decided(true, Connected) ==> connected
    ensures !connected && RuleMatches(maps, slot, c, w, packet)
            && Reaches(SlotDecision(maps, slot, c, w, packet, connected)) ==>
              SlotDecision(maps, slot, c, w, packet, connected) == Decided(true, RuleAllowed)
  {
  }

  /** An act that is about a tuple is a decision about it, and the event is its packet. */
  lemma AboutADecision(h: seq<Moment>, xs: seq<System>, ds: seq<Act>, n: nat)
    requires n < |ds| && TableRun(h, xs, ds)[n].Arrival?
    ensures ds[n].Decision? && InPlace(h, xs, ds[n].at, ds[n].id)
    ensures TableRun(h, xs, ds)[n].event.key == KeyAt(xs, ds[n])
    ensures T.Outcomes(TableRun(h, xs, ds), n).ByRule? ==> VerdictAt(h, xs, ds, n) == Decided(true, RuleAllowed)
  {
    TableRunIs(h, xs, ds, n);
    var d := ds[n];
    assert InPlace(h, xs, d.at, d.id);
    var r := xs[d.at].state.readers[d.id].phase;
    var maps, key := h[xs[d.at].at].kernel.maps, KeyAt(xs, d);
    ConnectedMeansAdmitted(maps, r.slot, d.cgroup, d.way, d.packet,
                           T.Admits(TableAt(h, xs, ds, n), key, d.now, d.packet.flags));
  }

  lemma StateDecision(h: seq<Moment>, xs: seq<System>, ds: seq<Act>, n: nat)
    requires n < |ds| && ds[n].Decision? && InPlace(h, xs, ds[n].at, ds[n].id)
    requires VerdictAt(h, xs, ds, n) == Decided(true, Connected)
    ensures TableRun(h, xs, ds)[n].Arrival? && TableRun(h, xs, ds)[n].event.key == KeyAt(xs, ds[n])
    ensures T.Outcomes(TableRun(h, xs, ds), n).ByState?
  {
    TableRunIs(h, xs, ds, n);
    var d := ds[n];
    var r := xs[d.at].state.readers[d.id].phase;
    ConnectedMeansAdmitted(h[xs[d.at].at].kernel.maps, r.slot, d.cgroup, d.way, d.packet,
                           T.Admits(TableAt(h, xs, ds, n), KeyAt(xs, d), d.now, d.packet.flags));
  }

  /** Whatever state admits goes back to an earlier decision by a rule, about the same tuple and
      cgroup and at the same epoch, with no allowed reset in between. */
  lemma StateGoesBackToARule(h: seq<Moment>, xs: seq<System>, ds: seq<Act>, n: nat) returns (m: nat)
    requires n < |ds| && ds[n].Decision? && InPlace(h, xs, ds[n].at, ds[n].id)
    requires VerdictAt(h, xs, ds, n) == Decided(true, Connected)
    ensures m < n && ds[m].Decision? && InPlace(h, xs, ds[m].at, ds[m].id)
    ensures VerdictAt(h, xs, ds, m) == Decided(true, RuleAllowed)
    ensures T.StateKey(KeyAt(xs, ds[m])) == T.StateKey(KeyAt(xs, ds[n])) && ds[m].cgroup == ds[n].cgroup
    ensures xs[ds[m].at].state.readers[ds[m].id].phase.epoch == xs[ds[n].at].state.readers[ds[n].id].phase.epoch
    ensures T.Vouches(TableRun(h, xs, ds), m, n, T.StateKey(KeyAt(xs, ds[n])))
  {
    var run := TableRun(h, xs, ds);
    StateDecision(h, xs, ds, n);
    T.StateOnlyContinues(run, n);
    var i :| 0 <= i < n && T.Vouches(run, i, n, T.StateKey(run[n].event.key))
             && run[i].event.key.epoch == run[n].event.key.epoch && run[i].event.key.cgroup == run[n].event.key.cgroup;
    m := i;
    AboutADecision(h, xs, ds, m);
  }

  // ----- where packets stand -----

  /** Every packet with a registration is in place. */
  lemma HoldersAreInPlace(eps: seq<Episode>, xs: seq<System>, labels: seq<SystemLabel>, at: nat, id: P.ReaderId)
    requires Life(eps) && SystemRun(History(eps), xs, labels) && Holds(xs, at, id)
    ensures InPlace(History(eps), xs, at, id)
    ensures var r, k := xs[at].state.readers[id].phase, History(eps)[xs[at].at].kernel;
            && Sound(k) && r.slot == r.epoch % 2
            && r.epoch in xs[at].state.committed && xs[at].state.committed[r.epoch] == RowsOf(k.maps, r.slot)
  {
    hide Life, SystemRun, P.Inv, TraceOk, Sound;
    var h := History(eps);
    HistoryIsTrace(eps);
    SystemFollows(h, xs, labels, at);
    MomentIsSound(h, xs[at].at);
    SystemKeeps(h, xs, labels, at);
    HoldersSeeTheirEpoch(xs[at].state, id);
    EpochsFit(xs[at].state, h[xs[at].at], xs[at].state.readers[id].phase.epoch);
  }

  lemma EpochsFit(s: P.State<Row>, m: Moment, e: nat)
    requires P.Inv(s) && s.shared == View(m) && Sound(m.kernel) && e in s.committed
    ensures e < EPOCHS
  {
    assert CommittedOk(CommittedOf(m.kernel));
  }

  lemma {:induction false} MarksGrow(marks: seq<nat>, i: nat, j: nat)
    requires forall k :: 0 <= k < |marks| - 1 ==> marks[k] <= marks[k + 1]
    requires i <= j < |marks|
    ensures marks[i] <= marks[j]
  {
    if i < j {
      MarksGrow(marks, i, j - 1);
    }
  }

  /** What an epoch has published stays, through everything that happens to the system. */
  lemma PublishedStays(eps: seq<Episode>, xs: seq<System>, labels: seq<SystemLabel>, i: nat, j: nat, e: nat)
    requires Life(eps) && SystemRun(History(eps), xs, labels) && i <= j < |xs| && e in xs[i].state.committed
    ensures e in xs[j].state.committed && xs[j].state.committed[e] == xs[i].state.committed[e]
  {
    hide Life, SystemRun, P.Run;
    HistoryIsTrace(eps);
    var states, acts, marks := SystemRunIsRun(History(eps), xs, labels, j);
    MarksGrow(marks, i, j);
    P.HistoryGrows(states, acts, marks[i], marks[j]);
  }
}
