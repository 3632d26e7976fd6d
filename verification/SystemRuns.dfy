/**
 The agent and the packets together: the recorded steps of the agent, interleaved
 in every way with the steps of packets and with the reads of the counter scan.
 Such runs are runs of the commit protocol, so its guarantees hold for them, with
 the sets that the agent's calls were given.
*/
module SystemRuns {
  import opened EngineKeys
  import opened SlotProtocol
  import opened DurableKernel
  import opened AgentHistory

  /** How far the agent's history has got, and everything else: readers, counters, scan. */
  datatype System = System(at: nat, state: State<Row>)

  datatype SystemLabel = AgentStep | Other(move: Label<Row>)

  /** The effect of one recorded step. */
  ghost function AfterAgent(s: State<Row>, m: Moment, n: Moment): State<Row> {
    s.(
      shared := View(n),
      scanned := if m.quiet && !n.quiet then {} else s.scanned,
      committed := if n.kernel.pointer == m.kernel.pointer then s.committed
                   else s.committed[n.kernel.Epoch() := RowsOf(n.kernel.maps, n.kernel.pointer)])
  }

  /** The agent takes a slot for quiet only when the scan has seen every CPU at zero; whatever
      else it does is up to its history. Everything else is up to the packets. */
  ghost predicate SystemNext(h: seq<Moment>, x: System, y: System, act: SystemLabel) {
    match act
    case AgentStep =>
      && y.at == x.at + 1 < |h|
      && (!h[x.at].quiet && h[y.at].quiet ==> x.state.cpus <= x.state.scanned)
      && y.state == AfterAgent(x.state, h[x.at], h[y.at])
    case Other(move) => y.at == x.at && !move.Write? && Next(x.state, y.state, move)
  }

  ghost predicate SystemRun(h: seq<Moment>, xs: seq<System>, labels: seq<SystemLabel>) {
    && |xs| == |labels| + 1 && |h| > 0
    && xs[0].at == 0 && Init(xs[0].state) && xs[0].state.shared == View(h[0])
    && forall i :: 0 <= i < |labels| ==> SystemNext(h, xs[i], xs[i + 1], labels[i])
  }

  /** The initialized maps, unused so far, are where the protocol starts. */
  lemma FreshKernelIsInitial(s: State<Row>)
    requires s.shared == View(Moment(FRESH_KERNEL, false))
    requires s.counters == Pair(map c | c in s.cpus :: 0, map c | c in s.cpus :: 0)
    requires s.scanned == {} && s.readers == map[] && s.committed == map[0 := {}]
    ensures Init(s)
  {
    assert RowsOf(FRESH_KERNEL.maps, 0) == {} && RowsOf(FRESH_KERNEL.maps, 1) == {};
  }

  /** Every step in the history of the durable engine, of whatever call, also across a restart, is
      a step the protocol allows its writer, or changes nothing that packets can see. */
  lemma EngineStepsAreWriterSteps(h: seq<Moment>, i: nat, s: State<Row>)
    requires TraceOk(h) && i + 1 < |h| && s.shared == View(h[i])
    requires !h[i].quiet && h[i + 1].quiet ==> s.cpus <= s.scanned
    ensures var s' := AfterAgent(s, h[i], h[i + 1]);
            s' == s || exists w :: Next(s, s', Write(w))
  {
    var s' := AfterAgent(s, h[i], h[i + 1]);
    assert Legal(h[i], h[i + 1]);
    if View(h[i]) != View(h[i + 1]) {
      var w :| WriterMove(View(h[i]), View(h[i + 1]), w);
      assert Next(s, s', Write(w));
    }
  }

  lemma {:induction false} SystemFollows(h: seq<Moment>, xs: seq<System>, labels: seq<SystemLabel>, i: nat)
    requires SystemRun(h, xs, labels) && i < |xs|
    ensures xs[i].at < |h| && xs[i].state.shared == View(h[xs[i].at])
  {
    if i > 0 {
      SystemFollows(h, xs, labels, i - 1);
      assert SystemNext(h, xs[i - 1], xs[i], labels[i - 1]);
    }
  }

  /** Every run of the system is a run of the protocol: state marks[i] of that run is state i of
      this one, and nothing is skipped. */
  lemma {:induction false} SystemRunIsRun(h: seq<Moment>, xs: seq<System>, labels: seq<SystemLabel>, n: nat)
    returns (states: seq<State<Row>>, acts: seq<Label<Row>>, marks: seq<nat>)
    requires TraceOk(h) && SystemRun(h, xs, labels) && n < |xs|
    ensures Run(states, acts) && |marks| == n + 1 && marks[n] == |acts|
    ensures forall i :: 0 <= i <= n ==> marks[i] < |states| && states[marks[i]] == xs[i].state
    ensures forall i :: 0 <= i < n ==> marks[i] <= marks[i + 1] <= marks[i] + 1
  {
    if n == 0 {
      return [xs[0].state], [], [0];
    }
    states, acts, marks := SystemRunIsRun(h, xs, labels, n - 1);
    var step := StepOf(h, xs, labels, n - 1);
    assert |states| == |acts| + 1;
    hide Run, Next, TraceOk, SystemNext;
    if step != [] {
      RunGrows(states, acts, xs[n].state, step[0]);
      states, acts := states + [xs[n].state], acts + [step[0]];
    }
    marks := marks + [|acts|];
  }

  /** The protocol's label of a system step; none where the protocol does not move. */
  lemma StepOf(h: seq<Moment>, xs: seq<System>, labels: seq<SystemLabel>, i: nat) returns (step: seq<Label<Row>>)
    requires TraceOk(h) && SystemRun(h, xs, labels) && i < |labels|
    ensures |step| <= 1
    ensures if step == [] then xs[i + 1].state == xs[i].state else Next(xs[i].state, xs[i + 1].state, step[0])
  {
    var x, y := xs[i], xs[i + 1];
    assert SystemNext(h, x, y, labels[i]);
    SystemFollows(h, xs, labels, i);
    if labels[i].Other? {
      step := [labels[i].move];
    } else {
      EngineStepsAreWriterSteps(h, x.at, x.state);
      if y.state == x.state {
        step := [];
      } else {
        var w :| Next(x.state, y.state, Write(w));
        step := [Write(w)];
      }
    }
  }

  lemma RunGrows(states: seq<State<Row>>, acts: seq<Label<Row>>, s: State<Row>, act: Label<Row>)
    requires Run(states, acts) && Next(states[|acts|], s, act)
    ensures Run(states + [s], acts + [act])
  {
    var ss, aa := states + [s], acts + [act];
    forall i | 0 <= i < |aa|
      ensures Next(ss[i], ss[i + 1], aa[i])
    {
      if i < |acts| {
        assert ss[i] == states[i] && ss[i + 1] == states[i + 1] && aa[i] == acts[i];
      }
    }
  }

  /** What holds in every run of the protocol holds in every run of the system. */
  lemma SystemKeeps(h: seq<Moment>, xs: seq<System>, labels: seq<SystemLabel>, i: nat)
    requires TraceOk(h) && SystemRun(h, xs, labels) && i < |xs|
    ensures Inv(xs[i].state)
  {
    var states, acts, marks := SystemRunIsRun(h, xs, labels, i);
    RunKeeps(states, acts, marks[i]);
  }

  /** Every set ever published, at whatever epoch, is one that a call of Apply was given. */
  lemma {:induction false} PublishedWasGiven(eps: seq<Episode>, xs: seq<System>, labels: seq<SystemLabel>, i: nat,
                                             e: nat)
    requires Life(eps) && SystemRun(History(eps), xs, labels) && i < |xs| && e in xs[i].state.committed
    ensures WasGiven(Committed(e % 2, e, xs[i].state.committed[e]), eps)
  {
    if i == 0 {
      return;
    }
    hide Life, History, WasGiven;
    var h, x, y := History(eps), xs[i - 1], xs[i];
    assert SystemNext(h, x, y, labels[i - 1]);
    if labels[i - 1].AgentStep? && h[y.at].kernel.pointer != h[x.at].kernel.pointer && e == h[y.at].kernel.Epoch() {
      NowWasGiven(eps, y.at);
    } else {
      OldCommitStays(h, x, y, labels[i - 1], e);
      PublishedWasGiven(eps, xs, labels, i - 1, e);
    }
  }

  lemma NowWasGiven(eps: seq<Episode>, at: nat)
    requires Life(eps) && at < |History(eps)|
    ensures var k := History(eps)[at].kernel;
            WasGiven(Committed(k.Epoch() % 2, k.Epoch(), RowsOf(k.maps, k.pointer)), eps)
  {
    CommittedWasGiven(eps, at);
    HistoryIsTrace(eps);
    assert CommittedOk(CommittedOf(History(eps)[at].kernel));
  }

  lemma OldCommitStays(h: seq<Moment>, x: System, y: System, act: SystemLabel, e: nat)
    requires SystemNext(h, x, y, act) && e in y.state.committed
    requires !(act.AgentStep? && h[y.at].kernel.pointer != h[x.at].kernel.pointer && e == h[y.at].kernel.Epoch())
    ensures e in x.state.committed && x.state.committed[e] == y.state.committed[e]
  {
  }

  /** A validated packet, in the middle of whatever the agent is doing: its slot holds, completely
      and exactly, the set that some call was given for the epoch it carries; or nothing, if that
      is the epoch of the initialized maps. */
  lemma ReadersSeeGivenSets(eps: seq<Episode>, xs: seq<System>, labels: seq<SystemLabel>, i: nat, id: ReaderId)
    requires Life(eps) && SystemRun(History(eps), xs, labels) && i < |xs|
    requires id in xs[i].state.readers && xs[i].state.readers[id].phase.Holding?
    ensures xs[i].at < |History(eps)| && Sound(History(eps)[xs[i].at].kernel)
    ensures var r := xs[i].state.readers[id].phase;
            r.slot < 2 && WasGiven(Committed(r.slot, r.epoch, RowsOf(History(eps)[xs[i].at].kernel.maps, r.slot)), eps)
  {
    hide WasGiven, TraceOk, Inv, Life, SystemRun, Sound;
    SystemFollows(History(eps), xs, labels, i);
    HistoryIsTrace(eps);
    MomentIsSound(History(eps), xs[i].at);
    SystemKeeps(History(eps), xs, labels, i);
    HoldersSeeTheirEpoch(xs[i].state, id);
    PublishedWasGiven(eps, xs, labels, i, xs[i].state.readers[id].phase.epoch);
  }

  lemma MomentIsSound(h: seq<Moment>, i: nat)
    requires TraceOk(h) && i < |h|
    ensures Sound(h[i].kernel)
  {
  }

  lemma HoldersSeeTheirEpoch(s: State<Row>, id: ReaderId)
    requires Inv(s) && id in s.readers && s.readers[id].phase.Holding?
    ensures var r := s.readers[id].phase;
            && r.slot < 2 && r.slot == r.epoch % 2
            && r.epoch in s.committed && s.committed[r.epoch] == s.shared.contents.At(r.slot)
  {
    assert ReaderOk(s, s.readers[id]);
  }
}
