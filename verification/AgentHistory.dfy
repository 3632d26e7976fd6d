/**
 Histories of the agent: what single calls do to the kernel, moment by moment, and
 how calls, crashes and restarts follow each other. Whatever is ever committed is
 a set that some call was given.
*/
module AgentHistory {
  import opened PolicySets
  import opened EngineKeys
  import opened SlotProtocol
  import opened DurableKernel

  /** From a moment on, nothing but one of the two has been committed. */
  ghost predicate OnlyCommits(t: seq<Moment>, from: int, a: Committed, b: Committed) {
    forall i :: 0 <= i < |t| && from <= i ==> CommittedOf(t[i].kernel) == a || CommittedOf(t[i].kernel) == b
  }

  /** The desired set is committed, right after b. */
  ghost predicate Follows(c: Committed, b: Committed, desired: PolicySet) {
    && b.slot < 2 && c.slot == 1 - b.slot && c.epoch == b.epoch + 1
    && Valid(desired) && IsImage(c.rows, c.slot, desired)
  }

  // ----- calls -----

  /** What one call of Apply does to the kernel, until it returns or the agent crashes. */
  datatype Episode = Episode(desired: PolicySet, moments: seq<Moment>) {
    function Last(): Moment
      requires |moments| > 0
    {
      moments[|moments| - 1]
    }
  }

  /** Before the call's commit, what was committed; from then on, what the call was given. */
  ghost predicate Obeys(ep: Episode) {
    && |ep.moments| > 0 && TraceOk(ep.moments)
    && forall i :: 0 <= i < |ep.moments| ==> Keeps(ep.moments[0], ep.moments[i], ep.desired)
  }

  ghost predicate Keeps(first: Moment, m: Moment, desired: PolicySet) {
    CommittedOf(m.kernel) == CommittedOf(first.kernel)
        || Follows(CommittedOf(m.kernel), CommittedOf(first.kernel), desired)
  }

  /** The recorded part of a trace that commits nothing but the old and the desired set is an episode. */
  lemma CallObeys(t: seq<Moment>, from: nat, desired: PolicySet, after: Committed)
    requires TraceOk(t) && from < |t|
    requires OnlyCommits(t, from, CommittedOf(t[from].kernel), after)
    requires after == CommittedOf(t[from].kernel) || Follows(after, CommittedOf(t[from].kernel), desired)
    ensures Obeys(Episode(desired, t[from..]))
  {
    var u := t[from..];
    forall i | 0 <= i < |u| - 1
      ensures Legal(u[i], u[i + 1])
    {
      assert u[i] == t[from + i] && u[i + 1] == t[from + i + 1];
    }
  }

  /** A crash in the middle of a call leaves an episode, too. */
  lemma CrashedCallObeys(ep: Episode, n: nat)
    requires Obeys(ep) && 0 < n <= |ep.moments|
    ensures Obeys(ep.(moments := ep.moments[..n]))
  {
    var u := ep.moments[..n];
    forall i | 0 <= i < |u| - 1
      ensures Legal(u[i], u[i + 1])
    {
      assert u[i] == ep.moments[i] && u[i + 1] == ep.moments[i + 1];
    }
  }

  // ----- calls, crashes and restarts in sequence -----

  /** The kernel is where it was; a restarted agent has forgotten what it knew of the packets. */
  ghost predicate Continues(m: Moment, n: Moment) {
    n.kernel == m.kernel && (n.quiet ==> m.quiet)
  }

  ghost predicate Chained(eps: seq<Episode>) {
    && (forall i :: 0 <= i < |eps| ==> Obeys(eps[i]))
    && (forall i :: 0 < i < |eps| ==> Continues(eps[i - 1].Last(), eps[i].moments[0]))
  }

  /** Everything agents have done on one node, from the initialization of the maps on: calls, one
      after the other, each of which may have been cut short by a crash and a restart. */
  ghost predicate Life(eps: seq<Episode>) {
    Chained(eps) && |eps| > 0 && eps[0].moments[0] == Moment(FRESH_KERNEL, false)
  }

  function History(eps: seq<Episode>): seq<Moment> {
    if eps == [] then [] else History(eps[..|eps| - 1]) + eps[|eps| - 1].moments
  }

  lemma ContinuingIsLegal(m: Moment, n: Moment)
    requires Continues(m, n)
    ensures Legal(m, n)
  {
    if n.quiet != m.quiet {
      assert WriterMove(View(m), View(n), WriterLabel<Row>.Forget);
    }
  }

  lemma JoinedTraces(t: seq<Moment>, u: seq<Moment>)
    requires TraceOk(t) && TraceOk(u) && |t| > 0 && |u| > 0 && Legal(t[|t| - 1], u[0])
    ensures TraceOk(t + u)
  {
    var v := t + u;
    forall i | 0 <= i < |v| - 1
      ensures Legal(v[i], v[i + 1])
    {
      if i < |t| - 1 {
        assert v[i] == t[i] && v[i + 1] == t[i + 1];
      } else if i >= |t| {
        assert v[i] == u[i - |t|] && v[i + 1] == u[i + 1 - |t|];
      }
    }
  }

  /** The history of a life is one trace of the protocol's writer, from initialized maps on. */
  lemma {:induction false} HistoryIsTrace(eps: seq<Episode>)
    requires Life(eps)
    ensures TraceOk(History(eps)) && |History(eps)| > 0
    ensures History(eps)[0] == Moment(FRESH_KERNEL, false)
    ensures History(eps)[|History(eps)| - 1] == eps[|eps| - 1].Last()
  {
    hide TraceOk, Legal, Keeps;
    var n := |eps| - 1;
    if n == 0 {
      assert History(eps) == eps[0].moments;
    } else {
      HistoryIsTrace(eps[..n]);
      assert Continues(eps[n - 1].Last(), eps[n].moments[0]);
      ContinuingIsLegal(eps[n - 1].Last(), eps[n].moments[0]);
      JoinedTraces(History(eps[..n]), eps[n].moments);
    }
  }

  // ----- everything committed was given -----

  /** Nothing, at epoch 0; afterwards a set that one of the calls was given. */
  ghost predicate WasGiven(c: Committed, eps: seq<Episode>) {
    if c.epoch == 0 then c.rows == {} else exists j :: IsGiven(c, eps, j)
  }

  ghost predicate IsGiven(c: Committed, eps: seq<Episode>, j: int) {
    0 <= j < |eps| && c.slot < 2 && Valid(eps[j].desired) && IsImage(c.rows, c.slot, eps[j].desired)
  }

  lemma StillGiven(c: Committed, eps: seq<Episode>, n: nat)
    requires n <= |eps| && WasGiven(c, eps[..n])
    ensures WasGiven(c, eps)
  {
    if c.epoch > 0 {
      var j :| IsGiven(c, eps[..n], j);
      assert IsGiven(c, eps, j);
    }
  }

  lemma {:induction false} CommittedWasGiven(eps: seq<Episode>, i: nat)
    requires Life(eps) && i < |History(eps)|
    ensures WasGiven(CommittedOf(History(eps)[i].kernel), eps)
  {
    var n := |eps| - 1;
    var before := History(eps[..n]);
    if i < |before| {
      CommittedWasGiven(eps[..n], i);
      StillGiven(CommittedOf(before[i].kernel), eps, n);
    } else {
      FirstWasGiven(eps);
      LastWasGiven(eps, i - |before|);
    }
  }

  /** What is committed when the last call begins. */
  lemma {:induction false} FirstWasGiven(eps: seq<Episode>)
    requires Life(eps)
    ensures WasGiven(CommittedOf(eps[|eps| - 1].moments[0].kernel), eps)
  {
    var n := |eps| - 1;
    if n == 0 {
      assert RowsOf(FRESH_KERNEL.maps, 0) == {};
    } else {
      assert Continues(eps[n - 1].Last(), eps[n].moments[0]);
      FirstWasGiven(eps[..n]);
      LastWasGiven(eps[..n], |eps[n - 1].moments| - 1);
      StillGiven(CommittedOf(eps[n - 1].Last().kernel), eps, n);
    }
  }

  lemma LastWasGiven(eps: seq<Episode>, k: nat)
    requires Life(eps) && k < |eps[|eps| - 1].moments|
    requires WasGiven(CommittedOf(eps[|eps| - 1].moments[0].kernel), eps)
    ensures WasGiven(CommittedOf(eps[|eps| - 1].moments[k].kernel), eps)
  {
    var ep := eps[|eps| - 1];
    var c := CommittedOf(ep.moments[k].kernel);
    assert Keeps(ep.moments[0], ep.moments[k], ep.desired);
    if Follows(c, CommittedOf(ep.moments[0].kernel), ep.desired) {
      assert IsGiven(c, eps, |eps| - 1);
    }
  }

  // ----- lives grow -----

  /** One session of an agent: the calls it was given, in order, from one moment to another. */
  ghost predicate Leads(eps: seq<Episode>, sets: seq<PolicySet>, first: Moment, last: Moment) {
    && |eps| == |sets| && Chained(eps)
    && (forall i :: 0 <= i < |eps| ==> eps[i].desired == sets[i])
    && (if |eps| == 0 then last == first else eps[0].moments[0] == first && eps[|eps| - 1].Last() == last)
  }

  lemma OneCallMore(eps: seq<Episode>, sets: seq<PolicySet>, first: Moment, ep: Episode)
    requires Obeys(ep) && Leads(eps, sets, first, ep.moments[0])
    ensures Leads(eps + [ep], sets + [ep.desired], first, ep.Last())
  {
    ChainGrows(eps, ep);
    hide Chained, TraceOk, Keeps;
    forall i | 0 <= i < |eps + [ep]|
      ensures (eps + [ep])[i].desired == (sets + [ep.desired])[i]
    {
      if i < |eps| {
        assert (eps + [ep])[i] == eps[i];
      }
    }
  }

  lemma ChainGrows(eps: seq<Episode>, ep: Episode)
    requires Chained(eps) && Obeys(ep) && (|eps| > 0 ==> Continues(eps[|eps| - 1].Last(), ep.moments[0]))
    ensures Chained(eps + [ep])
  {
    hide TraceOk, Keeps, Continues;
    var all := eps + [ep];
    forall i | 0 < i < |all|
      ensures Continues(all[i - 1].Last(), all[i].moments[0])
    {
      if i < |eps| {
        assert all[i - 1] == eps[i - 1] && all[i] == eps[i];
      }
    }
  }

  /** Another session on the kernel that the last one left. */
  lemma LifeGoesOn(eps: seq<Episode>, more: seq<Episode>)
    requires Life(eps) && Chained(more) && |more| > 0 && Continues(eps[|eps| - 1].Last(), more[0].moments[0])
    ensures Life(eps + more)
  {
    var all := eps + more;
    forall i | 0 < i < |all|
      ensures Continues(all[i - 1].Last(), all[i].moments[0])
    {
      if i < |eps| {
        assert all[i - 1] == eps[i - 1] && all[i] == eps[i];
      } else if i > |eps| {
        assert all[i - 1] == more[i - 1 - |eps|] && all[i] == more[i - |eps|];
      }
    }
  }

  /** A life that a crash ends in the middle of its last call. */
  lemma LifeCutShort(eps: seq<Episode>, n: nat)
    requires Life(eps) && 0 < n <= |eps[|eps| - 1].moments|
    ensures Life(eps[..|eps| - 1] + [eps[|eps| - 1].(moments := eps[|eps| - 1].moments[..n])])
  {
    var m := |eps| - 1;
    CrashedCallObeys(eps[m], n);
    var all := eps[..m] + [eps[m].(moments := eps[m].moments[..n])];
    forall i | 0 < i < |all|
      ensures Continues(all[i - 1].Last(), all[i].moments[0])
    {
      assert Continues(eps[i - 1].Last(), eps[i].moments[0]);
    }
  }
}
