/**
 Decision counters, the flow-event limiter and the ring buffer of one CPU, and the
 metric labels userspace reads the counters with.
*/
module FlowAccounting {
  import opened PolicySets
  import opened Options
  import opened SlotVerdict

  const LIMIT_PER_SECOND := 100
  const WORD: nat := 0x1_0000_0000_0000_0000

  /** The REASON_ constants. */
  function Code(r: Reason): (c: nat)
    ensures c < 12
  {
    match r
    case Unisolated => 0
    case NodeBypass => 1
    case SelfBypass => 2
    case Connected => 3
    case RuleAllowed => 4
    case Quarantined => 5
    case DefaultDeny => 6
    case Malformed => 7
    case Fragment => 8
    case IPv6 => 9
    case Unsupported => 10
    case NoConfig => 11
  }

  datatype Label = Label(reason: nat, direction: nat, action: nat) {
    predicate Valid() {
      reason < 12 && direction < 2 && action < 2
    }
  }

  function LabelOf(r: Reason, w: Way, allowed: bool): (l: Label)
    ensures l.Valid()
  {
    Label(Code(r), w, if allowed then 1 else 0)
  }

  /** The key of decision_counts. */
  function Index(l: Label): (i: nat)
    requires l.Valid()
    ensures i < 48
  {
    (l.reason * 2 + l.direction) * 2 + l.action
  }

  /** The key as the kernel computes it. */
  lemma KernelKey(r: Reason, w: Way, allowed: bool)
    ensures (Code(r) * 2 + w) * 2 + (if allowed then 1 else 0) == Index(LabelOf(r, w, allowed))
  {
  }

  lemma IndexIsInjective(l: Label, m: Label)
    requires l.Valid() && m.Valid() && Index(l) == Index(m)
    ensures l == m
  {
  }

  // ----- the limiter -----

  datatype Meter = Meter(windowStart: U64, emitted: nat, rateLimited: nat, ringFull: nat, delivered: nat)

  const START := Meter(0, 0, 0, 0, 0)

  /** Subtraction of unsigned words. */
  function Elapsed(now: U64, since: U64): U64 {
    if now >= since then now - since else now + WORD - since
  }

  /** Added back, it gives the present, also when the word has wrapped around. */
  lemma ElapsedAddsBack(now: U64, since: U64)
    ensures (since + Elapsed(now, since)) % 0x1_0000_0000_0000_0000 == now
  {
  }

  function Windowed(m: Meter, now: U64): Meter {
    if Elapsed(now, m.windowStart) >= SECOND then m.(windowStart := now, emitted := 0) else m
  }

  /** The event gets past the limiter. */
  predicate Accepts(m: Meter, now: U64) {
    Windowed(m, now).emitted < LIMIT_PER_SECOND
  }

  function Emitted(m: Meter, now: U64, space: bool): Meter {
    var n := Windowed(m, now);
    if n.emitted >= LIMIT_PER_SECOND then n.(rateLimited := n.rateLimited + 1)
    else if !space then n.(emitted := n.emitted + 1, ringFull := n.ringFull + 1)
    else n.(emitted := n.emitted + 1, delivered := n.delivered + 1)
  }

  /** The per-CPU maps of one CPU. */
  class CpuFlow {
    const counts: array<nat>
    const drops: array<nat>
    var windowStart: U64
    var emitted: nat
    var delivered: nat

    ghost predicate Valid()
      reads this
    {
      counts.Length == 48 && drops.Length == 2 && counts != drops
    }

    ghost function Reading(): Meter
      requires Valid()
      reads this, drops
    {
      Meter(windowStart, emitted, drops[0], drops[1], delivered)
    }

    constructor ()
      ensures Valid() && fresh(counts) && fresh(drops)
      ensures Reading() == START && counts[..] == seq(48, _ => 0)
    {
      counts := new nat[48](_ => 0);
      drops := new nat[2](_ => 0);
      windowStart, emitted, delivered := 0, 0, 0;
    }

    method CountDecision(w: Way, allowed: bool, reason: Reason)
      requires Valid()
      modifies counts
      ensures counts[..] == Bumped(old(counts[..]), Index(LabelOf(reason, w, allowed)))
    {
      hide Code, Index, LabelOf;
      KernelKey(reason, w, allowed);
      var key := (Code(reason) * 2 + w) * 2 + if allowed then 1 else 0;
      counts[key] := counts[key] + 1;
    }

    /** `space` is whether the ring buffer can reserve a record. */
    method EmitFlowEvent(now: U64, space: bool) returns (sent: bool)
      requires Valid()
      modifies this, drops
      ensures Reading() == Emitted(old(Reading()), now, space)
      ensures sent == (Accepts(old(Reading()), now) && space)
    {
      if Elapsed(now, windowStart) >= SECOND {
        windowStart := now;
        emitted := 0;
      }
      if emitted >= LIMIT_PER_SECOND {
        drops[0] := drops[0] + 1;
        return false;
      }
      emitted := emitted + 1;
      if !space {
        drops[1] := drops[1] + 1;
        return false;
      }
      delivered := delivered + 1;
      return true;
    }

    method Decide(now: U64, w: Way, allowed: bool, reason: Reason, space: bool) returns (pass: bool)
      requires Valid()
      modifies this, counts, drops
      ensures pass == allowed
      ensures counts[..] == Bumped(old(counts[..]), Index(LabelOf(reason, w, allowed)))
      ensures Reading() == Emitted(old(Reading()), now, space)
    {
      CountDecision(w, allowed, reason);
      var sent := EmitFlowEvent(now, space);
      return allowed;
    }
  }

  function Bumped(counts: seq<nat>, i: nat): seq<nat>
    requires i < |counts|
  {
    counts[i := counts[i] + 1]
  }

  // ----- runs of one CPU -----

  datatype Decision = Decision(now: U64, reason: Reason, way: Way, allowed: bool, space: bool)

  function TagOf(d: Decision): (l: Label)
    ensures l.Valid()
  {
    LabelOf(d.reason, d.way, d.allowed)
  }

  ghost predicate Monotone(run: seq<Decision>) {
    forall i, j :: 0 <= i < j < |run| ==> run[i].now <= run[j].now
  }

  function Metered(run: seq<Decision>): Meter {
    if run == [] then START
    else
      var d := run[|run| - 1];
      Emitted(Metered(run[..|run| - 1]), d.now, d.space)
  }

  function Counted(run: seq<Decision>): (counts: seq<nat>)
    ensures |counts| == 48
  {
    if run == [] then seq(48, _ => 0)
    else Bumped(Counted(run[..|run| - 1]), Index(TagOf(run[|run| - 1])))
  }

  function Sum(xs: seq<nat>): nat {
    if xs == [] then 0 else xs[0] + Sum(xs[1..])
  }

  lemma {:induction false} SumBumped(xs: seq<nat>, i: nat)
    requires i < |xs|
    ensures Sum(Bumped(xs, i)) == Sum(xs) + 1
  {
    if i > 0 {
      SumBumped(xs[1..], i - 1);
      assert Bumped(xs, i)[1..] == Bumped(xs[1..], i - 1);
    } else {
      assert Bumped(xs, i)[1..] == xs[1..];
    }
  }

  lemma {:induction false} SumOfZeros(n: nat)
    ensures Sum(seq(n, _ => 0)) == 0
  {
    if n > 0 {
      SumOfZeros(n - 1);
      assert seq(n, _ => 0)[1..] == seq(n - 1, _ => 0);
    }
  }

  /** Nothing is lost: counted decisions are delivered events plus rate-limited plus ring-full drops. */
  lemma {:induction false} AccountsBalance(run: seq<Decision>)
    ensures var m := Metered(run);
            Sum(Counted(run)) == |run| == m.delivered + m.rateLimited + m.ringFull
  {
    if run == [] {
      SumOfZeros(48);
    } else {
      AccountsBalance(run[..|run| - 1]);
      SumBumped(Counted(run[..|run| - 1]), Index(TagOf(run[|run| - 1])));
    }
  }

  /** How often this was decided. */
  function Occurrences(run: seq<Decision>, r: Reason, w: Way, allowed: bool): nat {
    if run == [] then 0
    else
      var d := run[|run| - 1];
      Occurrences(run[..|run| - 1], r, w, allowed)
          + if d.reason == r && d.way == w && d.allowed == allowed then 1 else 0
  }

  lemma LabelIsInjective(r: Reason, w: Way, allowed: bool, r': Reason, w': Way, allowed': bool)
    requires LabelOf(r, w, allowed) == LabelOf(r', w', allowed')
    ensures r == r' && w == w' && allowed == allowed'
  {
  }

  /** Each counter counts its own decisions. */
  lemma {:induction false} CountersCount(run: seq<Decision>, r: Reason, w: Way, allowed: bool)
    ensures Counted(run)[Index(LabelOf(r, w, allowed))] == Occurrences(run, r, w, allowed)
  {
    if run != [] {
      CountersCount(run[..|run| - 1], r, w, allowed);
      var d := run[|run| - 1];
      if Index(TagOf(d)) == Index(LabelOf(r, w, allowed)) {
        IndexIsInjective(TagOf(d), LabelOf(r, w, allowed));
        LabelIsInjective(d.reason, d.way, d.allowed, r, w, allowed);
      }
    }
  }

  // ----- what becomes of events -----

  /** How many decisions had their event refused by the limiter. */
  function Refusals(run: seq<Decision>): nat {
    if run == [] then 0
    else
      var before, d := run[..|run| - 1], run[|run| - 1];
      Refusals(before) + if Accepts(Metered(before), d.now) then 0 else 1
  }

  /** How many had it accepted when the ring had no space, or had space. */
  function AcceptedWith(run: seq<Decision>, space: bool): nat {
    if run == [] then 0
    else
      var before, d := run[..|run| - 1], run[|run| - 1];
      AcceptedWith(before, space) + if Accepts(Metered(before), d.now) && d.space == space then 1 else 0
  }

  /** Each fate has its own counter. */
  lemma {:induction false} FatesMean(run: seq<Decision>)
    ensures Metered(run).rateLimited == Refusals(run)
    ensures Metered(run).ringFull == AcceptedWith(run, false)
    ensures Metered(run).delivered == AcceptedWith(run, true)
  {
    if run != [] {
      FatesMean(run[..|run| - 1]);
    }
  }

  // ----- the rate -----

  predicate Between(t: nat, now: nat) {
    t <= now < t + 1_000_000_000
  }

  /** How many events got past the limiter inside [t, t + 1 s). */
  function AcceptedIn(run: seq<Decision>, t: nat): nat {
    if run == [] then 0
    else
      var before := run[..|run| - 1];
      var now := run[|run| - 1].now;
      AcceptedIn(before, t) + if Accepts(Metered(before), now) && Between(t, now) then 1 else 0
  }

  predicate RateOk(m: Meter, last: nat, t: nat, accepted: nat) {
    && m.emitted <= LIMIT_PER_SECOND && m.windowStart <= last
    && (last < t ==> accepted == 0)
    && (m.windowStart < t ==> accepted <= m.emitted)
    && (t <= m.windowStart < t + SECOND ==> accepted <= LIMIT_PER_SECOND + m.emitted)
    && accepted <= 2 * LIMIT_PER_SECOND
  }

  lemma RateStep(m: Meter, last: nat, t: nat, accepted: nat, now: U64, space: bool)
    requires RateOk(m, last, t, accepted) && last <= now
    ensures RateOk(Emitted(m, now, space), now, t, accepted + if Accepts(m, now) && Between(t, now) then 1 else 0)
  {
  }

  function LastOf(run: seq<Decision>): nat {
    if run == [] then 0 else run[|run| - 1].now
  }

  lemma {:induction false} RateHolds(run: seq<Decision>, t: nat)
    requires Monotone(run)
    ensures RateOk(Metered(run), LastOf(run), t, AcceptedIn(run, t))
  {
    if run != [] {
      var before, d := run[..|run| - 1], run[|run| - 1];
      RateHolds(before, t);
      RateStep(Metered(before), LastOf(before), t, AcceptedIn(before, t), d.now, d.space);
    }
  }

  /** At most 200 events of one CPU get past the limiter in any half-open second. */
  lemma AtMostTwoWindows(run: seq<Decision>, t: nat)
    requires Monotone(run)
    ensures AcceptedIn(run, t) <= 200
  {
    RateHolds(run, t);
  }

  lemma {:induction false} WindowIsFilled(run: seq<Decision>)
    requires Monotone(run)
    ensures Metered(run).emitted <= AcceptedIn(run, Metered(run).windowStart)
    ensures Metered(run).windowStart <= LastOf(run)
  {
    if run != [] {
      WindowIsFilled(run[..|run| - 1]);
    }
  }

  /** The limiter refuses nothing before 100 events have got past it within one second. */
  lemma HundredGetPast(run: seq<Decision>, now: U64)
    requires Monotone(run) && LastOf(run) <= now && !Accepts(Metered(run), now)
    ensures exists t: nat :: Between(t, now) && AcceptedIn(run, t) >= 100
  {
    WindowIsFilled(run);
    assert Between(Metered(run).windowStart, now);
  }

  // ----- userspace -----

  const REASONS := ["unisolated", "node_bypass", "self_bypass", "connection", "rule", "quarantine", "default_deny",
                    "malformed", "fragment", "ipv6", "unsupported", "config"]

  const DROP_REASONS := ["rate_limited", "ring_full"]

  datatype Metric = Metric(action: string, direction: string, reason: string, count: nat)

  /** The label userspace puts at the index that a kernel label has. */
  function Named(l: Label, count: nat): Metric
    requires l.Valid()
  {
    Metric(if l.action == 1 then "allowed" else "blocked", if l.direction == 1 then "ingress" else "egress",
           REASONS[l.reason], count)
  }

  /** EngineDecisionMetricLabels: reasons, then directions, then actions. */
  method DecisionMetricLabels() returns (labels: seq<Metric>)
    ensures |labels| == 48 && forall l: Label :: l.Valid() ==> labels[Index(l)] == Named(l, 0)
  {
    labels := [];
    for reason := 0 to 12
      invariant |labels| == 4 * reason
      invariant forall l: Label :: l.Valid() && l.reason < reason ==> labels[Index(l)] == Named(l, 0)
    {
      for direction := 0 to 2
        invariant |labels| == 4 * reason + 2 * direction
        invariant forall l: Label :: l.Valid() && l.reason < reason ==> labels[Index(l)] == Named(l, 0)
        invariant forall l: Label :: l.Valid() && l.reason == reason && l.direction < direction ==>
                    labels[Index(l)] == Named(l, 0)
      {
        var directionName := if direction == 1 then "ingress" else "egress";
        labels := labels + [Metric("blocked", directionName, REASONS[reason], 0),
                            Metric("allowed", directionName, REASONS[reason], 0)];
      }
    }
  }

  /** sumCounterValues: refuses a sum that does not fit a word. */
  method SumCounterValues(values: seq<nat>) returns (r: Option<nat>)
    requires forall i :: 0 <= i < |values| ==> values[i] < WORD
    ensures r.Some? <==> Sum(values) < WORD
    ensures r.Some? ==> r.value == Sum(values)
  {
    var total := 0;
    for i := 0 to |values|
      invariant total < WORD && total == Sum(values[..i])
    {
      SumTake(values, i);
      if values[i] > WORD - 1 - total {
        SumGrows(values, i + 1);
        return None;
      }
      total := total + values[i];
    }
    assert values[..|values|] == values;
    return Some(total);
  }

  /** What userspace reads for one key: the value of every CPU. */
  function Column(cpus: seq<seq<nat>>, i: nat): (c: seq<nat>)
    requires forall k :: 0 <= k < |cpus| ==> i < |cpus[k]|
    ensures |c| == |cpus|
  {
    seq(|cpus|, k requires 0 <= k < |cpus| => cpus[k][i])
  }

  /** One lookup per key: the sums of n counters over all CPUs. */
  method Totals(cpus: seq<seq<nat>>, n: nat) returns (r: Option<seq<nat>>)
    requires forall k :: 0 <= k < |cpus| ==> |cpus[k]| == n
    requires forall k, i :: 0 <= k < |cpus| && 0 <= i < n ==> cpus[k][i] < WORD
    ensures r.Some? <==> forall i :: 0 <= i < n ==> Sum(Column(cpus, i)) < WORD
    ensures r.Some? ==> |r.value| == n && forall i :: 0 <= i < n ==> r.value[i] == Sum(Column(cpus, i))
  {
    var totals: seq<nat> := [];
    for index := 0 to n
      invariant |totals| == index
      invariant forall i :: 0 <= i < index ==> totals[i] == Sum(Column(cpus, i)) < WORD
    {
      var total := SumCounterValues(Column(cpus, index));
      if total.None? {
        return None;
      }
      totals := totals + [total.value];
    }
    return Some(totals);
  }

  datatype Snapshot = Snapshot(activeEpoch: U64, decisions: seq<Metric>, eventDrops: seq<(string, nat)>)

  /** The snapshot of these counters. */
  ghost predicate Shows(s: Snapshot, activeEpoch: U64, cpus: seq<seq<nat>>, drops: seq<seq<nat>>)
    requires forall k :: 0 <= k < |cpus| ==> |cpus[k]| == 48
    requires forall k :: 0 <= k < |drops| ==> |drops[k]| == 2
  {
    && s.activeEpoch == activeEpoch && |s.decisions| == 48
    && (forall l: Label :: l.Valid() ==> s.decisions[Index(l)] == Named(l, Sum(Column(cpus, Index(l)))))
    && s.eventDrops == [(DROP_REASONS[0], Sum(Column(drops, 0))), (DROP_REASONS[1], Sum(Column(drops, 1)))]
  }

  /** metricsSnapshot: the active epoch, and every label with the sum of its counter over all CPUs. */
  method MetricsSnapshot(activeEpoch: U64, cpus: seq<seq<nat>>, drops: seq<seq<nat>>) returns (r: Option<Snapshot>)
    requires forall k :: 0 <= k < |cpus| ==> |cpus[k]| == 48
    requires forall k :: 0 <= k < |drops| ==> |drops[k]| == 2
    requires forall k, i :: 0 <= k < |cpus| && 0 <= i < 48 ==> cpus[k][i] < WORD
    requires forall k, i :: 0 <= k < |drops| && 0 <= i < 2 ==> drops[k][i] < WORD
    ensures r.Some? <==>
              && (forall i :: 0 <= i < 48 ==> Sum(Column(cpus, i)) < WORD)
              && (forall i :: 0 <= i < 2 ==> Sum(Column(drops, i)) < WORD)
    ensures r.Some? ==> Shows(r.value, activeEpoch, cpus, drops)
  {
    var labels := DecisionMetricLabels();
    var counts := Totals(cpus, 48);
    if counts.None? {
      return None;
    }
    var dropped := Totals(drops, 2);
    if dropped.None? {
      return None;
    }
    var decisions := seq(48, i requires 0 <= i < 48 => labels[i].(count := counts.value[i]));
    var eventDrops := [(DROP_REASONS[0], dropped.value[0]), (DROP_REASONS[1], dropped.value[1])];
    return Some(Snapshot(activeEpoch, decisions, eventDrops));
  }

  // ----- what is published is what happened -----

  /** The name of a reason in the metrics. */
  function ReasonName(r: Reason): string {
    match r
    case Unisolated => "unisolated"
    case NodeBypass => "node_bypass"
    case SelfBypass => "self_bypass"
    case Connected => "connection"
    case RuleAllowed => "rule"
    case Quarantined => "quarantine"
    case DefaultDeny => "default_deny"
    case Malformed => "malformed"
    case Fragment => "fragment"
    case IPv6 => "ipv6"
    case Unsupported => "unsupported"
    case NoConfig => "config"
  }

  function OccurrencesOnAll(runs: seq<seq<Decision>>, r: Reason, w: Way, allowed: bool): nat {
    if runs == [] then 0 else Occurrences(runs[0], r, w, allowed) + OccurrencesOnAll(runs[1..], r, w, allowed)
  }

  function RefusalsOnAll(runs: seq<seq<Decision>>): nat {
    if runs == [] then 0 else Refusals(runs[0]) + RefusalsOnAll(runs[1..])
  }

  function OverflowsOnAll(runs: seq<seq<Decision>>): nat {
    if runs == [] then 0 else AcceptedWith(runs[0], false) + OverflowsOnAll(runs[1..])
  }

  function CountedOnAll(runs: seq<seq<Decision>>): (cpus: seq<seq<nat>>)
    ensures |cpus| == |runs| && forall k :: 0 <= k < |cpus| ==> cpus[k] == Counted(runs[k])
  {
    seq(|runs|, k requires 0 <= k < |runs| => Counted(runs[k]))
  }

  function DroppedOnAll(runs: seq<seq<Decision>>): (drops: seq<seq<nat>>)
    ensures |drops| == |runs|
    ensures forall k :: 0 <= k < |drops| ==> drops[k] == [Metered(runs[k]).rateLimited, Metered(runs[k]).ringFull]
  {
    seq(|runs|, k requires 0 <= k < |runs| => [Metered(runs[k]).rateLimited, Metered(runs[k]).ringFull])
  }

  lemma {:induction false} ColumnsCount(runs: seq<seq<Decision>>, r: Reason, w: Way, allowed: bool)
    ensures var i := Index(LabelOf(r, w, allowed));
            Sum(Column(CountedOnAll(runs), i)) == OccurrencesOnAll(runs, r, w, allowed)
  {
    var i := Index(LabelOf(r, w, allowed));
    var column := Column(CountedOnAll(runs), i);
    if runs != [] {
      ColumnsCount(runs[1..], r, w, allowed);
      CountersCount(runs[0], r, w, allowed);
      assert column[1..] == Column(CountedOnAll(runs[1..]), i);
    }
  }

  lemma {:induction false} DropsCount(runs: seq<seq<Decision>>)
    ensures Sum(Column(DroppedOnAll(runs), 0)) == RefusalsOnAll(runs)
    ensures Sum(Column(DroppedOnAll(runs), 1)) == OverflowsOnAll(runs)
  {
    if runs != [] {
      DropsCount(runs[1..]);
      FatesMean(runs[0]);
      assert Column(DroppedOnAll(runs), 0)[1..] == Column(DroppedOnAll(runs[1..]), 0);
      assert Column(DroppedOnAll(runs), 1)[1..] == Column(DroppedOnAll(runs[1..]), 1);
    }
  }

  /** The metric that bears the names of a reason, a direction and an action. */
  predicate Bears(m: Metric, r: Reason, w: Way, allowed: bool) {
    && m.reason == ReasonName(r)
    && m.direction == (if w == 0 then "egress" else "ingress")
    && m.action == (if allowed then "allowed" else "blocked")
  }

  lemma NameAtCode(r: Reason, i: nat)
    requires i < 12
    ensures REASONS[i] == ReasonName(r) <==> i == Code(r)
  {
    assert REASONS[Code(r)] == ReasonName(r);
    if REASONS[i] == REASONS[Code(r)] {
      NamesDiffer(i, Code(r));
    }
  }

  lemma NamesDiffer(i: nat, j: nat)
    requires i < 12 && j < 12 && REASONS[i] == REASONS[j]
    ensures i == j
  {
  }

  lemma OneNameEach(l: Label, count: nat, r: Reason, w: Way, allowed: bool)
    requires l.Valid()
    ensures Bears(Named(l, count), r, w, allowed) <==> l == LabelOf(r, w, allowed)
  {
    hide Code, ReasonName;
    NameAtCode(r, l.reason);
  }

  lemma LabelAt(i: nat) returns (l: Label)
    requires i < 48
    ensures l.Valid() && Index(l) == i
  {
    l := Label(i / 4, i / 2 % 2, i % 2);
  }

  /** The published metrics are the facts: whatever was decided, on however many CPUs, exactly one
      metric bears the names of a reason, a direction and an action, and it is the number of such
      decisions; and the two drop metrics are the numbers of events that the limiter refused and
      that found no space in the ring. */
  lemma MetricsCountDecisions(runs: seq<seq<Decision>>, s: Snapshot, epoch: U64, r: Reason, w: Way, allowed: bool)
    returns (i: nat)
    requires Shows(s, epoch, CountedOnAll(runs), DroppedOnAll(runs))
    ensures i < |s.decisions| && s.decisions[i].count == OccurrencesOnAll(runs, r, w, allowed)
    ensures forall k :: 0 <= k < |s.decisions| ==> (Bears(s.decisions[k], r, w, allowed) <==> k == i)
    ensures s.eventDrops == [("rate_limited", RefusalsOnAll(runs)), ("ring_full", OverflowsOnAll(runs))]
  {
    hide Occurrences, Refusals, AcceptedWith, Bears, Named, Index, LabelOf;
    i := Index(LabelOf(r, w, allowed));
    ColumnsCount(runs, r, w, allowed);
    DropsCount(runs);
    assert s.decisions[i] == Named(LabelOf(r, w, allowed), OccurrencesOnAll(runs, r, w, allowed));
    NamedCount(LabelOf(r, w, allowed), OccurrencesOnAll(runs, r, w, allowed));
    forall k | 0 <= k < |s.decisions|
      ensures Bears(s.decisions[k], r, w, allowed) <==> k == i
    {
      var l := LabelAt(k);
      OneNameEach(l, s.decisions[k].count, r, w, allowed);
      NamedCount(l, Sum(Column(CountedOnAll(runs), k)));
      if k == i {
        IndexIsInjective(l, LabelOf(r, w, allowed));
      }
    }
  }

  lemma NamedCount(l: Label, count: nat)
    requires l.Valid()
    ensures Named(l, count).count == count
  {
  }

  lemma {:induction false} SumTake(xs: seq<nat>, i: nat)
    requires i < |xs|
    ensures Sum(xs[..i + 1]) == Sum(xs[..i]) + xs[i]
  {
    if i > 0 {
      SumTake(xs[1..], i - 1);
      assert xs[1..][..i] == xs[..i + 1][1..] && xs[1..][..i - 1] == xs[..i][1..];
    }
  }

  lemma {:induction false} SumGrows(xs: seq<nat>, i: nat)
    requires i <= |xs|
    ensures Sum(xs[..i]) <= Sum(xs)
  {
    if i > 0 {
      SumGrows(xs[1..], i - 1);
      assert xs[..i][1..] == xs[1..][..i - 1];
    }
  }
}
