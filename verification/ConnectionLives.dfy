/**
 What becomes of a connection over whole runs, told by packets and clocks alone: replies
 get through, silence ends it, a reset ends it, and FINs both ways end it.
*/
module ConnectionLives {
  import opened PolicySets
  import opened SlotVerdict
  import opened Connections

  // ----- replies -----

  /** Since step i nothing has taken the tuple away: no eviction, and no reset that was allowed. */
  ghost predicate Undisturbed(run: seq<Step>, i: nat, key: ConnKey) {
    forall j :: i <= j < |run| ==>
      && (run[j].Eviction? ==> key !in run[j].keys)
      && (About(run, j, key) && Admitted(Outcomes(run, j)) ==>
            !(run[j].event.key.protocol == 6 && run[j].event.flags.rst))
  }

  /** Since step i no FIN of the tuple has been allowed in this direction. */
  ghost predicate NoFin(run: seq<Step>, i: nat, key: ConnKey, w: Way) {
    forall j :: i <= j < |run| && About(run, j, key) && Admitted(Outcomes(run, j)) ==>
      !IsFin(run[j].event, w)
  }

  /** The tuple is remembered with a timer no older than that; or it is closing, and that long ago. */
  predicate Keeps(l: Ledger, key: ConnKey, since: nat) {
    && key in l
    && (l[key].Open? ==> since <= l[key].last)
    && (l[key].Closing? ==> since + TCP_CLOSING <= l[key].until)
  }

  predicate OpenTowards(l: Ledger, key: ConnKey, w: Way) {
    key in l && l[key].Open? && !(if w == 0 then l[key].fins.egress else l[key].fins.ingress)
  }

  lemma KeepsStep(l: Ledger, s: Step, o: Outcome, key: ConnKey, since: nat)
    requires Keeps(l, key, since) && (s.Eviction? ==> key !in s.keys)
    requires s.Arrival? && StateKey(s.event.key) == key && Admitted(o) ==>
               since <= s.event.now && !Reset(s.event.key, s.event.flags)
    ensures Keeps(Noted(l, s, o), key, since)
    ensures forall w :: OpenTowards(l, key, w) && !(s.Arrival? && StateKey(s.event.key) == key && Admitted(o)
                          && Fin(s.event.key, s.event.flags) && s.event.key.direction == w) ==>
              OpenTowards(Noted(l, s, o), key, w)
  {
  }

  lemma LedgerOneMore(run: seq<Step>, n: nat)
    requires n < |run|
    ensures LedgerOf(run[..n + 1]) == Noted(LedgerOf(run[..n]), run[n], Outcomes(run, n))
  {
    assert run[..n + 1][..n] == run[..n];
  }

  /** What exact timers remember, from a rule-allowed packet on. */
  lemma {:induction false} Remembered(run: seq<Step>, i: nat, n: nat, key: ConnKey)
    requires Monotone(run) && i < n <= |run| && About(run, i, key) && Outcomes(run, i).ByRule?
    requires Undisturbed(run, i, key)
    ensures Keeps(LedgerOf(run[..n]), key, run[i].event.now)
    ensures forall w :: NoFin(run, i, key, w) ==> OpenTowards(LedgerOf(run[..n]), key, w)
  {
    hide LedgerOf, Outcomes, Keeps, OpenTowards;
    LedgerOneMore(run, n - 1);
    if n - 1 == i {
      Begins(LedgerOf(run[..i]), run[i], Outcomes(run, i), key);
      assert forall w :: NoFin(run, i, key, w) ==>
          !(Fin(run[i].event.key, run[i].event.flags) && run[i].event.key.direction == w);
    } else {
      Remembered(run, i, n - 1, key);
      KeepsStep(LedgerOf(run[..n - 1]), run[n - 1], Outcomes(run, n - 1), key, run[i].event.now);
    }
  }

  lemma Begins(l: Ledger, s: Step, o: Outcome, key: ConnKey)
    requires s.Arrival? && StateKey(s.event.key) == key && o.ByRule? && !Reset(s.event.key, s.event.flags)
    ensures Keeps(Noted(l, s, o), key, s.event.now)
    ensures forall w :: !(Fin(s.event.key, s.event.flags) && s.event.key.direction == w) ==>
              OpenTowards(Noted(l, s, o), key, w)
  {
  }

  /** Replies get through. A rule has allowed a packet of the tuple, and nothing has taken the tuple
      away since; then whatever comes back, with addresses and ports exchanged, is admitted by
      state: within the idle timeout less a second (a day for TCP, 30 seconds for UDP) as long as
      FINs have not been allowed both ways, and within 120 seconds in any case. */
  lemma RepliesAreAdmitted(run: seq<Step>, i: nat, epoch: U64, c: Cgroup, w: Way, w': Way, q: Packet, r: Packet,
                           flags: Flags, now: nat, ruled: bool)
    requires var back := Arrival(Event(now, KeyFor(epoch, c, w', r), flags, ruled));
             && Monotone(run + [back]) && i < |run| && run[i].Arrival? && run[i].event.key == KeyFor(epoch, c, w, q)
             && Outcomes(run, i).ByRule? && Undisturbed(run, i, StateKey(KeyFor(epoch, c, w, q)))
    requires w != w' && r.protocol == q.protocol && r.source == q.destination && r.destination == q.source
             && r.sourcePort == q.destinationPort && r.destinationPort == q.sourcePort
    requires !(r.protocol == 6 && flags.syn && !flags.ack)
    ensures var back := Arrival(Event(now, KeyFor(epoch, c, w', r), flags, ruled));
            var start, key := run[i].event.now, StateKey(KeyFor(epoch, c, w, q));
            && (now < start + (if r.protocol == 6 then 120 else 29) * 1_000_000_000 ==>
                  OutcomeOf(Reached(run), back).ByState?)
            && ((exists v: Way :: NoFin(run, i, key, v)) ==>
                  now < start + (if r.protocol == 6 then 86_399 else 29) * 1_000_000_000 ==>
                    OutcomeOf(Reached(run), back).ByState?)
  {
    var e := Event(now, KeyFor(epoch, c, w', r), flags, ruled);
    var key := StateKey(KeyFor(epoch, c, w, q));
    SameEntryMeans(epoch, c, w, q, epoch, c, w', r);
    assert run[..|run|] == run && forall j :: 0 <= j < |run| ==> (run + [Arrival(e)])[j] == run[j];
    Remembered(run, i, |run|, key);
    OnlyTcpCloses(run, key);
    hide LedgerOf, Reached, Undisturbed, NoFin;
    AdmissionIsTimely(run, e);
  }

  /** Only TCP tuples close. */
  lemma {:induction false} OnlyTcpCloses(run: seq<Step>, key: ConnKey)
    ensures key in LedgerOf(run) && key.protocol != TCP ==>
              LedgerOf(run)[key].Open? && LedgerOf(run)[key].fins == Fins(false, false)
  {
    if run != [] {
      OnlyTcpCloses(run[..|run| - 1], key);
    }
  }

  // ----- silence -----

  /** The packet that set the timer of a tuple. */
  ghost predicate SetBy(run: seq<Step>, i: nat, key: ConnKey, tr: Track)
    requires i < |run|
  {
    && About(run, i, key) && Admitted(Outcomes(run, i))
    && match tr
       case Open(last, _) => run[i].event.now == last
       case Closing(until) => Fin(run[i].event.key, run[i].event.flags) && run[i].event.now + TCP_CLOSING == until
  }

  lemma {:induction false} TimersAreSet(run: seq<Step>, n: nat, key: ConnKey)
    requires n <= |run| && Monotone(run) && key in LedgerOf(run[..n])
    ensures exists i :: 0 <= i < n && SetBy(run, i, key, LedgerOf(run[..n])[key])
  {
    LedgerOneMore(run, n - 1);
    var before, after := LedgerOf(run[..n - 1]), LedgerOf(run[..n]);
    ExpiriesTrackTimers(run[..n - 1]);
    if key in before && after[key] == before[key] {
      TimersAreSet(run, n - 1, key);
    } else {
      assert SetBy(run, n - 1, key, after[key]);
    }
  }

  /** Silence ends a tuple: what state admits comes less than a day, for UDP 30 seconds, after an
      admitted packet of the same tuple. */
  lemma SilenceEnds(run: seq<Step>, e: Event) returns (i: nat)
    requires Monotone(run + [Arrival(e)]) && OutcomeOf(Reached(run), Arrival(e)).ByState?
    ensures i < |run| && About(run, i, StateKey(e.key)) && Admitted(Outcomes(run, i))
    ensures e.now < run[i].event.now + (if e.key.protocol == 6 then 86_400 else 30) * 1_000_000_000
  {
    var key := StateKey(e.key);
    assert run[..|run|] == run;
    AdmissionIsTimely(run, e);
    assert forall j :: 0 <= j < |run| ==> (run + [Arrival(e)])[j] == run[j];
    ExpiriesTrackTimers(run);
    TimersAreSet(run, |run|, key);
    var j :| 0 <= j < |run| && SetBy(run, j, key, LedgerOf(run)[key]);
    i := j;
  }

  // ----- endings -----

  /** A reset that is allowed, by state or by a rule, takes the tuple away: what follows it directly
      is not admitted by state, whichever way it goes. */
  lemma ResetEnds(run: seq<Step>, e: Event, f: Event)
    requires e.key.protocol == 6 && e.flags.rst && Admitted(OutcomeOf(Reached(run), Arrival(e)))
    requires StateKey(f.key) == StateKey(e.key)
    ensures !OutcomeOf(Reached(run + [Arrival(e)]), Arrival(f)).ByState?
  {
    ReachedOneMore(run, Arrival(e));
  }

  /** After a FIN has been allowed in one direction: gone, seen in that direction, or closing no later
      than the deadline. */
  predicate Ending(l: Ledger, key: ConnKey, w: Way, deadline: nat) {
    key in l ==>
      match l[key]
      case Open(_, fins) => if w == 0 then fins.egress else fins.ingress
      case Closing(until) => until <= deadline
  }

  predicate Ended(l: Ledger, key: ConnKey, deadline: nat) {
    key in l ==> l[key].Closing? && l[key].until <= deadline
  }

  lemma EndingStep(l: Ledger, s: Step, o: Outcome, key: ConnKey, w: Way, deadline: nat)
    requires s.Arrival? && StateKey(s.event.key) == key ==>
               (o.ByState? ==> key in l) && s.event.now + TCP_CLOSING <= deadline
    ensures (s.Arrival? && StateKey(s.event.key) == key && Admitted(o) && IsFin(s.event, w)) ==>
              (key in l && l[key].Closing? ==> l[key].until <= deadline) ==>
                Ending(Noted(l, s, o), key, w, deadline)
    ensures Ending(l, key, w, deadline) && !(s.Arrival? && StateKey(s.event.key) == key && o.ByRule?) ==>
              Ending(Noted(l, s, o), key, w, deadline)
    ensures Ending(l, key, w, deadline) ==>
              s.Arrival? && StateKey(s.event.key) == key && o.ByState? && IsFin(s.event, 1 - w) ==>
                Ended(Noted(l, s, o), key, deadline)
  {
  }

  lemma EndedStep(l: Ledger, s: Step, o: Outcome, key: ConnKey, deadline: nat)
    requires Ended(l, key, deadline) && !(s.Arrival? && StateKey(s.event.key) == key && o.ByRule?)
    requires s.Arrival? && StateKey(s.event.key) == key && o.ByState? ==> key in l
    ensures Ended(Noted(l, s, o), key, deadline)
  {
  }

  /** State admits only what the ledger remembers. */
  lemma StateIsRemembered(run: seq<Step>, n: nat, key: ConnKey)
    requires Monotone(run) && n < |run| && About(run, n, key) && Outcomes(run, n).ByState?
    ensures key in LedgerOf(run[..n])
  {
    ExpiriesTrackTimers(run[..n]);
  }

  lemma ClosingIsRecent(run: seq<Step>, n: nat, key: ConnKey, now: nat)
    requires Monotone(run) && n <= |run| && key in LedgerOf(run[..n]) && LedgerOf(run[..n])[key].Closing?
    requires forall j :: 0 <= j < n && run[j].Arrival? ==> run[j].event.now <= now
    ensures LedgerOf(run[..n])[key].until <= now + TCP_CLOSING
  {
    TimersAreSet(run, n, key);
  }

  /** From the first FIN on, up to the second. */
  lemma {:induction false} FirstFin(run: seq<Step>, a: nat, n: nat, key: ConnKey, w: Way, deadline: nat)
    requires Monotone(run) && a < n <= |run| && About(run, a, key) && Admitted(Outcomes(run, a))
    requires IsFin(run[a].event, w)
    requires forall j :: a < j < n && About(run, j, key) ==> !Outcomes(run, j).ByRule?
    requires forall j :: 0 <= j < n && run[j].Arrival? ==> run[j].event.now + TCP_CLOSING <= deadline
    ensures Ending(LedgerOf(run[..n]), key, w, deadline)
  {
    hide LedgerOf, Outcomes, Ending, Noted;
    LedgerOneMore(run, n - 1);
    if About(run, n - 1, key) && Outcomes(run, n - 1).ByState? {
      StateIsRemembered(run, n - 1, key);
    }
    if n - 1 == a {
      var l := LedgerOf(run[..a]);
      if key in l && l[key].Closing? {
        ClosingIsRecent(run, a, key, run[a].event.now);
      }
    } else {
      FirstFin(run, a, n - 1, key, w, deadline);
    }
    EndingStep(LedgerOf(run[..n - 1]), run[n - 1], Outcomes(run, n - 1), key, w, deadline);
  }

  lemma {:induction false} SecondFin(run: seq<Step>, a: nat, b: nat, n: nat, key: ConnKey, w: Way)
    requires Monotone(run) && a < b < n <= |run|
    requires About(run, a, key) && Admitted(Outcomes(run, a)) && IsFin(run[a].event, w)
    requires About(run, b, key) && Admitted(Outcomes(run, b)) && IsFin(run[b].event, 1 - w)
    requires forall j :: a < j < n && About(run, j, key) ==> !Outcomes(run, j).ByRule?
    ensures Ended(LedgerOf(run[..n]), key, run[b].event.now + TCP_CLOSING)
  {
    hide LedgerOf, Outcomes, Ending, Ended, Noted;
    LedgerOneMore(run, n - 1);
    var deadline := run[b].event.now + TCP_CLOSING;
    if About(run, n - 1, key) && Outcomes(run, n - 1).ByState? {
      StateIsRemembered(run, n - 1, key);
    }
    if n - 1 == b {
      FirstFin(run, a, b, key, w, deadline);
      EndingStep(LedgerOf(run[..b]), run[b], Outcomes(run, b), key, w, deadline);
    } else {
      SecondFin(run, a, b, n - 1, key, w);
      EndedStep(LedgerOf(run[..n - 1]), run[n - 1], Outcomes(run, n - 1), key, deadline);
    }
  }

  /** A connection that has been closed both ways ends: once FINs have been allowed in both
      directions, and no rule has allowed a packet of the tuple since the first of them, state
      admits nothing of it from 120 seconds after the second. */
  lemma ClosedConnectionsEnd(run: seq<Step>, a: nat, b: nat, e: Event)
    requires Monotone(run + [Arrival(e)]) && a < b < |run|
    requires About(run, a, StateKey(e.key)) && Admitted(Outcomes(run, a))
    requires About(run, b, StateKey(e.key)) && Admitted(Outcomes(run, b))
    requires exists w: Way :: IsFin(run[a].event, w) && IsFin(run[b].event, 1 - w)
    requires forall j :: a < j < |run| && About(run, j, StateKey(e.key)) ==> !Outcomes(run, j).ByRule?
    requires e.now >= run[b].event.now + 120 * 1_000_000_000
    ensures !OutcomeOf(Reached(run), Arrival(e)).ByState?
  {
    assert forall j :: 0 <= j < |run| ==> (run + [Arrival(e)])[j] == run[j];
    assert run[..|run|] == run;
    SecondFin(run, a, b, |run|, StateKey(e.key), run[a].event.key.direction);
    AdmissionIsTimely(run, e);
  }

  // ----- coalescing -----

  /** An admitted packet of a tuple that stays open moves its expiry to a full idle timeout from now,
      unless the expiry is already less than a second short of that; then it stays. */
  lemma WritesAreCoalesced(run: seq<Step>, e: Event)
    requires OutcomeOf(Reached(run), Arrival(e)).ByState? && !(e.key.protocol == 6 && e.flags.rst)
    ensures var t, t', key := Reached(run), Reached(run + [Arrival(e)]), StateKey(e.key);
            && key in t && key in t'
            && (!t'[key].fins.Both() ==>
                  var full := e.now + (if e.key.protocol == 6 then 86_400 else 30) * 1_000_000_000;
                  t'[key].expires == if t[key].expires > full - 1_000_000_000 then t[key].expires else full)
  {
    ReachedOneMore(run, Arrival(e));
  }
}
