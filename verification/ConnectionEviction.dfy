/**
 Eviction from the connection table. It is not harmless in every run: exactly when it
 takes an entry that is still live, there is a continuation in which state admits a
 packet that it would have refused.
*/
module ConnectionEviction {
  import opened PolicySets
  import opened SlotVerdict
  import opened Connections

  predicate SameFor(t: Table, t': Table, key: ConnKey) {
    (key in t <==> key in t') && (key in t ==> t[key] == t'[key])
  }

  /** What happens to a tuple depends on its own entry only. */
  lemma StepIsLocal(t: Table, t': Table, s: Step, key: ConnKey)
    requires SameFor(t, t', key)
    ensures SameFor(After(t, s), After(t', s), key)
    ensures s.Arrival? && StateKey(s.event.key) == key ==> OutcomeOf(t, s) == OutcomeOf(t', s)
  {
  }

  /** The run, with an eviction in it. */
  function Evicting(run: seq<Step>, keys: set<ConnKey>, more: seq<Step>): seq<Step> {
    run + [Eviction(keys)] + more
  }

  /** The rule-allowed packets of a tuple since the eviction. */
  ghost predicate Restarted(run: seq<Step>, keys: set<ConnKey>, more: seq<Step>, n: nat, key: ConnKey)
    requires n <= |more|
  {
    exists i :: 0 <= i < n && About(more, i, key) && OutcomeOf(Reached(Evicting(run, keys, more[..i])), more[i]).ByRule?
  }

  /** Other tuples are as they would have been, ever after; an evicted tuple has no entry until a
      rule starts it anew. */
  lemma {:induction false} EvictionForgets(run: seq<Step>, keys: set<ConnKey>, more: seq<Step>, n: nat, key: ConnKey)
    requires n <= |more|
    ensures key !in keys ==> SameFor(Reached(run + more[..n]), Reached(Evicting(run, keys, more[..n])), key)
    ensures key in keys && !Restarted(run, keys, more, n, key) ==> key !in Reached(Evicting(run, keys, more[..n]))
  {
    if n == 0 {
      assert run + more[..0] == run && Evicting(run, keys, more[..0]) == run + [Eviction(keys)];
      ReachedOneMore(run, Eviction(keys));
    } else {
      EvictionForgets(run, keys, more, n - 1, key);
      var s := more[n - 1];
      assert run + more[..n] == (run + more[..n - 1]) + [s];
      assert Evicting(run, keys, more[..n]) == Evicting(run, keys, more[..n - 1]) + [s];
      ReachedOneMore(run + more[..n - 1], s);
      ReachedOneMore(Evicting(run, keys, more[..n - 1]), s);
      if key !in keys {
        StepIsLocal(Reached(run + more[..n - 1]), Reached(Evicting(run, keys, more[..n - 1])), s, key);
      } else if !Restarted(run, keys, more, n, key) {
        StaysAbsent(run, keys, more, n - 1, key);
      }
    }
  }

  lemma StaysAbsent(run: seq<Step>, keys: set<ConnKey>, more: seq<Step>, n: nat, key: ConnKey)
    requires n < |more| && !Restarted(run, keys, more, n + 1, key)
    ensures !Restarted(run, keys, more, n, key)
    ensures key !in Reached(Evicting(run, keys, more[..n])) ==>
            key !in After(Reached(Evicting(run, keys, more[..n])), more[n])
  {
    assert !(About(more, n, key) && OutcomeOf(Reached(Evicting(run, keys, more[..n])), more[n]).ByRule?);
  }

  /** Evicting entries adds no admission: whatever connection state admits after it, it would have
      admitted anyway, unless a rule has started the tuple anew since. */
  lemma EvictionAddsNothing(run: seq<Step>, keys: set<ConnKey>, more: seq<Step>, n: nat)
    requires n < |more| && more[n].Arrival? && !Restarted(run, keys, more, n, StateKey(more[n].event.key))
    requires OutcomeOf(Reached(Evicting(run, keys, more[..n])), more[n]).ByState?
    ensures OutcomeOf(Reached(run + more[..n]), more[n]).ByState?
  {
    var key := StateKey(more[n].event.key);
    EvictionForgets(run, keys, more, n, key);
    if key !in keys {
      StepIsLocal(Reached(run + more[..n]), Reached(Evicting(run, keys, more[..n])), more[n], key);
    }
  }

  /** Two FINs, and nothing else: the entry ends after 120 seconds. */
  lemma TwoFins(k: ConnKey) returns (run: seq<Step>)
    requires k.protocol == TCP
    ensures Monotone(run) && forall i :: 0 <= i < |run| ==> run[i].Arrival? && run[i].event.now == 0
    ensures StateKey(k) in Reached(run) && Reached(run)[StateKey(k)] == ConnValue(TCP_CLOSING, Fins(true, true))
  {
    var key, fin := StateKey(k), Flags(true, false, false, true);
    var first, second := Arrival(Event(0, k, fin, true)), Arrival(Event(0, Reverse(k), fin, false));
    OneEntryPerTuple(k, Reverse(k));
    run := [first, second];
    ReachedOneMore([], first);
    ReachedOneMore([first], second);
    assert [] + [first] == [first] && [first] + [second] == run;
    hide Reached;
    assert Reached([first])[key] == ConnValue(TCP_IDLE, Fins(false, false).With(k.direction));
  }

  /** Once a rule has, it can: a closing entry would have outlived the packet that a rule allows,
      and have ended 120 seconds after its second FIN. Evicted, it makes room for an open one. */
  lemma EvictionCanAdmit(k: ConnKey) returns (run: seq<Step>, more: seq<Step>)
    requires k.protocol == TCP
    ensures Monotone(run + more) && |more| == 2 && more[1].Arrival? && StateKey(more[1].event.key) == StateKey(k)
    ensures OutcomeOf(Reached(run + more[..1]), more[1]).Refused?
    ensures OutcomeOf(Reached(Evicting(run, {StateKey(k)}, more[..1])), more[1]).ByState?
  {
    hide Reached;
    var key, ack := StateKey(k), Flags(false, false, false, true);
    run := TwoFins(k);
    more := [Arrival(Event(1, k, ack, true)), Arrival(Event(TCP_CLOSING, k, ack, false))];
    assert more[..1] == [more[0]];
    ReachedOneMore(run, more[0]);
    StaysClosing(Reached(run), k, ack);
    var evicted := run + [Eviction({key})];
    ReachedOneMore(run, Eviction({key}));
    ReachedOneMore(evicted, more[0]);
    assert Evicting(run, {key}, more[..1]) == evicted + [more[0]];
    OpensAnew(Reached(evicted), k, ack);
  }

  lemma StaysClosing(t: Table, k: ConnKey, ack: Flags)
    requires StateKey(k) in t && t[StateKey(k)] == ConnValue(TCP_CLOSING, Fins(true, true)) && !ack.rst && !ack.syn
    ensures OutcomeOf(After(t, Arrival(Event(1, k, ack, true))), Arrival(Event(TCP_CLOSING, k, ack, false))).Refused?
  {
  }

  lemma OpensAnew(t: Table, k: ConnKey, ack: Flags)
    requires StateKey(k) !in t && k.protocol == TCP && !ack.rst && !ack.syn
    ensures OutcomeOf(After(t, Arrival(Event(1, k, ack, true))), Arrival(Event(TCP_CLOSING, k, ack, false))).ByState?
  {
  }

  // ----- when an eviction is harmless -----

  /** The latest arrival of a run. */
  function LastTime(run: seq<Step>): nat {
    if run == [] then 0
    else if run[|run| - 1].Arrival? then run[|run| - 1].event.now
    else LastTime(run[..|run| - 1])
  }

  /** An eviction may take these entries without ever adding an admission by state. */
  ghost predicate Harmless(run: seq<Step>, keys: set<ConnKey>) {
    forall more: seq<Step>, n ::
      0 <= n < |more| && more[n].Arrival? && Monotone(run + more)
      && OutcomeOf(Reached(Evicting(run, keys, more[..n])), more[n]).ByState?
      ==> OutcomeOf(Reached(run + more[..n]), more[n]).ByState?
  }

  /** None of the entries it takes is live any more. */
  ghost predicate TakesNoLive(run: seq<Step>, keys: set<ConnKey>) {
    forall key :: key in keys && key in Reached(run) ==> Reached(run)[key].expires <= LastTime(run)
  }

  lemma {:induction false} LastTimeIsLatest(run: seq<Step>)
    requires Monotone(run)
    ensures forall i :: 0 <= i < |run| && run[i].Arrival? ==> run[i].event.now <= LastTime(run)
  {
    if run != [] {
      var n := |run| - 1;
      LastTimeIsLatest(run[..n]);
      assert forall i :: 0 <= i < n ==> run[..n][i] == run[i];
    }
  }

  lemma {:induction false} SomebodyWasLast(run: seq<Step>)
    ensures LastTime(run) == 0 || exists i :: 0 <= i < |run| && run[i].Arrival? && run[i].event.now == LastTime(run)
  {
    if run != [] && !run[|run| - 1].Arrival? {
      SomebodyWasLast(run[..|run| - 1]);
      var before := run[..|run| - 1];
      if i :| 0 <= i < |before| && before[i].Arrival? && before[i].event.now == LastTime(before) {
        assert run[i] == before[i];
      }
    }
  }

  /** The next steps of a run come no earlier than its latest arrival. */
  lemma ComesLater(run: seq<Step>, more: seq<Step>, n: nat)
    requires Monotone(run + more) && n < |more| && more[n].Arrival?
    ensures LastTime(run) <= more[n].event.now
  {
    SomebodyWasLast(run);
    if i :| 0 <= i < |run| && run[i].Arrival? && run[i].event.now == LastTime(run) {
      assert (run + more)[i] == run[i] && (run + more)[|run| + n] == more[n];
    }
  }

  // ----- taking only expired entries is harmless -----

  /** The tables agree about the tuple, or one has an expired entry where the other has none. */
  predicate Alike(t: Table, t': Table, key: ConnKey, now: nat) {
    SameFor(t, t', key) || (key !in t' && key in t && t[key].expires <= now)
  }

  lemma AlikeStep(t: Table, t': Table, s: Step, key: ConnKey, now: nat)
    requires Alike(t, t', key, now) && (s.Arrival? ==> now <= s.event.now)
    ensures Alike(After(t, s), After(t', s), key, now)
    ensures s.Arrival? && StateKey(s.event.key) == key ==> OutcomeOf(t, s) == OutcomeOf(t', s)
  {
    if SameFor(t, t', key) {
      StepIsLocal(t, t', s, key);
    }
  }

  lemma {:induction false} StaysAlike(run: seq<Step>, keys: set<ConnKey>, more: seq<Step>, n: nat, key: ConnKey)
    requires n <= |more| && Monotone(run + more) && TakesNoLive(run, keys)
    ensures Alike(Reached(run + more[..n]), Reached(Evicting(run, keys, more[..n])), key, LastTime(run))
  {
    if n == 0 {
      assert run + more[..0] == run && Evicting(run, keys, more[..0]) == run + [Eviction(keys)];
      ReachedOneMore(run, Eviction(keys));
    } else {
      var s := more[n - 1];
      StaysAlike(run, keys, more, n - 1, key);
      OneMore(run, keys, more, n - 1);
      if s.Arrival? {
        ComesLater(run, more, n - 1);
      }
      AlikeStep(Reached(run + more[..n - 1]), Reached(Evicting(run, keys, more[..n - 1])), s, key, LastTime(run));
    }
  }

  lemma OneMoreOn(base: seq<Step>, more: seq<Step>, n: nat)
    requires n < |more|
    ensures Reached(base + more[..n + 1]) == After(Reached(base + more[..n]), more[n])
  {
    assert base + more[..n + 1] == (base + more[..n]) + [more[n]];
    hide Reached, After;
    ReachedOneMore(base + more[..n], more[n]);
  }

  lemma OneMore(run: seq<Step>, keys: set<ConnKey>, more: seq<Step>, n: nat)
    requires n < |more|
    ensures Reached(run + more[..n + 1]) == After(Reached(run + more[..n]), more[n])
    ensures Reached(Evicting(run, keys, more[..n + 1])) == After(Reached(Evicting(run, keys, more[..n])), more[n])
  {
    hide Reached, After;
    OneMoreOn(run, more, n);
    OneMoreOn(run + [Eviction(keys)], more, n);
  }

  lemma ExpiredIsHarmless(run: seq<Step>, keys: set<ConnKey>)
    requires TakesNoLive(run, keys)
    ensures Harmless(run, keys)
  {
    hide Reached;
    forall more: seq<Step>, n |
      0 <= n < |more| && more[n].Arrival? && Monotone(run + more)
      && OutcomeOf(Reached(Evicting(run, keys, more[..n])), more[n]).ByState?
      ensures OutcomeOf(Reached(run + more[..n]), more[n]).ByState?
    {
      var key := StateKey(more[n].event.key);
      StaysAlike(run, keys, more, n, key);
      ComesLater(run, more, n);
      AlikeStep(Reached(run + more[..n]), Reached(Evicting(run, keys, more[..n])), more[n], key, LastTime(run));
    }
  }

  // ----- taking a live entry is not -----

  /** What a run leaves in an entry: its key is oriented, only TCP entries see FINs, and the expiry
      is at most the idle time away, if it is closing at most the closing time. */
  predicate EntryOk(key: ConnKey, v: ConnValue, now: nat) {
    && StateKey(key) == key
    && (key.protocol != TCP ==> v.fins == Fins(false, false))
    && v.expires <= now + (if v.fins.Both() then TCP_CLOSING else Idle(key.protocol))
  }

  lemma EntryStaysOk(t: Table, s: Step, key: ConnKey, last: nat, now: nat)
    requires key in t ==> EntryOk(key, t[key], last)
    requires last <= now && (s.Arrival? ==> s.event.now == now) && key in After(t, s)
    ensures EntryOk(key, After(t, s)[key], now)
  {
  }

  lemma {:induction false} EntriesAreOk(run: seq<Step>, key: ConnKey)
    requires Monotone(run) && key in Reached(run)
    ensures EntryOk(key, Reached(run)[key], LastTime(run))
  {
    if run != [] {
      var n := |run| - 1;
      var before, s := run[..n], run[n];
      if key in Reached(before) {
        EntriesAreOk(before, key);
      }
      assert run == before + [s];
      if s.Arrival? {
        ComesLater(before, [s], 0);
      }
      EntryStaysOk(Reached(before), s, key, LastTime(before), LastTime(run));
    }
  }

  function Ack(key: ConnKey, now: nat, ruled: bool): Step {
    Arrival(Event(now, key, Flags(false, false, false, true), ruled))
  }

  /** A continuation by acknowledgements of one tuple. */
  lemma AcksAreMonotone(run: seq<Step>, more: seq<Step>)
    requires Monotone(run)
    requires forall i :: 0 <= i < |more| ==> more[i].Arrival? && LastTime(run) <= more[i].event.now
    requires forall i, j :: 0 <= i < j < |more| ==> more[i].event.now <= more[j].event.now
    ensures Monotone(run + more)
  {
    LastTimeIsLatest(run);
  }

  /** The entry keeps its expiry through a packet that a rule allows; evicted, it is made anew, and
      outlives it. */
  lemma RuleOutlives(t: Table, t': Table, key: ConnKey, a: nat)
    requires key in t && key !in t' && EntryOk(key, t[key], a) && a < t[key].expires < a + Idle(key.protocol)
    requires t[key].fins.Both() || t[key].expires - a > Idle(key.protocol) - REFRESH_INTERVAL
    ensures OutcomeOf(After(t, Ack(key, a, true)), Ack(key, t[key].expires, false)).Refused?
    ensures OutcomeOf(After(t', Ack(key, a, true)), Ack(key, t[key].expires, false)).ByState?
  {
  }

  /** A packet that state admits brings the entry to its full idle time; one that it refuses, after
      the eviction, leaves nothing. */
  lemma StateRefreshes(t: Table, t': Table, key: ConnKey, a: nat)
    requires key in t && key !in t' && EntryOk(key, t[key], a) && a < t[key].expires
    requires !t[key].fins.Both() && t[key].expires - a <= Idle(key.protocol) - REFRESH_INTERVAL
    ensures var u := After(t, Ack(key, a, false));
            key in u && u[key].expires == a + Idle(key.protocol) && !u[key].fins.Both() && EntryOk(key, u[key], a)
    ensures After(t', Ack(key, a, false)) == t'
  {
  }

  /** Evicting a live entry: a continuation in which state admits what it would have refused. */
  lemma LiveEvictionAdmits(run: seq<Step>, keys: set<ConnKey>, key: ConnKey) returns (more: seq<Step>, n: nat)
    requires Monotone(run) && key in keys && key in Reached(run) && Reached(run)[key].expires > LastTime(run)
    ensures n < |more| && more[n].Arrival? && Monotone(run + more)
    ensures OutcomeOf(Reached(Evicting(run, keys, more[..n])), more[n]).ByState?
    ensures OutcomeOf(Reached(run + more[..n]), more[n]).Refused?
  {
    hide Reached;
    EntriesAreOk(run, key);
    var l, idle, v := LastTime(run), Idle(key.protocol), Reached(run)[key];
    ReachedOneMore(run, Eviction(keys));
    var t, t' := Reached(run), Reached(run + [Eviction(keys)]);
    assert key !in t';
    if !v.fins.Both() && v.expires - l <= idle - REFRESH_INTERVAL {
      more := [Ack(key, l, false), Ack(key, l + 1, true), Ack(key, l + idle, false)];
      StateRefreshes(t, t', key, l);
      RuleOutlives(After(t, more[0]), t', key, l + 1);
      n := 2;
      TwoMore(run, keys, more);
    } else {
      var a := if v.expires == l + idle then l + 1 else l;
      more := [Ack(key, a, true), Ack(key, v.expires, false)];
      RuleOutlives(t, t', key, a);
      n := 1;
      OneFirst(run, keys, more);
    }
    AcksAreMonotone(run, more);
  }

  lemma OneFirst(run: seq<Step>, keys: set<ConnKey>, more: seq<Step>)
    requires |more| > 0
    ensures Reached(run + more[..1]) == After(Reached(run), more[0])
    ensures Reached(Evicting(run, keys, more[..1])) == After(Reached(run + [Eviction(keys)]), more[0])
  {
    assert run + more[..0] == run && Evicting(run, keys, more[..0]) == run + [Eviction(keys)];
    OneMore(run, keys, more, 0);
  }

  lemma TwoMore(run: seq<Step>, keys: set<ConnKey>, more: seq<Step>)
    requires |more| > 1
    ensures Reached(run + more[..2]) == After(After(Reached(run), more[0]), more[1])
    ensures Reached(Evicting(run, keys, more[..2])) == After(After(Reached(run + [Eviction(keys)]), more[0]), more[1])
  {
    OneFirst(run, keys, more);
    OneMore(run, keys, more, 1);
  }

  /** Exactly when an eviction is harmless: it never adds an admission by state, in any continuation
      with a monotone clock, if and only if every entry it takes had expired by the latest packet. */
  lemma EvictionIsHarmlessIff(run: seq<Step>, keys: set<ConnKey>)
    requires Monotone(run)
    ensures TakesNoLive(run, keys) <==> Harmless(run, keys)
  {
    hide Reached;
    if TakesNoLive(run, keys) {
      ExpiredIsHarmless(run, keys);
    } else {
      var key :| key in keys && key in Reached(run) && Reached(run)[key].expires > LastTime(run);
      var more, n := LiveEvictionAdmits(run, keys, key);
    }
  }
}
