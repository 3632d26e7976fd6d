/**
 The connection table: one entry per canonical tuple, coalesced expiry writes,
 closing state. The methods are the packet program's; the functions beside them
 are what whole runs are proved about. Connection closing follows section 3.6 of
 RFC 9293.
*/
module Connections {
  import opened PolicySets
  import opened SlotVerdict

  const TCP_IDLE: nat := 24 * 60 * 60 * SECOND
  const TCP_CLOSING: nat := 120 * SECOND
  const UDP_IDLE: nat := 30 * SECOND
  const REFRESH_INTERVAL: nat := SECOND

  datatype ConnKey = ConnKey(
    epoch: U64, cgroup: Cgroup, source: U32, destination: U32, sourcePort: U16, destinationPort: U16, protocol: U8,
        direction: Way)

  function KeyFor(epoch: U64, cgroup: Cgroup, w: Way, packet: Packet): ConnKey {
    ConnKey(epoch, cgroup, packet.source, packet.destination, packet.sourcePort, packet.destinationPort,
        packet.protocol, w)
  }

  /** reverse_connection_key */
  function Reverse(k: ConnKey): ConnKey {
    k.(source := k.destination, destination := k.source, sourcePort := k.destinationPort,
       destinationPort := k.sourcePort, direction := if k.direction == 0 then 1 else 0)
  }

  /** connection_state_key: oriented as ingress. */
  function StateKey(k: ConnKey): ConnKey {
    if k.direction == 0 then Reverse(k) else k
  }

  /** Both directions of a tuple map to one entry, and nothing else does. */
  lemma OneEntryPerTuple(k: ConnKey, l: ConnKey)
    ensures StateKey(k) == StateKey(l) <==> l == k || l == Reverse(k)
    ensures StateKey(k) == StateKey(l) ==> k.epoch == l.epoch && k.cgroup == l.cgroup && k.protocol == l.protocol
  {
  }

  /** Entries are kept under the ingress side of their tuple. */
  lemma EntriesAreIngress(k: ConnKey)
    ensures StateKey(k).direction == 1
    ensures k.direction == 1 ==> StateKey(k) == k
  {
  }

  /** Two packets share an entry exactly when epoch, cgroup and protocol are the same and either both
      go the same way between the same ends, or they go opposite ways with addresses and ports
      exchanged. */
  lemma SameEntryMeans(e: U64, c: Cgroup, w: Way, q: Packet, e': U64, c': Cgroup, w': Way, r: Packet)
    ensures StateKey(KeyFor(e, c, w, q)) == StateKey(KeyFor(e', c', w', r)) <==>
              && e == e' && c == c' && q.protocol == r.protocol
              && if w == w' then
                   && q.source == r.source && q.sourcePort == r.sourcePort
                   && q.destination == r.destination && q.destinationPort == r.destinationPort
                 else
                   && q.source == r.destination && q.sourcePort == r.destinationPort
                   && q.destination == r.source && q.destinationPort == r.sourcePort
  {
  }

  // ----- one entry -----

  /** The directions in which a FIN has been seen. */
  datatype Fins = Fins(egress: bool, ingress: bool) {
    function With(w: Way): Fins {
      if w == 0 then Fins(true, ingress) else Fins(egress, true)
    }

    predicate Both() {
      egress && ingress
    }
  }

  datatype ConnValue = ConnValue(expires: nat, fins: Fins)

  function Idle(protocol: U8): nat {
    if protocol == TCP then TCP_IDLE else UDP_IDLE
  }

  predicate BareSyn(k: ConnKey, f: Flags) {
    k.protocol == TCP && f.syn && !f.ack
  }

  predicate Reset(k: ConnKey, f: Flags) {
    k.protocol == TCP && f.rst
  }

  predicate Fin(k: ConnKey, f: Flags) {
    k.protocol == TCP && f.fin
  }

  /** refresh_connection without interference */
  function Refreshed(v: ConnValue, k: ConnKey, now: nat, f: Flags): ConnValue {
    var fins := if Fin(k, f) then v.fins.With(k.direction) else v.fins;
    if fins.Both() then ConnValue(if v.fins.Both() then v.expires else now + TCP_CLOSING, fins)
    else if v.expires > now && v.expires - now > Idle(k.protocol) - REFRESH_INTERVAL then ConnValue(v.expires, fins)
    else ConnValue(now + Idle(k.protocol), fins)
  }

  function Initial(k: ConnKey, now: nat, f: Flags): ConnValue {
    ConnValue(now + Idle(k.protocol), if Fin(k, f) then Fins(false, false).With(k.direction) else Fins(false, false))
  }

  // ----- the table -----

  type Table = map<ConnKey, ConnValue>

  predicate Live(t: Table, k: ConnKey, now: nat) {
    StateKey(k) in t && t[StateKey(k)].expires > now
  }

  /** The answer of allow_connection_state. */
  predicate Admits(t: Table, k: ConnKey, now: nat, f: Flags) {
    !BareSyn(k, f) && Live(t, k, now)
  }

  function AfterAdmission(t: Table, k: ConnKey, now: nat, f: Flags): Table {
    if !Admits(t, k, now, f) then t
    else if Reset(k, f) then t - {StateKey(k)}
    else t[StateKey(k) := Refreshed(t[StateKey(k)], k, now, f)]
  }

  function AfterRule(t: Table, k: ConnKey, now: nat, f: Flags): Table {
    if Reset(k, f) then t - {StateKey(k)}
    else if !BareSyn(k, f) && Live(t, k, now) then t[StateKey(k) := Refreshed(t[StateKey(k)], k, now, f)]
    else t[StateKey(k) := Initial(k, now, f)]
  }

  class ConnTable {
    var entries: Table

    constructor ()
      ensures entries == map[]
    {
      entries := map[];
    }

    method RefreshConnection(key: ConnKey, packetKey: ConnKey, now: nat, f: Flags)
      requires key in entries
      modifies this
      ensures entries == old(entries)[key := Refreshed(old(entries)[key], packetKey, now, f)]
    {
      var fins := entries[key].fins;
      if Fin(packetKey, f) {
        var previous := fins;
        fins := previous.With(packetKey.direction);
        entries := entries[key := entries[key].(fins := fins)];
        if fins.Both() && !previous.Both() {
          entries := entries[key := entries[key].(expires := now + TCP_CLOSING)];
        }
      }
      if fins.Both() {
        return;
      }
      var expiry := entries[key].expires;
      if expiry > now && expiry - now > Idle(packetKey.protocol) - REFRESH_INTERVAL {
        return;
      }
      entries := entries[key := entries[key].(expires := now + Idle(packetKey.protocol))];
    }

    method RememberReverseConnection(packetKey: ConnKey, now: nat, f: Flags)
      modifies this
      ensures entries == AfterRule(old(entries), packetKey, now, f)
    {
      var key := StateKey(packetKey);
      if Reset(packetKey, f) {
        entries := entries - {key};
        return;
      }
      if BareSyn(packetKey, f) {
        entries := entries - {key};
      }
      if key in entries && entries[key].expires > now {
        RefreshConnection(key, packetKey, now, f);
        return;
      }
      entries := entries[key := Initial(packetKey, now, f)];
    }

    method AllowConnectionState(packetKey: ConnKey, now: nat, f: Flags) returns (allowed: bool)
      modifies this
      ensures allowed == Admits(old(entries), packetKey, now, f)
      ensures entries == AfterAdmission(old(entries), packetKey, now, f)
    {
      if BareSyn(packetKey, f) {
        return false;
      }
      var key := StateKey(packetKey);
      if key !in entries || entries[key].expires <= now {
        return false;
      }
      if Reset(packetKey, f) {
        entries := entries - {key};
        return true;
      }
      RefreshConnection(key, packetKey, now, f);
      return true;
    }
  }

  // ----- runs -----

  /** A packet that reaches the connection check: when, which, and whether a rule allows it. */
  datatype Event = Event(now: nat, key: ConnKey, flags: Flags, ruled: bool)

  /** A TCP packet with a FIN, going this way. */
  predicate IsFin(e: Event, w: Way) {
    e.key.protocol == 6 && e.flags.fin && e.key.direction == w
  }

  datatype Step = Arrival(event: Event) | Eviction(keys: set<ConnKey>)

  datatype Outcome = ByState | ByRule | Refused | NoPacket

  function OutcomeOf(t: Table, s: Step): Outcome {
    match s
    case Eviction(_) => NoPacket
    case Arrival(e) =>
      if Admits(t, e.key, e.now, e.flags) then ByState else if e.ruled then ByRule else Refused
  }

  function After(t: Table, s: Step): Table {
    match s
    case Eviction(keys) => t - keys
    case Arrival(e) =>
      if Admits(t, e.key, e.now, e.flags) then AfterAdmission(t, e.key, e.now, e.flags)
      else if e.ruled then AfterRule(t, e.key, e.now, e.flags)
      else t
  }

  /** The table after a run of steps. */
  function Reached(run: seq<Step>): Table {
    if run == [] then map[] else After(Reached(run[..|run| - 1]), run[|run| - 1])
  }

  lemma ReachedOneMore(run: seq<Step>, s: Step)
    ensures Reached(run + [s]) == After(Reached(run), s)
  {
    assert (run + [s])[..|run|] == run;
  }

  function Outcomes(run: seq<Step>, i: nat): Outcome
    requires i < |run|
  {
    OutcomeOf(Reached(run[..i]), run[i])
  }

  predicate Admitted(o: Outcome) {
    o.ByState? || o.ByRule?
  }

  /** The clock does not run backwards, and nanoseconds do not wrap. */
  ghost predicate Monotone(run: seq<Step>) {
    forall i, j :: 0 <= i < j < |run| && run[i].Arrival? && run[j].Arrival? ==> run[i].event.now <= run[j].event.now
  }

  predicate About(run: seq<Step>, i: nat, key: ConnKey)
    requires i < |run|
  {
    run[i].Arrival? && StateKey(run[i].event.key) == key
  }

  /** Step i was allowed by a rule for this tuple, and no reset of it was allowed since, before `upto`. */
  ghost predicate Vouches(run: seq<Step>, i: nat, upto: nat, key: ConnKey)
    requires i < upto <= |run|
  {
    && About(run, i, key) && Outcomes(run, i).ByRule?
    && forall j :: i <= j < upto && About(run, j, key) && Admitted(Outcomes(run, j)) ==>
         !(run[j].event.key.protocol == 6 && run[j].event.flags.rst)
  }

  lemma StillVouches(run: seq<Step>, i: nat, n: nat, key: ConnKey)
    requires i < n - 1 < |run| && Vouches(run, i, n - 1, key) && key in Reached(run[..n])
    ensures Vouches(run, i, n, key)
  {
    assert run[..n][..n - 1] == run[..n - 1];
  }

  /** Every entry goes back to a packet that a rule allowed. */
  lemma {:induction false} EntriesAreVouched(run: seq<Step>, n: nat, key: ConnKey)
    requires n <= |run| && key in Reached(run[..n])
    ensures exists i :: 0 <= i < n && Vouches(run, i, n, key)
  {
    if n > 0 {
      var before := run[..n - 1];
      assert run[..n][..n - 1] == before;
      var t := Reached(before);
      var last := run[n - 1];
      if About(run, n - 1, key) && Outcomes(run, n - 1).ByRule? {
        assert Vouches(run, n - 1, n, key);
      } else {
        assert key in t;
        EntriesAreVouched(run, n - 1, key);
        var i :| 0 <= i < n - 1 && Vouches(run, i, n - 1, key);
        StillVouches(run, i, n, key);
      }
    }
  }

  /** Whatever connection state allows, a rule allowed before: an earlier packet of the same
      epoch, cgroup and tuple, with no allowed reset in between; and it is not a bare SYN. */
  lemma StateOnlyContinues(run: seq<Step>, n: nat)
    requires n < |run| && Outcomes(run, n).ByState?
    ensures run[n].Arrival?
    ensures !(run[n].event.key.protocol == 6 && run[n].event.flags.syn && !run[n].event.flags.ack)
    ensures exists i :: 0 <= i < n && Vouches(run, i, n, StateKey(run[n].event.key))
              && run[i].event.key.epoch == run[n].event.key.epoch
              && run[i].event.key.cgroup == run[n].event.key.cgroup
  {
    var key := StateKey(run[n].event.key);
    EntriesAreVouched(run, n, key);
    var i :| 0 <= i < n && Vouches(run, i, n, key);
    OneEntryPerTuple(run[i].event.key, run[n].event.key);
  }

  // ----- against exact timers -----

  /** What exact timers would remember of a tuple: when its last packet was admitted, or, once
      FINs were seen both ways, when it ends. No expiry write is coalesced here. */
  datatype Track = Open(last: nat, fins: Fins) | Closing(until: nat)

  type Ledger = map<ConnKey, Track>

  function Started(e: Event): Track {
    Open(e.now, if Fin(e.key, e.flags) then Fins(false, false).With(e.key.direction) else Fins(false, false))
  }

  function Continued(tr: Track, e: Event): Track {
    match tr
    case Closing(_) => tr
    case Open(_, fins) =>
      var fins' := if Fin(e.key, e.flags) then fins.With(e.key.direction) else fins;
      if fins'.Both() then Closing(e.now + TCP_CLOSING) else Open(e.now, fins')
  }

  function Noted(l: Ledger, s: Step, o: Outcome): Ledger {
    match s
    case Eviction(keys) => l - keys
    case Arrival(e) =>
      var key := StateKey(e.key);
      if !Admitted(o) then l
      else if Reset(e.key, e.flags) then l - {key}
      else if o.ByState? && key in l then l[key := Continued(l[key], e)]
      else l[key := Started(e)]
  }

  function LedgerOf(run: seq<Step>): Ledger {
    if run == [] then map[]
    else
      var n := |run| - 1;
      Noted(LedgerOf(run[..n]), run[n], OutcomeOf(Reached(run[..n]), run[n]))
  }

  /** The coalesced expiry lies within one second below the exact one; a closing entry's is exact. */
  predicate Tracks(k: ConnKey, v: ConnValue, tr: Track) {
    match tr
    case Open(last, fins) =>
      v.fins == fins && !fins.Both() && last + Idle(k.protocol) - REFRESH_INTERVAL < v.expires <= last +
          Idle(k.protocol)
    case Closing(until) => v.fins.Both() && v.expires == until
  }

  predicate Earlier(tr: Track, now: nat) {
    tr.Open? ==> tr.last <= now
  }

  lemma RefreshTracks(v: ConnValue, k: ConnKey, now: nat, f: Flags, ruled: bool, tr: Track)
    requires Tracks(StateKey(k), v, tr) && Earlier(tr, now)
    ensures Tracks(StateKey(k), Refreshed(v, k, now, f), Continued(tr, Event(now, k, f, ruled)))
  {
  }

  ghost predicate InStep(t: Table, l: Ledger) {
    t.Keys == l.Keys && forall k :: k in t ==> Tracks(k, t[k], l[k])
  }

  ghost predicate NoLaterThan(l: Ledger, now: nat) {
    forall k :: k in l ==> Earlier(l[k], now)
  }

  lemma StepKeepsTrack(t: Table, l: Ledger, s: Step)
    requires InStep(t, l) && (s.Arrival? ==> NoLaterThan(l, s.event.now))
    ensures InStep(After(t, s), Noted(l, s, OutcomeOf(t, s)))
    ensures s.Arrival? ==> NoLaterThan(Noted(l, s, OutcomeOf(t, s)), s.event.now)
  {
    if s.Arrival? {
      var e := s.event;
      var key := StateKey(e.key);
      if Admits(t, e.key, e.now, e.flags) && !Reset(e.key, e.flags) {
        RefreshTracks(t[key], e.key, e.now, e.flags, e.ruled, l[key]);
      }
    }
  }

  lemma {:induction false} LedgerAges(run: seq<Step>, now: nat)
    requires forall i :: 0 <= i < |run| && run[i].Arrival? ==> run[i].event.now <= now
    ensures NoLaterThan(LedgerOf(run), now)
  {
    if run != [] {
      LedgerAges(run[..|run| - 1], now);
    }
  }

  /** The coalesced table refines the exact one, over every run with a monotone clock. */
  lemma {:induction false} ExpiriesTrackTimers(run: seq<Step>)
    requires Monotone(run)
    ensures InStep(Reached(run), LedgerOf(run))
  {
    if run != [] {
      var n := |run| - 1;
      ExpiriesTrackTimers(run[..n]);
      if run[n].Arrival? {
        LedgerAges(run[..n], run[n].event.now);
      }
      StepKeepsTrack(Reached(run[..n]), LedgerOf(run[..n]), run[n]);
    }
  }

  /** It admits nothing that an exact idle timeout would refuse, and everything that an idle
      timeout one second shorter would admit. A closing tuple ends exactly on time. */
  lemma AdmissionIsTimely(run: seq<Step>, e: Event)
    requires Monotone(run + [Arrival(e)])
    ensures var l, key := LedgerOf(run), StateKey(e.key);
            && (Admits(Reached(run), e.key, e.now, e.flags) ==> key in l)
            && (key in l && l[key].Open? ==>
                  && (Admits(Reached(run), e.key, e.now, e.flags) ==> e.now < l[key].last + Idle(e.key.protocol))
                  && (!BareSyn(e.key, e.flags) && e.now < l[key].last + Idle(e.key.protocol) - REFRESH_INTERVAL ==>
                        Admits(Reached(run), e.key, e.now, e.flags)))
            && (key in l && l[key].Closing? && !BareSyn(e.key, e.flags) ==>
                  (Admits(Reached(run), e.key, e.now, e.flags) <==> e.now < l[key].until))
  {
    var all := run + [Arrival(e)];
    assert forall i :: 0 <= i < |run| ==> all[i] == run[i];
    ExpiriesTrackTimers(run);
  }

  /** After each admitted packet of an open tuple the expiry is fresh to within a second. */
  lemma FreshAfterAdmission(run: seq<Step>, e: Event)
    requires Monotone(run + [Arrival(e)]) && Admitted(OutcomeOf(Reached(run), Arrival(e))) && !Reset(e.key, e.flags)
    ensures var t, key := Reached(run + [Arrival(e)]), StateKey(e.key);
            && key in t
            && (!t[key].fins.Both() ==>
                 e.now + Idle(e.key.protocol) - REFRESH_INTERVAL < t[key].expires <= e.now + Idle(e.key.protocol))
  {
    var all := run + [Arrival(e)];
    ExpiriesTrackTimers(all);
    assert all[..|run|] == run;
  }

  /** From the second FIN on, the entry ends 120 seconds after that FIN: no packet and no
      retransmitted FIN moves it; only a rule can start the tuple anew. */
  lemma {:induction false} ClosingIsFinal(run: seq<Step>, n: nat, m: nat, key: ConnKey)
    requires Monotone(run) && n <= m <= |run|
    requires key in LedgerOf(run[..n]) && LedgerOf(run[..n])[key].Closing?
    requires forall i :: n <= i < m && About(run, i, key) ==> !Outcomes(run, i).ByRule?
    ensures key in Reached(run[..m]) ==>
              && key in LedgerOf(run[..m]) && LedgerOf(run[..m])[key] == LedgerOf(run[..n])[key]
              && Reached(run[..m])[key].expires == LedgerOf(run[..n])[key].until
  {
    ExpiriesTrackTimers(run[..m]);
    if n < m {
      ClosingIsFinal(run, n, m - 1, key);
      ExpiriesTrackTimers(run[..m - 1]);
      assert run[..m][..m - 1] == run[..m - 1];
      assert run[m - 1].Arrival? && StateKey(run[m - 1].event.key) == key ==> About(run, m - 1, key);
      ClosingStays(Reached(run[..m - 1]), LedgerOf(run[..m - 1]), run[m - 1], key);
    }
  }

  lemma ClosingStays(t: Table, l: Ledger, s: Step, key: ConnKey)
    requires InStep(t, l) && (key in l ==> l[key].Closing?)
    requires s.Arrival? && StateKey(s.event.key) == key ==> !OutcomeOf(t, s).ByRule?
    ensures var after := Noted(l, s, OutcomeOf(t, s)); key in after ==> key in l && after[key] == l[key]
  {
  }

  /** The closing moment is set by the packet whose FIN completes the pair. */
  lemma ClosingStarts(run: seq<Step>, e: Event)
    requires Monotone(run + [Arrival(e)])
    requires var key := StateKey(e.key);
             var before, after := LedgerOf(run), LedgerOf(run + [Arrival(e)]);
             && key in after && after[key].Closing? && (key in before ==> before[key].Open?)
    ensures IsFin(e, e.key.direction)
    ensures LedgerOf(run + [Arrival(e)])[StateKey(e.key)].until == e.now + 120 * 1_000_000_000
  {
    var all := run + [Arrival(e)];
    assert all[..|run|] == run;
    assert forall i :: 0 <= i < |run| ==> all[i] == run[i];
    ExpiriesTrackTimers(run);
  }
}
