/**
 The packet programs of one CPU: the registration loop, the order of the lookups, the
 connection table, the accounting, and the counter that every exit gives back.
*/
module PacketProgram {
  import opened PolicySets
  import opened Options
  import opened EngineKeys
  import opened SlotVerdict
  import Connections
  import FlowAccounting
  import P = SlotProtocol

  /** The packet reached the connection check. */
  predicate Reaches(v: Verdict) {
    v.Decided? && (v.reason.Connected? || v.reason.RuleAllowed? || v.reason.DefaultDeny?)
  }

  /** The decision about a packet registered on the slot, with the connection table as it is. */
  function VerdictOn(maps: Maps, slot: U32, epoch: U64, cgroup: Cgroup, w: Way, packet: Packet, now: U64,
                     t: Connections.Table): Verdict
    requires slot < 2
  {
    SlotDecision(maps, slot, cgroup, w, packet,
                 Connections.Admits(t, Connections.KeyFor(epoch, cgroup, w, packet), now, packet.flags))
  }

  /** What such a packet does to the connection table: nothing, unless it reaches the check. */
  function TableStep(maps: Maps, slot: U32, epoch: U64, cgroup: Cgroup, w: Way, packet: Packet, now: U64,
                     t: Connections.Table): Connections.Step
    requires slot < 2
  {
    if Reaches(VerdictOn(maps, slot, epoch, cgroup, w, packet, now, t))
    then Connections.Arrival(Connections.Event(now, Connections.KeyFor(epoch, cgroup, w, packet), packet.flags,
                                               RuleMatches(maps, slot, cgroup, w, packet)))
    else Connections.Eviction({})
  }

  lemma NoEffect(t: Connections.Table)
    ensures Connections.After(t, Connections.Eviction({})) == t
  {
  }

  // ----- registration -----

  /** One read of the active configuration. */
  datatype Reading = Reading(slot: U32, epoch: U64)

  /** Two reads for every attempt; None: there is no configuration. */
  type Readings = rs: seq<Option<Reading>> | |rs| == 2 * P.ATTEMPTS witness [None, None, None, None, None, None]

  /** What the registration loop makes of them, from attempt k on. */
  function Registration(rs: Readings, k: nat): (r: Option<Reading>)
    requires k <= P.ATTEMPTS
    ensures r.Some? ==> r.value.slot < 2
    decreases P.ATTEMPTS - k
  {
    if k == P.ATTEMPTS || rs[2 * k].None? || rs[2 * k].value.slot > 1 then None
    else if rs[2 * k + 1] == rs[2 * k] then rs[2 * k]
    else Registration(rs, k + 1)
  }

  /** The k-th attempt finds a usable configuration, and then another slot or another epoch, or
      nothing. */
  predicate Retries(rs: Readings, k: nat)
    requires k < P.ATTEMPTS
  {
    && rs[2 * k].Some? && rs[2 * k].value.slot < 2
    && (rs[2 * k + 1].None? || rs[2 * k + 1].value.slot != rs[2 * k].value.slot
        || rs[2 * k + 1].value.epoch != rs[2 * k].value.epoch)
  }

  /** Attempt k ends the loop with the configuration c: it has read slot and epoch of c twice. */
  predicate Validates(rs: Readings, k: nat, c: Reading)
    requires k < P.ATTEMPTS
  {
    && rs[2 * k].Some? && rs[2 * k].value.slot == c.slot < 2 && rs[2 * k].value.epoch == c.epoch
    && rs[2 * k + 1].Some? && rs[2 * k + 1].value.slot == c.slot && rs[2 * k + 1].value.epoch == c.epoch
  }

  /** What the loop answers if it ends with attempt m: after attempts that each found a change, the
      configuration it has read twice; or nothing, because there was no usable configuration, or
      all three attempts found a change. */
  predicate Answers(rs: Readings, m: nat, r: Option<Reading>) {
    && m <= P.ATTEMPTS
    && (forall j :: 0 <= j < m ==> Retries(rs, j))
    && (if r.Some? then m < P.ATTEMPTS && Validates(rs, m, r.value)
        else m < P.ATTEMPTS ==> rs[2 * m].None? || rs[2 * m].value.slot >= 2)
  }

  lemma {:induction false} LoopAnswers(rs: Readings, k: nat) returns (m: nat)
    requires k <= P.ATTEMPTS && forall j :: 0 <= j < k ==> Retries(rs, j)
    ensures Answers(rs, m, Registration(rs, k))
    decreases P.ATTEMPTS - k
  {
    m := k;
    if k < P.ATTEMPTS && Retries(rs, k) {
      m := LoopAnswers(rs, k + 1);
    }
  }

  /** There is exactly one answer, and it is the one the loop computes. */
  lemma RegistrationMeans(rs: Readings, r: Option<Reading>)
    ensures r == Registration(rs, 0) <==> exists m :: Answers(rs, m, r)
  {
    var n := LoopAnswers(rs, 0);
    if m :| Answers(rs, m, r) {
      assert m == n by {
        assert m < n ==> Retries(rs, m);
        assert n < m ==> Retries(rs, n);
      }
    }
  }

  // ----- the loop and the protocol -----

  /** What a packet of the protocol is about to load is what the readings say. */
  ghost predicate Loads<E>(rs: Readings, k: P.Shared<E>, r: P.Reader)
    requires r.attempt < P.ATTEMPTS
  {
    var first, second := rs[2 * r.attempt], rs[2 * r.attempt + 1];
    match r.phase
    case SlotRead(p, s) => first.Some? && first.value.slot == s && first.value.epoch == k.records.At(p).epoch
    case Repointed(_, _, p) => second.Some? && second.value.slot == k.records.At(p).slot
    case Rechecked(_, _, p) => second.Some? && second.value.epoch == k.records.At(p).epoch
    case _ => true
  }

  /** All that one packet ever loads in a run, it loads as the readings say. */
  ghost predicate LoadsThroughout<E>(rs: Readings, states: seq<P.State<E>>, acts: seq<P.Label<E>>, id: P.ReaderId)
    requires P.Run(states, acts)
  {
    forall i :: 0 <= i < |acts| && acts[i] == P.Label<E>.Step(id) && id in states[i].readers
                && states[i].readers[id].attempt < P.ATTEMPTS ==>
      Loads(rs, states[i].shared, states[i].readers[id])
  }

  /** Where the loop stands, by the phase of the packet. */
  ghost predicate InLoop(rs: Readings, r: P.Reader) {
    && r.attempt < P.ATTEMPTS
    && var first, second := rs[2 * r.attempt], rs[2 * r.attempt + 1];
       match r.phase
       case Fresh => Registration(rs, 0) == Registration(rs, r.attempt)
       case Pointed(_) => Registration(rs, 0) == Registration(rs, r.attempt)
       case SlotRead(_, _) => Registration(rs, 0) == Registration(rs, r.attempt)
       case EpochRead(s, e) => Registration(rs, 0) == Registration(rs, r.attempt) && Reads(first, s, e)
       case Registered(s, e) => Registration(rs, 0) == Registration(rs, r.attempt) && Reads(first, s, e)
       case Repointed(s, e, _) => Registration(rs, 0) == Registration(rs, r.attempt) && Reads(first, s, e)
       case Rechecked(s, e, _) =>
         && Registration(rs, 0) == Registration(rs, r.attempt) && Reads(first, s, e)
         && second.Some? && second.value.slot == s
       case Backing(_) => Registration(rs, 0) == Registration(rs, r.attempt + 1)
       case Holding(s, e) => Reads(Registration(rs, 0), s, e)
       case Blocked => Registration(rs, 0).None?
       case Finished => Registration(rs, 0).Some?
  }

  predicate Reads(c: Option<Reading>, slot: nat, epoch: nat) {
    c.Some? && c.value.slot == slot < 2 && c.value.epoch == epoch
  }

  lemma LoopStep<E>(rs: Readings, k: P.Shared<E>, r: P.Reader)
    requires InLoop(rs, r) && Loads(rs, k, r)
    ensures InLoop(rs, P.Advance(k, r))
  {
  }

  lemma {:induction false} LoopFollows<E>(rs: Readings, states: seq<P.State<E>>, acts: seq<P.Label<E>>, id: P.ReaderId,
                                          i: nat)
    requires P.Run(states, acts) && LoadsThroughout(rs, states, acts, id)
    requires i < |states| && id in states[i].readers
    ensures InLoop(rs, states[i].readers[id])
  {
    if i > 0 {
      assert P.Next(states[i - 1], states[i], acts[i - 1]);
      if id in states[i - 1].readers {
        LoopFollows(rs, states, acts, id, i - 1);
        if acts[i - 1] == P.Label<E>.Step(id) {
          LoopStep(rs, states[i - 1].shared, states[i - 1].readers[id]);
        }
      }
    }
  }

  /** In every run of the protocol, a packet that loads what the readings say is validated on exactly
      the slot and epoch the loop answers; and the loop has no answer exactly if it is turned away. */
  lemma RegistrationIsProtocol<E>(rs: Readings, states: seq<P.State<E>>, acts: seq<P.Label<E>>, id: P.ReaderId, i: nat)
    requires P.Run(states, acts) && LoadsThroughout(rs, states, acts, id)
    requires i < |states| && id in states[i].readers
    ensures match states[i].readers[id].phase
            case Holding(s, e) => Reads(Registration(rs, 0), s, e)
            case Blocked => Registration(rs, 0) == None
            case Finished => Registration(rs, 0).Some?
            case _ => true
  {
    LoopFollows(rs, states, acts, id, i);
  }

  // ----- the counters -----

  /** This CPU's counters after the step that the protocol gives a packet in that phase. */
  function Counted(counts: P.Pair<int>, phase: P.Phase): P.Pair<int> {
    var r := P.Reader(0, 0, 0, 0, phase);
    P.Pair(counts.zero + P.Delta(r, 0), counts.one + P.Delta(r, 1))
  }

  /** Entering and leaving cancel out, whether the packet backs off or is validated. */
  lemma LeavingUndoes(counts: P.Pair<int>, slot: P.Slot, epoch: nat)
    ensures Counted(Counted(counts, P.EpochRead(slot, epoch)), P.Backing(slot)) == counts
    ensures Counted(Counted(counts, P.EpochRead(slot, epoch)), P.Holding(slot, epoch)) == counts
  {
  }

  class Program {
    var maps: Maps
    const conn: Connections.ConnTable
    const flow: FlowAccounting.CpuFlow
    var inFlight: P.Pair<int>     // this CPU's registrations on each slot
    var guardBlocks: nat

    constructor (initial: Maps)
      ensures maps == initial && fresh(conn) && fresh(flow) && fresh(flow.counts) && fresh(flow.drops)
      ensures Valid() && conn.entries == map[] && inFlight == P.Pair(0, 0)
    {
      maps := initial;
      conn := new Connections.ConnTable();
      flow := new FlowAccounting.CpuFlow();
      inFlight := P.Pair(0, 0);
      guardBlocks := 0;
    }

    ghost predicate Valid()
      reads this, conn, flow
    {
      flow.Valid()
    }

    method Add(slot: P.Slot, d: int)
      modifies this`inFlight
      ensures inFlight == old(inFlight).With(slot, old(inFlight).At(slot) + d)
    {
      inFlight := inFlight.With(slot, inFlight.At(slot) + d);
    }

    /** The registration loop: increment, read again, decrement on a mismatch, at most three times.
        Whatever it has tried, it leaves at most the one registration it returns. */
    method Register(rs: Readings) returns (r: Option<Reading>)
      modifies this`inFlight
      ensures r == Registration(rs, 0)
      ensures exists k :: Answers(rs, k, r)
      ensures inFlight == if r.None? then old(inFlight)
                          else Counted(old(inFlight), P.EpochRead(r.value.slot, r.value.epoch))
    {
      RegistrationMeans(rs, Registration(rs, 0));
      for attempt := 0 to P.ATTEMPTS
        invariant inFlight == old(inFlight) && Registration(rs, 0) == Registration(rs, attempt)
      {
        var config := rs[2 * attempt];
        if config.None? || config.value.slot > 1 {
          return None;
        }
        var slot := config.value.slot;
        Add(slot, 1);
        if rs[2 * attempt + 1] == config {
          return config;
        }
        Add(slot, -1);
      }
      return None;
    }

    /** enforce_packet. It is decided by the slot it has registered on, and blocked if it could not
        register; and whichever way it leaves, it has given its registration back. */
    method EnforcePacket(rs: Readings, cgroup: Cgroup, w: Way, packet: Packet, now: U64, space: bool)
      returns (pass: bool, verdict: Verdict)
      requires Valid()
      modifies conn, flow, flow.counts, flow.drops, this`inFlight
      ensures Valid() && inFlight == old(inFlight)
      ensures var config := Registration(rs, 0);
              && verdict == (
                   if config.None? then Decided(false, NoConfig)
                   else VerdictOn(maps, config.value.slot, config.value.epoch, cgroup, w, packet, now,
                       old(conn.entries)))
              && conn.entries == (
                   if config.None? then old(conn.entries)
                   else Connections.After(
                          old(conn.entries),
                          TableStep(maps, config.value.slot, config.value.epoch, cgroup, w, packet, now,
                              old(conn.entries))))
      ensures Accounted(pass, verdict, w, now, space)
    {
      var config := Register(rs);
      if config.None? {
        verdict := Decided(false, NoConfig);
        pass := flow.Decide(now, w, false, NoConfig, space);
        return;
      }
      LeavingUndoes(inFlight, config.value.slot, config.value.epoch);
      pass, verdict := Judge(config.value.slot, config.value.epoch, cgroup, w, packet, now, space);
    }

    /** A decision is counted once, under its own label, and its event accounted for; a packet that
        merely passes is not. */
    twostate predicate Accounted(pass: bool, verdict: Verdict, w: Way, now: U64, space: bool)
      requires old(flow.Valid()) && flow.Valid()
      reads flow, flow.counts, flow.drops
    {
      && pass == (verdict.Pass? || verdict.allowed)
      && (verdict.Pass? ==>
            flow.Reading() == old(flow.Reading()) && flow.counts[..] == old(flow.counts[..]))
      && (verdict.Decided? ==>
            && flow.Reading() == FlowAccounting.Emitted(old(flow.Reading()), now, space)
            && flow.counts[..] == FlowAccounting.Bumped(
                 old(flow.counts[..]), FlowAccounting.Index(FlowAccounting.LabelOf(verdict.reason, w,
                     verdict.allowed))))
    }

    /** The end of every path that decides: decide, then decrement. */
    method Leave(slot: P.Slot, w: Way, allowed: bool, reason: Reason, now: U64, space: bool)
      returns (pass: bool, verdict: Verdict)
      requires Valid()
      modifies flow, flow.counts, flow.drops, this`inFlight
      ensures Valid() && verdict == Decided(allowed, reason) && Accounted(pass, verdict, w, now, space)
      ensures inFlight == old(inFlight).With(slot, old(inFlight).At(slot) - 1)
    {
      verdict := Decided(allowed, reason);
      pass := flow.Decide(now, w, allowed, reason, space);
      Add(slot, -1);
    }

    /** The end of the path without a subject: decrement only. */
    method PassUncounted(slot: P.Slot, ghost w: Way, ghost now: U64, ghost space: bool)
      requires Valid()
      modifies this`inFlight
      ensures Valid() && Accounted(true, Pass, w, now, space)
      ensures inFlight == old(inFlight).With(slot, old(inFlight).At(slot) - 1)
    {
      Add(slot, -1);
    }

    /** What follows a registration: every early exit of the program, in its order, each with its
        own decrement. */
    method Judge(slot: P.Slot, epoch: U64, cgroup: Cgroup, w: Way, packet: Packet, now: U64, space: bool)
      returns (pass: bool, verdict: Verdict)
      requires Valid()
      modifies conn, flow, flow.counts, flow.drops, this`inFlight
      ensures Valid() && inFlight == Counted(old(inFlight), P.Holding(slot, epoch))
      ensures verdict == VerdictOn(maps, slot, epoch, cgroup, w, packet, now, old(conn.entries))
      ensures conn.entries ==
              Connections.After(old(conn.entries),
                  TableStep(maps, slot, epoch, cgroup, w, packet, now, old(conn.entries)))
      ensures Accounted(pass, verdict, w, now, space)
    {
      hide RuleMatches, IsNodeAddress, IsSelfAddress, SubjectLookup, Covers, Connections.Admits;
      hide Connections.AfterRule, Connections.AfterAdmission, Connections.Refreshed, FlowAccounting.Emitted;
      hide FlowAccounting.Bumped, FlowAccounting.Index, FlowAccounting.LabelOf, Program.Accounted;
      NoEffect(conn.entries);
      var subject := SubjectLookup(maps, slot, cgroup);
      if subject.None? || !subject.value.State? {
        PassUncounted(slot, w, now, space);
        return true, Pass;
      }
      if !Covers(subject.value.isolated, w) {
        pass, verdict := Leave(slot, w, true, Unisolated, now, space);
        return;
      }
      if packet.status.PacketValid? {
        if IsNodeAddress(maps, slot, packet.Peer(w)) {
          pass, verdict := Leave(slot, w, true, NodeBypass, now, space);
          return;
        }
        if IsSelfAddress(maps, slot, cgroup, packet.source, packet.destination) {
          pass, verdict := Leave(slot, w, true, SelfBypass, now, space);
          return;
        }
      }
      if Covers(subject.value.quarantined, w) {
        pass, verdict := Leave(slot, w, false, Quarantined, now, space);
        return;
      }
      match packet.status {
        case PacketIPv6 =>
          pass, verdict := Leave(slot, w, false, IPv6, now, space);
        case PacketFragment =>
          pass, verdict := Leave(slot, w, false, Fragment, now, space);
        case PacketMalformed =>
          pass, verdict := Leave(slot, w, false, Malformed, now, space);
        case PacketUnsupported =>
          pass, verdict := Leave(slot, w, false, Unsupported, now, space);
        case PacketValid =>
          pass, verdict := JudgeConnection(slot, epoch, cgroup, w, packet, now, space);
      }
    }

    /** The last three exits: connection state, rules, default. */
    method JudgeConnection(slot: P.Slot, epoch: U64, cgroup: Cgroup, w: Way, packet: Packet, now: U64, space: bool)
      returns (pass: bool, verdict: Verdict)
      requires Valid()
      modifies conn, flow, flow.counts, flow.drops, this`inFlight
      ensures Valid() && inFlight == Counted(old(inFlight), P.Holding(slot, epoch))
      ensures var key, ruled := Connections.KeyFor(epoch, cgroup, w, packet),
              RuleMatches(maps, slot, cgroup, w, packet);
              && verdict == (
                   if Connections.Admits(old(conn.entries), key, now, packet.flags) then Decided(true, Connected)
                   else if ruled then Decided(true, RuleAllowed) else Decided(false, DefaultDeny))
              && conn.entries == Connections.After(
                   old(conn.entries), Connections.Arrival(Connections.Event(now, key, packet.flags, ruled)))
      ensures Accounted(pass, verdict, w, now, space)
    {
      hide RuleMatches, Connections.Admits, Connections.AfterRule;
      hide FlowAccounting.Emitted, FlowAccounting.Bumped, FlowAccounting.Index, FlowAccounting.LabelOf;
      var packetKey := Connections.KeyFor(epoch, cgroup, w, packet);
      var known := conn.AllowConnectionState(packetKey, now, packet.flags);
      if known {
        pass, verdict := Leave(slot, w, true, Connected, now, space);
        return;
      }
      if RuleMatches(maps, slot, cgroup, w, packet) {
        conn.RememberReverseConnection(packetKey, now, packet.flags);
        pass, verdict := Leave(slot, w, true, RuleAllowed, now, space);
        return;
      }
      pass, verdict := Leave(slot, w, false, DefaultDeny, now, space);
    }

    /** guard_packet: exempt traffic passes before it registers; anything else needs a registration
        and a classification of its own cgroup in that slot, and gives the registration back. A
        missing entry never grants access. */
    method GuardPacket(exempt: bool, rs: Readings, id: Cgroup) returns (allowed: bool)
      modifies this`guardBlocks, this`inFlight
      ensures inFlight == old(inFlight)
      ensures var config := Registration(rs, 0);
              allowed <==> exempt || (config.Some? && ClassKey(id, config.value.slot) in maps)
      ensures guardBlocks == if allowed then old(guardBlocks) else old(guardBlocks) + 1
    {
      if exempt {
        return true;
      }
      var config := Register(rs);
      allowed := false;
      if config.Some? {
        LeavingUndoes(old(inFlight), config.value.slot, config.value.epoch);
        allowed := ClassKey(id, config.value.slot) in maps;
        Add(config.value.slot, -1);
      }
      if !allowed {
        guardBlocks := guardBlocks + 1;
      }
    }
  }
}
