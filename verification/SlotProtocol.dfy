/**
 The two-slot commit protocol as a state machine: one writer, any number of
 packet readers on any number of CPUs, one atomic step at a time.

 The writer owns two policy slots and two configuration records. A commit
 rewrites the record of the inactive slot and then swings one pointer. A packet
 reads the pointed record (pointer, slot and epoch are separate loads),
 increments its CPU's counter for the slot it read, reads the configuration
 again and backs off on a mismatch, at most three times. The writer may touch
 the retired slot only after it has seen a zero counter on every CPU, at
 different moments. A crash forgets what the writer has seen, and nothing else.
*/
module SlotProtocol {
  type Slot = s: nat | s < 2
  type Cpu = nat
  type ReaderId = nat

  /** One value per slot. */
  datatype Pair<T> = Pair(zero: T, one: T) {
    function At(s: Slot): T {
      if s == 0 then zero else one
    }

    function With(s: Slot, v: T): Pair<T> {
      if s == 0 then Pair(v, one) else Pair(zero, v)
    }
  }

  function Other(s: Slot): Slot {
    1 - s
  }

  /** The content of one configuration map: which slot it names, at which epoch. */
  datatype Config = Config(slot: nat, epoch: nat)

  // ----- the writer's side -----

  /** What the writer writes. `quiet` is not kernel state: it is what the running writer
      knows, namely that no packet can still use the inactive slot. */
  datatype Shared<E> = Shared(records: Pair<Config>, pointer: Slot, contents: Pair<set<E>>, quiet: bool) {
    function Epoch(): nat {
      records.At(pointer).epoch
    }

    function Idle(): Slot {
      Other(pointer)
    }
  }

  datatype WriterLabel<E> =
    | Insert(entry: E)
    | Delete(entry: E)
    | WriteRecord
    | Swing
    | Quiesce
    | Forget

  /** The discipline the agent obeys: only a quiet inactive slot is written, a record is
      written for the next epoch, the pointer moves only to such a record. */
  ghost predicate WriterMove<E>(k: Shared<E>, k': Shared<E>, act: WriterLabel<E>) {
    var idle := k.Idle();
    match act
    case Insert(e) => k.quiet && k' == k.(contents := k.contents.With(idle, k.contents.At(idle) + {e}))
    case Delete(e) => k.quiet && k' == k.(contents := k.contents.With(idle, k.contents.At(idle) - {e}))
    case WriteRecord => k.quiet && k' == k.(records := k.records.With(idle, Config(idle, k.Epoch() + 1)))
    case Swing =>
      && k.quiet
      && k.records.At(idle) == Config(idle, k.Epoch() + 1)
      && k' == k.(pointer := idle, quiet := false)
    case Quiesce => k' == k.(quiet := true)
    case Forget => k' == k.(quiet := false)
  }

  // ----- the readers' side -----

  datatype Phase =
    | Fresh                                              // about to load the pointer
    | Pointed(record: Slot)                              // pointer loaded
    | SlotRead(record: Slot, named: nat)                 // active_slot loaded
    | EpochRead(slot: Slot, epoch: nat)                  // policy_epoch loaded, about to register
    | Registered(slot: Slot, epoch: nat)                 // counter incremented
    | Repointed(slot: Slot, epoch: nat, record: Slot)    // pointer loaded again
    | Rechecked(slot: Slot, epoch: nat, record: Slot)    // slot compared equal
    | Backing(slot: Slot)                                // mismatch, about to deregister
    | Holding(slot: Slot, epoch: nat)                    // validated: may read policy maps
    | Blocked                                            // left the loop unregistered: REASON_CONFIG
    | Finished

  /** One packet. `born` and `since` are history: the active epoch when the packet first
      loaded the pointer, and when the current attempt did. */
  datatype Reader = Reader(cpu: Cpu, attempt: nat, born: nat, since: nat, phase: Phase) {
    /** The slot whose counter this reader has incremented and not yet decremented. */
    function Uses(): set<nat> {
      match phase
      case Registered(s, _) => {s}
      case Repointed(s, _, _) => {s}
      case Rechecked(s, _, _) => {s}
      case Backing(s) => {s}
      case Holding(s, _) => {s}
      case _ => {}
    }

    predicate Stopped() {
      phase.Blocked? || phase.Finished?
    }

    /** Registered for a slot and then shown by the pointer that the slot was the active one. */
    predicate Secured() {
      match phase
      case Repointed(s, _, p) => s == p
      case Rechecked(s, _, p) => s == p
      case Holding(_, _) => true
      case _ => false
    }
  }

  const ATTEMPTS := 3

  /** The next atomic step of a packet, as bpf/engine.c performs it. */
  function Advance<E>(k: Shared<E>, r: Reader): Reader {
    match r.phase
    case Fresh =>
      r.(phase := Pointed(k.pointer), since := k.Epoch(), born := if r.attempt == 0 then k.Epoch() else r.born)
    case Pointed(p) => r.(phase := SlotRead(p, k.records.At(p).slot))
    case SlotRead(p, s) =>
      r.(phase := if s > 1 then Blocked else EpochRead(s, k.records.At(p).epoch))
    case EpochRead(s, e) => r.(phase := Registered(s, e))
    case Registered(s, e) => r.(phase := Repointed(s, e, k.pointer))
    case Repointed(s, e, p) =>
      r.(phase := if k.records.At(p).slot == s then Rechecked(s, e, p) else Backing(s))
    case Rechecked(s, e, p) =>
      r.(phase := if k.records.At(p).epoch == e then Holding(s, e) else Backing(s))
    case Backing(s) =>
      if r.attempt + 1 < ATTEMPTS then r.(attempt := r.attempt + 1, phase := Fresh) else r.(phase := Blocked)
    case Holding(s, e) => r.(phase := Finished)
    case Blocked => r
    case Finished => r
  }

  // ----- the whole system -----

  datatype State<E> = State(
    shared: Shared<E>,
    cpus: set<Cpu>,
    counters: Pair<map<Cpu, int>>,      // in_flight, per slot and CPU
    scanned: set<Cpu>,                  // CPUs whose counter this scan has seen at zero
    readers: map<ReaderId, Reader>,
    committed: map<nat, set<E>>)        // history: what each epoch published

  datatype Label<E> =
    | Write(w: WriterLabel<E>)
    | Scan(cpu: Cpu)
    | Rescan
    | Spawn(id: ReaderId, cpu: Cpu)
    | Step(id: ReaderId)
    | Look(id: ReaderId, view: set<E>)

  /** The counter change a reader's step makes on its own CPU. */
  function Delta(r: Reader, s: Slot): int {
    match r.phase
    case EpochRead(u, _) => if u == s then 1 else 0
    case Backing(u) => if u == s then -1 else 0
    case Holding(u, _) => if u == s then -1 else 0
    case _ => 0
  }

  function Bump(counts: map<Cpu, int>, c: Cpu, d: int): map<Cpu, int> {
    if c in counts then counts[c := counts[c] + d] else counts
  }

  ghost predicate Next<E>(s: State<E>, s': State<E>, act: Label<E>) {
    var k := s.shared;
    match act
    case Write(w) =>
      && WriterMove(k, s'.shared, w)
      && (w.Quiesce? ==> s.cpus <= s.scanned)
      && s' == s.(
           shared := s'.shared,
           scanned := if w.Swing? || w.Forget? then {} else s.scanned,
           committed := if w.Swing? then s.committed[k.Epoch() + 1 := k.contents.At(k.Idle())] else s.committed)
    case Scan(c) =>
      && c in s.cpus && c in s.counters.At(k.Idle()) && s.counters.At(k.Idle())[c] == 0
      && s' == s.(scanned := s.scanned + {c})
    case Rescan => s' == s.(scanned := {})
    case Spawn(id, c) =>
      && id !in s.readers && c in s.cpus
      && s' == s.(readers := s.readers[id := Reader(c, 0, 0, 0, Fresh)])
    case Step(id) =>
      && id in s.readers && !s.readers[id].Stopped()
      && var r := s.readers[id];
         s' == s.(
           readers := s.readers[id := Advance(k, r)],
           counters := Pair(Bump(s.counters.zero, r.cpu, Delta(r, 0)), Bump(s.counters.one, r.cpu, Delta(r, 1))))
    case Look(id, view) =>
      && id in s.readers && s.readers[id].phase.Holding?
      && view == k.contents.At(s.readers[id].phase.slot)
      && s' == s
  }

  /** The kernel state right after the maps were created: slot 0 is active and empty at
      epoch 0, the other record is still all zero. */
  ghost predicate Init<E>(s: State<E>) {
    && s.shared == Shared(Pair(Config(0, 0), Config(0, 0)), 0, Pair({}, {}), false)
    && s.counters == Pair(map c | c in s.cpus :: 0, map c | c in s.cpus :: 0)
    && s.scanned == {}
    && s.readers == map[]
    && s.committed == map[0 := {}]
  }

  // ----- the invariant -----

  function Registrants(readers: map<ReaderId, Reader>, s: Slot, c: Cpu): set<ReaderId> {
    set id | id in readers && readers[id].cpu == c && s in readers[id].Uses()
  }

  /** Every counter equals the number of packets registered on that slot and CPU. */
  ghost predicate CountersExact<E>(s: State<E>) {
    forall u: Slot, c :: c in s.cpus ==>
      c in s.counters.At(u) && s.counters.At(u)[c] == |Registrants(s.readers, u, c)|
  }

  ghost predicate RecordsOk<E>(s: State<E>) {
    var k := s.shared;
    && k.records.At(k.pointer).slot == k.pointer
    && k.records.zero.slot == 0
    && (k.Epoch() > 0 ==> k.records.one.slot == 1)
    && k.records.zero.epoch % 2 == 0
    && (k.records.one.slot == 1 ==> k.records.one.epoch % 2 == 1)
    && k.pointer == k.Epoch() % 2
    && k.Epoch() in s.committed
    && (forall e :: e in s.committed ==> e <= k.Epoch())
    && s.committed[k.Epoch()] == k.contents.At(k.pointer)
  }

  /** A secured reader's slot still holds what its record's epoch committed; if the slot
      has been retired, the writer cannot have scanned the reader's CPU since. */
  ghost predicate SecuredOk<E>(s: State<E>, r: Reader)
    requires r.Secured()
  {
    var u := r.phase.slot;
    var k := s.shared;
    && (u != k.pointer ==> !k.quiet && r.cpu !in s.scanned)
    && k.records.At(u).slot == u
    && r.since <= k.records.At(u).epoch
    && k.records.At(u).epoch in s.committed
    && s.committed[k.records.At(u).epoch] == k.contents.At(u)
    && (r.phase.Holding? ==> r.phase.epoch == k.records.At(u).epoch)
  }

  /** What a reader between its pointer load and its comparison knows: as long as no
      commit has happened since, it has read the active record. */
  ghost predicate LoadOk<E>(s: State<E>, r: Reader) {
    var k := s.shared;
    match r.phase
    case Fresh => r.attempt > 0 ==> r.born + r.attempt <= k.Epoch()
    case Pointed(p) => p == r.since % 2 && k.records.At(p).slot == p
    case SlotRead(p, u) => u == p == r.since % 2
    case EpochRead(u, e) => u == r.since % 2 && (k.Epoch() == r.since ==> e == r.since)
    case Registered(u, e) => u == r.since % 2 && (k.Epoch() == r.since ==> e == r.since)
    case Repointed(u, e, p) =>
      && u == r.since % 2
      && k.records.At(p).slot == p
      && (k.Epoch() == r.since ==> e == r.since && p == u)
    case Rechecked(u, e, p) => u == p == r.since % 2 && (k.Epoch() == r.since ==> e == r.since)
    case Backing(_) => k.Epoch() > r.since
    case Blocked => k.Epoch() >= r.born + ATTEMPTS
    case _ => true
  }

  ghost predicate HistoryOk<E>(s: State<E>, r: Reader) {
    && r.attempt < ATTEMPTS
    && (!r.phase.Fresh? ==> r.born + r.attempt <= r.since <= s.shared.Epoch())
  }

  ghost predicate ReaderOk<E>(s: State<E>, r: Reader) {
    && r.cpu in s.cpus
    && HistoryOk(s, r)
    && LoadOk(s, r)
    && (r.Secured() ==> SecuredOk(s, r))
  }

  ghost predicate Inv<E>(s: State<E>) {
    && RecordsOk(s)
    && CountersExact(s)
    && (s.shared.quiet ==> forall id :: id in s.readers && s.readers[id].Secured() ==>
          s.readers[id].phase.slot == s.shared.pointer)
    && forall id :: id in s.readers ==> ReaderOk(s, s.readers[id])
  }

  lemma InitOk<E>(s: State<E>)
    requires Init(s)
    ensures Inv(s)
  {
    forall u: Slot, c | c in s.cpus
      ensures c in s.counters.At(u) && s.counters.At(u)[c] == |Registrants(s.readers, u, c)|
    {
      assert Registrants(s.readers, u, c) == {};
    }
  }

  // ----- preservation, one kind of step at a time -----

  lemma RegistrantsAfterStep(readers: map<ReaderId, Reader>, id: ReaderId, r': Reader, u: Slot, c: Cpu)
    requires id in readers && r'.cpu == readers[id].cpu
    ensures var r := readers[id];
            var d := (if u in r'.Uses() then 1 else 0) - (if u in r.Uses() then 1 else 0);
            |Registrants(readers[id := r'], u, c)| == |Registrants(readers, u, c)| + (if c == r.cpu then d else 0)
  {
    var r := readers[id];
    var before, after := Registrants(readers, u, c), Registrants(readers[id := r'], u, c);
    if c != r.cpu || (u in r.Uses() <==> u in r'.Uses()) {
      assert after == before;
    } else if u in r'.Uses() {
      assert after == before + {id} && id !in before;
    } else {
      assert after == before - {id} && id in before;
    }
  }

  lemma DeltaIsUse<E>(k: Shared<E>, r: Reader, u: Slot)
    ensures var r' := Advance(k, r);
            Delta(r, u) == (if u in r'.Uses() then 1 else 0) - (if u in r.Uses() then 1 else 0)
  {
  }

  lemma CountersAfterStep<E>(s: State<E>, s': State<E>, id: ReaderId)
    requires Inv(s) && Next(s, s', Step(id))
    ensures CountersExact(s')
  {
    var r := s.readers[id];
    forall u: Slot, c | c in s.cpus
      ensures c in s'.counters.At(u) && s'.counters.At(u)[c] == |Registrants(s'.readers, u, c)|
    {
      RegistrantsAfterStep(s.readers, id, Advance(s.shared, r), u, c);
      DeltaIsUse(s.shared, r, u);
      assert s'.counters.At(u) == Bump(s.counters.At(u), r.cpu, Delta(r, u));
    }
  }

  lemma StepKeeps<E>(s: State<E>, s': State<E>, id: ReaderId)
    requires Inv(s) && Next(s, s', Step(id))
    ensures Inv(s')
  {
    CountersAfterStep(s, s', id);
    MoverOk(s, s', id);
    hide CountersExact, ReaderOk;
    forall i | i in s'.readers && i != id
      ensures ReaderOk(s', s'.readers[i])
    {
      BystanderOk(s, s', s.readers[i]);
    }
  }

  lemma MoverOk<E>(s: State<E>, s': State<E>, id: ReaderId)
    requires Inv(s) && Next(s, s', Step(id))
    ensures ReaderOk(s', s'.readers[id])
    ensures s'.shared.quiet && s'.readers[id].Secured() ==> s'.readers[id].phase.slot == s'.shared.pointer
  {
    hide CountersExact;
    assert ReaderOk(s, s.readers[id]);
  }

  /** Another packet's step does not concern a packet. */
  lemma BystanderOk<E>(s: State<E>, s': State<E>, r: Reader)
    requires ReaderOk(s, r)
    requires s'.shared == s.shared && s'.cpus == s.cpus && s'.scanned == s.scanned && s'.committed == s.committed
    ensures ReaderOk(s', r)
  {
  }

  lemma WriteKeeps<E>(s: State<E>, s': State<E>, w: WriterLabel<E>)
    requires Inv(s) && Next(s, s', Write(w))
    ensures Inv(s')
  {
    RecordsAfterWrite(s, s', w);
    hide RecordsOk, CountersExact, ReaderOk, WriterMove;
    assert CountersExact(s') by {
      CountersStay(s, s');
    }
    forall i | i in s'.readers
      ensures ReaderOk(s', s'.readers[i])
      ensures s'.shared.quiet && s'.readers[i].Secured() ==> s'.readers[i].phase.slot == s'.shared.pointer
    {
      ReaderAfterWrite(s, s', w, s.readers[i]);
    }
  }

  lemma CountersStay<E>(s: State<E>, s': State<E>)
    requires CountersExact(s) && s'.cpus == s.cpus && s'.counters == s.counters && s'.readers == s.readers
    ensures CountersExact(s')
  {
  }

  lemma RecordsAfterWrite<E>(s: State<E>, s': State<E>, w: WriterLabel<E>)
    requires Inv(s) && Next(s, s', Write(w))
    ensures RecordsOk(s') && s'.cpus == s.cpus && s'.counters == s.counters && s'.readers == s.readers
  {
    hide CountersExact, ReaderOk;
  }

  lemma ReaderAfterWrite<E>(s: State<E>, s': State<E>, w: WriterLabel<E>, r: Reader)
    requires RecordsOk(s) && Next(s, s', Write(w)) && ReaderOk(s, r)
    requires s.shared.quiet && r.Secured() ==> r.phase.slot == s.shared.pointer
    ensures ReaderOk(s', r)
    ensures s'.shared.quiet && r.Secured() ==> r.phase.slot == s'.shared.pointer
  {
  }

  lemma SpawnKeeps<E>(s: State<E>, s': State<E>, id: ReaderId, c: Cpu)
    requires Inv(s) && Next(s, s', Spawn(id, c))
    ensures Inv(s')
  {
    forall u: Slot, d | d in s.cpus
      ensures d in s'.counters.At(u) && s'.counters.At(u)[d] == |Registrants(s'.readers, u, d)|
    {
      assert Registrants(s'.readers, u, d) == Registrants(s.readers, u, d);
    }
    forall i | i in s'.readers
      ensures ReaderOk(s', s'.readers[i])
    {
      if i != id {
        assert ReaderOk(s, s.readers[i]);
      }
    }
  }

  /** The heart of the non-atomic scan: a zero on one CPU, whenever it is read, shows that
      no secured reader of the retired slot runs there, and none can appear there later. */
  lemma ScanKeeps<E>(s: State<E>, s': State<E>, c: Cpu)
    requires Inv(s) && Next(s, s', Scan(c))
    ensures Inv(s')
  {
    var idle := s.shared.Idle();
    assert |Registrants(s.readers, idle, c)| == 0;
    forall i | i in s'.readers
      ensures ReaderOk(s', s'.readers[i])
    {
      var r := s.readers[i];
      assert ReaderOk(s, r);
      assert r.Secured() && r.phase.slot == idle && r.cpu == c ==> i in Registrants(s.readers, idle, c);
    }
  }

  lemma NextKeeps<E>(s: State<E>, s': State<E>, act: Label<E>)
    requires Inv(s) && Next(s, s', act)
    ensures Inv(s')
  {
    match act
    case Write(w) => WriteKeeps(s, s', w);
    case Scan(c) => ScanKeeps(s, s', c);
    case Rescan =>
      forall i | i in s'.readers ensures ReaderOk(s', s'.readers[i]) {
        assert ReaderOk(s, s.readers[i]);
      }
    case Spawn(id, c) => SpawnKeeps(s, s', id, c);
    case Step(id) => StepKeeps(s, s', id);
    case Look(_, _) =>
  }

  // ----- runs -----

  ghost predicate Run<E>(states: seq<State<E>>, acts: seq<Label<E>>) {
    && |states| == |acts| + 1
    && Init(states[0])
    && forall i :: 0 <= i < |acts| ==> Next(states[i], states[i + 1], acts[i])
  }

  lemma {:induction false} RunKeeps<E>(states: seq<State<E>>, acts: seq<Label<E>>, i: nat)
    requires Run(states, acts) && i < |states|
    ensures Inv(states[i])
  {
    if i == 0 {
      InitOk(states[0]);
    } else {
      RunKeeps(states, acts, i - 1);
      NextKeeps(states[i - 1], states[i], acts[i - 1]);
    }
  }

  lemma {:induction false} HistoryGrows<E>(states: seq<State<E>>, acts: seq<Label<E>>, i: nat, j: nat)
    requires Run(states, acts) && i <= j < |states|
    ensures states[i].committed.Keys <= states[j].committed.Keys
    ensures forall e :: e in states[i].committed ==> states[j].committed[e] == states[i].committed[e]
  {
    if i < j {
      HistoryGrows(states, acts, i, j - 1);
      RunKeeps(states, acts, j - 1);
      assert Next(states[j - 1], states[j], acts[j - 1]);
    }
  }

  /** Safety over whole runs: whatever a validated packet reads, at any moment, is the
      complete set published at the epoch it carries. That set never changes again, and it
      is no older than the configuration that was active when the packet arrived. */
  lemma ReadsAreCommitted<E>(states: seq<State<E>>, acts: seq<Label<E>>, i: nat, id: ReaderId, view: set<E>)
    requires Run(states, acts) && i < |acts| && acts[i] == Look(id, view)
    ensures id in states[i].readers && states[i].readers[id].phase.Holding?
    ensures var r := states[i].readers[id];
            && r.born <= r.since <= r.phase.epoch
            && r.phase.epoch in states[|acts|].committed
            && view == states[|acts|].committed[r.phase.epoch]
  {
    RunKeeps(states, acts, i);
    HistoryGrows(states, acts, i, |acts|);
    assert Next(states[i], states[i + 1], acts[i]);
    assert ReaderOk(states[i], states[i].readers[id]);
  }

  /** What the scan proves: once the writer is quiet, no packet is validated on the inactive
      slot, nor about to be, and a packet can get there only through the active pointer. */
  lemma QuietMeansUnused<E>(s: State<E>, s': State<E>, act: Label<E>, id: ReaderId)
    requires Inv(s) && Next(s, s', act) && id in s'.readers && s'.readers[id].Secured()
    ensures s'.shared.quiet ==> s'.readers[id].phase.slot == s'.shared.pointer
    ensures id in s.readers && !s.readers[id].Secured() ==> s'.readers[id].phase.slot == s'.shared.pointer
  {
    NextKeeps(s, s', act);
  }

  /** A packet is turned away with REASON_CONFIG only after three commits have landed
      inside its registration loop. */
  lemma BlockedMeansThreeCommits<E>(states: seq<State<E>>, acts: seq<Label<E>>, i: nat, id: ReaderId)
    requires Run(states, acts) && i < |states|
    requires id in states[i].readers && states[i].readers[id].phase.Blocked?
    ensures states[i].shared.Epoch() >= states[i].readers[id].born + 3
    ensures forall u: Slot :: id !in Registrants(states[i].readers, u, states[i].readers[id].cpu)
  {
    RunKeeps(states, acts, i);
    assert ReaderOk(states[i], states[i].readers[id]);
  }

  /** When all packets of a CPU have left a slot, and only then, its counter is zero. */
  lemma StoppedMeansZero<E>(s: State<E>, u: Slot, c: Cpu)
    requires Inv(s) && c in s.cpus
    ensures c in s.counters.At(u) && s.counters.At(u)[c] >= 0
    ensures s.counters.At(u)[c] == 0 <==> forall id :: id in s.readers && s.readers[id].cpu == c ==>
            u !in s.readers[id].Uses()
  {
    var all := Registrants(s.readers, u, c);
    if forall id :: id in s.readers && s.readers[id].cpu == c ==> u !in s.readers[id].Uses() {
      assert all == {};
    } else {
      var id :| id in s.readers && s.readers[id].cpu == c && u in s.readers[id].Uses();
      assert id in all;
    }
  }

  /** Nothing forgets what the scan has seen: no commit, no restart, no new scan. */
  ghost predicate OnePass<E>(acts: seq<Label<E>>, from: nat, to: nat) {
    forall k :: from <= k < to && k < |acts| ==>
      !acts[k].Rescan? && !(acts[k].Write? && (acts[k].w.Swing? || acts[k].w.Forget?))
  }

  lemma {:induction false} ScannedStays<E>(states: seq<State<E>>, acts: seq<Label<E>>, from: nat, to: nat)
    requires Run(states, acts) && from <= to < |states| && OnePass(acts, from, to)
    ensures states[from].scanned <= states[to].scanned && states[to].cpus == states[from].cpus
  {
    if from < to {
      ScannedStays(states, acts, from, to - 1);
      assert Next(states[to - 1], states[to], acts[to - 1]);
    }
  }

  /** One polling pass of WaitQuiescent: it reads every CPU's counter of the retired slot once,
      each at its own moment, while packets come and go, and finds each of them zero. That is
      enough: at the end the writer may take the slot for quiet, and no packet is or will be
      validated on it before the next commit. */
  lemma ZeroPassEntitles<E>(states: seq<State<E>>, acts: seq<Label<E>>, from: nat, to: nat)
    requires Run(states, acts) && from <= to < |states| && OnePass(acts, from, to)
    requires forall c :: c in states[from].cpus ==> exists k :: from <= k < to && acts[k] == Scan(c)
    ensures states[to].cpus <= states[to].scanned
    ensures forall id :: id in states[to].readers && states[to].readers[id].Secured() ==>
              states[to].readers[id].phase.slot == states[to].shared.pointer
  {
    ScannedStays(states, acts, from, to);
    forall c | c in states[to].cpus
      ensures c in states[to].scanned
    {
      var k :| from <= k < to && acts[k] == Scan(c);
      assert Next(states[k], states[k + 1], acts[k]);
      ScannedStays(states, acts, k + 1, to);
    }
    RunKeeps(states, acts, to);
    forall id | id in states[to].readers && states[to].readers[id].Secured()
      ensures states[to].readers[id].phase.slot == states[to].shared.pointer
    {
      assert ReaderOk(states[to], states[to].readers[id]);
    }
  }

  // ----- refinement: two slots behave like one atomic register -----

  /** One register holding the current epoch and set; a packet takes a snapshot of both. */
  datatype Register<E> = Register(epoch: nat, current: set<E>, held: map<ReaderId, (nat, set<E>)>)

  datatype Event<E> =
    | Publish(entries: set<E>)
    | Acquire(id: ReaderId)
    | Read(id: ReaderId, view: set<E>)
    | Release(id: ReaderId)
    | Internal

  ghost predicate RegisterNext<E>(a: Register<E>, a': Register<E>, event: Event<E>) {
    match event
    case Publish(v) => a' == a.(epoch := a.epoch + 1, current := v)
    case Acquire(id) => id !in a.held && a' == a.(held := a.held[id := (a.epoch, a.current)])
    case Read(id, view) => id in a.held && view == a.held[id].1 && a' == a
    case Release(id) => id in a.held && a' == a.(held := a.held - {id})
    case Internal => a' == a
  }

  /** The snapshot is taken at the second pointer load, provided the comparison that
      follows is going to succeed. */
  ghost predicate Snapshot<E>(s: State<E>, r: Reader) {
    r.Secured() && r.phase.epoch == s.shared.records.At(r.phase.slot).epoch && r.phase.epoch in s.committed
  }

  ghost function Abstract<E>(s: State<E>): Register<E> {
    Register(
      s.shared.Epoch(),
      s.shared.contents.At(s.shared.pointer),
      map id | id in s.readers && Snapshot(s, s.readers[id]) ::
        (s.readers[id].phase.epoch, s.committed[s.readers[id].phase.epoch]))
  }

  ghost function EventOf<E>(s: State<E>, act: Label<E>): Event<E> {
    match act
    case Write(w) => if w.Swing? then Publish(s.shared.contents.At(s.shared.Idle())) else Internal
    case Step(id) =>
      if id !in s.readers then Internal
      else
        var r := s.readers[id];
        if r.phase.Holding? then Release(id)
        else if r.phase.Registered? && r.phase.slot == s.shared.pointer && r.phase.epoch == s.shared.Epoch()
            then Acquire(id)
        else Internal
    case Look(id, view) => Read(id, view)
    case _ => Internal
  }

  /** The snapshot of every packet that does not move survives the step. */
  lemma SnapshotsStay<E>(s: State<E>, s': State<E>, act: Label<E>, id: ReaderId)
    requires Inv(s) && Next(s, s', act) && id in s.readers && !(act.Step? && act.id == id)
    ensures id in s'.readers && s'.readers[id] == s.readers[id]
    ensures Snapshot(s, s.readers[id]) <==> Snapshot(s', s.readers[id])
    ensures Snapshot(s, s.readers[id]) ==>
            s'.committed[s.readers[id].phase.epoch] == s.committed[s.readers[id].phase.epoch]
  {
    assert ReaderOk(s, s.readers[id]);
  }

  lemma MoverSnapshot<E>(s: State<E>, s': State<E>, id: ReaderId)
    requires Inv(s) && Next(s, s', Step(id))
    ensures var r, r' := s.readers[id], s'.readers[id];
            match EventOf(s, Step(id))
            case Acquire(_) => !Snapshot(s, r) && Snapshot(s', r') && r'.phase.epoch == s.shared.Epoch()
            case Release(_) => Snapshot(s, r) && !Snapshot(s', r')
            case _ => (Snapshot(s, r) <==> Snapshot(s', r')) && (Snapshot(s, r) ==> r'.phase.epoch == r.phase.epoch)
  {
    assert ReaderOk(s, s.readers[id]);
  }

  /** A register whose packets other than `id` are untouched. */
  ghost predicate OthersSame<E>(s: State<E>, s': State<E>, id: ReaderId) {
    && s'.readers.Keys == s.readers.Keys
    && s'.committed == s.committed
    && forall i :: i in s.readers && i != id ==>
         s'.readers[i] == s.readers[i] && (Snapshot(s, s.readers[i]) <==> Snapshot(s', s.readers[i]))
  }

  lemma StepRefines<E>(s: State<E>, s': State<E>, id: ReaderId)
    requires Inv(s) && Next(s, s', Step(id))
    ensures RegisterNext(Abstract(s), Abstract(s'), EventOf(s, Step(id)))
  {
    hide CountersExact, ReaderOk, Snapshot, OthersSame;
    MoverSnapshot(s, s', id);
    OthersStay(s, s', id);
    HeldAfterStep(s, s', id);
  }

  lemma OthersStay<E>(s: State<E>, s': State<E>, id: ReaderId)
    requires Inv(s) && Next(s, s', Step(id))
    ensures OthersSame(s, s', id)
  {
    hide Inv, Snapshot;
    forall i | i in s.readers && i != id
      ensures s'.readers[i] == s.readers[i] && (Snapshot(s, s.readers[i]) <==> Snapshot(s', s.readers[i]))
    {
      SnapshotsStay(s, s', Step(id), i);
    }
  }

  lemma HeldAfterStep<E>(s: State<E>, s': State<E>, id: ReaderId)
    requires id in s.readers && OthersSame(s, s', id)
    ensures var a, a' := Abstract(s), Abstract(s');
            a'.held == if Snapshot(s', s'.readers[id])
                       then a.held[id := (s'.readers[id].phase.epoch, s.committed[s'.readers[id].phase.epoch])]
                       else a.held - {id}
  {
  }

  lemma NextRefines<E>(s: State<E>, s': State<E>, act: Label<E>)
    requires Inv(s) && Next(s, s', act)
    ensures RegisterNext(Abstract(s), Abstract(s'), EventOf(s, act))
  {
    if act.Step? {
      StepRefines(s, s', act.id);
    } else {
      HeldStays(s, s', act);
      if act.Look? {
        assert ReaderOk(s, s.readers[act.id]);
      }
    }
  }

  lemma HeldStays<E>(s: State<E>, s': State<E>, act: Label<E>)
    requires Inv(s) && Next(s, s', act) && !act.Step?
    ensures Abstract(s').held == Abstract(s).held
  {
    forall i | i in s.readers
      ensures i in s'.readers && s'.readers[i] == s.readers[i]
      ensures Snapshot(s, s.readers[i]) <==> Snapshot(s', s.readers[i])
      ensures Snapshot(s, s.readers[i]) ==>
                s'.committed[s.readers[i].phase.epoch] == s.committed[s.readers[i].phase.epoch]
    {
      SnapshotsStay(s, s', act, i);
    }
    forall i | i in s'.readers && i !in s.readers ensures !Snapshot(s', s'.readers[i]) {
    }
  }

  /** Every run of the protocol is a run of the atomic register, step by step, and every
      read a packet makes is a read of its snapshot. */
  lemma RunRefines<E>(states: seq<State<E>>, acts: seq<Label<E>>)
    requires Run(states, acts)
    ensures Abstract(states[0]) == Register(0, {}, map[])
    ensures forall i :: 0 <= i < |acts| ==>
              RegisterNext(Abstract(states[i]), Abstract(states[i + 1]), EventOf(states[i], acts[i]))
  {
    forall i | 0 <= i < |acts|
      ensures RegisterNext(Abstract(states[i]), Abstract(states[i + 1]), EventOf(states[i], acts[i]))
    {
      RunKeeps(states, acts, i);
      NextRefines(states[i], states[i + 1], acts[i]);
    }
  }
}
