/**
 The kernel state that outlives the agent: configuration records and pointer,
 policy maps, ownership journal, link pins. What must hold of it after every
 single mutation, so that a crash there can be recovered, and which mutations the
 commit protocol allows.
*/
module DurableKernel {
  import opened PolicySets
  import opened EngineKeys
  import opened SlotProtocol
  import opened SlotVerdict
  import opened SlotShift

  datatype Kernel = Kernel(
    records: Pair<Config>,         // configuration_0 and configuration_1
    pointer: Slot,                 // which of them active_config points to
    maps: Maps,                    // the five policy maps, both slots
    owners: set<Cgroup>,           // subject_owners
    pins: set<(Cgroup, Way)>) {    // subject link pins
    function Epoch(): nat {
      records.At(pointer).epoch
    }

    function Idle(): Slot {
      1 - pointer
    }
  }

  const EPOCHS: nat := 0x1_0000_0000_0000_0000

  /** The kernel right after initialization. */
  const FRESH_KERNEL := Kernel(Pair(Config(0, 0), Config(0, 0)), 0, map[], {}, {})

  // ----- what is committed -----

  ghost function RowsOf(maps: Maps, s: nat): set<Row> {
    set k | k in maps && SlotOf(k) == s :: (k, maps[k])
  }

  datatype Committed = Committed(slot: nat, epoch: nat, rows: set<Row>)

  ghost function CommittedOf(k: Kernel): Committed {
    Committed(k.pointer, k.Epoch(), RowsOf(k.maps, k.pointer))
  }

  /** The rows are exactly those that the set installs. */
  ghost predicate IsImage(rows: set<Row>, slot: nat, p: PolicySet)
    requires slot < 2 && Valid(p)
  {
    forall row :: row in rows <==> Installs(slot, p, row)
  }

  /** The packet program and the engine mean the same by "the slot holds the set". */
  lemma ImageIsHolds(maps: Maps, slot: nat, p: PolicySet)
    requires slot < 2 && Valid(p)
    ensures IsImage(RowsOf(maps, slot), slot, p) <==> Holds(maps, slot, p)
  {
    forall row | Installs(slot, p, row)
      ensures SlotOf(row.0) == slot
    {
      RuleRowSlot(slot, p, row);
    }
    forall k, v
      ensures (k, v) in RowsOf(maps, slot) <==> k in maps && maps[k] == v && SlotOf(k) == slot
    {
    }
    if Holds(maps, slot, p) {
      forall row
        ensures row in RowsOf(maps, slot) <==> Installs(slot, p, row)
      {
        assert row == (row.0, row.1);
      }
    }
  }

  ghost predicate CommittedOk(c: Committed) {
    && c.slot < 2 && c.slot == c.epoch % 2 && c.epoch < EPOCHS
    && if c.epoch == 0 then c.rows == {} else exists p :: Valid(p) && IsImage(c.rows, c.slot, p)
  }

  ghost function SubjectsIn(rows: set<Row>): set<Cgroup> {
    set row | row in rows && row.0.SubjectKey? :: row.0.cgroup
  }

  ghost function ClassesIn(rows: set<Row>): set<Cgroup> {
    set row | row in rows && row.0.ClassKey? :: row.0.cgroup
  }

  // ----- what survives a crash must look like this -----

  predicate ShapeOk(k: Key, v: Value) {
    match k
    case SubjectKey(_, s) => s < 2 && v.State?
    case ClassKey(c, s) => s < 2 && c != 0 && v.Present?
    case NodeKey(s, _) => s < 2 && v.Present?
    case SelfKey(_, s, _) => s < 2 && v.Present?
    case RuleKey(len, m, _, _) => 96 <= len <= 128 && v.Present? && (m / 0x100_0000) % 0x40 == 0
  }

  ghost predicate Shaped(maps: Maps) {
    forall k :: k in maps ==> ShapeOk(k, maps[k])
  }

  ghost predicate ConfigOk(k: Kernel) {
    k.records.At(k.pointer).slot == k.pointer
  }

  /** A link pin implies an owner record. */
  ghost predicate PinsOwned(owners: set<Cgroup>, pins: set<(Cgroup, Way)>) {
    forall c, w :: (c, w) in pins ==> c in owners
  }

  /** A committed subject has its owner and both its links; a committed classification has its owner. */
  ghost predicate Linked(rows: set<Row>, owners: set<Cgroup>, pins: set<(Cgroup, Way)>) {
    && (forall c :: c in SubjectsIn(rows) ==> c in owners && (c, 0) in pins && (c, 1) in pins)
    && (forall c :: c in ClassesIn(rows) ==> c in owners)
  }

  ghost predicate Sound(k: Kernel) {
    && ConfigOk(k)
    && Shaped(k.maps)
    && CommittedOk(CommittedOf(k))
    && PinsOwned(k.owners, k.pins)
    && Linked(RowsOf(k.maps, k.pointer), k.owners, k.pins)
  }

  // ----- the writer's moves, on this state -----

  /** A kernel state, and whether the running agent knows the inactive slot to be unused. */
  datatype Moment = Moment(kernel: Kernel, quiet: bool)

  ghost function View(m: Moment): Shared<Row> {
    Shared(m.kernel.records, m.kernel.pointer, Pair(RowsOf(m.kernel.maps, 0), RowsOf(m.kernel.maps, 1)), m.quiet)
  }

  /** The step is one the commit protocol allows, or does not concern it. */
  ghost predicate Legal(m: Moment, n: Moment) {
    View(m) == View(n) || exists act :: WriterMove(View(m), View(n), act)
  }

  ghost predicate TraceOk(t: seq<Moment>) {
    && (forall i :: 0 <= i < |t| ==> Sound(t[i].kernel))
    && (forall i :: 0 <= i < |t| - 1 ==> Legal(t[i], t[i + 1]))
  }

  lemma TraceGrows(t: seq<Moment>, m: Moment)
    requires TraceOk(t) && |t| > 0 && Sound(m.kernel) && Legal(t[|t| - 1], m)
    ensures TraceOk(t + [m])
  {
    var u := t + [m];
    forall i | 0 <= i < |u| - 1
      ensures Legal(u[i], u[i + 1])
    {
      if i < |t| - 1 {
        assert u[i] == t[i] && u[i + 1] == t[i + 1];
      }
    }
  }

  // ----- single mutations -----

  lemma PutRowsOf(maps: Maps, k: Key, v: Value, s: nat)
    requires k !in maps
    ensures RowsOf(maps[k := v], s) == if SlotOf(k) == s then RowsOf(maps, s) + {(k, v)} else RowsOf(maps, s)
  {
  }

  lemma DeleteRowsOf(maps: Maps, k: Key, s: nat)
    requires k in maps
    ensures RowsOf(maps - {k}, s) == if SlotOf(k) == s then RowsOf(maps, s) - {(k, maps[k])} else RowsOf(maps, s)
  {
  }

  /** Writing a new row of the quiet inactive slot. */
  lemma PutIsLegal(k: Kernel, key: Key, v: Value)
    requires Sound(k) && key !in k.maps && SlotOf(key) == k.Idle() && ShapeOk(key, v)
    ensures var k' := k.(maps := k.maps[key := v]);
            && Sound(k') && CommittedOf(k') == CommittedOf(k)
            && RowsOf(k'.maps, k.Idle()) == RowsOf(k.maps, k.Idle()) + {(key, v)}
            && Legal(Moment(k, true), Moment(k', true))
  {
    var k' := k.(maps := k.maps[key := v]);
    PutRowsOf(k.maps, key, v, 0);
    PutRowsOf(k.maps, key, v, 1);
    assert WriterMove(View(Moment(k, true)), View(Moment(k', true)), Insert((key, v)));
  }

  lemma DeleteIsLegal(k: Kernel, key: Key)
    requires Sound(k) && key in k.maps && SlotOf(key) == k.Idle()
    ensures var k' := k.(maps := k.maps - {key});
            && Sound(k') && CommittedOf(k') == CommittedOf(k)
            && RowsOf(k'.maps, k.Idle()) == RowsOf(k.maps, k.Idle()) - {(key, k.maps[key])}
            && Legal(Moment(k, true), Moment(k', true))
  {
    var k' := k.(maps := k.maps - {key});
    DeleteRowsOf(k.maps, key, 0);
    DeleteRowsOf(k.maps, key, 1);
    assert WriterMove(View(Moment(k, true)), View(Moment(k', true)), Delete((key, k.maps[key])));
  }

  /** Journal and pin mutations do not concern the slots. */
  lemma JournalIsLegal(k: Kernel, quiet: bool, owners: set<Cgroup>, pins: set<(Cgroup, Way)>)
    requires Sound(k) && PinsOwned(owners, pins) && Linked(RowsOf(k.maps, k.pointer), owners, pins)
    ensures var k' := k.(owners := owners, pins := pins);
            Sound(k') && CommittedOf(k') == CommittedOf(k) && Legal(Moment(k, quiet), Moment(k', quiet))
  {
  }

  lemma RecordIsLegal(k: Kernel)
    requires Sound(k)
    ensures var k' := k.(records := k.records.With(k.Idle(), Config(k.Idle(), k.Epoch() + 1)));
            Sound(k') && CommittedOf(k') == CommittedOf(k) && Legal(Moment(k, true), Moment(k', true))
  {
    var k' := k.(records := k.records.With(k.Idle(), Config(k.Idle(), k.Epoch() + 1)));
    assert WriterMove(View(Moment(k, true)), View(Moment(k', true)), WriteRecord);
  }

  /** The commit: legal once the inactive slot holds a valid set and its subjects are linked. */
  lemma SwingIsLegal(k: Kernel, p: PolicySet)
    requires Sound(k) && k.Epoch() + 1 < EPOCHS && Valid(p)
    requires k.records.At(k.Idle()) == Config(k.Idle(), k.Epoch() + 1)
    requires IsImage(RowsOf(k.maps, k.Idle()), k.Idle(), p) && Linked(RowsOf(k.maps, k.Idle()), k.owners, k.pins)
    ensures var k' := k.(pointer := k.Idle());
            && Sound(k') && Legal(Moment(k, true), Moment(k', false))
            && CommittedOf(k') == Committed(k.Idle(), k.Epoch() + 1, RowsOf(k.maps, k.Idle()))
  {
    var k' := k.(pointer := k.Idle());
    assert WriterMove(View(Moment(k, true)), View(Moment(k', false)), Swing);
  }

  lemma QuiesceIsLegal(k: Kernel, quiet: bool)
    ensures Legal(Moment(k, quiet), Moment(k, true))
  {
    assert WriterMove(View(Moment(k, quiet)), View(Moment(k, true)), WriterLabel<Row>.Quiesce);
  }

  /** Whatever a set installs has the shape recovery demands. */
  lemma InstalledShape(slot: nat, p: PolicySet, row: Row)
    requires slot < 2 && Valid(p) && Installs(slot, p, row)
    ensures ShapeOk(row.0, row.1) && SlotOf(row.0) == slot
  {
    RuleRowSlot(slot, p, row);
    match row.0
    case RuleKey(_, _, _, _) =>
      var i :| 0 <= i < |p.rules| && row.0 == RuleKeyOf(slot, p.rules[i]);
      MetaUnpacks(slot, DirectionBit(p.rules[i].direction), p.rules[i].protocol, p.rules[i].port);
    case _ =>
  }
}
