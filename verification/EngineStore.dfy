/**
 The store of the durable engine: the primitive kernel operations, each of which
 may fail without effect, and what the source builds from them. Every mutation is
 recorded, so that what holds "at every moment" can be stated. What may fail is asked
 of the World, so that what holds once nothing fails any more can be stated, too.
*/
module EngineStore {
  import opened Ordering
  import opened PolicySets
  import opened EngineKeys
  import opened SlotProtocol
  import opened SlotVerdict
  import opened DurableKernel
  import opened GuardCheck
  import opened Environment

  datatype Kind = Subjects | Classes | Nodes | Selfs | Rules

  function KindOf(k: Key): Kind {
    match k
    case SubjectKey(_, _) => Subjects
    case ClassKey(_, _) => Classes
    case NodeKey(_, _) => Nodes
    case SelfKey(_, _, _) => Selfs
    case RuleKey(_, _, _, _) => Rules
  }

  function KeysOfKind(maps: Maps, slot: nat, kind: Kind): set<Key> {
    set k | k in maps && SlotOf(k) == slot && KindOf(k) == kind
  }

  lemma KindIsGone(maps: Maps, slot: nat, kind: Kind)
    requires KeysOfKind(maps, slot, kind) == {}
    ensures forall row :: row in RowsOf(maps, slot) ==> KindOf(row.0) != kind
  {
    forall row | row in RowsOf(maps, slot)
      ensures KindOf(row.0) != kind
    {
      assert row.0 in maps && SlotOf(row.0) == slot;
      assert row.0 in KeysOfKind(maps, slot, kind) <==> KindOf(row.0) == kind;
    }
  }

  lemma NothingLeft(rows: set<Row>)
    requires forall row :: row in rows ==> KindOf(row.0) != Classes && KindOf(row.0) != Subjects
    requires forall row :: row in rows ==> KindOf(row.0) != Nodes && KindOf(row.0) != Selfs && KindOf(row.0) != Rules
    ensures rows == {}
  {
  }

  // ----- an encoding as rows -----

  function Marks(keys: seq<Key>): (rows: seq<Row>)
    ensures |rows| == |keys| && forall i :: 0 <= i < |keys| ==> rows[i] == (keys[i], Present)
  {
    seq(|keys|, i requires 0 <= i < |keys| => (keys[i], Present))
  }

  lemma MarkRows(keys: seq<Key>, row: Row)
    ensures row in Marks(keys) <==> row.1 == Present && row.0 in keys
  {
    if row.1 == Present && row.0 in keys {
      var i :| 0 <= i < |keys| && keys[i] == row.0;
      assert Marks(keys)[i] == row;
    }
  }

  /** The rows of the first n maps, in the order of population. */
  ghost function Stage(e: Encoded, n: nat): set<Row> {
    if n == 0 then {}
    else Stage(e, n - 1) + Elements(
      if n == 1 then e.subjects
      else if n == 2 then Marks(e.classified)
      else if n == 3 then Marks(e.nodes)
      else if n == 4 then Marks(e.selfs)
      else if n == 5 then Marks(e.rules) else [])
  }

  ghost function AllRows(e: Encoded): set<Row> {
    Stage(e, 5)
  }

  lemma StageKinds(e: Encoded, slot: nat)
    requires Writable(e.subjects, slot, Subjects) && Writable(Marks(e.classified), slot, Classes)
    requires Writable(Marks(e.nodes), slot, Nodes) && Writable(Marks(e.selfs), slot, Selfs)
    ensures forall row :: row in Stage(e, 1) ==> KindOf(row.0).Subjects?
    ensures forall row :: row in Stage(e, 2) ==> KindOf(row.0).Subjects? || KindOf(row.0).Classes?
    ensures forall row :: row in Stage(e, 3) ==> !KindOf(row.0).Selfs? && !KindOf(row.0).Rules?
    ensures forall row :: row in Stage(e, 4) ==> !KindOf(row.0).Rules?
  {
    assert Stage(e, 1) == Elements(e.subjects);
    assert Stage(e, 2) == Stage(e, 1) + Elements(Marks(e.classified));
    assert Stage(e, 3) == Stage(e, 2) + Elements(Marks(e.nodes));
    assert Stage(e, 4) == Stage(e, 3) + Elements(Marks(e.selfs));
  }

  lemma FirstStageKinds(e: Encoded, slot: nat)
    requires Writable(e.subjects, slot, Subjects)
    ensures forall row :: row in Stage(e, 1) ==> KindOf(row.0).Subjects?
  {
    assert Stage(e, 1) == Elements(e.subjects);
  }

  lemma Stages(e: Encoded)
    ensures Stage(e, 1) == {} + Elements(e.subjects)
    ensures Stage(e, 2) == Stage(e, 1) + Elements(Marks(e.classified))
    ensures Stage(e, 3) == Stage(e, 2) + Elements(Marks(e.nodes))
    ensures Stage(e, 4) == Stage(e, 3) + Elements(Marks(e.selfs))
    ensures AllRows(e) == Stage(e, 4) + Elements(Marks(e.rules))
  {
  }

  lemma AllRowsAre(e: Encoded)
    requires Kinds(e)
    ensures forall row :: row in AllRows(e) <==> HasRow(e, row)
  {
    Stages(e);
    forall row
      ensures row in AllRows(e) <==> HasRow(e, row)
    {
      MarkRows(e.classified, row);
      MarkRows(e.nodes, row);
      MarkRows(e.selfs, row);
      MarkRows(e.rules, row);
    }
  }

  lemma EncodingIsImage(e: Encoded, slot: nat, p: PolicySet)
    requires slot < 2 && Valid(p) && IsEncoding(e, slot, p)
    ensures IsImage(AllRows(e), slot, p)
  {
    AllRowsAre(e);
  }

  /** Rows of one map, ready to be written into an inactive slot that has none of that map. */
  ghost predicate Writable(rows: seq<Row>, slot: nat, kind: Kind) {
    && (forall i :: 0 <= i < |rows| ==>
         KindOf(rows[i].0) == kind && SlotOf(rows[i].0) == slot && ShapeOk(rows[i].0, rows[i].1))
    && (forall i, j :: 0 <= i < j < |rows| ==> rows[i].0 != rows[j].0)
  }

  lemma ListIsWritable(rows: seq<Row>, slot: nat, kind: Kind, p: PolicySet)
    requires slot < 2 && Valid(p) && StrictlySorted(rows, RowRank)
    requires forall i :: 0 <= i < |rows| ==> KindOf(rows[i].0) == kind && Installs(slot, p, rows[i])
    ensures Writable(rows, slot, kind)
  {
    forall i | 0 <= i < |rows|
      ensures SlotOf(rows[i].0) == slot && ShapeOk(rows[i].0, rows[i].1)
    {
      InstalledShape(slot, p, rows[i]);
    }
    forall i, j | 0 <= i < j < |rows|
      ensures rows[i].0 != rows[j].0
    {
      assert RowRank(rows[i]) < RowRank(rows[j]);
    }
  }

  lemma KeysAreWritable(keys: seq<Key>, slot: nat, kind: Kind, p: PolicySet)
    requires slot < 2 && Valid(p) && StrictlySorted(keys, Rank)
    requires forall k :: k in keys ==> KindOf(k) == kind && Installs(slot, p, (k, Present))
    ensures Writable(Marks(keys), slot, kind)
  {
    var rows := Marks(keys);
    forall i | 0 <= i < |rows|
      ensures KindOf(rows[i].0) == kind && Installs(slot, p, rows[i])
    {
      assert keys[i] in keys;
    }
    forall i, j | 0 <= i < j < |rows|
      ensures RowRank(rows[i]) < RowRank(rows[j])
    {
      assert Rank(keys[i]) < Rank(keys[j]);
    }
    ListIsWritable(rows, slot, kind, p);
  }

  lemma EncodingIsWritable(e: Encoded, slot: nat, p: PolicySet)
    requires slot < 2 && Valid(p) && IsEncoding(e, slot, p)
    ensures Writable(e.subjects, slot, Subjects) && Writable(Marks(e.classified), slot, Classes)
    ensures Writable(Marks(e.nodes), slot, Nodes) && Writable(Marks(e.selfs), slot, Selfs)
            && Writable(Marks(e.rules), slot, Rules)
  {
    forall row | HasRow(e, row)
      ensures Installs(slot, p, row)
    {
    }
    assert forall r :: r in e.subjects ==> HasRow(e, r);
    ListIsWritable(e.subjects, slot, Subjects, p);
    MarksInstalled(e, slot, p);
    KeysAreWritable(e.classified, slot, Classes, p);
    KeysAreWritable(e.nodes, slot, Nodes, p);
    KeysAreWritable(e.selfs, slot, Selfs, p);
    KeysAreWritable(e.rules, slot, Rules, p);
  }

  lemma MarksInstalled(e: Encoded, slot: nat, p: PolicySet)
    requires slot < 2 && Valid(p) && IsEncoding(e, slot, p)
    ensures forall k :: k in e.classified ==> KindOf(k) == Classes && Installs(slot, p, (k, Present))
    ensures forall k :: k in e.nodes ==> KindOf(k) == Nodes && Installs(slot, p, (k, Present))
    ensures forall k :: k in e.selfs ==> KindOf(k) == Selfs && Installs(slot, p, (k, Present))
    ensures forall k :: k in e.rules ==> KindOf(k) == Rules && Installs(slot, p, (k, Present))
  {
    forall k: Key
      ensures k in e.classified ==> HasRow(e, (k, Present))
      ensures k in e.nodes ==> HasRow(e, (k, Present))
      ensures k in e.selfs ==> HasRow(e, (k, Present))
      ensures k in e.rules ==> HasRow(e, (k, Present))
    {
    }
  }

  /** The next row's key is not in the maps yet. */
  lemma KeyIsFree(maps: Maps, slot: nat, base: set<Row>, rows: seq<Row>, i: nat, kind: Kind)
    requires i < |rows| && Writable(rows, slot, kind)
    requires RowsOf(maps, slot) == base + Elements(rows[..i])
    requires forall row :: row in base ==> KindOf(row.0) != kind
    ensures rows[i].0 !in maps
  {
    assert forall k :: k in maps && SlotOf(k) == slot ==> (k, maps[k]) in RowsOf(maps, slot);
  }

  lemma OneRowMore(base: set<Row>, rows: seq<Row>, i: nat)
    requires i < |rows|
    ensures base + Elements(rows[..i]) + {rows[i]} == base + Elements(rows[..i + 1])
  {
    assert rows[..i + 1] == rows[..i] + [rows[i]];
  }

  lemma AllRowsDone(rows: seq<Row>)
    ensures rows[..|rows|] == rows
  {
  }

  lemma ClassesAreListed(e: Encoded, owners: set<Cgroup>)
    requires Kinds(e) && forall k :: k in e.classified ==> k.ClassKey? && k.cgroup in owners
    ensures forall c :: c in ClassesIn(AllRows(e)) ==> c in owners
  {
    AllRowsAre(e);
    forall c | c in ClassesIn(AllRows(e))
      ensures c in owners
    {
      var row :| row in AllRows(e) && row.0.ClassKey? && row.0.cgroup == c;
      assert HasRow(e, row);
    }
  }

  /** A classification in the inactive slot has its owner. */
  ghost predicate IdleClassesOwned(k: Kernel) {
    ClassesIn(RowsOf(k.maps, k.Idle())) <= k.owners
  }

  lemma NoClassesYet(k: Kernel)
    requires forall row :: row in RowsOf(k.maps, k.Idle()) ==> KindOf(row.0) != Classes
    ensures IdleClassesOwned(k)
  {
  }

  lemma OwnedAfterOwner(k: Kernel, c: Cgroup)
    requires IdleClassesOwned(k)
    ensures IdleClassesOwned(k.(owners := k.owners + {c}))
  {
  }

  lemma OwnedAfterPut(k: Kernel, key: Key)
    requires IdleClassesOwned(k) && key.ClassKey? && key.cgroup in k.owners && key !in k.maps && SlotOf(key) == k.Idle()
    ensures IdleClassesOwned(k.(maps := k.maps[key := Present]))
  {
    PutRowsOf(k.maps, key, Present, k.Idle());
  }

  /** At no moment from then on has the inactive slot held a classification without its owner. */
  ghost predicate OwnedSince(t: seq<Moment>, from: int) {
    forall i :: 0 <= i < |t| && from <= i ==> IdleClassesOwned(t[i].kernel)
  }

  lemma OwnedOneMore(t: seq<Moment>, m: Moment, from: int)
    requires OwnedSince(t, from) && IdleClassesOwned(m.kernel)
    ensures OwnedSince(t + [m], from)
  {
  }

  datatype Removal = Removed | RefusedCommitted | RemovalFailed
  datatype Attachment = Attached | AttachedInPart | NothingAttached

  /** A slot whose counts are zero is empty. */
  ghost predicate CountsOk(populated: Pair<bool>, maps: Maps) {
    (!populated.zero ==> RowsOf(maps, 0) == {}) && (!populated.one ==> RowsOf(maps, 1) == {})
  }

  class Store {
    const world: World
    var kernel: Kernel
    var populated: Pair<bool>      // slotCounts[slot] is not all zero
    ghost var quiet: bool          // no packet can still use the inactive slot
    ghost var trace: seq<Moment>   // every kernel state since the store was opened
    ghost var mark: nat
    ghost var seen: set<Committed> // what has been committed at some moment since the mark

    ghost predicate Valid()
      reads this
    {
      && TraceOk(trace)
      && mark < |trace| && trace[|trace| - 1] == Moment(kernel, quiet)
      && (forall i :: mark <= i < |trace| ==> CommittedOf(trace[i].kernel) in seen)
      && Now() in seen
      && Sound(kernel)
      && CountsOk(populated, kernel.maps)
    }

    ghost function IdleRows(): set<Row>
      reads this
    {
      RowsOf(kernel.maps, kernel.Idle())
    }

    ghost function Now(): Committed
      reads this
    {
      CommittedOf(kernel)
    }

    constructor (k: Kernel, counts: Pair<bool>, w: World)
      requires Sound(k) && CountsOk(counts, k.maps)
      ensures Valid() && world == w && kernel == k && populated == counts && !quiet
      ensures trace == [Moment(k, false)] && seen == {CommittedOf(k)} && mark == 0
    {
      world := w;
      kernel := k;
      populated := counts;
      quiet := false;
      trace := [Moment(k, false)];
      mark := 0;
      seen := {CommittedOf(k)};
    }

    /** Watch what is committed from here on. */
    ghost method Mark()
      requires Valid()
      modifies this`mark, this`seen
      ensures Valid() && seen == {Now()} && mark == |trace| - 1
    {
      mark := |trace| - 1;
      seen := {Now()};
    }

    /** The one place where the kernel changes. */
    method Step(k: Kernel, ghost q: bool)
      requires Valid() && Sound(k) && Legal(Moment(kernel, quiet), Moment(k, q))
      requires CountsOk(populated, k.maps)
      modifies this`kernel, this`quiet, this`trace, this`seen
      ensures Valid() && kernel == k && quiet == q
      ensures trace == old(trace) + [Moment(k, q)] && seen == old(seen) + {CommittedOf(k)}
    {
      TraceGrows(trace, Moment(k, q));
      kernel := k;
      quiet := q;
      trace := trace + [Moment(k, q)];
      seen := seen + {CommittedOf(k)};
    }

    /** What has happened since concerns neither what is committed nor what the writer knows. */
    twostate predicate Calm()
      reads this
    {
      && Valid() && old(trace) <= trace
      && Now() == old(Now()) && seen == old(seen) && mark == old(mark) && quiet == old(quiet)
      && kernel.records == old(kernel.records) && kernel.pointer == old(kernel.pointer)
    }

    // ----- policy maps -----

    method PutRow(key: Key, v: Value) returns (ok: bool)
      requires Valid() && quiet
      requires key !in kernel.maps && SlotOf(key) == kernel.Idle() && ShapeOk(key, v) && populated.At(kernel.Idle())
      modifies this`kernel, this`quiet, this`trace, this`seen
      ensures Calm() && kernel.owners == old(kernel.owners) && kernel.pins == old(kernel.pins)
      ensures kernel.maps == if ok then old(kernel.maps)[key := v] else old(kernel.maps)
      ensures IdleRows() == if ok then old(IdleRows()) + {(key, v)} else old(IdleRows())
      ensures trace == if ok then old(trace) + [Moment(kernel, true)] else old(trace)
      ensures !world.failing ==> ok
    {
      ok := world.Permits();
      if ok {
        PutIsLegal(kernel, key, v);
        PutRowsOf(kernel.maps, key, v, 0);
        PutRowsOf(kernel.maps, key, v, 1);
        Step(kernel.(maps := kernel.maps[key := v]), true);
      }
    }

    method DeleteRow(key: Key) returns (ok: bool)
      requires Valid() && quiet
      requires key in kernel.maps && SlotOf(key) == kernel.Idle()
      modifies this`kernel, this`quiet, this`trace, this`seen
      ensures Calm() && kernel.owners == old(kernel.owners) && kernel.pins == old(kernel.pins)
      ensures kernel.maps == if ok then old(kernel.maps) - {key} else old(kernel.maps)
      ensures IdleRows() == if ok then old(IdleRows()) - {(key, old(kernel.maps)[key])} else old(IdleRows())
      ensures !world.failing ==> ok
    {
      ok := world.Permits();
      if ok {
        DeleteIsLegal(kernel, key);
        DeleteRowsOf(kernel.maps, key, 0);
        DeleteRowsOf(kernel.maps, key, 1);
        Step(kernel.(maps := kernel.maps - {key}), true);
      }
    }

    // ----- journal and pins -----

    method PutOwner(c: Cgroup) returns (ok: bool)
      requires Valid()
      modifies this`kernel, this`quiet, this`trace, this`seen
      ensures Calm() && kernel == old(kernel).(owners := if ok then old(kernel.owners) + {c} else old(kernel.owners))
      ensures trace == if ok then old(trace) + [Moment(kernel, quiet)] else old(trace)
      ensures !world.failing ==> ok
    {
      ok := world.Permits();
      if ok {
        JournalIsLegal(kernel, quiet, kernel.owners + {c}, kernel.pins);
        Step(kernel.(owners := kernel.owners + {c}), quiet);
      }
    }

    /** Only an owner that nothing refers to may go. */
    method DeleteOwner(c: Cgroup) returns (ok: bool)
      requires Valid()
      requires (c, 0) !in kernel.pins && (c, 1) !in kernel.pins
      requires c !in SubjectsIn(Now().rows) && c !in ClassesIn(Now().rows)
      modifies this`kernel, this`quiet, this`trace, this`seen
      ensures Calm() && kernel == old(kernel).(owners := if ok then old(kernel.owners) - {c} else old(kernel.owners))
      ensures !world.failing ==> ok
    {
      ok := world.Permits();
      if ok {
        assert PinsOwned(kernel.owners - {c}, kernel.pins) by {
          forall d, w | (d, w) in kernel.pins
            ensures d in kernel.owners - {c}
          {
            assert d in kernel.owners;
          }
        }
        JournalIsLegal(kernel, quiet, kernel.owners - {c}, kernel.pins);
        Step(kernel.(owners := kernel.owners - {c}), quiet);
      }
    }

    method PinLink(c: Cgroup, w: Way) returns (ok: bool)
      requires Valid() && c in kernel.owners
      modifies this`kernel, this`quiet, this`trace, this`seen
      ensures Calm() && kernel == old(kernel).(pins := if ok then old(kernel.pins) + {(c, w)} else old(kernel.pins))
      ensures !world.failing ==> ok
    {
      ok := world.Permits();
      if ok {
        JournalIsLegal(kernel, quiet, kernel.owners, kernel.pins + {(c, w)});
        Step(kernel.(pins := kernel.pins + {(c, w)}), quiet);
      }
    }

    /** removeOwnedEnginePinAt; a pin that is already gone counts as removed. */
    method UnpinLink(c: Cgroup, w: Way) returns (ok: bool)
      requires Valid() && c !in SubjectsIn(Now().rows)
      modifies this`kernel, this`quiet, this`trace, this`seen
      ensures Calm() && kernel == old(kernel).(pins := if ok then old(kernel.pins) - {(c, w)} else old(kernel.pins))
      ensures !world.failing ==> ok
    {
      ok := world.Permits();
      if ok {
        JournalIsLegal(kernel, quiet, kernel.owners, kernel.pins - {(c, w)});
        Step(kernel.(pins := kernel.pins - {(c, w)}), quiet);
      }
    }

    // ----- commit -----

    /** Flip: write the record of the inactive slot, then swing the pointer. */
    method Flip(slot: Slot, epoch: nat, ghost p: PolicySet) returns (ok: bool)
      requires Valid() && quiet && slot == kernel.Idle() && epoch == kernel.Epoch() + 1 < EPOCHS
      requires populated.At(slot)
      requires PolicySets.Valid(p) && IsImage(IdleRows(), slot, p) && Linked(IdleRows(), kernel.owners, kernel.pins)
      modifies this`kernel, this`quiet, this`trace, this`seen
      ensures Valid() && old(trace) <= trace && mark == old(mark)
      ensures kernel.maps == old(kernel.maps) && kernel.owners == old(kernel.owners) && kernel.pins == old(kernel.pins)
      ensures !ok ==> Now() == old(Now()) && seen == old(seen) && quiet && kernel.pointer == old(kernel.pointer)
      ensures ok ==> kernel.pointer == slot && Now() == Committed(slot, epoch, old(IdleRows()))
      ensures ok ==> seen == old(seen) + {Now()} && !quiet
      ensures !world.failing ==> ok
    {
      hide TraceOk, Sound, Linked, IsImage, Legal, CountsOk;
      ok := world.Permits();
      if !ok {
        return;
      }
      RecordIsLegal(kernel);
      Step(kernel.(records := kernel.records.With(slot, Config(slot, epoch))), true);
      ok := world.Permits();
      if !ok {
        return;
      }
      SwingIsLegal(kernel, p);
      Step(kernel.(pointer := slot), false);
    }

    /** WaitQuiescent: succeeds only after it has read a zero counter on every CPU. */
    method WaitQuiescent(slot: Slot) returns (ok: bool)
      requires Valid() && slot == kernel.Idle()
      modifies this`kernel, this`quiet, this`trace, this`seen
      ensures Valid() && old(trace) <= trace && mark == old(mark) && seen == old(seen) && kernel == old(kernel)
      ensures quiet == (old(quiet) || ok)
      ensures !world.failing ==> ok
    {
      ok := world.Permits();
      if ok {
        QuiesceIsLegal(kernel, quiet);
        Step(kernel, true);
      }
    }

    // ----- clearing a slot -----

    /** clearSubjectMap and its siblings: delete the slot's keys, in the order the iteration
        gives them, until a deletion fails. */
    method ClearMap(kind: Kind) returns (ok: bool)
      requires Valid() && quiet
      modifies this`kernel, this`quiet, this`trace, this`seen
      ensures Calm() && kernel.owners == old(kernel.owners) && kernel.pins == old(kernel.pins)
      ensures IdleRows() <= old(IdleRows())
      ensures ok ==> forall row :: row in IdleRows() ==> KindOf(row.0) != kind
      ensures !world.failing ==> ok
    {
      hide TraceOk, Sound, CountsOk;
      ok := world.Permits();
      if !ok {
        return;
      }
      var rest := KeysOfKind(kernel.maps, kernel.Idle(), kind);
      while rest != {}
        invariant Calm() && quiet
        invariant kernel.owners == old(kernel.owners) && kernel.pins == old(kernel.pins)
        invariant IdleRows() <= old(IdleRows())
        invariant rest == KeysOfKind(kernel.maps, kernel.Idle(), kind)
        decreases rest
      {
        var key :| key in rest;
        ok := DeleteRow(key);
        if !ok {
          return;
        }
        rest := rest - {key};
      }
      KindIsGone(kernel.maps, kernel.Idle(), kind);
      ok := true;
    }

    /** Clear the five maps; a failure in one does not stop the others. */
    method ClearMaps() returns (ok: bool)
      requires Valid() && quiet
      modifies this`kernel, this`quiet, this`trace, this`seen
      ensures Calm() && kernel.owners == old(kernel.owners) && kernel.pins == old(kernel.pins)
      ensures ok ==> IdleRows() == {}
      ensures !world.failing ==> ok
    {
      var classes := ClearMap(Classes);
      var subjects := ClearMap(Subjects);
      var nodes := ClearMap(Nodes);
      var selfs := ClearMap(Selfs);
      var rules := ClearMap(Rules);
      ok := classes && subjects && nodes && selfs && rules;
      if ok {
        NothingLeft(IdleRows());
      }
    }

    method ClearSlot(slot: Slot) returns (ok: bool)
      requires Valid() && quiet && slot == kernel.Idle()
      modifies this
      ensures Calm() && kernel.pins == old(kernel.pins) && kernel.owners <= old(kernel.owners)
      ensures ok ==> IdleRows() == {} && !populated.At(slot) && OwnersReferenced(kernel.owners)
      ensures populated.At(kernel.pointer) == old(populated.At(kernel.pointer))
      ensures !world.failing ==> ok
    {
      hide TraceOk, Sound;
      ok := ClearMaps();
      if ok {
        populated := populated.With(slot, false);
        ok := PruneUnreferencedOwners();
      }
    }

    /** Nothing committed and no pin refers to the owner. */
    predicate Unreferenced(c: Cgroup)
      reads this
    {
      && ClassKey(c, kernel.pointer) !in kernel.maps
      && SubjectKey(c, kernel.pointer) !in kernel.maps
      && (c, 0) !in kernel.pins && (c, 1) !in kernel.pins
    }

    lemma UnreferencedMeans(c: Cgroup)
      ensures SubjectKey(c, kernel.pointer) in kernel.maps <==> c in SubjectsIn(Now().rows)
      ensures ClassKey(c, kernel.pointer) in kernel.maps <==> c in ClassesIn(Now().rows)
    {
      var s, k := SubjectKey(c, kernel.pointer), ClassKey(c, kernel.pointer);
      if s in kernel.maps {
        assert (s, kernel.maps[s]) in Now().rows;
      }
      if k in kernel.maps {
        assert (k, kernel.maps[k]) in Now().rows;
      }
    }

    /** Each of them is needed: for a committed subject or classification, or for a pinned link. */
    ghost predicate OwnersReferenced(cs: set<Cgroup>)
      reads this
    {
      forall c :: c in cs ==>
        c in SubjectsIn(Now().rows) || c in ClassesIn(Now().rows) || (c, 0) in kernel.pins || (c, 1) in kernel.pins
    }

    method PruneUnreferencedOwners() returns (ok: bool)
      requires Valid()
      modifies this`kernel, this`quiet, this`trace, this`seen
      ensures Calm() && kernel == old(kernel).(owners := kernel.owners) && kernel.owners <= old(kernel.owners)
      ensures ok ==> OwnersReferenced(kernel.owners)
      ensures forall c :: c in old(kernel.owners) && c !in kernel.owners ==> !OwnersReferenced({c})
      ensures !world.failing ==> ok
    {
      hide TraceOk, Sound, CountsOk;
      var ids := Listing(kernel.owners);
      for i := 0 to |ids|
        invariant Calm() && kernel == old(kernel).(owners := kernel.owners) && kernel.owners <= old(kernel.owners)
        invariant OwnersReferenced(set j | 0 <= j < i && ids[j] in kernel.owners :: ids[j])
        invariant forall c :: c in old(kernel.owners) && c !in kernel.owners ==> !OwnersReferenced({c})
      {
        UnreferencedMeans(ids[i]);
        if Unreferenced(ids[i]) {
          ok := DeleteOwner(ids[i]);
          if !ok {
            return;
          }
        }
      }
      ok := true;
    }

    // ----- populating a slot -----

    /** Write the rows of one map; a failure leaves some of them written. */
    method PutRows(rows: seq<Row>, kind: Kind, ghost base: set<Row>) returns (ok: bool)
      requires Valid() && quiet && populated.At(kernel.Idle())
      requires Writable(rows, kernel.Idle(), kind)
      requires IdleRows() == base && forall row :: row in base ==> KindOf(row.0) != kind
      modifies this`kernel, this`quiet, this`trace, this`seen
      ensures Calm() && kernel.owners == old(kernel.owners) && kernel.pins == old(kernel.pins)
      ensures ok ==> IdleRows() == base + Elements(rows)
      ensures !world.failing ==> ok
    {
      for i := 0 to |rows|
        invariant Calm() && quiet
        invariant kernel.owners == old(kernel.owners) && kernel.pins == old(kernel.pins)
        invariant IdleRows() == base + Elements(rows[..i])
      {
        KeyIsFree(kernel.maps, kernel.Idle(), base, rows, i, kind);
        OneRowMore(base, rows, i);
        ok := PutRow(rows[i].0, rows[i].1);
        if !ok {
          return;
        }
      }
      AllRowsDone(rows);
      ok := true;
    }

    /** One classification, after its owner. */
    method PutClass(key: Key, ghost from: int) returns (ok: bool)
      requires Valid() && quiet && populated.At(kernel.Idle())
      requires key !in kernel.maps && SlotOf(key) == kernel.Idle() && key.ClassKey? && ShapeOk(key, Present)
      requires OwnedSince(trace, from) && IdleClassesOwned(kernel)
      modifies this`kernel, this`quiet, this`trace, this`seen
      ensures Calm() && old(kernel.owners) <= kernel.owners && kernel.pins == old(kernel.pins)
      ensures ok ==> IdleRows() == old(IdleRows()) + {(key, Present)} && key.cgroup in kernel.owners
      ensures OwnedSince(trace, from) && IdleClassesOwned(kernel)
      ensures !world.failing ==> ok
    {
      hide TraceOk, Sound, CountsOk, IdleClassesOwned, OwnedSince;
      OwnedAfterOwner(kernel, key.cgroup);
      OwnedOneMore(trace, Moment(kernel.(owners := kernel.owners + {key.cgroup}), quiet), from);
      ok := RememberOwner(key.cgroup);
      if !ok {
        return;
      }
      OwnedAfterPut(kernel, key);
      OwnedOneMore(trace, Moment(kernel.(maps := kernel.maps[key := Present]), true), from);
      ok := PutRow(key, Present);
    }

    /** Classifications: the owner goes into the journal before the classification. */
    method PutClassified(keys: seq<Key>, ghost base: set<Row>) returns (ok: bool)
      requires Valid() && quiet && populated.At(kernel.Idle())
      requires Writable(Marks(keys), kernel.Idle(), Classes)
      requires IdleRows() == base && forall row :: row in base ==> KindOf(row.0) != Classes
      modifies this`kernel, this`quiet, this`trace, this`seen
      ensures Calm() && old(kernel.owners) <= kernel.owners && kernel.pins == old(kernel.pins)
      ensures ok ==> IdleRows() == base + Elements(Marks(keys))
      ensures ok ==> forall k :: k in keys ==> k.ClassKey? && k.cgroup in kernel.owners
      ensures OwnedSince(trace, |old(trace)| - 1)
      ensures !world.failing ==> ok
    {
      hide TraceOk, Sound, CountsOk, IdleClassesOwned;
      var rows := Marks(keys);
      ghost var from := |trace| - 1;
      NoClassesYet(kernel);
      for i := 0 to |rows|
        invariant Calm() && quiet && OwnedSince(trace, from) && IdleClassesOwned(kernel)
        invariant old(kernel.owners) <= kernel.owners && kernel.pins == old(kernel.pins)
        invariant IdleRows() == base + Elements(rows[..i])
        invariant forall j :: 0 <= j < i ==> keys[j].ClassKey? && keys[j].cgroup in kernel.owners
      {
        assert KindOf(rows[i].0) == Classes;
        KeyIsFree(kernel.maps, kernel.Idle(), base, rows, i, Classes);
        OneRowMore(base, rows, i);
        ok := PutClass(keys[i], from);
        if !ok {
          return;
        }
      }
      AllRowsDone(rows);
      ok := true;
    }

    /** rememberOwner: resolving, validating and comparing the identity may all fail first. */
    method RememberOwner(c: Cgroup) returns (ok: bool)
      requires Valid()
      modifies this`kernel, this`quiet, this`trace, this`seen
      ensures Calm() && kernel == old(kernel).(owners := if ok then old(kernel.owners) + {c} else old(kernel.owners))
      ensures trace == if ok then old(trace) + [Moment(kernel, quiet)] else old(trace)
      ensures !world.failing ==> ok
    {
      ok := PutOwner(c);
    }

    method PopulateSlot(slot: Slot, p: PolicySet) returns (ok: bool)
      requires Valid() && quiet && slot == kernel.Idle()
      modifies this
      ensures Calm() && old(kernel.owners) <= kernel.owners && kernel.pins == old(kernel.pins)
      ensures populated.At(kernel.pointer) == old(populated.At(kernel.pointer))
      ensures ok ==> PolicySets.Valid(p) && IsImage(IdleRows(), slot, p) && populated.At(slot)
      ensures ok ==> forall c :: c in ClassesIn(IdleRows()) ==> c in kernel.owners
      ensures !world.failing && PolicySets.Valid(p) && !old(populated.At(slot)) ==> ok
    {
      hide TraceOk, Sound, IsImage, IsEncoding;
      var encoded := EncodePolicySet(slot, p);
      if encoded.None? {
        return false;
      }
      if populated.At(slot) {
        return false;  // "was not empty before population"
      }
      ok := world.Permits();   // map capacities
      if !ok {
        return;
      }
      populated := populated.With(slot, true);
      ok := PutEncoded(slot, p, encoded.value);
    }

    method PutEncoded(slot: Slot, p: PolicySet, e: Encoded) returns (ok: bool)
      requires Valid() && quiet && slot == kernel.Idle() && populated.At(slot) && IdleRows() == {}
      requires PolicySets.Valid(p) && IsEncoding(e, slot, p)
      modifies this`kernel, this`quiet, this`trace, this`seen
      ensures Calm() && old(kernel.owners) <= kernel.owners && kernel.pins == old(kernel.pins)
      ensures ok ==> IsImage(IdleRows(), slot, p)
      ensures ok ==> forall c :: c in ClassesIn(IdleRows()) ==> c in kernel.owners
      ensures !world.failing ==> ok
    {
      EncodingIsWritable(e, slot, p);
      ok := PutWorkloads(slot, e);
      if ok {
        ok := PutAddressesAndRules(slot, e);
      }
      if ok {
        EncodingIsImage(e, slot, p);
        ClassesAreListed(e, kernel.owners);
      }
    }

    method PutWorkloads(slot: Slot, e: Encoded) returns (ok: bool)
      requires Valid() && quiet && slot == kernel.Idle() && populated.At(slot) && IdleRows() == {}
      requires Writable(e.subjects, slot, Subjects) && Writable(Marks(e.classified), slot, Classes)
      modifies this`kernel, this`quiet, this`trace, this`seen
      ensures Calm() && old(kernel.owners) <= kernel.owners && kernel.pins == old(kernel.pins)
      ensures ok ==> IdleRows() == Stage(e, 2)
      ensures ok ==> forall k :: k in e.classified ==> k.ClassKey? && k.cgroup in kernel.owners
      ensures !world.failing ==> ok
    {
      Stages(e);
      FirstStageKinds(e, slot);
      ok := PutRows(e.subjects, Subjects, {});
      if ok {
        ok := PutClassified(e.classified, Stage(e, 1));
      }
    }

    method PutAddressesAndRules(slot: Slot, e: Encoded) returns (ok: bool)
      requires Valid() && quiet && slot == kernel.Idle() && populated.At(slot) && IdleRows() == Stage(e, 2)
      requires Writable(e.subjects, slot, Subjects) && Writable(Marks(e.classified), slot, Classes)
      requires Writable(Marks(e.nodes), slot, Nodes) && Writable(Marks(e.selfs), slot, Selfs)
               && Writable(Marks(e.rules), slot, Rules)
      modifies this`kernel, this`quiet, this`trace, this`seen
      ensures Calm() && kernel.owners == old(kernel.owners) && kernel.pins == old(kernel.pins)
      ensures ok ==> IdleRows() == AllRows(e)
      ensures !world.failing ==> ok
    {
      hide TraceOk, Sound, CountsOk, Stage, AllRows, Marks, Writable;
      Stages(e);
      StageKinds(e, slot);
      ok := PutRows(Marks(e.nodes), Nodes, Stage(e, 2));
      if ok {
        ok := PutRows(Marks(e.selfs), Selfs, Stage(e, 3));
      }
      if ok {
        ok := PutRows(Marks(e.rules), Rules, Stage(e, 4));
      }
    }

    // ----- links -----

    /** durableLinkPair.Remove: it consults the committed state again before it detaches. */
    method Remove(c: Cgroup) returns (r: Removal)
      requires Valid()
      modifies this`kernel, this`quiet, this`trace, this`seen
      ensures Calm() && kernel.maps == old(kernel.maps)
      ensures r.RefusedCommitted? <==> c in SubjectsIn(Now().rows)
      ensures r.RefusedCommitted? ==> kernel == old(kernel)
      ensures kernel.pins <= old(kernel.pins) && old(kernel.pins) - {(c, 0), (c, 1)} <= kernel.pins
      ensures kernel.owners <= old(kernel.owners) && old(kernel.owners) - {c} <= kernel.owners
      ensures r.Removed? ==> (c, 0) !in kernel.pins && (c, 1) !in kernel.pins
      ensures r.Removed? ==> (c in kernel.owners <==> c in ClassesIn(Now().rows))
      ensures !world.failing ==> !r.RemovalFailed?
    {
      UnreferencedMeans(c);
      if SubjectKey(c, kernel.pointer) in kernel.maps {
        return RefusedCommitted;
      }
      var ok := UnpinLink(c, 0);
      if !ok {
        return RemovalFailed;
      }
      ok := UnpinLink(c, 1);
      if !ok {
        return RemovalFailed;
      }
      var released := world.Permits();
      if !released {
        return RemovalFailed;  // closing a local handle
      }
      UnreferencedMeans(c);
      if ClassKey(c, kernel.pointer) in kernel.maps {
        return Removed;
      }
      ok := DeleteOwner(c);
      return if ok then Removed else RemovalFailed;
    }

    /** attachPersistent: owner first, then each direction pinned. */
    method Attach(c: Cgroup) returns (r: Attachment)
      requires Valid()
      modifies this`kernel, this`quiet, this`trace, this`seen
      ensures Calm() && kernel.maps == old(kernel.maps)
      ensures old(kernel.pins) <= kernel.pins <= old(kernel.pins) + {(c, 0), (c, 1)}
      ensures old(kernel.owners) <= kernel.owners <= old(kernel.owners) + {c}
      ensures r.NothingAttached? ==> kernel.pins == old(kernel.pins)
      ensures r.Attached? ==> (c, 0) in kernel.pins && (c, 1) in kernel.pins && c in kernel.owners
      ensures !world.failing ==> r.Attached?
    {
      var ok := RememberOwner(c);
      if !ok {
        return NothingAttached;
      }
      ok := PinLink(c, 0);
      if !ok {
        return AttachedInPart;
      }
      var usable := world.Permits();   // reopening and updating the pinned link, and its cgroup storage
      if !usable {
        return AttachedInPart;
      }
      ok := PinLink(c, 1);
      if !ok {
        return AttachedInPart;
      }
      usable := world.Permits();
      return if usable then Attached else AttachedInPart;
    }

    // ----- candidates -----

    /** The cgroups with a committed subject or classification. */
    function CommittedCgroups(): set<Cgroup>
      reads this
    {
      set k | k in kernel.maps && (k.SubjectKey? || k.ClassKey?) && SlotOf(k) == kernel.pointer :: k.cgroup
    }

    lemma CommittedAreOwned()
      requires Valid()
      ensures CommittedCgroups() <= kernel.owners
    {
      forall k | k in kernel.maps && (k.SubjectKey? || k.ClassKey?) && SlotOf(k) == kernel.pointer
        ensures k.cgroup in kernel.owners
      {
        assert (k, kernel.maps[k]) in Now().rows;
        assert k.SubjectKey? ==> k.cgroup in SubjectsIn(Now().rows);
        assert k.ClassKey? ==> k.cgroup in ClassesIn(Now().rows);
      }
    }

    /** ValidateCandidate: the guard's check, then the identity of every live committed workload. */
    method ValidateCandidate(p: PolicySet, guarded: bool) returns (ok: bool)
      requires Valid()
      ensures ok && guarded ==> GuardAccepts(p)
      ensures !world.failing && (guarded ==> GuardAccepts(p)) ==> ok
    {
      if guarded {
        ok := ValidateGuardCandidate(p);
        if !ok {
          return;
        }
      }
      CommittedAreOwned();
      var ids := Listing(CommittedCgroups());
      for i := 0 to |ids| {
        assert ids[i] in CommittedCgroups();
        if ids[i] !in kernel.owners {
          assert false;  // "has no durable ownership"
        }
        var certain := world.Permits();
        if !certain {
          return false;
        }
      }
      return true;
    }
  }
}
