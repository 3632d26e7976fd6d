/**
 The engine: Apply and the methods it is made of. A call either commits the whole
 desired set or leaves what is committed alone; its links are exactly those of
 the committed subjects; and every kernel state it passes through is sound.
*/
module EngineCore {
  import opened PolicySets
  import opened Options
  import opened EngineKeys
  import opened SlotProtocol
  import opened SlotShift
  import opened DurableKernel
  import opened EngineStore
  import opened AgentHistory
  import opened GuardCheck

  datatype ApplyError =
    | ContextDone | InvalidSet | Closed | IdentityUncertain | PendingConflict | ReclaimFailed | OrphansRemain
        | InvalidSlot
    | EpochExhausted | ClearFailed | PopulateFailed | AttachFailed | FlipFailed | StatusFailed

  datatype Result = Applied | Failed(error: ApplyError)

  /** The desired set is committed when the call returns. */
  predicate Commits(r: Result) {
    r.Applied? || r.error.StatusFailed?
  }

  datatype Reclaim = Reclaimed | Conflict | NotReclaimed

  /** policySetCgroupIDs */
  function SubjectIDs(p: PolicySet): set<Cgroup> {
    set s | s in p.subjects :: s.cgroup
  }

  lemma SubjectsOfImage(rows: set<Row>, slot: nat, p: PolicySet)
    requires slot < 2 && Valid(p) && IsImage(rows, slot, p)
    ensures SubjectsIn(rows) == SubjectIDs(p)
  {
    forall s | s in p.subjects
      ensures s.cgroup in SubjectsIn(rows)
    {
      var row := SubjectRow(slot, s);
      assert Installs(slot, p, row);
      assert row in rows;
    }
    forall row | row in rows && row.0.SubjectKey?
      ensures row.0.cgroup in SubjectIDs(p)
    {
      assert Installs(slot, p, row);
    }
  }

  /** Subjects with links in the journal, and classifications with owners, may be committed. */
  lemma ReadyToCommit(rows: set<Row>, k: Kernel, linked: set<Cgroup>)
    requires SubjectsIn(rows) <= linked
    requires forall c :: c in linked ==> c in k.owners && (c, 0) in k.pins && (c, 1) in k.pins
    requires forall c :: c in ClassesIn(rows) ==> c in k.owners
    ensures Linked(rows, k.owners, k.pins)
  {
  }

  /** The error of a reclaim that did not succeed. */
  function ReclaimError(r: Reclaim): ApplyError {
    if r.Conflict? then PendingConflict else ReclaimFailed
  }

  class Engine {
    const store: Store
    const guarded: bool
    var active: Config
    var applied: Encoded
    ghost var appliedSet: PolicySet
    var hasApplied: bool
    var links: set<Cgroup>
    var orphanLinks: set<Cgroup>
    var pendingCleanup: Option<nat>
    var slotCleanupFailures: nat
    var closed: bool
    var storeClosed: bool

    /** Every pin belongs to a link somebody remembers. */
    ghost predicate Tracked(extra: set<Cgroup>)
      reads this, store
    {
      forall c, w :: (c, w) in store.kernel.pins ==> c in links || c in orphanLinks || c in extra
    }

    ghost predicate AppliedOk()
      reads this, store
    {
      && (hasApplied <==> active.epoch > 0)
      && (hasApplied ==>
            && Valid(appliedSet) && IsEncoding(applied, 0, appliedSet)
            && active.slot < 2 && IsImage(store.Now().rows, active.slot, appliedSet))
    }

    ghost predicate PendingOk()
      reads this, store
    {
      && (pendingCleanup.None? ==> store.quiet)
      && (pendingCleanup.Some? ==> pendingCleanup.value == 1 - store.kernel.pointer)
    }

    /** What holds whenever the store is consistent and the engine knows what is committed. */
    ghost predicate Steady()
      reads this, store
    {
      && store.Valid()
      && active == Config(store.kernel.pointer, store.kernel.Epoch())
      && AppliedOk()
    }

    /** What holds between calls on an open engine. */
    ghost predicate Open()
      reads this, store
    {
      && Steady()
      && PendingOk()
      && links == SubjectsIn(store.Now().rows)
      && links !! orphanLinks
      && Tracked({})
    }

    /** Every link the engine has is attached in both directions, and has its owner in the journal. */
    lemma LinksAreAttached()
      requires Open()
      ensures forall c :: c in links ==>
                c in store.kernel.owners && (c, 0) in store.kernel.pins && (c, 1) in store.kernel.pins
    {
    }

    /** The inactive slot is empty, or its cleanup is noted. */
    ghost predicate Clean()
      reads this, store
    {
      pendingCleanup.None? ==> store.IdleRows() == {}
    }

    /** core.recover, with what recovery found in a surviving kernel: its configuration, the
        committed encoding, the links of the committed subjects and the other pinned links. */
    constructor (s: Store, guard: bool, recovered: Config, encoded: Encoded, ghost p: PolicySet,
                 verified: set<Cgroup>, candidates: set<Cgroup>)
      requires s.Valid()
      requires recovered == Config(s.kernel.pointer, s.kernel.Epoch())
      requires recovered.epoch > 0 ==>
               Valid(p) && IsEncoding(encoded, 0, p) && IsImage(s.Now().rows, s.kernel.pointer, p)
      requires verified == SubjectsIn(s.Now().rows) && verified !! candidates
      requires forall c, w :: (c, w) in s.kernel.pins ==> c in verified || c in candidates
      ensures Open() && Clean() && !closed && store == s && guarded == guard && active == recovered
      ensures pendingCleanup == Some(1 - s.kernel.pointer)
      ensures links == verified && orphanLinks == candidates && applied == encoded && appliedSet == p
      ensures hasApplied <==> recovered.epoch > 0
      ensures Released() && !storeClosed
    {
      store := s;
      guarded := guard;
      active := recovered;
      applied := encoded;
      appliedSet := p;
      hasApplied := recovered.epoch != 0;
      links := verified;
      orphanLinks := candidates;
      pendingCleanup := Some(1 - s.kernel.pointer);
      slotCleanupFailures := 0;
      closed := false;
      storeClosed := false;
    }

    /** What a call has not touched when it fails before the commit. */
    twostate predicate NothingCommitted()
      reads this, store
    {
      && store.Now() == old(store.Now()) && store.seen == old(store.seen) && store.mark == old(store.mark)
      && old(store.trace) <= store.trace
      && active == old(active) && applied == old(applied) && appliedSet == old(appliedSet)
           && hasApplied == old(hasApplied)
      && links == old(links)
    }

    method ReclaimPendingSlot(candidate: nat) returns (r: Reclaim)
      requires Open() && candidate == 1 - active.slot
      modifies store, this`pendingCleanup, this`slotCleanupFailures
      ensures Open() && NothingCommitted() && orphanLinks == old(orphanLinks)
      ensures !r.Conflict?
      ensures r.Reclaimed? ==> pendingCleanup.None?
      ensures old(pendingCleanup).None? ==> r.Reclaimed?
      ensures old(Clean()) ==> Clean()
      ensures slotCleanupFailures == old(slotCleanupFailures) + if r.Reclaimed? then 0 else 1
      ensures !store.world.failing ==> r.Reclaimed?
    {
      hide TraceOk, Sound, CountsOk, IsImage, IsEncoding, Linked, SubjectsIn, Kinds;
      if pendingCleanup.None? {
        return Reclaimed;
      }
      if pendingCleanup.value != candidate {
        return Conflict;
      }
      var ok := store.WaitQuiescent(candidate);
      if !ok {
        slotCleanupFailures := slotCleanupFailures + 1;
        return NotReclaimed;
      }
      ok := store.ClearSlot(candidate);
      if !ok {
        slotCleanupFailures := slotCleanupFailures + 1;
        return NotReclaimed;
      }
      pendingCleanup := None;
      return Reclaimed;
    }

    /** One link of retryOrphanLinks. */
    method RetryOrphan(c: Cgroup) returns (ok: bool)
      requires Open() && c in orphanLinks
      modifies store, this`orphanLinks
      ensures Open() && NothingCommitted() && pendingCleanup == old(pendingCleanup)
              && store.IdleRows() == old(store.IdleRows())
      ensures orphanLinks == if ok then old(orphanLinks) - {c} else old(orphanLinks)
      ensures !store.world.failing ==> ok
    {
      hide TraceOk, Sound, Linked, CountsOk, IsImage, IsEncoding, SubjectsIn, Kinds;
      var removal := store.Remove(c);
      if removal.RefusedCommitted? {
        assert false;  // an orphan is never committed
      }
      ok := removal.Removed?;
      if ok {
        orphanLinks := orphanLinks - {c};
      }
    }

    /** Detach everything that is remembered but not committed; what fails stays remembered. */
    method RetryOrphanLinks() returns (ok: bool)
      requires Open()
      modifies store, this`orphanLinks
      ensures Open() && NothingCommitted() && pendingCleanup == old(pendingCleanup)
              && store.IdleRows() == old(store.IdleRows())
      ensures ok ==> orphanLinks == {}
      ensures !store.world.failing ==> ok
    {
      ok := true;
      var rest := orphanLinks;
      while rest != {}
        invariant Open() && NothingCommitted() && pendingCleanup == old(pendingCleanup)
                  && store.IdleRows() == old(store.IdleRows())
        invariant rest <= orphanLinks && (ok ==> orphanLinks == rest) && (!store.world.failing ==> ok)
        decreases rest
      {
        var c :| c in rest;
        rest := rest - {c};
        var removed := RetryOrphan(c);
        ok := ok && removed;
      }
    }

    /** Links are those of the committed subjects and of a candidate that is not committed. */
    ghost predicate Attaching(newLinks: set<Cgroup>)
      reads this, store
    {
      && Steady() && PendingOk()
      && links == SubjectsIn(store.Now().rows)
      && links !! orphanLinks && newLinks !! links
      && Tracked(newLinks)
    }

    method DropCandidateLink(c: Cgroup, ghost newLinks: set<Cgroup>)
      requires Attaching(newLinks) && c in newLinks
      modifies store, this`orphanLinks
      ensures Attaching(newLinks - {c}) && NothingCommitted()
      ensures store.kernel.maps == old(store.kernel.maps) && store.quiet == old(store.quiet)
    {
      hide TraceOk, Sound, Linked, CountsOk, IsImage, IsEncoding, SubjectsIn, Kinds;
      var removal := store.Remove(c);
      if removal.RefusedCommitted? {
        assert false;  // a candidate's link is never committed
      }
      if !removal.Removed? {
        orphanLinks := orphanLinks + {c};
      }
    }

    method RollbackCandidate(slot: Slot, newLinks: set<Cgroup>)
      requires Attaching(newLinks) && store.quiet && slot == store.kernel.Idle()
      modifies store, this`orphanLinks, this`pendingCleanup, this`slotCleanupFailures
      ensures Open() && NothingCommitted() && Clean()
    {
      var rest := newLinks;
      while rest != {}
        invariant Attaching(rest) && NothingCommitted() && store.quiet && slot == store.kernel.Idle()
        decreases rest
      {
        var c :| c in rest;
        DropCandidateLink(c, rest);
        rest := rest - {c};
      }
      var cleared := ClearOrDefer(slot);
    }

    /** Clear the inactive slot, or leave it to the next call. */
    method ClearOrDefer(slot: Slot) returns (ok: bool)
      requires Open() && store.quiet && slot == store.kernel.Idle()
      modifies store, this`pendingCleanup, this`slotCleanupFailures
      ensures Open() && NothingCommitted() && orphanLinks == old(orphanLinks) && Clean()
      ensures ok ==> store.IdleRows() == {} && !store.populated.At(slot) && store.quiet
      ensures pendingCleanup == if ok then old(pendingCleanup) else Some(slot)
      ensures slotCleanupFailures == old(slotCleanupFailures) + if ok then 0 else 1
      ensures !store.world.failing ==> ok
    {
      hide TraceOk, Sound, CountsOk, IsImage, IsEncoding, Linked, SubjectsIn, Kinds;
      ok := store.ClearSlot(slot);
      if !ok {
        slotCleanupFailures := slotCleanupFailures + 1;
        pendingCleanup := Some(slot);
      }
    }

    /** One turn of the attach loop. */
    method AttachOne(c: Cgroup, ghost newLinks: set<Cgroup>) returns (ok: bool)
      requires Attaching(newLinks) && c !in newLinks && c !in links
      modifies store, this`orphanLinks
      ensures NothingCommitted() && store.quiet == old(store.quiet)
      ensures Attaching(if ok then newLinks + {c} else newLinks)
      ensures store.kernel.maps == old(store.kernel.maps) && store.populated == old(store.populated)
      ensures ok ==> orphanLinks == old(orphanLinks)
      ensures ok ==> old(store.kernel.owners) <= store.kernel.owners && old(store.kernel.pins) <= store.kernel.pins
      ensures ok ==> c in store.kernel.owners && (c, 0) in store.kernel.pins && (c, 1) in store.kernel.pins
      ensures !store.world.failing ==> ok
    {
      hide TraceOk, Sound, Linked, CountsOk, IsImage, IsEncoding, SubjectsIn, Kinds;
      var attachment := store.Attach(c);
      if attachment.AttachedInPart? {
        var removal := store.Remove(c);
        if removal.RefusedCommitted? {
          assert false;
        }
        if !removal.Removed? {
          orphanLinks := orphanLinks + {c};
        }
      }
      ok := attachment.Attached?;
    }

    ghost predicate LinkedUp(cs: set<Cgroup>)
      reads this, store
    {
      forall c :: c in cs ==> c in store.kernel.owners && (c, 0) in store.kernel.pins && (c, 1) in store.kernel.pins
    }

    method AttachLinks(desired: set<Cgroup>) returns (ok: bool, newLinks: set<Cgroup>)
      requires Attaching({})
      modifies store, this`orphanLinks
      ensures NothingCommitted() && store.quiet == old(store.quiet) && Attaching(newLinks)
      ensures store.kernel.maps == old(store.kernel.maps) && store.populated == old(store.populated)
      ensures ok ==> newLinks == desired - links && LinkedUp(newLinks)
      ensures ok ==> old(store.kernel.owners) <= store.kernel.owners && orphanLinks == old(orphanLinks)
      ensures !store.world.failing ==> ok
    {
      hide TraceOk, Sound, CountsOk, IsImage, IsEncoding, Linked, SubjectsIn, Kinds;
      newLinks := {};
      var rest := desired - links;
      while rest != {}
        invariant NothingCommitted() && store.quiet == old(store.quiet) && Attaching(newLinks)
        invariant store.kernel.maps == old(store.kernel.maps) && store.populated == old(store.populated)
        invariant rest !! newLinks && newLinks + rest == desired - links && LinkedUp(newLinks)
        invariant old(store.kernel.owners) <= store.kernel.owners && orphanLinks == old(orphanLinks)
        decreases rest
      {
        var c :| c in rest;
        var permitted := store.world.Permits();
        if !permitted {
          return false, newLinks;
        }
        ok := AttachOne(c, newLinks);
        if !ok {
          return;
        }
        newLinks := newLinks + {c};
        rest := rest - {c};
      }
      ok := true;
    }

    /** Detach the links the committed set no longer names. */
    method CloseRemovedLinks(desired: set<Cgroup>)
      requires Steady() && desired == SubjectsIn(store.Now().rows) <= links
      requires links !! orphanLinks && Tracked({})
      modifies store, this`links, this`orphanLinks
      ensures Steady() && links == desired && links !! orphanLinks && Tracked({})
      ensures store.Now() == old(store.Now()) && store.seen == old(store.seen) && store.mark == old(store.mark)
      ensures old(store.trace) <= store.trace && store.quiet == old(store.quiet)
              && store.kernel.maps == old(store.kernel.maps)
      ensures old(links) == desired ==> orphanLinks == old(orphanLinks)
      ensures !store.world.failing ==> orphanLinks == old(orphanLinks)
    {
      hide TraceOk, Sound, CountsOk, IsImage, IsEncoding, Kinds;
      var rest := links - desired;
      while rest != {}
        invariant Steady() && desired == SubjectsIn(store.Now().rows) && links == desired + rest && rest !! desired
        invariant links !! orphanLinks && Tracked({})
        invariant store.Now() == old(store.Now()) && store.seen == old(store.seen) && store.mark == old(store.mark)
        invariant old(store.trace) <= store.trace && store.quiet == old(store.quiet)
                  && store.kernel.maps == old(store.kernel.maps)
        invariant old(links) == desired || !store.world.failing ==> orphanLinks == old(orphanLinks)
        decreases rest
      {
        var c :| c in rest;
        CloseRemovedLink(c);
        rest := rest - {c};
      }
    }

    method CloseRemovedLink(c: Cgroup)
      requires Steady() && c in links && c !in SubjectsIn(store.Now().rows)
      requires links !! orphanLinks && Tracked({})
      modifies store, this`links, this`orphanLinks
      ensures Steady() && links == old(links) - {c} && links !! orphanLinks && Tracked({})
      ensures store.Now() == old(store.Now()) && store.seen == old(store.seen) && store.mark == old(store.mark)
      ensures old(store.trace) <= store.trace && store.quiet == old(store.quiet)
              && store.kernel.maps == old(store.kernel.maps)
      ensures !store.world.failing ==> orphanLinks == old(orphanLinks)
    {
      hide TraceOk, Sound, CountsOk, IsImage, IsEncoding, Kinds;
      var removal := store.Remove(c);
      if removal.RefusedCommitted? {
        assert false;  // the committed set does not name it
      }
      if !removal.Removed? {
        orphanLinks := orphanLinks + {c};
      }
      links := links - {c};
    }

    /** Clear the slot that has just been retired, or leave it to the next call. */
    method ReclaimCommittedSlot(slot: Slot)
      requires Steady() && links == SubjectsIn(store.Now().rows) && links !! orphanLinks && Tracked({})
      requires slot == store.kernel.Idle()
      modifies store, this`pendingCleanup, this`slotCleanupFailures
      ensures Open() && Clean()
      ensures store.Now() == old(store.Now()) && store.seen == old(store.seen) && store.mark == old(store.mark)
      ensures old(store.trace) <= store.trace
      ensures orphanLinks == old(orphanLinks) && (!store.world.failing ==> pendingCleanup.None?)
      ensures slotCleanupFailures == old(slotCleanupFailures) + if pendingCleanup.None? then 0 else 1
    {
      hide TraceOk, Sound, CountsOk, IsImage, IsEncoding, Linked, SubjectsIn, Kinds;
      var ok := store.WaitQuiescent(slot);
      if !ok {
        pendingCleanup := Some(slot);
        slotCleanupFailures := slotCleanupFailures + 1;
        return;
      }
      ok := store.ClearSlot(slot);
      if !ok {
        pendingCleanup := Some(slot);
        slotCleanupFailures := slotCleanupFailures + 1;
        return;
      }
      pendingCleanup := None;
    }

    /** Everything a commit may rely on: the inactive slot is quiet and holds the desired set. */
    ghost predicate Prepared(desired: PolicySet)
      reads this, store
    {
      && Valid(desired) && store.quiet && pendingCleanup.None?
      && IsImage(store.IdleRows(), store.kernel.Idle(), desired)
      && store.populated.At(store.kernel.Idle())
      && forall c :: c in ClassesIn(store.IdleRows()) ==> c in store.kernel.owners
    }

    /** Clear and populate the inactive slot. */
    method PrepareSlot(candidate: Slot, desired: PolicySet) returns (r: Result)
      requires Open() && candidate == 1 - active.slot && Valid(desired)
      modifies store, this`pendingCleanup, this`slotCleanupFailures
      ensures Open() && NothingCommitted() && orphanLinks == old(orphanLinks)
      ensures r.Applied? ==> Prepared(desired)
      ensures r.Failed? && old(Clean()) ==> Clean()
      ensures r.Failed? ==>
              r.error.ReclaimFailed? || r.error.ClearFailed? || r.error.ContextDone? || r.error.PopulateFailed?
      ensures !store.world.failing ==> r.Applied?
    {
      hide TraceOk, Sound, CountsOk, IsImage, IsEncoding, Linked, SubjectsIn, Kinds;
      var reclaim := ReclaimPendingSlot(candidate);
      if !reclaim.Reclaimed? {
        return Failed(ReclaimError(reclaim));
      }
      var ok := ClearOrDefer(candidate);
      if !ok {
        return Failed(ClearFailed);
      }
      var permitted := store.world.Permits();
      if !permitted {
        return Failed(ContextDone);
      }
      ok := PopulateOrClear(candidate, desired);
      return if ok then Applied else Failed(PopulateFailed);
    }

    method PopulateOrClear(candidate: Slot, desired: PolicySet) returns (ok: bool)
      requires !store.populated.At(candidate)
      requires Open() && candidate == store.kernel.Idle() && Valid(desired) && pendingCleanup.None?
      modifies store, this`pendingCleanup, this`slotCleanupFailures
      ensures Open() && NothingCommitted() && orphanLinks == old(orphanLinks)
      ensures ok ==> Prepared(desired)
      ensures !ok ==> Clean()
      ensures !store.world.failing ==> ok
    {
      ok := store.PopulateSlot(candidate, desired);
      if !ok {
        var cleared := ClearOrDefer(candidate);
      }
    }

    /** From a populated slot to the commit. */
    method Publish(candidate: Config, desired: PolicySet, encoded: Encoded) returns (r: Result)
      requires Open() && Prepared(desired) && orphanLinks == {} && IsEncoding(encoded, 0, desired)
      requires candidate == Config(1 - active.slot, active.epoch + 1) && candidate.epoch < EPOCHS
      modifies store, this`active, this`applied, this`appliedSet, this`hasApplied
      modifies this`links, this`orphanLinks, this`pendingCleanup, this`slotCleanupFailures
      ensures Open() && Clean()
      ensures !Commits(r) ==> NothingCommitted()
      ensures r.Failed? ==>
              r.error.ContextDone? || r.error.AttachFailed? || r.error.FlipFailed? || r.error.StatusFailed?
      ensures Commits(r) ==> HasCommitted(candidate, desired, encoded)
      ensures !store.world.failing ==> r.Applied?
      ensures !store.world.failing ==> orphanLinks == {} && pendingCleanup.None?
    {
      hide TraceOk, Sound, CountsOk, IsImage, IsEncoding, Linked, SubjectsIn, Kinds, Engine.AppliedOk;
      var slot: Slot := candidate.slot;
      var permitted := store.world.Permits();
      if !permitted {
        RollbackCandidate(slot, {});
        return Failed(ContextDone);
      }
      var ok, newLinks := AttachLinks(SubjectIDs(desired));
      if !ok {
        RollbackCandidate(slot, newLinks);
        return Failed(AttachFailed);
      }
      permitted := store.world.Permits();
      if !permitted {
        RollbackCandidate(slot, newLinks);
        return Failed(ContextDone);
      }
      r := Commit(candidate, desired, encoded, newLinks);
    }

    /** What a committed call leaves behind. */
    twostate predicate HasCommitted(candidate: Config, desired: PolicySet, encoded: Encoded)
      reads this, store
    {
      && active == candidate && applied == encoded && hasApplied
      && candidate.slot < 2 && Valid(desired) && IsImage(store.Now().rows, candidate.slot, desired)
      && links == SubjectIDs(desired)
      && store.seen == old(store.seen) + {store.Now()} && store.mark == old(store.mark)
           && old(store.trace) <= store.trace
    }

    method Commit(candidate: Config, desired: PolicySet, encoded: Encoded, newLinks: set<Cgroup>) returns (r: Result)
      requires Attaching(newLinks) && Prepared(desired) && orphanLinks == {} && IsEncoding(encoded, 0, desired)
      requires newLinks == SubjectIDs(desired) - links && LinkedUp(newLinks)
      requires candidate == Config(1 - active.slot, active.epoch + 1) && candidate.epoch < EPOCHS
      modifies store, this`active, this`applied, this`appliedSet, this`hasApplied
      modifies this`links, this`orphanLinks, this`pendingCleanup, this`slotCleanupFailures
      ensures Open() && Clean()
      ensures !Commits(r) ==> NothingCommitted()
      ensures r.Failed? ==> r.error.FlipFailed? || r.error.StatusFailed?
      ensures Commits(r) ==> HasCommitted(candidate, desired, encoded)
      ensures !store.world.failing ==> r.Applied?
      ensures !store.world.failing ==> orphanLinks == {} && pendingCleanup.None?
    {
      hide TraceOk, Sound, CountsOk, IsEncoding, Linked, Kinds, Engine.Tracked;
      var slot: Slot := candidate.slot;
      var retired := active.slot;
      var ok := FlipTo(candidate, desired, encoded, newLinks);
      if !ok {
        RollbackCandidate(slot, newLinks);
        return Failed(FlipFailed);
      }
      var published := store.world.Permits();   // markEnforcing
      Settle(SubjectIDs(desired), retired);
      return if published then Applied else Failed(StatusFailed);
    }

    /** What follows a commit, and cannot undo it. */
    method Settle(desired: set<Cgroup>, retired: Slot)
      requires Steady() && desired == SubjectsIn(store.Now().rows) <= links
      requires links !! orphanLinks && Tracked({}) && retired == store.kernel.Idle()
      modifies store, this`links, this`orphanLinks, this`pendingCleanup, this`slotCleanupFailures
      ensures Open() && Clean() && links == desired
      ensures store.Now() == old(store.Now()) && store.seen == old(store.seen) && store.mark == old(store.mark)
      ensures old(store.trace) <= store.trace
      ensures !store.world.failing ==> orphanLinks == old(orphanLinks) && pendingCleanup.None?
    {
      CloseRemovedLinks(desired);
      ReclaimCommittedSlot(retired);
    }

    lemma CandidateIsLinked(desired: PolicySet, newLinks: set<Cgroup>)
      requires Attaching(newLinks) && Prepared(desired) && newLinks == SubjectIDs(desired) - links && LinkedUp(newLinks)
      ensures Linked(store.IdleRows(), store.kernel.owners, store.kernel.pins)
    {
      SubjectsOfImage(store.IdleRows(), store.kernel.Idle(), desired);
      ReadyToCommit(store.IdleRows(), store.kernel, links + newLinks);
    }

    /** Swing the pointer and remember what is committed now. */
    method FlipTo(candidate: Config, desired: PolicySet, encoded: Encoded, newLinks: set<Cgroup>) returns (ok: bool)
      requires Attaching(newLinks) && Prepared(desired) && orphanLinks == {} && IsEncoding(encoded, 0, desired)
      requires newLinks == SubjectIDs(desired) - links && LinkedUp(newLinks)
      requires candidate == Config(1 - active.slot, active.epoch + 1) && candidate.epoch < EPOCHS
      modifies store, this`active, this`applied, this`appliedSet, this`hasApplied, this`links
      ensures !ok ==> Attaching(newLinks) && NothingCommitted() && store.quiet
      ensures ok ==> Steady() && SubjectsIn(store.Now().rows) == SubjectIDs(desired) <= links && Tracked({})
      ensures ok ==> active == candidate && applied == encoded && hasApplied
      ensures ok ==> IsImage(store.Now().rows, candidate.slot, desired)
      ensures ok ==> store.seen == old(store.seen) + {store.Now()} && store.mark == old(store.mark)
      ensures ok ==> old(store.trace) <= store.trace
      ensures !store.world.failing ==> ok
    {
      hide TraceOk, CountsOk, IsEncoding, IsImage, SubjectsIn, Kinds, Sound, Linked;
      var slot: Slot := candidate.slot;
      SubjectsOfImage(store.IdleRows(), slot, desired);
      CandidateIsLinked(desired, newLinks);
      ok := store.Flip(slot, candidate.epoch, desired);
      if ok {
        active := candidate;
        applied := encoded;
        appliedSet := desired;
        hasApplied := true;
        links := links + newLinks;
      }
    }

    // ----- Apply -----

    /** The desired set installs exactly what is committed already. */
    ghost predicate AlreadyCommitted(desired: PolicySet)
      reads this, store
    {
      hasApplied && Valid(desired) && active.slot < 2 && IsImage(store.Now().rows, active.slot, desired)
    }

    /** Comparing encodings is comparing map contents. */
    lemma SameEncodingMeansCommitted(desired: PolicySet, encoded: Encoded)
      requires Steady() && hasApplied && Valid(desired) && IsEncoding(encoded, 0, desired)
      ensures applied == encoded <==> AlreadyCommitted(desired)
    {
      EqualEncodings(applied, appliedSet, encoded, desired, active.slot);
      var rows := store.Now().rows;
      if AlreadyCommitted(desired) {
        forall row
          ensures Installs(active.slot, appliedSet, row) <==> Installs(active.slot, desired, row)
        {
          assert row in rows <==> Installs(active.slot, desired, row);
        }
      }
    }

    /** Nothing stands in the way of the call. */
    ghost predicate Unhindered(desired: PolicySet)
      reads this, store, store.world
    {
      && !store.world.failing && !closed
      && Valid(desired) && (guarded ==> GuardAccepts(desired))
      && (active.epoch + 1 < EPOCHS || AlreadyCommitted(desired))
    }

    /** All-or-nothing. An error that comes before the commit leaves the configuration, the
        committed contents and the links alone; otherwise the desired set is committed, at the
        next epoch in the other slot unless it already was; and at no moment in between is
        anything else committed. Unhindered, the call commits, and leaves nothing to clean up. */
    method Apply(desired: PolicySet) returns (r: Result)
      requires !closed ==> Open()
      modifies store, this`active, this`applied, this`appliedSet, this`hasApplied
      modifies this`links, this`orphanLinks, this`pendingCleanup, this`slotCleanupFailures
      ensures closed ==> r.Failed? && store.kernel == old(store.kernel)
      ensures closed ==> links == old(links) && orphanLinks == old(orphanLinks)
      ensures !closed ==> Open() && (old(Clean()) ==> Clean())
      ensures r.Failed? ==> !r.error.PendingConflict? && !r.error.InvalidSlot?
      ensures r == Failed(Closed) ==> closed
      ensures closed ==> r.error.Closed? || r.error.ContextDone? || r.error.InvalidSet?
      ensures r == Failed(InvalidSet) ==> !Valid(desired)
      ensures !Valid(desired) ==> r == Failed(InvalidSet) || r == Failed(ContextDone)
      ensures r == Failed(EpochExhausted) ==> old(active.epoch) == 0xFFFF_FFFF_FFFF_FFFF
      ensures guarded && Commits(r) ==> forall s :: s in desired.subjects ==> s.cgroup in desired.classified
      ensures !closed && !Commits(r) ==>
                && store.Now() == old(store.Now()) && active == old(active) && applied == old(applied)
                && hasApplied == old(hasApplied) && links == old(links)
      ensures !closed && Commits(r) ==> AlreadyCommitted(desired) && links == SubjectIDs(desired)
      ensures !closed && Commits(r) ==>
                active == if old(AlreadyCommitted(desired)) then old(active)
                    else Config(1 - old(active.slot), old(active.epoch) + 1)
      ensures !closed ==> old(store.trace) <= store.trace
      ensures !closed ==> OnlyCommits(store.trace, |old(store.trace)| - 1, old(store.Now()), store.Now())
      ensures old(Unhindered(desired)) ==> r.Applied? && orphanLinks == {} && pendingCleanup.None?
    {
      hide TraceOk, Sound, CountsOk, IsEncoding, Linked, SubjectsIn, Kinds, OnlyCommits, Engine.Tracked;
      hide IsImage, Engine.AppliedOk, Engine.PendingOk, GuardAccepts, Valid, SubjectIDs;
      GuardMeans(desired);
      if !closed {
        NothingYet();
      }
      var permitted := store.world.Permits();
      if !permitted {
        return Failed(ContextDone);
      }
      var encoding := EncodePolicySet(0, desired);
      if encoding.None? {
        return Failed(InvalidSet);
      }
      if closed {
        return Failed(Closed);
      }
      Watch();
      ghost var before, from := store.Now(), store.mark;
      r := ApplyOpen(desired, encoding.value);
      SeenIsHistory(before, from);
    }

    /** Watch what the call commits. */
    ghost method Watch()
      requires Open()
      modifies store`mark, store`seen
      ensures Open() && store.seen == {store.Now()} && store.mark == |store.trace| - 1
    {
      store.Mark();
    }

    lemma NothingYet()
      requires store.Valid()
      ensures OnlyCommits(store.trace, |store.trace| - 1, store.Now(), store.Now())
    {
    }

    /** What the store has seen is what was committed at any moment since the mark. */
    lemma SeenIsHistory(before: Committed, from: nat)
      requires store.Valid() && store.mark == from && store.seen <= {before, store.Now()}
      ensures OnlyCommits(store.trace, from, before, store.Now())
    {
      forall i | from <= i < |store.trace|
        ensures CommittedOf(store.trace[i].kernel) == before || CommittedOf(store.trace[i].kernel) == store.Now()
      {
        assert CommittedOf(store.trace[i].kernel) in store.seen;
      }
    }

    /** Apply, once the set is valid and the engine is known to be open. */
    method ApplyOpen(desired: PolicySet, encoded: Encoded) returns (r: Result)
      requires Open() && Valid(desired) && IsEncoding(encoded, 0, desired) && store.seen == {store.Now()}
      modifies store, this`active, this`applied, this`appliedSet, this`hasApplied
      modifies this`links, this`orphanLinks, this`pendingCleanup, this`slotCleanupFailures
      ensures Open() && (old(Clean()) ==> Clean())
      ensures r.Failed? ==>
                && !r.error.PendingConflict? && !r.error.InvalidSlot? && !r.error.Closed? && !r.error.InvalidSet?
                && (r.error.EpochExhausted? ==> old(active.epoch) == 0xFFFF_FFFF_FFFF_FFFF)
      ensures guarded && Commits(r) ==> GuardAccepts(desired)
      ensures !Commits(r) ==> NothingCommitted()
      ensures Commits(r) ==>
                if old(AlreadyCommitted(desired))
                    then NothingCommitted() && AlreadyCommitted(desired) && links == SubjectIDs(desired)
                else HasCommitted(Config(1 - old(active.slot), old(active.epoch) + 1), desired, encoded)
      ensures !store.world.failing && (guarded ==> GuardAccepts(desired))
              && (old(active.epoch) + 1 < EPOCHS || old(AlreadyCommitted(desired))) ==>
                r.Applied? && orphanLinks == {} && pendingCleanup.None?
    {
      hide TraceOk, Sound, CountsOk, IsEncoding, Linked, SubjectsIn, Kinds, Engine.Tracked, Engine.PendingOk;
      hide Engine.AppliedOk, GuardAccepts, SubjectIDs;
      r := Precheck(desired);
      if r.Failed? {
        return;
      }
      ActiveInRange();
      if active.slot > 1 {
        return Failed(InvalidSlot);
      }
      if hasApplied {
        SameEncodingMeansCommitted(desired, encoded);
        if applied == encoded {
          r := Confirm(desired);
          return;
        }
      }
      r := CommitNew(desired, encoded);
    }

    lemma ActiveInRange()
      requires Steady()
      ensures active.slot == store.kernel.pointer && active.epoch < EPOCHS
    {
    }

    /** The set is not the committed one: prepare the other slot and publish it. */
    method CommitNew(desired: PolicySet, encoded: Encoded) returns (r: Result)
      requires Open() && Valid(desired) && IsEncoding(encoded, 0, desired) && orphanLinks == {}
      modifies store, this`active, this`applied, this`appliedSet, this`hasApplied
      modifies this`links, this`orphanLinks, this`pendingCleanup, this`slotCleanupFailures
      ensures Open() && (old(Clean()) ==> Clean())
      ensures r.Failed? ==>
                && !r.error.PendingConflict? && !r.error.InvalidSlot? && !r.error.Closed? && !r.error.InvalidSet?
                && (r.error.EpochExhausted? ==> old(active.epoch) == 0xFFFF_FFFF_FFFF_FFFF)
      ensures !Commits(r) ==> NothingCommitted()
      ensures Commits(r) ==> HasCommitted(Config(1 - old(active.slot), old(active.epoch) + 1), desired, encoded)
      ensures !store.world.failing && old(active.epoch) + 1 < EPOCHS ==>
              r.Applied? && orphanLinks == {} && pendingCleanup.None?
    {
      hide TraceOk, Sound, CountsOk, IsEncoding, IsImage, Linked, SubjectsIn, Kinds, Engine.Tracked;
      ActiveInRange();
      if active.epoch == EPOCHS - 1 {
        return Failed(EpochExhausted);
      }
      var candidate := Config(1 - active.slot, active.epoch + 1);
      r := PrepareSlot(candidate.slot, desired);
      if r.Applied? {
        r := Publish(candidate, desired, encoded);
      }
    }

    /** What every call does first: identities, the deferred cleanup, the forgotten links. */
    method Precheck(desired: PolicySet) returns (r: Result)
      requires Open()
      modifies store, this`pendingCleanup, this`slotCleanupFailures, this`orphanLinks
      ensures Open() && NothingCommitted() && (old(Clean()) ==> Clean())
      ensures r.Applied? ==> orphanLinks == {} && pendingCleanup.None? && (guarded ==> GuardAccepts(desired))
      ensures r.Failed? ==>
              r.error.IdentityUncertain? || r.error.ReclaimFailed? || r.error.OrphansRemain? || r.error.ContextDone?
      ensures !store.world.failing && (guarded ==> GuardAccepts(desired)) ==> r.Applied?
    {
      var ok := store.ValidateCandidate(desired, guarded);
      if !ok {
        return Failed(IdentityUncertain);
      }
      if pendingCleanup.Some? {
        var reclaim := ReclaimPendingSlot(1 - active.slot);
        if !reclaim.Reclaimed? {
          return Failed(ReclaimError(reclaim));
        }
      }
      ok := RetryOrphanLinks();
      if !ok {
        return Failed(OrphansRemain);
      }
      var permitted := store.world.Permits();
      return if permitted then Applied else Failed(ContextDone);
    }

    /** The no-op path: the encodings are equal. */
    method Confirm(desired: PolicySet) returns (r: Result)
      requires Open() && AlreadyCommitted(desired)
      modifies store, this`pendingCleanup, this`slotCleanupFailures, this`orphanLinks, this`links
      ensures Open() && NothingCommitted() && (old(Clean()) ==> Clean())
      ensures r.Failed? ==> r.error.ReclaimFailed? || r.error.StatusFailed?
      ensures !store.world.failing ==> r.Applied?
      ensures links == SubjectIDs(desired) && (old(pendingCleanup).None? ==> pendingCleanup.None?)
              && orphanLinks == old(orphanLinks)
    {
      hide TraceOk, Sound, CountsOk, IsImage, IsEncoding, Linked, SubjectsIn, Kinds, Engine.Tracked;
      SubjectsOfImage(store.Now().rows, active.slot, desired);
      var reclaim := ReclaimPendingSlot(1 - active.slot);
      if !reclaim.Reclaimed? {
        return Failed(ReclaimError(reclaim));
      }
      CloseRemovedLinks(SubjectIDs(desired));
      var published := store.world.Permits();
      return if published then Applied else Failed(StatusFailed);
    }

    /** The programs and maps have been let go only if no handle is left. */
    predicate Released()
      reads this
    {
      storeClosed ==> closed && links == {} && orphanLinks == {}
    }

    /** Close one handle; the pin stays. */
    method CloseHandles(handles: set<Cgroup>) returns (kept: set<Cgroup>)
      ensures kept <= handles && (!store.world.failing ==> kept == {})
    {
      kept := handles;
      var rest := handles;
      while rest != {}
        invariant rest <= kept <= handles && (!store.world.failing ==> kept == rest)
        decreases rest
      {
        var c :| c in rest;
        rest := rest - {c};
        var released := store.world.Permits();
        if released {
          kept := kept - {c};
        }
      }
    }

    /** Close releases local handles and can be called again; the programs and maps are let go
        once, and only when no handle is left. The durable state is not in its frame, so
        enforcement survives it. */
    method Close() returns (ok: bool)
      requires Released()
      modifies this`closed, this`links, this`orphanLinks, this`storeClosed
      ensures Released() && closed && links <= old(links) && orphanLinks <= old(orphanLinks)
      ensures old(storeClosed) ==> storeClosed
      ensures ok ==> storeClosed
      ensures !store.world.failing ==> ok
    {
      closed := true;
      ok := true;
      if !storeClosed {
        ok := store.world.Permits();   // MarkStopping
      }
      links := CloseHandles(links);
      orphanLinks := CloseHandles(orphanLinks);
      ok := ok && links == {} && orphanLinks == {};
      if links == {} && orphanLinks == {} && !storeClosed {
        storeClosed := store.world.Permits();
        ok := ok && storeClosed;
      }
    }
  }
}
