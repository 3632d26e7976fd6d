/**
 Intentional removal of enforcement: verify everything, raise the flag, remove links,
 then programs, then maps, the ownership journal last. Stopped anywhere, it can be
 run again to completion, and until then the agent refuses to start.
*/
module Cleanup {
  import opened Environment

  /** The entries of the pin directory. */
  datatype Pin =
    | LinkPin(link: nat)
    | ProgramPin(program: nat)
    | MapPin(name: nat)
    | MetadataPin
    | ForeignPin(file: nat)

  /** What the ownership records say: which maps there are, which links have an owner and a
      registered program, which programs are registered; and for each of these, which maps its
      verification reads: the journals that vouch for it, and the maps a program must refer to. */
  datatype Records = Records(maps: set<nat>, links: map<nat, set<nat>>, programs: map<nat, set<nat>>)

  datatype Directory = Directory(pins: set<Pin>, flagged: bool)

  predicate Removable(p: Pin) {
    !p.ForeignPin?
  }

  /** The maps can be read: they are pinned, or still alive in the kernel and found again by the
      identifier that the metadata records. */
  predicate Readable(ms: set<nat>, d: Directory, alive: set<nat>) {
    forall m :: m in ms ==> MapPin(m) in d.pins || m in alive
  }

  predicate LinkVerifies(l: nat, d: Directory, r: Records, alive: set<nat>) {
    l in r.links && Readable(r.links[l], d, alive)
  }

  predicate ProgramVerifies(p: nat, d: Directory, r: Records, alive: set<nat>) {
    p in r.programs && Readable(r.programs[p], d, alive)
  }

  /** The verification before the first removal; `alive` are the maps that the kernel keeps. */
  ghost predicate Verifies(d: Directory, r: Records, alive: set<nat>) {
    && MetadataPin in d.pins
    && (forall l :: LinkPin(l) in d.pins ==> LinkVerifies(l, d, r, alive))
    && (forall p :: ProgramPin(p) in d.pins ==> ProgramVerifies(p, d, r, alive))
  }

  /** openDurableMaps as startup calls it, on a directory that is not empty: every map is pinned. */
  predicate Starts(d: Directory, r: Records) {
    MetadataPin in d.pins && !d.flagged && Readable(r.maps, d, {})
  }

  /** openDurableMaps, refusing missing maps and a raised flag. */
  method OpenDurableMaps(d: Directory, r: Records) returns (ok: bool)
    ensures ok <==> Starts(d, r)
    ensures ok <==> MetadataPin in d.pins && !d.flagged && forall m :: m in r.maps ==> MapPin(m) in d.pins
  {
    if MetadataPin !in d.pins || d.flagged {
      return false;
    }
    var rest := r.maps;
    while rest != {}
      invariant rest <= r.maps && forall m :: m in r.maps && m !in rest ==> MapPin(m) in d.pins
      decreases rest
    {
      var m :| m in rest;
      rest := rest - {m};
      if MapPin(m) !in d.pins {
        return false;
      }
    }
    return true;
  }

  method Verify(d: Directory, r: Records, alive: set<nat>) returns (ok: bool)
    ensures ok <==> Verifies(d, r, alive)
    ensures ok <==>
              && MetadataPin in d.pins
              && (forall l :: LinkPin(l) in d.pins ==>
                    l in r.links && forall m :: m in r.links[l] ==> MapPin(m) in d.pins || m in alive)
              && (forall p :: ProgramPin(p) in d.pins ==>
                    p in r.programs && forall m :: m in r.programs[p] ==> MapPin(m) in d.pins || m in alive)
  {
    if MetadataPin !in d.pins {
      return false;
    }
    var rest := d.pins;
    while rest != {}
      invariant rest <= d.pins
      invariant forall l :: LinkPin(l) in d.pins && LinkPin(l) !in rest ==> LinkVerifies(l, d, r, alive)
      invariant forall p :: ProgramPin(p) in d.pins && ProgramPin(p) !in rest ==> ProgramVerifies(p, d, r, alive)
      decreases rest
    {
      var pin :| pin in rest;
      rest := rest - {pin};
      if pin.LinkPin? && !LinkVerifies(pin.link, d, r, alive) {
        return false;
      }
      if pin.ProgramPin? && !ProgramVerifies(pin.program, d, r, alive) {
        return false;
      }
    }
    return true;
  }

  /** Nothing is removed before what depends on it: programs wait for links, maps for both, the
      journal for everything. */
  ghost predicate InOrder(before: Directory, now: Directory) {
    && now.pins <= before.pins
    && ((exists p :: p in now.pins && p.LinkPin?) ==> forall q :: q in before.pins && q.ProgramPin? ==> q in now.pins)
    && ((exists p :: p in now.pins && (p.LinkPin? || p.ProgramPin?)) ==>
         forall q :: q in before.pins && q.MapPin? ==> q in now.pins)
    && ((exists p :: p in now.pins && Removable(p)) ==> forall q :: q in before.pins && q.MetadataPin? ==>
         q in now.pins)
    && (forall q :: q in before.pins && q.ForeignPin? ==> q in now.pins)
  }

  /** When the turn of a pin comes: links, programs, maps, the journal; foreign ones never. */
  function Turn(p: Pin): nat {
    match p
    case LinkPin(_) => 0
    case ProgramPin(_) => 1
    case MapPin(_) => 2
    case MetadataPin => 3
    case ForeignPin(_) => 4
  }

  /** One removal: of a pin whose turn no other pin precedes, and of nothing else. */
  ghost predicate NextRemoval(d: Directory, e: Directory) {
    exists p :: p in d.pins && Turn(p) < 4 && (forall q :: q in d.pins ==> Turn(p) <= Turn(q))
                && e == d.(pins := d.pins - {p})
  }

  lemma Removes(d: Directory, p: Pin)
    requires p in d.pins && Turn(p) < 4 && forall q :: q in d.pins ==> Turn(p) <= Turn(q)
    ensures NextRemoval(d, d.(pins := d.pins - {p}))
  {
  }

  /** What a pinned link or program has been verified with, and was alive, is alive: the kernel
      keeps the maps of programs that are pinned or attached. */
  ghost predicate KeptAlive(d: Directory, r: Records, alive: set<nat>, alive': set<nat>) {
    && (forall l, m :: LinkPin(l) in d.pins && l in r.links && m in r.links[l] && m in alive ==> m in alive')
    && (forall p, m :: ProgramPin(p) in d.pins && p in r.programs && m in r.programs[p] && m in alive ==> m in alive')
  }

  /** Whatever the removal has got to, it can be verified again, as long as the journal is there. */
  lemma InOrderVerifies(before: Directory, now: Directory, r: Records, alive: set<nat>, alive': set<nat>)
    requires Verifies(before, r, alive) && InOrder(before, now) && MetadataPin in now.pins
    requires KeptAlive(now, r, alive, alive')
    ensures Verifies(now, r, alive')
  {
    forall l | LinkPin(l) in now.pins
      ensures LinkVerifies(l, now, r, alive')
    {
      assert LinkVerifies(l, before, r, alive);
    }
    forall p | ProgramPin(p) in now.pins
      ensures ProgramVerifies(p, now, r, alive')
    {
      assert ProgramVerifies(p, before, r, alive);
    }
  }

  /** A later verification succeeds, whatever the kernel has let go that nothing pinned needs. */
  ghost predicate VerifiesAgain(d: Directory, r: Records, alive: set<nat>) {
    forall alive' :: KeptAlive(d, r, alive, alive') ==> Verifies(d, r, alive')
  }

  class Remover {
    const world: World
    var directory: Directory
    ghost var trace: seq<Directory>

    ghost predicate Valid()
      reads this
    {
      |trace| > 0 && trace[|trace| - 1] == directory
    }

    constructor (d: Directory, w: World)
      ensures Valid() && world == w && directory == d && trace == [d]
    {
      world := w;
      directory := d;
      trace := [d];
    }

    method Step(d: Directory)
      requires Valid()
      modifies this`directory, this`trace
      ensures Valid() && directory == d && trace == old(trace) + [d]
    {
      directory := d;
      trace := trace + [d];
    }

    /** All states since the flag was raised are flagged and in order. */
    ghost predicate Orderly(before: Directory, from: nat)
      reads this
    {
      && Valid() && from < |trace|
      && (forall i :: from <= i < |trace| ==> trace[i].flagged && InOrder(before, trace[i]))
      && (forall i :: from < i < |trace| ==> NextRemoval(trace[i - 1], trace[i]))
    }

    /** Remove one pin, if removing it now keeps the order. */
    method RemovePin(p: Pin, ghost before: Directory, ghost from: nat) returns (ok: bool)
      requires Orderly(before, from) && InOrder(before, directory.(pins := directory.pins - {p}))
      requires p in directory.pins && Turn(p) < 4 && forall q :: q in directory.pins ==> Turn(p) <= Turn(q)
      modifies this`directory, this`trace
      ensures Orderly(before, from) && old(trace) <= trace
      ensures directory == if ok then old(directory).(pins := old(directory).pins - {p}) else old(directory)
      ensures !world.failing ==> ok
    {
      Removes(directory, p);
      hide InOrder, NextRemoval, Turn;
      ok := world.Permits();
      if ok {
        Step(directory.(pins := directory.pins - {p}));
      }
    }

    method RemoveLinks(ghost before: Directory, ghost from: nat) returns (ok: bool)
      requires Orderly(before, from) && directory.pins == before.pins
      modifies this`directory, this`trace
      ensures Orderly(before, from) && old(trace) <= trace
      ensures ok ==> directory.pins == set p | p in before.pins && !p.LinkPin?
      ensures !world.failing ==> ok
    {
      var rest := set p | p in directory.pins && p.LinkPin?;
      while rest != {}
        invariant Orderly(before, from) && old(trace) <= trace
        invariant directory.pins == set p | p in before.pins && (p.LinkPin? ==> p in rest)
        invariant rest <= before.pins && forall p :: p in rest ==> p.LinkPin?
        decreases rest
      {
        var p :| p in rest;
        ok := RemovePin(p, before, from);
        if !ok {
          return;
        }
        rest := rest - {p};
      }
      ok := true;
    }

    method RemovePrograms(ghost before: Directory, ghost from: nat) returns (ok: bool)
      requires Orderly(before, from) && directory.pins == set p | p in before.pins && !p.LinkPin?
      modifies this`directory, this`trace
      ensures Orderly(before, from) && old(trace) <= trace
      ensures ok ==> directory.pins == set p | p in before.pins && !p.LinkPin? && !p.ProgramPin?
      ensures !world.failing ==> ok
    {
      var rest := set p | p in directory.pins && p.ProgramPin?;
      while rest != {}
        invariant Orderly(before, from) && old(trace) <= trace
        invariant directory.pins == set p | p in before.pins && !p.LinkPin? && (p.ProgramPin? ==> p in rest)
        invariant rest <= before.pins && forall p :: p in rest ==> p.ProgramPin?
        decreases rest
      {
        var p :| p in rest;
        ok := RemovePin(p, before, from);
        if !ok {
          return;
        }
        rest := rest - {p};
      }
      ok := true;
    }

    method RemoveMaps(ghost before: Directory, ghost from: nat) returns (ok: bool)
      requires Orderly(before, from) && directory.pins == set p | p in before.pins && !p.LinkPin? && !p.ProgramPin?
      modifies this`directory, this`trace
      ensures Orderly(before, from) && old(trace) <= trace
      ensures ok ==> directory.pins == set p | p in before.pins && (p.MetadataPin? || p.ForeignPin?)
      ensures !world.failing ==> ok
    {
      var rest := set p | p in directory.pins && p.MapPin?;
      while rest != {}
        invariant Orderly(before, from) && old(trace) <= trace
        invariant directory.pins == set p | p in before.pins && !p.LinkPin? && !p.ProgramPin?
                  && (p.MapPin? ==> p in rest)
        invariant rest <= before.pins && forall p :: p in rest ==> p.MapPin?
        decreases rest
      {
        var p :| p in rest;
        ok := RemovePin(p, before, from);
        if !ok {
          return;
        }
        rest := rest - {p};
      }
      ok := true;
    }

    /** removeEnforcement. An empty directory is done; a refusal changes nothing. Once the
        verification has passed, at every moment the directory is flagged, only removable pins
        have gone, in order; so the agent refuses to start and the removal can be run again. It
        completes when nothing fails. */
    method RemoveEnforcement(r: Records, alive: set<nat>) returns (ok: bool, ghost refused: bool)
      requires Valid()
      modifies this`directory, this`trace
      ensures Valid() && old(trace) <= trace
      ensures refused <==> old(directory).pins != {} && !Verifies(old(directory), r, alive)
      ensures refused ==> !ok && directory == old(directory) && trace == old(trace)
      ensures forall i :: |old(trace)| <= i < |trace| ==>
                && !Starts(trace[i], r)
                && InOrder(old(directory), trace[i])
                && (MetadataPin in trace[i].pins ==> VerifiesAgain(trace[i], r, alive))
                && (MetadataPin !in trace[i].pins ==> forall p :: p in trace[i].pins ==> p.ForeignPin?)
      ensures |trace| > |old(trace)| ==> trace[|old(trace)|] == old(directory).(flagged := true)
      ensures forall i :: |old(trace)| < i < |trace| ==> NextRemoval(trace[i - 1], trace[i])
      ensures ok ==> directory.pins == set p | p in old(directory).pins && p.ForeignPin?
      ensures !world.failing && !refused ==> ok
    {
      if directory.pins == {} {
        return true, false;
      }
      var verified := Verify(directory, r, alive);
      refused := !verified;
      if !verified {
        return false, refused;
      }
      ghost var before := directory;
      ok := world.Permits();
      if !ok {
        return;
      }
      Step(directory.(flagged := true));
      ghost var from := |trace| - 1;
      ok := RemoveAll(before, from);
      forall i | from <= i < |trace|
        ensures MetadataPin in trace[i].pins ==> VerifiesAgain(trace[i], r, alive)
        ensures MetadataPin !in trace[i].pins ==> forall p :: p in trace[i].pins ==> p.ForeignPin?
      {
        if MetadataPin in trace[i].pins {
          forall alive' | KeptAlive(trace[i], r, alive, alive')
            ensures Verifies(trace[i], r, alive')
          {
            InOrderVerifies(before, trace[i], r, alive, alive');
          }
        } else {
          assert forall p :: p in trace[i].pins ==> !Removable(p);
        }
      }
    }

    method RemoveAll(ghost before: Directory, ghost from: nat) returns (ok: bool)
      requires Orderly(before, from) && directory.pins == before.pins && MetadataPin in before.pins
      modifies this`directory, this`trace
      ensures Orderly(before, from) && old(trace) <= trace
      ensures ok ==> directory.pins == set p | p in before.pins && p.ForeignPin?
      ensures !world.failing ==> ok
    {
      ok := RemoveLinks(before, from);
      if ok {
        ok := RemovePrograms(before, from);
      }
      if ok {
        ok := RemoveMaps(before, from);
      }
      if ok {
        ok := RemovePin(MetadataPin, before, from);
      }
    }
  }

  /** Whatever an earlier removal has got to, and whatever the kernel has let go meanwhile that
      nothing pinned needs: run again, it is not refused, and it completes when nothing fails. */
  method RunAgain(d: Directory, r: Records, alive: set<nat>, alive': set<nat>, world: World)
    returns (ok: bool, left: Directory)
    requires MetadataPin in d.pins && VerifiesAgain(d, r, alive) && KeptAlive(d, r, alive, alive')
    ensures ok ==> left.pins == set p | p in d.pins && p.ForeignPin?
    ensures !world.failing ==> ok
  {
    var remover := new Remover(d, world);
    ghost var refused;
    ok, refused := remover.RemoveEnforcement(r, alive');
    left := remover.directory;
  }
}
