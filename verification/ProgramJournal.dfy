/**
 Program generations across restarts: a generation is registered, then pinned, then
 links are switched to it; an old one is unpinned, then unregistered. A crash
 between any two of these leaves a state that the next start accepts.
*/
module ProgramJournal {
  import opened PolicySets
  import opened Options
  import opened Environment

  type ProgId = nat

  /** Every pinned attachment: a subject's two directions, a guard's three hooks. */
  datatype Link = SubjectLink(cgroup: Cgroup, way: Way) | GuardLink(cgroup: Cgroup, hook: Hook)

  type Hook = h: nat | h < 3

  datatype Name = Egress | Ingress | GuardEgress | GuardIngress | SocketNamespace

  /** The program a link must run. */
  function NameOf(l: Link): Name {
    match l
    case SubjectLink(_, w) => if w == 0 then Egress else Ingress
    case GuardLink(_, h) => if h == 0 then GuardEgress else if h == 1 then GuardIngress else SocketNamespace
  }

  datatype Programs = Programs(
    registry: map<ProgId, Name>,     // program_registry
    pins: set<ProgId>,               // program_<id> pins
    links: map<Link, ProgId>)        // what each pinned link runs

  /** A program pin implies a registry record; a linked program is pinned and is the right one. */
  ghost predicate JournalOk(p: Programs) {
    && p.pins <= p.registry.Keys
    && forall l :: l in p.links ==> p.links[l] in p.pins && p.registry[p.links[l]] == NameOf(l)
  }

  /** Every link runs a program of its own kind: a subject's egress and ingress links the two
      directional programs, a guard's three hooks the guard programs and the socket program. */
  ghost predicate OwnKind(links: map<Link, ProgId>, nameOf: map<ProgId, Name>) {
    forall c: Cgroup ::
      && (SubjectLink(c, 0) in links ==> Runs(links[SubjectLink(c, 0)], nameOf, Egress))
      && (SubjectLink(c, 1) in links ==> Runs(links[SubjectLink(c, 1)], nameOf, Ingress))
      && (GuardLink(c, 0) in links ==> Runs(links[GuardLink(c, 0)], nameOf, GuardEgress))
      && (GuardLink(c, 1) in links ==> Runs(links[GuardLink(c, 1)], nameOf, GuardIngress))
      && (GuardLink(c, 2) in links ==> Runs(links[GuardLink(c, 2)], nameOf, SocketNamespace))
  }

  predicate Runs(id: ProgId, nameOf: map<ProgId, Name>, n: Name) {
    id in nameOf && nameOf[id] == n
  }

  /** The journal in plain words. */
  lemma JournalMeans(p: Programs)
    ensures JournalOk(p) <==> p.pins <= p.registry.Keys && p.links.Values <= p.pins && OwnKind(p.links, p.registry)
  {
    assert forall l :: l in p.links ==> p.links[l] in p.links.Values;
    if p.pins <= p.registry.Keys && p.links.Values <= p.pins && OwnKind(p.links, p.registry) {
      forall l | l in p.links
        ensures p.registry[p.links[l]] == NameOf(l)
      {
        match l
        case SubjectLink(c, w) => assert l == SubjectLink(c, 0) || l == SubjectLink(c, 1);
        case GuardLink(c, h) => assert l == GuardLink(c, 0) || l == GuardLink(c, 1) || l == GuardLink(c, 2);
      }
    }
  }

  /** The live links of both kinds run the programs of the new generation, each its own. */
  ghost predicate Switched(links: map<Link, ProgId>, live: set<Link>, generation: map<Name, ProgId>)
    requires live <= links.Keys && forall n: Name :: n in generation
  {
    forall c: Cgroup ::
      && (SubjectLink(c, 0) in live ==> links[SubjectLink(c, 0)] == generation[Egress])
      && (SubjectLink(c, 1) in live ==> links[SubjectLink(c, 1)] == generation[Ingress])
      && (GuardLink(c, 0) in live ==> links[GuardLink(c, 0)] == generation[GuardEgress])
      && (GuardLink(c, 1) in live ==> links[GuardLink(c, 1)] == generation[GuardIngress])
      && (GuardLink(c, 2) in live ==> links[GuardLink(c, 2)] == generation[SocketNamespace])
  }

  // ----- what startup accepts -----

  datatype Loaded = Loaded(programs: set<ProgId>, stale: set<ProgId>)

  /** recoverPrograms and the program checks of recoverLinks and validatePinInventory. */
  method RecoverPrograms(p: Programs) returns (r: Option<Loaded>)
    ensures r.Some? <==> JournalOk(p)
    ensures r.Some? <==> p.pins <= p.registry.Keys && p.links.Values <= p.pins && OwnKind(p.links, p.registry)
    ensures r.Some? ==> r.value == Loaded(p.pins, p.registry.Keys - p.pins)
  {
    JournalMeans(p);
    var programs: set<ProgId>, stale: set<ProgId> := {}, {};
    var rest := p.registry.Keys;
    while rest != {}
      invariant rest <= p.registry.Keys
      invariant programs == (p.registry.Keys - rest) * p.pins && stale == (p.registry.Keys - rest) - p.pins
      decreases rest
    {
      var id :| id in rest;
      rest := rest - {id};
      if id in p.pins {
        programs := programs + {id};
      } else {
        stale := stale + {id};
      }
    }
    if !(p.pins <= programs) {
      return None;  // an unjournaled program pin
    }
    assert programs == p.pins;
    var links := p.links.Keys;
    while links != {}
      invariant links <= p.links.Keys
      invariant forall l :: l in p.links && l !in links ==> p.links[l] in p.pins && p.registry[p.links[l]] == NameOf(l)
      decreases links
    {
      var l :| l in links;
      links := links - {l};
      if p.links[l] !in programs || p.registry[p.links[l]] != NameOf(l) {
        return None;
      }
    }
    return Some(Loaded(programs, stale));
  }

  ghost function IdsOf(generation: map<Name, ProgId>, names: set<Name>): set<ProgId>
    requires names <= generation.Keys
  {
    set n | n in names :: generation[n]
  }

  class Journal {
    const world: World
    var state: Programs
    ghost var trace: seq<Programs>

    ghost predicate Valid()
      reads this
    {
      && |trace| > 0 && trace[|trace| - 1] == state
      && forall i :: 0 <= i < |trace| ==> JournalOk(trace[i])
    }

    constructor (p: Programs, w: World)
      requires JournalOk(p)
      ensures Valid() && world == w && state == p && trace == [p]
    {
      world := w;
      state := p;
      trace := [p];
    }

    method Step(p: Programs)
      requires Valid() && JournalOk(p)
      modifies this
      ensures Valid() && state == p && trace == old(trace) + [p]
    {
      state := p;
      trace := trace + [p];
    }

    /** publishPrograms for one program of the new generation: record first, pin second. */
    method PublishProgram(id: ProgId, name: Name) returns (ok: bool)
      requires Valid() && id !in state.registry
      modifies this
      ensures Valid() && old(trace) <= trace && state.links == old(state).links
      ensures ok ==> state == old(state).(registry := old(state).registry[id := name], pins := old(state).pins + {id})
      ensures state.registry.Keys <= old(state).registry.Keys + {id}
      ensures forall k :: k in old(state).registry ==>
              k in state.registry && state.registry[k] == old(state).registry[k]
      ensures old(state).pins <= state.pins
      ensures !world.failing ==> ok
    {
      ok := world.Permits();
      if !ok {
        return;
      }
      Step(state.(registry := state.registry[id := name]));
      ok := world.Permits();
      if !ok {
        return;
      }
      Step(state.(pins := state.pins + {id}));
    }

    /** Update one recovered link in place. */
    method UpdateLink(l: Link, id: ProgId) returns (ok: bool)
      requires Valid() && id in state.pins && state.registry[id] == NameOf(l)
      modifies this
      ensures Valid() && old(trace) <= trace
      ensures state == if ok then old(state).(links := old(state).links[l := id]) else old(state)
      ensures !world.failing ==> ok
    {
      ok := world.Permits();
      if ok {
        Step(state.(links := state.links[l := id]));
      }
    }

    /** The names published so far are registered and pinned; nothing else has changed. */
    ghost predicate Published(before: Programs, generation: map<Name, ProgId>, done: set<Name>)
      reads this
    {
      && state.links == before.links
      && done <= generation.Keys
      && state.pins == before.pins + IdsOf(generation, done)
      && state.registry.Keys == before.registry.Keys + IdsOf(generation, done)
      && (forall n :: n in done ==> state.registry[generation[n]] == n)
    }

    /** publishPrograms */
    method PublishPrograms(generation: map<Name, ProgId>) returns (ok: bool)
      requires Valid() && NewGeneration(generation, state)
      modifies this
      ensures Valid() && old(trace) <= trace
      ensures ok ==> Published(old(state), generation, generation.Keys)
      ensures !world.failing ==> ok
    {
      var rest := generation.Keys;
      ghost var done: set<Name> := {};
      while rest != {}
        invariant Valid() && old(trace) <= trace && done !! rest && done + rest == generation.Keys
        invariant Published(old(state), generation, done)
        decreases rest
      {
        var n :| n in rest;
        ghost var before := state;
        assert generation[n] !in state.registry;
        ok := PublishProgram(generation[n], n);
        if !ok {
          return;
        }
        rest := rest - {n};
        done := done + {n};
      }
      assert done == generation.Keys;
      ok := true;
    }

    /** The program side of a start: read the journal, publish the new generation, switch the
        links of live workloads to it, retire what nothing uses any more. It completes when
        nothing fails, whatever earlier starts have left behind. */
    method Start(generation: map<Name, ProgId>, live: set<Link>) returns (ok: bool)
      requires Valid() && NewGeneration(generation, state) && live <= state.links.Keys
      modifies this
      ensures Valid() && old(trace) <= trace
      ensures ok ==> state.links.Keys == old(state).links.Keys
      ensures ok ==> Switched(state.links, live, generation)
      ensures ok ==> state.registry.Keys == state.pins == generation.Values + state.links.Values
      ensures !world.failing ==> ok
    {
      ghost var before := state;
      var loaded := RecoverPrograms(state);
      LinkedArePinned(state);
      ok := PublishPrograms(generation);
      if !ok {
        return;
      }
      assert IdsOf(generation, generation.Keys) == generation.Values;
      ok := UpdateLinks(generation, live);
      if !ok {
        return;
      }
      ok := RetirePrograms(loaded.value, generation.Values);
    }

    /** updateRecoveredLinks: every link of a live workload is switched to the new generation. */
    method UpdateLinks(generation: map<Name, ProgId>, live: set<Link>) returns (ok: bool)
      requires Valid() && live <= state.links.Keys
      requires forall n: Name :: n in generation
      requires forall n :: n in generation ==> generation[n] in state.pins && state.registry[generation[n]] == n
      modifies this
      ensures Valid() && old(trace) <= trace
      ensures state == old(state).(links := state.links) && state.links.Keys == old(state).links.Keys
      ensures ok ==> Switched(state.links, live, generation)
      ensures ok ==> forall l :: l in state.links && l !in live ==> state.links[l] == old(state).links[l]
      ensures !world.failing ==> ok
    {
      var rest := live;
      while rest != {}
        invariant Valid() && old(trace) <= trace && rest <= live
        invariant state == old(state).(links := state.links) && state.links.Keys == old(state).links.Keys
        invariant forall l :: l in state.links ==>
                    state.links[l] == if l in live - rest then generation[NameOf(l)] else old(state).links[l]
        decreases rest
      {
        var l :| l in rest;
        ok := UpdateLink(l, generation[NameOf(l)]);
        if !ok {
          return;
        }
        rest := rest - {l};
      }
      ok := true;
    }

    /** One old program goes: unpin, then unregister. */
    method RetireProgram(id: ProgId) returns (ok: bool)
      requires Valid() && id in state.registry && id !in state.links.Values
      modifies this
      ensures Valid() && old(trace) <= trace && state.links == old(state).links
      ensures ok ==> state == old(state).(registry := old(state).registry - {id}, pins := old(state).pins - {id})
      ensures !world.failing ==> ok
    {
      ok := world.Permits();
      if !ok {
        return;
      }
      Unused(state, id);
      Step(state.(pins := state.pins - {id}));
      ok := world.Permits();
      if !ok {
        return;
      }
      Unused(state, id);
      Step(state.(registry := state.registry - {id}));
    }

    /** retirePrograms: what neither a link nor the new generation uses. On success no record is
        left without a pin, and every pin left is used. */
    method RetirePrograms(loaded: Loaded, generation: set<ProgId>) returns (ok: bool)
      requires Valid() && generation <= state.pins && generation !! loaded.stale
      requires state.pins == loaded.programs + generation && state.registry.Keys == state.pins + loaded.stale
      requires loaded.stale !! state.pins
      modifies this
      ensures Valid() && old(trace) <= trace && state.links == old(state).links
      ensures ok ==> state.registry.Keys == state.pins == generation + old(state).links.Values
      ensures !world.failing ==> ok
    {
      var used := generation + state.links.Values;
      LinkedArePinned(state);
      if used * loaded.stale != {} {
        assert false;  // "live link references a missing program pin"
      }
      ghost var before := state;
      var rest := state.registry.Keys - used;
      while rest != {}
        invariant Valid() && old(trace) <= trace && state.links == before.links
        invariant state.registry.Keys == used + rest && rest !! used
        invariant used <= state.pins <= state.registry.Keys
        decreases rest
      {
        var id :| id in rest;
        ok := RetireProgram(id);
        if !ok {
          return;
        }
        rest := rest - {id};
      }
      ok := true;
    }
  }

  /** A complete new generation: five programs that the registry has never seen. */
  ghost predicate NewGeneration(generation: map<Name, ProgId>, p: Programs) {
    && (forall n: Name :: n in generation)
    && (forall n :: n in generation ==> generation[n] !in p.registry)
    && (forall n, m :: n in generation && m in generation && n != m ==> generation[n] != generation[m])
  }

  lemma Unused(p: Programs, id: ProgId)
    requires id !in p.links.Values
    ensures forall l :: l in p.links ==> p.links[l] != id
  {
  }

  lemma LinkedArePinned(p: Programs)
    requires JournalOk(p)
    ensures p.links.Values <= p.pins
  {
  }
}
