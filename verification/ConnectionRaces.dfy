/**
 One TCP tuple of the connection table, used by many CPUs at once: the lookup with
 the first look at the expiry found, the steps of refresh_connection and the insertion
 of remember_reverse_connection, interleaved in every order. A closing entry stays until
 it expires exactly when no CPU is about to compare against an equal, stale expiry or to
 insert over it.
*/
module ConnectionRaces {
  import opened Options
  import opened PolicySets
  import opened SlotVerdict
  import opened Connections

  type Cpu = nat

  /** Where a CPU stands. */
  datatype Pc =
    | Looking                  // about to look the tuple up, and at the expiry of what it finds
    | Inserting                // found nothing live, and a rule allows the packet: about to insert
    | Entered                  // in refresh_connection: about to load the FINs, or to fetch-and-or its own
    | Closer                   // its FIN completed the pair: about to exchange the expiry
    | Loading                  // about to load the expiry
    | Checking(seen: nat)      // about to look at the FINs once more
    | Swapping(seen: nat)      // about to compare-and-swap the expiry
    | Left

  /** A packet being processed. Every CPU reads its own clock; `ruled` says whether a rule allows
      the packet, `on` is the map element its lookup has returned. */
  datatype Thread = Thread(now: nat, way: Way, fin: bool, ruled: bool, on: nat, pc: Pc) {
    predicate Refreshing() {
      !pc.Looking? && !pc.Inserting? && !pc.Left?
    }
  }

  /** A map element; `closed` is history: the expiries that closing has written. */
  datatype Element = Element(expires: nat, fins: Fins, closed: set<nat>)

  /** Replaced and deleted elements stay what pointers to them point to. */
  datatype State = State(elements: seq<Element>, current: Option<nat>, threads: map<Cpu, Thread>)

  datatype Label = Arrive(cpu: Cpu, thread: Thread) | Advance(cpu: Cpu) | Delete

  const NOTHING := Element(0, Fins(false, false), {})

  /** The element a CPU works on. */
  function Mine(s: State, t: Thread): Element {
    if t.on < |s.elements| then s.elements[t.on] else NOTHING
  }

  function Put(s: State, t: Thread, e: Element): seq<Element> {
    if t.on < |s.elements| then s.elements[t.on := e] else s.elements
  }

  /** What the map holds for the tuple is live at the given time. */
  predicate Finds(s: State, now: nat) {
    s.current.Some? && s.current.value < |s.elements| && s.elements[s.current.value].expires > now
  }

  /** The initial value of an inserted element. */
  function Inserted(t: Thread): Element {
    Element(t.now + TCP_IDLE, if t.fin then Fins(false, false).With(t.way) else Fins(false, false), {})
  }

  /** The next atomic step of refresh_connection: where the CPU gets to, and what the element becomes. */
  function Refresh(t: Thread, e: Element): (Pc, Element) {
    match t.pc
    case Entered =>
      var fins := if t.fin then e.fins.With(t.way) else e.fins;
      (if t.fin && fins.Both() && !e.fins.Both() then Closer else if fins.Both() then Left
          else Loading, e.(fins := fins))
    case Closer =>
      (Left, e.(expires := t.now + TCP_CLOSING, closed := e.closed + {t.now + TCP_CLOSING}))
    case Loading =>
      var recent := e.expires > t.now && e.expires - t.now > TCP_IDLE - REFRESH_INTERVAL;
      (if recent then Left else Checking(e.expires), e)
    case Checking(seen) => (if e.fins.Both() then Left else Swapping(seen), e)
    case Swapping(seen) => (Left, if e.expires == seen then e.(expires := t.now + TCP_IDLE) else e)
    case _ => (t.pc, e)
  }

  /** The element after n steps of one CPU that nobody interferes with. */
  function Alone(t: Thread, e: Element, n: nat): Element
    decreases n
  {
    if n == 0 then e
    else
      var r := Refresh(t, e);
      Alone(t.(pc := r.0), r.1, n - 1)
  }

  /** Without interference the atomic steps do what refresh_connection does: four at most. */
  lemma AloneIsSequential(t: Thread, e: Element, k: ConnKey, f: Flags, n: nat)
    requires t.pc.Entered? && k.protocol == TCP && k.direction == t.way && f.fin == t.fin && n >= 4
    ensures var last := Alone(t, e, n);
            ConnValue(last.expires, last.fins) == Refreshed(ConnValue(e.expires, e.fins), k, t.now, f)
  {
    var r := Refresh(t, e);
    var u := t.(pc := r.0);
    var r' := Refresh(u, r.1);
    var u' := u.(pc := r'.0);
    var r'' := Refresh(u', r'.1);
    var u'' := u'.(pc := r''.0);
    var last := Refresh(u'', r''.1);
    assert Alone(t, e, n) == Alone(u, r.1, n - 1) == Alone(u', r'.1, n - 2) == Alone(u'', r''.1, n - 3);
    assert last.0.Left?;
    StaysLeft(u''.(pc := last.0), last.1, n - 4);
  }

  lemma {:induction false} StaysLeft(t: Thread, e: Element, n: nat)
    requires t.pc.Left?
    ensures Alone(t, e, n) == e
    decreases n
  {
    if n > 0 {
      StaysLeft(t, e, n - 1);
    }
  }

  /** The next atomic step of a CPU. */
  function Moved(s: State, c: Cpu): State
    requires c in s.threads
  {
    var t := s.threads[c];
    match t.pc
    case Looking =>
      var t' := if Finds(s, t.now) then t.(pc := Entered, on := s.current.value)
                else if t.ruled then t.(pc := Inserting) else t.(pc := Left);
      s.(threads := s.threads[c := t'])
    case Inserting =>
      State(s.elements + [Inserted(t)], Some(|s.elements|), s.threads[c := t.(pc := Left)])
    case Left => s
    case _ =>
      var r := Refresh(t, Mine(s, t));
      s.(elements := Put(s, t, r.1), threads := s.threads[c := t.(pc := r.0)])
  }

  /** A deletion is an allowed reset, an allowed new SYN, or an eviction. */
  ghost predicate Next(s: State, s': State, act: Label) {
    match act
    case Arrive(c, t) => (c in s.threads ==> s.threads[c].pc.Left?) && t.pc.Looking?
        && s' == s.(threads := s.threads[c := t])
    case Advance(c) => c in s.threads && s' == Moved(s, c)
    case Delete => s' == s.(current := None)
  }

  /** Whatever the table held before: open elements, one of them perhaps the tuple's entry. */
  ghost predicate Init(s: State) {
    && s.threads == map[]
    && forall g :: 0 <= g < |s.elements| ==> !s.elements[g].fins.Both() && s.elements[g].closed == {}
  }

  ghost predicate Run(states: seq<State>, acts: seq<Label>) {
    && |states| == |acts| + 1
    && forall i :: 0 <= i < |acts| ==> Next(states[i], states[i + 1], acts[i])
  }

  // ----- closing happens once -----

  function Closers(threads: map<Cpu, Thread>, g: nat): set<Cpu> {
    set c | c in threads && threads[c].pc.Closer? && threads[c].on == g
  }

  /** Both FINs have been seen: one CPU is going to close the element, or one has. */
  ghost predicate ElementOk(e: Element, closers: set<Cpu>) {
    && (!e.fins.Both() ==> closers == {} && e.closed == {})
    && |closers| + |e.closed| <= 1
  }

  ghost predicate Inv(s: State) {
    && (forall c :: c in s.threads && s.threads[c].Refreshing() ==> s.threads[c].on < |s.elements|)
    && forall g :: 0 <= g < |s.elements| ==> ElementOk(s.elements[g], Closers(s.threads, g))
  }

  lemma ClosersAfter(threads: map<Cpu, Thread>, c: Cpu, t: Thread, g: nat)
    ensures Closers(threads[c := t], g) == if t.pc.Closer? && t.on == g then Closers(threads, g) + {c}
            else Closers(threads, g) - {c}
  {
  }

  /** A CPU's step changes the element it works on, and may add one. */
  lemma Untouched(s: State, c: Cpu, g: nat)
    requires c in s.threads && g < |s.elements| && (s.threads[c].Refreshing() ==> s.threads[c].on != g)
    ensures g < |Moved(s, c).elements| && Moved(s, c).elements[g] == s.elements[g]
    ensures Closers(Moved(s, c).threads, g) == Closers(s.threads, g)
  {
    hide Refresh;
    ClosersAfter(s.threads, c, Moved(s, c).threads[c], g);
  }

  lemma OneFewer<T>(xs: set<T>, x: T)
    requires x in xs && |xs| <= 1
    ensures xs == {x} && xs - {x} == {}
  {
    assert |xs - {x}| == |xs| - 1;
  }

  /** The step of one CPU, on the element and on the set of its closers. */
  lemma RefreshKeeps(t: Thread, e: Element, closers: set<Cpu>, c: Cpu)
    requires t.Refreshing() && ElementOk(e, closers) && (c in closers <==> t.pc.Closer?)
    ensures var r := Refresh(t, e); ElementOk(r.1, if r.0.Closer? then closers + {c} else closers - {c})
  {
    if t.pc.Closer? {
      OneFewer(closers, c);
    } else {
      assert closers - {c} == closers;
    }
  }

  /** The element it works on stays in order. */
  lemma Touched(s: State, c: Cpu)
    requires Inv(s) && c in s.threads && s.threads[c].Refreshing()
    ensures var g, s' := s.threads[c].on, Moved(s, c);
            g < |s'.elements| == |s.elements| && ElementOk(s'.elements[g], Closers(s'.threads, g))
  {
    hide Refresh, ElementOk;
    var t, s' := s.threads[c], Moved(s, c);
    assert ElementOk(s.elements[t.on], Closers(s.threads, t.on));
    RefreshKeeps(t, s.elements[t.on], Closers(s.threads, t.on), c);
    ClosersAfter(s.threads, c, s'.threads[c], t.on);
  }

  lemma MovedKeeps(s: State, c: Cpu)
    requires Inv(s) && c in s.threads
    ensures Inv(Moved(s, c))
  {
    var t, s' := s.threads[c], Moved(s, c);
    StaysPlaced(s, c);
    hide ElementOk, Closers, Moved;
    forall g | 0 <= g < |s'.elements|
      ensures ElementOk(s'.elements[g], Closers(s'.threads, g))
    {
      if t.Refreshing() && t.on == g {
        Touched(s, c);
      } else if g < |s.elements| {
        Untouched(s, c, g);
      } else {
        NewElement(s, c, g);
      }
    }
  }

  lemma StaysPlaced(s: State, c: Cpu)
    requires Inv(s) && c in s.threads
    ensures forall d :: d in Moved(s, c).threads && Moved(s, c).threads[d].Refreshing() ==>
            Moved(s, c).threads[d].on < |Moved(s, c).elements|
    ensures |Moved(s, c).elements| >= |s.elements|
  {
    hide ElementOk, Closers;
  }

  lemma NewElement(s: State, c: Cpu, g: nat)
    requires Inv(s) && c in s.threads && |s.elements| <= g < |Moved(s, c).elements|
    ensures ElementOk(Moved(s, c).elements[g], Closers(Moved(s, c).threads, g))
  {
    assert s.threads[c].pc.Inserting?;
    assert Closers(Moved(s, c).threads, g) == {};
  }

  lemma NextKeeps(s: State, s': State, act: Label)
    requires Inv(s) && Next(s, s', act)
    ensures Inv(s')
  {
    match act
    case Advance(c) => MovedKeeps(s, c);
    case Arrive(c, t) =>
      forall g | 0 <= g < |s'.elements|
        ensures ElementOk(s'.elements[g], Closers(s'.threads, g))
      {
        ClosersAfter(s.threads, c, t, g);
        assert Closers(s'.threads, g) == Closers(s.threads, g);
      }
    case Delete =>
  }

  /** The expiry of a close is written once per element: no retransmitted FIN writes another. */
  lemma {:induction false} ClosedOnce(states: seq<State>, acts: seq<Label>, i: nat)
    requires Run(states, acts) && Init(states[0]) && i < |states|
    ensures Inv(states[i])
    ensures forall g :: 0 <= g < |states[i].elements| ==> |states[i].elements[g].closed| <= 1
  {
    if i == 0 {
      forall g | 0 <= g < |states[0].elements|
        ensures ElementOk(states[0].elements[g], Closers(states[0].threads, g))
      {
        assert Closers(states[0].threads, g) == {};
      }
    } else {
      ClosedOnce(states, acts, i - 1);
      NextKeeps(states[i - 1], states[i], acts[i - 1]);
    }
    assert forall g :: 0 <= g < |states[i].elements| ==>
        ElementOk(states[i].elements[g], Closers(states[i].threads, g));
  }

  // ----- what can still defeat a close -----

  /** The tuple's entry is this element, and expires then. */
  ghost predicate Holds(s: State, g: nat, u: nat) {
    s.current == Some(g) && g < |s.elements| && s.elements[g].expires == u
  }

  /** The entry has been closed at u, and holds it. */
  ghost predicate ClosedAt(s: State, g: nat, u: nat) {
    Inv(s) && Holds(s, g, u) && s.elements[g].closed == {u}
  }

  /** A CPU that is about to compare against exactly the closing expiry, with another value to put;
      or to insert; or to look up what has expired by its clock, and then insert. */
  predicate Threat(t: Thread, g: nat, u: nat) {
    || (t.pc == Swapping(u) && t.on == g && t.now + TCP_IDLE != u)
    || t.pc.Inserting?
    || (t.pc.Looking? && t.ruled && u <= t.now)
  }

  ghost predicate Threatened(s: State, g: nat, u: nat) {
    exists c :: c in s.threads && Threat(s.threads[c], g, u)
  }

  /** Nothing is deleted, and no packet that a rule allows arrives after the entry has expired. */
  ghost predicate Meanwhile(acts: seq<Label>, u: nat) {
    forall i :: 0 <= i < |acts| ==> Harmless(acts[i], u)
  }

  predicate Harmless(act: Label, u: nat) {
    match act
    case Arrive(_, t) => t.ruled ==> t.now < u
    case Advance(_) => true
    case Delete => false
  }

  lemma ClosedHasNoCloser(s: State, g: nat, u: nat)
    requires ClosedAt(s, g, u)
    ensures s.elements[g].fins.Both()
    ensures forall c :: c in s.threads && s.threads[c].pc.Closer? ==> s.threads[c].on != g
  {
    assert ElementOk(s.elements[g], Closers(s.threads, g));
    assert |s.elements[g].closed| == 1;
    assert forall c :: c in s.threads && s.threads[c].pc.Closer? && s.threads[c].on == g ==> c in Closers(s.threads, g);
  }

  lemma MoveHolds(s: State, c: Cpu, g: nat, u: nat)
    requires ClosedAt(s, g, u) && c in s.threads && !Threat(s.threads[c], g, u)
    ensures ClosedAt(Moved(s, c), g, u) && !Threat(Moved(s, c).threads[c], g, u)
  {
    MovedKeeps(s, c);
    ClosedHasNoCloser(s, g, u);
    if s.threads[c].Refreshing() && s.threads[c].on == g {
    } else {
      Untouched(s, c, g);
    }
  }

  lemma StepHolds(s: State, s': State, act: Label, g: nat, u: nat)
    requires ClosedAt(s, g, u) && !Threatened(s, g, u) && Next(s, s', act) && Harmless(act, u)
    ensures ClosedAt(s', g, u) && !Threatened(s', g, u)
  {
    NextKeeps(s, s', act);
    if act.Advance? {
      MoveHolds(s, act.cpu, g, u);
    }
    forall d | d in s'.threads
      ensures !Threat(s'.threads[d], g, u)
    {
      if d != act.cpu {
        assert d in s.threads && s'.threads[d] == s.threads[d];
      }
    }
  }

  /** Nothing threatens it: it holds in every continuation, whatever CPUs do and arrive. */
  lemma {:induction false} UnthreatenedHolds(states: seq<State>, acts: seq<Label>, g: nat, u: nat, i: nat)
    requires Run(states, acts) && Meanwhile(acts, u) && i < |states|
    requires ClosedAt(states[0], g, u) && !Threatened(states[0], g, u)
    ensures ClosedAt(states[i], g, u) && !Threatened(states[i], g, u)
  {
    if i > 0 {
      UnthreatenedHolds(states, acts, g, u, i - 1);
      StepHolds(states[i - 1], states[i], acts[i - 1], g, u);
    }
  }

  /** Something threatens it: that CPU alone can defeat it, in one step or two. */
  lemma ThreatenedMoves(s: State, g: nat, u: nat) returns (states: seq<State>, acts: seq<Label>)
    requires ClosedAt(s, g, u) && Threatened(s, g, u)
    ensures Run(states, acts) && states[0] == s && Meanwhile(acts, u) && |acts| > 0
    ensures !Holds(states[|acts|], g, u)
  {
    var c :| c in s.threads && Threat(s.threads[c], g, u);
    var s1 := Moved(s, c);
    if s.threads[c].pc.Looking? {
      var s2 := Moved(s1, c);
      states, acts := [s, s1, s2], [Advance(c), Advance(c)];
    } else {
      states, acts := [s, s1], [Advance(c)];
    }
  }

  /** Exactly when a close is final: until it expires the entry stays, and keeps its expiry, if and
      only if no CPU is about to swap against an equal stale expiry or to insert over it. */
  lemma CloseIsFinalIff(s: State, g: nat, u: nat)
    requires ClosedAt(s, g, u)
    ensures !Threatened(s, g, u) <==>
              forall states: seq<State>, acts: seq<Label>, i: nat ::
                Run(states, acts) && Meanwhile(acts, u) && states[0] == s && 0 <= i < |states| ==>
                    Holds(states[i], g, u)
  {
    if Threatened(s, g, u) {
      var states, acts := ThreatenedMoves(s, g, u);
      assert !Holds(states[|acts|], g, u);
    } else {
      forall states: seq<State>, acts: seq<Label>, i: nat
          | Run(states, acts) && Meanwhile(acts, u) && states[0] == s && 0 <= i < |states|
        ensures Holds(states[i], g, u)
      {
        UnthreatenedHolds(states, acts, g, u, i);
      }
    }
  }

  /** A CPU at its swap when the element closes had loaded its stale expiry before the second FIN:
      after that moment nobody reaches the swap. */
  lemma NoNewSwappers(s: State, s': State, act: Label, c: Cpu, g: nat)
    requires Inv(s) && g < |s.elements| && s.elements[g].fins.Both() && Next(s, s', act)
    requires c in s'.threads && s'.threads[c].pc.Swapping? && s'.threads[c].on == g
    ensures c in s.threads && s.threads[c] == s'.threads[c]
  {
  }

  /** Nor does anybody reach the insertion while the entry is live by the clocks of those who look. */
  lemma NoNewInserters(s: State, s': State, act: Label, c: Cpu, g: nat, u: nat)
    requires Holds(s, g, u) && Next(s, s', act)
    requires c in s'.threads && s'.threads[c].pc.Inserting? && s'.threads[c].now < u
    ensures c in s.threads && s.threads[c] == s'.threads[c]
  {
  }

  // ----- it does happen -----

  /** A run, by its last state and everything else that matters of it. */
  ghost predicate Reaches(states: seq<State>, acts: seq<Label>, s: State) {
    Run(states, acts) && Init(states[0]) && states[|acts|] == s
  }

  lemma Go(states: seq<State>, acts: seq<Label>, s: State, act: Label, s': State)
    returns (more: seq<State>, acts': seq<Label>)
    requires Reaches(states, acts, s) && Next(s, s', act)
    ensures more == states + [s'] && acts' == acts + [act] && Reaches(more, acts', s')
  {
    more, acts' := states + [s'], acts + [act];
    forall i | 0 <= i < |acts'|
      ensures Next(more[i], more[i + 1], acts'[i])
    {
      if i < |acts| {
        assert more[i] == states[i] && more[i + 1] == states[i + 1] && acts'[i] == acts[i];
      }
    }
  }

  /** A CPU takes a step. */
  lemma Steps(states: seq<State>, acts: seq<Label>, s: State, c: Cpu)
    returns (more: seq<State>, acts': seq<Label>, s': State)
    requires Reaches(states, acts, s) && c in s.threads
    ensures s' == Moved(s, c) && more == states + [s'] && acts' == acts + [Advance(c)] && Reaches(more, acts', s')
  {
    s' := Moved(s, c);
    more, acts' := Go(states, acts, s, Advance(c), s');
  }

  /** A packet arrives on an idle CPU. */
  lemma Arrives(states: seq<State>, acts: seq<Label>, s: State, c: Cpu, t: Thread)
    returns (more: seq<State>, acts': seq<Label>, s': State)
    requires Reaches(states, acts, s) && c !in s.threads && t.pc.Looking?
    ensures s' == s.(threads := s.threads[c := t]) && more == states + [s'] && acts' == acts + [Arrive(c, t)]
            && Reaches(more, acts', s')
  {
    s' := s.(threads := s.threads[c := t]);
    more, acts' := Go(states, acts, s, Arrive(c, t), s');
  }

  /** An ACK that is about to refresh an idle, half closed connection 120 seconds before its end. */
  lemma StaleAck(start: nat) returns (states: seq<State>, acts: seq<Label>, s: State)
    ensures Reaches(states, acts, s) && s.current == Some(0)
    ensures s.elements == [Element(start + TCP_CLOSING, Fins(true, false), {})]
    ensures s.threads == map[0 := Thread(start, 0, false, false, 0, Swapping(start + TCP_CLOSING))]
  {
    s := State([Element(start + TCP_CLOSING, Fins(true, false), {})], Some(0), map[]);
    states, acts := [s], [];
    assert Reaches(states, acts, s);
    hide Run, Init;
    states, acts, s := Arrives(states, acts, s, 0, Thread(start, 0, false, false, 0, Looking));
    states, acts, s := Steps(states, acts, s, 0);
    assert s.threads[0].pc == Entered;
    states, acts, s := Steps(states, acts, s, 0);
    assert s.threads[0].pc == Loading;
    states, acts, s := Steps(states, acts, s, 0);
    states, acts, s := Steps(states, acts, s, 0);
  }

  /** An idle connection whose old expiry is 120 seconds away is closed by a second FIN while an
      ACK on another CPU is about to refresh it. The closing entry then lives for another day. */
  lemma StaleSwapExtends(start: nat) returns (states: seq<State>, acts: seq<Label>)
    ensures Run(states, acts) && Init(states[0])
    ensures var last := states[|acts|];
            && last.current == Some(0)
            && last.elements == [Element(start + TCP_IDLE, Fins(true, true), {start + TCP_CLOSING})]
  {
    hide Run, Init;
    var s;
    states, acts, s := StaleAck(start);
    states, acts, s := Arrives(states, acts, s, 1, Thread(start, 1, true, false, 0, Looking));
    states, acts, s := Steps(states, acts, s, 1);
    states, acts, s := Steps(states, acts, s, 1);
    assert s.threads[1].pc == Closer;
    states, acts, s := Steps(states, acts, s, 1);
    assert s.elements[0].closed == {start + TCP_CLOSING};
    states, acts, s := Steps(states, acts, s, 0);
  }

  /** Two packets that a rule allows find no entry. One inserts it, and the connection closes; then
      the other inserts over it. The tuple is open again, and has no FIN any more. */
  lemma StaleInsertReopens(start: nat) returns (states: seq<State>, acts: seq<Label>)
    ensures Run(states, acts) && Init(states[0]) && |acts| > 0
    ensures var closed, last := states[|acts| - 1], states[|acts|];
            && closed.current == Some(0) && last.current == Some(1)
            && closed.elements == [Element(start + TCP_CLOSING, Fins(true, true), {start + TCP_CLOSING})]
            && last.elements == closed.elements + [Element(start + TCP_IDLE, Fins(false, false), {})]
  {
    var s := State([], None, map[]);
    states, acts := [s], [];
    assert Reaches(states, acts, s);
    hide Run, Init;
    states, acts, s := Arrives(states, acts, s, 0, Thread(start, 0, false, true, 0, Looking));
    states, acts, s := Steps(states, acts, s, 0);
    states, acts, s := Arrives(states, acts, s, 1, Thread(start, 0, true, true, 0, Looking));
    states, acts, s := Steps(states, acts, s, 1);
    states, acts, s := Steps(states, acts, s, 1);
    assert s.threads[0].pc == Inserting && s.elements == [Element(start + TCP_IDLE, Fins(true, false), {})];
    states, acts, s := Arrives(states, acts, s, 2, Thread(start, 1, true, false, 0, Looking));
    states, acts, s := Steps(states, acts, s, 2);
    states, acts, s := Steps(states, acts, s, 2);
    assert s.threads[2].pc == Closer;
    states, acts, s := Steps(states, acts, s, 2);
    assert s.elements[0].closed == {start + TCP_CLOSING};
    states, acts, s := Steps(states, acts, s, 0);
  }
}
