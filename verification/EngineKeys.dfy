/**
 The keys of the kernel's policy maps, and the encoding of a policy set as rows
 of those maps: packed, deduplicated, sorted. The encoding is canonical, so
 comparing two encodings compares the map contents they would install.
*/
module EngineKeys {
  import opened Cidr
  import opened Ordering
  import opened PolicySets
  import opened Options

  /** The keys of subject_state, workload_class, node_bypass, self_bypass and policy_rules. */
  datatype Key =
    | SubjectKey(cgroup: Cgroup, slot: U32)
    | ClassKey(cgroup: Cgroup, slot: U32)
    | NodeKey(slot: U32, address: U32)
    | SelfKey(cgroup: Cgroup, slot: U32, address: U32)
    | RuleKey(prefixLength: U32, meta: U32, cgroup: Cgroup, peer: U32)

  /** subject_state holds two masks; the other maps hold the byte 1. */
  datatype Value = Present | State(isolated: Direction, quarantined: Direction)

  type Row = (Key, Value)

  const SLOT_BIT := 0x8000_0000
  const DIRECTION_BIT := 0x4000_0000

  /** The word packs, from the top, one bit of slot and one of direction, then, below six unused
      bits, the protocol and the port. */
  function Meta(slot: nat, direction: nat, protocol: U8, port: U16): U32
    requires slot < 2 && direction < 2
  {
    slot * SLOT_BIT + direction * DIRECTION_BIT + protocol * 0x1_0000 + port
  }

  /** The packing loses nothing: slots, directions, protocols and ports never alias. */
  lemma MetaIsInjective(slot: nat, direction: nat, protocol: U8, port: U16,
                        slot': nat, direction': nat, protocol': U8, port': U16)
    requires slot < 2 && direction < 2 && slot' < 2 && direction' < 2
    requires Meta(slot, direction, protocol, port) == Meta(slot', direction', protocol', port')
    ensures slot == slot' && direction == direction' && protocol == protocol' && port == port'
  {
  }

  /** Unpacking as recovery does it. */
  lemma MetaUnpacks(slot: nat, direction: nat, protocol: U8, port: U16)
    requires slot < 2 && direction < 2
    ensures var m := Meta(slot, direction, protocol, port);
            && m / SLOT_BIT == slot
            && (m / DIRECTION_BIT) % 2 == direction
            && (m / 0x1_0000) % 0x100 == protocol
            && m % 0x1_0000 == port
            && (m / 0x100_0000) % 0x40 == 0
  {
    var m, high := Meta(slot, direction, protocol, port), slot * 0x80 + direction * 0x40;
    assert m / 0x1_0000 == high * 0x100 + protocol && m % 0x1_0000 == port;
    assert m / 0x100_0000 == high;
    assert m / DIRECTION_BIT == slot * 2 + direction;
  }

  function DirectionBit(d: Direction): nat {
    if d == INGRESS then 1 else 0
  }

  function SubjectRow(slot: U32, s: Subject): Row {
    (SubjectKey(s.cgroup, slot), State(s.isolated, s.quarantined))
  }

  function RuleKeyOf(slot: nat, r: Rule): Key
    requires slot < 2 && ValidRule(r)
  {
    RuleKey(96 + r.peer.bits, Meta(slot, DirectionBit(r.direction), r.protocol, r.port), r.cgroup, r.peer.Masked())
  }

  /** The layout of a rule key: from the top of the word, a bit of slot, a bit of direction that is
      set for ingress, six zero bits, the protocol, the port; and the peer with its host bits gone. */
  lemma RuleKeyLayout(slot: nat, r: Rule)
    requires slot < 2 && ValidRule(r)
    ensures var k := RuleKeyOf(slot, r);
            && k.prefixLength == 96 + r.peer.bits && k.cgroup == r.cgroup
            && k.meta / 0x8000_0000 == slot
            && (k.meta / 0x4000_0000) % 2 == (if r.direction.ingress then 1 else 0)
            && (k.meta / 0x100_0000) % 0x40 == 0
            && (k.meta / 0x1_0000) % 0x100 == r.protocol && k.meta % 0x1_0000 == r.port
            && Aligned(k.peer, 32 - r.peer.bits) && k.peer <= r.peer.addr.value < k.peer + Pow2(32 - r.peer.bits)
  {
    MetaUnpacks(slot, DirectionBit(r.direction), r.protocol, r.port);
    FloorIsAligned(r.peer.addr.value, 32 - r.peer.bits);
  }

  /** encodePolicyRuleKey, with its refusals. */
  function EncodePolicyRuleKey(slot: nat, r: Rule): (k: Option<Key>)
    ensures k.None? <==> slot > 1 || !ValidRule(r)
    ensures k.None? <==>
              || slot >= 2 || !r.peer.addr.V4? || r.peer.bits < 0 || r.peer.bits > 32
              || r.direction.stray || r.direction.egress == r.direction.ingress
              || r.protocol !in {6, 17} || r.port == 0
    ensures k.Some? ==> k.value == RuleKeyOf(slot, r)
  {
    if slot > 1 then None
    else if !r.peer.IsIPv4() then None
    else if r.direction != EGRESS && r.direction != INGRESS then None
    else if r.protocol != TCP && r.protocol != UDP then None
    else if r.port == 0 then None
    else Some(RuleKeyOf(slot, r))
  }

  function SlotOf(k: Key): nat {
    match k
    case SubjectKey(_, s) => s
    case ClassKey(_, s) => s
    case NodeKey(s, _) => s
    case SelfKey(_, s, _) => s
    case RuleKey(_, m, _, _) => m / SLOT_BIT
  }

  // ----- what a policy set installs -----

  /** The rows a set puts into the maps of a slot. */
  ghost predicate Installs(slot: nat, p: PolicySet, row: Row)
    requires slot < 2 && Valid(p)
  {
    match row.0
    case SubjectKey(c, s) =>
      && s == slot
      && exists i :: 0 <= i < |p.subjects| && row == SubjectRow(slot, p.subjects[i])
    case ClassKey(c, s) => s == slot && row.1 == Present && c in p.classified
    case NodeKey(s, a) => s == slot && row.1 == Present && V4(a) in p.nodeIPs
    case SelfKey(c, s, a) =>
      s == slot && row.1 == Present
      && exists i :: 0 <= i < |p.subjects| && p.subjects[i].cgroup == c && V4(a) in p.subjects[i].podIPs
    case RuleKey(_, _, _, _) =>
      row.1 == Present && exists i :: 0 <= i < |p.rules| && row.0 == RuleKeyOf(slot, p.rules[i])
  }

  // ----- the encoding -----

  datatype Encoded = Encoded(subjects: seq<Row>, nodes: seq<Key>, selfs: seq<Key>, rules: seq<Key>,
                             classified: seq<Key>)

  predicate HasRow(e: Encoded, row: Row) {
    match row.0
    case SubjectKey(_, _) => row in e.subjects
    case ClassKey(_, _) => row.1 == Present && row.0 in e.classified
    case NodeKey(_, _) => row.1 == Present && row.0 in e.nodes
    case SelfKey(_, _, _) => row.1 == Present && row.0 in e.selfs
    case RuleKey(_, _, _, _) => row.1 == Present && row.0 in e.rules
  }

  /** The sort orders of encodePolicySet, each as one number. */
  function Rank(k: Key): int {
    match k
    case SubjectKey(c, _) => c
    case ClassKey(c, _) => c
    case NodeKey(s, a) => s * 0x1_0000_0000 + a
    case SelfKey(c, _, a) => c * 0x1_0000_0000 + a
    case RuleKey(len, m, c, a) =>
      ((m * 0x1_0000_0000_0000_0000 + c) * 0x1_0000_0000 + len) * 0x1_0000_0000 + a
  }

  function RowRank(row: Row): int {
    Rank(row.0)
  }

  /** The comparison of sort.Slice on rules is the comparison of ranks. */
  lemma RuleOrderIsRank(k: Key, l: Key)
    requires k.RuleKey? && l.RuleKey?
    ensures Rank(k) < Rank(l) <==>
            (if k.meta != l.meta then k.meta < l.meta
             else if k.cgroup != l.cgroup then k.cgroup < l.cgroup
             else if k.prefixLength != l.prefixLength then k.prefixLength < l.prefixLength
             else k.peer < l.peer)
  {
  }

  ghost predicate Kinds(e: Encoded) {
    && (forall r :: r in e.subjects ==> r.0.SubjectKey?)
    && (forall k :: k in e.nodes ==> k.NodeKey?)
    && (forall k :: k in e.selfs ==> k.SelfKey?)
    && (forall k :: k in e.rules ==> k.RuleKey?)
    && (forall k :: k in e.classified ==> k.ClassKey?)
  }

  ghost predicate Canonical(e: Encoded) {
    && Kinds(e)
    && StrictlySorted(e.subjects, RowRank)
    && StrictlySorted(e.nodes, Rank)
    && StrictlySorted(e.selfs, Rank)
    && StrictlySorted(e.rules, Rank)
    && StrictlySorted(e.classified, Rank)
  }

  /** The listings are in the orders of sort.Slice: subjects and classifications by cgroup, nodes by
      slot and address, own addresses by cgroup and address, rules by word, cgroup, prefix length
      and peer. */
  lemma ListingOrder(e: Encoded)
    requires Canonical(e)
    ensures forall i, j :: 0 <= i < j < |e.subjects| ==> e.subjects[i].0.cgroup < e.subjects[j].0.cgroup
    ensures forall i, j :: 0 <= i < j < |e.classified| ==> e.classified[i].cgroup < e.classified[j].cgroup
    ensures forall i, j :: 0 <= i < j < |e.nodes| ==>
              var k, l := e.nodes[i], e.nodes[j];
              k.slot < l.slot || (k.slot == l.slot && k.address < l.address)
    ensures forall i, j :: 0 <= i < j < |e.selfs| ==>
              var k, l := e.selfs[i], e.selfs[j];
              k.cgroup < l.cgroup || (k.cgroup == l.cgroup && k.address < l.address)
    ensures forall i, j :: 0 <= i < j < |e.rules| ==>
              var k, l := e.rules[i], e.rules[j];
              if k.meta != l.meta then k.meta < l.meta
              else if k.cgroup != l.cgroup then k.cgroup < l.cgroup
              else if k.prefixLength != l.prefixLength then k.prefixLength < l.prefixLength
              else k.peer < l.peer
  {
    assert forall i :: 0 <= i < |e.subjects| ==> e.subjects[i] in e.subjects;
    assert forall i :: 0 <= i < |e.classified| ==> e.classified[i] in e.classified;
    assert forall i :: 0 <= i < |e.nodes| ==> e.nodes[i] in e.nodes;
    assert forall i :: 0 <= i < |e.selfs| ==> e.selfs[i] in e.selfs;
    forall i, j | 0 <= i < j < |e.subjects|
      ensures e.subjects[i].0.cgroup < e.subjects[j].0.cgroup
    {
      assert RowRank(e.subjects[i]) < RowRank(e.subjects[j]);
    }
    forall i, j | 0 <= i < j < |e.rules|
      ensures e.rules[i].RuleKey? && e.rules[j].RuleKey? && Rank(e.rules[i]) < Rank(e.rules[j])
    {
      assert e.rules[i] in e.rules && e.rules[j] in e.rules;
    }
    hide StrictlySorted;
    forall i, j | 0 <= i < j < |e.rules|
      ensures var k, l := e.rules[i], e.rules[j];
              if k.meta != l.meta then k.meta < l.meta
              else if k.cgroup != l.cgroup then k.cgroup < l.cgroup
              else if k.prefixLength != l.prefixLength then k.prefixLength < l.prefixLength
              else k.peer < l.peer
    {
      RuleOrderIsRank(e.rules[i], e.rules[j]);
    }
  }

  ghost predicate IsEncoding(e: Encoded, slot: nat, p: PolicySet)
    requires slot < 2 && Valid(p)
  {
    Canonical(e) && forall row :: HasRow(e, row) <==> Installs(slot, p, row)
  }

  /** Equal encodings are equal map contents, whatever order and duplicates the sets came with. */
  lemma EncodingIsCanonical(e: Encoded, f: Encoded)
    requires Canonical(e) && Canonical(f)
    ensures e == f <==> forall row :: HasRow(e, row) <==> HasRow(f, row)
  {
    if forall row :: HasRow(e, row) <==> HasRow(f, row) {
      forall r
        ensures r in e.subjects <==> r in f.subjects
      {
        assert HasRow(e, r) <==> HasRow(f, r);
      }
      forall k: Key
        ensures k in e.nodes <==> k in f.nodes
        ensures k in e.selfs <==> k in f.selfs
        ensures k in e.rules <==> k in f.rules
        ensures k in e.classified <==> k in f.classified
      {
        assert HasRow(e, (k, Present)) <==> HasRow(f, (k, Present));
      }
      SortedListingIsUnique(e.subjects, f.subjects, RowRank);
      SortedListingIsUnique(e.nodes, f.nodes, Rank);
      SortedListingIsUnique(e.selfs, f.selfs, Rank);
      SortedListingIsUnique(e.rules, f.rules, Rank);
      SortedListingIsUnique(e.classified, f.classified, Rank);
    }
  }

  /** Sorting the keys of one map and one slot gives their canonical listing. */
  lemma KeysSortStrictly(xs: seq<Key>, s: set<Key>, slot: nat)
    requires forall x :: x in xs <==> x in s
    requires forall i, j :: 0 <= i < j < |xs| ==> xs[i] != xs[j]
    requires forall k :: k in s ==> SlotOf(k) == slot
    requires
      || (forall k :: k in s ==> k.NodeKey?) || (forall k :: k in s ==> k.SelfKey?)
      || (forall k :: k in s ==> k.RuleKey?) || (forall k :: k in s ==> k.ClassKey?)
    ensures StrictlySorted(SortBy(xs, Rank), Rank)
    ensures forall k :: k in SortBy(xs, Rank) <==> k in s
  {
    SortKeepsElements(xs, Rank);
    forall i, j | 0 <= i < j < |xs|
      ensures Rank(xs[i]) != Rank(xs[j])
    {
      assert xs[i] in s && xs[j] in s;
      RankSeparates(xs[i], xs[j], slot);
    }
    SortSorts(xs, Rank);
  }

  lemma RankSeparates(k: Key, l: Key, slot: nat)
    requires k != l && SlotOf(k) == slot && SlotOf(l) == slot
    requires (k.NodeKey? && l.NodeKey?) || (k.SelfKey? && l.SelfKey?) || (k.RuleKey? && l.RuleKey?)
             || (k.ClassKey? && l.ClassKey?)
    ensures Rank(k) != Rank(l)
  {
    if k.RuleKey? && Rank(k) == Rank(l) {
      var high, high' := k.meta * 0x1_0000_0000_0000_0000 + k.cgroup, l.meta * 0x1_0000_0000_0000_0000 + l.cgroup;
      SameDigits(high * 0x1_0000_0000 + k.prefixLength, k.peer, high' * 0x1_0000_0000 + l.prefixLength, l.peer);
      SameDigits(high, k.prefixLength, high', l.prefixLength);
      SameWideDigits(k.meta, k.cgroup, l.meta, l.cgroup);
    }
  }

  lemma SameDigits(a: nat, b: U32, c: nat, d: U32)
    requires a * 0x1_0000_0000 + b == c * 0x1_0000_0000 + d
    ensures a == c && b == d
  {
  }

  lemma SameWideDigits(a: nat, b: U64, c: nat, d: U64)
    requires a * 0x1_0000_0000_0000_0000 + b == c * 0x1_0000_0000_0000_0000 + d
    ensures a == c && b == d
  {
  }

  /** The canonical listing of the keys of one map that p installs in a slot. */
  ghost predicate ListsKeys(xs: seq<Key>, slot: nat, p: PolicySet, kind: Key -> bool)
    requires slot < 2 && Valid(p)
  {
    && StrictlySorted(xs, Rank)
    && forall k :: k in xs <==> kind(k) && Installs(slot, p, (k, Present))
  }

  method EncodeSubjects(slot: U32, p: PolicySet) returns (rows: seq<Row>)
    requires slot < 2 && Valid(p)
    ensures StrictlySorted(rows, RowRank)
    ensures forall r :: r in rows <==> r.0.SubjectKey? && Installs(slot, p, r)
  {
    rows := [];
    var i := 0;
    while i < |p.subjects|
      invariant i <= |p.subjects| && |rows| == i
      invariant forall j :: 0 <= j < i ==> rows[j] == SubjectRow(slot, p.subjects[j])
    {
      rows := rows + [SubjectRow(slot, p.subjects[i])];
      i := i + 1;
    }
    assert forall j :: 0 <= j < i ==> rows[j] in rows;
    SortKeepsElements(rows, RowRank);
    SortSorts(rows, RowRank);
    rows := SortBy(rows, RowRank);
  }

  lemma NoSelfs(slot: U32, subject: Subject)
    ensures forall k :: !SelfOf(k, slot, [subject.(podIPs := subject.podIPs[..0])])
  {
  }

  /** The inner loop: the addresses of one subject. */
  method AddSelfKeys(slot: U32, subject: Subject, seen: set<Key>) returns (seenSelf: set<Key>)
    requires ValidSubject(subject)
    ensures forall k :: k in seenSelf <==> k in seen || SelfOf(k, slot, [subject])
  {
    hide SelfOf;
    seenSelf := seen;
    NoSelfs(slot, subject);
    for j := 0 to |subject.podIPs|
      invariant forall k :: k in seenSelf <==> k in seen || SelfOf(k, slot, [subject.(podIPs := subject.podIPs[..j])])
    {
      SelfOneAddress(slot, subject, j);
      seenSelf := seenSelf + {SelfKey(subject.cgroup, slot, subject.podIPs[j].value)};
    }
    assert subject.(podIPs := subject.podIPs[..|subject.podIPs|]) == subject;
  }

  method EncodeSelfs(slot: U32, p: PolicySet) returns (keys: seq<Key>)
    requires slot < 2 && Valid(p)
    ensures ListsKeys(keys, slot, p, (k: Key) => k.SelfKey?)
  {
    var seenSelf: set<Key> := {};
    var i := 0;
    while i < |p.subjects|
      invariant i <= |p.subjects|
      invariant forall k :: k in seenSelf <==> SelfOf(k, slot, p.subjects[..i])
    {
      var subject := p.subjects[i];
      assert ValidSubject(subject);
      seenSelf := AddSelfKeys(slot, subject, seenSelf);
      SelfOneMore(slot, p.subjects, i);
      i := i + 1;
    }
    assert p.subjects[..i] == p.subjects;
    keys := Listing(seenSelf);
    KeysSortStrictly(keys, seenSelf, slot);
    keys := SortBy(keys, Rank);
  }

  method EncodeNodes(slot: U32, p: PolicySet) returns (keys: seq<Key>)
    requires slot < 2 && Valid(p)
    ensures ListsKeys(keys, slot, p, (k: Key) => k.NodeKey?)
  {
    var seenNodes: set<Key> := {};
    var i := 0;
    while i < |p.nodeIPs|
      invariant i <= |p.nodeIPs|
      invariant forall k :: k in seenNodes <==> k.NodeKey? && k.slot == slot && V4(k.address) in p.nodeIPs[..i]
    {
      assert p.nodeIPs[i] in p.nodeIPs;
      seenNodes := seenNodes + {NodeKey(slot, p.nodeIPs[i].value)};
      assert p.nodeIPs[..i + 1] == p.nodeIPs[..i] + [p.nodeIPs[i]];
      i := i + 1;
    }
    assert p.nodeIPs[..i] == p.nodeIPs;
    keys := Listing(seenNodes);
    KeysSortStrictly(keys, seenNodes, slot);
    keys := SortBy(keys, Rank);
  }

  /** The keys of the rules, without repetition. */
  method CollectRules(slot: U32, p: PolicySet) returns (seenRules: set<Key>)
    requires slot < 2 && Valid(p)
    ensures forall k :: k in seenRules <==> exists j :: 0 <= j < |p.rules| && k == RuleKeyOf(slot, p.rules[j])
  {
    seenRules := {};
    var i := 0;
    while i < |p.rules|
      invariant i <= |p.rules|
      invariant forall k :: k in seenRules <==> exists j :: 0 <= j < i && k == RuleKeyOf(slot, p.rules[j])
    {
      var key := EncodePolicyRuleKey(slot, p.rules[i]);
      assert ValidRule(p.rules[i]);
      seenRules := seenRules + {key.value};
      i := i + 1;
    }
  }

  lemma RuleKeysAreOfSlot(slot: U32, p: PolicySet, keys: set<Key>)
    requires slot < 2 && Valid(p)
    requires forall k :: k in keys ==> exists j :: 0 <= j < |p.rules| && k == RuleKeyOf(slot, p.rules[j])
    ensures forall k :: k in keys ==> k.RuleKey? && SlotOf(k) == slot
  {
    forall k | k in keys
      ensures k.RuleKey? && SlotOf(k) == slot
    {
      var j :| 0 <= j < |p.rules| && k == RuleKeyOf(slot, p.rules[j]);
      MetaUnpacks(slot, DirectionBit(p.rules[j].direction), p.rules[j].protocol, p.rules[j].port);
    }
  }

  method EncodeRules(slot: U32, p: PolicySet) returns (keys: seq<Key>)
    requires slot < 2 && Valid(p)
    ensures ListsKeys(keys, slot, p, (k: Key) => k.RuleKey?)
  {
    var seenRules := CollectRules(slot, p);
    RuleKeysAreOfSlot(slot, p, seenRules);
    keys := Listing(seenRules);
    KeysSortStrictly(keys, seenRules, slot);
    keys := SortBy(keys, Rank);
  }

  method EncodeClassified(slot: U32, p: PolicySet) returns (keys: seq<Key>)
    requires slot < 2 && Valid(p)
    ensures ListsKeys(keys, slot, p, (k: Key) => k.ClassKey?)
  {
    keys := [];
    var i := 0;
    while i < |p.classified|
      invariant i <= |p.classified| && |keys| == i
      invariant forall j :: 0 <= j < i ==> keys[j] == ClassKey(p.classified[j], slot)
    {
      keys := keys + [ClassKey(p.classified[i], slot)];
      i := i + 1;
    }
    assert forall j :: 0 <= j < i ==> keys[j] in keys;
    KeysSortStrictly(keys, (set k | k in keys), slot);
    keys := SortBy(keys, Rank);
  }

  method EncodePolicySet(slot: nat, p: PolicySet) returns (r: Option<Encoded>)
    ensures r.None? <==> slot > 1 || !Valid(p)
    ensures r.Some? ==> IsEncoding(r.value, slot, p)
  {
    if slot > 1 {
      return None;
    }
    if !Valid(p) {
      return None;
    }
    var subjects := EncodeSubjects(slot, p);
    var classified := EncodeClassified(slot, p);
    var selfs := EncodeSelfs(slot, p);
    var nodes := EncodeNodes(slot, p);
    var rules := EncodeRules(slot, p);
    return Some(Encoded(subjects, nodes, selfs, rules, classified));
  }

  ghost predicate SelfOf(k: Key, slot: nat, subjects: seq<Subject>) {
    && k.SelfKey? && k.slot == slot
    && exists i :: 0 <= i < |subjects| && subjects[i].cgroup == k.cgroup && V4(k.address) in subjects[i].podIPs
  }

  lemma SelfOneAddress(slot: U32, s: Subject, j: nat)
    requires j < |s.podIPs| && ValidSubject(s)
    ensures s.podIPs[j].V4?
    ensures forall k :: SelfOf(k, slot, [s.(podIPs := s.podIPs[..j + 1])]) <==>
              SelfOf(k, slot, [s.(podIPs := s.podIPs[..j])]) || k == SelfKey(s.cgroup, slot, s.podIPs[j].value)
  {
    assert s.podIPs[j] in s.podIPs;
    assert s.podIPs[..j + 1] == s.podIPs[..j] + [s.podIPs[j]];
    SelfOfOne(slot, s.(podIPs := s.podIPs[..j]));
    SelfOfOne(slot, s.(podIPs := s.podIPs[..j + 1]));
  }

  lemma SelfOfOne(slot: nat, s: Subject)
    ensures forall k :: SelfOf(k, slot, [s]) <==>
              k.SelfKey? && k.slot == slot && k.cgroup == s.cgroup && V4(k.address) in s.podIPs
  {
    assert [s][0] == s;
  }

  lemma SelfOneMore(slot: nat, subjects: seq<Subject>, i: nat)
    requires i < |subjects|
    ensures forall k :: SelfOf(k, slot, subjects[..i + 1]) <==>
            SelfOf(k, slot, subjects[..i]) || SelfOf(k, slot, [subjects[i]])
  {
    assert subjects[..i + 1] == subjects[..i] + [subjects[i]];
    assert [subjects[i]][0] == subjects[i];
  }
}
