/**
 Recovery: a restarted agent reads the surviving kernel state back into a policy
 set, links and a configuration. It accepts every state a crash can leave, and
 finds exactly what was committed.
*/
module Recovery {
  import opened Cidr
  import opened Ordering
  import opened PolicySets
  import opened Options
  import opened EngineKeys
  import opened SlotProtocol
  import opened SlotVerdict
  import opened SlotShift
  import opened DurableKernel
  import opened Environment
  import opened EngineStore
  import opened EngineCore
  import opened AgentHistory

  // ----- how many rows a set can have installed -----

  function RuleKeys(slot: nat, p: PolicySet): (ks: seq<Key>)
    requires slot < 2 && Valid(p)
    ensures |ks| == |p.rules| && forall i :: 0 <= i < |ks| ==> ks[i] == RuleKeyOf(slot, p.rules[i])
  {
    seq(|p.rules|, i requires 0 <= i < |p.rules| => RuleKeyOf(slot, p.rules[i]))
  }

  function NodeKeys(slot: U32, xs: seq<Addr>): (ks: seq<Key>)
    requires forall a :: a in xs ==> a.V4?
    ensures |ks| == |xs| && forall i :: 0 <= i < |ks| ==> ks[i] == NodeKey(slot, xs[i].value)
  {
    seq(|xs|, i requires 0 <= i < |xs| => NodeKey(slot, xs[i].value))
  }

  function SelfKeys(slot: U32, subjects: seq<Subject>): (ks: seq<Key>)
    requires forall i :: 0 <= i < |subjects| ==> ValidSubject(subjects[i])
    ensures |ks| == PodIPCount(subjects)
  {
    if subjects == [] then []
    else
      var s := subjects[0];
      assert ValidSubject(s);
      seq(|s.podIPs|, j requires 0 <= j < |s.podIPs| => SelfKey(s.cgroup, slot, s.podIPs[j].value)) +
          SelfKeys(slot, subjects[1..])
  }

  lemma {:induction false} InSelfKeys(slot: U32, subjects: seq<Subject>, i: nat, a: U32)
    requires forall k :: 0 <= k < |subjects| ==> ValidSubject(subjects[k])
    requires i < |subjects| && V4(a) in subjects[i].podIPs
    ensures SelfKey(subjects[i].cgroup, slot, a) in SelfKeys(slot, subjects)
  {
    if i == 0 {
      var s := subjects[0];
      var j :| 0 <= j < |s.podIPs| && s.podIPs[j] == V4(a);
      assert SelfKeys(slot, subjects)[j] == SelfKey(s.cgroup, slot, a);
    } else {
      InSelfKeys(slot, subjects[1..], i - 1, a);
    }
  }

  lemma ListBounds(keys: set<Key>, list: seq<Key>)
    requires forall k :: k in keys ==> k in list
    ensures |keys| <= |list|
  {
    SubsetSize(keys, Elements(list));
    FewElements(list);
  }

  /** The keys of one map and slot. */
  ghost predicate HoldsImage(maps: Maps, slot: nat, p: PolicySet) {
    slot < 2 && Valid(p) && IsImage(RowsOf(maps, slot), slot, p)
  }

  lemma KeyInstalled(maps: Maps, slot: nat, p: PolicySet, k: Key)
    requires HoldsImage(maps, slot, p) && k in maps && SlotOf(k) == slot
    ensures Installs(slot, p, (k, maps[k]))
  {
    assert (k, maps[k]) in RowsOf(maps, slot);
  }

  lemma FewRules(maps: Maps, slot: nat, p: PolicySet)
    requires HoldsImage(maps, slot, p)
    ensures |KeysOfKind(maps, slot, Rules)| <= |p.rules|
  {
    forall k | k in KeysOfKind(maps, slot, Rules)
      ensures k in RuleKeys(slot, p)
    {
      KeyInstalled(maps, slot, p, k);
      var i :| 0 <= i < |p.rules| && k == RuleKeyOf(slot, p.rules[i]);
      assert RuleKeys(slot, p)[i] == k;
    }
    ListBounds(KeysOfKind(maps, slot, Rules), RuleKeys(slot, p));
  }

  lemma FewNodes(maps: Maps, slot: nat, p: PolicySet)
    requires HoldsImage(maps, slot, p)
    ensures |KeysOfKind(maps, slot, Nodes)| <= |p.nodeIPs|
  {
    forall k | k in KeysOfKind(maps, slot, Nodes)
      ensures k in NodeKeys(slot, p.nodeIPs)
    {
      KeyInstalled(maps, slot, p, k);
      var i :| 0 <= i < |p.nodeIPs| && p.nodeIPs[i] == V4(k.address);
      assert NodeKeys(slot, p.nodeIPs)[i] == k;
    }
    ListBounds(KeysOfKind(maps, slot, Nodes), NodeKeys(slot, p.nodeIPs));
  }

  lemma FewSelfs(maps: Maps, slot: nat, p: PolicySet)
    requires HoldsImage(maps, slot, p)
    ensures |KeysOfKind(maps, slot, Selfs)| <= PodIPCount(p.subjects)
  {
    forall k | k in KeysOfKind(maps, slot, Selfs)
      ensures k in SelfKeys(slot, p.subjects)
    {
      KeyInstalled(maps, slot, p, k);
      var i :| 0 <= i < |p.subjects| && p.subjects[i].cgroup == k.cgroup && V4(k.address) in p.subjects[i].podIPs;
      InSelfKeys(slot, p.subjects, i, k.address);
    }
    ListBounds(KeysOfKind(maps, slot, Selfs), SelfKeys(slot, p.subjects));
  }

  function SubjectKeys(slot: U32, subjects: seq<Subject>): (ks: seq<Key>)
    ensures |ks| == |subjects| && forall i :: 0 <= i < |ks| ==> ks[i] == SubjectKey(subjects[i].cgroup, slot)
  {
    seq(|subjects|, i requires 0 <= i < |subjects| => SubjectKey(subjects[i].cgroup, slot))
  }

  lemma FewSubjects(maps: Maps, slot: nat, p: PolicySet)
    requires HoldsImage(maps, slot, p)
    ensures |KeysOfKind(maps, slot, Subjects)| <= |p.subjects|
  {
    forall k | k in KeysOfKind(maps, slot, Subjects)
      ensures k in SubjectKeys(slot, p.subjects)
    {
      KeyInstalled(maps, slot, p, k);
      var i :| 0 <= i < |p.subjects| && (k, maps[k]) == SubjectRow(slot, p.subjects[i]);
      assert SubjectKeys(slot, p.subjects)[i] == k;
    }
    ListBounds(KeysOfKind(maps, slot, Subjects), SubjectKeys(slot, p.subjects));
  }

  function ClassKeys(slot: U32, cs: seq<Cgroup>): (ks: seq<Key>)
    ensures |ks| == |cs| && forall i :: 0 <= i < |ks| ==> ks[i] == ClassKey(cs[i], slot)
  {
    seq(|cs|, i requires 0 <= i < |cs| => ClassKey(cs[i], slot))
  }

  lemma FewClasses(maps: Maps, slot: nat, p: PolicySet)
    requires HoldsImage(maps, slot, p)
    ensures |KeysOfKind(maps, slot, Classes)| <= |p.classified|
  {
    forall k | k in KeysOfKind(maps, slot, Classes)
      ensures k in ClassKeys(slot, p.classified)
    {
      KeyInstalled(maps, slot, p, k);
      var i :| 0 <= i < |p.classified| && p.classified[i] == k.cgroup;
      assert ClassKeys(slot, p.classified)[i] == k;
    }
    ListBounds(KeysOfKind(maps, slot, Classes), ClassKeys(slot, p.classified));
  }

  // ----- decoding single entries -----

  const NO_RULE := Rule(0, NO_DIRECTION, Prefix(NoAddr, 0), 0, 0)

  function RuleFromKey(k: Key): Rule {
    if !k.RuleKey? || k.prefixLength < 96 then NO_RULE else
    var direction := if (k.meta / DIRECTION_BIT) % 2 == 1 then INGRESS else EGRESS;
    Rule(k.cgroup, direction, Prefix(V4(k.peer), k.prefixLength - 96), (k.meta / 0x1_0000) % 0x100, k.meta % 0x1_0000)
  }

  /** A rule key decodes to a rule that encodes to the same key. */
  lemma RuleRoundTrip(slot: nat, r: Rule)
    requires slot < 2 && ValidRule(r)
    ensures var d := RuleFromKey(RuleKeyOf(slot, r));
            ValidRule(d) && RuleKeyOf(slot, d) == RuleKeyOf(slot, r) && d.cgroup == r.cgroup
  {
    var k, e := RuleKeyOf(slot, r), 32 - r.peer.bits;
    MetaUnpacks(slot, DirectionBit(r.direction), r.protocol, r.port);
    FloorIsAligned(r.peer.addr.value, e);
    FloorOfAligned(Floor(r.peer.addr.value, e), e);
  }

  // ----- decoding a slot -----

  /** The subjects, without addresses, are those of the slot. */
  ghost predicate SubjectsDecoded(maps: Maps, slot: nat, subjects: seq<Subject>)
    requires slot < 2
  {
    && (forall i :: 0 <= i < |subjects| ==>
          && SubjectKey(subjects[i].cgroup, slot) in maps
          && maps[SubjectKey(subjects[i].cgroup, slot)] == Value.State(subjects[i].isolated, subjects[i].quarantined))
    && (forall i, j :: 0 <= i < j < |subjects| ==> subjects[i].cgroup != subjects[j].cgroup)
    && (forall c :: SubjectKey(c, slot) in maps ==> exists i :: 0 <= i < |subjects| && subjects[i].cgroup == c)
    && |subjects| == |KeysOfKind(maps, slot, Subjects)|
  }

  /** The addresses of the subjects are those of the given self keys. */
  ghost predicate AddressesDecoded(keys: set<Key>, slot: nat, subjects: seq<Subject>)
    requires slot < 2
  {
    && (forall i, a :: 0 <= i < |subjects| && a in subjects[i].podIPs ==> a.V4?)
    && (forall i, a: U32 :: 0 <= i < |subjects| ==>
         (V4(a) in subjects[i].podIPs <==> SelfKey(subjects[i].cgroup, slot, a) in keys))
    && PodIPCount(subjects) == |keys|
  }

  ghost predicate NodesDecoded(maps: Maps, slot: nat, nodeIPs: seq<Addr>)
    requires slot < 2
  {
    && (forall a :: a in nodeIPs ==> a.V4?)
    && (forall a: U32 :: V4(a) in nodeIPs <==> NodeKey(slot, a) in maps)
    && |nodeIPs| == |KeysOfKind(maps, slot, Nodes)|
  }

  ghost predicate RulesDecoded(maps: Maps, slot: nat, rules: seq<Rule>) {
    && OnlyValues(KeysOfKind(maps, slot, Rules), RuleFromKey, rules)
    && AllValues(KeysOfKind(maps, slot, Rules), RuleFromKey, rules)
    && |rules| == |KeysOfKind(maps, slot, Rules)|
  }

  ghost predicate ClassesDecoded(maps: Maps, slot: nat, classified: seq<Cgroup>)
    requires slot < 2
  {
    && (forall c :: c in classified <==> ClassKey(c, slot) in maps)
    && (forall i, j :: 0 <= i < j < |classified| ==> classified[i] != classified[j])
    && |classified| == |KeysOfKind(maps, slot, Classes)|
  }

  ghost predicate Decoded(maps: Maps, slot: nat, d: PolicySet)
    requires slot < 2
  {
    && SubjectsDecoded(maps, slot, d.subjects)
    && AddressesDecoded(KeysOfKind(maps, slot, Selfs), slot, d.subjects)
    && NodesDecoded(maps, slot, d.nodeIPs)
    && RulesDecoded(maps, slot, d.rules)
    && ClassesDecoded(maps, slot, d.classified)
  }

  /** Map by map: a slot there is, masks for subjects and marks for everything else, no zero cgroup
      among the classifications, and rule keys with a possible prefix length and their six unused
      bits zero. */
  ghost predicate WellFormed(maps: Maps) {
    && (forall c, s :: SubjectKey(c, s) in maps ==> s in {0, 1} && maps[SubjectKey(c, s)].State?)
    && (forall c, s :: ClassKey(c, s) in maps ==> s in {0, 1} && c > 0 && maps[ClassKey(c, s)] == Present)
    && (forall s, a :: NodeKey(s, a) in maps ==> s in {0, 1} && maps[NodeKey(s, a)] == Present)
    && (forall c, s, a :: SelfKey(c, s, a) in maps ==> s in {0, 1} && maps[SelfKey(c, s, a)] == Present)
    && (forall len, m, c, a :: RuleKey(len, m, c, a) in maps ==>
          && 96 <= len <= 128 && maps[RuleKey(len, m, c, a)] == Present
          && (m % 0x4000_0000) / 0x100_0000 == 0)
  }

  lemma ShapedMeans(maps: Maps)
    ensures Shaped(maps) <==> WellFormed(maps)
  {
    assert forall m: U32 :: (m / 0x100_0000) % 0x40 == (m % 0x4000_0000) / 0x100_0000;
  }

  /** Every iteration of the maps checks the shape of every entry, whichever slot it is in. */
  method CheckShapes(maps: Maps) returns (ok: bool)
    ensures ok <==> Shaped(maps)
    ensures ok <==> WellFormed(maps)
  {
    ShapedMeans(maps);
    var keys := Listing(maps.Keys);
    for i := 0 to |keys|
      invariant forall j :: 0 <= j < i ==> keys[j] in maps && ShapeOk(keys[j], maps[keys[j]])
    {
      assert keys[i] in maps.Keys;
      if !ShapeOk(keys[i], maps[keys[i]]) {
        return false;
      }
    }
    forall k | k in maps
      ensures ShapeOk(k, maps[k])
    {
      assert k in keys;
    }
    return true;
  }

  method DecodeSubjects(maps: Maps, slot: U32) returns (subjects: seq<Subject>)
    requires slot < 2 && Shaped(maps)
    ensures SubjectsDecoded(maps, slot, subjects)
    ensures forall i :: 0 <= i < |subjects| ==> subjects[i].podIPs == []
  {
    hide SubjectsDecoded;
    var keys := Listing(KeysOfKind(maps, slot, Subjects));
    subjects := [];
    for i := 0 to |keys|
      invariant |subjects| == i
      invariant forall j :: 0 <= j < i ==> keys[j] in KeysOfKind(maps, slot, Subjects)
      invariant forall j :: 0 <= j < i ==>
                  subjects[j] == Subject(keys[j].cgroup, maps[keys[j]].isolated, maps[keys[j]].quarantined, [])
    {
      assert keys[i] in KeysOfKind(maps, slot, Subjects);
      var v := maps[keys[i]];
      subjects := subjects + [Subject(keys[i].cgroup, v.isolated, v.quarantined, [])];
    }
    ListedSubjects(maps, slot, keys, subjects);
  }

  lemma ListedSubjects(maps: Maps, slot: U32, keys: seq<Key>, subjects: seq<Subject>)
    requires slot < 2 && Shaped(maps)
    requires forall k :: k in keys <==> k in KeysOfKind(maps, slot, Subjects)
    requires forall i, j :: 0 <= i < j < |keys| ==> keys[i] != keys[j]
    requires |keys| == |KeysOfKind(maps, slot, Subjects)| == |subjects|
    requires forall j :: 0 <= j < |keys| ==> keys[j] in KeysOfKind(maps, slot, Subjects)
    requires forall j :: 0 <= j < |keys| ==>
               subjects[j] == Subject(keys[j].cgroup, maps[keys[j]].isolated, maps[keys[j]].quarantined, [])
    ensures SubjectsDecoded(maps, slot, subjects)
  {
    forall i | 0 <= i < |subjects|
      ensures keys[i] == SubjectKey(subjects[i].cgroup, slot)
    {
    }
    forall c | SubjectKey(c, slot) in maps
      ensures exists i :: 0 <= i < |subjects| && subjects[i].cgroup == c
    {
      assert SubjectKey(c, slot) in KeysOfKind(maps, slot, Subjects);
      var i :| 0 <= i < |keys| && keys[i] == SubjectKey(c, slot);
      assert subjects[i].cgroup == c;
    }
  }

  lemma {:induction false} PodIPCountBumped(subjects: seq<Subject>, i: nat, a: Addr)
    requires i < |subjects|
    ensures PodIPCount(subjects[i := subjects[i].(podIPs := subjects[i].podIPs + [a])]) == PodIPCount(subjects) + 1
  {
    var more := subjects[i := subjects[i].(podIPs := subjects[i].podIPs + [a])];
    if i > 0 {
      PodIPCountBumped(subjects[1..], i - 1, a);
      assert more[1..] == subjects[1..][i - 1 := subjects[1..][i - 1].(podIPs := subjects[1..][i - 1].podIPs + [a])];
    } else {
      assert more[1..] == subjects[1..];
    }
  }

  lemma {:induction false} NoAddresses(subjects: seq<Subject>)
    requires forall i :: 0 <= i < |subjects| ==> subjects[i].podIPs == []
    ensures PodIPCount(subjects) == 0
  {
    if subjects != [] {
      NoAddresses(subjects[1..]);
    }
  }

  function Named(subjects: seq<Subject>, i: nat, a: U32): seq<Subject>
    requires i < |subjects|
  {
    subjects[i := subjects[i].(podIPs := subjects[i].podIPs + [V4(a)])]
  }

  lemma OneAddressMore(done: set<Key>, slot: U32, subjects: seq<Subject>, i: nat, a: U32)
    requires slot < 2 && AddressesDecoded(done, slot, subjects) && i < |subjects|
    requires forall j :: 0 <= j < |subjects| && j != i ==> subjects[j].cgroup != subjects[i].cgroup
    requires SelfKey(subjects[i].cgroup, slot, a) !in done
    ensures AddressesDecoded(done + {SelfKey(subjects[i].cgroup, slot, a)}, slot, Named(subjects, i, a))
  {
    PodIPCountBumped(subjects, i, V4(a));
    var more := Named(subjects, i, a);
    forall j, b: U32 | 0 <= j < |more|
      ensures V4(b) in more[j].podIPs <==>
              SelfKey(more[j].cgroup, slot, b) in done + {SelfKey(subjects[i].cgroup, slot, a)}
    {
      assert more[j].cgroup == subjects[j].cgroup;
    }
  }

  lemma NamedStaysDecoded(maps: Maps, slot: U32, subjects: seq<Subject>, i: nat, a: U32)
    requires slot < 2 && SubjectsDecoded(maps, slot, subjects) && i < |subjects|
    ensures SubjectsDecoded(maps, slot, Named(subjects, i, a))
  {
    var more := Named(subjects, i, a);
    assert forall j :: 0 <= j < |subjects| ==> more[j].(podIPs := []) == subjects[j].(podIPs := []);
    forall c | SubjectKey(c, slot) in maps
      ensures exists j :: 0 <= j < |more| && more[j].cgroup == c
    {
      var j :| 0 <= j < |subjects| && subjects[j].cgroup == c;
      assert more[j].cgroup == c;
    }
  }

  /** One self key goes to its subject; None: it has none. */
  method DecodeSelf(maps: Maps, slot: U32, subjects: seq<Subject>, k: Key, ghost done: set<Key>)
    returns (r: Option<seq<Subject>>)
    requires slot < 2 && SubjectsDecoded(maps, slot, subjects) && AddressesDecoded(done, slot, subjects)
    requires k.SelfKey? && k.slot == slot && k !in done
    ensures r.None? ==> SubjectKey(k.cgroup, slot) !in maps
    ensures r.Some? ==> SubjectsDecoded(maps, slot, r.value) && AddressesDecoded(done + {k}, slot, r.value)
  {
    var i := 0;
    while i < |subjects| && subjects[i].cgroup != k.cgroup
      invariant i <= |subjects| && forall j :: 0 <= j < i ==> subjects[j].cgroup != k.cgroup
    {
      i := i + 1;
    }
    if i == |subjects| {
      return None;
    }
    assert SelfKey(subjects[i].cgroup, slot, k.address) == k;
    OneAddressMore(done, slot, subjects, i, k.address);
    NamedStaysDecoded(maps, slot, subjects, i, k.address);
    return Some(Named(subjects, i, k.address));
  }

  method DecodeSelfs(maps: Maps, slot: U32, bare: seq<Subject>) returns (r: Option<seq<Subject>>)
    requires slot < 2 && SubjectsDecoded(maps, slot, bare) && forall i :: 0 <= i < |bare| ==> bare[i].podIPs == []
    ensures r.None? ==> exists k :: k in KeysOfKind(maps, slot, Selfs) && SubjectKey(k.cgroup, slot) !in maps
    ensures r.Some? ==>
            SubjectsDecoded(maps, slot, r.value) && AddressesDecoded(KeysOfKind(maps, slot, Selfs), slot, r.value)
  {
    var subjects := bare;
    var rest := KeysOfKind(maps, slot, Selfs);
    ghost var done: set<Key> := {};
    NoAddresses(bare);
    while rest != {}
      invariant done !! rest && done + rest == KeysOfKind(maps, slot, Selfs)
      invariant SubjectsDecoded(maps, slot, subjects) && AddressesDecoded(done, slot, subjects)
      decreases rest
    {
      var k :| k in rest;
      var more := DecodeSelf(maps, slot, subjects, k, done);
      if more.None? {
        return None;
      }
      rest := rest - {k};
      subjects := more.value;
      done := done + {k};
    }
    assert done == KeysOfKind(maps, slot, Selfs);
    return Some(subjects);
  }

  method DecodeNodes(maps: Maps, slot: U32) returns (nodeIPs: seq<Addr>)
    requires slot < 2
    ensures NodesDecoded(maps, slot, nodeIPs)
  {
    var keys := Listing(KeysOfKind(maps, slot, Nodes));
    nodeIPs := [];
    for i := 0 to |keys|
      invariant |nodeIPs| == i
      invariant forall j :: 0 <= j < i ==> keys[j].NodeKey? && nodeIPs[j] == V4(keys[j].address)
    {
      assert keys[i] in KeysOfKind(maps, slot, Nodes);
      nodeIPs := nodeIPs + [V4(keys[i].address)];
    }
    forall a: U32
      ensures V4(a) in nodeIPs <==> NodeKey(slot, a) in maps
    {
      if NodeKey(slot, a) in maps {
        assert NodeKey(slot, a) in KeysOfKind(maps, slot, Nodes);
        var i :| 0 <= i < |keys| && keys[i] == NodeKey(slot, a);
        assert nodeIPs[i] == V4(a);
      }
      if V4(a) in nodeIPs {
        var i :| 0 <= i < |nodeIPs| && nodeIPs[i] == V4(a);
        assert keys[i] in KeysOfKind(maps, slot, Nodes);
        assert keys[i] == NodeKey(slot, a);
      }
    }
  }

  method DecodeRules(maps: Maps, slot: U32) returns (rules: seq<Rule>)
    ensures RulesDecoded(maps, slot, rules)
  {
    rules := ImageListing(KeysOfKind(maps, slot, Rules), RuleFromKey);
  }

  method DecodeClasses(maps: Maps, slot: U32) returns (classified: seq<Cgroup>)
    requires slot < 2
    ensures ClassesDecoded(maps, slot, classified)
  {
    var keys := Listing(KeysOfKind(maps, slot, Classes));
    classified := [];
    for i := 0 to |keys|
      invariant |classified| == i
      invariant forall j :: 0 <= j < i ==> keys[j] == ClassKey(classified[j], slot)
    {
      assert keys[i] in KeysOfKind(maps, slot, Classes);
      classified := classified + [keys[i].cgroup];
    }
    forall c
      ensures c in classified <==> ClassKey(c, slot) in maps
    {
      if ClassKey(c, slot) in maps {
        assert ClassKey(c, slot) in KeysOfKind(maps, slot, Classes);
        var i :| 0 <= i < |keys| && keys[i] == ClassKey(c, slot);
        assert classified[i] == c;
      }
      if c in classified {
        var i :| 0 <= i < |classified| && classified[i] == c;
        assert keys[i] in KeysOfKind(maps, slot, Classes);
      }
    }
  }

  // ----- the decoded set is the committed one -----

  /** The rule encodes to the key, and its cgroup is a subject. */
  ghost predicate Restores(slot: nat, p: PolicySet, k: Key, r: Rule) {
    slot < 2 && ValidRule(r) && RuleKeyOf(slot, r) == k && HasSubject(p, r.cgroup)
  }

  lemma RuleDecodes(maps: Maps, slot: nat, p: PolicySet, k: Key)
    requires HoldsImage(maps, slot, p) && k in KeysOfKind(maps, slot, Rules)
    ensures Restores(slot, p, k, RuleFromKey(k))
  {
    KeyInstalled(maps, slot, p, k);
    var i :| 0 <= i < |p.rules| && k == RuleKeyOf(slot, p.rules[i]);
    RuleRoundTrip(slot, p.rules[i]);
  }

  /** The key a decoded rule comes from. */
  lemma RuleSource(maps: Maps, slot: nat, p: PolicySet, rules: seq<Rule>, i: nat) returns (k: Key)
    requires HoldsImage(maps, slot, p) && OnlyValues(KeysOfKind(maps, slot, Rules), RuleFromKey, rules) && i < |rules|
    ensures k in KeysOfKind(maps, slot, Rules) && Restores(slot, p, k, rules[i])
  {
    k := ValueSource(KeysOfKind(maps, slot, Rules), RuleFromKey, rules, i);
    RuleDecodes(maps, slot, p, k);
  }

  /** The decoded rule of a key. */
  lemma RuleTarget(maps: Maps, slot: nat, p: PolicySet, rules: seq<Rule>, k: Key) returns (i: nat)
    requires HoldsImage(maps, slot, p) && AllValues(KeysOfKind(maps, slot, Rules), RuleFromKey, rules)
    requires k in KeysOfKind(maps, slot, Rules)
    ensures i < |rules| && Restores(slot, p, k, rules[i])
  {
    RuleDecodes(maps, slot, p, k);
    i :| 0 <= i < |rules| && rules[i] == RuleFromKey(k);
  }

  lemma DecodedSubjects(maps: Maps, slot: nat, p: PolicySet, d: PolicySet)
    requires HoldsImage(maps, slot, p) && SubjectsDecoded(maps, slot, d.subjects)
    requires AddressesDecoded(KeysOfKind(maps, slot, Selfs), slot, d.subjects)
    ensures forall i :: 0 <= i < |d.subjects| ==> ValidSubject(d.subjects[i])
    ensures forall c :: HasSubject(p, c) ==> HasSubject(d, c)
  {
    forall i | 0 <= i < |d.subjects|
      ensures ValidSubject(d.subjects[i])
    {
      var k := SubjectKey(d.subjects[i].cgroup, slot);
      KeyInstalled(maps, slot, p, k);
    }
    forall c | HasSubject(p, c)
      ensures HasSubject(d, c)
    {
      var i :| 0 <= i < |p.subjects| && p.subjects[i].cgroup == c;
      var row := SubjectRow(slot, p.subjects[i]);
      assert Installs(slot, p, row);
      assert row in RowsOf(maps, slot);
    }
  }

  lemma DecodedCounts(maps: Maps, slot: nat, p: PolicySet, d: PolicySet)
    requires HoldsImage(maps, slot, p) && Shaped(maps) && Decoded(maps, slot, d)
    ensures |d.subjects| <= MAX_SUBJECTS && |d.classified| <= MAX_SUBJECTS && RuleEntryCount(d) <= MAX_RULES
  {
    FewRules(maps, slot, p);
    FewNodes(maps, slot, p);
    FewSelfs(maps, slot, p);
    FewSubjects(maps, slot, p);
    FewClasses(maps, slot, p);
  }

  lemma DecodedLists(maps: Maps, slot: nat, p: PolicySet, d: PolicySet)
    requires HoldsImage(maps, slot, p) && Shaped(maps) && Decoded(maps, slot, d)
    ensures d.nodeIPs != []
    ensures forall i :: 0 <= i < |d.classified| ==> d.classified[i] != 0
  {
    assert p.nodeIPs[0] in p.nodeIPs;
    var row: Row := (NodeKey(slot, p.nodeIPs[0].value), Present);
    assert Installs(slot, p, row);
    assert row in RowsOf(maps, slot);
    assert V4(p.nodeIPs[0].value) in d.nodeIPs;
    forall i | 0 <= i < |d.classified|
      ensures d.classified[i] != 0
    {
      assert d.classified[i] in d.classified;
      assert ShapeOk(ClassKey(d.classified[i], slot), maps[ClassKey(d.classified[i], slot)]);
    }
  }

  lemma DecodedIsValid(maps: Maps, slot: nat, p: PolicySet, d: PolicySet)
    requires HoldsImage(maps, slot, p) && Shaped(maps) && Decoded(maps, slot, d)
    ensures Valid(d)
  {
    DecodedSubjects(maps, slot, p, d);
    forall i | 0 <= i < |d.rules|
      ensures ValidRule(d.rules[i]) && HasSubject(d, d.rules[i].cgroup)
    {
      var k := RuleSource(maps, slot, p, d.rules, i);
    }
    DecodedCounts(maps, slot, p, d);
    DecodedLists(maps, slot, p, d);
  }

  /** Encoding, storing as unordered map entries, and decoding gives a set that installs the
      same rows. */
  lemma DecodedIsImage(maps: Maps, slot: nat, p: PolicySet, d: PolicySet)
    requires HoldsImage(maps, slot, p) && Shaped(maps) && Decoded(maps, slot, d)
    ensures Valid(d) && IsImage(RowsOf(maps, slot), slot, d)
  {
    DecodedIsValid(maps, slot, p, d);
    forall row
      ensures row in RowsOf(maps, slot) <==> Installs(slot, d, row)
    {
      if row in RowsOf(maps, slot) {
        StoredIsInstalled(maps, slot, p, d, row);
      }
      if Installs(slot, d, row) {
        InstalledIsStored(maps, slot, p, d, row);
      }
    }
  }

  lemma StoredIsInstalled(maps: Maps, slot: nat, p: PolicySet, d: PolicySet, row: Row)
    requires HoldsImage(maps, slot, p) && Shaped(maps) && Decoded(maps, slot, d) && Valid(d)
    requires row in RowsOf(maps, slot)
    ensures Installs(slot, d, row)
  {
    var k := row.0;
    assert k in maps && SlotOf(k) == slot && row.1 == maps[k] && ShapeOk(k, maps[k]);
    match k
    case SubjectKey(c, _) =>
      var i :| 0 <= i < |d.subjects| && d.subjects[i].cgroup == c;
    case SelfKey(c, _, a) =>
      KeyInstalled(maps, slot, p, k);
      var i :| 0 <= i < |p.subjects| && p.subjects[i].cgroup == c;
      DecodedSubjects(maps, slot, p, d);
      assert HasSubject(p, c);
      var j :| 0 <= j < |d.subjects| && d.subjects[j].cgroup == c;
      assert k in KeysOfKind(maps, slot, Selfs);
      assert V4(a) in d.subjects[j].podIPs;
    case RuleKey(_, _, _, _) =>
      assert k in KeysOfKind(maps, slot, Rules);
      var i := RuleTarget(maps, slot, p, d.rules, k);
    case _ =>
  }

  lemma InstalledIsStored(maps: Maps, slot: nat, p: PolicySet, d: PolicySet, row: Row)
    requires HoldsImage(maps, slot, p) && Shaped(maps) && Decoded(maps, slot, d) && Valid(d)
    requires Installs(slot, d, row)
    ensures row in RowsOf(maps, slot)
  {
    RuleRowSlot(slot, d, row);
    var k := row.0;
    match k
    case SelfKey(c, _, a) =>
      var i :| 0 <= i < |d.subjects| && d.subjects[i].cgroup == c && V4(a) in d.subjects[i].podIPs;
      assert SelfKey(d.subjects[i].cgroup, slot, a) in KeysOfKind(maps, slot, Selfs);
    case RuleKey(_, _, _, _) =>
      var i :| 0 <= i < |d.rules| && k == RuleKeyOf(slot, d.rules[i]);
      var l := RuleSource(maps, slot, p, d.rules, i);
    case _ =>
    assert k in maps && ShapeOk(k, maps[k]) && row.1 == maps[k];
  }

  // ----- recovery of the whole state -----

  /** recoverActiveConfig: the pointed record must name its own slot. */
  method RecoverActiveConfig(k: Kernel) returns (r: Option<Config>)
    ensures r.Some? <==> ConfigOk(k)
    ensures r.Some? ==> r.value == Config(k.pointer, k.Epoch())
  {
    var config := k.records.At(k.pointer);
    if config.slot != k.pointer {
      return None;
    }
    return Some(config);
  }

  /** What recovery reads out of the slots. */
  datatype Recovered = Recovered(config: Config, encoded: Encoded, decoded: PolicySet, populated: Pair<bool>)

  const NO_POLICY := PolicySet([], [], [], [])
  const NO_ENCODING := Encoded([], [], [], [], [])

  ghost predicate Restored(k: Kernel, r: Recovered) {
    && r.config == Config(k.pointer, k.Epoch())
    && CountsOk(r.populated, k.maps)
    && (k.Epoch() > 0 ==>
         Valid(r.decoded) && IsEncoding(r.encoded, 0, r.decoded)
             && IsImage(RowsOf(k.maps, k.pointer), k.pointer, r.decoded))
    && (k.Epoch() == 0 ==> r.decoded == NO_POLICY)
  }

  lemma SelfsHaveSubjects(maps: Maps, slot: nat, p: PolicySet)
    requires HoldsImage(maps, slot, p)
    ensures forall k :: k in KeysOfKind(maps, slot, Selfs) ==> SubjectKey(k.cgroup, slot) in maps
  {
    forall k | k in KeysOfKind(maps, slot, Selfs)
      ensures SubjectKey(k.cgroup, slot) in maps
    {
      KeyInstalled(maps, slot, p, k);
      var i :| 0 <= i < |p.subjects| && p.subjects[i].cgroup == k.cgroup && V4(k.address) in p.subjects[i].podIPs;
      assert Installs(slot, p, SubjectRow(slot, p.subjects[i]));
      assert SubjectRow(slot, p.subjects[i]) in RowsOf(maps, slot);
    }
  }

  /** The slot decodes whenever it holds an image; None: a self bypass has no subject. */
  method DecodeSlot(maps: Maps, slot: U32) returns (r: Option<PolicySet>)
    requires slot < 2 && Shaped(maps)
    ensures r.None? ==> exists k :: k in KeysOfKind(maps, slot, Selfs) && SubjectKey(k.cgroup, slot) !in maps
    ensures r.Some? ==> Decoded(maps, slot, r.value)
  {
    var bare := DecodeSubjects(maps, slot);
    var classified := DecodeClasses(maps, slot);
    var nodeIPs := DecodeNodes(maps, slot);
    var subjects := DecodeSelfs(maps, slot, bare);
    if subjects.None? {
      return None;
    }
    var rules := DecodeRules(maps, slot);
    return Some(PolicySet(nodeIPs, subjects.value, rules, classified));
  }

  function SlotKeys(maps: Maps, s: nat): set<Key> {
    set k | k in maps && SlotOf(k) == s
  }

  lemma NoKeysNoRows(maps: Maps, s: nat)
    ensures SlotKeys(maps, s) == {} <==> RowsOf(maps, s) == {}
  {
    forall k | k in SlotKeys(maps, s)
      ensures (k, maps[k]) in RowsOf(maps, s)
    {
    }
    forall row | row in RowsOf(maps, s)
      ensures row.0 in SlotKeys(maps, s)
    {
    }
  }

  /** The four reasons to refuse a kernel, sound or not: a malformed entry in either slot; a slot in
      use before the first commit; an own address without a subject; a policy that is not valid. */
  ghost predicate Unreadable(k: Kernel) {
    || !Shaped(k.maps)
    || (k.Epoch() == 0 && (k.pointer != 0 || RowsOf(k.maps, k.pointer) != {}))
    || (k.Epoch() > 0 && exists c, a :: SelfKey(c, k.pointer, a) in k.maps && SubjectKey(c, k.pointer) !in k.maps)
    || (k.Epoch() > 0 && exists d :: Decoded(k.maps, k.pointer, d) && !Valid(d))
  }

  /** What is read from a kernel that is accepted. */
  ghost predicate Reads(k: Kernel, r: Recovered) {
    && Shaped(k.maps) && r.config == Config(k.pointer, k.Epoch())
    && r.populated == Pair(RowsOf(k.maps, 0) != {}, RowsOf(k.maps, 1) != {})
    && (k.Epoch() == 0 ==>
          && k.pointer == 0 && RowsOf(k.maps, 0) == {}
          && r.decoded == PolicySet([], [], [], []) && r.encoded == Encoded([], [], [], [], []))
    && (k.Epoch() > 0 ==>
          Decoded(k.maps, k.pointer, r.decoded) && Valid(r.decoded) && IsEncoding(r.encoded, 0, r.decoded))
  }

  /** recoverPolicySlots: every entry is checked, the active slot is decoded and encoded again. */
  method RecoverPolicySlots(k: Kernel, config: Config) returns (r: Option<Recovered>)
    requires config == Config(k.pointer, k.Epoch())
    ensures Sound(k) ==> r.Some?
    ensures Sound(k) ==> Restored(k, r.value)
    ensures r.None? ==> Unreadable(k)
    ensures r.Some? ==> Reads(k, r.value)
  {
    var shaped := CheckShapes(k.maps);
    if !shaped {
      return None;
    }
    var populated := Pair(SlotKeys(k.maps, 0) != {}, SlotKeys(k.maps, 1) != {});
    NoKeysNoRows(k.maps, 0);
    NoKeysNoRows(k.maps, 1);
    if config.epoch == 0 {
      if config.slot != 0 || populated.At(config.slot) {
        return None;
      }
      return Some(Recovered(config, NO_ENCODING, NO_POLICY, populated));
    }
    r := RecoverCommitted(k, config, populated);
  }

  method RecoverCommitted(k: Kernel, config: Config, populated: Pair<bool>) returns (r: Option<Recovered>)
    requires config == Config(k.pointer, k.Epoch()) && config.epoch > 0 && Shaped(k.maps)
    requires populated == Pair(RowsOf(k.maps, 0) != {}, RowsOf(k.maps, 1) != {})
    ensures Sound(k) ==> r.Some?
    ensures Sound(k) ==> Restored(k, r.value)
    ensures r.None? ==> Unreadable(k)
    ensures r.Some? ==> Reads(k, r.value)
  {
    ghost var p := if Sound(k) then CommittedSet(k) else NO_POLICY;
    if Sound(k) {
      SelfsHaveSubjects(k.maps, k.pointer, p);
    }
    var decoded := DecodeSlot(k.maps, k.pointer);
    if decoded.None? {
      return None;
    }
    if Sound(k) {
      DecodedIsImage(k.maps, k.pointer, p, decoded.value);
    }
    var encoded := EncodePolicySet(0, decoded.value);
    if encoded.None? {
      return None;
    }
    return Some(Recovered(config, encoded.value, decoded.value, populated));
  }

  ghost function CommittedSet(k: Kernel): (p: PolicySet)
    requires Sound(k) && k.Epoch() > 0
    ensures HoldsImage(k.maps, k.pointer, p)
  {
    var p :| Valid(p) && IsImage(RowsOf(k.maps, k.pointer), k.pointer, p);
    p
  }

  /** recoverLinks: a committed subject must have its owner and, while its cgroup lives, both
      pins; every other owner's pins are candidates for removal. */
  method RecoverLinks(k: Kernel, active: set<Cgroup>, classified: set<Cgroup>, live: Cgroup -> bool)
    returns (r: Option<(set<Cgroup>, set<Cgroup>)>)
    ensures r.Some? <==>
              && active <= k.owners && classified <= k.owners
              && forall c :: c in active && live(c) ==> (c, 0) in k.pins && (c, 1) in k.pins
    ensures r.Some? ==> r.value == (active, k.owners - active)
  {
    var links: set<Cgroup>, candidates: set<Cgroup> := {}, {};
    var ids := Listing(k.owners);
    for i := 0 to |ids|
      invariant forall c :: c in links <==> c in ids[..i] && c in active
      invariant forall c :: c in candidates <==> c in ids[..i] && c !in active
      invariant forall j :: 0 <= j < i && ids[j] in active && live(ids[j]) ==>
                (ids[j], 0) in k.pins && (ids[j], 1) in k.pins
    {
      var c := ids[i];
      assert ids[..i + 1] == ids[..i] + [c];
      if c in active {
        links := links + {c};
      } else {
        candidates := candidates + {c};
      }
      if c in active && live(c) && ((c, 0) !in k.pins || (c, 1) !in k.pins) {
        return None;
      }
    }
    assert ids[..|ids|] == ids;
    assert candidates == k.owners - active;
    if !(active <= links) || !(classified <= k.owners) {
      return None;
    }
    assert links == active;
    forall c | c in active && live(c)
      ensures (c, 0) in k.pins && (c, 1) in k.pins
    {
      assert c in ids;
    }
    return Some((links, candidates));
  }

  /** validatePinInventory, as far as subject links go. */
  method ValidatePinInventory(k: Kernel) returns (ok: bool)
    ensures ok <==> PinsOwned(k.owners, k.pins)
  {
    var pins := Listing(k.pins);
    for i := 0 to |pins|
      invariant forall j :: 0 <= j < i ==> pins[j].0 in k.owners
    {
      assert pins[i] in k.pins;
      if pins[i].0 !in k.owners {
        assert (pins[i].0, pins[i].1) in k.pins;
        return false;
      }
    }
    forall c, w | (c, w) in k.pins
      ensures c in k.owners
    {
      assert (c, w) in pins;
    }
    return true;
  }

  lemma DecodedIds(k: Kernel, r: Recovered)
    requires Sound(k) && Restored(k, r)
    ensures SubjectsIn(RowsOf(k.maps, k.pointer)) == SubjectIDs(r.decoded)
    ensures ClassesIn(RowsOf(k.maps, k.pointer)) == Elements(r.decoded.classified)
  {
    var rows := RowsOf(k.maps, k.pointer);
    if k.Epoch() == 0 {
      assert rows == {};
    } else {
      SubjectsOfImage(rows, k.pointer, r.decoded);
      forall c | c in r.decoded.classified
        ensures c in ClassesIn(rows)
      {
        assert (ClassKey(c, k.pointer), Present) in rows;
      }
      forall row | row in rows && row.0.ClassKey?
        ensures row.0.cgroup in r.decoded.classified
      {
        assert Installs(k.pointer, r.decoded, row);
      }
    }
  }

  /** Everything startup reads before it opens the engine. */
  method ReadKernel(k: Kernel, live: Cgroup -> bool) returns (r: Recovered, links: set<Cgroup>, candidates: set<Cgroup>)
    requires Sound(k)
    ensures Restored(k, r)
    ensures links == SubjectsIn(RowsOf(k.maps, k.pointer)) && candidates == k.owners - links
  {
    var config := RecoverActiveConfig(k);
    var slots := RecoverPolicySlots(k, config.value);
    r := slots.value;
    DecodedIds(k, r);
    var pairs := RecoverLinks(k, SubjectIDs(r.decoded), (set c | c in r.decoded.classified), live);
    links, candidates := pairs.value.0, pairs.value.1;
    var inventory := ValidatePinInventory(k);
    if !inventory {
      assert false;  // "foreign or unjournaled pin"
    }
  }

  /** Startup on a surviving kernel. Whatever sound state the crash left, recovery accepts it,
      whichever workloads have died meanwhile, and the engine it opens has committed exactly
      what the kernel has committed. */
  method Restart(k: Kernel, guarded: bool, live: Cgroup -> bool, world: World) returns (e: Engine)
    requires Sound(k)
    ensures fresh(e) && fresh(e.store) && e.Open() && e.Clean() && !e.closed
    ensures e.store.world == world && e.guarded == guarded && e.store.trace == [Moment(k, false)]
    ensures e.store.kernel == k && !e.store.quiet && e.active == Config(k.pointer, k.Epoch())
    ensures e.links == SubjectsIn(CommittedOf(k).rows) && e.orphanLinks == k.owners - e.links
    ensures e.hasApplied <==> k.Epoch() > 0
  {
    var r, links, candidates := ReadKernel(k, live);
    var store := new Store(k, r.populated, world);
    PinsHaveOwners(k, links, candidates);
    e := new Engine(store, guarded, r.config, r.encoded, r.decoded, links, candidates);
  }

  lemma PinsHaveOwners(k: Kernel, links: set<Cgroup>, candidates: set<Cgroup>)
    requires Sound(k) && candidates == k.owners - links
    ensures links !! candidates
    ensures forall c, w :: (c, w) in k.pins ==> c in links || c in candidates
  {
  }

  /** What recovery holds to be applied is the encoding of whatever set was committed. */
  lemma RecoveredEncoding(k: Kernel, r: Recovered, p: PolicySet)
    requires Sound(k) && Restored(k, r) && k.Epoch() > 0
    requires Valid(p) && IsImage(RowsOf(k.maps, k.pointer), k.pointer, p)
    ensures IsEncoding(r.encoded, 0, p)
  {
    SameImages(RowsOf(k.maps, k.pointer), k.pointer, r.decoded, p);
    SlotsAgree(r.decoded, p, k.pointer, 0);
  }

  lemma SameImages(rows: set<Row>, slot: nat, p: PolicySet, q: PolicySet)
    requires slot < 2 && Valid(p) && Valid(q) && IsImage(rows, slot, p) && IsImage(rows, slot, q)
    ensures SameInstalls(p, q, slot)
  {
    forall row
      ensures Installs(slot, p, row) <==> Installs(slot, q, row)
    {
      assert row in rows <==> Installs(slot, p, row);
    }
  }

  // ----- crashes -----

  lemma FreshKernelIsSound()
    ensures Sound(FRESH_KERNEL) && CommittedOf(FRESH_KERNEL) == Committed(0, 0, {})
  {
  }

  /** The recovered state is the given committed one, whose set is p. */
  ghost predicate BringsBack(r: Recovered, c: Committed, p: PolicySet) {
    && r.config == Config(c.slot, c.epoch)
    && (c.epoch > 0 ==> Valid(p) && IsEncoding(r.encoded, 0, p))
  }

  ghost predicate SetOf(c: Committed, p: PolicySet) {
    c.epoch > 0 ==> Valid(p) && c.slot < 2 && IsImage(c.rows, c.slot, p)
  }

  /** A crash at any moment of a call, in whatever state it leaves the inactive slot, the links
      and the journal, restores either what was committed before the call or, at the next epoch,
      what the call was given, with the encoding that Apply would compute for that set. */
  lemma EveryCrashRecovers(ep: Episode, p: PolicySet, i: nat, r: Recovered)
    requires Obeys(ep) && i < |ep.moments| && SetOf(CommittedOf(ep.moments[0].kernel), p)
    requires Restored(ep.moments[i].kernel, r)
    ensures var before := CommittedOf(ep.moments[0].kernel);
            || BringsBack(r, before, p)
            || (before.slot < 2 && BringsBack(r, before.(slot := 1 - before.slot, epoch := before.epoch + 1),
                 ep.desired))
  {
    var k, before := ep.moments[i].kernel, CommittedOf(ep.moments[0].kernel);
    assert Keeps(ep.moments[0], ep.moments[i], ep.desired) && Sound(k);
    if k.Epoch() > 0 {
      RecoveredEncoding(k, r, if CommittedOf(k) == before then p else ep.desired);
    }
  }

  /** Applying what is committed already commits nothing: the epoch stays. */
  method Reapply(e: Engine, desired: PolicySet) returns (r: Result)
    requires e.Open() && !e.closed && e.AlreadyCommitted(desired)
    modifies e, e.store
    ensures e.Open() && !e.closed && e.active == old(e.active) && e.AlreadyCommitted(desired)
    ensures e.store.Now().epoch == old(e.store.Now().epoch)
  {
    r := e.Apply(desired);
  }

  /** One call of Apply, with the record of what it did. */
  method Call(e: Engine, desired: PolicySet) returns (r: Result, ghost ep: Episode)
    requires e.Open() && !e.closed
    modifies e, e.store
    ensures e.Open() && !e.closed
    ensures Obeys(ep) && ep.desired == desired
    ensures ep.moments[0] == Moment(old(e.store.kernel), old(e.store.quiet))
    ensures ep.Last() == Moment(e.store.kernel, e.store.quiet)
  {
    hide Sound, CountsOk, IsEncoding, Linked, Kinds, Obeys, OnlyCommits, Engine.Tracked, Engine.PendingOk,
        Engine.AppliedOk;
    ghost var from, before := |e.store.trace| - 1, CommittedOf(e.store.kernel);
    r := e.Apply(desired);
    CallObeys(e.store.trace, from, desired, CommittedOf(e.store.kernel));
    ep := Episode(desired, e.store.trace[from..]);
  }

  lemma NoCallYet(sets: seq<PolicySet>, m: Moment)
    ensures Leads([], sets[..0], m, m)
    ensures sets[..|sets|] == sets
  {
  }

  lemma Prefixes<T>(xs: seq<T>, i: nat)
    requires i < |xs|
    ensures xs[..i + 1] == xs[..i] + [xs[i]]
  {
  }

  /** Startup, and then one call after the other. Together with LifeGoesOn and LifeCutShort this
      is how lives come about: the next session starts from any moment of this one. */
  method Session(k: Kernel, guarded: bool, live: Cgroup -> bool, world: World, sets: seq<PolicySet>)
    returns (e: Engine, ghost eps: seq<Episode>)
    requires Sound(k)
    ensures fresh(e) && fresh(e.store) && e.Open() && !e.closed
    ensures Leads(eps, sets, Moment(k, false), Moment(e.store.kernel, e.store.quiet))
  {
    e := Restart(k, guarded, live, world);
    eps := [];
    NoCallYet(sets, Moment(k, false));
    hide Leads, Obeys, Engine.Open;
    for i := 0 to |sets|
      invariant fresh(e) && fresh(e.store) && e.Open() && !e.closed
      invariant Leads(eps, sets[..i], Moment(k, false), Moment(e.store.kernel, e.store.quiet))
    {
      ghost var ep;
      var r;
      r, ep := Call(e, sets[i]);
      OneCallMore(eps, sets[..i], Moment(k, false), ep);
      eps := eps + [ep];
      Prefixes(sets, i);
    }
  }
}
