/** A policy set installs the same rows in either slot, up to the slot bit of the keys. */
module SlotShift {
  import opened PolicySets
  import opened EngineKeys

  function ShiftKey(k: Key, s: nat): Key
    requires s < 2 && SlotOf(k) < 2
  {
    match k
    case SubjectKey(c, _) => SubjectKey(c, s)
    case ClassKey(c, _) => ClassKey(c, s)
    case NodeKey(_, a) => NodeKey(s, a)
    case SelfKey(c, _, a) => SelfKey(c, s, a)
    case RuleKey(len, m, c, a) => RuleKey(len, m % SLOT_BIT + s * SLOT_BIT, c, a)
  }

  lemma ShiftMeta(s: nat, t: nat, direction: nat, protocol: U8, port: U16, m: U32)
    requires s < 2 && t < 2 && direction < 2 && m / SLOT_BIT == t
    ensures m == Meta(t, direction, protocol, port) <==>
            m % SLOT_BIT + s * SLOT_BIT == Meta(s, direction, protocol, port)
  {
    MetaUnpacks(t, direction, protocol, port);
    MetaUnpacks(s, direction, protocol, port);
    assert m == t * SLOT_BIT + m % SLOT_BIT;
  }

  lemma ShiftRule(k: Key, s: nat, t: nat, r: Rule)
    requires s < 2 && t < 2 && k.RuleKey? && SlotOf(k) == t && ValidRule(r)
    ensures k == RuleKeyOf(t, r) <==> ShiftKey(k, s) == RuleKeyOf(s, r)
  {
    ShiftMeta(s, t, DirectionBit(r.direction), r.protocol, r.port, k.meta);
  }

  lemma ShiftInstalls(p: PolicySet, s: nat, t: nat, row: Row)
    requires s < 2 && t < 2 && Valid(p) && SlotOf(row.0) == t
    ensures Installs(t, p, row) <==> Installs(s, p, (ShiftKey(row.0, s), row.1))
  {
    match row.0
    case RuleKey(_, _, _, _) =>
      forall i | 0 <= i < |p.rules|
        ensures row.0 == RuleKeyOf(t, p.rules[i]) <==> ShiftKey(row.0, s) == RuleKeyOf(s, p.rules[i])
      {
        ShiftRule(row.0, s, t, p.rules[i]);
      }
    case _ =>
  }

  ghost predicate SameInstalls(p: PolicySet, q: PolicySet, s: nat)
    requires s < 2 && Valid(p) && Valid(q)
  {
    forall row :: Installs(s, p, row) <==> Installs(s, q, row)
  }

  lemma RuleRowSlot(slot: nat, p: PolicySet, row: Row)
    requires slot < 2 && Valid(p) && Installs(slot, p, row)
    ensures SlotOf(row.0) == slot
  {
    if row.0.RuleKey? {
      var i :| 0 <= i < |p.rules| && row.0 == RuleKeyOf(slot, p.rules[i]);
      MetaUnpacks(slot, DirectionBit(p.rules[i].direction), p.rules[i].protocol, p.rules[i].port);
    }
  }

  lemma SlotsAgree(p: PolicySet, q: PolicySet, s: nat, t: nat)
    requires s < 2 && t < 2 && Valid(p) && Valid(q) && SameInstalls(p, q, s)
    ensures SameInstalls(p, q, t)
  {
    forall row
      ensures Installs(t, p, row) <==> Installs(t, q, row)
    {
      if Installs(t, p, row) {
        RuleRowSlot(t, p, row);
      }
      if Installs(t, q, row) {
        RuleRowSlot(t, q, row);
      }
      if SlotOf(row.0) == t {
        ShiftInstalls(p, s, t, row);
        ShiftInstalls(q, s, t, row);
      }
    }
  }

  /** Two sets have equal encodings exactly when they install the same rows in whichever slot. */
  lemma EqualEncodings(e: Encoded, p: PolicySet, f: Encoded, q: PolicySet, s: nat)
    requires s < 2 && Valid(p) && Valid(q) && IsEncoding(e, 0, p) && IsEncoding(f, 0, q)
    ensures e == f <==> SameInstalls(p, q, s)
  {
    EncodingIsCanonical(e, f);
    if SameInstalls(p, q, s) {
      SlotsAgree(p, q, s, 0);
    }
    if e == f {
      SlotsAgree(p, q, 0, s);
    }
  }
}
