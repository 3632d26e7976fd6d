/** The check a candidate must pass while the parent guard is installed. */
module GuardCheck {
  import opened PolicySets

  /** validateGuardCandidate, when a guard is installed. */
  predicate GuardAccepts(p: PolicySet) {
    forall i :: 0 <= i < |p.subjects| ==> p.subjects[i].cgroup in p.classified
  }

  lemma GuardMeans(p: PolicySet)
    ensures GuardAccepts(p) <==> forall s :: s in p.subjects ==> s.cgroup in p.classified
  {
    assert forall i :: 0 <= i < |p.subjects| ==> p.subjects[i] in p.subjects;
  }

  method ValidateGuardCandidate(p: PolicySet) returns (ok: bool)
    ensures ok <==> GuardAccepts(p)
    ensures ok <==> forall s :: s in p.subjects ==> s.cgroup in p.classified
  {
    GuardMeans(p);
    var classified: set<Cgroup> := {};
    for i := 0 to |p.classified|
      invariant forall c :: c in classified <==> c in p.classified[..i]
    {
      classified := classified + {p.classified[i]};
      assert p.classified[..i + 1] == p.classified[..i] + [p.classified[i]];
    }
    assert p.classified[..|p.classified|] == p.classified;
    for i := 0 to |p.subjects|
      invariant forall k :: 0 <= k < i ==> p.subjects[k].cgroup in p.classified
    {
      if p.subjects[i].cgroup !in classified {
        return false;
      }
    }
    return true;
  }
}
