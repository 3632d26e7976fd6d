/**
 How many excepts an ipBlock may have before its expansion can exceed the limit:
 exactly 38. Up to there the bound of IpBlock holds for every block; past it there
 are blocks, described here, that meet the bound and are refused.
*/
module ExpansionBound {
  import opened Cidr
  import opened Ordering
  import opened RangeSplit
  import opened IpBlock

  // ----- the worst case: single addresses spread as evenly as possible -----

  const WIDE: nat := 0x800_0000    // 2^27, the distance of the first 32 holes
  const NARROW: nat := 0x400_0000  // 2^26, where the later holes halve those distances

  function Hole(i: nat): nat {
    if i < 32 then i * WIDE else (i - 32) * WIDE + NARROW
  }

  /** The hole is alone among the 2^Reach addresses from its own on. */
  function Reach(i: nat, k: nat): (r: nat)
    ensures 26 <= r <= 27
  {
    if i < 32 && k <= i + 32 then 27 else 26
  }

  function Holes(k: nat): (ts: seq<CidrText>)
    requires k <= 64
    ensures |ts| == k && forall i :: 0 <= i < k ==> ts[i] == IPv4Text(Hole(i), 32)
  {
    seq(k, i requires 0 <= i < k => IPv4Text(Hole(i), 32))
  }

  /** Every address but k. */
  function Spread(k: nat): NativeIPBlock
    requires k <= 64
  {
    NativeIPBlock(IPv4Text(0, 0), Holes(k))
  }

  lemma Widths()
    ensures Pow2(26) == NARROW && Pow2(27) == WIDE
  {
    assert Pow2(13) == 0x2000;
    assert Pow2(20) == 0x10_0000;
  }

  lemma {:induction false} WideIsAligned(i: nat)
    ensures Aligned(i * WIDE, 27)
  {
    if i == 0 {
      ZeroIsAligned(27);
    } else {
      WideIsAligned(i - 1);
      Widths();
      AlignedNext((i - 1) * WIDE, 27);
      assert (i - 1) * WIDE + WIDE == i * WIDE;
    }
  }

  lemma HoleIsAligned(i: nat, k: nat)
    ensures Aligned(Hole(i), Reach(i, k))
  {
    if i < 32 {
      WideIsAligned(i);
      AlignedFiner(Hole(i), Reach(i, k), 27);
    } else {
      WideIsAligned(i - 32);
      AlignedFiner((i - 32) * WIDE, 26, 27);
      Widths();
      AlignedNext((i - 32) * WIDE, 26);
    }
  }

  lemma HoleHasRoom(i: nat, k: nat)
    requires i < k <= 64
    ensures Hole(i) + Pow2(Reach(i, k)) <= ADDRESSES
  {
    Widths();
  }

  lemma HolesAreFar(i: nat, j: nat, k: nat)
    requires i < k <= 64 && j < k && i != j
    ensures Hole(j) < Hole(i) || Hole(i) + Pow2(Reach(i, k)) <= Hole(j)
  {
    Widths();
  }

  ghost predicate IsHole(a: int, k: nat) {
    exists i :: 0 <= i < k && Hole(i) == a
  }

  ghost function Unholed(k: nat): iset<int> {
    iset a | Between(a, 0, ADDRESSES - 1) && !IsHole(a, k)
  }

  lemma SpreadIsAccepted(k: nat)
    requires k <= 64
    ensures Accepted(Spread(k)) && Target(Spread(k)) == Unholed(k)
  {
    var block := Spread(k);
    Pow2Of32();
    ZeroIsAligned(32);
    FloorOfAligned(0, 32);
    var base, excepts := Masked(block.cidr), AcceptedBlocks(block.excepts);
    forall a
      ensures a in Target(block) <==> base.Has(a) && !IsHole(a, k)
    {
      assert forall i :: 0 <= i < k ==> (excepts[i].Has(a) <==> a == Hole(i));
    }
  }

  // ----- its prefixes -----

  /** The prefix of 2^e addresses that starts 2^e past a hole. */
  function Beside(i: nat, e: nat): Block
    requires e <= 32
  {
    Block(Hole(i) + Pow2(e), 32 - e)
  }

  lemma StepIsAligned(h: nat, e: nat, reach: nat)
    requires e < reach && Aligned(h, reach)
    ensures Aligned(h, e + 1) && Aligned(h + Pow2(e), e) && 2 * Pow2(e) <= Pow2(reach)
  {
    AlignedFiner(h, e + 1, reach);
    AlignedFiner(h, e, e + 1);
    AlignedNext(h, e);
    Pow2Monotone(e, reach);
  }

  lemma BesideReaches(i: nat, e: nat, k: nat)
    requires i < k <= 64 && e < Reach(i, k)
    ensures Aligned(Hole(i), e + 1) && Beside(i, e).Valid()
    ensures Beside(i, e).start == Hole(i) + Beside(i, e).Size()
    ensures Beside(i, e).start + Beside(i, e).Size() <= Hole(i) + Pow2(Reach(i, k)) <= ADDRESSES
  {
    hide Hole, Aligned, Pow2, Reach;
    HoleIsAligned(i, k);
    HoleHasRoom(i, k);
    StepIsAligned(Hole(i), e, Reach(i, k));
  }

  lemma BesideFits(i: nat, e: nat, k: nat)
    requires i < k <= 64 && e < Reach(i, k)
    ensures Fits(Beside(i, e), Unholed(k))
  {
    hide Hole, Pow2, Reach;
    BesideReaches(i, e, k);
    forall a | Beside(i, e).Has(a)
      ensures !IsHole(a, k)
    {
      if j :| 0 <= j < k && Hole(j) == a {
        if j != i {
          HolesAreFar(i, j, k);
        }
      }
    }
  }

  /** The parent starts at the hole. */
  lemma BesideIsMaximal(i: nat, e: nat, k: nat)
    requires i < k <= 64 && e < Reach(i, k)
    ensures Maximal(Beside(i, e), Unholed(k))
  {
    hide Hole, Pow2, Aligned;
    BesideFits(i, e, k);
    BesideReaches(i, e, k);
    var b := Beside(i, e);
    var p := b.Parent();
    ParentFits(b);
    if p.start == b.start {
      AlignedGap(Hole(i), p.start, e + 1);
    }
    assert p.Has(Hole(i)) && Hole(i) !in Unholed(k);
  }

  // ----- counting them -----

  /** The first n prefixes beside hole i. */
  ghost function Row(i: nat, n: nat): set<Block>
    requires n <= 32
  {
    set e | 0 <= e < n :: Beside(i, e)
  }

  lemma {:induction false} RowSize(i: nat, n: nat)
    requires n <= 32
    ensures |Row(i, n)| == n
  {
    if n > 0 {
      RowSize(i, n - 1);
      assert Row(i, n) == Row(i, n - 1) + {Beside(i, n - 1)};
      assert Beside(i, n - 1) !in Row(i, n - 1);
    }
  }

  /** The prefixes beside the first n of k holes. */
  ghost function Rows(n: nat, k: nat): set<Block> {
    if n == 0 then {} else Rows(n - 1, k) + Row(n - 1, Reach(n - 1, k))
  }

  /** How many these are. */
  function Total(n: nat, k: nat): nat
    requires 32 <= k && n <= k <= 64
  {
    if n <= k - 32 then 26 * n
    else if n <= 32 then 27 * n - (k - 32)
    else 27 * 32 - (k - 32) + 26 * (n - 32)
  }

  lemma TotalGrows(n: nat, k: nat)
    requires 32 <= k && 0 < n <= k <= 64
    ensures Total(n, k) == Total(n - 1, k) + Reach(n - 1, k)
  {
  }

  lemma {:induction false} InRows(n: nat, k: nat, b: Block) returns (i: nat, e: nat)
    requires b in Rows(n, k)
    ensures i < n && e < Reach(i, k) && b == Beside(i, e)
  {
    if b in Row(n - 1, Reach(n - 1, k)) {
      i := n - 1;
      e :| 0 <= e < Reach(i, k) && b == Beside(i, e);
    } else {
      i, e := InRows(n - 1, k, b);
    }
  }

  lemma RowIsNew(n: nat, k: nat, e: nat)
    requires n < k <= 64 && e < Reach(n, k)
    ensures Beside(n, e) !in Rows(n, k)
  {
    if Beside(n, e) in Rows(n, k) {
      var i, f := InRows(n, k, Beside(n, e));
      BesideReaches(n, e, k);
      BesideReaches(i, f, k);
      HolesAreFar(i, n, k);
      HolesAreFar(n, i, k);
    }
  }

  lemma RowsGrow(n: nat, k: nat)
    requires n > 0
    ensures Rows(n, k) == Rows(n - 1, k) + Row(n - 1, Reach(n - 1, k))
  {
  }

  lemma DisjointSize<T>(a: set<T>, b: set<T>)
    requires a !! b
    ensures |a + b| == |a| + |b|
  {
  }

  lemma {:induction false} RowsSize(n: nat, k: nat)
    requires 32 <= k && n <= k <= 64
    ensures |Rows(n, k)| == Total(n, k)
  {
    if n > 0 {
      RowsSize(n - 1, k);
      OneRowMore(n, k);
    }
  }

  lemma OneRowMore(n: nat, k: nat)
    requires 32 <= k && 0 < n <= k <= 64 && |Rows(n - 1, k)| == Total(n - 1, k)
    ensures |Rows(n, k)| == Total(n, k)
  {
    RowsGrow(n, k);
    hide Total, Reach, Row, Rows;
    RowSize(n - 1, Reach(n - 1, k));
    RowsAreDisjoint(n - 1, k);
    DisjointSize(Rows(n - 1, k), Row(n - 1, Reach(n - 1, k)));
    TotalGrows(n, k);
  }

  lemma RowsAreDisjoint(n: nat, k: nat)
    requires n < k <= 64
    ensures Rows(n, k) !! Row(n, Reach(n, k))
  {
    forall b | b in Row(n, Reach(n, k))
      ensures b !in Rows(n, k)
    {
      var e :| 0 <= e < Reach(n, k) && b == Beside(n, e);
      RowIsNew(n, k, e);
    }
  }

  // ----- the exact limit -----

  /** Between 32 and 64 excepts the bound of 25 k + 64 prefixes is met. */
  lemma SpreadMeetsTheLine(k: nat)
    requires 32 <= k <= 64
    ensures Accepted(Spread(k)) && |Spread(k).excepts| == k
    ensures |MaximalSet(Target(Spread(k)))| == 25 * k + 64
  {
    SpreadIsAccepted(k);
    var region := Unholed(k);
    forall b | b in Rows(k, k)
      ensures b in MaximalSet(region)
    {
      var i, e := InRows(k, k, b);
      BesideIsMaximal(i, e, k);
      InMaximalSet(b, region);
    }
    SubsetSize(Rows(k, k), MaximalSet(region));
    RowsSize(k, k);
    AtMostTheLine(Spread(k));
  }

  /** Blocks with at most n contained excepts are never refused for their size if and only if n
      is at most 38. */
  lemma ThirtyEightIsExact(n: nat)
    ensures n <= 38 <==> forall block: NativeIPBlock :: Accepted(block) && |block.excepts| <= n ==>
            |MaximalSet(Target(block))| <= MAX_EXPANSION
  {
    if n <= 38 {
      forall block: NativeIPBlock | Accepted(block) && |block.excepts| <= n
        ensures |MaximalSet(Target(block))| <= MAX_EXPANSION
      {
        AtMostTheLine(block);
      }
    } else {
      SpreadMeetsTheLine(39);
    }
  }
}
