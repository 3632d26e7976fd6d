/**
 ipBlock expansion: subtract the except prefixes from a CIDR and write what is
 left as prefixes. The specification is one equivalence: a prefix is in the
 result exactly when it is maximal among those that avoid every except. How
 many such prefixes there can be is bounded by walking the prefix tree.
*/
module IpBlock {
  import opened Cidr
  import opened Ordering
  import opened RangeSplit

  /** The outcome of netip.ParsePrefix on one string of the policy. */
  datatype RawText = NotAPrefix | IPv6Text | IPv4Text(addr: nat, bits: nat)
  type CidrText = t: RawText | t.IPv4Text? ==> t.addr < ADDRESSES && t.bits <= 32 witness NotAPrefix

  datatype NativeIPBlock = NativeIPBlock(cidr: CidrText, excepts: seq<CidrText>)

  datatype ExpandError = InvalidCidr | NotIPv4 | InvalidExcept(i: nat) | ExceptNotIPv4(i: nat)
      | ExceptOutside(i: nat) | TooManyPrefixes

  datatype Result<T> = Ok(value: T) | Err(error: ExpandError)

  /** netip.Prefix.Masked */
  function Masked(t: CidrText): Block
    requires t.IPv4Text?
  {
    Block(Floor(t.addr, 32 - t.bits), t.bits)
  }

  lemma MaskedIsValid(t: CidrText)
    requires t.IPv4Text?
    ensures Masked(t).Valid() && Masked(t).Has(t.addr)
  {
    FloorIsAligned(t.addr, 32 - t.bits);
    TopIsAligned(32 - t.bits);
    AlignedGap(Floor(t.addr, 32 - t.bits), ADDRESSES, 32 - t.bits);
  }

  function PrefixContainsPrefix(container: Block, candidate: Block): bool {
    container.bits <= candidate.bits && container.Has(candidate.start)
  }

  /** An except that the expansion accepts: an IPv4 prefix inside the base. */
  predicate Acceptable(base: Block, t: CidrText) {
    t.IPv4Text? && PrefixContainsPrefix(base, Masked(t))
  }

  lemma AcceptableIsInside(base: Block, t: CidrText)
    requires base.Valid() && Acceptable(base, t)
    ensures Masked(t).Valid() && Masked(t).Inside(base)
  {
    MaskedIsValid(t);
    Nested(base, Masked(t), Masked(t).start);
  }

  function AcceptedBlocks(ts: seq<CidrText>): (bs: seq<Block>)
    requires forall i :: 0 <= i < |ts| ==> ts[i].IPv4Text?
    ensures |bs| == |ts| && forall i :: 0 <= i < |ts| ==> bs[i] == Masked(ts[i])
  {
    seq(|ts|, i requires 0 <= i < |ts| => Masked(ts[i]))
  }

  /** The error the first refused except gives. */
  function Refusal(base: Block, t: CidrText, i: nat): ExpandError
    requires !Acceptable(base, t)
  {
    if t.NotAPrefix? then InvalidExcept(i) else if t.IPv6Text? then ExceptNotIPv4(i) else ExceptOutside(i)
  }

  // ----- ranges -----

  datatype Range = Range(start: nat, end: nat)

  function RangeOf(b: Block): Range
    requires b.bits <= 32
  {
    Range(b.start, b.start + b.Size() - 1)
  }

  function RangeRank(r: Range): int {
    r.start * 0x2_0000_0000 + r.end
  }

  ghost predicate Covered(a: int, rs: seq<Range>) {
    exists i :: 0 <= i < |rs| && rs[i].start <= a <= rs[i].end
  }

  /** Nonempty ranges inside the base, in order, with at least one address between any two. */
  ghost predicate Separated(rs: seq<Range>, base: Block)
    requires base.bits <= 32
  {
    && (forall i :: 0 <= i < |rs| ==> base.start <= rs[i].start <= rs[i].end < base.start + base.Size())
    && (forall i, j :: 0 <= i < j < |rs| ==> rs[i].end + 1 < rs[j].start)
  }

  ghost predicate RangesIn(rs: seq<Range>, base: Block)
    requires base.bits <= 32
  {
    forall i :: 0 <= i < |rs| ==> base.start <= rs[i].start <= rs[i].end < base.start + base.Size()
  }

  lemma CoveredOneMore(a: int, rs: seq<Range>, k: nat)
    requires k < |rs|
    ensures Covered(a, rs[..k + 1]) <==> Covered(a, rs[..k]) || rs[k].start <= a <= rs[k].end
  {
    if Covered(a, rs[..k]) {
      var i :| 0 <= i < k && rs[..k][i].start <= a <= rs[..k][i].end;
      assert rs[..k + 1][i] == rs[..k][i];
    }
    if rs[k].start <= a <= rs[k].end {
      assert rs[..k + 1][k] == rs[k];
    }
    if Covered(a, rs[..k + 1]) {
      var i :| 0 <= i < k + 1 && rs[..k + 1][i].start <= a <= rs[..k + 1][i].end;
      if i < k {
        assert rs[..k][i] == rs[..k + 1][i];
      }
    }
  }

  /** A range that starts past the last one and its neighbour becomes a new last range. */
  lemma AppendsRange(merged: seq<Range>, current: Range, base: Block)
    requires base.bits <= 32 && Separated(merged, base) && RangesIn([current], base)
    requires |merged| == 0 || current.start > merged[|merged| - 1].end + 1
    ensures Separated(merged + [current], base)
    ensures forall a :: Covered(a, merged + [current]) <==> Covered(a, merged) || current.start <= a <= current.end
  {
    hide Covered;
    AppendedSeparated(merged, current, base);
    AppendedCovers(merged, current);
  }

  lemma AppendedCovers(merged: seq<Range>, current: Range)
    ensures forall a :: Covered(a, merged + [current]) <==> Covered(a, merged) || current.start <= a <= current.end
  {
    var rs := merged + [current];
    assert rs[..|merged| + 1] == rs && rs[..|merged|] == merged;
    forall a
      ensures Covered(a, rs) <==> Covered(a, merged) || current.start <= a <= current.end
    {
      CoveredOneMore(a, rs, |merged|);
    }
  }

  lemma AppendedSeparated(merged: seq<Range>, current: Range, base: Block)
    requires base.bits <= 32 && Separated(merged, base) && RangesIn([current], base)
    requires |merged| == 0 || current.start > merged[|merged| - 1].end + 1
    ensures Separated(merged + [current], base)
  {
    assert [current][0] == current;
  }

  /** A range that meets the last one extends it. */
  lemma ExtendsLast(merged: seq<Range>, current: Range, base: Block)
    requires base.bits <= 32 && Separated(merged, base) && RangesIn([current], base)
    requires |merged| > 0
    requires var last := merged[|merged| - 1]; last.start <= current.start <= last.end + 1 && current.end > last.end
    ensures var rs := merged[|merged| - 1 := Range(merged[|merged| - 1].start, current.end)];
            && Separated(rs, base)
            && forall a :: Covered(a, rs) <==> Covered(a, merged) || current.start <= a <= current.end
  {
    assert [current][0] == current;
    var last := |merged| - 1;
    var rs := merged[last := Range(merged[last].start, current.end)];
    assert merged[..last + 1] == merged && rs[..last + 1] == rs && rs[..last] == merged[..last];
    forall a
      ensures Covered(a, rs) <==> Covered(a, merged) || current.start <= a <= current.end
    {
      CoveredOneMore(a, merged, last);
      CoveredOneMore(a, rs, last);
    }
  }

  lemma AlreadyCovered(merged: seq<Range>, current: Range)
    requires |merged| > 0
    requires var last := merged[|merged| - 1]; last.start <= current.start && current.end <= last.end
    ensures forall a :: Covered(a, merged) <==> Covered(a, merged) || current.start <= a <= current.end
  {
    forall a | current.start <= a <= current.end
      ensures Covered(a, merged)
    {
      assert merged[|merged| - 1].start <= a <= merged[|merged| - 1].end;
    }
  }

  /** What the next range adds to what the earlier ones cover. */
  lemma CoversOneMore(before: seq<Range>, merged: seq<Range>, sorted: seq<Range>, k: nat)
    requires k < |sorted|
    requires forall a :: Covered(a, before) <==> Covered(a, sorted[..k])
    requires forall a :: Covered(a, merged) <==> Covered(a, before) || sorted[k].start <= a <= sorted[k].end
    ensures forall a :: Covered(a, merged) <==> Covered(a, sorted[..k + 1])
  {
    forall a
      ensures Covered(a, merged) <==> Covered(a, sorted[..k + 1])
    {
      CoveredOneMore(a, sorted, k);
    }
  }

  /** Merging overlapping and adjacent ranges changes no address. */
  method MergeRanges(sorted: seq<Range>, ghost base: Block) returns (merged: seq<Range>)
    requires base.bits <= 32 && RangesIn(sorted, base)
    requires forall i, j :: 0 <= i < j < |sorted| ==> sorted[i].start <= sorted[j].start
    ensures Separated(merged, base)
    ensures forall a :: Covered(a, merged) <==> Covered(a, sorted)
  {
    merged := [];
    var k := 0;
    while k < |sorted|
      invariant k <= |sorted|
      invariant Separated(merged, base)
      invariant forall a :: Covered(a, merged) <==> Covered(a, sorted[..k])
      invariant merged != [] ==> k < |sorted| ==> merged[|merged| - 1].start <= sorted[k].start
    {
      var current := sorted[k];
      ghost var before := merged;
      assert [current][0] == current && RangesIn([current], base);
      if |merged| == 0 || current.start > merged[|merged| - 1].end + 1 {
        AppendsRange(merged, current, base);
        merged := merged + [current];
      } else if current.end > merged[|merged| - 1].end {
        ExtendsLast(merged, current, base);
        merged := merged[|merged| - 1 := Range(merged[|merged| - 1].start, current.end)];
      } else {
        AlreadyCovered(merged, current);
      }
      CoversOneMore(before, merged, sorted, k);
      k := k + 1;
    }
    assert sorted[..k] == sorted;
  }

  // ----- the gap walk -----

  /** Inside a gap (nothing excluded inside, something excluded or the edge on both sides) the
      maximal prefixes of the gap are those of the whole region. */
  lemma GapIsLocal(region: iset<int>, lo: nat, hi: nat, b: Block)
    requires lo <= hi && (forall a :: lo <= a <= hi ==> a in region)
    requires lo - 1 !in region && hi + 1 !in region
    ensures Maximal(b, Interval(lo, hi)) <==> Maximal(b, region) && lo <= b.start <= hi
  {
    forall c: Block | c.Valid() && (exists a :: lo <= a <= hi && c.Has(a))
      ensures Fits(c, region) <==> Fits(c, Interval(lo, hi))
    {
      if Fits(c, region) {
        assert !c.Has(lo - 1) && !c.Has(hi + 1);
      }
    }
    if b.Valid() && lo <= b.start <= hi {
      assert b.Has(b.start);
      if b.bits > 0 {
        ParentFits(b);
        assert b.Parent().Has(b.start);
      }
    }
    if Fits(b, Interval(lo, hi)) {
      assert b.Has(b.start);
    }
  }

  lemma ListsExtend(region: iset<int>, from: int, done: seq<Block>, lo: nat, upto: nat, hi: nat, more: seq<Block>)
    requires from <= lo < upto <= hi + 1 && (forall a :: lo <= a <= hi ==> a in region)
    requires lo - 1 !in region && hi + 1 !in region
    requires Lists(done, region, from, lo) && Lists(more, Interval(lo, hi), lo, upto)
    ensures Lists(done + more, region, from, upto)
  {
    forall b
      ensures b in done + more <==> Maximal(b, region) && from <= b.start < upto
    {
      GapIsLocal(region, lo, hi, b);
      assert b in done + more <==> b in done || b in more;
    }
  }

  lemma ListsSkip(region: iset<int>, from: int, done: seq<Block>, lo: int, hi: int)
    requires lo <= hi && Lists(done, region, from, lo) && (forall a :: lo <= a < hi ==> a !in region)
    ensures Lists(done, region, from, hi)
  {
    forall b | Maximal(b, region) && lo <= b.start < hi
      ensures false
    {
      assert b.Has(b.start);
    }
  }

  /** The finite set of maximal prefixes of a region. */
  ghost function MaximalSet(region: iset<int>): set<Block> {
    set s: nat, n: nat | s < ADDRESSES && n <= 32 && Maximal(Block(s, n), region) :: Block(s, n)
  }

  lemma InMaximalSet(b: Block, region: iset<int>)
    ensures b in MaximalSet(region) <==> Maximal(b, region)
  {
    if Maximal(b, region) {
      assert b == Block(b.start, b.bits);
    }
  }

  lemma {:induction false} ListIsNoLonger(bs: seq<Block>, all: set<Block>)
    requires forall i, j :: 0 <= i < j < |bs| ==> bs[i].start < bs[j].start
    requires forall b :: b in bs ==> b in all
    ensures |bs| <= |all|
    ensures (forall b :: b in all ==> b in bs) ==> |bs| == |all|
  {
    if bs == [] {
      assert (forall b :: b in all ==> b in bs) ==> all == {};
    } else {
      ListIsNoLonger(bs[1..], all - {bs[0]});
      assert forall b :: b in bs <==> b == bs[0] || b in bs[1..];
    }
  }

  lemma ListSize(bs: seq<Block>, region: iset<int>, from: int, upto: int)
    requires Lists(bs, region, from, upto)
    ensures |bs| <= |MaximalSet(region)|
    ensures (forall b :: Maximal(b, region) ==> from <= b.start < upto) ==> |bs| == |MaximalSet(region)|
  {
    forall b
      ensures b in MaximalSet(region) <==> Maximal(b, region)
    {
      InMaximalSet(b, region);
    }
    ListIsNoLonger(bs, MaximalSet(region));
  }

  /** Split one gap and append it to what is already listed. */
  method AppendGap(done: seq<Block>, lo: nat, hi: nat, ghost from: int, ghost region: iset<int>)
    returns (ok: bool, prefixes: seq<Block>)
    requires from <= lo <= hi < ADDRESSES && |done| <= MAX_EXPANSION && Lists(done, region, from, lo)
    requires forall a :: lo <= a <= hi ==> a in region
    requires lo - 1 !in region && hi + 1 !in region
    ensures ok ==> Lists(prefixes, region, from, hi + 1) && |prefixes| <= MAX_EXPANSION
    ensures !ok ==> |MaximalSet(region)| > MAX_EXPANSION
  {
    ok, prefixes := AppendRangePrefixes(done, lo, hi);
    ghost var more := prefixes[|done|..];
    assert prefixes == done + more;
    if ok {
      ListsExtend(region, from, done, lo, hi + 1, hi, more);
    } else {
      ghost var upto :| lo < upto <= hi + 1 && Lists(more, Interval(lo, hi), lo, upto);
      ListsExtend(region, from, done, lo, upto, hi, more);
      ListSize(prefixes, region, from, upto);
    }
  }

  /** Split the gap before one merged range, if there is one, and step over the range. */
  method PassRange(base: Block, merged: seq<Range>, k: nat, cursor: nat, done: seq<Block>, ghost region: iset<int>)
    returns (ok: bool, prefixes: seq<Block>)
    requires base.Valid() && Separated(merged, base) && k < |merged|
    requires forall a :: a in region <==> base.Has(a) && !Covered(a, merged)
    requires cursor == (if k == 0 then base.start else merged[k - 1].end + 1)
    requires |done| <= MAX_EXPANSION && Lists(done, region, base.start, cursor)
    ensures ok ==> Lists(prefixes, region, base.start, merged[k].end + 1) && |prefixes| <= MAX_EXPANSION
    ensures !ok ==> |MaximalSet(region)| > MAX_EXPANSION
  {
    hide Lists, Maximal, MaximalSet, Covered;
    var current := merged[k];
    prefixes := done;
    if cursor < current.start {
      GapIsFree(merged, base, region, k, cursor, current.start - 1);
      ok, prefixes := AppendGap(prefixes, cursor, current.start - 1, base.start, region);
      if !ok {
        return;
      }
    }
    RangeIsCovered(merged, k);
    ListsSkip(region, base.start, prefixes, current.start, current.end + 1);
    ok := true;
  }

  /** Walk the gaps between the merged ranges, splitting each into prefixes. */
  method WalkGaps(base: Block, merged: seq<Range>, ghost region: iset<int>) returns (ok: bool, prefixes: seq<Block>)
    requires base.Valid() && Separated(merged, base)
    requires forall a :: a in region <==> base.Has(a) && !Covered(a, merged)
    ensures ok ==> Lists(prefixes, region, base.start, base.start + base.Size())
    ensures ok <==> |MaximalSet(region)| <= MAX_EXPANSION
  {
    hide Lists, Maximal, MaximalSet, Covered;
    var baseEnd := base.start + base.Size() - 1;
    prefixes := [];
    var cursor := base.start;
    var k := 0;
    EmptyList(base, region);
    while k < |merged|
      invariant k <= |merged| && |prefixes| <= MAX_EXPANSION
      invariant base.start <= cursor <= baseEnd + 1
      invariant cursor == if k == 0 then base.start else merged[k - 1].end + 1
      invariant Lists(prefixes, region, base.start, cursor)
    {
      ok, prefixes := PassRange(base, merged, k, cursor, prefixes, region);
      if !ok {
        return;
      }
      if merged[k].end == baseEnd {
        cursor := baseEnd + 1;
        break;
      }
      cursor := merged[k].end + 1;
      k := k + 1;
    }
    if cursor <= baseEnd {
      ok, prefixes := PassEnd(base, merged, cursor, prefixes, region);
      if !ok {
        return;
      }
    }
    ok := true;
    AllAreListed(prefixes, base, region);
  }

  /** Split the gap after the last merged range. */
  method PassEnd(base: Block, merged: seq<Range>, cursor: nat, done: seq<Block>, ghost region: iset<int>)
    returns (ok: bool, prefixes: seq<Block>)
    requires base.Valid() && Separated(merged, base) && cursor < base.start + base.Size()
    requires forall a :: a in region <==> base.Has(a) && !Covered(a, merged)
    requires cursor == (if |merged| == 0 then base.start else merged[|merged| - 1].end + 1)
    requires |done| <= MAX_EXPANSION && Lists(done, region, base.start, cursor)
    ensures ok ==> Lists(prefixes, region, base.start, base.start + base.Size()) && |prefixes| <= MAX_EXPANSION
    ensures !ok ==> |MaximalSet(region)| > MAX_EXPANSION
  {
    hide Lists, Maximal, MaximalSet, Covered;
    var baseEnd := base.start + base.Size() - 1;
    GapIsFree(merged, base, region, |merged|, cursor, baseEnd);
    ok, prefixes := AppendGap(done, cursor, baseEnd, base.start, region);
  }

  lemma AllAreListed(bs: seq<Block>, base: Block, region: iset<int>)
    requires base.bits <= 32 && forall a :: a in region ==> base.Has(a)
    requires Lists(bs, region, base.start, base.start + base.Size())
    ensures |bs| == |MaximalSet(region)|
  {
    AllStartInside(base, region);
    ListSize(bs, region, base.start, base.start + base.Size());
  }

  lemma EmptyList(base: Block, region: iset<int>)
    ensures Lists([], region, base.start, base.start)
  {
  }

  lemma AllStartInside(base: Block, region: iset<int>)
    requires base.bits <= 32 && forall a :: a in region ==> base.Has(a)
    ensures forall b :: Maximal(b, region) ==> base.start <= b.start < base.start + base.Size()
  {
    forall b | Maximal(b, region)
      ensures base.start <= b.start < base.start + base.Size()
    {
      assert b.Has(b.start);
    }
  }

  lemma RangeIsCovered(rs: seq<Range>, k: nat)
    requires k < |rs|
    ensures forall a :: rs[k].start <= a <= rs[k].end ==> Covered(a, rs)
  {
  }

  /** Between range k-1 and range k (or the edge of the base) lies a gap of the region. */
  lemma GapIsFree(rs: seq<Range>, base: Block, region: iset<int>, k: nat, lo: nat, hi: nat)
    requires base.Valid() && Separated(rs, base) && k <= |rs| && lo <= hi
    requires forall a :: a in region <==> base.Has(a) && !Covered(a, rs)
    requires if k == 0 then lo == base.start else lo == rs[k - 1].end + 1
    requires if k == |rs| then hi == base.start + base.Size() - 1 else hi == rs[k].start - 1
    ensures forall a :: lo <= a <= hi ==> a in region
    ensures lo - 1 !in region && hi + 1 !in region
  {
    if k > 0 {
      RangeIsCovered(rs, k - 1);
    }
    if k < |rs| {
      RangeIsCovered(rs, k);
    }
  }

  // ----- the expansion -----

  function BlockRank(b: Block): int {
    b.bits * ADDRESSES + b.start
  }

  ghost predicate Accepted(block: NativeIPBlock) {
    && block.cidr.IPv4Text?
    && forall i :: 0 <= i < |block.excepts| ==> Acceptable(Masked(block.cidr), block.excepts[i])
  }

  /** The addresses an accepted block stands for. */
  ghost function Target(block: NativeIPBlock): iset<int>
    requires Accepted(block)
  {
    Remaining(Masked(block.cidr), AcceptedBlocks(block.excepts))
  }

  /** e is what the source reports for a block it does not accept: the CIDR's own fault, or
      that of the first except that is at fault. */
  ghost predicate Refuses(block: NativeIPBlock, e: ExpandError) {
    if !block.cidr.IPv4Text? then e == if block.cidr.NotAPrefix? then InvalidCidr else NotIPv4
    else exists i :: FirstRefused(Masked(block.cidr), block.excepts, i, e)
  }

  ghost predicate FirstRefused(base: Block, excepts: seq<CidrText>, i: nat, e: ExpandError) {
    && i < |excepts| && !Acceptable(base, excepts[i]) && e == Refusal(base, excepts[i], i)
    && forall j :: 0 <= j < i ==> Acceptable(base, excepts[j])
  }

  /** The text that an error is about has that fault, and no earlier text has one. */
  predicate Names(block: NativeIPBlock, e: ExpandError) {
    match e
    case InvalidCidr => block.cidr == NotAPrefix
    case NotIPv4 => block.cidr == IPv6Text
    case InvalidExcept(i) => InOrderUpTo(block, i) && i < |block.excepts| && block.excepts[i] == NotAPrefix
    case ExceptNotIPv4(i) => InOrderUpTo(block, i) && i < |block.excepts| && block.excepts[i] == IPv6Text
    case ExceptOutside(i) =>
      && InOrderUpTo(block, i) && i < |block.excepts| && block.excepts[i].IPv4Text?
      && !Acceptable(Masked(block.cidr), block.excepts[i])
    case TooManyPrefixes => InOrderUpTo(block, |block.excepts|)
  }

  predicate InOrderUpTo(block: NativeIPBlock, i: nat) {
    && block.cidr.IPv4Text? && i <= |block.excepts|
    && forall j :: 0 <= j < i ==> Acceptable(Masked(block.cidr), block.excepts[j])
  }

  lemma SortedMeans(bs: seq<Block>)
    requires StrictlySorted(bs, BlockRank) && forall i :: 0 <= i < |bs| ==> bs[i].start < ADDRESSES
    ensures forall i, j :: 0 <= i < j < |bs| ==>
              bs[i].bits < bs[j].bits || (bs[i].bits == bs[j].bits && bs[i].start < bs[j].start)
  {
    forall i, j | 0 <= i < j < |bs|
      ensures bs[i].bits < bs[j].bits || (bs[i].bits == bs[j].bits && bs[i].start < bs[j].start)
    {
      assert BlockRank(bs[i]) < BlockRank(bs[j]);
    }
  }

  method ParseExcepts(base: Block, excepts: seq<CidrText>) returns (r: Result<seq<Range>>)
    requires base.Valid()
    ensures r.Ok? ==> |r.value| == |excepts| && forall j :: 0 <= j < |excepts| ==>
              Acceptable(base, excepts[j]) && r.value[j] == RangeOf(Masked(excepts[j]))
    ensures r.Err? ==> exists i :: FirstRefused(base, excepts, i, r.error)
  {
    var excluded: seq<Range> := [];
    var i := 0;
    while i < |excepts|
      invariant i <= |excepts| && |excluded| == i
      invariant forall j :: 0 <= j < i ==>
                  Acceptable(base, excepts[j]) && excluded[j] == RangeOf(Masked(excepts[j]))
    {
      var raw := excepts[i];
      if raw.NotAPrefix? {
        assert FirstRefused(base, excepts, i, InvalidExcept(i));
        return Err(InvalidExcept(i));
      }
      if !raw.IPv4Text? {
        assert FirstRefused(base, excepts, i, ExceptNotIPv4(i));
        return Err(ExceptNotIPv4(i));
      }
      var except := Masked(raw);
      if !PrefixContainsPrefix(base, except) {
        assert FirstRefused(base, excepts, i, ExceptOutside(i));
        return Err(ExceptOutside(i));
      }
      if except.bits < base.bits {
        assert false;  // the check repeats half of the previous one
      }
      excluded := excluded + [RangeOf(except)];
      i := i + 1;
    }
    return Ok(excluded);
  }

  method ExpandNativeIPBlock(block: NativeIPBlock) returns (r: Result<seq<Block>>)
    ensures r.Ok? <==> Accepted(block) && |MaximalSet(Target(block))| <= MAX_EXPANSION
    ensures r.Ok? ==>
              && (forall b :: b in r.value <==> Maximal(b, Target(block)))
              && StrictlySorted(r.value, BlockRank)
    ensures r.Ok? ==> forall i, j :: 0 <= i < j < |r.value| ==>
              r.value[i].bits < r.value[j].bits
              || (r.value[i].bits == r.value[j].bits && r.value[i].start < r.value[j].start)
    ensures r.Err? && Accepted(block) ==> r.error == TooManyPrefixes
    ensures r.Err? && !Accepted(block) ==> Refuses(block, r.error)
    ensures r.Err? ==> Names(block, r.error)
  {
    if block.cidr.NotAPrefix? {
      return Err(InvalidCidr);
    }
    if !block.cidr.IPv4Text? {
      return Err(NotIPv4);
    }
    var base := Masked(block.cidr);
    MaskedIsValid(block.cidr);
    if |block.excepts| == 0 {
      WholeBase(base);
      assert AcceptedBlocks(block.excepts) == [];
      return Ok([base]);
    }
    var excluded := ParseExcepts(base, block.excepts);
    if excluded.Err? {
      return Err(excluded.error);
    }
    var sorted := SortBy(excluded.value, RangeRank);
    SortedRanges(block.excepts, base, excluded.value);
    var merged := MergeRanges(sorted, base);
    RegionByRanges(base, AcceptedBlocks(block.excepts), excluded.value, sorted);
    var ok, prefixes := WalkGaps(base, merged, Target(block));
    if !ok {
      return Err(TooManyPrefixes);
    }
    SortedList(prefixes, Target(block), base);
    var listed := SortBy(prefixes, BlockRank);
    assert forall i :: 0 <= i < |listed| ==> listed[i] in listed;
    SortedMeans(listed);
    return Ok(listed);
  }

  lemma SortedList(bs: seq<Block>, region: iset<int>, base: Block)
    requires base.bits <= 32 && (forall a :: a in region ==> base.Has(a))
    requires Lists(bs, region, base.start, base.start + base.Size())
    ensures StrictlySorted(SortBy(bs, BlockRank), BlockRank)
    ensures forall b :: b in SortBy(bs, BlockRank) <==> Maximal(b, region)
  {
    SortKeepsElements(bs, BlockRank);
    ListHasDistinctRanks(bs, region, base.start, base.start + base.Size());
    SortSorts(bs, BlockRank);
    AllStartInside(base, region);
  }

  lemma WholeBase(base: Block)
    requires base.Valid()
    ensures forall b :: b in [base] <==> Maximal(b, Remaining(base, []))
    ensures |MaximalSet(Remaining(base, []))| == 1
  {
    var region := Remaining(base, []);
    assert Fits(base, region);
    if base.bits > 0 {
      var p := base.Parent();
      ParentFits(base);
      assert p.Has(if p.start < base.start then p.start else base.start + base.Size());
    }
    forall b | Maximal(b, region)
      ensures b == base
    {
      assert b.Has(b.start);
      MaximalsAreDisjoint(b, base, b.start, region);
    }
    ListSize([base], region, base.start, base.start + base.Size());
  }

  lemma SortedRanges(excepts: seq<CidrText>, base: Block, excluded: seq<Range>)
    requires base.Valid() && |excluded| == |excepts|
    requires forall j :: 0 <= j < |excluded| ==>
               Acceptable(base, excepts[j]) && excluded[j] == RangeOf(Masked(excepts[j]))
    ensures var sorted := SortBy(excluded, RangeRank);
            && RangesIn(sorted, base)
            && SameElements(sorted, excluded)
            && (forall i, j :: 0 <= i < j < |sorted| ==> sorted[i].start <= sorted[j].start)
  {
    var sorted := SortBy(excluded, RangeRank);
    SortKeepsElements(excluded, RangeRank);
    SortSorts(excluded, RangeRank);
    forall k | 0 <= k < |sorted|
      ensures base.start <= sorted[k].start <= sorted[k].end < base.start + base.Size()
      ensures sorted[k].end < ADDRESSES
    {
      assert sorted[k] in excluded;
      var j :| 0 <= j < |excluded| && excluded[j] == sorted[k];
      AcceptableIsInside(base, excepts[j]);
    }
    forall i, j | 0 <= i < j < |sorted|
      ensures sorted[i].start <= sorted[j].start
    {
      assert RangeRank(sorted[i]) <= RangeRank(sorted[j]);
    }
  }

  lemma RegionByRanges(base: Block, excepts: seq<Block>, excluded: seq<Range>, sorted: seq<Range>)
    requires base.Valid() && |excepts| == |excluded| && SameElements(sorted, excluded)
    requires forall j :: 0 <= j < |excepts| ==> excepts[j].bits <= 32 && excluded[j] == RangeOf(excepts[j])
    ensures forall a :: a in Remaining(base, excepts) <==> base.Has(a) && !Covered(a, sorted)
  {
    forall a
      ensures (forall j :: 0 <= j < |excepts| ==> !excepts[j].Has(a)) <==> !Covered(a, sorted)
    {
      if Covered(a, sorted) {
        var i :| 0 <= i < |sorted| && sorted[i].start <= a <= sorted[i].end;
        assert sorted[i] in excluded;
        var j :| 0 <= j < |excluded| && excluded[j] == sorted[i];
        assert excepts[j].Has(a);
      }
      if j :| 0 <= j < |excepts| && excepts[j].Has(a) {
        assert excluded[j] in sorted;
      }
    }
  }

  /** The start is the last digit of the rank, in base 2^32. */
  lemma RankTellsStart(b: Block, c: Block)
    requires b.start < ADDRESSES && c.start < ADDRESSES && BlockRank(b) == BlockRank(c)
    ensures b.start == c.start
  {
    assert (b.bits - c.bits) * ADDRESSES == c.start - b.start;
  }

  lemma ListHasDistinctRanks(bs: seq<Block>, region: iset<int>, from: int, upto: int)
    requires Lists(bs, region, from, upto)
    ensures RanksDiffer(bs, BlockRank)
  {
    forall i, j | 0 <= i < j < |bs|
      ensures BlockRank(bs[i]) != BlockRank(bs[j])
    {
      assert bs[i] in bs && bs[j] in bs;
      if BlockRank(bs[i]) == BlockRank(bs[j]) {
        RankTellsStart(bs[i], bs[j]);
      }
    }
  }

  // ----- what maximality says -----

  /** The maximal prefixes cover every address of the region, and no other. */
  lemma MaximalsCover(region: iset<int>, a: nat)
    requires a < ADDRESSES
    ensures a in region <==> exists b :: Maximal(b, region) && b.Has(a)
  {
    if a in region {
      var single := Block(a, 32);
      var m := Climb(single, region);
      assert m.Has(a);
    }
  }

  /** No list of prefixes with the same union is shorter: a cover maps onto the maximal
      prefixes, each of which contains one of its members. */
  lemma {:induction false} MaximalsAreFewest(region: iset<int>, cover: set<Block>, maximals: set<Block>)
    requires forall c :: c in cover ==> Fits(c, region)
    requires forall m :: m in maximals ==> Maximal(m, region) && exists c :: c in cover && c.Has(m.start)
    ensures |maximals| <= |cover|
  {
    if maximals != {} {
      var m :| m in maximals;
      var c :| c in cover && c.Has(m.start);
      var top := Climb(c, region);
      MaximalsAreDisjoint(m, top, m.start, region);
      forall n | n in maximals - {m}
        ensures exists d :: d in cover - {c} && d.Has(n.start)
      {
        var d :| d in cover && d.Has(n.start);
        if d == c {
          MaximalsAreDisjoint(n, m, n.start, region);
        }
      }
      MaximalsAreFewest(region, cover - {c}, maximals - {m});
    }
  }

  // ----- how many there can be -----

  ghost predicate Meets(b: Block, c: Block) {
    exists a :: b.Has(a) && c.Has(a)
  }

  ghost predicate IsMet(node: Block, excepts: set<Block>) {
    exists e :: e in excepts && Meets(node, e)
  }

  ghost predicate IsCovered(node: Block, excepts: set<Block>)
    requires node.bits <= 32
  {
    exists e :: e in excepts && e.bits <= 32 && node.Inside(e)
  }

  ghost predicate AllValid(excepts: set<Block>) {
    forall e :: e in excepts ==> e.Valid()
  }

  /** The prefix-tree walk: a node no except meets is one prefix; a node inside an except is
      none; any other node is its two halves. */
  ghost function TreeWalk(node: Block, excepts: set<Block>): set<Block>
    requires node.Valid()
    decreases 32 - node.bits
  {
    if !IsMet(node, excepts) then {node}
    else if IsCovered(node, excepts) then {}
    else if node.bits == 32 then {}
    else
      HalvesFit(node);
      TreeWalk(node.Left(), excepts) + TreeWalk(node.Right(), excepts)
  }

  ghost function Outside(base: Block, excepts: set<Block>): iset<int> {
    iset a | base.Has(a) && forall e :: e in excepts ==> !e.Has(a)
  }

  lemma {:induction false} WalkFindsMaximals(base: Block, excepts: set<Block>, node: Block, b: Block)
    requires base.Valid() && node.Valid() && AllValid(excepts) && node.Inside(base)
    requires Maximal(b, Outside(base, excepts)) && b.Inside(node)
    ensures b in TreeWalk(node, excepts)
    decreases 32 - node.bits
  {
    var region := Outside(base, excepts);
    if !IsMet(node, excepts) {
      assert Fits(node, region);
      if b != node {
        ParentInsideStrictly(b, node);
      }
    } else {
      assert b.Has(b.start);
      if node.bits < 32 {
        HalvesFit(node);
        assert b != node;
        StrictlyInsideHalf(b, node);
        if b.Inside(node.Left()) {
          WalkFindsMaximals(base, excepts, node.Left(), b);
        } else {
          WalkFindsMaximals(base, excepts, node.Right(), b);
        }
      }
    }
  }

  lemma ParentInsideStrictly(b: Block, node: Block)
    requires b.Valid() && node.Valid() && b.Inside(node) && b != node
    ensures b.bits > 0 && node.bits < b.bits && b.Parent().Valid() && b.Parent().Inside(node)
  {
    ShorterIsLarger(b, node);
    ParentFits(b);
    Nested(node, b.Parent(), b.start);
  }

  lemma ShorterIsLarger(b: Block, node: Block)
    requires b.bits <= 32 && node.bits <= 32 && b.Inside(node) && b != node
    ensures node.bits < b.bits
  {
    if b.bits <= node.bits {
      Pow2Monotone(32 - node.bits, 32 - b.bits);
    }
  }

  lemma StrictlyInsideHalf(b: Block, node: Block)
    requires b.Valid() && node.Valid() && b.Inside(node) && b != node
    ensures node.bits < 32 && (b.Inside(node.Left()) || b.Inside(node.Right()))
  {
    ParentInsideStrictly(b, node);
    HalvesFit(node);
    var half := if b.start < node.Right().start then node.Left() else node.Right();
    Nested(half, b, b.start);
  }

  /** The distinct excepts that lie inside a node. */
  ghost function Within(excepts: set<Block>, node: Block): set<Block>
    requires node.bits <= 32
  {
    set e | e in excepts && e.Valid() && e.Inside(node)
  }

  /** The excepts inside a node that none of them covers lie in its two halves, each in one. */
  lemma WithinHalves(node: Block, excepts: set<Block>)
    requires node.Valid() && node.bits < 32 && AllValid(excepts)
    requires !IsCovered(node, excepts)
    ensures |Within(excepts, node)| == |Within(excepts, node.Left())| + |Within(excepts, node.Right())|
    ensures forall half :: half == node.Left() || half == node.Right() ==>
              (IsMet(half, excepts) <==> Within(excepts, half) != {})
  {
    HalvesFit(node);
    var l, r := Within(excepts, node.Left()), Within(excepts, node.Right());
    forall e | e in excepts && e.Inside(node)
      ensures e in l || e in r
    {
      StrictlyInsideHalf(e, node);
    }
    assert Within(excepts, node) == l + r;
    assert l !! r;
    forall half, e | (half == node.Left() || half == node.Right()) && e in excepts && Meets(half, e)
      ensures e in Within(excepts, half)
    {
      var a :| half.Has(a) && e.Has(a);
      if e.bits <= half.bits {
        Nested(e, half, a);
        assert node.Has(a);
        if e.bits <= node.bits {
          Nested(e, node, a);
        } else {
          Nested(node, e, a);
          StrictlyInsideHalf(e, node);
        }
      } else {
        Nested(half, e, a);
      }
    }
    forall half, e | (half == node.Left() || half == node.Right()) && e in Within(excepts, half)
      ensures Meets(half, e)
    {
      assert half.Has(e.start) && e.Has(e.start);
    }
  }

  /** The shape of a walk: a free node, a node taken by an except, or a node walked half by half. */
  datatype Shape = Free | Taken | Fork(left: Shape, right: Shape) {
    function Prefixes(): nat {
      match this
      case Free => 1
      case Taken => 0
      case Fork(l, r) => l.Prefixes() + r.Prefixes()
    }

    function Excepts(): nat {
      match this
      case Free => 0
      case Taken => 1
      case Fork(l, r) => l.Excepts() + r.Excepts()
    }

    /** At most h levels, and no fork between two free halves. */
    predicate Fits(h: nat) {
      Fork? ==> h > 0 && !(left.Free? && right.Free?) && left.Fits(h - 1) && right.Fits(h - 1)
    }
  }

  lemma {:induction false} SomeExcept(t: Shape, h: nat)
    requires t.Fits(h) && !t.Free?
    ensures t.Excepts() >= 1
  {
    if t.Fork? {
      if t.left.Free? {
        SomeExcept(t.right, h - 1);
      } else {
        SomeExcept(t.left, h - 1);
      }
    }
  }

  /** k * h by repeated addition, so that the bounds below stay linear. */
  function Times(k: nat, h: nat): nat {
    if h == 0 then 0 else k + Times(k, h - 1)
  }

  lemma {:induction false} TimesAdds(k: nat, l: nat, h: nat)
    ensures Times(k + l, h) == Times(k, h) + Times(l, h)
  {
    if h > 0 {
      TimesAdds(k, l, h - 1);
    }
  }

  lemma {:induction false} TimesIsProduct(k: nat, h: nat)
    ensures Times(k, h) == k * h
  {
    if h > 0 {
      TimesIsProduct(k, h - 1);
    }
  }

  /** At most one prefix per except and level. */
  lemma {:induction false} PerLevel(t: Shape, h: nat)
    requires t.Fits(h) && !t.Free?
    ensures t.Prefixes() <= Times(t.Excepts(), h)
  {
    if t.Fork? {
      SomeExcept(t, h);
      if !t.left.Free? { PerLevel(t.left, h - 1); }
      if !t.right.Free? { PerLevel(t.right, h - 1); }
      TimesAdds(t.left.Excepts(), t.right.Excepts(), h - 1);
    }
  }

  /** At most half of the addresses. */
  lemma {:induction false} PerAddress(t: Shape, h: nat)
    requires t.Fits(h) && !t.Free?
    ensures 2 * t.Prefixes() <= Pow2(h)
  {
    if t.Fork? {
      if !t.left.Free? { PerAddress(t.left, h - 1); }
      if !t.right.Free? { PerAddress(t.right, h - 1); }
      if h > 1 { Pow2Monotone(1, h - 1); }
    }
  }

  /** One prefix per except and level, with the top level shared by all. */
  lemma {:induction false} SharedTop(t: Shape, h: nat)
    requires t.Fits(h) && !t.Free? && h > 0
    ensures t.Prefixes() <= Times(t.Excepts(), h - 1) + 1
  {
    if t.Fork? {
      SomeExcept(t, h);
      if !t.left.Free? && !t.right.Free? {
        PerLevel(t.left, h - 1);
        PerLevel(t.right, h - 1);
        TimesAdds(t.left.Excepts(), t.right.Excepts(), h - 1);
      } else {
        var half := if t.left.Free? then t.right else t.left;
        if h > 1 {
          SharedTop(half, h - 1);
        } else {
          PerAddress(half, 0);
        }
      }
    }
  }

  function Slope(h: nat, j: nat): nat {
    if h <= j + 2 then 0 else h - 2 - j
  }

  /** A straight line in the number k of excepts. */
  function Line(k: nat, h: nat, j: nat): nat {
    Times(k, Slope(h, j)) + 2 * Pow2(j)
  }

  lemma FlatLine(n: nat, k: nat, h: nat, j: nat)
    requires Slope(h, j) == 0 && 2 * n <= Pow2(h)
    ensures n <= Line(k, h, j)
  {
    Pow2Monotone(h, j + 2);
  }

  lemma LinesAdd(k: nat, l: nat, h: nat, j: nat)
    requires h > 0 && j > 0
    ensures Line(k, h - 1, j - 1) + Line(l, h - 1, j - 1) == Line(k + l, h, j)
  {
    TimesAdds(k, l, Slope(h, j));
  }

  /** Two halves below the lines of their level are together below the line of theirs. */
  lemma ForkedLine(n: nat, m: nat, k: nat, l: nat, h: nat, j: nat)
    requires h > 0 && j > 0 && n <= Line(k, h - 1, j - 1) && m <= Line(l, h - 1, j - 1)
    ensures n + m <= Line(k + l, h, j)
  {
    LinesAdd(k, l, h, j);
  }

  lemma ForkedTop(n: nat, m: nat, k: nat, l: nat, h: nat)
    requires h > 2 && n <= Times(k, h - 2) + 1 && m <= Times(l, h - 2) + 1
    ensures n + m <= Line(k + l, h, 0)
  {
    TimesAdds(k, l, h - 2);
  }

  lemma HalfLine(n: nat, k: nat, h: nat, j: nat)
    requires h > 0 && k > 0 && Slope(h, j) > 0 && n <= Line(k, h - 1, j)
    ensures n + 1 <= Line(k, h, j)
  {
    assert Times(k, Slope(h, j)) == k + Times(k, Slope(h, j) - 1);
  }

  /** The half that is not free. */
  lemma OneFree(t: Shape, h: nat) returns (half: Shape)
    requires t.Fits(h) && t.Fork? && (t.left.Free? || t.right.Free?)
    ensures half < t && !half.Free? && half.Fits(h - 1)
    ensures t.Prefixes() == half.Prefixes() + 1 && t.Excepts() == half.Excepts() >= 1
  {
    half := if t.left.Free? then t.right else t.left;
    SomeExcept(half, h - 1);
  }

  lemma BelowHalf(t: Shape, half: Shape, h: nat, j: nat)
    requires t.Prefixes() == half.Prefixes() + 1 && t.Excepts() == half.Excepts() >= 1
    requires h > 0 && Slope(h, j) > 0 && half.Prefixes() <= Line(half.Excepts(), h - 1, j)
    ensures t.Prefixes() <= Line(t.Excepts(), h, j)
  {
    hide Line, Shape.Prefixes, Shape.Excepts;
    HalfLine(half.Prefixes(), half.Excepts(), h, j);
  }

  lemma BelowFork(l: Shape, r: Shape, h: nat, j: nat)
    requires h > 0 && j > 0
    requires l.Prefixes() <= Line(l.Excepts(), h - 1, j - 1) && r.Prefixes() <= Line(r.Excepts(), h - 1, j - 1)
    ensures Fork(l, r).Prefixes() <= Line(Fork(l, r).Excepts(), h, j)
  {
    hide Line;
    ForkedLine(l.Prefixes(), r.Prefixes(), l.Excepts(), r.Excepts(), h, j);
  }

  lemma BelowFlat(t: Shape, h: nat, j: nat)
    requires t.Fits(h) && !t.Free? && Slope(h, j) == 0
    ensures t.Prefixes() <= Line(t.Excepts(), h, j)
  {
    hide Line, Shape.Prefixes, Shape.Excepts, Shape.Fits;
    PerAddress(t, h);
    FlatLine(t.Prefixes(), t.Excepts(), h, j);
  }

  lemma TakenBelow(h: nat, j: nat)
    ensures Taken.Prefixes() <= Line(Taken.Excepts(), h, j)
  {
  }

  /** For each j a straight line in the number of excepts, which no shape of height h exceeds. */
  lemma {:induction false} BelowLine(t: Shape, h: nat, j: nat)
    requires t.Fits(h) && !t.Free?
    ensures t.Prefixes() <= Line(t.Excepts(), h, j)
  {
    hide Line, Shape.Prefixes, Shape.Excepts;
    if Slope(h, j) == 0 {
      BelowFlat(t, h, j);
    } else if t.Taken? {
      TakenBelow(h, j);
    } else if t.left.Free? || t.right.Free? {
      var half := OneFree(t, h);
      BelowLine(half, h - 1, j);
      BelowHalf(t, half, h, j);
    } else if j > 0 {
      BelowLine(t.left, h - 1, j - 1);
      BelowLine(t.right, h - 1, j - 1);
      BelowFork(t.left, t.right, h, j);
    } else {
      BelowTop(t, h);
    }
  }

  lemma BelowTop(t: Shape, h: nat)
    requires t.Fits(h) && h > 2 && t.Fork? && !t.left.Free? && !t.right.Free?
    ensures t.Prefixes() <= Line(t.Excepts(), h, 0)
  {
    hide Line, Times;
    SharedTop(t.left, h - 1);
    SharedTop(t.right, h - 1);
    ForkedTop(t.left.Prefixes(), t.right.Prefixes(), t.left.Excepts(), t.right.Excepts(), h);
  }

  /** One except at the bottom of h levels, and a free half on every level above it. */
  function Spine(h: nat): (t: Shape)
    ensures t.Fits(h) && !t.Free? && t.Excepts() == 1 && t.Prefixes() == h
  {
    if h == 0 then Taken else Fork(Spine(h - 1), Free)
  }

  lemma HalvesInRange(k: nat, j: nat)
    requires Pow2(j) <= k <= Pow2(j + 1)
    ensures j == 0 ==> 1 <= k <= 2
    ensures j > 0 ==> Pow2(j - 1) <= k / 2 <= Pow2(j) && Pow2(j - 1) <= k - k / 2 <= Pow2(j)
  {
  }

  lemma BottomLine(k: nat, h: nat)
    requires 1 <= k <= 2 && h >= 2
    ensures Line(k, h, 0) == if k == 1 then h else 2 * (h - 1)
  {
    TimesIsProduct(k, h - 2);
  }

  lemma BottomMet(k: nat, h: nat) returns (t: Shape)
    requires 1 <= k <= 2 && h >= 2
    ensures t.Fits(h) && !t.Free? && t.Excepts() == k && t.Prefixes() == Line(k, h, 0)
  {
    hide Line;
    t := if k == 1 then Spine(h) else Fork(Spine(h - 1), Spine(h - 1));
    BottomLine(k, h);
  }

  lemma ForkMet(l: Shape, r: Shape, k: nat, m: nat, h: nat, j: nat)
    requires h > 0 && j > 0 && l.Fits(h - 1) && r.Fits(h - 1) && !l.Free? && !r.Free?
    requires l.Excepts() == k && l.Prefixes() == Line(k, h - 1, j - 1)
    requires r.Excepts() == m && r.Prefixes() == Line(m, h - 1, j - 1)
    ensures Fork(l, r).Fits(h) && Fork(l, r).Excepts() == k + m && Fork(l, r).Prefixes() == Line(k + m, h, j)
  {
    hide Line;
    LinesAdd(k, m, h, j);
  }

  /** Between 2^j and 2^(j+1) excepts the line is met: no lower bound holds there. */
  lemma {:induction false} LineIsMet(k: nat, h: nat, j: nat) returns (t: Shape)
    requires Pow2(j) <= k <= Pow2(j + 1) && h >= j + 2
    ensures t.Fits(h) && !t.Free? && t.Excepts() == k && t.Prefixes() == Line(k, h, j)
  {
    hide Pow2, Line, Shape.Fits, Shape.Excepts, Shape.Prefixes;
    HalvesInRange(k, j);
    if j == 0 {
      t := BottomMet(k, h);
    } else {
      var l := LineIsMet(k / 2, h - 1, j - 1);
      var r := LineIsMet(k - k / 2, h - 1, j - 1);
      ForkMet(l, r, k / 2, k - k / 2, h, j);
      t := Fork(l, r);
    }
  }

  ghost function ShapeOf(node: Block, excepts: set<Block>): Shape
    requires node.Valid()
    decreases 32 - node.bits
  {
    if !IsMet(node, excepts) then Free
    else if IsCovered(node, excepts) || node.bits == 32 then Taken
    else
      HalvesFit(node);
      Fork(ShapeOf(node.Left(), excepts), ShapeOf(node.Right(), excepts))
  }

  lemma SomeHalfIsMet(node: Block, excepts: set<Block>)
    requires node.Valid() && node.bits < 32 && IsMet(node, excepts)
    ensures node.Left().Valid() && node.Right().Valid()
    ensures IsMet(node.Left(), excepts) || IsMet(node.Right(), excepts)
  {
    HalvesFit(node);
    var e :| e in excepts && Meets(node, e);
    var a :| node.Has(a) && e.Has(a);
    assert node.Left().Has(a) || node.Right().Has(a);
  }

  lemma {:induction false} ShapeFits(node: Block, excepts: set<Block>)
    requires node.Valid()
    ensures ShapeOf(node, excepts).Fits(32 - node.bits)
    decreases 32 - node.bits
  {
    hide Pow2, Aligned, Meets, IsMet, IsCovered;
    if IsMet(node, excepts) && !IsCovered(node, excepts) && node.bits < 32 {
      SomeHalfIsMet(node, excepts);
      ShapeFits(node.Left(), excepts);
      ShapeFits(node.Right(), excepts);
    }
  }

  lemma {:induction false} ShapeCounts(node: Block, excepts: set<Block>)
    requires node.Valid()
    ensures |TreeWalk(node, excepts)| <= ShapeOf(node, excepts).Prefixes()
    decreases 32 - node.bits
  {
    hide Pow2, Aligned, Meets, IsMet, IsCovered;
    if IsMet(node, excepts) && !IsCovered(node, excepts) && node.bits < 32 {
      HalvesFit(node);
      ShapeCounts(node.Left(), excepts);
      ShapeCounts(node.Right(), excepts);
      UnionSize(TreeWalk(node.Left(), excepts), TreeWalk(node.Right(), excepts));
    }
  }

  lemma {:induction false} ShapeExcepts(node: Block, excepts: set<Block>)
    requires node.Valid() && AllValid(excepts)
    requires IsMet(node, excepts) ==> Within(excepts, node) != {}
    ensures ShapeOf(node, excepts).Excepts() <= |Within(excepts, node)|
    decreases 32 - node.bits
  {
    hide Pow2, Aligned, Meets, IsCovered;
    if IsMet(node, excepts) && !IsCovered(node, excepts) && node.bits < 32 {
      SomeHalfIsMet(node, excepts);
      WithinHalves(node, excepts);
      ShapeExcepts(node.Left(), excepts);
      ShapeExcepts(node.Right(), excepts);
    }
  }

  /** The number of maximal prefixes left by k distinct excepts is at most 25 k + 64. */
  lemma FewMaximals(base: Block, excepts: seq<Block>)
    requires base.Valid() && (forall i :: 0 <= i < |excepts| ==> excepts[i].Valid())
    ensures |MaximalSet(Remaining(base, excepts))| <= 25 * |Elements(excepts)| + 64
  {
    var es := Elements(excepts);
    var region := Remaining(base, excepts);
    assert region == Outside(base, es);
    forall b | b in MaximalSet(region)
      ensures b in TreeWalk(base, es)
    {
      InMaximalSet(b, region);
      InsideBase(base, region, b);
      WalkFindsMaximals(base, es, base, b);
    }
    SubsetSize(MaximalSet(region), TreeWalk(base, es));
    WalkIsSmall(base, es);
  }

  lemma WalkIsSmall(base: Block, es: set<Block>)
    requires base.Valid() && AllValid(es)
    ensures |TreeWalk(base, es)| <= 25 * |es| + 64
  {
    if IsMet(base, es) {
      if IsCovered(base, es) {
        return;
      }
      MetOrCovered(base, es);
    }
    hide TreeWalk, ShapeOf;
    ShapeFits(base, es);
    ShapeCounts(base, es);
    ShapeExcepts(base, es);
    SubsetSize(Within(es, base), es);
    ShapeIsSmall(ShapeOf(base, es), 32 - base.bits, |es|);
  }

  lemma ShapeIsSmall(t: Shape, h: nat, k: nat)
    requires t.Fits(h) && h <= 32 && t.Excepts() <= k
    ensures t.Prefixes() <= 25 * k + 64
  {
    if t.Free? {
      return;
    }
    BelowLine(t, h, 5);
    assert Pow2(5) == 32;
    TimesIsMonotone(t.Excepts(), k, Slope(h, 5), 25);
    TimesIsProduct(k, 25);
  }

  /** An except that meets a node it does not cover lies inside it. */
  lemma MetOrCovered(node: Block, excepts: set<Block>)
    requires node.Valid() && AllValid(excepts) && IsMet(node, excepts) && !IsCovered(node, excepts)
    ensures Within(excepts, node) != {}
  {
    var e :| e in excepts && Meets(node, e);
    var a :| node.Has(a) && e.Has(a);
    if e.bits <= node.bits {
      Nested(e, node, a);
    } else {
      Nested(node, e, a);
      assert e in Within(excepts, node);
    }
  }

  lemma {:induction false} TimesIsMonotone(k: nat, l: nat, w: nat, v: nat)
    requires k <= l && w <= v
    ensures Times(k, w) <= Times(l, v)
  {
    if w > 0 {
      TimesIsMonotone(k, l, w - 1, v - 1);
    }
  }

  lemma InsideBase(base: Block, region: iset<int>, b: Block)
    requires base.Valid() && (forall a :: a in region ==> base.Has(a)) && Fits(b, region)
    ensures b.Inside(base)
  {
    assert b.Has(b.start) && b.Has(b.start + b.Size() - 1);
  }

  lemma AtMostTheLine(block: NativeIPBlock)
    requires Accepted(block)
    ensures |MaximalSet(Target(block))| <= 25 * |block.excepts| + 64
  {
    var base, excepts := Masked(block.cidr), AcceptedBlocks(block.excepts);
    MaskedIsValid(block.cidr);
    forall i | 0 <= i < |excepts|
      ensures excepts[i].Valid()
    {
      MaskedIsValid(block.excepts[i]);
    }
    FewMaximals(base, excepts);
    FewElements(excepts);
  }

  /** A block with at most 38 excepts is never refused for its size. */
  lemma UpTo38ExceptsExpand(block: NativeIPBlock)
    requires Accepted(block) && |block.excepts| <= 38
    ensures |MaximalSet(Target(block))| <= MAX_EXPANSION
  {
    AtMostTheLine(block);
  }
}
