/**
 Writing an address range as prefixes: the greedy loop of the ipBlock expansion.
 The loop is specified by maximality: it lists exactly the prefixes that fit in
 the range and whose parent does not.
*/
module RangeSplit {
  import opened Cidr

  const MAX_EXPANSION := 1024

  // ----- what the result must be -----

  ghost predicate Fits(b: Block, region: iset<int>) {
    b.Valid() && forall a :: b.Has(a) ==> a in region
  }

  /** b fits in the region and its parent does not. */
  ghost predicate Maximal(b: Block, region: iset<int>) {
    Fits(b, region) && (b.bits > 0 ==> !Fits(b.Parent(), region))
  }

  predicate Between(a: int, lo: int, hi: int) {
    lo <= a <= hi
  }

  ghost function Interval(lo: int, hi: int): iset<int> {
    iset a | Between(a, lo, hi)
  }

  /** The addresses of the base that no except covers. */
  ghost function Remaining(base: Block, excepts: seq<Block>): iset<int> {
    iset a | base.Has(a) && forall i :: 0 <= i < |excepts| ==> !excepts[i].Has(a)
  }

  /** Maximal prefixes that share an address are the same prefix. */
  lemma MaximalsAreDisjoint(b: Block, c: Block, a: int, region: iset<int>)
    requires Maximal(b, region) && Maximal(c, region) && b.Has(a) && c.Has(a)
    ensures b == c
  {
    var big, small := if b.bits <= c.bits then b else c, if b.bits <= c.bits then c else b;
    Nested(big, small, a);
    if big.bits < small.bits {
      ParentFits(small);
      Nested(big, small.Parent(), a);
    }
  }

  /** Every fitting prefix lies inside a maximal one. */
  lemma {:induction false} Climb(b: Block, region: iset<int>) returns (m: Block)
    requires Fits(b, region)
    ensures Maximal(m, region) && b.Inside(m)
    decreases b.bits
  {
    if b.bits == 0 || !Fits(b.Parent(), region) {
      m := b;
    } else {
      ParentFits(b);
      m := Climb(b.Parent(), region);
    }
  }

  // ----- bit arithmetic of the splitting loop -----

  /** bits.Len64 */
  function Len64(n: nat): nat {
    if n == 0 then 0 else 1 + Len64(n / 2)
  }

  /** x & -x on an unsigned word: the lowest set bit, and 0 for 0. */
  function LowestBit(x: nat): nat {
    if x == 0 then 0 else if x % 2 == 1 then 1 else 2 * LowestBit(x / 2)
  }

  /** The number of trailing zero bits, and 32 for 0: the alignment of an address. */
  function Zeros(x: nat): nat {
    if x == 0 then 32 else if x % 2 == 1 then 0 else 1 + Zeros(x / 2)
  }

  lemma {:induction false} Len64Bounds(n: nat)
    requires n > 0
    ensures Len64(n) >= 1 && Pow2(Len64(n) - 1) <= n < Pow2(Len64(n))
  {
    if n > 1 {
      Len64Bounds(n / 2);
    }
  }

  lemma {:induction false} Len64OfPow2(e: nat)
    ensures Len64(Pow2(e)) == e + 1
  {
    if e > 0 {
      Len64OfPow2(e - 1);
    }
  }

  lemma Len64Below(n: nat, e: nat)
    requires n < Pow2(e)
    ensures Len64(n) <= e
  {
    if n > 0 {
      Len64Bounds(n);
      if Len64(n) > e {
        Pow2Monotone(e, Len64(n) - 1);
      }
    }
  }

  lemma {:induction false} ZerosAlign(x: nat)
    requires 0 < x
    ensures LowestBit(x) == Pow2(Zeros(x)) && Pow2(Zeros(x)) <= x
    ensures Aligned(x, Zeros(x)) && !Aligned(x, Zeros(x) + 1)
  {
    if x % 2 == 0 {
      ZerosAlign(x / 2);
    }
  }

  lemma {:induction false} AlignedZeros(x: nat, e: nat)
    requires 0 < x && Aligned(x, e)
    ensures e <= Zeros(x)
  {
    if e > 0 {
      AlignedZeros(x / 2, e - 1);
    }
  }

  /** The block the loop emits at `start`: as large as alignment and remaining length allow. */
  ghost function Greedy(start: nat, hi: nat): (e: nat)
    requires start <= hi
  {
    var len := Len64(hi - start + 1);
    if Zeros(start) < len - 1 then Zeros(start) else len - 1
  }

  /** Where the splitting loop stands inside [lo, hi] with `count` blocks out: nothing
      emitted yet; or rising (all that was emitted is less than the alignment reached); or
      falling (all that remains is less than the alignment reached). */
  ghost predicate Phase(lo: nat, start: nat, hi: nat, count: nat)
    requires start <= hi
  {
    || (start == lo && count == 0)
    || (0 < start && start - lo < Pow2(Zeros(start)) && count <= Zeros(start))
    || (0 < start && hi - start + 1 < Pow2(Zeros(start)) && count + Len64(hi - start + 1) <= 62)
  }

  lemma GreedyLength(start: nat, hi: nat)
    requires start <= hi < ADDRESSES
    ensures Len64(hi - start + 1) <= 33 && Greedy(start, hi) <= 32
    ensures start + Pow2(Greedy(start, hi)) <= hi + 1
  {
    Len64Fits(hi - start + 1);
    Len64Bounds(hi - start + 1);
    Pow2Monotone(Greedy(start, hi), Len64(hi - start + 1) - 1);
  }

  lemma Len64Fits(n: nat)
    requires n <= ADDRESSES
    ensures Len64(n) <= 33
  {
    Pow2Of32();
    assert Pow2(33) == 2 * ADDRESSES;
    Len64Below(n, 33);
  }

  lemma GreedyAligned(start: nat, hi: nat)
    requires start <= hi < ADDRESSES
    ensures Aligned(start, Greedy(start, hi))
    ensures start > 0 ==> Zeros(start) <= 31
  {
    ZeroIsAligned(Greedy(start, hi));
    if start > 0 {
      ZerosAlign(start);
      AlignedFiner(start, Greedy(start, hi), Zeros(start));
      ZerosAreFew(start);
    }
  }

  lemma ZerosAreFew(x: nat)
    requires 0 < x < ADDRESSES
    ensures Zeros(x) <= 31
  {
    ZerosAlign(x);
    Pow2Of32();
    if Zeros(x) > 31 {
      Pow2Monotone(32, Zeros(x));
    }
  }

  lemma GreedyFits(start: nat, hi: nat)
    requires start <= hi < ADDRESSES
    ensures var e := Greedy(start, hi);
            && e <= 32
            && start + Pow2(e) <= hi + 1
            && Block(start, 32 - e).Valid()
            && Aligned(start, e)
            && (start > 0 ==> Zeros(start) <= 31)
            && Len64(hi - start + 1) <= 33
  {
    hide Greedy, Aligned, Pow2;
    GreedyLength(start, hi);
    GreedyAligned(start, hi);
  }

  /** A block shorter than its alignment: its parent starts here too, and does not end in the range. */
  lemma EndStops(lo: nat, start: nat, hi: nat, e: nat)
    requires lo <= start <= hi < ADDRESSES && e < 32 && Aligned(start, e + 1) && Block(start, 32 - e).Valid()
    requires hi + 1 < start + 2 * Pow2(e)
    ensures !Fits(Block(start, 32 - e).Parent(), Interval(lo, hi))
  {
    var p := Block(start, 32 - e).Parent();
    FloorOfAligned(start, e + 1);
    assert p.Has(hi + 1) && !Between(hi + 1, lo, hi);
  }

  /** A block as long as its alignment: its parent starts before, out of the range. */
  lemma StartStops(lo: nat, start: nat, hi: nat, e: nat)
    requires lo <= start <= hi < ADDRESSES && e < 32 && Block(start, 32 - e).Valid() && !Aligned(start, e + 1)
    requires start - lo < Pow2(e)
    ensures !Fits(Block(start, 32 - e).Parent(), Interval(lo, hi))
  {
    var b := Block(start, 32 - e);
    var p := b.Parent();
    ParentFits(b);
    FloorIsAligned(start, e + 1);
    assert p.start + Pow2(e) == start;
    assert p.Has(lo - 1) && !Between(lo - 1, lo, hi);
  }

  lemma GreedyIsMaximal(lo: nat, start: nat, hi: nat, count: nat)
    requires lo <= start <= hi < ADDRESSES && Phase(lo, start, hi, count)
    ensures Greedy(start, hi) <= 32 && Maximal(Block(start, 32 - Greedy(start, hi)), Interval(lo, hi))
  {
    hide Phase, Aligned, Zeros, Len64, Pow2;
    GreedyFits(start, hi);
    var e := Greedy(start, hi);
    var b := Block(start, 32 - e);
    assert Fits(b, Interval(lo, hi));
    if e < 32 {
      assert !Fits(b.Parent(), Interval(lo, hi)) by {
        if e < Zeros(start) {
          AlignedAtZeros(start, e + 1);
          LengthStops(start, hi);
          EndStops(lo, start, hi, e);
        } else {
          AlignmentStops(lo, start, hi, count);
          StartStops(lo, start, hi, e);
        }
      }
    }
  }

  /** Where the remaining length is what limits the block, less than two such blocks remain. */
  lemma LengthStops(start: nat, hi: nat)
    requires start <= hi && Greedy(start, hi) < Zeros(start)
    ensures Len64(hi - start + 1) == Greedy(start, hi) + 1
    ensures hi - start + 1 < 2 * Pow2(Greedy(start, hi))
  {
    Len64Bounds(hi - start + 1);
  }

  lemma AlignedAtZeros(start: nat, e: nat)
    requires e <= Zeros(start)
    ensures Aligned(start, e)
  {
    if start > 0 {
      ZerosAlign(start);
      AlignedFiner(start, e, Zeros(start));
    } else {
      ZeroIsAligned(e);
    }
  }

  /** Where the alignment is what limits the block, all that was emitted is shorter than it. */
  lemma AlignmentStops(lo: nat, start: nat, hi: nat, count: nat)
    requires lo <= start <= hi < ADDRESSES && Phase(lo, start, hi, count)
    requires Greedy(start, hi) == Zeros(start) < 32
    ensures !Aligned(start, Zeros(start) + 1) && start - lo < Pow2(Zeros(start))
  {
    ZerosAlign(start);
    GreedyFits(start, hi);
  }

  /** A falling step leaves less than its own size. */
  lemma FallingStep(start: nat, hi: nat)
    requires start <= hi < ADDRESSES && Greedy(start, hi) < Zeros(start)
    ensures var e := Greedy(start, hi);
            var next := start + Pow2(e);
            && next <= hi + 1
            && (next <= hi ==> e <= Zeros(next) && hi - next + 1 < Pow2(Zeros(next)) && Len64(hi - next + 1) <= e)
  {
    hide Greedy, Zeros, Aligned, Len64, Pow2;
    GreedyFits(start, hi);
    LengthStops(start, hi);
    var e := Greedy(start, hi);
    AlignedNext(start, e);
    if start + Pow2(e) <= hi {
      RestOfFall(start + Pow2(e), hi, e);
    }
  }

  lemma RestOfFall(next: nat, hi: nat, e: nat)
    requires 0 < next <= hi && Aligned(next, e) && hi - next + 1 < Pow2(e)
    ensures e <= Zeros(next) && hi - next + 1 < Pow2(Zeros(next)) && Len64(hi - next + 1) <= e
  {
    hide Zeros, Aligned, Len64, Pow2;
    AlignedZeros(next, e);
    Pow2Monotone(e, Zeros(next));
    Len64Below(hi - next + 1, e);
  }

  /** A rising step at least doubles the alignment. */
  lemma RisingStep(start: nat, hi: nat)
    requires 0 < start <= hi < ADDRESSES && Greedy(start, hi) == Zeros(start)
    ensures var e := Greedy(start, hi);
            var next := start + Pow2(e);
            next <= hi + 1 && e < Zeros(next) && 2 * Pow2(e) <= Pow2(Zeros(next))
  {
    hide Greedy, Zeros, Aligned, Len64, LowestBit;
    GreedyFits(start, hi);
    var e := Greedy(start, hi);
    ZerosAlign(start);
    OddPlusOne(start, e);
    AlignedZeros(start + Pow2(e), e + 1);
    Pow2Monotone(e + 1, Zeros(start + Pow2(e)));
  }

  lemma FallingPhase(lo: nat, start: nat, hi: nat, count: nat)
    requires lo <= start <= hi < ADDRESSES && Phase(lo, start, hi, count)
    requires Greedy(start, hi) < Zeros(start)
    ensures var next := start + Pow2(Greedy(start, hi));
            && (next <= hi ==> Phase(lo, next, hi, count + 1))
            && (next == hi + 1 ==> count + 1 <= 62)
  {
    hide Zeros, Len64, Pow2;
    GreedyFits(start, hi);
    FallingStep(start, hi);
    var len := Len64(hi - start + 1);
    assert len >= 1 && Greedy(start, hi) == len - 1;
    assert count + len <= 62;
  }

  lemma RisingPhase(lo: nat, start: nat, hi: nat, count: nat)
    requires lo <= start <= hi < ADDRESSES && Phase(lo, start, hi, count)
    requires Greedy(start, hi) == Zeros(start) && start > 0
    ensures var next := start + Pow2(Greedy(start, hi));
            && (next <= hi ==> Phase(lo, next, hi, count + 1))
            && (next == hi + 1 ==> count + 1 <= 62)
  {
    hide Zeros, Len64, Pow2;
    GreedyFits(start, hi);
    RisingStep(start, hi);
  }

  lemma GreedyPhase(lo: nat, start: nat, hi: nat, count: nat)
    requires lo <= start <= hi < ADDRESSES && Phase(lo, start, hi, count)
    ensures var next := start + Pow2(Greedy(start, hi));
            && next <= hi + 1
            && (next <= hi ==> Phase(lo, next, hi, count + 1))
            && (next == hi + 1 ==> count + 1 <= 62)
  {
    hide Phase, Len64, Aligned, LowestBit;
    GreedyFits(start, hi);
    if Greedy(start, hi) < Zeros(start) {
      FallingPhase(lo, start, hi, count);
    } else if start > 0 {
      RisingPhase(lo, start, hi, count);
    } else {
      WholeStep(lo, hi, count);
    }
  }

  /** A block of all addresses is the only one. */
  lemma WholeStep(lo: nat, hi: nat, count: nat)
    requires lo <= 0 <= hi < ADDRESSES && Phase(lo, 0, hi, count) && Greedy(0, hi) >= Zeros(0)
    ensures Pow2(Greedy(0, hi)) == hi + 1 && count == 0
  {
    GreedyFits(0, hi);
    Pow2Of32();
  }

  /** Adding the lowest set bit raises the alignment. */
  lemma {:induction false} OddPlusOne(x: nat, e: nat)
    requires Aligned(x, e) && !Aligned(x, e + 1)
    ensures Aligned(x + Pow2(e), e + 1)
  {
    if e > 0 {
      OddPlusOne(x / 2, e - 1);
    }
  }

  // ----- the splitting loop -----

  /** bs lists, in address order, the maximal prefixes of the region that start in [from, upto). */
  ghost predicate Lists(bs: seq<Block>, region: iset<int>, from: int, upto: int) {
    && (forall b :: b in bs <==> Maximal(b, region) && from <= b.start < upto)
    && (forall i, j :: 0 <= i < j < |bs| ==> bs[i].start < bs[j].start)
  }

  lemma ListOneMore(bs: seq<Block>, b: Block, region: iset<int>, from: int)
    requires from <= b.start && Lists(bs, region, from, b.start) && Maximal(b, region)
    ensures Lists(bs + [b], region, from, b.start + b.Size())
  {
    forall c | Maximal(c, region) && b.start <= c.start < b.start + b.Size()
      ensures c == b
    {
      MaximalsAreDisjoint(b, c, c.start, region);
    }
  }

  /** The size the loop body computes: alignment of the start, capped by the largest power of
      two that still fits. */
  function SplitSize(start: nat, end: nat): nat
    requires start <= end
  {
    var alignment := if start == 0 then ADDRESSES else LowestBit(start);
    var remaining := end - start + 1;
    var largestRemaining := if Len64(remaining) == 0 then 0 else Pow2(Len64(remaining) - 1);
    if largestRemaining < alignment then largestRemaining else alignment
  }

  lemma AlignmentIsPower(start: nat)
    ensures (if start == 0 then ADDRESSES else LowestBit(start)) == Pow2(Zeros(start))
  {
    if start > 0 {
      ZerosAlign(start);
    } else {
      Pow2Of32();
    }
  }

  lemma LargestRemaining(remaining: nat)
    requires remaining > 0
    ensures Len64(remaining) >= 1
    ensures (if Len64(remaining) == 0 then 0 else Pow2(Len64(remaining) - 1)) == Pow2(Len64(remaining) - 1)
  {
    Len64Bounds(remaining);
  }

  lemma SizeIsGreedy(start: nat, end: nat)
    requires start <= end < ADDRESSES
    ensures SplitSize(start, end) == Pow2(Greedy(start, end))
  {
    hide Len64, Zeros, LowestBit, Pow2;
    LargestRemaining(end - start + 1);
    AlignmentIsPower(start);
    SmallerPower(Zeros(start), Len64(end - start + 1) - 1);
  }

  lemma EmittedSize(start: nat, end: nat)
    requires start <= end < ADDRESSES
    ensures var size := SplitSize(start, end);
            size == Pow2(Greedy(start, end)) && Len64(size) == Greedy(start, end) + 1 <= 33 && start + size <= end + 1
  {
    hide SplitSize, Greedy, Len64, Pow2;
    SizeIsGreedy(start, end);
    Len64OfPow2(Greedy(start, end));
    GreedyFits(start, end);
  }

  lemma EmittedPhase(first: nat, start: nat, end: nat, count: nat)
    requires first <= start <= end < ADDRESSES && Phase(first, start, end, count)
    ensures var next := start + Pow2(Greedy(start, end));
            && (next <= end ==> Phase(first, next, end, count + 1))
            && count + 1 <= 62
  {
    hide Phase, Greedy, Len64;
    GreedyPhase(first, start, end, count);
    var next := start + Pow2(Greedy(start, end));
    if next <= end {
      PhaseCount(first, next, end, count + 1);
    }
  }

  lemma EmittedBlock(first: nat, start: nat, end: nat, added: seq<Block>)
    requires first <= start <= end < ADDRESSES && Phase(first, start, end, |added|)
    requires Lists(added, Interval(first, end), first, start)
    ensures Greedy(start, end) <= 32
    ensures Lists(added + [Block(start, 32 - Greedy(start, end))], Interval(first, end), first,
            start + Pow2(Greedy(start, end)))
  {
    hide Phase, Greedy, Lists, Maximal, Interval;
    GreedyIsMaximal(first, start, end, |added|);
    ListOneMore(added, Block(start, 32 - Greedy(start, end)), Interval(first, end), first);
  }

  /** One turn of the loop: the emitted prefix extends the list of maximal prefixes, and the
      loop moves on to a phase in which it has not emitted too much. */
  lemma EmitOne(first: nat, start: nat, end: nat, added: seq<Block>, size: nat)
    requires first <= start <= end < ADDRESSES && Phase(first, start, end, |added|)
    requires Lists(added, Interval(first, end), first, start) && size == SplitSize(start, end)
    ensures 1 <= Len64(size) <= 33 && start < start + size <= end + 1
    ensures Lists(added + [Block(start, 33 - Len64(size))], Interval(first, end), first, start + size)
    ensures start + size <= end ==> Phase(first, start + size, end, |added| + 1)
    ensures |added| + 1 <= 62
  {
    hide Phase, Lists;
    EmittedSize(start, end);
    EmittedPhase(first, start, end, |added|);
    EmittedBlock(first, start, end, added);
  }

  lemma SplitStarts(first: nat, end: nat)
    requires first <= end
    ensures Lists([], Interval(first, end), first, first) && Phase(first, first, end, 0)
  {
  }

  lemma Appended(prefixes: seq<Block>, added: seq<Block>)
    ensures (prefixes + added)[|prefixes|..] == added
  {
  }

  method AppendRangePrefixes(prefixes: seq<Block>, first: nat, end: nat) returns (ok: bool, out: seq<Block>)
    requires first <= end < ADDRESSES && |prefixes| <= MAX_EXPANSION
    ensures prefixes <= out && |out| - |prefixes| <= 62
    ensures ok <==> |out| <= MAX_EXPANSION
    ensures ok ==> Lists(out[|prefixes|..], Interval(first, end), first, end + 1)
    ensures !ok ==> exists upto ::
            first < upto <= end + 1 && Lists(out[|prefixes|..], Interval(first, end), first, upto)
  {
    var start := first;
    out := prefixes;
    ghost var added: seq<Block> := [];
    SplitStarts(first, end);
    hide Lists, Phase, Interval, SplitSize;
    while start <= end
      invariant first <= start <= end + 1
      invariant out == prefixes + added && |out| <= MAX_EXPANSION
      invariant Lists(added, Interval(first, end), first, start)
      invariant start <= end ==> Phase(first, start, end, |added|)
      invariant |added| <= 62
    {
      var size := SplitSize(start, end);
      EmitOne(first, start, end, added, size);
      var prefixBits := 32 - (Len64(size) - 1);
      out := out + [Block(start, prefixBits)];
      added := added + [Block(start, prefixBits)];
      assert out == prefixes + added;
      Appended(prefixes, added);
      if |out| > MAX_EXPANSION {
        return false, out;
      }
      start := start + size;
    }
    Appended(prefixes, added);
    return true, out;
  }

  lemma SmallerPower(a: nat, b: nat)
    ensures (if Pow2(b) < Pow2(a) then Pow2(b) else Pow2(a)) == Pow2(if a < b then a else b)
  {
    if a < b {
      Pow2Monotone(a, b);
    } else {
      Pow2Monotone(b, a);
    }
  }

  lemma PhaseCount(lo: nat, start: nat, hi: nat, count: nat)
    requires lo <= start <= hi < ADDRESSES && Phase(lo, start, hi, count)
    ensures count <= 62
  {
    GreedyFits(start, hi);
  }
}
