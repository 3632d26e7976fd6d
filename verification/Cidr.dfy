/**
 IPv4 prefixes as aligned power-of-two ranges of addresses, in the sense of
 section 3.1 of RFC 4632. Alignment is defined by halving, so that every proof
 about it is a linear induction.
*/
module Cidr {
  const ADDRESSES: nat := 0x1_0000_0000

  function Pow2(n: nat): (p: nat)
    ensures p >= 1
  {
    if n == 0 then 1 else 2 * Pow2(n - 1)
  }

  lemma {:induction false} Pow2Monotone(a: nat, b: nat)
    requires a <= b
    ensures Pow2(a) <= Pow2(b)
    ensures a < b ==> 2 * Pow2(a) <= Pow2(b)
  {
    if a < b {
      Pow2Monotone(a, b - 1);
    }
  }

  lemma Pow2Of32()
    ensures Pow2(32) == ADDRESSES && Pow2(31) == 0x8000_0000
  {
    assert Pow2(8) == 256;
    assert Pow2(16) == 65536;
    assert Pow2(24) == 0x100_0000;
  }

  /** x is a multiple of 2^e. */
  predicate Aligned(x: nat, e: nat) {
    e > 0 ==> x % 2 == 0 && Aligned(x / 2, e - 1)
  }

  /** The largest multiple of 2^e that is at most x. */
  function Floor(x: nat, e: nat): (f: nat) {
    if e == 0 then x else 2 * Floor(x / 2, e - 1)
  }

  lemma {:induction false} FloorIsAligned(x: nat, e: nat)
    ensures Aligned(Floor(x, e), e) && Floor(x, e) <= x < Floor(x, e) + Pow2(e)
  {
    if e > 0 {
      FloorIsAligned(x / 2, e - 1);
    }
  }

  lemma {:induction false} FloorOfAligned(x: nat, e: nat)
    requires Aligned(x, e)
    ensures Floor(x, e) == x
  {
    if e > 0 {
      FloorOfAligned(x / 2, e - 1);
    }
  }

  lemma {:induction false} AlignedFiner(x: nat, fine: nat, coarse: nat)
    requires fine <= coarse && Aligned(x, coarse)
    ensures Aligned(x, fine)
  {
    if fine > 0 {
      AlignedFiner(x / 2, fine - 1, coarse - 1);
    }
  }

  lemma {:induction false} AlignedNext(x: nat, e: nat)
    requires Aligned(x, e)
    ensures Aligned(x + Pow2(e), e)
  {
    if e > 0 {
      AlignedNext(x / 2, e - 1);
    }
  }

  lemma {:induction false} AlignedGap(x: nat, y: nat, e: nat)
    requires Aligned(x, e) && Aligned(y, e) && x < y
    ensures x + Pow2(e) <= y
  {
    if e > 0 {
      AlignedGap(x / 2, y / 2, e - 1);
    }
  }

  lemma {:induction false} ZeroIsAligned(e: nat)
    ensures Aligned(0, e)
  {
    if e > 0 {
      ZeroIsAligned(e - 1);
    }
  }

  /** A prefix: its first address and its length in bits. */
  datatype Block = Block(start: nat, bits: nat) {
    function Exponent(): nat
      requires bits <= 32
    {
      32 - bits
    }

    function Size(): (n: nat)
      requires bits <= 32
      ensures n >= 1
    {
      Pow2(32 - bits)
    }

    predicate Valid() {
      bits <= 32 && Aligned(start, Exponent()) && start + Size() <= ADDRESSES
    }

    predicate Has(a: int) {
      bits <= 32 && start <= a < start + Size()
    }

    /** Every address of this block is an address of `that`. */
    predicate Inside(that: Block)
      requires bits <= 32 && that.bits <= 32
    {
      that.start <= start && start + Size() <= that.start + that.Size()
    }

    /** The block one bit shorter that contains this one. */
    function Parent(): Block
      requires 0 < bits <= 32
    {
      Block(Floor(start, 33 - bits), bits - 1)
    }

    function Left(): Block
      requires bits < 32
    {
      Block(start, bits + 1)
    }

    function Right(): Block
      requires bits < 32
    {
      Block(start + Pow2(31 - bits), bits + 1)
    }
  }

  /** Two prefixes that share an address are nested: the longer one lies inside the shorter. */
  lemma Nested(big: Block, small: Block, a: int)
    requires big.Valid() && small.Valid() && big.bits <= small.bits
    requires big.Has(a) && small.Has(a)
    ensures small.Inside(big)
  {
    var e := small.Exponent();
    AlignedFiner(big.start, e, big.Exponent());
    if small.start < big.start {
      AlignedGap(small.start, big.start, e);
    }
    var last := big.start + big.Size();
    AlignedNext(big.start, big.Exponent());
    AlignedFiner(last, e, big.Exponent());
    AlignedGap(small.start, last, e);
  }

  lemma TopIsAligned(e: nat)
    requires e <= 32
    ensures Aligned(ADDRESSES, e)
  {
    Pow2Of32();
    ZeroIsAligned(32);
    AlignedNext(0, 32);
    AlignedFiner(ADDRESSES, e, 32);
  }

  lemma ParentFits(b: Block)
    requires b.Valid() && b.bits > 0
    ensures b.Parent().Valid() && b.Inside(b.Parent()) && b.Parent().Size() == 2 * b.Size()
    ensures b.start == b.Parent().start || b.start == b.Parent().start + b.Size()
  {
    var p := b.Parent();
    var e := b.Exponent();
    FloorIsAligned(b.start, e + 1);
    AlignedFiner(p.start, e, e + 1);
    AlignedNext(p.start, e);
    if p.start < b.start {
      AlignedGap(p.start, b.start, e);
    }
    if p.start + b.Size() < b.start {
      AlignedGap(p.start + b.Size(), b.start, e);
    }
    TopIsAligned(e + 1);
    AlignedGap(p.start, ADDRESSES, e + 1);
  }

  lemma HalvesFit(b: Block)
    requires b.Valid() && b.bits < 32
    ensures b.Left().Valid() && b.Right().Valid()
    ensures b.Size() == 2 * b.Left().Size() == 2 * b.Right().Size()
    ensures b.Right().start == b.start + b.Left().Size()
  {
    AlignedFiner(b.start, 31 - b.bits, 32 - b.bits);
    AlignedNext(b.start, 31 - b.bits);
  }
}
