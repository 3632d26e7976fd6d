/**
 The longest-prefix-match trie that holds the policy rules, over the bytes of the
 key as they lie in memory: meta and cgroup in little-endian byte order, the peer
 address in network order, compared bit by bit from the first byte's highest bit.
*/
module LpmTrie {
  import opened Cidr
  import opened PolicySets
  import opened EngineKeys

  type Bits = seq<bool>

  /** The low n bits of x, highest first. */
  function BitsOf(x: nat, n: nat): (b: Bits)
    ensures |b| == n
  {
    if n == 0 then [] else BitsOf(x / 2, n - 1) + [x % 2 == 1]
  }

  /** The low n bytes of x, lowest byte first. */
  function LittleEndian(x: nat, n: nat): (b: Bits)
    ensures |b| == 8 * n
  {
    if n == 0 then [] else BitsOf(x % 0x100, 8) + LittleEndian(x / 0x100, n - 1)
  }

  /** The data of a trie key: 16 bytes. */
  function Data(meta: U32, cgroup: Cgroup, peer: U32): (b: Bits)
    ensures |b| == 128
  {
    LittleEndian(meta, 4) + LittleEndian(cgroup, 8) + BitsOf(peer, 32)
  }

  /** An entry matches a lookup if its prefix is a prefix of the looked-up data. */
  predicate Matches(entry: Key, meta: U32, cgroup: Cgroup, peer: U32)
    requires entry.RuleKey? && entry.prefixLength <= 128
  {
    Data(entry.meta, entry.cgroup, entry.peer)[..entry.prefixLength] == Data(meta, cgroup, peer)[..entry.prefixLength]
  }

  lemma {:induction false} BitsAreInjective(x: nat, y: nat, n: nat)
    requires x < Pow2(n) && y < Pow2(n) && BitsOf(x, n) == BitsOf(y, n)
    ensures x == y
  {
    if n > 0 {
      SamePrefix(BitsOf(x / 2, n - 1), [x % 2 == 1], BitsOf(y / 2, n - 1), [y % 2 == 1]);
      BitsAreInjective(x / 2, y / 2, n - 1);
      assert [x % 2 == 1][0] == [y % 2 == 1][0];
    }
  }

  lemma SamePrefix(a: Bits, b: Bits, c: Bits, d: Bits)
    requires |a| == |c|
    ensures a + b == c + d <==> a == c && b == d
  {
    if a + b == c + d {
      assert (a + b)[..|a|] == a && (c + d)[..|a|] == c;
      assert (a + b)[|a|..] == b && (c + d)[|a|..] == d;
    }
  }

  lemma {:induction false} BytesAreInjective(x: nat, y: nat, n: nat)
    requires x < Pow2(8 * n) && y < Pow2(8 * n) && LittleEndian(x, n) == LittleEndian(y, n)
    ensures x == y
  {
    if n > 0 {
      SamePrefix(BitsOf(x % 0x100, 8), LittleEndian(x / 0x100, n - 1), BitsOf(y % 0x100, 8),
          LittleEndian(y / 0x100, n - 1));
      Pow2Of8(n);
      BitsAreInjective(x % 0x100, y % 0x100, 8);
      BytesAreInjective(x / 0x100, y / 0x100, n - 1);
    }
  }

  lemma Pow2Of8(n: nat)
    requires n > 0
    ensures Pow2(8) == 0x100 && Pow2(8 * n) == 0x100 * Pow2(8 * (n - 1))
  {
    var m := 8 * (n - 1);
    assert Pow2(m + 2) == 4 * Pow2(m);
    assert Pow2(m + 4) == 4 * Pow2(m + 2);
    assert Pow2(m + 6) == 4 * Pow2(m + 4);
    assert Pow2(m + 8) == 4 * Pow2(m + 6);
  }

  lemma Pow2Of64()
    ensures Pow2(64) == 0x1_0000_0000_0000_0000
  {
    Pow2Of32();
    assert Pow2(40) == 0x100 * Pow2(32);
    assert Pow2(48) == 0x100 * Pow2(40);
    assert Pow2(56) == 0x100 * Pow2(48);
    assert Pow2(64) == 0x100 * Pow2(56);
  }

  /** The first n - e bits agree exactly when the numbers agree above bit e. */
  lemma {:induction false} LeadingBits(x: nat, y: nat, n: nat, e: nat)
    requires e <= n && x < Pow2(n) && y < Pow2(n)
    ensures BitsOf(x, n)[..n - e] == BitsOf(y, n)[..n - e] <==> Floor(x, e) == Floor(y, e)
  {
    if e == 0 {
      assert BitsOf(x, n)[..n] == BitsOf(x, n) && BitsOf(y, n)[..n] == BitsOf(y, n);
      if BitsOf(x, n) == BitsOf(y, n) {
        BitsAreInjective(x, y, n);
      }
    } else {
      LeadingBits(x / 2, y / 2, n - 1, e - 1);
      assert BitsOf(x, n)[..n - e] == BitsOf(x / 2, n - 1)[..n - e];
      assert BitsOf(y, n)[..n - e] == BitsOf(y / 2, n - 1)[..n - e];
    }
  }

  lemma TakeThrough(a: Bits, b: Bits, c: Bits, d: Bits, n: nat)
    requires |a| == |c| && |b| == |d| && n <= |b|
    ensures (a + b)[..|a| + n] == (c + d)[..|a| + n] <==> a == c && b[..n] == d[..n]
  {
    assert (a + b)[..|a| + n] == a + b[..n] && (c + d)[..|a| + n] == c + d[..n];
    SamePrefix(a, b[..n], c, d[..n]);
  }

  /** What a match means: the packed word and the cgroup are equal, and the peer lies in the prefix. */
  lemma MatchMeans(entry: Key, bits: nat, meta: U32, cgroup: Cgroup, peer: U32)
    requires entry.RuleKey? && bits <= 32 && entry.prefixLength == 96 + bits
    ensures Matches(entry, meta, cgroup, peer) <==>
              entry.meta == meta && entry.cgroup == cgroup && Floor(entry.peer, 32 - bits) == Floor(peer, 32 - bits)
  {
    var head, head' := LittleEndian(entry.meta, 4) + LittleEndian(entry.cgroup, 8),
        LittleEndian(meta, 4) + LittleEndian(cgroup, 8);
    TakeThrough(head, BitsOf(entry.peer, 32), head', BitsOf(peer, 32), bits);
    SamePrefix(LittleEndian(entry.meta, 4), LittleEndian(entry.cgroup, 8), LittleEndian(meta, 4),
        LittleEndian(cgroup, 8));
    Pow2Of32();
    Pow2Of64();
    LeadingBits(entry.peer, peer, 32, 32 - bits);
    if LittleEndian(entry.meta, 4) == LittleEndian(meta, 4) {
      BytesAreInjective(entry.meta, meta, 4);
    }
    if LittleEndian(entry.cgroup, 8) == LittleEndian(cgroup, 8) {
      BytesAreInjective(entry.cgroup, cgroup, 8);
    }
  }

  /** Lying in a prefix is having the same leading bits as its first address. */
  lemma {:induction false} SameLeadingBits(start: nat, peer: nat, e: nat)
    requires Aligned(start, e)
    ensures Floor(start, e) == start
    ensures Floor(peer, e) == start <==> start <= peer < start + Pow2(e)
  {
    if e > 0 {
      SameLeadingBits(start / 2, peer / 2, e - 1);
    }
  }
}
