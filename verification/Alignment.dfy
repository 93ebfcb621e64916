/** Power-of-two blocks of pages: alignment, nesting and buddies, bit by bit. */
module Alignment {

  function Pow2(k: nat): (r: nat)
    ensures r >= 1
  {
    if k == 0 then 1 else 2 * Pow2(k - 1)
  }

  /** The low `k` bits of `i` are zero. */
  predicate Aligned(i: nat, k: nat) {
    k == 0 || (i % 2 == 0 && Aligned(i / 2, k - 1))
  }

  /** The start of the 2^k-aligned block that holds page `i`. */
  function Down(i: nat, k: nat): nat {
    if k == 0 then i else 2 * Down(i / 2, k - 1)
  }

  function Bit(i: nat, k: nat): (b: nat)
    ensures b < 2
    ensures b == 1 ==> i >= Pow2(k)
  {
    if k == 0 then i % 2 else Bit(i / 2, k - 1)
  }

  /** `i ^ (1 << k)` */
  function ToggleBit(i: nat, k: nat): nat {
    if Bit(i, k) == 0 then i + Pow2(k) else i - Pow2(k)
  }

  /** `i & !(1 << k)` */
  function ClearBit(i: nat, k: nat): nat {
    if Bit(i, k) == 0 then i else i - Pow2(k)
  }

  lemma Pow2Monotone(j: nat, k: nat)
    requires j <= k
    ensures Pow2(j) <= Pow2(k)
    decreases k
  {
    if j < k { Pow2Monotone(j, k - 1); }
  }

  lemma {:induction false} MultipleIsAligned(q: nat, k: nat)
    ensures Aligned(Pow2(k) * q, k)
    decreases k
  {
    if k > 0 {
      assert Pow2(k) * q == 2 * (Pow2(k - 1) * q);
      MultipleIsAligned(q, k - 1);
    }
  }

  lemma {:induction false} AlignedQuotient(i: nat, k: nat) returns (q: nat)
    requires Aligned(i, k)
    ensures i == Pow2(k) * q
    decreases k
  {
    if k == 0 {
      q := i;
    } else {
      q := AlignedQuotient(i / 2, k - 1);
      assert Pow2(k) * q == 2 * (Pow2(k - 1) * q);
    }
  }

  /** Aligned indices are the multiples of the block size. */
  lemma AlignedIsMultiple(i: nat, k: nat)
    ensures Aligned(i, k) <==> exists q: nat :: i == Pow2(k) * q
  {
    if Aligned(i, k) {
      var q := AlignedQuotient(i, k);
    }
    if q: nat :| i == Pow2(k) * q {
      MultipleIsAligned(q, k);
    }
  }

  lemma DownAligned(p: nat, k: nat)
    ensures Aligned(Down(p, k), k)
    ensures Down(p, k) <= p < Down(p, k) + Pow2(k)
    decreases k
  {
    if k > 0 { DownAligned(p / 2, k - 1); }
  }

  /** Every page of an aligned block has that block's start as its own. */
  lemma DownInBlock(h: nat, k: nat, p: nat)
    requires Aligned(h, k) && h <= p < h + Pow2(k)
    ensures Down(p, k) == h
    decreases k
  {
    if k > 0 { DownInBlock(h / 2, k - 1, p / 2); }
  }

  /** Distinct blocks of one order start at least a block apart. */
  lemma AlignedApart(h: nat, g: nat, k: nat)
    requires Aligned(h, k) && Aligned(g, k) && h <= g < h + Pow2(k)
    ensures g == h
  {
    DownInBlock(h, k, g);
    DownInBlock(g, k, g);
  }

  /** The block one order up holds the block of order `k`, as its lower or its upper half. */
  lemma DownStep(p: nat, k: nat)
    ensures Down(p, k + 1) == Down(p, k) || Down(p, k + 1) + Pow2(k) == Down(p, k)
    decreases k
  {
    if k > 0 { DownStep(p / 2, k - 1); }
  }

  /** Aligned blocks nest: the block of order `j` holding `p` lies inside the one of order `k`. */
  lemma DownNested(p: nat, j: nat, k: nat)
    requires j <= k
    ensures Down(p, k) <= Down(p, j)
    ensures Down(p, j) + Pow2(j) <= Down(p, k) + Pow2(k)
    decreases k
  {
    if j < k {
      DownNested(p, j, k - 1);
      DownStep(p, k - 1);
    }
  }

  /** A multiple of 2^k is a multiple of every smaller power. */
  lemma AlignedDown(h: nat, j: nat, k: nat)
    requires j <= k && Aligned(h, k)
    ensures Aligned(h, j)
    decreases k
  {
    if j > 0 { AlignedDown(h / 2, j - 1, k - 1); }
  }

  /** Both halves of an aligned block are aligned, and only the lower one is aligned one order up. */
  lemma AlignedHalves(h: nat, k: nat)
    requires Aligned(h, k + 1)
    ensures Aligned(h, k) && Aligned(h + Pow2(k), k)
    ensures Bit(h, k) == 0 && Bit(h + Pow2(k), k) == 1
    ensures !Aligned(h + Pow2(k), k + 1)
    decreases k
  {
    if k > 0 { AlignedHalves(h / 2, k - 1); }
  }

  /** An aligned block is the lower or the upper half of its parent; its buddy is the other half. */
  lemma BuddyOf(h: nat, k: nat)
    requires Aligned(h, k)
    ensures Bit(h, k) == 0 <==> Aligned(h, k + 1)
    ensures Bit(h, k) == 1 ==> Aligned(h - Pow2(k), k + 1)
    ensures Aligned(ToggleBit(h, k), k) && Aligned(ClearBit(h, k), k + 1)
    decreases k
  {
    if k > 0 {
      BuddyOf(h / 2, k - 1);
    }
    if Bit(h, k) == 0 {
      AlignedHalves(h, k);
    } else {
      AlignedHalves(h - Pow2(k), k);
    }
  }
}
