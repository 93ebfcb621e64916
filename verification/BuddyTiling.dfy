/**
 * The per-page metadata of one zone. Every page carries the order of the block
 * that covers it and a free flag, so the bytes alone determine a tiling of the
 * zone by aligned blocks.
 */
module BuddyTiling {
  import opened Alignment

  const MAX_ORDER: nat := 11
  const TOP: nat := MAX_ORDER - 1
  const FREE_FLAG: nat := 128

  type Byte = b: nat | b < 256
  type Meta = seq<Byte>

  function FreeByte(k: nat): Byte
    requires k <= TOP
  {
    k + FREE_FLAG
  }

  predicate IsFree(b: Byte) {
    b >= FREE_FLAG
  }

  function OrderOf(b: Byte): nat {
    b % FREE_FLAG
  }

  /** Writes byte `b` on the 2^k pages from `h`. */
  function Fill(meta: Meta, h: nat, k: nat, b: Byte): (r: Meta)
    requires h + Pow2(k) <= |meta|
    ensures |r| == |meta|
    ensures forall q :: 0 <= q < |r| ==> r[q] == if h <= q < h + Pow2(k) then b else meta[q]
  {
    meta[..h] + seq(Pow2(k), _ => b) + meta[h + Pow2(k)..]
  }

  /** The 2^k pages from `h` all carry byte `b`. */
  predicate Uniform(meta: Meta, h: nat, k: nat, b: Byte) {
    h + Pow2(k) <= |meta| && forall q :: h <= q < h + Pow2(k) ==> meta[q] == b
  }

  /** Page `p` lies in one aligned block, described alike on all its pages. */
  predicate Covered(meta: Meta, p: nat)
    requires p < |meta|
  {
    OrderOf(meta[p]) <= TOP && Uniform(meta, Down(p, OrderOf(meta[p])), OrderOf(meta[p]), meta[p])
  }

  ghost predicate Tiled(meta: Meta) {
    forall p :: 0 <= p < |meta| ==> Covered(meta, p)
  }

  predicate FreeHead(meta: Meta, h: nat, k: nat) {
    k <= TOP && h < |meta| && Aligned(h, k) && meta[h] == FreeByte(k)
  }

  predicate LiveHead(meta: Meta, h: nat, k: nat) {
    k <= TOP && h < |meta| && Aligned(h, k) && meta[h] == k
  }

  /** No two free buddies of equal order below the top. */
  ghost predicate Canonical(meta: Meta) {
    forall h: nat, k: nat :: k < TOP && FreeHead(meta, h, k) && Aligned(h, k + 1) ==>
                     !FreeHead(meta, h + Pow2(k), k)
  }

  ghost predicate Good(meta: Meta) {
    Tiled(meta) && Canonical(meta)
  }

  /** An aligned run of 2^k free pages. */
  ghost predicate FreeRun(meta: Meta, h: nat, k: nat) {
    Aligned(h, k) && h + Pow2(k) <= |meta| && forall q :: h <= q < h + Pow2(k) ==> IsFree(meta[q])
  }

  ghost predicate SameFreePages(a: Meta, b: Meta) {
    |a| == |b| && forall p :: 0 <= p < |a| ==> IsFree(a[p]) == IsFree(b[p])
  }

  /** The block that covers a page has a head with the same byte. */
  lemma HeadOf(meta: Meta, p: nat) returns (h: nat, k: nat)
    requires Tiled(meta) && p < |meta|
    ensures k == OrderOf(meta[p]) <= TOP && h == Down(p, k)
    ensures h <= p < h + Pow2(k) <= |meta| && Aligned(h, k)
    ensures forall q :: h <= q < h + Pow2(k) ==> meta[q] == meta[p]
    ensures IsFree(meta[p]) ==> FreeHead(meta, h, k)
    ensures !IsFree(meta[p]) ==> LiveHead(meta, h, k)
  {
    assert Covered(meta, p);
    k := OrderOf(meta[p]);
    h := Down(p, k);
    DownAligned(p, k);
  }

  /** All pages of an aligned block are told by the byte of its head. */
  lemma HeadCovers(meta: Meta, h: nat, k: nat)
    requires Tiled(meta) && (FreeHead(meta, h, k) || LiveHead(meta, h, k))
    ensures Uniform(meta, h, k, meta[h])
  {
    assert Covered(meta, h);
    DownInBlock(h, k, h);
  }

  /**
   * In a canonical tiling an aligned run of free pages lies inside a single
   * free block, so its first page carries an order at least as large.
   */
  lemma {:induction false} RunInOneBlock(meta: Meta, h: nat, k: nat)
    requires Good(meta) && k <= TOP && FreeRun(meta, h, k)
    ensures OrderOf(meta[h]) >= k
    decreases k
  {
    hide Down, Aligned, Bit;
    if k > 0 {
      var m := h + Pow2(k - 1);
      AlignedHalves(h, k - 1);
      RunInOneBlock(meta, h, k - 1);
      RunInOneBlock(meta, m, k - 1);
      var h1, k1 := HeadOf(meta, m);
      if k1 >= k {
        DownNested(m, k, k1);
        DownInBlock(h, k, m);
      } else {
        assert FreeHead(meta, m, k - 1);
        assert !FreeHead(meta, h, k - 1);
      }
    }
  }

  lemma {:induction false} OrderAtLeast(a: Meta, b: Meta, p: nat)
    requires Good(a) && Good(b) && SameFreePages(a, b) && p < |a| && IsFree(a[p])
    ensures OrderOf(b[p]) >= OrderOf(a[p])
  {
    var h, k := HeadOf(a, p);
    RunInOneBlock(b, h, k);
    var h', k' := HeadOf(b, h);
    DownInBlock(h, k, h);
    DownNested(h, k, k');
  }

  /** The free blocks of a canonical tiling are a function of its free pages. */
  lemma CanonicalUnique(a: Meta, b: Meta)
    requires Good(a) && Good(b) && SameFreePages(a, b)
    ensures forall h: nat, k: nat :: FreeHead(a, h, k) <==> FreeHead(b, h, k)
  {
    forall p | 0 <= p < |a| && IsFree(a[p]) ensures a[p] == b[p] {
      OrderAtLeast(a, b, p);
      OrderAtLeast(b, a, p);
    }
  }

  /** Every block met by the aligned run (i, k) lies inside it. */
  ghost predicate Saturated(meta: Meta, i: nat, k: nat) {
    && Aligned(i, k) && k <= TOP && i + Pow2(k) <= |meta|
    && forall q :: i <= q < i + Pow2(k) ==>
         i <= Down(q, OrderOf(meta[q])) && Down(q, OrderOf(meta[q])) + Pow2(OrderOf(meta[q])) <= i + Pow2(k)
  }

  /** A block that has a page outside a saturated run has none inside. */
  lemma DisjointFromRun(meta: Meta, i: nat, k: nat, h: nat, j: nat, p: nat, q: nat)
    requires Saturated(meta, i, k) && Aligned(h, j) && h + Pow2(j) <= |meta|
    requires h <= p < h + Pow2(j) && h <= q < h + Pow2(j)
    requires OrderOf(meta[q]) == j && !(i <= p < i + Pow2(k))
    ensures !(i <= q < i + Pow2(k))
  {
    DownInBlock(h, j, q);
  }

  lemma UniformCovered(meta: Meta, h: nat, k: nat, b: Byte, p: nat)
    requires Aligned(h, k) && k <= TOP && OrderOf(b) == k && Uniform(meta, h, k, b)
    requires h <= p < h + Pow2(k)
    ensures Covered(meta, p)
  {
    DownInBlock(h, k, p);
  }

  /** Replacing whole blocks by one aligned block leaves a tiling. */
  lemma FillTiled(meta: Meta, i: nat, k: nat, b: Byte)
    requires Tiled(meta) && Saturated(meta, i, k) && OrderOf(b) == k
    ensures Tiled(Fill(meta, i, k, b))
  {
    var after := Fill(meta, i, k, b);
    forall p | 0 <= p < |after| ensures Covered(after, p) {
      if i <= p < i + Pow2(k) {
        UniformCovered(after, i, k, b, p);
      } else {
        UntouchedCovered(meta, after, i, k, p);
      }
    }
  }

  lemma UntouchedCovered(meta: Meta, after: Meta, i: nat, k: nat, p: nat)
    requires Tiled(meta) && Saturated(meta, i, k) && p < |meta| && !(i <= p < i + Pow2(k))
    requires |after| == |meta|
    requires forall q :: 0 <= q < |meta| && !(i <= q < i + Pow2(k)) ==> after[q] == meta[q]
    ensures Covered(after, p)
  {
    var h, j := HeadOf(meta, p);
    assert after[p] == meta[p];
    forall q | h <= q < h + Pow2(j) ensures after[q] == after[p] {
      DisjointFromRun(meta, i, k, h, j, p, q);
    }
  }

  lemma HeadSaturated(meta: Meta, h: nat, k: nat)
    requires Tiled(meta) && (FreeHead(meta, h, k) || LiveHead(meta, h, k))
    ensures Saturated(meta, h, k)
  {
    HeadCovers(meta, h, k);
    forall q | h <= q < h + Pow2(k) ensures Down(q, OrderOf(meta[q])) == h && OrderOf(meta[q]) == k {
      DownInBlock(h, k, q);
    }
  }

  // ---------------------------------------------------------------- splitting

  /** What is left of the free block (h, k) after its first 2^t pages are taken. */
  ghost predicate SplitResult(meta: Meta, after: Meta, h: nat, k: nat, t: nat)
    requires t <= k <= TOP
  {
    && |after| == |meta| && h + Pow2(k) <= |meta|
    && (forall q :: 0 <= q < |meta| && !(h <= q < h + Pow2(k)) ==> after[q] == meta[q])
    && Uniform(after, h, t, t)
    && (forall j: nat :: t <= j < k ==> Uniform(after, h + Pow2(j), j, FreeByte(j)))
  }

  lemma {:induction false} HalfHolding(d: nat, t: nat, k: nat) returns (j: nat)
    requires t <= k && Pow2(t) <= d < Pow2(k)
    ensures t <= j < k && Pow2(j) <= d < Pow2(j + 1)
    decreases k
  {
    if d >= Pow2(k - 1) {
      j := k - 1;
    } else {
      j := HalfHolding(d, t, k - 1);
    }
  }

  /** The freed piece that holds page `p` of the split block. */
  lemma SplitPiece(meta: Meta, after: Meta, h: nat, k: nat, t: nat, p: nat) returns (j: nat)
    requires t <= k && FreeHead(meta, h, k) && SplitResult(meta, after, h, k, t)
    requires h + Pow2(t) <= p < h + Pow2(k)
    ensures t <= j < k && h + Pow2(j) <= p < h + Pow2(j) + Pow2(j)
    ensures Aligned(h + Pow2(j), j) && Uniform(after, h + Pow2(j), j, FreeByte(j))
  {
    j := HalfHolding(p - h, t, k);
    AlignedDown(h, j + 1, k);
    AlignedHalves(h, j);
  }

  lemma SplitCovered(meta: Meta, after: Meta, h: nat, k: nat, t: nat, p: nat)
    requires Tiled(meta) && t <= k && FreeHead(meta, h, k) && SplitResult(meta, after, h, k, t)
    requires p < |after|
    ensures Covered(after, p)
  {
    if p < h || p >= h + Pow2(k) {
      HeadSaturated(meta, h, k);
      UntouchedCovered(meta, after, h, k, p);
    } else if p < h + Pow2(t) {
      AlignedDown(h, t, k);
      UniformCovered(after, h, t, t, p);
    } else {
      var j := SplitPiece(meta, after, h, k, t, p);
      UniformCovered(after, h + Pow2(j), j, FreeByte(j), p);
    }
  }

  lemma SplitFreeHead(meta: Meta, after: Meta, h: nat, k: nat, t: nat, g: nat, m: nat)
    requires Tiled(meta) && t <= k && FreeHead(meta, h, k) && SplitResult(meta, after, h, k, t)
    ensures FreeHead(after, g, m) <==>
              (FreeHead(meta, g, m) && g != h) || (t <= m < k && g == h + Pow2(m))
  {
    hide Down, Aligned, Bit, Covered;
    HeadCovers(meta, h, k);
    if t <= m < k && g == h + Pow2(m) {
      Pow2Monotone(t, m);
      Pow2Monotone(m + 1, k);
      AlignedDown(h, m + 1, k);
      AlignedHalves(h, m);
      assert Uniform(after, g, m, FreeByte(m));
    } else if h <= g < h + Pow2(k) {
      if FreeHead(meta, g, m) { AlignedApart(h, g, k); }
      if g >= h + Pow2(t) {
        var j := SplitPiece(meta, after, h, k, t, g);
        if FreeHead(after, g, j) { AlignedApart(h + Pow2(j), g, j); }
      }
    }
  }

  lemma SplitLiveHead(meta: Meta, after: Meta, h: nat, k: nat, t: nat, g: nat, m: nat)
    requires Tiled(meta) && t <= k && FreeHead(meta, h, k) && SplitResult(meta, after, h, k, t)
    ensures LiveHead(after, g, m) <==> LiveHead(meta, g, m) || (g == h && m == t)
  {
    HeadCovers(meta, h, k);
    AlignedDown(h, t, k);
    if h <= g < h + Pow2(k) {
      if g >= h + Pow2(t) {
        var j := HalfHolding(g - h, t, k);
        assert Uniform(after, h + Pow2(j), j, FreeByte(j));
      } else if Aligned(g, t) {
        AlignedApart(h, g, t);
      }
    }
  }

  /** Splitting keeps the tiling canonical: no two of the pieces it frees are buddies of equal order. */
  lemma SplitGood(meta: Meta, after: Meta, h: nat, k: nat, t: nat)
    requires Good(meta) && t <= k && FreeHead(meta, h, k) && SplitResult(meta, after, h, k, t)
    ensures Good(after)
  {
    forall p | 0 <= p < |after| ensures Covered(after, p) {
      SplitCovered(meta, after, h, k, t, p);
    }
    forall g: nat, m: nat | m < TOP && FreeHead(after, g, m) && Aligned(g, m + 1)
      ensures !FreeHead(after, g + Pow2(m), m)
    {
      SplitFreeHead(meta, after, h, k, t, g, m);
      SplitFreeHead(meta, after, h, k, t, g + Pow2(m), m);
      if t <= m < k {
        AlignedDown(h, m + 1, k);
        AlignedHalves(h, m);
      }
    }
  }

  // ---------------------------------------------------------------- coalescing

  /** The run (i, k) is the live block (h, j) together with smaller free blocks. */
  ghost predicate Absorbed(meta: Meta, h: nat, j: nat, i: nat, k: nat) {
    && Aligned(i, k) && j <= k <= TOP && i + Pow2(k) <= |meta|
    && i <= h && h + Pow2(j) <= i + Pow2(k)
    && forall q :: i <= q < i + Pow2(k) ==>
         h <= q < h + Pow2(j) || (IsFree(meta[q]) && OrderOf(meta[q]) < k)
  }

  /** The buddy of the run is a free block of the same order. */
  predicate CanMerge(meta: Meta, i: nat, k: nat) {
    k < TOP && FreeHead(meta, ToggleBit(i, k), k)
  }

  lemma AbsorbBuddy(meta: Meta, h: nat, j: nat, i: nat, k: nat)
    requires Tiled(meta) && Absorbed(meta, h, j, i, k) && CanMerge(meta, i, k)
    ensures Absorbed(meta, h, j, ClearBit(i, k), k + 1)
  {
    BuddyOf(i, k);
    HeadCovers(meta, ToggleBit(i, k), k);
  }

  lemma AbsorbedSaturated(meta: Meta, h: nat, j: nat, i: nat, k: nat)
    requires Tiled(meta) && LiveHead(meta, h, j) && Absorbed(meta, h, j, i, k)
    ensures Saturated(meta, i, k)
  {
    HeadCovers(meta, h, j);
    forall q | i <= q < i + Pow2(k)
      ensures i <= Down(q, OrderOf(meta[q]))
      ensures Down(q, OrderOf(meta[q])) + Pow2(OrderOf(meta[q])) <= i + Pow2(k)
    {
      DownInBlock(i, k, q);
      DownNested(q, OrderOf(meta[q]), k);
    }
  }

  /** The heads after the run has become one free block. */
  lemma MergeHeads(meta: Meta, h: nat, j: nat, i: nat, k: nat, g: nat, m: nat)
    requires Tiled(meta) && LiveHead(meta, h, j) && Absorbed(meta, h, j, i, k)
    ensures var after := Fill(meta, i, k, FreeByte(k));
            && (FreeHead(after, g, m) <==>
                (g == i && m == k) || (FreeHead(meta, g, m) && !(i <= g < i + Pow2(k))))
            && (LiveHead(after, g, m) <==> LiveHead(meta, g, m) && g != h)
  {
    hide Down, Aligned, Bit;
    HeadCovers(meta, h, j);
    if i <= g < i + Pow2(k) {
      DownInBlock(i, k, g);
      if Aligned(g, k) { DownInBlock(g, k, g); }
      if LiveHead(meta, g, m) { DownInBlock(h, j, g); DownInBlock(g, j, g); }
    }
  }

  /** Freeing with coalescing, stopped when the buddy cannot be merged, keeps the tiling canonical. */
  lemma MergeGood(meta: Meta, h: nat, j: nat, i: nat, k: nat)
    requires Good(meta) && LiveHead(meta, h, j) && Absorbed(meta, h, j, i, k) && !CanMerge(meta, i, k)
    ensures Good(Fill(meta, i, k, FreeByte(k)))
  {
    hide Down, Aligned, Bit;
    var after := Fill(meta, i, k, FreeByte(k));
    AbsorbedSaturated(meta, h, j, i, k);
    FillTiled(meta, i, k, FreeByte(k));
    BuddyOf(i, k);
    forall g: nat, m: nat | m < TOP && FreeHead(after, g, m) && Aligned(g, m + 1)
      ensures !FreeHead(after, g + Pow2(m), m)
    {
      MergeHeads(meta, h, j, i, k, g, m);
      MergeHeads(meta, h, j, i, k, g + Pow2(m), m);
      AlignedHalves(g, m);
    }
  }

  // ---------------------------------------------------------------- seeding

  function TrailingZeros(i: nat): (k: nat)
    requires i > 0
    ensures Aligned(i, k)
  {
    if i % 2 == 1 then 0 else 1 + TrailingZeros(i / 2)
  }

  function ILog2(n: nat): (k: nat)
    requires n > 0
    ensures Pow2(k) <= n < Pow2(k + 1)
  {
    if n == 1 then 0 else 1 + ILog2(n / 2)
  }

  function Min(a: nat, b: nat): nat {
    if a < b then a else b
  }

  /** The order chosen for the block seeded at page `i` when `remaining` pages are left. */
  function SeedOrder(i: nat, remaining: nat): (k: nat)
    requires remaining > 0
  {
    Min(Min(if i == 0 then TOP else TrailingZeros(i), ILog2(remaining)), TOP)
  }

  lemma {:induction false} AlignedUpTo(i: nat, k: nat)
    requires i > 0 && Aligned(i, k)
    ensures k <= TrailingZeros(i)
    decreases k
  {
    if k > 0 { AlignedUpTo(i / 2, k - 1); }
  }

  lemma {:induction false} ZeroAligned(k: nat)
    ensures Aligned(0, k)
    decreases k
  {
    if k > 0 { ZeroAligned(k - 1); }
  }

  /** The seeded block fits, is aligned, and below the top order it leaves no room for an upper buddy. */
  lemma SeedOrderFits(i: nat, remaining: nat)
    requires remaining > 0
    ensures var k := SeedOrder(i, remaining);
            && k <= TOP && Aligned(i, k) && Pow2(k) <= remaining
            && (k < TOP && Aligned(i, k + 1) ==> remaining < Pow2(k + 1))
  {
    var k := SeedOrder(i, remaining);
    if i == 0 { ZeroAligned(k); } else { AlignedDown(i, k, TrailingZeros(i)); }
    Pow2Monotone(k, ILog2(remaining));
    if i > 0 && Aligned(i, k + 1) { AlignedUpTo(i, k + 1); }
  }

  /** The first `i` pages are seeded, the rest still carry the zero byte. */
  ghost predicate Seeded(meta: Meta, i: nat) {
    && i <= |meta| && Tiled(meta)
    && (forall p :: 0 <= p < i ==> IsFree(meta[p]))
    && (forall p :: i <= p < |meta| ==> meta[p] == 0)
    && (forall h: nat, k: nat :: k < TOP && FreeHead(meta, h, k) && Aligned(h, k + 1) ==> h + Pow2(k + 1) > |meta|)
  }

  lemma ZeroSeeded(meta: Meta)
    requires forall p :: 0 <= p < |meta| ==> meta[p] == 0
    ensures Seeded(meta, 0)
  {
    forall p | 0 <= p < |meta| ensures Covered(meta, p) {}
  }

  lemma SeedSaturated(meta: Meta, i: nat, k: nat)
    requires Aligned(i, k) && k <= TOP && i + Pow2(k) <= |meta|
    requires forall p :: i <= p < |meta| ==> meta[p] == 0
    ensures Saturated(meta, i, k)
  {
    forall q | i <= q < i + Pow2(k) ensures OrderOf(meta[q]) == 0 && Down(q, 0) == q {}
  }

  lemma SeedHead(meta: Meta, i: nat, k: nat, g: nat, m: nat)
    requires Aligned(i, k) && k <= TOP && i + Pow2(k) <= |meta|
    requires forall p :: i <= p < |meta| ==> meta[p] == 0
    ensures FreeHead(Fill(meta, i, k, FreeByte(k)), g, m) <==> FreeHead(meta, g, m) || (g == i && m == k)
  {
    if i <= g < i + Pow2(k) && Aligned(g, k) {
      AlignedApart(i, g, k);
    }
  }

  lemma SeedStep(meta: Meta, i: nat)
    requires Seeded(meta, i) && i < |meta|
    ensures var k := SeedOrder(i, |meta| - i);
            && k <= TOP && i + Pow2(k) <= |meta|
            && Seeded(Fill(meta, i, k, FreeByte(k)), i + Pow2(k))
  {
    hide Down, Aligned, Bit, SeedOrder, Covered;
    SeedOrderFits(i, |meta| - i);
    var k := SeedOrder(i, |meta| - i);
    var after := Fill(meta, i, k, FreeByte(k));
    SeedSaturated(meta, i, k);
    FillTiled(meta, i, k, FreeByte(k));
    forall h: nat, m: nat | m < TOP && FreeHead(after, h, m) && Aligned(h, m + 1)
      ensures h + Pow2(m + 1) > |after|
    {
      SeedHead(meta, i, k, h, m);
    }
  }

  /** Once every page is seeded the tiling is canonical. */
  lemma SeedingDone(meta: Meta)
    requires Seeded(meta, |meta|)
    ensures Good(meta)
  {
    forall h: nat, k: nat | k < TOP && FreeHead(meta, h, k) && Aligned(h, k + 1)
      ensures !FreeHead(meta, h + Pow2(k), k)
    {
      if FreeHead(meta, h + Pow2(k), k) { HeadCovers(meta, h + Pow2(k), k); }
    }
  }
}
