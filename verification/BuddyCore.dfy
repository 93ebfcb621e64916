/**
 * The buddy allocator as a machine over zone metadata and ordered free lists.
 * Blocks are named by zone number and page index, never by address, so the
 * machine is the same before and after the switch to the direct map.
 */
module BuddyCore {
  import opened Wrappers
  import opened Alignment
  import opened BuddyTiling

  datatype Block = Block(zone: nat, index: nat)

  type Lists = l: seq<seq<Block>> | |l| == MAX_ORDER witness seq(MAX_ORDER, _ => [])

  /** Zones are numbered in the order they were added. */
  datatype Core = Core(metas: seq<Meta>, lists: Lists)

  ghost predicate NoDup<T>(s: seq<T>) {
    forall i, j :: 0 <= i < j < |s| ==> s[i] != s[j]
  }

  predicate IsFreeBlock(c: Core, b: Block, k: nat) {
    b.zone < |c.metas| && FreeHead(c.metas[b.zone], b.index, k)
  }

  predicate IsLiveBlock(c: Core, b: Block, k: nat) {
    b.zone < |c.metas| && LiveHead(c.metas[b.zone], b.index, k)
  }

  /** The free lists hold exactly the free blocks of the metadata, once each. */
  ghost predicate ListsAgree(c: Core) {
    && (forall k :: 0 <= k < MAX_ORDER ==> NoDup(c.lists[k]))
    && (forall k, b :: 0 <= k < MAX_ORDER ==> (b in c.lists[k] <==> IsFreeBlock(c, b, k)))
  }

  ghost predicate Ok(c: Core) {
    && (forall z :: 0 <= z < |c.metas| ==> Good(c.metas[z]))
    && ListsAgree(c)
  }

  predicate PageIsFree(c: Core, z: nat, p: nat) {
    z < |c.metas| && p < |c.metas[z]| && IsFree(c.metas[z][p])
  }

  /** Zone `b.zone` holds an aligned run of 2^k free pages at `b.index`. */
  ghost predicate HasRun(c: Core, b: Block, k: nat) {
    b.zone < |c.metas| && FreeRun(c.metas[b.zone], b.index, k)
  }

  // ---------------------------------------------------------------- allocation

  /** The smallest order from `t` on whose list is not empty, or MAX_ORDER. */
  function FirstOrder(lists: Lists, t: nat): (k: nat)
    requires t <= MAX_ORDER
    ensures t <= k <= MAX_ORDER
    ensures k < MAX_ORDER ==> lists[k] != []
    ensures forall j :: t <= j < k ==> lists[j] == []
    decreases MAX_ORDER - t
  {
    if t == MAX_ORDER || lists[t] != [] then t else FirstOrder(lists, t + 1)
  }

  /** The metadata once 2^t pages are taken from the block (h, k). */
  function SplitMeta(meta: Meta, h: nat, k: nat, t: nat): (r: Meta)
    requires t <= k <= TOP
    ensures |r| == |meta|
    ensures forall p :: 0 <= p < |meta| ==> r[p] == SplitByte(meta, h, k, t, p)
  {
    seq(|meta|, p requires 0 <= p < |meta| => SplitByte(meta, h, k, t, p))
  }

  /** Page h + d with 2^t <= d < 2^k lies in the freed piece of order ilog2(d). */
  function SplitByte(meta: Meta, h: nat, k: nat, t: nat, p: nat): Byte
    requires t <= k <= TOP && p < |meta|
  {
    if p < h || h + Pow2(k) <= p then meta[p]
    else if p < h + Pow2(t) then t
    else PieceByte(p - h, k)
  }

  function PieceByte(d: nat, k: nat): Byte
    requires 0 < d < Pow2(k) && k <= TOP
  {
    ILog2Below(d, k); FreeByte(ILog2(d))
  }

  lemma ILog2Below(d: nat, k: nat)
    requires 0 < d < Pow2(k)
    ensures ILog2(d) < k
  {
    if ILog2(d) >= k { Pow2Monotone(k, ILog2(d)); }
  }

  /** The pieces of orders s, ..., k-1 of the block at `b`, each pushed at the front of its list. */
  function PushPieces(lists: Lists, b: Block, s: nat, k: nat): (r: Lists)
    ensures forall m :: 0 <= m < MAX_ORDER ==>
      r[m] == if s <= m < k then [Block(b.zone, b.index + Pow2(m))] + lists[m] else lists[m]
  {
    var r := seq(MAX_ORDER, m requires 0 <= m < MAX_ORDER =>
      if s <= m < k then [Block(b.zone, b.index + Pow2(m))] + lists[m] else lists[m]);
    assert |r| == MAX_ORDER;
    r
  }

  function Pop(lists: Lists, k: nat): Lists
    requires k < MAX_ORDER && lists[k] != []
  {
    lists[k := lists[k][1..]]
  }

  ghost function Alloc(c: Core, t: nat): (r: (Core, Option<Block>))
    requires Ok(c)
  {
    if t >= MAX_ORDER then (c, None)
    else
      var k := FirstOrder(c.lists, t);
      if k == MAX_ORDER then (c, None)
      else
        var b := c.lists[k][0];
        assert b in c.lists[k];
        (Core(c.metas[b.zone := SplitMeta(c.metas[b.zone], b.index, k, t)],
              PushPieces(Pop(c.lists, k), b, t, k)),
         Some(b))
  }

  lemma {:induction false} ILog2Unique(d: nat, j: nat)
    requires Pow2(j) <= d < Pow2(j + 1)
    ensures ILog2(d) == j
  {
    if ILog2(d) < j { Pow2Monotone(ILog2(d) + 1, j); }
    if ILog2(d) > j { Pow2Monotone(j + 1, ILog2(d)); }
  }

  lemma SplitBytePiece(meta: Meta, h: nat, k: nat, t: nat, j: nat, q: nat)
    requires t <= j < k <= TOP && h + Pow2(k) <= |meta| && h + Pow2(j) <= q < h + Pow2(j) + Pow2(j)
    ensures q < |meta| && SplitByte(meta, h, k, t, q) == FreeByte(j)
  {
    hide ILog2;
    Pow2Monotone(t, j);
    Pow2Monotone(j + 1, k);
    ILog2Unique(q - h, j);
  }

  lemma SplitMetaPiece(meta: Meta, h: nat, k: nat, t: nat, j: nat)
    requires t <= j < k <= TOP && h + Pow2(k) <= |meta|
    ensures Uniform(SplitMeta(meta, h, k, t), h + Pow2(j), j, FreeByte(j))
  {
    hide SplitByte, FreeByte;
    Pow2Monotone(j + 1, k);
    forall q | h + Pow2(j) <= q < h + Pow2(j) + Pow2(j)
      ensures SplitMeta(meta, h, k, t)[q] == FreeByte(j)
    {
      SplitBytePiece(meta, h, k, t, j, q);
    }
  }

  lemma SplitMetaResult(meta: Meta, h: nat, k: nat, t: nat)
    requires t <= k <= TOP && h + Pow2(k) <= |meta|
    ensures SplitResult(meta, SplitMeta(meta, h, k, t), h, k, t)
  {
    Pow2Monotone(t, k);
    forall j: nat | t <= j < k ensures Uniform(SplitMeta(meta, h, k, t), h + Pow2(j), j, FreeByte(j)) {
      SplitMetaPiece(meta, h, k, t, j);
    }
  }

  lemma NoDupPush<T>(s: seq<T>, x: T)
    requires NoDup(s) && x !in s
    ensures NoDup([x] + s)
  {
  }

  /** The block an allocation takes and the metadata it leaves. */
  lemma Chosen(c: Core, t: nat) returns (k: nat, b: Block, after: Meta)
    requires Ok(c) && Alloc(c, t).1.Some?
    ensures t <= k <= TOP && k == FirstOrder(c.lists, t) && b == c.lists[k][0] && b.zone < |c.metas|
    ensures FreeHead(c.metas[b.zone], b.index, k) && Uniform(c.metas[b.zone], b.index, k, FreeByte(k))
    ensures SplitResult(c.metas[b.zone], after, b.index, k, t)
    ensures Alloc(c, t) == (Core(c.metas[b.zone := after], PushPieces(Pop(c.lists, k), b, t, k)), Some(b))
  {
    k := FirstOrder(c.lists, t);
    b := c.lists[k][0];
    assert b in c.lists[k];
    after := SplitMeta(c.metas[b.zone], b.index, k, t);
    HeadCovers(c.metas[b.zone], b.index, k);
    SplitMetaResult(c.metas[b.zone], b.index, k, t);
  }

  /** A successful allocation returns an aligned run of free pages. */
  lemma AllocReturnsRun(c: Core, t: nat)
    requires Ok(c) && Alloc(c, t).1.Some?
    ensures t < MAX_ORDER && HasRun(c, Alloc(c, t).1.value, t)
  {
    var k, b, after := Chosen(c, t);
    AlignedDown(b.index, t, k);
    Pow2Monotone(t, k);
  }

  /** The returned block becomes live and no other block does. */
  lemma AllocLive(c: Core, t: nat, g: Block, m: nat)
    requires Ok(c) && Alloc(c, t).1.Some?
    ensures IsLiveBlock(Alloc(c, t).0, g, m) <==>
              IsLiveBlock(c, g, m) || (g == Alloc(c, t).1.value && m == t)
  {
    var k, b, after := Chosen(c, t);
    SplitLiveHead(c.metas[b.zone], after, b.index, k, t, g.index, m);
  }

  /** Exactly the returned pages stop being free. */
  lemma AllocPages(c: Core, t: nat, z: nat, p: nat)
    requires Ok(c) && Alloc(c, t).1.Some?
    ensures var b := Alloc(c, t).1.value;
            PageIsFree(Alloc(c, t).0, z, p) <==>
              PageIsFree(c, z, p) && !(z == b.zone && b.index <= p < b.index + Pow2(t))
  {
    var k, b, after := Chosen(c, t);
    hide Ok, Alloc, FreeHead, Uniform, SplitResult, PushPieces, Pop, FirstOrder, IsFree;
    if z == b.zone && p < |after| { SplitPages(c.metas[b.zone], after, b.index, k, t, p); }
    SplitLength(c.metas[b.zone], after, b.index, k, t);
  }

  lemma SplitLength(meta: Meta, after: Meta, h: nat, k: nat, t: nat)
    requires t <= k <= TOP && SplitResult(meta, after, h, k, t)
    ensures |after| == |meta|
  {
  }

  lemma SplitPages(meta: Meta, after: Meta, h: nat, k: nat, t: nat, p: nat)
    requires t <= k <= TOP && SplitResult(meta, after, h, k, t) && FreeHead(meta, h, k)
               && Uniform(meta, h, k, FreeByte(k)) && p < |after|
    ensures p < |meta| && (IsFree(after[p]) <==> IsFree(meta[p]) && !(h <= p < h + Pow2(t)))
  {
    Pow2Monotone(t, k);
    if h + Pow2(t) <= p < h + Pow2(k) {
      var j := SplitPiece(meta, after, h, k, t, p);
    }
  }

  lemma AllocNoDup(c: Core, t: nat, m: nat)
    requires Ok(c) && Alloc(c, t).1.Some? && m < MAX_ORDER
    ensures NoDup(Alloc(c, t).0.lists[m])
  {
    var k, b, after := Chosen(c, t);
    if t <= m < k {
      var piece := Block(b.zone, b.index + Pow2(m));
      Pow2Monotone(m + 1, k);
      assert !IsFreeBlock(c, piece, m);
      NoDupPush(c.lists[m], piece);
    }
  }

  lemma AllocAgree(c: Core, t: nat, m: nat, g: Block)
    requires Ok(c) && Alloc(c, t).1.Some? && m < MAX_ORDER
    ensures g in Alloc(c, t).0.lists[m] <==> IsFreeBlock(Alloc(c, t).0, g, m)
  {
    var k, b, after := Chosen(c, t);
    SplitFreeHead(c.metas[b.zone], after, b.index, k, t, g.index, m);
    assert IsFreeBlock(Alloc(c, t).0, g, m) <==>
        (IsFreeBlock(c, g, m) && g != b) || (t <= m < k && g == Block(b.zone, b.index + Pow2(m)));
    assert NoDup(c.lists[k]);
    assert c.lists[k] == [b] + c.lists[k][1..];
  }

  lemma AllocOk(c: Core, t: nat)
    requires Ok(c)
    ensures Ok(Alloc(c, t).0) && |Alloc(c, t).0.metas| == |c.metas|
  {
    if Alloc(c, t).1.Some? {
      var k, b, after := Chosen(c, t);
      SplitGood(c.metas[b.zone], after, b.index, k, t);
      forall m | 0 <= m < MAX_ORDER ensures NoDup(Alloc(c, t).0.lists[m]) {
        AllocNoDup(c, t, m);
      }
      forall m, g | 0 <= m < MAX_ORDER
        ensures g in Alloc(c, t).0.lists[m] <==> IsFreeBlock(Alloc(c, t).0, g, m)
      {
        AllocAgree(c, t, m, g);
      }
    }
  }

  /** Allocation fails exactly when no zone holds an aligned run of free pages of the order asked for. */
  lemma AllocComplete(c: Core, t: nat)
    requires Ok(c)
    ensures Alloc(c, t).1.None? <==> t >= 11 || !exists b :: HasRun(c, b, t)
    ensures Alloc(c, t).1.None? ==> Alloc(c, t).0 == c
  {
    if t >= 11 { return; }
    if Alloc(c, t).1.Some? {
      AllocReturnsRun(c, t);
    } else if b :| HasRun(c, b, t) {
      var meta := c.metas[b.zone];
      RunInOneBlock(meta, b.index, t);
      var h, k := HeadOf(meta, b.index);
      assert IsFreeBlock(c, Block(b.zone, h), k);
    }
  }

  /** A run holds a run of every smaller order. */
  lemma RunShrinks(c: Core, b: Block, j: nat, k: nat)
    requires HasRun(c, b, k) && j <= k
    ensures HasRun(c, b, j)
  {
    AlignedDown(b.index, j, k);
    Pow2Monotone(j, k);
  }

  // ---------------------------------------------------------------- freeing

  /** `s` without the element `x`. */
  function Without<T(==)>(s: seq<T>, x: T): (r: seq<T>)
    ensures forall y :: y in r ==> y in s
    ensures forall y :: y in s && y != x ==> y in r
  {
    if s == [] then [] else if s[0] == x then s[1..] else [s[0]] + Without(s[1..], x)
  }

  lemma {:induction false} WithoutNoDup<T>(s: seq<T>, x: T)
    requires NoDup(s)
    ensures NoDup(Without(s, x)) && x !in Without(s, x)
  {
    if s != [] && s[0] != x {
      WithoutNoDup(s[1..], x);
      NoDupPush(Without(s[1..], x), s[0]);
    }
  }

  datatype Merged = Merged(lists: Lists, index: nat, order: nat)

  /** Merges the run (i, k) of zone z with its buddy for as long as the buddy is a free block of the same order. */
  function Coalesce(meta: Meta, lists: Lists, z: nat, i: nat, k: nat): (r: Merged)
    requires k <= TOP
    ensures k <= r.order <= TOP
    decreases TOP - k
  {
    var buddy := ToggleBit(i, k);
    if k < TOP && buddy < |meta| && buddy + Pow2(k) <= |meta| && meta[buddy] == FreeByte(k) then
      Coalesce(meta, lists[k := Without(lists[k], Block(z, buddy))], z, ClearBit(i, k), k + 1)
    else
      Merged(lists, i, k)
  }

  /** One turn of the loop: it goes on exactly where the buddy can be merged. */
  lemma CoalesceTurn(meta: Meta, lists: Lists, z: nat, h: nat, j: nat, i: nat, k: nat)
    requires Tiled(meta) && Absorbed(meta, h, j, i, k)
    ensures k <= TOP && (CanMerge(meta, i, k) ==> k < TOP)
    ensures Coalesce(meta, lists, z, i, k) ==
      if CanMerge(meta, i, k)
      then Coalesce(meta, lists[k := Without(lists[k], Block(z, ToggleBit(i, k)))], z, ClearBit(i, k), k + 1)
      else Merged(lists, i, k)
  {
    assert k <= TOP && Aligned(i, k);
    hide Down, Aligned, Bit, Without, ToggleBit, ClearBit, Tiled, Absorbed;
    BuddyOf(i, k);
    if CanMerge(meta, i, k) { HeadCovers(meta, ToggleBit(i, k), k); }
  }

  lemma {:induction false} CoalesceAbsorbs(meta: Meta, lists: Lists, z: nat, h: nat, j: nat, i: nat, k: nat)
    requires Tiled(meta) && Absorbed(meta, h, j, i, k)
    ensures var m := Coalesce(meta, lists, z, i, k);
            Absorbed(meta, h, j, m.index, m.order) && !CanMerge(meta, m.index, m.order)
    decreases TOP - k
  {
    CoalesceTurn(meta, lists, z, h, j, i, k);
    hide Absorbed, Tiled, CanMerge, Coalesce, ToggleBit, ClearBit, Without;
    if CanMerge(meta, i, k) {
      AbsorbBuddy(meta, h, j, i, k);
      var rest := lists[k := Without(lists[k], Block(z, ToggleBit(i, k)))];
      CoalesceAbsorbs(meta, rest, z, h, j, ClearBit(i, k), k + 1);
    }
  }

  /** The lists hold the free blocks of `c` that lie outside the run (i, k) of zone z. */
  ghost predicate ListsOutside(c: Core, lists: Lists, z: nat, i: nat, k: nat) {
    && (forall m :: 0 <= m < MAX_ORDER ==> NoDup(lists[m]))
    && (forall m, b :: 0 <= m < MAX_ORDER ==>
          (b in lists[m] <==> IsFreeBlock(c, b, m) && !(b.zone == z && i <= b.index < i + Pow2(k))))
  }

  /** Merging with the buddy takes exactly one block off the lists. */
  lemma ListsOutsideStep(c: Core, lists: Lists, z: nat, i: nat, k: nat)
    requires z < |c.metas| && Tiled(c.metas[z]) && Aligned(i, k)
    requires CanMerge(c.metas[z], i, k) && ListsOutside(c, lists, z, i, k)
    ensures ListsOutside(c, lists[k := Without(lists[k], Block(z, ToggleBit(i, k)))], z, ClearBit(i, k), k + 1)
  {
    hide Down, Aligned, Bit;
    var buddy := ToggleBit(i, k);
    BuddyOf(i, k);
    HeadCovers(c.metas[z], buddy, k);
    WithoutNoDup(lists[k], Block(z, buddy));
    forall b, m: nat | IsFreeBlock(c, b, m) && b.zone == z && buddy <= b.index < buddy + Pow2(k)
      ensures b.index == buddy && m == k
    {
      AlignedApart(buddy, b.index, k);
    }
  }

  lemma {:induction false} CoalesceLists(c: Core, lists: Lists, z: nat, h: nat, j: nat, i: nat, k: nat)
    requires z < |c.metas| && Tiled(c.metas[z]) && Absorbed(c.metas[z], h, j, i, k)
    requires ListsOutside(c, lists, z, i, k)
    ensures var m := Coalesce(c.metas[z], lists, z, i, k);
            ListsOutside(c, m.lists, z, m.index, m.order)
    decreases TOP - k
  {
    hide Down, Aligned, Bit;
    BuddyOf(i, k);
    var buddy := ToggleBit(i, k);
    hide Weight, Down, Aligned, Bit, Tiled, Without;
    if CanMerge(c.metas[z], i, k) {
      HeadCovers(c.metas[z], buddy, k);
      AbsorbBuddy(c.metas[z], h, j, i, k);
      ListsOutsideStep(c, lists, z, i, k);
      CoalesceLists(c, lists[k := Without(lists[k], Block(z, buddy))], z, h, j, ClearBit(i, k), k + 1);
    }
  }

  /** Gives the live block (b, k) back: coalesce, mark the merged block free, push it. */
  ghost function Free(c: Core, b: Block, k: nat): (r: Core)
    requires Ok(c) && IsLiveBlock(c, b, k)
  {
    var meta := c.metas[b.zone];
    var m := Coalesce(meta, c.lists, b.zone, b.index, k);
    HeadAbsorbed(meta, b.index, k);
    CoalesceAbsorbs(meta, c.lists, b.zone, b.index, k, b.index, k);
    Core(c.metas[b.zone := Fill(meta, m.index, m.order, FreeByte(m.order))],
         m.lists[m.order := [Block(b.zone, m.index)] + m.lists[m.order]])
  }

  lemma HeadAbsorbed(meta: Meta, h: nat, j: nat)
    requires Tiled(meta) && LiveHead(meta, h, j)
    ensures Absorbed(meta, h, j, h, j)
  {
    HeadCovers(meta, h, j);
  }

  lemma StartOutside(c: Core, b: Block, k: nat)
    requires Ok(c) && IsLiveBlock(c, b, k)
    ensures ListsOutside(c, c.lists, b.zone, b.index, k)
  {
    HeadCovers(c.metas[b.zone], b.index, k);
  }

  /** What coalescing reaches from the live block (b, k). */
  lemma Reached(c: Core, b: Block, k: nat) returns (m: Merged)
    requires Ok(c) && IsLiveBlock(c, b, k)
    ensures m == Coalesce(c.metas[b.zone], c.lists, b.zone, b.index, k)
    ensures Absorbed(c.metas[b.zone], b.index, k, m.index, m.order)
    ensures !CanMerge(c.metas[b.zone], m.index, m.order)
    ensures ListsOutside(c, m.lists, b.zone, m.index, m.order)
    ensures Free(c, b, k) == Core(c.metas[b.zone := Fill(c.metas[b.zone], m.index, m.order, FreeByte(m.order))],
                                  m.lists[m.order := [Block(b.zone, m.index)] + m.lists[m.order]])
  {
    m := Coalesce(c.metas[b.zone], c.lists, b.zone, b.index, k);
    HeadAbsorbed(c.metas[b.zone], b.index, k);
    CoalesceAbsorbs(c.metas[b.zone], c.lists, b.zone, b.index, k, b.index, k);
    StartOutside(c, b, k);
    CoalesceLists(c, c.lists, b.zone, b.index, k, b.index, k);
  }

  /** The freed block stops being live and no other block does. */
  lemma FreeLive(c: Core, b: Block, k: nat, g: Block, m: nat)
    requires Ok(c) && IsLiveBlock(c, b, k)
    ensures IsLiveBlock(Free(c, b, k), g, m) <==> IsLiveBlock(c, g, m) && g != b
  {
    var r := Reached(c, b, k);
    MergeHeads(c.metas[b.zone], b.index, k, r.index, r.order, g.index, m);
  }

  /** Exactly the pages of the freed block become free. */
  lemma FreePages(c: Core, b: Block, k: nat, z: nat, p: nat)
    requires Ok(c) && IsLiveBlock(c, b, k)
    ensures PageIsFree(Free(c, b, k), z, p) <==>
              PageIsFree(c, z, p) || (z == b.zone && b.index <= p < b.index + Pow2(k))
  {
    var r := Reached(c, b, k);
  }

  lemma FreeOk(c: Core, b: Block, k: nat)
    requires Ok(c) && IsLiveBlock(c, b, k)
    ensures Ok(Free(c, b, k)) && |Free(c, b, k).metas| == |c.metas|
  {
    hide Down, Aligned, Bit, Tiled, Canonical, Pow2, Coalesce;
    var r := Reached(c, b, k);
    var c' := Free(c, b, k);
    var meta := c.metas[b.zone];
    MergeGood(meta, b.index, k, r.index, r.order);
    NoDupPush(r.lists[r.order], Block(b.zone, r.index));
    forall m, g | 0 <= m < MAX_ORDER ensures g in c'.lists[m] <==> IsFreeBlock(c', g, m) {
      MergeHeads(meta, b.index, k, r.index, r.order, g.index, m);
    }
  }

  // ---------------------------------------------------------------- adding a zone

  function Zeros(n: nat): (r: Meta)
    ensures |r| == n && forall p :: 0 <= p < n ==> r[p] == 0
  {
    seq(n, _ => 0)
  }

  /** Covers the pages from `i` on with the largest aligned blocks that fit, pushing each on its list. */
  function Seed(meta: Meta, lists: Lists, z: nat, i: nat): (r: (Meta, Lists))
    requires i <= |meta|
    ensures |r.0| == |meta|
    decreases |meta| - i
  {
    if i == |meta| then (meta, lists)
    else
      SeedOrderFits(i, |meta| - i);
      var k := SeedOrder(i, |meta| - i);
      Seed(Fill(meta, i, k, FreeByte(k)), lists[k := [Block(z, i)] + lists[k]], z, i + Pow2(k))
  }

  function AddZone(c: Core, n: nat): Core {
    var (meta, lists) := Seed(Zeros(n), c.lists, |c.metas|, 0);
    Core(c.metas + [meta], lists)
  }

  ghost predicate SeedAgree(c: Core, meta: Meta, lists: Lists) {
    && (forall m :: 0 <= m < MAX_ORDER ==> NoDup(lists[m]))
    && (forall m, b :: 0 <= m < MAX_ORDER ==>
          (b in lists[m] <==> IsFreeBlock(c, b, m) || (b.zone == |c.metas| && FreeHead(meta, b.index, m))))
  }

  lemma SeedAgreeStep(c: Core, meta: Meta, lists: Lists, i: nat, k: nat)
    requires Seeded(meta, i) && SeedAgree(c, meta, lists)
    requires Aligned(i, k) && k <= TOP && i + Pow2(k) <= |meta|
    ensures SeedAgree(c, Fill(meta, i, k, FreeByte(k)), lists[k := [Block(|c.metas|, i)] + lists[k]])
  {
    var b := Block(|c.metas|, i);
    assert meta[i] == 0;
    assert b !in lists[k];
    forall g, m: nat | IsFreeBlock(c, g, m) ensures g.zone < |c.metas| {}
    hide FreeHead, Fill, Seeded, Aligned, IsFreeBlock;
    NoDupPush(lists[k], b);
    var after, lists' := Fill(meta, i, k, FreeByte(k)), lists[k := [b] + lists[k]];
    forall m, g | 0 <= m < MAX_ORDER
      ensures g in lists'[m] <==> IsFreeBlock(c, g, m) || (g.zone == |c.metas| && FreeHead(after, g.index, m))
    {
      SeedHead(meta, i, k, g.index, m);
    }
  }

  lemma {:induction false} SeedKeeps(c: Core, meta: Meta, lists: Lists, i: nat)
    requires Seeded(meta, i) && SeedAgree(c, meta, lists)
    ensures var (meta', lists') := Seed(meta, lists, |c.metas|, i);
            Seeded(meta', |meta'|) && SeedAgree(c, meta', lists')
    decreases |meta| - i
  {
    hide Down, Aligned, Bit, Tiled, FreeHead, SeedOrder, IsFree, IsFreeBlock, Fill;
    if i < |meta| {
      SeedOrderFits(i, |meta| - i);
      var k := SeedOrder(i, |meta| - i);
      SeedStep(meta, i);
      SeedAgreeStep(c, meta, lists, i, k);
      SeedKeeps(c, Fill(meta, i, k, FreeByte(k)), lists[k := [Block(|c.metas|, i)] + lists[k]], i + Pow2(k));
    }
  }

  /** A new zone is added with all its pages free and in canonical form; the zones before it stay as they were. */
  lemma AddZoneOk(c: Core, n: nat)
    requires Ok(c)
    ensures var c' := AddZone(c, n);
            && Ok(c')
            && |c'.metas| == |c.metas| + 1 && c'.metas[..|c.metas|] == c.metas
            && |c'.metas[|c.metas|]| == n
            && (forall p :: 0 <= p < n ==> IsFree(c'.metas[|c.metas|][p]))
  {
    hide Down, Aligned, Bit, Tiled, SeedOrder, Canonical, Seed;
    ZeroSeeded(Zeros(n));
    SeedKeeps(c, Zeros(n), c.lists, 0);
    var c' := AddZone(c, n);
    SeedingDone(c'.metas[|c.metas|]);
  }

  // ---------------------------------------------------------------- conservation

  /** The pages on the lists of orders below `n`. */
  function Weight(lists: Lists, n: nat): nat
    requires n <= MAX_ORDER
  {
    if n == 0 then 0 else Weight(lists, n - 1) + |lists[n - 1]| * Pow2(n - 1)
  }

  function CountUsed(meta: Meta): nat {
    if meta == [] then 0
    else CountUsed(meta[..|meta| - 1]) + if IsFree(meta[|meta| - 1]) then 0 else 1
  }

  function UsedPages(metas: seq<Meta>): nat {
    if metas == [] then 0 else UsedPages(metas[..|metas| - 1]) + CountUsed(metas[|metas| - 1])
  }

  function TotalPages(metas: seq<Meta>): nat {
    if metas == [] then 0 else TotalPages(metas[..|metas| - 1]) + |metas[|metas| - 1]|
  }

  lemma {:induction false} WeightPush(lists: Lists, k: nat, l: seq<Block>, n: nat)
    requires k < MAX_ORDER && |l| == |lists[k]| + 1 && n <= MAX_ORDER
    ensures Weight(lists[k := l], n) == Weight(lists, n) + if k < n then Pow2(k) else 0
  {
    hide Pow2;
    if n > 0 {
      WeightPush(lists, k, l, n - 1);
      if k == n - 1 { OneMore(|lists[k]|, Pow2(k)); }
    }
  }

  lemma OneMore(n: nat, size: nat)
    ensures (n + 1) * size == n * size + size
  {
  }

  lemma {:induction false} WithoutLength<T>(s: seq<T>, x: T)
    requires x in s
    ensures |Without(s, x)| + 1 == |s|
  {
    if s[0] != x { WithoutLength(s[1..], x); }
  }

  lemma WeightPop(lists: Lists, k: nat, l: seq<Block>)
    requires k < MAX_ORDER && |l| + 1 == |lists[k]|
    ensures Weight(lists[k := l], MAX_ORDER) + Pow2(k) == Weight(lists, MAX_ORDER)
  {
    WeightPush(lists[k := l], k, lists[k], MAX_ORDER);
    assert lists[k := l][k := lists[k]] == lists;
  }

  lemma {:induction false} WeightPieces(lists: Lists, b: Block, s: nat, k: nat)
    requires s <= k < MAX_ORDER
    ensures Weight(PushPieces(lists, b, s, k), MAX_ORDER) + Pow2(s) == Weight(lists, MAX_ORDER) + Pow2(k)
    decreases k
  {
    if s == k {
      assert PushPieces(lists, b, s, k) == lists;
    } else {
      var l := [Block(b.zone, b.index + Pow2(k - 1))] + lists[k - 1];
      assert PushPieces(lists, b, s, k) == PushPieces(lists, b, s, k - 1)[k - 1 := l];
      WeightPieces(lists, b, s, k - 1);
      WeightPush(PushPieces(lists, b, s, k - 1), k - 1, l, MAX_ORDER);
    }
  }

  lemma {:induction false} CoalesceWeight(c: Core, lists: Lists, z: nat, h: nat, j: nat, i: nat, k: nat)
    requires z < |c.metas| && Tiled(c.metas[z]) && Absorbed(c.metas[z], h, j, i, k)
    requires ListsOutside(c, lists, z, i, k)
    ensures var m := Coalesce(c.metas[z], lists, z, i, k);
            Weight(m.lists, MAX_ORDER) + Pow2(m.order) == Weight(lists, MAX_ORDER) + Pow2(k)
    decreases TOP - k
  {
    CoalesceTurn(c.metas[z], lists, z, h, j, i, k);
    hide Absorbed, Tiled, Coalesce, ToggleBit, ClearBit, Without, Weight;
    if CanMerge(c.metas[z], i, k) {
      var buddy := ToggleBit(i, k);
      AbsorbBuddy(c.metas[z], h, j, i, k);
      BuddyListed(c, lists, z, h, j, i, k);
      WithoutLength(lists[k], Block(z, buddy));
      WeightPop(lists, k, Without(lists[k], Block(z, buddy)));
      CoalesceWeight(c, lists[k := Without(lists[k], Block(z, buddy))], z, h, j, ClearBit(i, k), k + 1);
    }
  }

  /** A buddy that can be merged is on its list, and taking it off leaves the blocks outside the merged run. */
  lemma BuddyListed(c: Core, lists: Lists, z: nat, h: nat, j: nat, i: nat, k: nat)
    requires z < |c.metas| && Tiled(c.metas[z]) && Absorbed(c.metas[z], h, j, i, k)
    requires CanMerge(c.metas[z], i, k) && ListsOutside(c, lists, z, i, k)
    ensures Block(z, ToggleBit(i, k)) in lists[k] && NoDup(lists[k])
    ensures ListsOutside(c, lists[k := Without(lists[k], Block(z, ToggleBit(i, k)))], z, ClearBit(i, k), k + 1)
  {
    hide Down, Aligned, Bit, Without;
    BuddyOf(i, k);
    ListsOutsideStep(c, lists, z, i, k);
    assert IsFreeBlock(c, Block(z, ToggleBit(i, k)), k);
  }

  lemma {:induction false} SeedWeight(meta: Meta, lists: Lists, z: nat, i: nat)
    requires i <= |meta|
    ensures Weight(Seed(meta, lists, z, i).1, MAX_ORDER) == Weight(lists, MAX_ORDER) + |meta| - i
    decreases |meta| - i
  {
    hide Down, Aligned, Bit, SeedOrder, Fill, Weight;
    if i < |meta| {
      SeedOrderFits(i, |meta| - i);
      var k := SeedOrder(i, |meta| - i);
      WeightPush(lists, k, [Block(z, i)] + lists[k], MAX_ORDER);
      SeedWeight(Fill(meta, i, k, FreeByte(k)), lists[k := [Block(z, i)] + lists[k]], z, i + Pow2(k));
    }
  }

  /** Where exactly `n` pages from `lo` turn from free to used, the count of used pages grows by `n`. */
  lemma {:induction false} CountTurned(a: Meta, b: Meta, lo: nat, n: nat)
    requires |a| == |b| && lo + n <= |a|
    requires forall p :: 0 <= p < |a| ==>
      if lo <= p < lo + n then IsFree(a[p]) && !IsFree(b[p]) else IsFree(a[p]) == IsFree(b[p])
    ensures CountUsed(b) == CountUsed(a) + n
  {
    if a != [] {
      var last := |a| - 1;
      if lo + n == |a| && n > 0 {
        CountTurned(a[..last], b[..last], lo, n - 1);
      } else {
        CountTurned(a[..last], b[..last], if lo == |a| then last else lo, n);
      }
    }
  }

  lemma {:induction false} UsedUpdate(metas: seq<Meta>, z: nat, meta: Meta)
    requires z < |metas|
    ensures UsedPages(metas[z := meta]) + CountUsed(metas[z]) == UsedPages(metas) + CountUsed(meta)
    ensures |meta| == |metas[z]| ==> TotalPages(metas[z := meta]) == TotalPages(metas)
  {
    var last := |metas| - 1;
    if z < last {
      UsedUpdate(metas[..last], z, meta);
      assert metas[z := meta][..last] == metas[..last][z := meta];
    } else {
      assert metas[z := meta][..last] == metas[..last];
    }
  }

  /** Used pages and the sizes of the free blocks add up to all pages. */
  ghost predicate Balanced(c: Core) {
    UsedPages(c.metas) + Weight(c.lists, MAX_ORDER) == TotalPages(c.metas)
  }

  lemma AllocBalance(c: Core, t: nat)
    requires Ok(c) && Alloc(c, t).1.Some?
    ensures var c' := Alloc(c, t).0;
            && UsedPages(c'.metas) == UsedPages(c.metas) + Pow2(t)
            && Weight(c'.lists, MAX_ORDER) + Pow2(t) == Weight(c.lists, MAX_ORDER)
            && TotalPages(c'.metas) == TotalPages(c.metas)
  {
    var k, b, after := Chosen(c, t);
    hide Ok, FreeHead, Weight, CountUsed, UsedPages, TotalPages, FirstOrder, IsFree;
    SplitLength(c.metas[b.zone], after, b.index, k, t);
    WeightPop(c.lists, k, c.lists[k][1..]);
    WeightPieces(Pop(c.lists, k), b, t, k);
    Pow2Monotone(t, k);
    forall p | 0 <= p < |after|
      ensures if b.index <= p < b.index + Pow2(t) then IsFree(c.metas[b.zone][p]) && !IsFree(after[p])
              else IsFree(c.metas[b.zone][p]) == IsFree(after[p])
    {
      AllocPages(c, t, b.zone, p);
    }
    CountTurned(c.metas[b.zone], after, b.index, Pow2(t));
    UsedUpdate(c.metas, b.zone, after);
  }

  lemma FreeBalance(c: Core, b: Block, k: nat)
    requires Ok(c) && IsLiveBlock(c, b, k)
    ensures var c' := Free(c, b, k);
            && UsedPages(c'.metas) + Pow2(k) == UsedPages(c.metas)
            && Weight(c'.lists, MAX_ORDER) == Weight(c.lists, MAX_ORDER) + Pow2(k)
            && TotalPages(c'.metas) == TotalPages(c.metas)
  {
    var r := Reached(c, b, k);
    HeadAbsorbed(c.metas[b.zone], b.index, k);
    StartOutside(c, b, k);
    CoalesceWeight(c, c.lists, b.zone, b.index, k, b.index, k);
    WeightPush(r.lists, r.order, [Block(b.zone, r.index)] + r.lists[r.order], MAX_ORDER);
    var meta := c.metas[b.zone];
    var after := Fill(meta, r.index, r.order, FreeByte(r.order));
    HeadCovers(meta, b.index, k);
    CountTurned(after, meta, b.index, Pow2(k));
    UsedUpdate(c.metas, b.zone, after);
  }

  lemma {:induction false} CountAllFree(meta: Meta)
    requires forall p :: 0 <= p < |meta| ==> IsFree(meta[p])
    ensures CountUsed(meta) == 0
  {
    if meta != [] { CountAllFree(meta[..|meta| - 1]); }
  }

  lemma AddZoneBalance(c: Core, n: nat)
    requires Ok(c)
    ensures var c' := AddZone(c, n);
            && UsedPages(c'.metas) == UsedPages(c.metas)
            && Weight(c'.lists, MAX_ORDER) == Weight(c.lists, MAX_ORDER) + n
            && TotalPages(c'.metas) == TotalPages(c.metas) + n
  {
    AddZoneOk(c, n);
    SeedWeight(Zeros(n), c.lists, |c.metas|, 0);
    CountAllFree(AddZone(c, n).metas[|c.metas|]);
  }
}
