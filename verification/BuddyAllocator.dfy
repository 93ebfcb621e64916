/** The page allocator itself: pointers, metadata bytes and list headers updated in place. */
module BuddyAllocator {
  import opened Wrappers
  import opened Alignment
  import opened BuddyTiling
  import opened BuddyCore
  import opened BuddyLinks
  import opened BuddyReserve
  import opened BuddyDmap
  import BuddyRuns

  datatype Zone = Zone(metaArray: nat, dataBase: nat, totalPages: nat, next: nat)
  /** The last three are for a page in the middle of a live block. */
  datatype FreeOutcome =
    | Freed | Ignored | NotPageAligned | DoubleFree | NotOwned
    | Misfreed | NoHeader | PastMetadata

  function ZonePtrAt(layout: Layout, z: int): nat {
    if 0 <= z < |layout| then layout[z].zonePtr else 0
  }

  /** The zone records form a list from the newest zone to the oldest. */
  ghost predicate ZonesStored(zones: map<nat, Zone>, zoneHead: nat, layout: Layout) {
    && zoneHead == ZonePtrAt(layout, |layout| - 1)
    && forall z :: 0 <= z < |layout| ==> ZoneStored(zones, layout, z)
  }

  ghost predicate ZoneStored(zones: map<nat, Zone>, layout: Layout, z: int)
    requires 0 <= z < |layout|
  {
    var r := layout[z];
    r.zonePtr in zones &&
    zones[r.zonePtr] == Zone(r.metaBase, r.dataBase, r.pages, ZonePtrAt(layout, z - 1))
  }

  ghost predicate MetaStored(metaMem: map<nat, Meta>, layout: Layout, metas: seq<Meta>) {
    |metas| == |layout| &&
    forall z :: 0 <= z < |layout| ==>
      |metas[z]| == layout[z].pages && layout[z].metaBase in metaMem && metaMem[layout[z].metaBase] == metas[z]
  }

  /** The lowest page address of any zone, zero while there is none. */
  ghost predicate LowestOk(lowest: nat, layout: Layout) {
    && (layout == [] ==> lowest == 0)
    && (layout != [] ==> exists z :: 0 <= z < |layout| && layout[z].dataBase == lowest)
    && (forall z :: 0 <= z < |layout| ==> lowest <= layout[z].dataBase)
  }

  lemma RegionsApart(layout: Layout, y: nat, z: nat)
    requires LayoutOk(layout) && y < |layout| && z < |layout| && y != z
    ensures layout[y].metaBase != layout[z].metaBase && layout[y].zonePtr != layout[z].zonePtr
  {
    if y < z {
      assert layout[y].End() <= layout[z].metaBase || layout[z].End() <= layout[y].metaBase;
    } else {
      assert layout[z].End() <= layout[y].metaBase || layout[y].End() <= layout[z].metaBase;
    }
  }

  /** What a zone number leads to in memory. */
  lemma ZoneAt(zones: map<nat, Zone>, zoneHead: nat, metaMem: map<nat, Meta>, layout: Layout, metas: seq<Meta>, z: nat)
    requires ZonesStored(zones, zoneHead, layout) && MetaStored(metaMem, layout, metas) && z < |metas|
    ensures |metas| == |layout|
    ensures var r := layout[z];
            && r.zonePtr in zones
            && zones[r.zonePtr] == Zone(r.metaBase, r.dataBase, r.pages, ZonePtrAt(layout, z - 1))
            && |metas[z]| == r.pages && r.metaBase in metaMem && metaMem[r.metaBase] == metas[z]
  {
    assert ZoneStored(zones, layout, z);
  }

  lemma MetaUpdate(metaMem: map<nat, Meta>, layout: Layout, metas: seq<Meta>, z: nat, meta: Meta)
    requires LayoutOk(layout) && MetaStored(metaMem, layout, metas) && z < |layout| && |meta| == |metas[z]|
    ensures MetaStored(metaMem[layout[z].metaBase := meta], layout, metas[z := meta])
  {
    forall y | 0 <= y < |layout| && y != z ensures layout[y].metaBase != layout[z].metaBase {
      RegionsApart(layout, y, z);
    }
  }

  lemma OkDistinct(c: Core)
    requires Ok(c)
    ensures Distinct(c.lists)
  {
    forall j, k, b | 0 <= j < k < MAX_ORDER && b in c.lists[j] ensures b !in c.lists[k] {
      assert IsFreeBlock(c, b, j);
    }
  }

  lemma AllocFrom(c: Core, t: nat)
    requires Ok(c) && t < MAX_ORDER && FirstOrder(c.lists, t) < MAX_ORDER
    ensures var k := FirstOrder(c.lists, t); var b := c.lists[k][0];
            && b.zone < |c.metas|
            && Alloc(c, t) == (Core(c.metas[b.zone := SplitMeta(c.metas[b.zone], b.index, k, t)],
                                    PushPieces(Pop(c.lists, k), b, t, k)),
                               Some(b))
  {
    var k := FirstOrder(c.lists, t);
    assert c.lists[k][0] in c.lists[k];
  }

  lemma AllocKeepsBalance(c: Core, t: nat)
    requires Ok(c) && Balanced(c) && Alloc(c, t).1.Some?
    ensures Balanced(Alloc(c, t).0)
  {
    AllocBalance(c, t);
  }

  // ---------------------------------------------------------------- the split, half way

  /** The metadata once the pieces of orders s, ..., k-1 of the block at `h` are marked free. */
  function PiecesMeta(meta: Meta, h: nat, k: nat, s: nat): (r: Meta)
    requires s <= k <= TOP
    ensures |r| == |meta|
    ensures forall p :: 0 <= p < |meta| ==> r[p] == PiecesByte(meta, h, k, s, p)
  {
    seq(|meta|, p requires 0 <= p < |meta| => PiecesByte(meta, h, k, s, p))
  }

  function PiecesByte(meta: Meta, h: nat, k: nat, s: nat, p: nat): Byte
    requires s <= k <= TOP && p < |meta|
  {
    if h + Pow2(s) <= p < h + Pow2(k) then PieceByte(p - h, k) else meta[p]
  }

  lemma PiecesStart(meta: Meta, lists: Lists, b: Block, k: nat)
    requires k <= TOP
    ensures PiecesMeta(meta, b.index, k, k) == meta && PushPieces(lists, b, k, k) == lists
  {
  }

  lemma PiecesStep(meta: Meta, h: nat, k: nat, s: nat)
    requires s < k <= TOP && h + Pow2(k) <= |meta|
    ensures h + Pow2(s) + Pow2(s) <= |meta|
    ensures Fill(PiecesMeta(meta, h, k, s + 1), h + Pow2(s), s, FreeByte(s)) == PiecesMeta(meta, h, k, s)
  {
    Pow2Monotone(s + 1, k);
    var a, b := Fill(PiecesMeta(meta, h, k, s + 1), h + Pow2(s), s, FreeByte(s)), PiecesMeta(meta, h, k, s);
    forall p | 0 <= p < |meta| ensures a[p] == b[p] {
      if h + Pow2(s) <= p < h + Pow2(s + 1) { ILog2Unique(p - h, s); }
    }
  }

  lemma PiecesDone(meta: Meta, h: nat, k: nat, t: nat)
    requires t <= k <= TOP && h + Pow2(k) <= |meta|
    ensures h + Pow2(t) <= |meta|
    ensures PiecesMeta(Fill(meta, h, t, t), h, k, t) == SplitMeta(meta, h, k, t)
  {
    Pow2Monotone(t, k);
    var a, b := PiecesMeta(Fill(meta, h, t, t), h, k, t), SplitMeta(meta, h, k, t);
    forall p | 0 <= p < |meta| ensures a[p] == b[p] {
    }
  }

  /** No listed block starts inside the run of 2^k pages at `b`. */
  ghost predicate ClearOf(lists: Lists, b: Block, k: nat) {
    forall m, g :: 0 <= m < MAX_ORDER && g in lists[m] && g.zone == b.zone ==>
      !(b.index <= g.index < b.index + Pow2(k))
  }

  lemma PieceAbsent(lists: Lists, b: Block, s: nat, k: nat, m: nat)
    requires s < k <= TOP && ClearOf(lists, b, k) && m < MAX_ORDER
    ensures Block(b.zone, b.index + Pow2(s)) !in lists[m]
    ensures s < m ==> Pow2(s) < Pow2(m)
  {
    Pow2Monotone(s + 1, k);
    if s < m { Pow2Monotone(s + 1, m); }
  }

  lemma PieceUnlisted(lists: Lists, b: Block, s: nat, k: nat)
    requires s < k <= TOP && ClearOf(lists, b, k)
    ensures Unlisted(PushPieces(lists, b, s + 1, k), Block(b.zone, b.index + Pow2(s)))
  {
    hide PushPieces, Pow2, ClearOf;
    var piece, done := Block(b.zone, b.index + Pow2(s)), PushPieces(lists, b, s + 1, k);
    forall m | 0 <= m < MAX_ORDER ensures piece !in done[m] {
      PieceAbsent(lists, b, s, k, m);
    }
  }

  lemma PushPiecesStep(lists: Lists, b: Block, s: nat, k: nat)
    requires s < k <= TOP
    ensures var piece := Block(b.zone, b.index + Pow2(s)); var done := PushPieces(lists, b, s + 1, k);
            done[s := [piece] + done[s]] == PushPieces(lists, b, s, k)
  {
    hide Pow2, PushPieces;
    var done := PushPieces(lists, b, s + 1, k);
    var next := done[s := [Block(b.zone, b.index + Pow2(s))] + done[s]];
    forall m | 0 <= m < MAX_ORDER ensures next[m] == PushPieces(lists, b, s, k)[m] {}
  }

  /** What freeing `addr` must do, told from the machine's state. */
  ghost predicate Expected(core: Core, layout: Layout, addr: nat, outcome: FreeOutcome) {
    match outcome
    case Ignored => addr == 0
    case NotOwned => addr != 0 && forall z :: 0 <= z < |layout| ==> !(layout[z].dataBase <= addr < layout[z].End())
    case NotPageAligned => exists z :: 0 <= z < |layout| && layout[z].dataBase <= addr < layout[z].End()
                                       && (addr - layout[z].dataBase) % PAGE_SIZE != 0
    case DoubleFree => exists b :: InRange(layout, b) && addr == Addr(layout, b) && PageIsFree(core, b.zone, b.index)
    case Freed => exists b, k: nat :: InRange(layout, b) && addr == Addr(layout, b) && IsLiveBlock(core, b, k)
    case Misfreed => exists b ::
                       InRange(layout, b) && addr == Addr(layout, b) && Inside(core, b) && !Merges(core, b)
                       && Fits(core, b)
    case NoHeader => exists b :: InRange(layout, b) && addr == Addr(layout, b) && Inside(core, b) && Merges(core, b)
    case PastMetadata => exists b ::
                           InRange(layout, b) && addr == Addr(layout, b) && Inside(core, b) && !Merges(core, b)
                           && !Fits(core, b)
  }

  lemma PageAt(layout: Layout, z: nat, addr: nat)
    requires z < |layout| && layout[z].dataBase <= addr < layout[z].End()
               && (addr - layout[z].dataBase) % PAGE_SIZE == 0
    ensures var b := Block(z, (addr - layout[z].dataBase) / PAGE_SIZE); InRange(layout, b) && Addr(layout, b) == addr
  {
  }

  /** The page lies in a live block but is not its first: its byte is the order of the block. */
  predicate Inside(c: Core, b: Block) {
    && b.zone < |c.metas| && b.index < |c.metas[b.zone]| && !IsFree(c.metas[b.zone][b.index])
    && !IsLiveBlock(c, b, c.metas[b.zone][b.index]) && c.metas[b.zone][b.index] <= TOP
  }

  /** Taken for a block of that order, the page finds its buddy marked free. */
  predicate Merges(c: Core, b: Block)
    requires Inside(c, b)
  {
    var meta, t := c.metas[b.zone], c.metas[b.zone][b.index];
    var buddy := ToggleBit(b.index, t);
    t < TOP && buddy + Pow2(t) <= |meta| && meta[buddy] == FreeByte(t)
  }

  /** As many pages as the block has follow in the zone. */
  predicate Fits(c: Core, b: Block)
    requires Inside(c, b)
  {
    b.index + Pow2(c.metas[b.zone][b.index]) <= |c.metas[b.zone]|
  }

  lemma {:induction false} ToggleKeepsAlignment(i: nat, k: nat, j: nat)
    requires j <= k
    ensures Aligned(ToggleBit(i, k), j) <==> Aligned(i, j)
    decreases j
  {
    if j > 0 {
      ToggleHalves(i, k);
      ToggleKeepsAlignment(i / 2, k - 1, j - 1);
    }
  }

  lemma ToggleHalves(i: nat, k: nat)
    requires k > 0
    ensures ToggleBit(i, k) % 2 == i % 2 && ToggleBit(i, k) / 2 == ToggleBit(i / 2, k - 1)
  {
  }

  /** A page inside a live block is the head of no free block, nor is the page it takes for its buddy. */
  lemma InsideUnlisted(c: Core, b: Block)
    requires Ok(c) && Inside(c, b)
    ensures Unlisted(c.lists, b)
    ensures Unlisted(c.lists, Block(b.zone, ToggleBit(b.index, c.metas[b.zone][b.index]))) || !Merges(c, b)
  {
    var meta, t := c.metas[b.zone], c.metas[b.zone][b.index];
    var buddy := Block(b.zone, ToggleBit(b.index, t));
    ToggleKeepsAlignment(b.index, t, t);
    forall m | 0 <= m < MAX_ORDER ensures b !in c.lists[m] && (Merges(c, b) ==> buddy !in c.lists[m]) {
      assert !IsFreeBlock(c, b, m);
      if Merges(c, b) { assert !IsFreeBlock(c, buddy, m); }
    }
  }

  /** The live block around the page, whose pages are all in use. */
  lemma InsideUsed(c: Core, b: Block)
    requires Ok(c) && Inside(c, b)
    ensures Pow2(c.metas[b.zone][b.index]) <= UsedPages(c.metas)
  {
    var h, k := HeadOf(c.metas[b.zone], b.index);
    DownAligned(b.index, k);
    assert IsLiveBlock(c, Block(b.zone, h), k);
    FreeBalance(c, Block(b.zone, h), k);
  }

  /** No block structure has the metadata that is left: the first page of the live block is still in use. */
  lemma MisfreeBreaks(meta: Meta, p: nat)
    requires Tiled(meta) && p < |meta| && !IsFree(meta[p]) && meta[p] <= TOP && !Aligned(p, meta[p])
               && p + Pow2(meta[p]) <= |meta|
    ensures !Tiled(Fill(meta, p, meta[p], FreeByte(meta[p])))
  {
    var t := meta[p];
    var after := Fill(meta, p, t, FreeByte(t));
    DownAligned(p, t);
    assert Covered(meta, p);
    assert after[p] == FreeByte(t) && after[Down(p, t)] == t;
    assert !Covered(after, p);
  }

  class PageAllocator {
    var zoneHead: nat
    var zones: map<nat, Zone>
    var metaMem: map<nat, Meta>
    var nodes: Nodes
    const freeArea: array<nat>
    var totalPages: nat
    var allocatedPages: nat
    var lowestAddress: nat
    var isDmap: bool

    ghost var layout: Layout
    ghost var core: Core

    ghost predicate Valid()
      reads this, freeArea
    {
      Represents(core)
    }

    /** Memory and counters hold the state `c` of the machine. */
    ghost predicate Represents(c: Core)
      reads this, freeArea
    {
      && freeArea.Length == MAX_ORDER
      && LayoutOk(layout)
      && ZonesStored(zones, zoneHead, layout)
      && MetaStored(metaMem, layout, c.metas)
      && Linked(nodes, freeArea[..], layout, c.lists)
      && Ok(c) && Balanced(c)
      && allocatedPages == UsedPages(c.metas)
      && totalPages == TotalPages(c.metas)
      && LowestOk(lowestAddress, layout)
    }

    constructor ()
      ensures Valid() && fresh(freeArea)
      ensures core == BuddyRuns.Empty && layout == [] && !isDmap
    {
      zoneHead := 0;
      zones, metaMem, nodes := map[], map[], map[];
      freeArea := new nat[MAX_ORDER](_ => 0);
      totalPages, allocatedPages, lowestAddress := 0, 0, 0;
      isDmap := false;
      layout, core := [], BuddyRuns.Empty;
      new;
      BuddyRuns.EmptyOk();
    }

    /** Writes `byte` on the 2^order metadata bytes from `start`. */
    method FillMeta(meta: nat, start: nat, order: nat, byte: Byte)
      requires meta in metaMem && start + Pow2(order) <= |metaMem[meta]|
      modifies this`metaMem
      ensures metaMem == old(metaMem)[meta := Fill(old(metaMem[meta]), start, order, byte)]
    {
      var pages := Pow2(order);
      var p := 0;
      while p < pages
        invariant p <= pages
        invariant metaMem.Keys == old(metaMem.Keys)
        invariant forall a :: a in metaMem && a != meta ==> metaMem[a] == old(metaMem)[a]
        invariant |metaMem[meta]| == |old(metaMem[meta])|
        invariant forall q :: 0 <= q < |metaMem[meta]| ==>
          metaMem[meta][q] == if start <= q < start + p then byte else old(metaMem[meta])[q]
      {
        var bytes: Meta := metaMem[meta][start + p := byte];
        metaMem := metaMem[meta := bytes];
        p := p + 1;
      }
      assert metaMem[meta] == Fill(old(metaMem[meta]), start, order, byte);
    }

    /** Writes a header for the block and puts it at the front of its list. */
    method PushBlock(order: nat, block: nat, zone: nat, index: nat, ghost lists: Lists, ghost b: Block)
      requires freeArea.Length == MAX_ORDER && order < MAX_ORDER
      requires LayoutOk(layout) && Linked(nodes, freeArea[..], layout, lists) && Distinct(lists)
      requires InRange(layout, b) && Unlisted(lists, b)
      requires block == Addr(layout, b) && zone == layout[b.zone].zonePtr && index == b.index
      modifies this`nodes, freeArea
      ensures Linked(nodes, freeArea[..], layout, lists[order := [b] + lists[order]])
      ensures Distinct(lists[order := [b] + lists[order]])
    {
      PushLinked(nodes, freeArea[..], layout, lists, order, b);
      var oldHead := freeArea[order];
      nodes := nodes[block := FreeBlock(oldHead, 0, zone, index)];
      if oldHead != 0 {
        nodes := nodes[oldHead := nodes[oldHead].(prev := block)];
      }
      freeArea[order] := block;
      assert freeArea[..] == old(freeArea[..])[order := block];
    }

    /** Takes the first block off a list. */
    method PopBlock(order: nat, ghost lists: Lists) returns (head: nat)
      requires freeArea.Length == MAX_ORDER && order < MAX_ORDER && lists[order] != []
      requires LayoutOk(layout) && Linked(nodes, freeArea[..], layout, lists) && Distinct(lists)
      modifies this`nodes, freeArea
      ensures head == AddrAt(layout, lists[order], 0) && head in nodes
      ensures InRange(layout, lists[order][0])
      ensures nodes[head].zone == layout[lists[order][0].zone].zonePtr
      ensures nodes[head].pageIndex == lists[order][0].index
      ensures Linked(nodes, freeArea[..], layout, Pop(lists, order)) && Distinct(Pop(lists, order))
    {
      UnlinkLinked(nodes, freeArea[..], layout, lists, order, 0);
      Neighbours(nodes, freeArea[order], layout, lists[order], 0);
      assert NodeOk(nodes, layout, lists[order], 0);
      head := freeArea[order];
      var next := nodes[head].next;
      freeArea[order] := next;
      if next != 0 {
        nodes := nodes[next := nodes[next].(prev := 0)];
      }
      assert freeArea[..] == old(freeArea[..])[order := next];
      assert RemoveAt(lists[order], 0) == lists[order][1..];
    }

    /** Takes a block out of the middle of its list. */
    method UnlinkBlock(order: nat, block: nat, ghost lists: Lists, ghost i: nat)
      requires freeArea.Length == MAX_ORDER && order < MAX_ORDER && i < |lists[order]|
      requires LayoutOk(layout) && Linked(nodes, freeArea[..], layout, lists) && Distinct(lists)
      requires block == AddrAt(layout, lists[order], i)
      modifies this`nodes, freeArea
      ensures Linked(nodes, freeArea[..], layout, lists[order := Without(lists[order], lists[order][i])])
      ensures Distinct(lists[order := Without(lists[order], lists[order][i])])
    {
      UnlinkLinked(nodes, freeArea[..], layout, lists, order, i);
      WithoutAt(lists[order], i);
      ghost var head := UnlinkHead(nodes, block, freeArea[order]);
      var next := nodes[block].next;
      var prev := nodes[block].prev;
      if prev != 0 {
        nodes := nodes[prev := nodes[prev].(next := next)];
      } else {
        freeArea[order] := next;
      }
      if next != 0 {
        nodes := nodes[next := nodes[next].(prev := prev)];
      }
      assert freeArea[..] == old(freeArea[..])[order := head];
    }

    /** Splits what is left of a block of order `from` down to order `target`, freeing the upper halves. */
    method SplitDown(zonePtr: nat, pageI: nat, from: nat, target: nat, ghost b: Block, ghost lists: Lists)
      requires freeArea.Length == MAX_ORDER && target <= from <= TOP
      requires LayoutOk(layout) && ZonesStored(zones, zoneHead, layout)
      requires b.zone < |layout| && zonePtr == layout[b.zone].zonePtr && pageI == b.index
      requires layout[b.zone].metaBase in metaMem && |metaMem[layout[b.zone].metaBase]| == layout[b.zone].pages
      requires b.index + Pow2(from) <= layout[b.zone].pages
      requires Linked(nodes, freeArea[..], layout, lists) && Distinct(lists) && ClearOf(lists, b, from)
      modifies this`nodes, this`metaMem, freeArea
      ensures Linked(nodes, freeArea[..], layout, PushPieces(lists, b, target, from))
      ensures metaMem == old(metaMem)[layout[b.zone].metaBase :=
                PiecesMeta(old(metaMem[layout[b.zone].metaBase]), b.index, from, target)]
    {
      hide Linked, Distinct, LayoutOk, PiecesMeta, PiecesByte, PushPieces, Fill, ClearOf, Unlisted, Pow2;
      assert ZoneStored(zones, layout, b.zone);
      hide ZonesStored, ZoneStored;
      var metaArray := zones[zonePtr].metaArray;
      var splitOrder := from;
      ghost var meta := metaMem[metaArray];
      PiecesStart(meta, lists, b, from);
      while splitOrder > target
        invariant target <= splitOrder <= from
        invariant Linked(nodes, freeArea[..], layout, PushPieces(lists, b, splitOrder, from))
        invariant Distinct(PushPieces(lists, b, splitOrder, from))
        invariant metaMem == old(metaMem)[metaArray := PiecesMeta(meta, b.index, from, splitOrder)]
      {
        splitOrder := splitOrder - 1;
        PiecesStep(meta, b.index, from, splitOrder);
        PushPiecesStep(lists, b, splitOrder, from);
        PieceUnlisted(lists, b, splitOrder, from);
        var splitI := pageI + Pow2(splitOrder);
        FillMeta(metaArray, splitI, splitOrder, FreeByte(splitOrder));
        var block := zones[zonePtr].dataBase + splitI * PAGE_SIZE;
        PushBlock(splitOrder, block, zonePtr, splitI,
                  PushPieces(lists, b, splitOrder + 1, from), Block(b.zone, splitI));
      }
    }

    lemma AfterPop(k: nat)
      requires Ok(core) && k < MAX_ORDER && core.lists[k] != []
      ensures var b := core.lists[k][0];
              && b.zone < |core.metas| && b.index + Pow2(k) <= |core.metas[b.zone]|
              && ClearOf(Pop(core.lists, k), b, k)
    {
      var b := core.lists[k][0];
      assert b in core.lists[k];
      HeadCovers(core.metas[b.zone], b.index, k);
      forall m, g | 0 <= m < MAX_ORDER && g in Pop(core.lists, k)[m] && g.zone == b.zone
        ensures !(b.index <= g.index < b.index + Pow2(k))
      {
        assert g in core.lists[m] && IsFreeBlock(core, g, m);
        assert NoDup(core.lists[k]);
        if b.index <= g.index < b.index + Pow2(k) { AlignedApart(b.index, g.index, k); }
      }
    }

    /**
     * Allocates 2^targetOrder contiguous pages, or returns null. The machine
     * says which block is taken and how the rest is split.
     */
    method AllocPages(targetOrder: nat) returns (addr: nat)
      requires Valid()
      modifies this`nodes, this`metaMem, this`allocatedPages, this`core, freeArea
      ensures Valid()
      ensures core == Alloc(old(core), targetOrder).0
      ensures match Alloc(old(core), targetOrder).1
              case None => addr == 0
              case Some(b) => InRange(layout, b) && addr == Addr(layout, b) && addr != 0
    {
      if targetOrder >= MAX_ORDER { return 0; }
      OkDistinct(core);
      for currentOrder := targetOrder to MAX_ORDER
        invariant Valid() && core == old(core)
        invariant FirstOrder(core.lists, targetOrder) == FirstOrder(core.lists, currentOrder)
      {
        assert ListLinked(nodes, freeArea[currentOrder], layout, core.lists[currentOrder]);
        if core.lists[currentOrder] != [] {
          Neighbours(nodes, freeArea[currentOrder], layout, core.lists[currentOrder], 0);
        }
        if freeArea[currentOrder] != 0 {
          addr := TakeFrom(currentOrder, targetOrder);
          return;
        }
      }
      return 0;
    }

    /** Takes the first block of a list and frees all of it but the first 2^targetOrder pages again. */
    method CarveBlock(currentOrder: nat, targetOrder: nat) returns (zone: nat, pageI: nat)
      requires Valid() && targetOrder <= currentOrder < MAX_ORDER && core.lists[currentOrder] != []
      modifies this`nodes, this`metaMem, freeArea
      ensures var b := core.lists[currentOrder][0];
              && b.zone < |layout| && b.zone < |core.metas| && b.index < layout[b.zone].pages
              && zone == layout[b.zone].zonePtr && pageI == b.index
              && Linked(nodes, freeArea[..], layout, PushPieces(Pop(core.lists, currentOrder), b, targetOrder,
                  currentOrder))
              && metaMem == old(metaMem)[layout[b.zone].metaBase :=
                  SplitMeta(core.metas[b.zone], b.index, currentOrder, targetOrder)]
    {
      hide Linked, Distinct, LayoutOk, PiecesMeta, PiecesByte, PushPieces, Fill, ClearOf, SplitMeta, Ok, Balanced, Pow2;
      hide ZonesStored, MetaStored, SplitByte, UsedPages, TotalPages, LowestOk, ZonePtrAt, Uniform;
      ghost var b := core.lists[currentOrder][0];
      OkDistinct(core);
      AfterPop(currentOrder);
      ZoneAt(zones, zoneHead, metaMem, layout, core.metas, b.zone);
      var head := PopBlock(currentOrder, core.lists);
      zone := nodes[head].zone;
      pageI := nodes[head].pageIndex;
      PiecesDone(core.metas[b.zone], pageI, currentOrder, targetOrder);
      FillMeta(zones[zone].metaArray, pageI, targetOrder, targetOrder);
      SplitDown(zone, pageI, currentOrder, targetOrder, b, Pop(core.lists, currentOrder));
    }

    method TakeFrom(currentOrder: nat, targetOrder: nat) returns (addr: nat)
      requires Valid() && targetOrder <= currentOrder < MAX_ORDER
      requires currentOrder == FirstOrder(core.lists, targetOrder)
      modifies this`nodes, this`metaMem, this`allocatedPages, this`core, freeArea
      ensures Valid()
      ensures core == Alloc(old(core), targetOrder).0
      ensures var b := old(core.lists)[currentOrder][0];
              InRange(layout, b) && addr == Addr(layout, b) && addr != 0
    {
      hide Linked, Distinct, LayoutOk, PushPieces, SplitMeta, Ok, Balanced, Pow2, Alloc;
      hide ZonesStored, MetaStored, FirstOrder, UsedPages, TotalPages, LowestOk, Pop, ZonePtrAt;
      ghost var b := core.lists[currentOrder][0];
      AllocFrom(core, targetOrder);
      ZoneAt(zones, zoneHead, metaMem, layout, core.metas, b.zone);
      var zone, pageI := CarveBlock(currentOrder, targetOrder);
      AddrInjective(layout, b, b);
      AllocOk(core, targetOrder);
      AllocBalance(core, targetOrder);
      AllocKeepsBalance(core, targetOrder);
      MetaUpdate(old(metaMem), layout, core.metas, b.zone,
          SplitMeta(core.metas[b.zone], pageI, currentOrder, targetOrder));
      core := Alloc(core, targetOrder).0;
      allocatedPages := allocatedPages + Pow2(targetOrder);
      addr := zones[zone].dataBase + pageI * PAGE_SIZE;
    }

    // ---------------------------------------------------------------- adding memory

    /**
     * Hands a region of whole pages to the allocator: its first pages hold the
     * metadata bytes and the zone record, the rest is seeded as free blocks.
     */
    method AddRange(start: nat, end: nat) returns (ghost region: Region)
      requires Valid()
      requires IsKernelAddress(start) == isDmap
      requires start < end && start % PAGE_SIZE == 0 && end % PAGE_SIZE == 0
      requires (end - start) / PAGE_SIZE >= 2 && !NeverSettles((end - start) / PAGE_SIZE)
      requires forall z :: 0 <= z < |layout| ==> end <= layout[z].metaBase || layout[z].End() <= start
      modifies this, freeArea
      ensures Valid()
      ensures layout == old(layout) + [region] && region.metaBase == start && region.End() == end
      ensures Settled((end - start) / PAGE_SIZE, (region.dataBase - start) / PAGE_SIZE)
      ensures core == AddZone(old(core), region.pages)
      ensures totalPages == old(totalPages) + region.pages && allocatedPages == old(allocatedPages)
      ensures isDmap == old(isDmap)
    {
      hide Ok, Balanced, Linked, LayoutOk, ZonesStored, MetaStored, LowestOk, UsedPages, TotalPages, AddZone, Zeros;
      hide NeverSettles, Settled, IsKernelAddress, ZonePtrAt, Needed;
      var total := (end - start) / PAGE_SIZE;
      var reserved := ReservePages(total);
      var usable := total - reserved;
      var reservedBytes := reserved * PAGE_SIZE;
      var dataBase := start + reservedBytes;
      var zonePtr := start + reservedBytes - ZONE_SIZE;
      region := Region(start, zonePtr, dataBase, usable);
      RegionFits(start, end, reserved);
      ghost var was := core;
      assert Apart(layout, region);
      PlaceZone(region, start, zonePtr, dataBase, usable);
      SeedZone(zonePtr, usable);
      AddZoneBalance(was, usable);
      AddZoneKeepsBalance(was, usable);
      totalPages := totalPages + usable;
    }

    /** Zeroes the metadata bytes and writes the zone record in front of the zone list. */
    method PlaceZone(ghost region: Region, start: nat, zonePtr: nat, dataBase: nat, usable: nat)
      requires Valid() && region == Region(start, zonePtr, dataBase, usable) && region.Valid() && Apart(layout, region)
      modifies this`zones, this`metaMem, this`zoneHead, this`lowestAddress, this`layout
      ensures layout == old(layout) + [region] && |old(layout)| == |core.metas|
      ensures LayoutOk(layout) && ZonesStored(zones, zoneHead, layout) && LowestOk(lowestAddress, layout)
      ensures MetaStored(metaMem, layout, core.metas + [Zeros(usable)])
      ensures Linked(nodes, freeArea[..], layout, core.lists)
    {
      hide Ok, Balanced, Linked, LayoutOk, ZonesStored, MetaStored, LowestOk, UsedPages, TotalPages, Zeros, Apart;
      ExtendStored(zones, zoneHead, metaMem, layout, core.metas, region, Zeros(usable));
      LinkedExtend(nodes, freeArea[..], layout, core.lists, region);
      LowestExtend(lowestAddress, layout, region);
      if lowestAddress == 0 || dataBase < lowestAddress {
        lowestAddress := dataBase;
      }
      metaMem := metaMem[start := Zeros(usable)];
      zones := zones[zonePtr := Zone(start, dataBase, usable, zoneHead)];
      zoneHead := zonePtr;
      layout := layout + [region];
    }

    /** Covers the newest zone with free blocks, from its first page to its last. */
    method SeedZone(zonePtr: nat, usable: nat)
      requires freeArea.Length == MAX_ORDER && LayoutOk(layout) && ZonesStored(zones, zoneHead, layout)
      requires |layout| == |core.metas| + 1 && zonePtr == layout[|core.metas|].zonePtr
                 && usable == layout[|core.metas|].pages
      requires Ok(core) && MetaStored(metaMem, layout, core.metas + [Zeros(usable)])
      requires Linked(nodes, freeArea[..], layout, core.lists)
      modifies this`nodes, this`metaMem, this`core, freeArea
      ensures core == AddZone(old(core), usable) && Ok(core)
      ensures MetaStored(metaMem, layout, core.metas) && Linked(nodes, freeArea[..], layout, core.lists)
    {
      hide Ok, Linked, Distinct, LayoutOk, ZonesStored, MetaStored, Pow2, Fill, Aligned, Seed, SeedOrder, Unlisted;
      hide Seeded, SeedAgree;
      ghost var z := |core.metas|;
      ZoneAt(zones, zoneHead, metaMem, layout, core.metas + [Zeros(usable)], z);
      var zone := zones[zonePtr];
      ghost var meta: Meta := Zeros(usable);
      ghost var lists: Lists := core.lists;
      SeedStart(core, usable);
      OkDistinct(core);
      var currentIndex: nat := 0;
      while currentIndex < usable
        invariant currentIndex <= usable == |meta| && core == old(core)
        invariant Seeded(meta, currentIndex) && SeedAgree(core, meta, lists)
        invariant Seed(meta, lists, z, currentIndex) == Seed(Zeros(usable), core.lists, z, 0)
        invariant metaMem == old(metaMem)[zone.metaArray := meta]
        invariant Linked(nodes, freeArea[..], layout, lists) && Distinct(lists)
      {
        var remaining := usable - currentIndex;
        var order := SeedOrder(currentIndex, remaining);
        SeedOnce(core, meta, lists, currentIndex);
        FillMeta(zone.metaArray, currentIndex, order, FreeByte(order));
        PushBlock(order, zone.dataBase + currentIndex * PAGE_SIZE, zonePtr, currentIndex, lists,
            Block(z, currentIndex));
        meta := Fill(meta, currentIndex, order, FreeByte(order));
        lists := lists[order := [Block(z, currentIndex)] + lists[order]];
        currentIndex := currentIndex + Pow2(order);
      }
      SeedEnd(core, meta, lists, usable);
      MetaUpdate(old(metaMem), layout, core.metas + [Zeros(usable)], z, meta);
      assert (core.metas + [Zeros(usable)])[z := meta] == core.metas + [meta];
      core := AddZone(core, usable);
    }

    // ---------------------------------------------------------------- the direct map

    /**
     * Moves to the direct map: the same memory at new addresses, with every
     * pointer rewritten in place. Null pointers are left alone, so the record of
     * a zone whose metadata begins at address zero no longer leads to it, and the
     * allocator stays valid just when there is none.
     */
    method TransitionDmap()
      requires Valid() && !isDmap && Physical(layout)
      modifies this, freeArea
      ensures Valid() <==> NoneAtZero(old(layout))
      ensures isDmap && core == old(core) && layout == DmapLayout(old(layout))
                && Recorded(zones, layout, DmapRecords(old(layout)))
      ensures allocatedPages == old(allocatedPages) && totalPages == old(totalPages)
      ensures lowestAddress == ToDmap(old(lowestAddress)) && zoneHead == ToDmap(old(zoneHead))
      ensures forall k :: 0 <= k < MAX_ORDER ==> freeArea[k] == ToDmap(old(freeArea[k]))
    {
      hide Ok, Balanced, LayoutOk, ZonesStored, MetaStored, LowestOk, UsedPages, TotalPages, Physical, ToDmap;
      hide DmapLayout, Linked, Shift, NoneAtZero, Recorded;
      LowestToDmap(lowestAddress, layout);
      LayoutToDmap(layout);
      MetaToDmap(metaMem, layout, core.metas);
      OkDistinct(core);
      lowestAddress := ToDmap(lowestAddress);
      // The same memory, from here on reached at its direct-map addresses.
      zones, metaMem, nodes := Shift(zones), Shift(metaMem), Shift(nodes);
      SwitchZones(old(zones));
      SwitchLists(old(nodes));
      layout := DmapLayout(layout);
      isDmap := true;
    }

    method SwitchZones(ghost was: map<nat, Zone>)
      requires LayoutOk(layout) && Physical(layout) && ZonesStored(was, zoneHead, layout) && zones == Shift(was)
      modifies this`zones, this`zoneHead
      ensures ZonesStored(zones, zoneHead, DmapLayout(layout)) <==> NoneAtZero(layout)
      ensures zoneHead == ToDmap(old(zoneHead)) && Recorded(zones, DmapLayout(layout), DmapRecords(layout))
    {
      hide LayoutOk, Physical, ToDmap, DmapLayout, ZonePtrAt, ZonesSwitched, ZonesStored, NoneAtZero, Recorded, Shift;
      hide DmapRecords;
      ZonesStartSwitch(was, zoneHead, layout);
      var currentZone := zoneHead;
      zoneHead := ToDmap(zoneHead);
      ghost var z: int := |layout| - 1;
      while currentZone != 0
        invariant -1 <= z < |layout| && currentZone == ZonePtrAt(layout, z)
        invariant ZonesSwitched(zones, layout, z + 1)
        invariant zoneHead == ToDmap(old(zoneHead))
        decreases z
      {
        ZonePtrNull(layout, z);
        SwitchOneZone(zones, layout, z);
        var zone := zones[ToDmap(currentZone)];
        zones := zones[ToDmap(currentZone) := DmapZone(zone)];
        currentZone := zone.next;
        z := z - 1;
      }
      ZonePtrNull(layout, z);
      ZonesSwitchedDone(zones, layout, old(zoneHead));
    }

    method SwitchLists(ghost was: Nodes)
      requires freeArea.Length == MAX_ORDER && LayoutOk(layout) && Physical(layout) && Distinct(core.lists)
      requires Linked(was, freeArea[..], layout, core.lists) && nodes == Shift(was)
      modifies this`nodes, freeArea
      ensures Linked(nodes, freeArea[..], DmapLayout(layout), core.lists)
      ensures forall k :: 0 <= k < MAX_ORDER ==> freeArea[k] == ToDmap(old(freeArea[k]))
    {
      hide LayoutOk, Physical, ToDmap, DmapLayout, NodesRewriting, Shift, ListLinked, NoDup;
      StartNodes(was, layout);
      ghost var done: set<Block> := {};
      ListsRewrittenNone(core.lists);
      for order := 0 to MAX_ORDER
        invariant NodesRewriting(was, nodes, layout, done) && ListsRewritten(core.lists, order, done)
        invariant forall k :: 0 <= k < MAX_ORDER ==>
                    freeArea[k] == if k < order then ToDmap(old(freeArea[k])) else old(freeArea[k])
      {
        ListPending(core.lists, order, done);
        assert ListLinked(was, freeArea[order], layout, core.lists[order]);
        SwitchList(order, was, done);
        ghost var before := done;
        done := done + Blocks(core.lists[order]);
        ListsRewrittenStep(core.lists, order, before);
      }
      forall k | 0 <= k < MAX_ORDER ensures ListLinked(nodes, freeArea[k], DmapLayout(layout), core.lists[k]) {
        assert ListLinked(was, old(freeArea[k]), layout, core.lists[k]);
        ListToDmap(was, nodes, old(freeArea[k]), layout, core.lists[k], done);
      }
    }

    method SwitchList(order: nat, ghost was: Nodes, ghost done: set<Block>)
      requires freeArea.Length == MAX_ORDER && order < MAX_ORDER && LayoutOk(layout) && Physical(layout)
      requires ListLinked(was, freeArea[order], layout, core.lists[order]) && NoDup(core.lists[order])
      requires NodesRewriting(was, nodes, layout, done) && forall b :: b in core.lists[order] ==> b !in done
      modifies this`nodes, freeArea
      ensures NodesRewriting(was, nodes, layout, done + Blocks(core.lists[order]))
      ensures freeArea[order] == ToDmap(old(freeArea[order]))
      ensures forall k :: 0 <= k < MAX_ORDER && k != order ==> freeArea[k] == old(freeArea[k])
    {
      hide LayoutOk, Physical, ToDmap, NodesRewriting, AddrAt, Addr, Up;
      ghost var l := core.lists[order];
      var currentBlock := freeArea[order];
      freeArea[order] := ToDmap(freeArea[order]);
      ghost var n: nat, now := 0, done;
      AddrAtNull(was, old(freeArea[order]), layout, l, n);
      assert Blocks(l[..0]) == {};
      while currentBlock != 0
        invariant n <= |l| && currentBlock == AddrAt(layout, l, n) && (currentBlock == 0 <==> n == |l|)
        invariant now == done + Blocks(l[..n]) && NodesRewriting(was, nodes, layout, now)
        modifies this`nodes
        decreases |l| - n
      {
        ListHeader(was, nodes, old(freeArea[order]), layout, l, n, now);
        RewriteOne(was, nodes, layout, now, l[n]);
        var block := nodes[ToDmap(currentBlock)];
        nodes := nodes[ToDmap(currentBlock) := DmapNode(block)];
        currentBlock := block.next;
        now, n := now + {l[n]}, n + 1;
        assert Blocks(l[..n]) == Blocks(l[..n - 1]) + {l[n - 1]};
        AddrAtNull(was, old(freeArea[order]), layout, l, n);
      }
      assert l[..n] == l;
    }

    // ---------------------------------------------------------------- freeing

    /**
     * Gives a block back. A null pointer is ignored; the panics of the
     * allocator are outcomes that leave it untouched. A page in the middle of a
     * live block is taken for a block of its own: `Misfreed` says what is then
     * written, after which memory holds no state of the machine at all. With
     * `NoHeader` and `PastMetadata` the call goes on to use memory that is none
     * of the allocator's, and nothing is said of what follows.
     */
    method FreePages(addr: nat) returns (outcome: FreeOutcome)
      requires Valid()
      modifies this`nodes, this`metaMem, this`allocatedPages, this`core, freeArea
      ensures Expected(old(core), layout, addr, outcome)
      ensures if outcome == Misfreed then forall c :: !Represents(c) else Valid()
      ensures outcome != Freed && outcome != Misfreed ==>
        core == old(core) && freeArea[..] == old(freeArea[..]) && nodes == old(nodes) && metaMem == old(metaMem)
      ensures outcome == Freed ==> exists b, k: nat ::
        && old(IsLiveBlock(core, b, k)) && InRange(layout, b) && addr == Addr(layout, b)
        && core == Free(old(core), b, k)
      ensures outcome == Misfreed ==> exists b ::
        && InRange(layout, b) && addr == Addr(layout, b) && Inside(old(core), b) && Fits(old(core), b)
        && MisfreedAs(old(core), b, old(metaMem), old(allocatedPages))
    {
      hide Ok, Balanced, Linked, LayoutOk, ZonesStored, UsedPages, TotalPages, Free, Aligned, MisfreedAs, Represents;
      if addr == 0 { return Ignored; }
      OpenUp();
      var zonePtr, z := FindZone(addr);
      if zonePtr == 0 { return NotOwned; }
      ZoneAt(zones, zoneHead, metaMem, layout, core.metas, z);
      var zone := zones[zonePtr];
      var off := addr - zone.dataBase;
      if off % PAGE_SIZE != 0 { return NotPageAligned; }
      var index := off / PAGE_SIZE;
      var metaVal := metaMem[zone.metaArray][index];
      ghost var b := Block(z, index);
      PageAt(layout, z, addr);
      hide Addr, InRange;
      if IsFree(metaVal) {
        assert PageIsFree(core, b.zone, b.index);
        return DoubleFree;
      }
      hide IsFree, PageIsFree, Inside, Merges, Fits, IsLiveBlock;
      outcome := FreeUsed(zonePtr, index, metaVal, b);
    }

    /** Frees the page that is not marked free; the source runs the same code for both kinds. */
    method FreeUsed(zonePtr: nat, index: nat, metaVal: Byte, ghost b: Block) returns (outcome: FreeOutcome)
      requires Valid() && InRange(layout, b) && zonePtr == layout[b.zone].zonePtr && index == b.index
      requires b.zone < |core.metas| && index < |core.metas[b.zone]| && metaVal == core.metas[b.zone][index]
                 && !IsFree(metaVal)
      modifies this`nodes, this`metaMem, this`allocatedPages, this`core, freeArea
      ensures outcome.Freed? || outcome.Misfreed? || outcome.NoHeader? || outcome.PastMetadata?
      ensures if outcome == Misfreed then forall c :: !Represents(c) else Valid()
      ensures outcome == Freed ==> old(IsLiveBlock(core, b, metaVal)) && core == Free(old(core), b, metaVal)
      ensures outcome != Freed ==> Inside(old(core), b) && core == old(core)
      ensures outcome == NoHeader ==> Merges(old(core), b)
      ensures outcome == Misfreed ==>
        !Merges(old(core), b) && Fits(old(core), b) && MisfreedAs(old(core), b, old(metaMem), old(allocatedPages))
      ensures outcome == PastMetadata ==> !Merges(old(core), b) && !Fits(old(core), b)
      ensures outcome != Freed && outcome != Misfreed ==>
        freeArea[..] == old(freeArea[..]) && nodes == old(nodes) && metaMem == old(metaMem)
    {
      hide Balanced, Linked, LayoutOk, ZonesStored, UsedPages, TotalPages, Free, Aligned, MisfreedAs, Represents, Ok;
      OpenUp();
      ByteIsOrder(core, b);
      if Aligned(index, OrderOf(metaVal)) {
        FreeBlockInZone(zonePtr, index, OrderOf(metaVal), b);
        return Freed;
      }
      outcome := FreeInside(zonePtr, index, OrderOf(metaVal), b);
    }

    lemma OpenUp()
      requires Valid()
      ensures LayoutOk(layout) && ZonesStored(zones, zoneHead, layout) && MetaStored(metaMem, layout, core.metas)
                && Ok(core)
      ensures |core.metas| == |layout|
    {
    }

    lemma ByteIsOrder(c: Core, b: Block)
      requires Ok(c) && b.zone < |c.metas| && b.index < |c.metas[b.zone]| && !IsFree(c.metas[b.zone][b.index])
      ensures OrderOf(c.metas[b.zone][b.index]) == c.metas[b.zone][b.index] <= TOP
      ensures IsLiveBlock(c, b, c.metas[b.zone][b.index]) <==> Aligned(b.index, c.metas[b.zone][b.index])
    {
      assert Covered(c.metas[b.zone], b.index);
    }

    /** Memory after page b was pushed as a free block of the order in its byte. */
    ghost predicate MisfreedAs(was: Core, b: Block, metaWas: map<nat, Meta>, inUse: nat)
      reads this, freeArea
      requires Inside(was, b) && Fits(was, b) && InRange(layout, b)
    {
      var meta, t := was.metas[b.zone], was.metas[b.zone][b.index];
      && metaMem == metaWas[layout[b.zone].metaBase := Fill(meta, b.index, t, FreeByte(t))]
      && Linked(nodes, freeArea[..], layout, was.lists[t := [b] + was.lists[t]])
      && allocatedPages + Pow2(t) == inUse
    }

    /**
     * The code of `FreeBlockInZone` started in the middle of a live block. Its
     * buddy cannot head a block, so the first turn of the loop ends it or looks
     * for a header that is not there.
     */
    method FreeInside(zonePtr: nat, start: nat, startOrder: nat, ghost b: Block) returns (outcome: FreeOutcome)
      requires Valid() && InRange(layout, b) && Inside(core, b) && zonePtr == layout[b.zone].zonePtr && start == b.index
      requires startOrder == core.metas[b.zone][b.index]
      modifies this`nodes, this`metaMem, this`allocatedPages, freeArea
      ensures if Merges(core, b) then outcome == NoHeader else outcome == if Fits(core, b) then Misfreed
                else PastMetadata
      ensures if outcome == Misfreed then forall c :: !Represents(c) else Valid()
      ensures outcome != Misfreed ==>
                freeArea[..] == old(freeArea[..]) && nodes == old(nodes) && metaMem == old(metaMem)
      ensures outcome == Misfreed ==> MisfreedAs(core, b, old(metaMem), old(allocatedPages))
    {
      hide Ok, Balanced, Linked, Distinct, LayoutOk, ZonesStored, MetaStored, UsedPages, TotalPages, Pow2, Fill;
      hide Aligned, Bit, ToggleBit, LowestOk;
      ZoneAt(zones, zoneHead, metaMem, layout, core.metas, b.zone);
      InsideUnlisted(core, b);
      InsideUsed(core, b);
      OkDistinct(core);
      ghost var was := core;
      var zone := zones[zonePtr];
      if startOrder < MAX_ORDER - 1 {
        var index := ToggleBit(start, startOrder);
        if !(index >= zone.totalPages || index + Pow2(startOrder) > zone.totalPages) {
          var metaVal := metaMem[zone.metaArray][index];
          if IsFree(metaVal) && OrderOf(metaVal) == startOrder { return NoHeader; }
        }
      }
      if start + Pow2(startOrder) > zone.totalPages { return PastMetadata; }
      FillMeta(zone.metaArray, start, startOrder, FreeByte(startOrder));
      PushBlock(startOrder, zone.dataBase + start * PAGE_SIZE, zonePtr, start, core.lists, b);
      allocatedPages := allocatedPages - Pow2(startOrder);
      NotRepresented(b, start, startOrder);
      outcome := Misfreed;
    }

    lemma NotRepresented(b: Block, p: nat, t: nat)
      requires Ok(core) && InRange(layout, b) && Inside(core, b) && Fits(core, b) && p == b.index
                 && t == core.metas[b.zone][p]
      requires layout[b.zone].metaBase in metaMem && metaMem[layout[b.zone].metaBase] ==
                 Fill(core.metas[b.zone], p, t, FreeByte(t))
      ensures forall c :: !Represents(c)
    {
      hide Linked, ZonesStored, LayoutOk, Balanced, LowestOk, Fill, Tiled;
      MisfreeBreaks(core.metas[b.zone], p);
      forall c ensures !Represents(c) { RepresentedMeta(c, b.zone); }
    }

    lemma RepresentedMeta(c: Core, z: nat)
      requires z < |layout| && layout[z].metaBase in metaMem
      ensures Represents(c) ==> Tiled(metaMem[layout[z].metaBase])
    {
      hide Linked, ZonesStored, LayoutOk, Balanced, LowestOk, Tiled;
      assert Represents(c) ==> z < |c.metas| && Good(c.metas[z]);
    }

    /** Walks the zone list for the zone whose pages hold `addr`. */
    method FindZone(addr: nat) returns (zonePtr: nat, ghost z: nat)
      requires LayoutOk(layout) && ZonesStored(zones, zoneHead, layout)
      ensures zonePtr != 0 ==>
                z < |layout| && zonePtr == layout[z].zonePtr && layout[z].dataBase <= addr < layout[z].End()
      ensures zonePtr == 0 <==> forall y :: 0 <= y < |layout| ==> !(layout[y].dataBase <= addr < layout[y].End())
    {
      zonePtr := zoneHead;
      ghost var y: int := |layout| - 1;
      assert forall x :: 0 <= x < |layout| ==> layout[x].Valid() && layout[x].zonePtr > 0;
      while zonePtr != 0
        invariant -1 <= y < |layout| && zonePtr == ZonePtrAt(layout, y)
        invariant forall x :: y < x < |layout| ==> !(layout[x].dataBase <= addr < layout[x].End())
        decreases y
      {
        assert ZoneStored(zones, layout, y);
        var zone := zones[zonePtr];
        if zone.dataBase <= addr < zone.dataBase + zone.totalPages * PAGE_SIZE {
          z := y;
          return;
        }
        zonePtr := zone.next;
        y := y - 1;
      }
      z := 0;
    }

    /** Coalesces the block with its free buddies, marks the result free and pushes it. */
    method FreeBlockInZone(zonePtr: nat, start: nat, startOrder: nat, ghost b: Block)
      requires Valid() && InRange(layout, b) && IsLiveBlock(core, b, startOrder)
      requires zonePtr == layout[b.zone].zonePtr && start == b.index
      modifies this`nodes, this`metaMem, this`allocatedPages, this`core, freeArea
      ensures Valid()
      ensures core == Free(old(core), b, startOrder)
    {
      hide Ok, Balanced, Linked, Distinct, LayoutOk, ZonesStored, MetaStored, UsedPages, TotalPages, Pow2;
      hide Coalesce, Expected, Absorbed, ListsOutside, Fill, Free, Aligned, Bit, Without, ClearBit, ToggleBit, LiveHead;
      ZoneAt(zones, zoneHead, metaMem, layout, core.metas, b.zone);
      var zone := zones[zonePtr];
      StartFree(core, b, startOrder);
      ghost var meta, target := core.metas[b.zone], Coalesce(core.metas[b.zone], core.lists, b.zone, start, startOrder);
      OkDistinct(core);
      var pageIndex: nat, order: nat := start, startOrder;
      ghost var lists: Lists := core.lists;
      while order < MAX_ORDER - 1
        invariant order <= TOP && core == old(core) && metaMem == old(metaMem) && allocatedPages == old(allocatedPages)
        invariant Absorbed(meta, start, startOrder, pageIndex, order)
        invariant ListsOutside(core, lists, b.zone, pageIndex, order)
        invariant Coalesce(meta, lists, b.zone, pageIndex, order) == target
        invariant Linked(nodes, freeArea[..], layout, lists) && Distinct(lists)
        decreases MAX_ORDER - order
      {
        var index := ToggleBit(pageIndex, order);
        if index >= zone.totalPages || index + Pow2(order) > zone.totalPages { break; }
        var metaVal := metaMem[zone.metaArray][index];
        if !IsFree(metaVal) || OrderOf(metaVal) != order { break; }
        ghost var i := MergeStep(core, lists, b, startOrder, pageIndex, order);
        var block := zone.dataBase + index * PAGE_SIZE;
        UnlinkBlock(order, block, lists, i);
        lists := lists[order := Without(lists[order], Block(b.zone, index))];
        pageIndex := ClearBit(pageIndex, order);
        order := order + 1;
      }
      MergeEnd(core, lists, b, startOrder, pageIndex, order);
      FillMeta(zone.metaArray, pageIndex, order, FreeByte(order));
      PushBlock(order, zone.dataBase + pageIndex * PAGE_SIZE, zonePtr, pageIndex, lists, Block(b.zone, pageIndex));
      MetaUpdate(old(metaMem), layout, core.metas, b.zone, Fill(meta, pageIndex, order, FreeByte(order)));
      FreeOk(core, b, startOrder);
      FreeBalance(core, b, startOrder);
      FreeKeepsBalance(core, b, startOrder);
      allocatedPages := allocatedPages - Pow2(startOrder);
      core := Free(core, b, startOrder);
    }
  }

  // ---------------------------------------------------------------- the switch, half way

  /** Zones z, ..., n-1 have been rewritten in place. */
  ghost predicate ZonesSwitched(zones: map<nat, Zone>, layout: Layout, z: int) {
    forall y :: 0 <= y < |layout| ==> RecordSeen(zones, layout, y, z)
  }

  function ZoneRecord(layout: Layout, z: nat): Zone
    requires z < |layout|
  {
    Zone(layout[z].metaBase, layout[z].dataBase, layout[z].pages, ZonePtrAt(layout, z - 1))
  }

  function DmapZone(zone: Zone): Zone {
    Zone(ToDmap(zone.metaArray), ToDmap(zone.dataBase), zone.totalPages, ToDmap(zone.next))
  }

  /** The record of zone z, seen through the direct map: rewritten from zone `from` on. */
  predicate RecordSeen(zones: map<nat, Zone>, layout: Layout, z: nat, from: int)
    requires z < |layout|
  {
    var a := Up(layout[z].zonePtr);
    a in zones && zones[a] == if from <= z then DmapZone(ZoneRecord(layout, z)) else ZoneRecord(layout, z)
  }

  /** The metadata addresses the zone records hold. */
  ghost predicate Recorded(zones: map<nat, Zone>, layout: Layout, records: Records) {
    |records| == |layout| &&
    forall z :: 0 <= z < |layout| ==> layout[z].zonePtr in zones && zones[layout[z].zonePtr].metaArray == records[z]
  }

  lemma ZonePtrNull(layout: Layout, z: int)
    requires LayoutOk(layout) && -1 <= z < |layout|
    ensures ZonePtrAt(layout, z) == 0 <==> z == -1
  {
    if z >= 0 { assert layout[z].Valid(); }
  }

  lemma ZonePtrToDmap(layout: Layout, z: int)
    requires LayoutOk(layout) && Physical(layout)
    ensures ZonePtrAt(DmapLayout(layout), z) == ToDmap(ZonePtrAt(layout, z))
  {
    if 0 <= z < |layout| { RegionToDmap(layout[z]); }
  }

  lemma SwitchOneZone(zones: map<nat, Zone>, layout: Layout, z: nat)
    requires LayoutOk(layout) && Physical(layout) && z < |layout| && ZonesSwitched(zones, layout, z + 1)
    ensures var a := ToDmap(ZonePtrAt(layout, z));
            && a in zones && zones[a] == ZoneRecord(layout, z)
            && ZonesSwitched(zones[a := DmapZone(zones[a])], layout, z)
  {
    hide LayoutOk, Physical, ToDmap, Up, DmapZone, ZoneRecord;
    ZoneToDmap(layout, z);
    assert RecordSeen(zones, layout, z, z + 1);
    var zones' := zones[Up(layout[z].zonePtr) := DmapZone(ZoneRecord(layout, z))];
    forall y | 0 <= y < |layout| ensures RecordSeen(zones', layout, y, z) {
      assert RecordSeen(zones, layout, y, z + 1);
      if y != z { RegionsApart(layout, y, z); }
      UpInjective(layout[y].zonePtr, layout[z].zonePtr);
    }
  }

  lemma ZonesStartSwitch(was: map<nat, Zone>, zoneHead: nat, layout: Layout)
    requires ZonesStored(was, zoneHead, layout)
    ensures zoneHead == ZonePtrAt(layout, |layout| - 1) && ZonesSwitched(Shift(was), layout, |layout|)
  {
    hide Shift, Up;
    forall y | 0 <= y < |layout| ensures RecordSeen(Shift(was), layout, y, |layout|) {
      assert ZoneStored(was, layout, y);
      ShiftAt(was, layout[y].zonePtr);
    }
  }

  /** Once all records are rewritten they describe the zones where they are seen, but for metadata at zero. */
  lemma ZonesSwitchedDone(zones: map<nat, Zone>, layout: Layout, head: nat)
    requires LayoutOk(layout) && Physical(layout) && ZonesSwitched(zones, layout, 0)
               && head == ZonePtrAt(layout, |layout| - 1)
    ensures ZonesStored(zones, ToDmap(head), DmapLayout(layout)) <==> NoneAtZero(layout)
    ensures Recorded(zones, DmapLayout(layout), DmapRecords(layout))
  {
    hide LayoutOk, Physical, ToDmap, Up, ZonePtrAt;
    ZonePtrToDmap(layout, |layout| - 1);
    forall z | 0 <= z < |layout|
      ensures ZoneStored(zones, DmapLayout(layout), z) <==> layout[z].metaBase != 0
      ensures Up(layout[z].zonePtr) in zones && zones[Up(layout[z].zonePtr)].metaArray == ToDmap(layout[z].metaBase)
    {
      assert RecordSeen(zones, layout, z, 0);
      ZoneToDmap(layout, z);
      ZonePtrToDmap(layout, z - 1);
    }
  }

  lemma MetaToDmap(metaMem: map<nat, Meta>, layout: Layout, metas: seq<Meta>)
    requires MetaStored(metaMem, layout, metas)
    ensures MetaStored(Shift(metaMem), DmapLayout(layout), metas)
  {
    hide Shift, Up;
    forall z | 0 <= z < |layout|
      ensures Up(layout[z].metaBase) in Shift(metaMem) && Shift(metaMem)[Up(layout[z].metaBase)] == metas[z]
    {
      ShiftAt(metaMem, layout[z].metaBase);
    }
  }

  lemma AddrAtNull(nodes: Nodes, head: nat, layout: Layout, l: seq<Block>, n: nat)
    requires LayoutOk(layout) && ListLinked(nodes, head, layout, l) && n <= |l|
    ensures n == 0 ==> head == AddrAt(layout, l, 0)
    ensures AddrAt(layout, l, n) == 0 <==> n == |l|
  {
    if n < |l| {
      assert NodeOk(nodes, layout, l, n);
      AddrInjective(layout, l[n], l[n]);
    }
  }

  ghost function Blocks(l: seq<Block>): set<Block> {
    set b | b in l
  }

  /** `done` holds exactly the blocks of the first n lists. */
  ghost predicate ListsRewritten(lists: Lists, n: nat, done: set<Block>) {
    forall b :: b in done <==> exists k :: 0 <= k < n && k < MAX_ORDER && b in lists[k]
  }

  lemma ListsRewrittenNone(lists: Lists)
    ensures ListsRewritten(lists, 0, {})
  {
  }

  lemma ListsRewrittenStep(lists: Lists, n: nat, done: set<Block>)
    requires n < MAX_ORDER && ListsRewritten(lists, n, done)
    ensures ListsRewritten(lists, n + 1, done + Blocks(lists[n]))
  {
  }

  lemma ListPending(lists: Lists, n: nat, done: set<Block>)
    requires n < MAX_ORDER && Distinct(lists) && ListsRewritten(lists, n, done)
    ensures NoDup(lists[n]) && forall b :: b in lists[n] ==> b !in done
  {
  }

  lemma LowestToDmap(lowest: nat, layout: Layout)
    requires LayoutOk(layout) && Physical(layout) && LowestOk(lowest, layout)
    ensures LowestOk(ToDmap(lowest), DmapLayout(layout))
  {
    forall z | 0 <= z < |layout|
        ensures 0 < layout[z].dataBase && ToDmap(layout[z].dataBase) == Up(layout[z].dataBase) {
      RegionToDmap(layout[z]);
    }
    if layout != [] {
      var z :| 0 <= z < |layout| && layout[z].dataBase == lowest;
      assert DmapLayout(layout)[z].dataBase == ToDmap(lowest);
    }
  }

  // ---------------------------------------------------------------- the merge, half way

  lemma StartFree(c: Core, b: Block, k: nat)
    requires Ok(c) && IsLiveBlock(c, b, k)
    ensures k <= TOP && Absorbed(c.metas[b.zone], b.index, k, b.index, k)
    ensures ListsOutside(c, c.lists, b.zone, b.index, k)
  {
    HeadAbsorbed(c.metas[b.zone], b.index, k);
    StartOutside(c, b, k);
  }

  /** One merge: the buddy is on its list, and the invariants carry over to the run one order up. */
  lemma MergeStep(c: Core, lists: Lists, b: Block, k0: nat, i: nat, k: nat) returns (at: nat)
    requires Ok(c) && IsLiveBlock(c, b, k0) && k < TOP
    requires Absorbed(c.metas[b.zone], b.index, k0, i, k) && ListsOutside(c, lists, b.zone, i, k)
    requires var buddy := ToggleBit(i, k);
             buddy < |c.metas[b.zone]| && buddy + Pow2(k) <= |c.metas[b.zone]| && c.metas[b.zone][buddy] == FreeByte(k)
    ensures var meta := c.metas[b.zone]; var g := Block(b.zone, ToggleBit(i, k));
              var lists' := lists[k := Without(lists[k], g)];
            && at < |lists[k]| && lists[k][at] == g
            && Absorbed(meta, b.index, k0, ClearBit(i, k), k + 1)
            && ListsOutside(c, lists', b.zone, ClearBit(i, k), k + 1)
            && Coalesce(meta, lists, b.zone, i, k) == Coalesce(meta, lists', b.zone, ClearBit(i, k), k + 1)
  {
    var meta, g := c.metas[b.zone], Block(b.zone, ToggleBit(i, k));
    BuddyOf(i, k);
    assert CanMerge(meta, i, k);
    AbsorbBuddy(meta, b.index, k0, i, k);
    ListsOutsideStep(c, lists, b.zone, i, k);
    assert IsFreeBlock(c, g, k);
    assert g in lists[k];
    at :| 0 <= at < |lists[k]| && lists[k][at] == g;
  }

  lemma MergeEnd(c: Core, lists: Lists, b: Block, k0: nat, i: nat, k: nat)
    requires Ok(c) && IsLiveBlock(c, b, k0)
    requires Absorbed(c.metas[b.zone], b.index, k0, i, k) && ListsOutside(c, lists, b.zone, i, k)
    requires Coalesce(c.metas[b.zone], lists, b.zone, i, k) == Coalesce(c.metas[b.zone], c.lists, b.zone, b.index, k0)
    requires k == TOP || !(ToggleBit(i, k) < |c.metas[b.zone]| && ToggleBit(i, k) + Pow2(k) <= |c.metas[b.zone]|
               && c.metas[b.zone][ToggleBit(i, k)] == FreeByte(k))
    ensures i + Pow2(k) <= |c.metas[b.zone]| && Unlisted(lists, Block(b.zone, i))
    ensures Free(c, b, k0) == Core(c.metas[b.zone := Fill(c.metas[b.zone], i, k, FreeByte(k))],
              lists[k := [Block(b.zone, i)] + lists[k]])
  {
  }

  lemma FreeKeepsBalance(c: Core, b: Block, k: nat)
    requires Ok(c) && Balanced(c) && IsLiveBlock(c, b, k)
    ensures Balanced(Free(c, b, k))
  {
    FreeBalance(c, b, k);
  }

  // ---------------------------------------------------------------- a new zone

  ghost predicate Apart(layout: Layout, r: Region) {
    forall z :: 0 <= z < |layout| ==> r.End() <= layout[z].metaBase || layout[z].End() <= r.metaBase
  }

  /** The reserved pages and the usable ones fill the region, metadata and record in the first part. */
  lemma RegionFits(start: nat, end: nat, reserved: nat)
    requires start < end && start % PAGE_SIZE == 0 && end % PAGE_SIZE == 0
    requires reserved < (end - start) / PAGE_SIZE
    requires (end - start) / PAGE_SIZE - reserved + ZONE_SIZE <= reserved * PAGE_SIZE
    ensures var bytes := reserved * PAGE_SIZE;
            var r := Region(start, start + bytes - ZONE_SIZE, start + bytes, (end - start) / PAGE_SIZE - reserved);
            r.Valid() && r.End() == end && (r.dataBase - start) / PAGE_SIZE == reserved
  {
  }

  lemma ExtendLayout(layout: Layout, r: Region)
    requires LayoutOk(layout) && r.Valid() && Apart(layout, r)
    ensures LayoutOk(layout + [r])
    ensures forall z :: 0 <= z < |layout| ==> layout[z].metaBase != r.metaBase && layout[z].zonePtr != r.zonePtr
  {
    var layout' := layout + [r];
    assert LayoutOk(layout');
    forall z | 0 <= z < |layout| ensures layout[z].metaBase != r.metaBase && layout[z].zonePtr != r.zonePtr {
      RegionsApart(layout', z, |layout|);
    }
  }

  lemma ExtendZones(zones: map<nat, Zone>, zoneHead: nat, layout: Layout, r: Region)
    requires ZonesStored(zones, zoneHead, layout)
    requires forall z :: 0 <= z < |layout| ==> layout[z].zonePtr != r.zonePtr
    ensures ZonesStored(zones[r.zonePtr := Zone(r.metaBase, r.dataBase, r.pages, zoneHead)], r.zonePtr, layout + [r])
  {
    var zones' := zones[r.zonePtr := Zone(r.metaBase, r.dataBase, r.pages, zoneHead)];
    forall z | 0 <= z < |layout| ensures ZoneStored(zones', layout + [r], z) {
      assert ZoneStored(zones, layout, z);
    }
  }

  lemma ExtendStored(zones: map<nat, Zone>, zoneHead: nat, metaMem: map<nat, Meta>, layout: Layout, metas: seq<Meta>,
      r: Region, meta: Meta)
    requires LayoutOk(layout) && ZonesStored(zones, zoneHead, layout) && MetaStored(metaMem, layout, metas)
    requires r.Valid() && |meta| == r.pages && Apart(layout, r)
    ensures |metas| == |layout| && LayoutOk(layout + [r])
    ensures ZonesStored(zones[r.zonePtr := Zone(r.metaBase, r.dataBase, r.pages, zoneHead)], r.zonePtr, layout + [r])
    ensures MetaStored(metaMem[r.metaBase := meta], layout + [r], metas + [meta])
  {
    ExtendLayout(layout, r);
    hide LayoutOk, Apart;
    ExtendZones(zones, zoneHead, layout, r);
    hide ZonesStored;
  }

  lemma LinkedExtend(nodes: Nodes, heads: seq<nat>, layout: Layout, lists: Lists, r: Region)
    requires Linked(nodes, heads, layout, lists)
    ensures Linked(nodes, heads, layout + [r], lists)
  {
    forall k | 0 <= k < MAX_ORDER ensures ListLinked(nodes, heads[k], layout + [r], lists[k]) {
      assert ListLinked(nodes, heads[k], layout, lists[k]);
      var l := lists[k];
      forall i | 0 <= i < |l| ensures NodeOk(nodes, layout + [r], l, i) {
        assert NodeOk(nodes, layout, l, i);
        if i > 0 { assert NodeOk(nodes, layout, l, i - 1); }
        if i + 1 < |l| { assert NodeOk(nodes, layout, l, i + 1); }
      }
      if l != [] { assert NodeOk(nodes, layout, l, 0); }
    }
  }

  lemma LowestExtend(lowest: nat, layout: Layout, r: Region)
    requires LowestOk(lowest, layout) && r.Valid() && LayoutOk(layout)
    ensures LowestOk(if lowest == 0 || r.dataBase < lowest then r.dataBase else lowest, layout + [r])
  {
    assert (layout + [r])[|layout|] == r;
    if !(lowest == 0 || r.dataBase < lowest) {
      var z :| 0 <= z < |layout| && layout[z].dataBase == lowest;
      assert (layout + [r])[z].dataBase == lowest;
    }
  }

  lemma AddZoneKeepsBalance(c: Core, n: nat)
    requires Ok(c) && Balanced(c)
    ensures Balanced(AddZone(c, n))
  {
    AddZoneBalance(c, n);
  }

  lemma SeedStart(c: Core, n: nat)
    requires Ok(c)
    ensures Seeded(Zeros(n), 0) && SeedAgree(c, Zeros(n), c.lists)
  {
    ZeroSeeded(Zeros(n));
  }

  lemma SeedOnce(c: Core, meta: Meta, lists: Lists, i: nat)
    requires Seeded(meta, i) && SeedAgree(c, meta, lists) && i < |meta|
    ensures var k := SeedOrder(i, |meta| - i); var b := Block(|c.metas|, i);
            && k <= TOP && i + Pow2(k) <= |meta| && Unlisted(lists, b)
            && Seeded(Fill(meta, i, k, FreeByte(k)), i + Pow2(k))
            && SeedAgree(c, Fill(meta, i, k, FreeByte(k)), lists[k := [b] + lists[k]])
            && Seed(meta, lists, |c.metas|, i) ==
               Seed(Fill(meta, i, k, FreeByte(k)), lists[k := [b] + lists[k]], |c.metas|, i + Pow2(k))
  {
    hide SeedOrder, Aligned, Tiled, Fill;
    SeedOrderFits(i, |meta| - i);
    SeedStep(meta, i);
    SeedAgreeStep(c, meta, lists, i, SeedOrder(i, |meta| - i));
    assert meta[i] == 0;
  }

  lemma SeedEnd(c: Core, meta: Meta, lists: Lists, n: nat)
    requires Ok(c) && |meta| == n && Seed(meta, lists, |c.metas|, n) == Seed(Zeros(n), c.lists, |c.metas|, 0)
    ensures AddZone(c, n) == Core(c.metas + [meta], lists) && Ok(AddZone(c, n))
  {
    AddZoneOk(c, n);
  }
}
