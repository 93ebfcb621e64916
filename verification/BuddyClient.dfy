/** The page allocator as its clients see it: which address ranges are handed out. */
module BuddyClient {
  import opened Alignment
  import opened BuddyTiling
  import opened BuddyCore
  import opened BuddyLinks
  import opened BuddyAllocator
  import BuddyRuns
  import BuddyDmap

  /** 2^k pages from address `a` are handed out as one block. */
  ghost predicate LiveIn(c: Core, layout: Layout, a: nat, k: nat) {
    exists b :: InRange(layout, b) && a == Addr(layout, b) && IsLiveBlock(c, b, k)
  }

  ghost predicate Matches(c: Core, layout: Layout) {
    && Ok(c) && LayoutOk(layout) && |c.metas| == |layout|
    && forall z :: 0 <= z < |layout| ==> |c.metas[z]| == layout[z].pages
  }

  function Bytes(k: nat): nat { Pow2(k) * PAGE_SIZE }

  lemma BlockOfLive(c: Core, layout: Layout, a: nat, k: nat) returns (b: Block)
    requires Matches(c, layout) && LiveIn(c, layout, a, k)
    ensures InRange(layout, b) && a == Addr(layout, b) && IsLiveBlock(c, b, k) && a != 0
    ensures b.index + Pow2(k) <= layout[b.zone].pages
  {
    b :| InRange(layout, b) && a == Addr(layout, b) && IsLiveBlock(c, b, k);
    AddrInjective(layout, b, b);
    HeadCovers(c.metas[b.zone], b.index, k);
  }

  /** Blocks that are out at the same time do not overlap. */
  lemma LiveDisjoint(c: Core, layout: Layout, a: nat, j: nat, b: nat, k: nat)
    requires Matches(c, layout) && LiveIn(c, layout, a, j) && LiveIn(c, layout, b, k)
    ensures a != b ==> a + Bytes(j) <= b || b + Bytes(k) <= a
    ensures a == b ==> j == k
  {
    var x := BlockOfLive(c, layout, a, j);
    var y := BlockOfLive(c, layout, b, k);
    if x.zone == y.zone {
      if x.index <= y.index < x.index + Pow2(j) {
        BuddyRuns.LiveBlocksDisjoint(c, x, j, y, k, y.index);
      } else if y.index <= x.index < y.index + Pow2(k) {
        BuddyRuns.LiveBlocksDisjoint(c, x, j, y, k, x.index);
      }
    } else {
      ZonesApart(layout, x, Pow2(j), y, Pow2(k));
    }
  }

  lemma ZonesApart(layout: Layout, x: Block, m: nat, y: Block, n: nat)
    requires LayoutOk(layout) && InRange(layout, x) && InRange(layout, y) && x.zone != y.zone
    requires x.index + m <= layout[x.zone].pages && y.index + n <= layout[y.zone].pages
    ensures Addr(layout, x) != Addr(layout, y)
    ensures Addr(layout, x) + m * PAGE_SIZE <= Addr(layout, y) || Addr(layout, y) + n * PAGE_SIZE <= Addr(layout, x)
  {
    var p, q := layout[x.zone], layout[y.zone];
    assert p.Valid() && q.Valid();
    assert p.End() <= q.metaBase || q.End() <= p.metaBase by {
      if x.zone < y.zone {
        assert layout[x.zone].End() <= layout[y.zone].metaBase || layout[y.zone].End() <= layout[x.zone].metaBase;
      } else {
        assert layout[y.zone].End() <= layout[x.zone].metaBase || layout[x.zone].End() <= layout[y.zone].metaBase;
      }
    }
    assert Addr(layout, x) + m * PAGE_SIZE <= p.End() && Addr(layout, y) + n * PAGE_SIZE <= q.End();
  }

  /** An allocation adds one block to those handed out, and it overlaps none of them. */
  lemma AllocSeen(c: Core, layout: Layout, t: nat, a: nat, k: nat)
    requires Matches(c, layout) && Alloc(c, t).1.Some? && InRange(layout, Alloc(c, t).1.value)
    ensures var base := Addr(layout, Alloc(c, t).1.value);
            LiveIn(Alloc(c, t).0, layout, a, k) <==> LiveIn(c, layout, a, k) || (a == base && k == t)
  {
    var c', g := Alloc(c, t).0, Alloc(c, t).1.value;
    if LiveIn(c', layout, a, k) {
      var b :| InRange(layout, b) && a == Addr(layout, b) && IsLiveBlock(c', b, k);
      AllocLive(c, t, b, k);
    }
    if b :| InRange(layout, b) && a == Addr(layout, b) && IsLiveBlock(c, b, k) {
      AllocLive(c, t, b, k);
      assert IsLiveBlock(c', b, k);
    }
    AllocLive(c, t, g, t);
    assert IsLiveBlock(c', g, t);
  }

  lemma AllocFresh(c: Core, layout: Layout, t: nat, k: nat)
    requires Matches(c, layout) && Alloc(c, t).1.Some? && InRange(layout, Alloc(c, t).1.value)
    ensures !LiveIn(c, layout, Addr(layout, Alloc(c, t).1.value), k)
  {
    var g := Alloc(c, t).1.value;
    AllocReturnsRun(c, t);
    if b :| InRange(layout, b) && Addr(layout, g) == Addr(layout, b) && IsLiveBlock(c, b, k) {
      AddrInjective(layout, g, b);
    }
  }

  /** A free takes exactly that block from those handed out. */
  lemma FreeSeen(c: Core, layout: Layout, b: Block, k: nat, a: nat, m: nat)
    requires Matches(c, layout) && InRange(layout, b) && IsLiveBlock(c, b, k)
    ensures LiveIn(Free(c, b, k), layout, a, m) <==> LiveIn(c, layout, a, m) && a != Addr(layout, b)
  {
    var c' := Free(c, b, k);
    if g :| InRange(layout, g) && a == Addr(layout, g) && IsLiveBlock(c', g, m) {
      FreeLive(c, b, k, g, m);
      AddrInjective(layout, g, b);
    }
    if g :| InRange(layout, g) && a == Addr(layout, g) && IsLiveBlock(c, g, m) {
      FreeLive(c, b, k, g, m);
      if a != Addr(layout, b) { assert IsLiveBlock(c', g, m); }
    }
  }

  lemma FreeMatches(c: Core, layout: Layout, b: Block, k: nat)
    requires Matches(c, layout) && IsLiveBlock(c, b, k)
    ensures Matches(Free(c, b, k), layout)
  {
    FreeOk(c, b, k);
    BuddyRuns.StepShape(c, BuddyRuns.FreeOp(b, k));
  }

  // ---------------------------------------------------------------- calls

  lemma ServingMatches(pa: PageAllocator)
    requires pa.Valid()
    ensures Matches(pa.core, pa.layout)
  {
  }

  /** Everything handed out before still is, plus the new block if there is one. */
  ghost predicate Granted(was: Core, now: Core, layout: Layout, t: nat, addr: nat) {
    && Matches(now, layout)
    && (addr == 0 ==> now == was)
    && (addr != 0 ==>
          && t < MAX_ORDER
          && (forall a, k: nat :: LiveIn(now, layout, a, k) <==> LiveIn(was, layout, a, k) || (a == addr && k == t))
          && (forall k: nat :: !LiveIn(was, layout, addr, k)))
  }

  method AllocBlock(pa: PageAllocator, order: nat) returns (addr: nat)
    requires pa.Valid()
    modifies pa`nodes, pa`metaMem, pa`allocatedPages, pa`core, pa.freeArea
    ensures pa.Valid() && Granted(old(pa.core), pa.core, pa.layout, order, addr)
    ensures addr == 0 <==> Alloc(old(pa.core), order).1.None?
    ensures pa.core == Alloc(old(pa.core), order).0
    ensures BuddyDmap.Serves(old(pa.core), pa.layout, BuddyDmap.TrueRecords(pa.layout), BuddyDmap.AllocCall(order),
              pa.core, addr)
  {
    ghost var was := pa.core;
    ServingMatches(pa);
    addr := pa.AllocPages(order);
    ServingMatches(pa);
    if addr != 0 {
      AllocReturnsRun(was, order);
      forall a, k: nat
          ensures LiveIn(pa.core, pa.layout, a, k) <==> LiveIn(was, pa.layout, a, k) || (a == addr && k == order) {
        AllocSeen(was, pa.layout, order, a, k);
      }
      forall k: nat ensures !LiveIn(was, pa.layout, addr, k) {
        AllocFresh(was, pa.layout, order, k);
      }
    }
  }

  /** Exactly the block at `addr` is no longer handed out. */
  ghost predicate Returned(was: Core, now: Core, layout: Layout, addr: nat) {
    && Matches(now, layout)
    && forall a, k: nat :: LiveIn(now, layout, a, k) <==> LiveIn(was, layout, a, k) && a != addr
  }

  method FreeBlockAt(pa: PageAllocator, addr: nat, ghost order: nat)
    requires pa.Valid() && LiveIn(pa.core, pa.layout, addr, order)
    modifies pa`nodes, pa`metaMem, pa`allocatedPages, pa`core, pa.freeArea
    ensures pa.Valid() && Returned(old(pa.core), pa.core, pa.layout, addr)
    ensures pa.allocatedPages + Pow2(order) == old(pa.allocatedPages)
    ensures BuddyDmap.Serves(old(pa.core), pa.layout, BuddyDmap.TrueRecords(pa.layout), BuddyDmap.FreeCall(addr),
              pa.core, 0)
  {
    hide Matches, Ok, LayoutOk, Free, UsedPages, TotalPages, Weight, LiveIn, Returned, Linked, ZonesStored, MetaStored;
    hide LowestOk;
    ghost var was := pa.core;
    ServingMatches(pa);
    ghost var b := BlockOfLive(was, pa.layout, addr, order);
    FreeBalance(was, b, order);
    FreeReturns(was, pa.layout, b, order);
    assert pa.allocatedPages == UsedPages(was.metas);
    var outcome := pa.FreePages(addr);
    LiveIsFreed(was, pa.layout, addr, outcome, b, order);
    assert pa.allocatedPages == UsedPages(pa.core.metas);
    ghost var g, k :| IsLiveBlock(was, g, k) && InRange(pa.layout, g) && addr == Addr(pa.layout, g)
        && pa.core == Free(was, g, k);
    SameBlock(was, pa.layout, g, k, b, order);
    FreeServed(was, pa.layout, addr, b, order);
  }

  lemma FreeServed(c: Core, layout: Layout, addr: nat, b: Block, k: nat)
    requires Matches(c, layout) && InRange(layout, b) && addr == Addr(layout, b) && IsLiveBlock(c, b, k)
    ensures BuddyDmap.Serves(c, layout, BuddyDmap.TrueRecords(layout), BuddyDmap.FreeCall(addr), Free(c, b, k), 0)
  {
    assert BuddyDmap.Names(layout, addr, b);
  }

  lemma SameBlock(c: Core, layout: Layout, g: Block, j: nat, b: Block, k: nat)
    requires Matches(c, layout) && InRange(layout, g) && InRange(layout, b) && Addr(layout, g) == Addr(layout, b)
    requires IsLiveBlock(c, g, j) && IsLiveBlock(c, b, k)
    ensures g == b && j == k
  {
    AddrInjective(layout, g, b);
  }

  lemma FreeReturns(c: Core, layout: Layout, b: Block, k: nat)
    requires Matches(c, layout) && InRange(layout, b) && IsLiveBlock(c, b, k)
    ensures Returned(c, Free(c, b, k), layout, Addr(layout, b))
  {
    FreeMatches(c, layout, b, k);
    forall a, m: nat ensures LiveIn(Free(c, b, k), layout, a, m) <==> LiveIn(c, layout, a, m) && a != Addr(layout, b) {
      FreeSeen(c, layout, b, k, a, m);
    }
  }

  /** Freeing the address of a live block is never refused. */
  lemma LiveIsFreed(c: Core, layout: Layout, addr: nat, outcome: FreeOutcome, b: Block, k: nat)
    requires Matches(c, layout) && InRange(layout, b) && addr == Addr(layout, b) && IsLiveBlock(c, b, k)
    requires Expected(c, layout, addr, outcome)
    ensures outcome == Freed
  {
    AddrInjective(layout, b, b);
    forall g | InRange(layout, g) && Addr(layout, g) == addr ensures g == b { AddrInjective(layout, g, b); }
  }
}
