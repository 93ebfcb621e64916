/**
 * Inputs at which a promise of the kernel's code fails, one for each condition
 * that another module shows to be exact.
 */
module Limits {
  import opened Wrappers
  import opened Alignment
  import opened BuddyTiling
  import opened BuddyCore
  import opened BuddyLinks
  import opened BuddyAllocator
  import opened BuddyDmap
  import opened SlabHeap
  import opened SlabMachine
  import opened SlabDmap
  import opened SlabAlloc
  import BuddyReserve
  import BuddyRuns
  import SlabOps
  import PageTable
  import PageMapper
  import PageBlocks
  import MsiEvents
  import MsiThreads

  // ---------------------------------------------------------------- the switch to the direct map

  /** A region of four pages at physical zero: the switch takes its metadata address for null. */
  method ZoneAtZero() returns (pa: PageAllocator)
    ensures pa.isDmap && !pa.Valid()
  {
    hide PageAllocator.Valid;
    pa := new PageAllocator();
    var _ := pa.AddRange(0, 4 * PAGE_SIZE);
    ghost var layout := pa.layout;
    assert layout[0].metaBase == 0;
    pa.TransitionDmap();
  }

  /** A small region keeps one page for its metadata. */
  lemma OneReserved(start: nat, region: Region, n: nat)
    requires region.Valid() && region.metaBase == start && region.End() == start + n * PAGE_SIZE
               && start % PAGE_SIZE == 0
    requires 2 <= n <= 1000 && BuddyReserve.Settled(n, (region.dataBase - start) / PAGE_SIZE)
    ensures region.pages == n - 1
  {
    var r := (region.dataBase - start) / PAGE_SIZE;
    assert r == 1;
    assert (region.dataBase - start) % PAGE_SIZE == 0;
  }

  /** In a fresh zone of 63 pages the first eight are a free run, and so is the first. */
  lemma EightFree()
    ensures Ok(BuddyRuns.Empty) && Ok(AddZone(BuddyRuns.Empty, 63))
    ensures HasRun(AddZone(BuddyRuns.Empty, 63), Block(0, 0), 3) && Alloc(AddZone(BuddyRuns.Empty, 63), 0).1.Some?
  {
    hide AddZone, Alloc;
    AddZoneOk(BuddyRuns.Empty, 63);
    var c := AddZone(BuddyRuns.Empty, 63);
    assert Pow2(3) == 8 && Aligned(0, 3);
    assert HasRun(c, Block(0, 0), 3) && HasRun(c, Block(0, 0), 0);
    AllocComplete(c, 0);
  }

  /** Eight pages hold an object aligned to two. */
  lemma EightHold()
    ensures BlockHolds(SlabHeap.Layout(8, 2 * PAGE_SIZE), 3)
  {
    assert Pow2(3) == 8;
  }

  /** A page allocator with one region of n pages at 1 GiB. */
  method OneZone(n: nat) returns (pa: PageAllocator)
    requires 2 <= n <= 1000
    ensures pa.Valid() && fresh(pa) && fresh(pa.freeArea) && !pa.isDmap && Physical(pa.layout)
    ensures pa.core == AddZone(BuddyRuns.Empty, n - 1) && |pa.layout| == 1 && pa.layout[0].pages == n - 1
  {
    hide PageAllocator.Valid, AddZone;
    var start := 0x4000_0000;
    pa := new PageAllocator();
    assert (start + n * PAGE_SIZE - start) / PAGE_SIZE == n;
    ghost var region := pa.AddRange(start, start + n * PAGE_SIZE);
    ZoneValid(pa, region);
    OneReserved(start, region, n);
  }

  /** An object aligned to two pages is live at the switch: its backing word keeps the physical address. */
  method OverAlignedObject() returns (slab: SlabAllocator)
    ensures slab.pages.isDmap && !slab.Valid()
  {
    hide PageAllocator.Valid, SlabOps.HeapOk, AddZone, Alloc, LargeOrder, SlabServes, LimboOk, Total, UpAll, UpHeads;
    hide NoOverAligned, Physical, ValidLayout, Recorded, DmapLayout, HasRun, BlockHolds;
    var l := SlabHeap.Layout(8, 2 * PAGE_SIZE);
    var pa := OneZone(64);
    slab := new SlabAllocator(pa);
    TwoPagesValid();
    EightFree();
    EightHold();
    var r := slab.AllocImpl(l);
    KindOfObject(slab.View(), pa.core, pa.layout, r.addr);
    OneOverAligned(slab.live, r.addr);
    slab.TransitionDmap();
  }

  /** A call has fetched a page and not yet opened it at the switch: the page's address is lost. */
  method PageInTransit() returns (slab: SlabAllocator)
    ensures slab.pages.isDmap && !slab.Sound()
  {
    hide PageAllocator.Valid, SlabOps.HeapOk, AddZone, Alloc, LimboOk, Total, UpAll, UpHeads, NoOverAligned, Physical;
    hide Recorded, DmapLayout, Serves;
    var pa := OneZone(64);
    slab := new SlabAllocator(pa);
    EightFree();
    var page := slab.FetchPage();
    assert page in slab.limbo;
    slab.TransitionDmap();
  }

  lemma TwoPagesValid()
    ensures ValidLayout(SlabHeap.Layout(8, 2 * PAGE_SIZE))
  {
    ClassIsPower(0);
    assert Pow2(15) == 2 * PAGE_SIZE;
  }

  lemma ZoneValid(pa: PageAllocator, region: Region)
    requires pa.Valid() && pa.layout == [region]
    ensures region.Valid()
  {
    assert pa.layout[0].Valid();
  }

  lemma OneOverAligned(live: map<nat, Object>, a: nat)
    requires a in live && OverAligned(live[a])
    ensures !NoOverAligned(live)
  {
  }

  // ---------------------------------------------------------------- freeing

  /** Four fresh pages are one block of order two; the first two are taken from it. */
  lemma TakeTwoOfFour()
    ensures Ok(BuddyRuns.Empty) && Ok(AddZone(BuddyRuns.Empty, 4))
    ensures var (c, b) := Alloc(AddZone(BuddyRuns.Empty, 4), 1);
            b == Some(Block(0, 0)) && Inside(c, Block(0, 1)) && !Merges(c, Block(0, 1)) && Fits(c, Block(0, 1))
  {
    AddZoneOk(BuddyRuns.Empty, 4);
    assert Pow2(1) == 2 && Pow2(2) == 4;
    BuddyCore.ILog2Unique(4, 2);
    assert SeedOrder(0, 4) == 2;
    var c := AddZone(BuddyRuns.Empty, 4);
    var meta, lists := Fill(Zeros(4), 0, 2, FreeByte(2)),
        BuddyRuns.Empty.lists[2 := [Block(0, 0)] + BuddyRuns.Empty.lists[2]];
    assert Seed(meta, lists, 0, 4) == (meta, lists);
    assert Seed(Zeros(4), BuddyRuns.Empty.lists, 0, 0) == (meta, lists);
    assert FirstOrder(c.lists, 1) == 2;
    assert Bit(1, 1) == 0 && ToggleBit(1, 1) == 3;
    AllocLive(c, 1, Block(0, 1), 1);
  }

  /** The second page of a block of two is freed: memory holds no state of the allocator any more. */
  method FreeSecondPage() returns (pa: PageAllocator)
    ensures forall c :: !pa.Represents(c)
  {
    hide PageAllocator.Valid, PageAllocator.Represents, AddZone, Alloc, Ok, Inside, Merges, Fits, Expected;
    hide PageAllocator.MisfreedAs;
    pa := OneZone(5);
    TakeTwoOfFour();
    var addr := pa.AllocPages(1);
    ghost var c, layout := pa.core, pa.layout;
    LaidOut(pa);
    var outcome := pa.FreePages(addr + PAGE_SIZE);
    InsideIsMisfreed(c, layout, addr + PAGE_SIZE, outcome, Block(0, 1));
  }

  lemma LaidOut(pa: PageAllocator)
    requires pa.Valid()
    ensures LayoutOk(pa.layout)
  {
  }

  lemma InsideIsMisfreed(c: Core, layout: BuddyLinks.Layout, addr: nat, outcome: FreeOutcome, b: Block)
    requires LayoutOk(layout) && InRange(layout, b) && addr == Addr(layout, b) && Expected(c, layout, addr, outcome)
    requires Inside(c, b) && !Merges(c, b) && Fits(c, b)
    ensures outcome == Misfreed
  {
    AddrInjective(layout, b, b);
    forall g | InRange(layout, g) && Addr(layout, g) == addr ensures g == b { AddrInjective(layout, g, b); }
  }

  // ---------------------------------------------------------------- translation tables

  /** A page mapped and then covered by a block: the table that held the page is left without a link. */
  method BlockOverPage(m: PageMapper.Mapper, root: nat, attrs: PageTable.Attrs)
      returns (ghost s: PageTable.Tree, ghost t: nat)
    requires root in m.mem && root != 0 && m.mem[root] == PageTable.EmptyTable()
    modifies m
    ensures PageTable.Ok(m.mem, s) && s.root == root
    ensures t in m.mem && t !in old(m.mem) && t !in s.prefix
  {
    hide PageTable.Ok, PageTable.Walk, PageTable.BlockOnPath, PageTable.PathOf;
    s := PageTable.FreshTree(root);
    PageTable.FreshTreeOk(m.mem, root);
    NoBlockYet(m.mem, root, PageTable.PathOf(0));
    ghost var s1 := m.MapPage(root, 0x4000, 0, attrs, s);
    PageTable.MappingNeedsTables(m.mem, s1, PageTable.PathOf(0));
    t :| t in s1.prefix && s1.prefix[t] == PageTable.PathOf(0)[..3];
    NewTable(old(m.mem), s, m.mem, s1, t);
    ghost var leaked;
    s, leaked := m.MapL2Block(root, 0, 0, attrs, s1);
  }

  lemma NoBlockYet(mem: PageTable.Memory, root: nat, path: PageTable.Path)
    requires root in mem && mem[root] == PageTable.EmptyTable()
    ensures !PageTable.BlockOnPath(mem, root, path)
  {
    assert PageTable.TableAt(mem, root, path, 1) == None;
    assert PageTable.TableAt(mem, root, path, 2) == None;
  }

  lemma NewTable(mem: PageTable.Memory, s: PageTable.Tree, mem': PageTable.Memory, s': PageTable.Tree, t: nat)
    requires PageMapper.Framed(mem, s, mem', s') && s.prefix.Keys == {s.root} && PageTable.Ok(mem', s')
               && t in s'.prefix && s'.prefix[t] != []
    ensures t !in mem
  {
  }

  /** A page mapped under a block: the entry is written at the block's base, and the block still translates the page. */
  method PageUnderBlock(m: PageMapper.Mapper, root: nat, attrs: PageTable.Attrs)
    requires root in m.mem && root != 0 && m.mem[root] == PageTable.EmptyTable() && 0 !in m.mem
    modifies m
    ensures PageTable.Walk(m.mem, root, PageTable.PathOf(0)) == Some(PageTable.Mapping(0, attrs, true))
  {
    hide PageTable.Ok, PageTable.Walk, PageTable.PathOf, PageTable.BlockOnPath, PageMapper.BlockBase;
    hide PageMapper.LastLevel, PageMapper.FramedBut;
    ghost var s := PageTable.FreshTree(root);
    PageTable.FreshTreeOk(m.mem, root);
    ghost var before, s0, leaked := m.mem, s, {};
    s, leaked := m.MapL2Block(root, 0, 0, attrs, s0);
    PageMapper.FramedButRoot(before, s0, m.mem, s, leaked);
    ZeroPath();
    NullStaysFree(before, s0, m.mem, s, leaked);
    BlockThere(m.mem, s0, s, leaked, PageTable.PathOf(0), 0, attrs);
    s := m.MapPage(root, 0x4000, 0, attrs, s);
  }

  /** A page mapped under a block at the root itself: half of the address space loses its translation. */
  method PageThroughBlock(m: PageMapper.Mapper, root: nat, attrs: PageTable.Attrs)
    requires root in m.mem && root != 0 && m.mem[root] == PageTable.EmptyTable() && 0 !in m.mem
    modifies m
    ensures forall path: PageTable.Path :: path[0] == 0 ==> PageTable.Walk(m.mem, root, path) == None
  {
    hide PageTable.Ok, PageTable.Walk, PageTable.PathOf, PageTable.BlockOnPath, PageMapper.BlockBase;
    hide PageMapper.LastLevel, PageMapper.FramedBut;
    ghost var s := PageTable.FreshTree(root);
    PageTable.FreshTreeOk(m.mem, root);
    ghost var before, s0, leaked := m.mem, s, {};
    s, leaked := m.MapL2Block(root, root, 0, attrs, s0);
    PageMapper.FramedButRoot(before, s0, m.mem, s, leaked);
    ZeroPath();
    NullStaysFree(before, s0, m.mem, s, leaked);
    BlockThere(m.mem, s0, s, leaked, PageTable.PathOf(0), root, attrs);
    ghost var mem := m.mem;
    ghost var _ := m.MapPage(root, 0, 0, attrs, s);
    forall path: PageTable.Path | path[0] == 0 ensures PageTable.Walk(m.mem, root, path) == None {
      ThroughRoot(mem, s, attrs, path);
    }
  }

  lemma ThroughRoot(mem: PageTable.Memory, s: PageTable.Tree, attrs: PageTable.Attrs, path: PageTable.Path)
    requires PageTable.Ok(mem, s) && 0 !in mem && path[0] == 0
    ensures PageTable.Walk(PageMapper.Scribbled(mem, s.root, 0, PageMapper.PageEntry(0, attrs)), s.root, path) == None
  {
    hide PageTable.LinksDown, PageTable.LinksUp, PageTable.NoneEmpty, PageTable.Walk;
    PageBlocks.ScribbledWalk(mem, s, s.root, 0, 0, attrs, path);
    assert path[..0] == [];
  }

  lemma ZeroPath()
    ensures PageTable.PathOf(0) == [0, 0, 0, 0]
  {
  }

  lemma NullStaysFree(mem: PageTable.Memory, s: PageTable.Tree, mem': PageTable.Memory, s': PageTable.Tree,
      leaked: set<nat>)
    requires PageTable.Ok(mem, s) && PageTable.Ok(mem', s') && PageMapper.FramedBut(mem, s, mem', s', leaked)
               && 0 !in mem
    requires forall t :: t in leaked ==> t in s.prefix
    ensures 0 !in mem'
  {
  }

  /** With no last-level table in the tree, what translates the page is a block. */
  lemma BlockThere(mem: PageTable.Memory, s: PageTable.Tree, s': PageTable.Tree, leaked: set<nat>,
      path: PageTable.Path, base: nat, attrs: PageTable.Attrs)
    requires PageTable.Ok(mem, s') && s == PageTable.FreshTree(s'.root)
               && PageMapper.LastLevel(s') == PageMapper.LastLevel(s) - leaked
    requires PageTable.Walk(mem, s'.root, path) ==
               Some(PageTable.Mapping(base + path[3] * PageTable.PAGE_SIZE, attrs, true))
    ensures PageTable.BlockOnPath(mem, s'.root, path) && PageMapper.BlockBase(mem, s'.root, path) == base
  {
    hide PageTable.TableAt;
    assert PageMapper.LastLevel(s) == map[];
    forall t | t in s'.prefix ensures s'.prefix[t] != path[..3] { assert t !in PageMapper.LastLevel(s'); }
    PageTable.NotReached(mem, s', path, 3);
  }

  // ---------------------------------------------------------------- interrupts

  /** An event mapped twice: the LPI of the first mapping still names the event, which no longer names it. */
  lemma RemapIsInexact(e: MsiEvents.Event, l: nat, m: nat, icid: nat)
    requires l != m
    ensures var s, steps := MsiEvents.State(iset{}, map[], map[]),
              [MsiEvents.Mapped(e, l, icid), MsiEvents.Mapped(e, m, icid)];
            && MsiEvents.IsRun(s, steps)
            && !MsiEvents.Exact(MsiEvents.After(s, steps).events, MsiEvents.After(s, steps).lpis)
  {
    var s := MsiEvents.State(iset{}, map[], map[]);
    var first, second := MsiEvents.Mapped(e, l, icid), MsiEvents.Mapped(e, m, icid);
    assert [first, second][1..] == [second] && [second][1..] == [];
    var t := MsiEvents.Apply(s, first);
    assert MsiEvents.IsRun(t, [second]);
    var u := MsiEvents.Apply(t, second);
    assert MsiEvents.After(t, [second]) == u;
    assert l in u.lpis && u.events[e] == m;
  }

  /** The same through the calls themselves, on a controller with an ITS. */
  method RemapThroughCalls(e: MsiEvents.Event) returns (msi: MsiEvents.Msi)
    ensures msi.Valid() && !MsiEvents.Exact(msi.events, msi.lpis)
  {
    msi := new MsiEvents.Msi(true);
    var first := msi.MapEvent(e, Some(8192), 0, true);
    var second := msi.MapEvent(e, Some(8193), 0, true);
    assert 8192 in msi.lpis && msi.lpis[8192].event == e && msi.events[e] == 8193;
  }

  /** Thread 0 maps event e to LPI l while thread 1 unmaps it. */
  function Overtaking(e: MsiEvents.Event, l: nat, k: nat): MsiThreads.Step
    requires k < 7
  {
    [MsiThreads.Take(0, e, l, 0), MsiThreads.Insert(0), MsiThreads.Remove(1, e), MsiThreads.Unlink(1),
     MsiThreads.Link(0), MsiThreads.Free(1), MsiThreads.Drop(1)][k]
  }

  ghost function Overtaken(e: MsiEvents.Event, l: nat, k: nat): MsiThreads.Threads
    requires k <= 7
  {
    var first := [MsiThreads.Idle, MsiThreads.Inserting(e, l, 0), MsiThreads.Linking(e, l, 0),
        MsiThreads.Linking(e, l, 0),
                  MsiThreads.Linking(e, l, 0), MsiThreads.Idle, MsiThreads.Idle, MsiThreads.Idle][k];
    var second := [MsiThreads.Idle, MsiThreads.Idle, MsiThreads.Idle, MsiThreads.Unlinking(l),
                   MsiThreads.Freeing(l), MsiThreads.Freeing(l), MsiThreads.Dropping(l), MsiThreads.Idle][k];
    MsiThreads.Threads(if 1 <= k < 6 then iset{l} else iset{}, if k == 2 then map[e := l] else map[],
                       if k < 5 then map[] else map[l := MsiEvents.Target(e, 0)], map[], [first, second])
  }

  lemma OvertakingStep(e: MsiEvents.Event, l: nat, k: nat)
    requires k < 7
    ensures MsiThreads.Enabled(Overtaken(e, l, k), Overtaking(e, l, k))
    ensures MsiThreads.Apply(Overtaken(e, l, k), Overtaking(e, l, k)) == Overtaken(e, l, k + 1)
  {
    var s, t := MsiThreads.Apply(Overtaken(e, l, k), Overtaking(e, l, k)), Overtaken(e, l, k + 1);
    assert s.phases == t.phases;
    assert s.used == t.used && s.lpis == t.lpis;
  }

  lemma {:induction false} OvertakingRun(e: MsiEvents.Event, l: nat, k: nat) returns (steps: seq<MsiThreads.Step>)
    requires k <= 7
    ensures MsiThreads.IsRun(Overtaken(e, l, k), steps)
              && MsiThreads.After(Overtaken(e, l, k), steps) == Overtaken(e, l, 7)
    decreases 7 - k
  {
    hide MsiThreads.Enabled, MsiThreads.Apply, Overtaken, Overtaking;
    if k == 7 {
      steps := [];
    } else {
      OvertakingStep(e, l, k);
      var rest := OvertakingRun(e, l, k + 1);
      steps := [Overtaking(e, l, k)] + rest;
      assert steps[1..] == rest;
    }
  }

  /** An unmap overtakes a map of the same event: the LPI is free and still names the event. */
  lemma UnmapOvertakesMap(e: MsiEvents.Event, l: nat) returns (steps: seq<MsiThreads.Step>)
    ensures MsiThreads.IsRun(MsiThreads.Start(2), steps)
    ensures var s := MsiThreads.After(MsiThreads.Start(2), steps);
            MsiThreads.AtRest(s) && l in s.lpis && l !in s.used && !MsiEvents.Consistent(s.used, s.events, s.lpis)
  {
    hide MsiThreads.IsRun, MsiThreads.After;
    steps := OvertakingRun(e, l, 0);
    assert Overtaken(e, l, 0) == MsiThreads.Start(2);
  }
}
