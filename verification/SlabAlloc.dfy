/** The slab allocator: small objects from shared pages, large ones from blocks of their own. */
module SlabAlloc {
  import opened Wrappers
  import opened Alignment
  import opened BuddyCore
  import opened BuddyLinks
  import opened BuddyAllocator
  import opened BuddyClient
  import opened SlabHeap
  import opened SlabOps
  import opened SlabMachine
  import opened SlabDmap
  import SlabLists
  import opened BuddyDmap

  // ---------------------------------------------------------------- bytes in use

  ghost function Total(live: map<nat, Object>): nat
    decreases |live|
  {
    if live == map[] then 0
    else
      var a :| a in live;
      assert (live - {a}).Keys == live.Keys - {a};
      live[a].layout.size + Total(live - {a})
  }

  lemma {:induction false} TotalWithout(live: map<nat, Object>, a: nat)
    requires a in live
    ensures Total(live) == live[a].layout.size + Total(live - {a})
    decreases |live|
  {
    var b :| b in live && Total(live) == live[b].layout.size + Total(live - {b});
    if b != a {
      assert (live - {b}).Keys == live.Keys - {b};
      assert (live - {a}).Keys == live.Keys - {a};
      TotalWithout(live - {b}, a);
      TotalWithout(live - {a}, b);
      assert live - {b} - {a} == live - {a} - {b};
    }
  }

  lemma TotalWith(live: map<nat, Object>, a: nat, o: Object)
    requires a !in live
    ensures Total(live[a := o]) == Total(live) + o.layout.size
  {
    TotalWithout(live[a := o], a);
    assert live[a := o] - {a} == live;
  }

  // ---------------------------------------------------------------- alignment

  ghost predicate ValidLayout(l: SlabHeap.Layout) {
    exists k: nat :: l.align == Pow2(k)
  }

  lemma {:induction false} Pow2Split(j: nat, k: nat)
    requires j <= k
    ensures Pow2(k) == Pow2(j) * Pow2(k - j)
  {
    if j > 0 {
      Pow2Split(j - 1, k - 1);
      Regroup(2, Pow2(j - 1), Pow2(k - j));
    }
  }

  lemma {:induction false} Pow2Ordered(j: nat, k: nat)
    requires Pow2(j) <= Pow2(k)
    ensures j <= k
    decreases j
  {
    if j > k { Pow2Monotone(k + 1, j); }
  }

  /** A multiple of a power of two is a multiple of every smaller one. */
  lemma SmallerPower(a: nat, n: nat, k: nat, m: nat)
    requires n == Pow2(m) && Pow2(k) <= n && a % n == 0
    ensures a % Pow2(k) == 0
  {
    Pow2Ordered(k, m);
    Pow2Split(k, m);
    hide Pow2;
    var q := a / n;
    assert a == n * q;
    Regroup(Pow2(k), Pow2(m - k), q);
    MultipleMod(Pow2(k), Pow2(m - k) * q);
  }

  lemma Regroup(x: nat, y: nat, q: nat)
    ensures (x * y) * q == x * (y * q)
  {
  }

  lemma ClassIsPower(i: nat)
    requires i < CLASSES
    ensures CLASS_SIZES[i] == Pow2(i + 3) && PAGE_SIZE == Pow2(14)
  {
    ClassSize(i);
    assert Pow2(11) == 2048 by { ClassSize(8); }
    assert Pow2(12) == 4096 && Pow2(13) == 8192;
  }

  /** Every live object is aligned as its request asked. */
  lemma ObjectAligned(h: Heap, core: Core, layout: BuddyLinks.Layout, a: nat)
    requires HeapOk(h, core, layout) && a in h.live && ValidLayout(h.live[a].layout)
    ensures h.live[a].layout.align > 0 && a % h.live[a].layout.align == 0
  {
    hide HeapOk, Pow2;
    var o := h.live[a];
    var k: nat :| o.layout.align == Pow2(k);
    if o.Small? {
      SmallAligned(h, core, layout, a, k);
    } else {
      assert LargeAt(h.words, a, o) && LiveIn(core, layout, o.base, o.order) && Matches(core, layout) by {
        LargeFacts(h, core, layout, a);
        LargeIsAt(h, core, layout, a);
      }
      LargeFits(h.words, a, o);
      if o.layout.align <= PAGE_SIZE {
        LivePageAligned(core, layout, o.base, o.order);
        ClassIsPower(0);
        SmallerPower(a, PAGE_SIZE, k, 14);
      }
    }
  }

  lemma LargeIsAt(h: Heap, core: Core, layout: BuddyLinks.Layout, a: nat)
    requires HeapOk(h, core, layout) && a in h.live && h.live[a].Large?
    ensures LargeAt(h.words, a, h.live[a]) && Matches(core, layout)
  {
    hide Matches;
  }

  lemma SmallAligned(h: Heap, core: Core, layout: BuddyLinks.Layout, a: nat, k: nat)
    requires HeapOk(h, core, layout) && a in h.live && h.live[a].Small? && h.live[a].layout.align == Pow2(k)
    ensures a % Pow2(k) == 0
  {
    PageOfObject(h, core, layout, a);
    hide HeapOk, Pow2, Slot;
    var o := h.live[a];
    var i := h.slabs[o.page].cls;
    SlotAligned(o.page, i, o.index);
    ClassIsPower(i);
    ClassFits(o.layout.Need(), 0);
    SmallerPower(a, CLASS_SIZES[i], k, i + 3);
  }

  lemma LivePageAligned(core: Core, layout: BuddyLinks.Layout, a: nat, k: nat)
    requires Matches(core, layout) && LiveIn(core, layout, a, k)
    ensures a % PAGE_SIZE == 0 && a != 0
  {
    var b := BlockOfLive(core, layout, a, k);
    assert layout[b.zone].Valid();
  }

  // ---------------------------------------------------------------- what the invariant promises

  /** The bytes of distinct live objects do not overlap. */
  lemma ObjectsDisjoint(h: Heap, core: Core, layout: BuddyLinks.Layout, a: nat, b: nat)
    requires HeapOk(h, core, layout) && a in h.live && b in h.live && a != b
    ensures a + h.live[a].layout.size <= b || b + h.live[b].layout.size <= a
  {
    hide LiveIn, Matches, HeapOk;
    var x, y := h.live[a], h.live[b];
    Extent(h, core, layout, a);
    Extent(h, core, layout, b);
    if x.Small? && y.Small? && x.page == y.page {
      SamePageApart(h.slabs, a, x, b, y);
    } else {
      HeapMatches(h, core, layout);
      DistinctHomes(h, core, layout, a, b);
      LiveDisjoint(core, layout, Home(x), HomeOrder(x), Home(y), HomeOrder(y));
    }
  }

  lemma HeapMatches(h: Heap, core: Core, layout: BuddyLinks.Layout)
    requires HeapOk(h, core, layout)
    ensures Matches(core, layout)
  {
  }

  lemma DistinctHomes(h: Heap, core: Core, layout: BuddyLinks.Layout, a: nat, b: nat)
    requires HeapOk(h, core, layout) && a in h.live && b in h.live && a != b
    requires !(h.live[a].Small? && h.live[b].Small? && h.live[a].page == h.live[b].page)
    ensures Home(h.live[a]) != Home(h.live[b])
  {
    hide LiveIn, Matches;
    Extent(h, core, layout, a);
    Extent(h, core, layout, b);
  }

  lemma SamePageApart(slabs: map<nat, Slab>, a: nat, x: Object, b: nat, y: Object)
    requires x.Small? && y.Small? && x.page == y.page && a != b && SmallAt(slabs, a, x) && SmallAt(slabs, b, y)
    ensures a + x.layout.size <= b || b + y.layout.size <= a
  {
    var i := slabs[x.page].cls;
    SmallFits(slabs, a, x);
    SmallFits(slabs, b, y);
    if x.index < y.index {
      SlotsApart(x.page, i, x.index, y.index);
    } else if y.index < x.index {
      SlotsApart(x.page, i, y.index, x.index);
    }
  }

  /** The block an object lives in. */
  function Home(o: Object): nat { if o.Small? then o.page else o.base }
  function HomeOrder(o: Object): nat { if o.Small? then 0 else o.order }

  lemma Extent(h: Heap, core: Core, layout: BuddyLinks.Layout, a: nat)
    requires HeapOk(h, core, layout) && a in h.live
    ensures var o := h.live[a];
            && LiveIn(core, layout, Home(o), HomeOrder(o))
            && Home(o) <= a && a + o.layout.size <= Home(o) + Bytes(HomeOrder(o))
            && (o.Small? ==> SmallAt(h.slabs, a, o) && Home(o) in h.slabs && Home(o) + HEADER_SIZE <= a)
            && (o.Large? ==> Home(o) !in h.slabs)
  {
    var o := h.live[a];
    if o.Small? {
      assert SmallAt(h.slabs, a, o);
      SmallFits(h.slabs, a, o);
    } else {
      assert LargeAt(h.words, a, o);
      LargeFits(h.words, a, o);
    }
  }

  /** The live objects of a slab page, by index. */
  ghost function LiveIndices(h: Heap, p: nat): set<nat>
    requires p in h.slabs && h.slabs[p].cls < CLASSES
  {
    set j | j in Upto(Cap(h.slabs[p].cls)) && LiveSlot(h.slabs, h.live, p, j)
  }

  /** The header's count is the length of the free list and the capacity less the live objects. */
  lemma FreeCountExact(h: Heap, core: Core, layout: BuddyLinks.Layout, p: nat)
    requires HeapOk(h, core, layout) && p in h.slabs
    ensures p in h.headers && h.slabs[p].cls < CLASSES
    ensures h.headers[p].freeCount == |h.slabs[p].free| == Cap(h.slabs[p].cls) - |LiveIndices(h, p)|
    ensures 0 < |LiveIndices(h, p)|
    ensures p in h.plists[h.slabs[p].cls] <==> 0 < h.headers[p].freeCount < Cap(h.slabs[p].cls)
  {
    hide LiveIn, Matches, LargeOk, Backed, LargeAt;
    var s := h.slabs[p];
    assert PageOk(h.headers, h.words, p, s);
    assert Partial(h.slabs, s.cls, p) <==> s.free != [];
    var all, live, free := Upto(Cap(s.cls)), LiveIndices(h, p), Elems(s.free);
    ElemsSize(s.free);
    forall j | j in free ensures j in all && j !in live {
      var k :| 0 <= k < |s.free| && s.free[k] == j;
      assert SlotAt(p, s, k) in h.words;
      FreeSlotNotLive(h, core, layout, p, j);
    }
    forall j | j in all && j !in free ensures j in live {
      assert LiveSlot(h.slabs, h.live, p, j);
    }
    assert all == live + free;
    assert |live + free| == |live| + |free|;
  }

  /** No other live object shares the page of `a`. */
  ghost predicate LastOfPage(live: map<nat, Object>, a: nat)
    requires a in live && live[a].Small?
  {
    forall b :: b in live && b != a && live[b].Small? ==> live[b].page != live[a].page
  }

  /** An object is the last of its page exactly when freeing it would make the page's count reach the capacity. */
  lemma LastIff(h: Heap, core: Core, layout: BuddyLinks.Layout, a: nat)
    requires HeapOk(h, core, layout) && a in h.live && h.live[a].Small?
    ensures h.live[a].page in h.slabs && h.slabs[h.live[a].page].cls < CLASSES
    ensures LastOfPage(h.live, a) <==> |h.slabs[h.live[a].page].free| + 1 == Cap(h.slabs[h.live[a].page].cls)
  {
    hide LiveIn, Matches;
    PageOfObject(h, core, layout, a);
    var p := h.live[a].page;
    var s := h.slabs[p];
    if |s.free| + 1 == Cap(s.cls) {
      forall b | b in h.live && b != a && h.live[b].Small? ensures h.live[b].page != p {
        LastObject(h, core, layout, a, b);
      }
    } else {
      var all := [h.live[a].index] + s.free;
      NoDupPush(s.free, h.live[a].index);
      ElemsSize(all);
      var j := MissingIndex(all, Cap(s.cls));
      assert LiveSlot(h.slabs, h.live, p, j);
      SlotDiffers(p, s.cls, j, h.live[a].index);
    }
  }

  lemma SlotDiffers(p: nat, i: nat, j: nat, k: nat)
    requires i < CLASSES && j != k
    ensures Slot(p, i, j) != Slot(p, i, k)
  {
    if Slot(p, i, j) == Slot(p, i, k) { SlotInjective(p, i, j, k); }
  }

  /** A list shorter than n misses a number below n. */
  lemma MissingIndex(s: seq<nat>, n: nat) returns (j: nat)
    requires |Elems(s)| == |s| < n
    ensures j < n && j !in s
  {
    assert Upto(n) <= Elems(s) ==> Elems(s) == Upto(n) + (Elems(s) - Upto(n));
    j :| j in Upto(n) && j !in Elems(s);
  }

  // ---------------------------------------------------------------- the allocator

  /** The pages that calls in progress own alone. */
  ghost predicate LimboOk(limbo: set<nat>, h: Heap, core: Core, layout: BuddyLinks.Layout) {
    forall p :: p in limbo ==> Private(h, core, layout, p, 0)
  }

  lemma EmptyHeap(heads: seq<nat>, plists: seq<seq<nat>>, core: Core, layout: BuddyLinks.Layout)
    requires Matches(core, layout) && |heads| == CLASSES && |plists| == CLASSES
    requires forall i :: 0 <= i < CLASSES ==> heads[i] == 0 && plists[i] == []
    ensures HeapOk(Heap(map[], map[], heads, plists, map[], map[]), core, layout)
  {
    hide Matches;
  }

  class SlabAllocator {
    const pages: PageAllocator
    const plist: array<nat>
    var headers: SlabLists.Headers
    var words: Words
    var usedBytes: nat

    ghost var plists: seq<seq<nat>>
    ghost var slabs: map<nat, Slab>
    ghost var live: map<nat, Object>
    /** Pages taken from the page allocator and not yet opened, or emptied and not yet given back. */
    ghost var limbo: set<nat>

    ghost function View(): Heap
      reads this, plist
    {
      Heap(headers, words, plist[..], plists, slabs, live)
    }

    ghost function State(): Slabs
      reads this
    {
      Slabs(plists, slabs, live, Backing(words, live))
    }

    /** What holds whenever no lock is held, with any number of calls in progress. */
    ghost predicate Sound()
      reads this, plist, pages, pages.freeArea
    {
      && plist != pages.freeArea && plist.Length == CLASSES
      && pages.Valid()
      && HeapOk(View(), pages.core, pages.layout)
      && LimboOk(limbo, View(), pages.core, pages.layout)
    }

    /** Between calls the bytes in use are accounted for as well. */
    ghost predicate Valid()
      reads this, plist, pages, pages.freeArea
    {
      Sound() && usedBytes == Total(live)
    }

    constructor (pageAlloc: PageAllocator)
      requires pageAlloc.Valid()
      ensures Valid() && pages == pageAlloc && fresh(plist)
      ensures live == map[] && slabs == map[] && usedBytes == 0 && limbo == {}
    {
      pages := pageAlloc;
      plist := new nat[CLASSES](_ => 0);
      headers, words, usedBytes := map[], map[], 0;
      plists, slabs, live, limbo := seq(CLASSES, _ => []), map[], map[], {};
      new;
      hide PageAllocator.Valid, HeapOk;
      ServingMatches(pages);
      EmptyHeap(plist[..], plists, pages.core, pages.layout);
    }

    // -------------------------------------------------------------- the steps of a small request

    /** Takes an exhausted page off the front of its list. */
    method RetirePage(header: nat, i: nat)
      requires i < plist.Length && header in headers && (headers[header].next == 0 || headers[header].next in headers)
      modifies this`headers, plist
      ensures headers == Retired(old(headers), header) && plist[..] == old(plist[..])[i := old(headers)[header].next]
    {
      var next := headers[header].next;
      plist[i] := next;
      if next != 0 {
        headers := headers[next := headers[next].(prev := 0)];
      }
      headers := headers[header := headers[header].(next := 0, prev := 0)];
    }

    /** Under the lock: takes the first free object of the first partly used page of class i. */
    method TakeObject(i: nat, ghost l: SlabHeap.Layout) returns (obj: nat)
      requires Sound() && i < CLASSES && plist[i] != 0 && ClassFrom(l.Need(), 0) == Some(i)
      modifies this`headers, this`slabs, this`plists, this`live, plist
      ensures Sound()
      ensures obj !in old(live) && obj in live && live == old(live)[obj := live[obj]] && live[obj].layout == l
                && obj != 0
      ensures CanTake(old(State()), i) && State() == Taken(old(State()), i, l) && obj == TakenAddr(old(State()), i)
    {
      hide HeapOk, PageOk, Cap, ClassFrom, Slot, StartOff, LimboOk, PageAllocator.Valid, Backing, Retired;
      ghost var h := View();
      HeadNotNull(h, pages.core, pages.layout, i);
      FirstPartial(h, pages.core, pages.layout, i);
      ghost var p := plists[i][0];
      ghost var s := slabs[p];
      FreeHeadFacts(h, pages.core, pages.layout, p);
      var header := plist[i];
      obj := headers[header].freeList;
      headers := headers[header := headers[header].(freeList := words[obj],
          freeCount := headers[header].freeCount - 1)];
      if headers[header].freeCount == 0 {
        TakeLast(h, pages.core, pages.layout, i, l);
        assert headers == h.headers[p := TakenHeader(h, p)];
        RetirePage(header, i);
        plists := plists[i := plists[i][1..]];
      } else {
        TakeKeepsPartial(h, pages.core, pages.layout, i, l);
        assert plist[..] == h.heads;
      }
      slabs := slabs[p := Slab(i, s.free[1..])];
      live := live[obj := Small(l, p, s.free[0])];
      TakenBacking(h, View(), pages.core, pages.core, pages.layout, obj);
      LimboStep(limbo, h, View(), pages.core, pages.layout);
    }

    /** Without the lock: asks the page allocator for a page, which is this call's alone until it is opened. */
    method FetchPage() returns (page: nat)
      requires Sound()
      modifies this`limbo, pages`nodes, pages`metaMem, pages`allocatedPages, pages`core, pages.freeArea
      ensures Sound()
      ensures if page == 0 then limbo == old(limbo) && pages.core == old(pages.core)
                else page !in old(limbo) && limbo == old(limbo) + {page}
      ensures page == 0 <==> Alloc(old(pages.core), 0).1.None?
      ensures Serves(old(pages.core), pages.layout, TrueRecords(pages.layout), AllocCall(0), pages.core, page)
    {
      hide HeapOk, Granted, PageAllocator.Valid, Alloc, Serves, Private;
      ghost var was := pages.core;
      page := AllocBlock(pages, 0);
      if page == 0 {
        NothingGranted(was, pages.core, pages.layout);
      } else {
        HeapGranted(View(), was, pages.core, pages.layout, 0, page);
        limbo := limbo + {page};
      }
    }

    /** Chains all objects of a new page of class i; the last one ends the chain. */
    method ThreadPage(page: nat, i: nat)
      requires i < CLASSES
      modifies this`words
      ensures Threaded(words, page, i) && SameWordsOutside(old(words), words, page, page + PAGE_SIZE)
    {
      hide Slot, StartOff, Cap, SameWordsOutside, ThreadedUpTo, Threaded;
      CapAtLeastTwo(i);
      NothingThreaded(words, page, i);
      var cap := Cap(i);
      var prev := Slot(page, i, 0);
      for j := 1 to cap
        invariant prev == Slot(page, i, j - 1)
        invariant SameWordsOutside(old(words), words, page, page + PAGE_SIZE)
        invariant ThreadedUpTo(words, page, i, j - 1)
      {
        var next := Slot(page, i, j);
        ThreadStep(old(words), words, page, i, j - 1);
        words := words[prev := next];
        prev := next;
      }
      ThreadEnd(old(words), words, page, i);
      words := words[prev := 0];
    }

    /**
     * Turns a page of its own into a slab of class i, hands out its first object and, under the
     * lock, joins the list.
     */
    method OpenPage(page: nat, i: nat, ghost l: SlabHeap.Layout) returns (obj: nat)
      requires Sound() && page in limbo && i < CLASSES && ClassFrom(l.Need(), 0) == Some(i)
      modifies this`headers, this`words, this`slabs, this`plists, this`live, this`limbo, plist
      ensures Sound() && limbo == old(limbo) - {page}
      ensures obj !in old(live) && obj in live && live == old(live)[obj := live[obj]] && live[obj].layout == l
                && obj != 0
      ensures |old(plists)| == CLASSES && Cap(i) >= 1 && State() == Opened(old(State()), i, l, page)
                && obj == Slot(page, i, 0)
    {
      hide HeapOk, ClassFrom, StartOff, Cap, Threaded, SameWordsOutside, Slot, Private, PageAllocator.Valid, Backing;
      ghost var h := View();
      assert Private(h, pages.core, pages.layout, page, 0);
      FirstSlotFree(h, pages.core, pages.layout, page, i);
      ThreadPage(page, i);
      AddPage(h, pages.core, pages.layout, page, i, l, words);
      obj := Slot(page, i, 0);
      FirstWord(words, page, i);
      headers := headers[page := SlabLists.Header(0, 0, words[obj], Cap(i) - 1, i)];
      assert headers == h.headers[page := NewHeader(page, i)];
      LinkPage(page, i, h);
      slabs := slabs[page := Slab(i, AllButFirst(Cap(i)))];
      live := live[obj := Small(l, page, 0)];
      limbo := limbo - {page};
      assert View() == NewHeap(h, page, i, l, headers, words);
      TakenBacking(h, View(), pages.core, pages.core, pages.layout, obj);
      LimboOpened(old(limbo), h, View(), pages.core, pages.layout, page);
    }

    /** Puts a page at the front of the list of class i. */
    method LinkPage(page: nat, i: nat, ghost h: Heap)
      requires plist.Length == CLASSES && i < CLASSES && page in headers && plist[..] == h.heads && plists == h.plists
                 && |h.plists| == CLASSES
      requires (h.heads[i] == 0 || h.heads[i] in headers) && h.heads[i] != page
      modifies this`headers, this`plists, plist
      ensures headers == SlabLists.PushHeader(old(headers), h.heads[i], page)
      ensures plist[..] == h.heads[i := page] && plists == h.plists[i := [page] + h.plists[i]]
    {
      var head := plist[i];
      headers := headers[page := headers[page].(next := head, prev := 0)];
      if head != 0 {
        headers := headers[head := headers[head].(prev := page)];
      }
      plist[i] := page;
      plists := plists[i := [page] + plists[i]];
    }

    /** Serves a small request. */
    method AllocSmall(i: nat, l: SlabHeap.Layout) returns (r: AllocOutcome)
      requires Sound() && i < CLASSES && ClassFrom(l.Need(), 0) == Some(i)
      modifies this, plist, pages`nodes, pages`metaMem, pages`allocatedPages, pages`core, pages.freeArea
      ensures Sound() && usedBytes == old(usedBytes) && limbo == old(limbo)
      ensures r.Allocated? ==>
                r.addr !in old(live) && r.addr in live && live == old(live)[r.addr := live[r.addr]]
                && live[r.addr].layout == l && r.addr != 0
      ensures r.Allocated? || (r == OutOfMemory && pages.core == old(pages.core) && View() == old(View()))
      ensures r == OutOfMemory <==> old(plist[i]) == 0 && Alloc(old(pages.core), 0).1.None?
      ensures l.align > 0 ==>
                SlabServes(old(State()), old(pages.core), pages.layout, TrueRecords(pages.layout), Request(l), State(),
                pages.core, r)
    {
      hide HeapOk, PageAllocator.Valid, Alloc, ClassFrom, Total, Taken, Opened, Slot, Cap, Serves, LimboOk, Backing;
      CanTakeIff(View(), pages.core, pages.layout, i, State().backing);
      if plist[i] != 0 {
        var obj := TakeObject(i, l);
        return Allocated(obj);
      }
      ghost var was, before := pages.core, State();
      var page := FetchPage();
      if page == 0 {
        assert ServesOpen(before, was, pages.layout, TrueRecords(pages.layout), i, l, 0, State(), pages.core,
            OutOfMemory);
        return OutOfMemory;
      }
      var obj := OpenPage(page, i, l);
      assert ServesOpen(before, was, pages.layout, TrueRecords(pages.layout), i, l, page, State(), pages.core,
          Allocated(obj));
      return Allocated(obj);
    }

    // -------------------------------------------------------------- large requests

    /** Serves a large request from a block of its own. */
    method AllocLarge(l: SlabHeap.Layout) returns (r: AllocOutcome)
      requires Sound() && ClassFrom(l.Need(), 0) == None && l.align > 0
      modifies this`words, this`live, pages`nodes, pages`metaMem, pages`allocatedPages, pages`core, pages.freeArea
      ensures Sound()
      ensures r.Allocated? ==>
                r.addr !in old(live) && r.addr in live && live == old(live)[r.addr := live[r.addr]]
                && live[r.addr].layout == l && r.addr != 0
      ensures r.Allocated? || (r == Null && pages.core == old(pages.core) && View() == old(View()))
      ensures r == Null <==> Alloc(old(pages.core), LargeOrder(l)).1.None?
      ensures SlabServes(old(State()), old(pages.core), pages.layout, TrueRecords(pages.layout), Request(l), State(),
                pages.core, r)
    {
      hide HeapOk, PageAllocator.Valid, Alloc, ClassFrom, Total, CeilLog2, AlignUp, Bytes, Serves, LimboOk, Backing;
      if l.align <= PAGE_SIZE {
        r := LendPlain(l);
      } else {
        r := LendAligned(l);
      }
    }

    /** A block as it comes: it is aligned to a page. */
    method LendPlain(l: SlabHeap.Layout) returns (r: AllocOutcome)
      requires Sound() && ClassFrom(l.Need(), 0) == None && 0 < l.align <= PAGE_SIZE
      modifies this`live, pages`nodes, pages`metaMem, pages`allocatedPages, pages`core, pages.freeArea
      ensures Sound()
      ensures r.Allocated? ==>
                r.addr !in old(live) && r.addr in live && live == old(live)[r.addr := live[r.addr]]
                && live[r.addr].layout == l && r.addr != 0
      ensures r.Allocated? || (r == Null && pages.core == old(pages.core) && View() == old(View()))
      ensures r == Null <==> Alloc(old(pages.core), LargeOrder(l)).1.None?
      ensures exists base ::
                ServesLarge(old(State()), old(pages.core), pages.layout, TrueRecords(pages.layout), l, base, State(),
                pages.core, r)
    {
      hide HeapOk, Granted, PageAllocator.Valid, Alloc, ClassFrom, Total, CeilLog2, AlignUp, Bytes, Serves, Private;
      hide Backing;
      ghost var h, was, before := View(), pages.core, State();
      var reqPages := (l.Need() + PAGE_SIZE - 1) / PAGE_SIZE;
      var order := CeilLog2(reqPages);
      var ptr := AllocBlock(pages, order);
      if ptr == 0 {
        NothingGranted(was, pages.core, pages.layout);
        assert ServesLarge(before, was, pages.layout, TrueRecords(pages.layout), l, 0, State(), pages.core, Null);
        return Null;
      }
      HeapGranted(h, was, pages.core, pages.layout, order, ptr);
      SameWords(words, ptr, order);
      AddLarge(h, pages.core, pages.layout, l, ptr, ptr, words);
      live := live[ptr := Large(l, ptr, order)];
      LentBacking(h, View(), was, pages.core, pages.layout, ptr);
      LimboLent(limbo, h, View(), was, pages.core, pages.layout, ptr);
      assert ServesLarge(before, was, pages.layout, TrueRecords(pages.layout), l, ptr, State(), pages.core,
          Allocated(ptr));
      return Allocated(ptr);
    }

    /** A larger block with the object aligned inside it, behind the block's own address. */
    method LendAligned(l: SlabHeap.Layout) returns (r: AllocOutcome)
      requires Sound() && ClassFrom(l.Need(), 0) == None && l.align > PAGE_SIZE
      modifies this`words, this`live, pages`nodes, pages`metaMem, pages`allocatedPages, pages`core, pages.freeArea
      ensures Sound()
      ensures r.Allocated? ==>
                r.addr !in old(live) && r.addr in live && live == old(live)[r.addr := live[r.addr]]
                && live[r.addr].layout == l && r.addr != 0
      ensures r.Allocated? ==> OverAligned(live[r.addr])
      ensures r.Allocated? || (r == Null && pages.core == old(pages.core) && View() == old(View()))
      ensures r == Null <==> Alloc(old(pages.core), LargeOrder(l)).1.None?
      ensures exists base ::
                ServesLarge(old(State()), old(pages.core), pages.layout, TrueRecords(pages.layout), l, base, State(),
                pages.core, r)
    {
      hide HeapOk, Granted, PageAllocator.Valid, Alloc, ClassFrom, Total, CeilLog2, AlignUp, Bytes, Serves, Private;
      hide Backing;
      ghost var h, was, before := View(), pages.core, State();
      var totalBytes := l.Need() + l.align + WORD;
      var reqPages := (totalBytes + PAGE_SIZE - 1) / PAGE_SIZE;
      var order := CeilLog2(reqPages);
      var ptr := AllocBlock(pages, order);
      if ptr == 0 {
        NothingGranted(was, pages.core, pages.layout);
        assert ServesLarge(before, was, pages.layout, TrueRecords(pages.layout), l, 0, State(), pages.core, Null);
        return Null;
      }
      HeapGranted(h, was, pages.core, pages.layout, order, ptr);
      var aligned := AlignUp(ptr + WORD, l.align);
      BackingInside(h.words, l, ptr);
      words := words[aligned - WORD := ptr];
      AddLarge(h, pages.core, pages.layout, l, ptr, aligned, words);
      live := live[aligned := Large(l, ptr, order)];
      LentBacking(h, View(), was, pages.core, pages.layout, aligned);
      LimboLent(limbo, h, View(), was, pages.core, pages.layout, aligned);
      assert ServesLarge(before, was, pages.layout, TrueRecords(pages.layout), l, ptr, State(), pages.core,
          Allocated(aligned));
      return Allocated(aligned);
    }

    /**
     * Allocates an object. It is new, not null, aligned as asked, and nothing
     * else about the live objects changes; without memory nothing changes.
     */
    method AllocImpl(l: SlabHeap.Layout) returns (r: AllocOutcome)
      requires Valid() && ValidLayout(l)
      modifies this, plist, pages`nodes, pages`metaMem, pages`allocatedPages, pages`core, pages.freeArea
      ensures Valid() && limbo == old(limbo)
      ensures r.Allocated? ==>
        && r.addr != 0 && r.addr % l.align == 0 && r.addr !in old(live) && r.addr in live
        && live == old(live)[r.addr := live[r.addr]] && live[r.addr].layout == l
        && usedBytes == old(usedBytes) + l.size
      ensures !r.Allocated? ==> View() == old(View()) && pages.core == old(pages.core) && usedBytes == old(usedBytes)
      ensures r == Null <==>
        (l.size > 2048 || l.align > 2048) && !exists b, k :: k < 11 && BlockHolds(l, k) && HasRun(old(pages.core), b, k)
      ensures r == OutOfMemory <==>
        && l.size <= 2048 && l.align <= 2048 && !(exists b :: HasRun(old(pages.core), b, 0))
        && NoneFree(old(slabs), l)
      ensures SlabServes(old(State()), old(pages.core), pages.layout, TrueRecords(pages.layout), Request(l), State(),
                pages.core, r)
    {
      hide HeapOk, PageAllocator.Valid, Alloc, ClassFrom, LargeOrder, ValidLayout, Total, SlabServes, LimboOk, Backing;
      PositiveAlign(l);
      var size := l.Need();
      var cls := SizeClassIndex(size);
      NoRunIff(View(), pages.core, pages.layout, l);
      NonePartialIff(View(), pages.core, pages.layout, l);
      ghost var before := live;
      if cls.Some? {
        r := AllocSmall(cls.value, l);
      } else {
        r := AllocLarge(l);
      }
      if r.Allocated? {
        ObjectAligned(View(), pages.core, pages.layout, r.addr);
        TotalWith(before, r.addr, live[r.addr]);
        usedBytes := usedBytes + l.size;
      }
    }

    // -------------------------------------------------------------- the steps of a free

    /** Under the lock: puts a small object back on the free list of its page, and takes an emptied page out. */
    method PutObject(ptr: nat) returns (emptied: bool)
      requires Sound() && ptr in live && live[ptr].Small?
      modifies this`headers, this`words, this`slabs, this`plists, this`live, this`limbo, plist
      ensures Sound()
      ensures IsSmall(old(State()), ptr) && State() == Put(old(State()), ptr)
      ensures emptied <==> Empties(old(State()), ptr)
      ensures emptied <==> LastOfPage(old(live), ptr)
      ensures var p := old(live[ptr]).page;
              if emptied then p !in old(limbo) && limbo == old(limbo) + {p} else limbo == old(limbo)
    {
      hide HeapOk, PageAllocator.Valid, Cap, Slot, ClassFrom, Total, StartOff, LastOfPage, LimboOk, Backing;
      ghost var h, core := View(), pages.core;
      LastIff(h, core, pages.layout, ptr);
      PageOfObject(h, core, pages.layout, ptr);
      PageNotInLimbo(limbo, h, core, pages.layout, live[ptr].page);
      ghost var p, s := live[ptr].page, slabs[live[ptr].page];
      var header := ptr - ptr % PAGE_SIZE;
      var i := headers[header].sizeClass;
      ClassFacts(i);
      words := words[ptr := headers[header].freeList];
      headers := headers[header := headers[header].(freeList := ptr)];
      var wasFull := headers[header].freeCount == 0;
      headers := headers[header := headers[header].(freeCount := headers[header].freeCount + 1)];
      assert headers == h.headers[p := PutHeader(h, p, ptr)];
      var cap := Cap(i);
      emptied := headers[header].freeCount == cap;
      if emptied {
        if !wasFull {
          DetachPage(header, i, ptr, h);
          limbo := limbo + {header};
          LimboDetached(old(limbo), h, View(), core, pages.layout, header);
        }
      } else {
        KeepPage(header, i, wasFull, ptr, h);
        LimboStep(limbo, h, View(), core, pages.layout);
      }
      PutBacking(h, View(), core, core, pages.layout, ptr);
    }

    /** The page of `ptr` still has live objects; one that had no free object joins its list again. */
    method KeepPage(header: nat, i: nat, wasFull: bool, ghost ptr: nat, ghost h: Heap)
      requires plist.Length == CLASSES && HeapOk(h, pages.core, pages.layout)
      requires ptr in h.live && h.live[ptr].Small? && header == h.live[ptr].page && header in h.slabs
                 && h.slabs[header].cls == i < CLASSES
      requires wasFull == (h.slabs[header].free == []) && |h.slabs[header].free| + 1 < Cap(i) && header in h.headers
      requires headers == h.headers[header := PutHeader(h, header, ptr)]
                 && words == h.words[ptr := h.headers[header].freeList]
      requires plist[..] == h.heads && plists == h.plists && slabs == h.slabs && live == h.live
      modifies this`headers, this`slabs, this`plists, this`live, plist
      ensures HeapOk(View(), pages.core, pages.layout)
      ensures |h.plists| == CLASSES && plists == (if wasFull then h.plists[i := [header] + h.plists[i]] else h.plists)
      ensures slabs == h.slabs[header := Slab(i, [h.live[ptr].index] + h.slabs[header].free)] && live == h.live - {ptr}
    {
      hide HeapOk, PageAllocator.Valid, Cap, Slot, ClassFrom, Total, StartOff;
      ghost var core := pages.core;
      PageOfObject(h, core, pages.layout, ptr);
      if wasFull {
        PutReopens(h, core, pages.layout, ptr);
        var head := plist[i];
        headers := headers[header := headers[header].(next := head)];
        if head != 0 {
          headers := headers[head := headers[head].(prev := header)];
        }
        plist[i] := header;
        assert plist[..] == h.heads[i := header];
        assert headers == SlabLists.PushHeader(h.headers[header := PutHeader(h, header, ptr)], h.heads[i], header);
        plists := plists[i := [header] + plists[i]];
      } else {
        PutKeepsPartial(h, core, pages.layout, ptr);
        assert plist[..] == h.heads;
      }
      slabs := slabs[header := PutSlab(h, ptr)];
      live := live - {ptr};
    }

    /**
     * The page of `ptr` has no live object left: it leaves its list, and is this call's alone
     * until it is given back.
     */
    method DetachPage(header: nat, i: nat, ghost ptr: nat, ghost h: Heap)
      requires plist.Length == CLASSES && HeapOk(h, pages.core, pages.layout)
      requires ptr in h.live && h.live[ptr].Small? && header == h.live[ptr].page && header in h.slabs
                 && h.slabs[header].cls == i < CLASSES
      requires h.slabs[header].free != [] && |h.slabs[header].free| + 1 == Cap(i) && header in h.headers
      requires headers == h.headers[header := PutHeader(h, header, ptr)]
                 && words == h.words[ptr := h.headers[header].freeList]
      requires plist[..] == h.heads && plists == h.plists && slabs == h.slabs && live == h.live
      modifies this`headers, this`slabs, this`plists, this`live, plist
      ensures HeapOk(View(), pages.core, pages.layout) && Private(View(), pages.core, pages.layout, header, 0)
      ensures |h.plists| == CLASSES && plists == h.plists[i := Without(h.plists[i], header)]
      ensures slabs == h.slabs - {header} && live == h.live - {ptr}
    {
      hide HeapOk, PageAllocator.Valid, Cap, Slot, ClassFrom, Total, StartOff, Private;
      ghost var core := pages.core;
      PageOfObject(h, core, pages.layout, ptr);
      ghost var k := PlaceOnList(h, core, pages.layout, header);
      var next := headers[header].next;
      var prev := headers[header].prev;
      if prev != 0 {
        headers := headers[prev := headers[prev].(next := next)];
      } else {
        plist[i] := next;
      }
      if next != 0 {
        headers := headers[next := headers[next].(prev := prev)];
      }
      assert headers == EmptiedHeaders(h, header, ptr);
      assert plist[..] == h.heads[i := SlabLists.UnlinkHead(h.headers, header, h.heads[i])];
      PutEmpties(h, core, pages.layout, ptr, k);
      WithoutPage(h, core, pages.layout, i, k);
      plists := plists[i := BuddyLinks.RemoveAt(plists[i], k)];
      slabs := slabs - {header};
      live := live - {ptr};
      assert View() == EmptiedHeap(h, ptr, headers, k);
    }

    /** Without the lock: gives a page of its own back to the page allocator. */
    method ReturnPage(page: nat)
      requires Sound() && page in limbo
      modifies this`limbo, pages`nodes, pages`metaMem, pages`allocatedPages, pages`core, pages.freeArea
      ensures Sound() && limbo == old(limbo) - {page}
      ensures Returned(old(pages.core), pages.core, pages.layout, page)
      ensures Serves(old(pages.core), pages.layout, TrueRecords(pages.layout), FreeCall(page), pages.core, 0)
    {
      hide HeapOk, PageAllocator.Valid, Returned, Serves, LiveIn;
      ghost var core := pages.core;
      assert Private(View(), core, pages.layout, page, 0);
      FreeBlockAt(pages, page, 0);
      HeapReturned(View(), core, pages.core, pages.layout, 0, page);
      limbo := limbo - {page};
    }

    /** Frees a small object; its page goes back when it was the last. */
    method FreeSmall(ptr: nat)
      requires Sound() && ptr in live && live[ptr].Small?
      modifies this`headers, this`words, this`slabs, this`plists, this`live, this`limbo, plist, pages`nodes,
               pages`metaMem, pages`allocatedPages, pages`core, pages.freeArea
      ensures Sound() && limbo == old(limbo) && live == old(live) - {ptr}
      ensures var p := old(live[ptr]).page;
              if LastOfPage(old(live), ptr) then p !in slabs && Returned(old(pages.core), pages.core, pages.layout, p)
              else p in slabs && pages.core == old(pages.core)
      ensures SlabServes(old(State()), old(pages.core), pages.layout, TrueRecords(pages.layout), Release(ptr), State(),
                pages.core, Null)
    {
      hide HeapOk, PageAllocator.Valid, Cap, LastOfPage, Returned, Serves, LimboOk, Backing;
      PageOfObject(View(), pages.core, pages.layout, ptr);
      var emptied := PutObject(ptr);
      if emptied {
        ReturnPage(ptr - ptr % PAGE_SIZE);
      }
    }

    /** Frees an object: exactly it stops being live, and a page or block without live objects goes back. */
    method FreeImpl(ptr: nat, l: SlabHeap.Layout)
      requires Valid() && (ptr != 0 ==> ptr in live && live[ptr].layout == l)
      modifies this, plist, pages`nodes, pages`metaMem, pages`allocatedPages, pages`core, pages.freeArea
      ensures Valid() && limbo == old(limbo)
      ensures live == old(live) - {ptr}
      ensures ptr != 0 ==> usedBytes + l.size == old(usedBytes)
      ensures ptr != 0 && old(live[ptr]).Small? ==>
        var p := old(live[ptr]).page;
        if LastOfPage(old(live), ptr) then p !in slabs && Returned(old(pages.core), pages.core, pages.layout, p)
        else p in slabs && pages.core == old(pages.core)
      ensures ptr != 0 && old(live[ptr]).Large? ==>
                Returned(old(pages.core), pages.core, pages.layout, old(live[ptr]).base)
      ensures if ptr == 0 then State() == old(State()) && pages.core == old(pages.core)
              else SlabServes(old(State()), old(pages.core), pages.layout, TrueRecords(pages.layout), Release(ptr),
                  State(), pages.core, Null)
    {
      hide HeapOk, PageAllocator.Valid, Total, LastOfPage, Returned, SlabServes, LimboOk, Backing;
      if ptr == 0 {
        NullNotLive(View(), pages.core, pages.layout);
        return;
      }
      var cls := SizeClassIndex(l.Need());
      KindOfObject(View(), pages.core, pages.layout, ptr);
      TotalWithout(live, ptr);
      if cls.None? {
        FreeLarge(ptr, l);
      } else {
        FreeSmall(ptr);
      }
      usedBytes := usedBytes - l.size;
    }

    method FreeLarge(ptr: nat, l: SlabHeap.Layout)
      requires Sound() && ptr in live && live[ptr].Large? && live[ptr].layout == l
      modifies this`live, pages`nodes, pages`metaMem, pages`allocatedPages, pages`core, pages.freeArea
      ensures Sound()
      ensures live == old(live) - {ptr} && Returned(old(pages.core), pages.core, pages.layout, old(live[ptr]).base)
      ensures SlabServes(old(State()), old(pages.core), pages.layout, TrueRecords(pages.layout), Release(ptr), State(),
                pages.core, Null)
    {
      hide HeapOk, PageAllocator.Valid, Total, Returned, LiveIn, Serves, Private, Backing;
      ghost var h, core, before := View(), pages.core, State();
      LargeFacts(h, core, pages.layout, ptr);
      BackingIs(h, core, pages.layout);
      BasesAt(live, ptr);
      ghost var base, order := live[ptr].base, live[ptr].order;
      DropLarge(h, core, pages.layout, ptr);
      DropSmallNot(before, ptr);
      if l.align <= PAGE_SIZE {
        FreeBlockAt(pages, ptr, order);
      } else {
        var word := words[ptr - WORD];
        FreeBlockAt(pages, word, order);
      }
      live := live - {ptr};
      HeapReturned(View(), core, pages.core, pages.layout, order, base);
      DroppedBacking(h, View(), core, pages.core, pages.layout, ptr);
      LimboDropped(limbo, h, View(), core, pages.core, pages.layout, ptr);
    }

    // -------------------------------------------------------------- the direct map

    /**
     * Moves to the direct map: the same memory at new addresses, with every
     * pointer on the partial lists and free lists rewritten. The backing word of
     * an over-aligned object is not, nor is the address of a page that a call in
     * progress holds, so the allocator stays sound just when there is neither and
     * its page allocator stays valid.
     */
    method TransitionDmap()
      requires Sound() && !pages.isDmap && Physical(pages.layout)
      modifies this, plist, pages, pages.freeArea
      ensures pages.isDmap && pages.core == old(pages.core) && pages.layout == DmapLayout(old(pages.layout))
      ensures Recorded(pages.zones, pages.layout, DmapRecords(old(pages.layout)))
      ensures State() == UpAll(old(State())) && UpHeads(old(plist[..]), plist[..])
      ensures live == UpLive(old(live)) && usedBytes == old(usedBytes) && limbo == old(limbo)
                && Total(live) == Total(old(live))
      ensures Sound() <==> NoOverAligned(old(live)) && NoneAtZero(old(pages.layout)) && old(limbo) == {}
      ensures Valid() <==>
        NoOverAligned(old(live)) && NoneAtZero(old(pages.layout)) && old(limbo) == {}
            && old(usedBytes) == Total(old(live))
    {
      hide HeapOk, PageAllocator.Valid, Total, Physical, DmapLayout, ToDmap, Imaged, UpHeads, NoneAtZero, Recorded;
      hide Backing, NoOverAligned, UpBacking, DmapRecords;
      ghost var h, core, layout := View(), pages.core, pages.layout;
      pages.TransitionDmap();
      SwitchCaches(h, core, layout);
      BackingUp(h, core, layout, headers, words);
      plists, slabs, live := UpLists(plists), Shift(slabs), UpLive(live);
      ImageOkIff(h, core, layout, headers, words, plist[..]);
      TotalUp(h.live);
      LimboLost(limbo, h, View(), core, layout);
    }

    /** Goes through the caches; memory is the same, from here on reached at its direct-map addresses. */
    method SwitchCaches(ghost h: Heap, ghost core: Core, ghost layout: BuddyLinks.Layout)
      requires HeapOk(h, core, layout) && Physical(layout)
      requires plist.Length == CLASSES && headers == h.headers && words == h.words && plist[..] == h.heads
      modifies this`headers, this`words, plist
      ensures Imaged(h, headers, words) && UpHeads(h.heads, plist[..])
    {
      hide HeapOk, Physical, ToDmap, Rewriting, AllPartial, Imaged;
      ListsFacts(h, core, layout);
      headers, words := Shift(headers), Shift(words);
      StartRewriting(h.headers, h.words, h.slabs);
      ghost var done := {};
      NothingSwitched(h.plists);
      for i := 0 to CLASSES
        invariant forall j :: 0 <= j < CLASSES ==> plist[j] == if j < i then ToDmap(h.heads[j]) else h.heads[j]
        invariant Rewriting(h.headers, h.words, h.slabs, headers, words, done) && ListsDone(h.plists, i, done)
      {
        ghost var before := done;
        NotDoneYet(h, core, layout, i, done);
        SwitchCache(i, h, core, layout, done);
        done := done + Elems(h.plists[i]);
        OneMoreList(h.plists, i, before, done);
      }
      ListsAllDone(h, core, layout, done);
      RewritingDone(h, core, layout, headers, words, done);
    }

    /** Rewrites the partial list of class i and the free lists of its pages. */
    method SwitchCache(i: nat, ghost h: Heap, ghost core: Core, ghost layout: BuddyLinks.Layout, ghost done: set<nat>)
      requires plist.Length == CLASSES && i < CLASSES && HeapOk(h, core, layout) && Physical(layout)
      requires |h.heads| == |h.plists| == CLASSES && plist[i] == h.heads[i]
      requires Rewriting(h.headers, h.words, h.slabs, headers, words, done)
                 && forall p :: p in h.plists[i] ==> p !in done
      modifies this`headers, this`words, plist
      ensures Rewriting(h.headers, h.words, h.slabs, headers, words, done + Elems(h.plists[i]))
      ensures plist[..] == old(plist[..])[i := ToDmap(h.heads[i])]
    {
      hide HeapOk, Rewriting, Physical, ToDmap, PageOk, UpHeader;
      ghost var l := h.plists[i];
      var current := plist[i];
      plist[i] := ToDmap(current);
      ghost var k, now := 0, done;
      HeadOfList(h, core, layout, i);
      assert Elems(l[..0]) == {};
      while current != 0
        invariant 0 <= k <= |l| && current == SlabLists.At(l, k) && now == done + Elems(l[..k])
        invariant Rewriting(h.headers, h.words, h.slabs, headers, words, now)
        modifies this`headers, this`words
        decreases |l| - k
      {
        OnList(h, core, layout, i, k, done);
        current := SwitchPage(current, h, core, layout, now);
        now, k := now + {l[k]}, k + 1;
        assert Elems(l[..k]) == Elems(l[..k - 1]) + {l[k - 1]};
      }
      EndOfList(h, core, layout, i, k);
      assert l[..k] == l;
    }

    /** Rewrites one page: its header and the chain of its free objects. */
    method SwitchPage(page: nat, ghost h: Heap, ghost core: Core, ghost layout: BuddyLinks.Layout, ghost done: set<nat>)
        returns (next: nat)
      requires HeapOk(h, core, layout) && Physical(layout) && page in h.slabs && page !in done
      requires Rewriting(h.headers, h.words, h.slabs, headers, words, done)
      modifies this`headers, this`words
      ensures Rewriting(h.headers, h.words, h.slabs, headers, words, done + {page})
      ensures page in h.headers && next == h.headers[page].next
    {
      hide HeapOk, Physical, ToDmap, Up, Cap, Slot, Chained, OnlyPage, UpHeader;
      PageFacts(h, core, layout, page);
      PagePhysical(h, core, layout, page);
      PageIsUp(page);
      ghost var s := h.slabs[page];
      assert HeaderSeen(h.headers, headers, page, false);
      ChainSeen(h, headers, words, done, page);
      hide Rewriting, PageOk;
      ghost var was, before := headers, words;
      var header := ToDmap(page);
      next := headers[header].next;
      headers := headers[header := headers[header].(next := ToDmap(next), prev := ToDmap(headers[header].prev))];
      var obj := headers[header].freeList;
      headers := headers[header := headers[header].(freeList := ToDmap(obj))];
      HeaderRewritten(was, headers, h.headers[page], page);
      words := SwitchChain(obj, words, page, s);
      RewriteNext(h, core, layout, was, before, done, page, words);
    }

    /** Rewrites the chain of free objects of a page. */
    method SwitchChain(first: nat, before: Words, ghost page: nat, ghost s: Slab) returns (after: Words)
      requires s.cls < CLASSES && PhysicalPage(page) && first == SlotAt(page, s, 0) && NoDup(s.free)
      requires PhysicalChain(before, page, s)
      ensures Chained(after, Up(page), s) && OnlyPage(before, after, Up(page))
    {
      hide ToDmap, Up, Cap, Slot;
      after := before;
      var current := first;
      ghost var k := 0;
      ChainStart(before, page, s);
      hide SlotAt, HalfChained, OnlyPage, PhysicalChain;
      while current != 0
        invariant 0 <= k <= |s.free| && current == SlotAt(page, s, k)
        invariant HalfChained(after, page, s, k) && OnlyPage(before, after, Up(page))
        decreases |s.free| - k
      {
        ChainAt(after, page, s, k);
        var obj := ToDmap(current);
        var next := after[obj];
        ChainStep(before, after, page, s, k);
        after := after[obj := ToDmap(next)];
        current, k := next, k + 1;
      }
      ChainEnd(after, page, s, k);
    }
  }

  // ---------------------------------------------------------------- backing words and limbo, step by step

  lemma TakenBacking(h: Heap, h': Heap, core: Core, core': Core, layout: BuddyLinks.Layout, a: nat)
    requires HeapOk(h, core, layout) && HeapOk(h', core', layout) && a !in h.live && a in h'.live
               && h'.live == h.live[a := h'.live[a]] && h'.live[a].Small?
    ensures Backing(h'.words, h'.live) == Backing(h.words, h.live)
  {
    hide HeapOk, Backing, Bases;
    BackingIs(h, core, layout);
    BackingIs(h', core', layout);
    BasesSmall(h.live, a, h'.live[a]);
  }

  lemma PutBacking(h: Heap, h': Heap, core: Core, core': Core, layout: BuddyLinks.Layout, a: nat)
    requires HeapOk(h, core, layout) && HeapOk(h', core', layout) && a in h.live && h.live[a].Small?
               && h'.live == h.live - {a}
    ensures Backing(h'.words, h'.live) == Backing(h.words, h.live)
  {
    hide HeapOk, Backing, Bases;
    BackingIs(h, core, layout);
    BackingIs(h', core', layout);
    BasesDrop(h.live, a);
  }

  lemma LentBacking(h: Heap, h': Heap, core: Core, core': Core, layout: BuddyLinks.Layout, a: nat)
    requires HeapOk(h, core, layout) && HeapOk(h', core', layout) && a !in h.live && a in h'.live
               && h'.live == h.live[a := h'.live[a]] && h'.live[a].Large?
    ensures Backing(h'.words, h'.live) ==
      if OverAligned(h'.live[a]) then Backing(h.words, h.live)[a := h'.live[a].base] else Backing(h.words, h.live)
  {
    hide HeapOk, Backing, Bases;
    BackingIs(h, core, layout);
    BackingIs(h', core', layout);
    BasesLarge(h.live, a, h'.live[a]);
  }

  lemma DroppedBacking(h: Heap, h': Heap, core: Core, core': Core, layout: BuddyLinks.Layout, a: nat)
    requires HeapOk(h, core, layout) && HeapOk(h', core', layout) && h'.live == h.live - {a}
    ensures Backing(h'.words, h'.live) == Backing(h.words, h.live) - {a}
  {
    hide HeapOk, Backing, Bases;
    BackingIs(h, core, layout);
    BackingIs(h', core', layout);
    BasesDrop(h.live, a);
  }

  lemma BasesAt(live: map<nat, Object>, a: nat)
    requires a in live && live[a].Large?
    ensures OverAligned(live[a]) ==> a in Bases(live) && Bases(live)[a] == live[a].base
  {
  }

  lemma DropSmallNot(s: Slabs, a: nat)
    requires a in s.live && s.live[a].Large?
    ensures !IsSmall(s, a)
  {
  }

  /** Steps that add no slab page and no large object leave other calls' pages alone. */
  lemma LimboStep(limbo: set<nat>, h: Heap, h': Heap, core: Core, layout: BuddyLinks.Layout)
    requires LimboOk(limbo, h, core, layout) && h'.slabs.Keys <= h.slabs.Keys
    requires forall a :: a in h'.live && h'.live[a].Large? ==> a in h.live && h.live[a] == h'.live[a]
    ensures LimboOk(limbo, h', core, layout)
  {
    hide LiveIn;
    forall p | p in limbo ensures Private(h', core, layout, p, 0) { assert Private(h, core, layout, p, 0); }
  }

  lemma LimboOpened(limbo: set<nat>, h: Heap, h': Heap, core: Core, layout: BuddyLinks.Layout, page: nat)
    requires LimboOk(limbo, h, core, layout) && h'.slabs.Keys == h.slabs.Keys + {page}
    requires forall a :: a in h'.live && h'.live[a].Large? ==> a in h.live && h.live[a] == h'.live[a]
    ensures LimboOk(limbo - {page}, h', core, layout)
  {
    hide LiveIn;
    forall p | p in limbo && p != page ensures Private(h', core, layout, p, 0) {
      assert Private(h, core, layout, p, 0);
    }
  }

  lemma LimboDetached(limbo: set<nat>, h: Heap, h': Heap, core: Core, layout: BuddyLinks.Layout, page: nat)
    requires LimboOk(limbo, h, core, layout) && h'.slabs.Keys <= h.slabs.Keys && Private(h', core, layout, page, 0)
    requires forall a :: a in h'.live && h'.live[a].Large? ==> a in h.live && h.live[a] == h'.live[a]
    ensures LimboOk(limbo + {page}, h', core, layout)
  {
    hide LiveIn;
    LimboStep(limbo, h, h', core, layout);
  }

  lemma LimboLent(limbo: set<nat>, h: Heap, h': Heap, core: Core, core': Core, layout: BuddyLinks.Layout, a: nat)
    requires LimboOk(limbo, h, core, layout) && a !in h.live && a in h'.live && h'.live == h.live[a := h'.live[a]]
               && h'.live[a].Large? && h'.slabs == h.slabs
    requires forall p, j: nat :: Private(h, core, layout, p, j) ==>
               p != h'.live[a].base && Private(h, core', layout, p, j)
    ensures LimboOk(limbo, h', core', layout)
  {
    hide LiveIn;
    forall p | p in limbo ensures Private(h', core', layout, p, 0) { assert Private(h, core, layout, p, 0); }
  }

  lemma LimboDropped(limbo: set<nat>, h: Heap, h': Heap, core: Core, core': Core, layout: BuddyLinks.Layout, a: nat)
    requires LimboOk(limbo, h, core, layout) && a in h.live && h.live[a].Large? && h' == h.(live := h.live - {a})
    requires forall p, j: nat :: Private(h', core, layout, p, j) && p != h.live[a].base ==>
               Private(h', core', layout, p, j)
    ensures LimboOk(limbo, h', core', layout)
  {
    hide LiveIn;
    forall p | p in limbo ensures Private(h', core', layout, p, 0) {
      assert Private(h, core, layout, p, 0);
      assert Private(h', core, layout, p, 0);
    }
  }

  /** After the switch the page a call has fetched is no block of the page allocator's. */
  lemma LimboLost(limbo: set<nat>, h: Heap, h': Heap, core: Core, layout: BuddyLinks.Layout)
    requires HeapOk(h, core, layout) && Physical(layout) && LimboOk(limbo, h, core, layout)
    ensures LimboOk(limbo, h', core, DmapLayout(layout)) <==> limbo == {}
  {
    hide SmallOk, PagesOk, ListsOk, LargeOk, Backed, LiveIn, Physical, DmapLayout;
    if p :| p in limbo {
      assert Private(h, core, layout, p, 0);
      LivePhysical(core, layout, p, 0);
      NotLiveAbove(core, layout, p, 0);
      assert !Private(h', core, DmapLayout(layout), p, 0);
    }
  }

  lemma NotLiveAbove(core: Core, layout: BuddyLinks.Layout, p: nat, k: nat)
    requires p < DMAP_START
    ensures !LiveIn(core, DmapLayout(layout), p, k)
  {
    forall b | InRange(DmapLayout(layout), b) ensures Addr(DmapLayout(layout), b) >= DMAP_START { }
  }

  /** A live object lies in physical memory before the switch, so its address is none of an object after it. */
  lemma ObjectBelow(h: Heap, core: Core, layout: BuddyLinks.Layout, a: nat)
    requires HeapOk(h, core, layout) && Physical(layout) && a in h.live
    ensures a < DMAP_START && a !in UpLive(h.live)
  {
    Extent(h, core, layout, a);
    var o := h.live[a];
    var b := BlockOfLive(core, layout, Home(o), HomeOrder(o));
    assert layout[b.zone].Valid();
    hide HeapOk, LiveIn, Matches, UpLive, Home, HomeOrder, Pow2;
    EndsBelow(layout, b, Pow2(HomeOrder(o)));
    if a in UpLive(h.live) { var c := FromUpLive(h.live, a); }
  }

  lemma EndsBelow(layout: BuddyLinks.Layout, b: Block, n: nat)
    requires Physical(layout) && InRange(layout, b) && b.index + n <= layout[b.zone].pages
    ensures Addr(layout, b) + n * PAGE_SIZE <= VA_LIMIT
  {
    assert layout[b.zone].End() <= VA_LIMIT;
  }

  lemma PageNotInLimbo(limbo: set<nat>, h: Heap, core: Core, layout: BuddyLinks.Layout, p: nat)
    requires LimboOk(limbo, h, core, layout) && p in h.slabs
    ensures p !in limbo
  {
    hide LiveIn;
  }

  lemma NothingGranted(was: Core, now: Core, layout: BuddyLinks.Layout)
    requires Granted(was, now, layout, 0, 0) || exists k :: Granted(was, now, layout, k, 0)
    ensures now == was
  {
  }

  lemma SameWords(words: Words, base: nat, k: nat)
    ensures SameWordsOutside(words, words, base, base + Bytes(k))
  {
  }

  /** The page allocator has no block for a large request exactly when no zone has a free run that holds it. */
  lemma NoRunIff(h: Heap, core: Core, layout: BuddyLinks.Layout, l: SlabHeap.Layout)
    requires HeapOk(h, core, layout)
    ensures Ok(core) && (ClassFrom(l.Need(), 0).None? <==> l.size > 2048 || l.align > 2048)
    ensures Alloc(core, LargeOrder(l)).1.None? <==> !exists b, k :: k < 11 && BlockHolds(l, k) && HasRun(core, b, k)
    ensures Alloc(core, 0).1.None? <==> !exists b :: HasRun(core, b, 0)
  {
    hide LargeOrder, BlockHolds, HasRun, ClassFrom;
    assert Ok(core);
    ClassIs(l, 0);
    var t := LargeOrder(l);
    AllocComplete(core, 0);
    LargeOrderLeast(l, t);
    if t < 11 { AllocComplete(core, t); }
    forall b, k: nat | k < 11 && BlockHolds(l, k) && HasRun(core, b, k) ensures t < 11 && HasRun(core, b, t) {
      LargeOrderLeast(l, k);
      RunShrinks(core, b, t, k);
    }
  }

  /** No page of the request's class has a free object. */
  ghost predicate NoneFree(slabs: map<nat, Slab>, l: SlabHeap.Layout) {
    forall p :: p in slabs && OfClass(l, slabs[p].cls) ==> slabs[p].free == []
  }

  /** The list of a class is empty exactly when no page of the class has a free object. */
  lemma NonePartialIff(h: Heap, core: Core, layout: BuddyLinks.Layout, l: SlabHeap.Layout)
    requires HeapOk(h, core, layout)
    ensures |h.heads| == CLASSES
    ensures var i := ClassFrom(l.Need(), 0);
            i.Some? ==> i.value < CLASSES && (h.heads[i.value] == 0 <==> NoneFree(h.slabs, l))
  {
    if ClassFrom(l.Need(), 0).Some? {
      var i := ClassFrom(l.Need(), 0).value;
      forall j: nat ensures OfClass(l, j) <==> j == i { ClassIs(l, j); }
      hide OfClass, ClassFrom;
      assert SlabLists.ListOk(h.headers, h.heads[i], h.plists[i]);
      if h.plists[i] != [] { FirstPartial(h, core, layout, i); }
      forall p | p in h.slabs && h.slabs[p].cls == i && h.slabs[p].free != [] ensures p in h.plists[i] {
        assert Partial(h.slabs, i, p);
      }
    }
  }

  lemma LargeFacts(h: Heap, core: Core, layout: BuddyLinks.Layout, a: nat)
    requires HeapOk(h, core, layout) && a in h.live && h.live[a].Large?
    ensures LiveIn(core, layout, h.live[a].base, h.live[a].order)
    ensures if h.live[a].layout.align <= PAGE_SIZE then a == h.live[a].base
            else a >= WORD && a - WORD in h.words && h.words[a - WORD] == h.live[a].base
  {
    assert LargeAt(h.words, a, h.live[a]);
    LargeFits(h.words, a, h.live[a]);
  }

  /** An object is small exactly when a size class holds it. */
  lemma KindOfObject(h: Heap, core: Core, layout: BuddyLinks.Layout, a: nat)
    requires HeapOk(h, core, layout) && a in h.live
    ensures h.live[a].Small? <==> ClassFrom(h.live[a].layout.Need(), 0).Some?
  {
    if h.live[a].Small? {
      assert SmallAt(h.slabs, a, h.live[a]);
    } else {
      assert LargeAt(h.words, a, h.live[a]);
    }
  }

  lemma NullNotLive(h: Heap, core: Core, layout: BuddyLinks.Layout)
    requires HeapOk(h, core, layout)
    ensures 0 !in h.live && h.live - {0} == h.live
  {
    if 0 in h.live {
      Extent(h, core, layout, 0);
      LivePageAligned(core, layout, Home(h.live[0]), HomeOrder(h.live[0]));
    }
  }

  lemma PositiveAlign(l: SlabHeap.Layout)
    requires ValidLayout(l)
    ensures l.align > 0
  {
  }

  /** The backing word of an over-aligned object lies in its block. */
  lemma BackingInside(words: Words, l: SlabHeap.Layout, base: nat)
    requires ClassFrom(l.Need(), 0) == None && l.align > PAGE_SIZE
    ensures var a := AlignUp(base + WORD, l.align);
            && a >= WORD && LargeAt(words[a - WORD := base], a, Large(l, base, LargeOrder(l)))
            && SameWordsOutside(words, words[a - WORD := base], base, base + Bytes(LargeOrder(l)))
  {
    var a := AlignUp(base + WORD, l.align);
    AlignUpBounds(base + WORD, l.align);
    var o := Large(l, base, LargeOrder(l));
    assert LargeAt(words[a - WORD := base], a, o);
    LargeFits(words[a - WORD := base], a, o);
  }

  /** The first n objects are chained to their successors. */
  ghost predicate ThreadedUpTo(words: Words, p: nat, i: nat, n: nat)
    requires i < CLASSES
  {
    n < Cap(i) && forall k :: 0 <= k < n ==> NextIs(words, p, i, k)
  }

  lemma CapAtLeastTwo(i: nat)
    requires i < CLASSES
    ensures Cap(i) >= 2
  {
    ClassFacts(i);
  }

  lemma NothingThreaded(words: Words, p: nat, i: nat)
    requires i < CLASSES
    ensures ThreadedUpTo(words, p, i, 0) && SameWordsOutside(words, words, p, p + PAGE_SIZE)
  {
    CapAtLeastTwo(i);
  }

  /** Writing the word of object n leaves those before it. */
  lemma ThreadKeeps(words: Words, p: nat, i: nat, n: nat, next: nat, k: nat)
    requires i < CLASSES && n < Cap(i) && k < n && NextIs(words, p, i, k)
    ensures NextIs(words[Slot(p, i, n) := next], p, i, k)
  {
    SlotsApart(p, i, k, n);
  }

  lemma WordInside(was: Words, words: Words, p: nat, i: nat, n: nat, next: nat)
    requires i < CLASSES && n < Cap(i) && SameWordsOutside(was, words, p, p + PAGE_SIZE)
    ensures SameWordsOutside(was, words[Slot(p, i, n) := next], p, p + PAGE_SIZE)
  {
    SlotFits(p, i, n);
    ClassFacts(i);
    hide Slot, Cap, StartOff;
  }

  lemma ThreadStep(was: Words, words: Words, p: nat, i: nat, n: nat)
    requires i < CLASSES && n + 1 < Cap(i) && ThreadedUpTo(words, p, i, n)
               && SameWordsOutside(was, words, p, p + PAGE_SIZE)
    ensures SameWordsOutside(was, words[Slot(p, i, n) := Slot(p, i, n + 1)], p, p + PAGE_SIZE)
    ensures ThreadedUpTo(words[Slot(p, i, n) := Slot(p, i, n + 1)], p, i, n + 1)
  {
    hide Slot, Cap, StartOff, SameWordsOutside;
    var words' := words[Slot(p, i, n) := Slot(p, i, n + 1)];
    WordInside(was, words, p, i, n, Slot(p, i, n + 1));
    forall k | 0 <= k < n + 1 ensures NextIs(words', p, i, k) {
      if k < n { ThreadKeeps(words, p, i, n, Slot(p, i, n + 1), k); }
    }
  }

  lemma ThreadEnd(was: Words, words: Words, p: nat, i: nat)
    requires i < CLASSES && Cap(i) >= 2 && ThreadedUpTo(words, p, i, Cap(i) - 1)
               && SameWordsOutside(was, words, p, p + PAGE_SIZE)
    ensures SameWordsOutside(was, words[Slot(p, i, Cap(i) - 1) := 0], p, p + PAGE_SIZE)
    ensures Threaded(words[Slot(p, i, Cap(i) - 1) := 0], p, i)
  {
    hide Slot, Cap, StartOff, SameWordsOutside;
    var n := Cap(i) - 1;
    var words' := words[Slot(p, i, n) := 0];
    WordInside(was, words, p, i, n, 0);
    forall k | 0 <= k < Cap(i) ensures NextIs(words', p, i, k) {
      if k < n { ThreadKeeps(words, p, i, n, 0, k); }
    }
  }

  lemma FirstSlotFree(h: Heap, core: Core, layout: BuddyLinks.Layout, p: nat, i: nat)
    requires HeapOk(h, core, layout) && Private(h, core, layout, p, 0) && i < CLASSES
    ensures Slot(p, i, 0) !in h.live && Slot(p, i, 0) != 0 && Cap(i) >= 2 && |h.plists| == CLASSES
    ensures p % PAGE_SIZE == 0 && p != 0
  {
    ClassFacts(i);
    LivePageAligned(core, layout, p, 0);
    SlotFits(p, i, 0);
    OnePage();
    if Slot(p, i, 0) in h.live { PrivateApart(h, core, layout, 0, p, Slot(p, i, 0)); }
  }

  lemma FirstWord(words: Words, p: nat, i: nat)
    requires i < CLASSES && Cap(i) >= 2 && Threaded(words, p, i)
    ensures Slot(p, i, 0) in words && words[Slot(p, i, 0)] == Slot(p, i, 1)
  {
    hide Slot, Cap;
    assert NextIs(words, p, i, 0);
  }

  lemma HeadNotNull(h: Heap, core: Core, layout: BuddyLinks.Layout, i: nat)
    requires HeapOk(h, core, layout) && i < CLASSES && h.heads[i] != 0
    ensures |h.plists| == CLASSES && h.plists[i] != []
  {
    assert SlabLists.ListOk(h.headers, h.heads[i], h.plists[i]);
  }

  lemma FreeHeadFacts(h: Heap, core: Core, layout: BuddyLinks.Layout, p: nat)
    requires HeapOk(h, core, layout) && p in h.slabs && h.slabs[p].free != []
    ensures p in h.headers && h.slabs[p].cls < CLASSES && h.headers[p].freeCount == |h.slabs[p].free|
    ensures Slot(p, h.slabs[p].cls, h.slabs[p].free[0]) !in h.live && Slot(p, h.slabs[p].cls, h.slabs[p].free[0]) != 0
  {
    assert PageOk(h.headers, h.words, p, h.slabs[p]);
    assert SlotAt(p, h.slabs[p], 0) in h.words;
    FreeSlotNotLive(h, core, layout, p, h.slabs[p].free[0]);
    SlotFits(p, h.slabs[p].cls, h.slabs[p].free[0]);
  }

  /** A class can serve a request from its list exactly when the list has a head. */
  lemma CanTakeIff(h: Heap, core: Core, layout: BuddyLinks.Layout, i: nat, backing: map<nat, nat>)
    requires HeapOk(h, core, layout) && i < CLASSES
    ensures |h.heads| == CLASSES && |h.plists| == CLASSES && Cap(i) >= 1
    ensures CanTake(Slabs(h.plists, h.slabs, h.live, backing), i) <==> h.heads[i] != 0
  {
    ClassFacts(i);
    assert SlabLists.ListOk(h.headers, h.heads[i], h.plists[i]);
    if h.plists[i] != [] {
      assert SlabLists.NodeOk(h.headers, h.plists[i], 0);
      FirstPartial(h, core, layout, i);
    }
  }

  lemma WithoutPage(h: Heap, core: Core, layout: BuddyLinks.Layout, i: nat, k: nat)
    requires HeapOk(h, core, layout) && i < CLASSES && k < |h.plists[i]|
    ensures |h.plists| == CLASSES && Without(h.plists[i], h.plists[i][k]) == BuddyLinks.RemoveAt(h.plists[i], k)
  {
    assert SlabLists.ListOk(h.headers, h.heads[i], h.plists[i]);
    BuddyLinks.WithoutAt(h.plists[i], k);
  }

  lemma {:induction false} TotalUp(live: map<nat, Object>)
    ensures Total(UpLive(live)) == Total(live)
    decreases |live|
  {
    hide UpLive, Up;
    if live == map[] {
      UpLiveEmpty();
    } else {
      var a :| a in live;
      UpLiveAt(live, a);
      UpLiveDrop(live, a);
      assert (live - {a}).Keys == live.Keys - {a};
      TotalUp(live - {a});
      TotalWithout(live, a);
      TotalWithout(UpLive(live), Up(a));
    }
  }

  lemma UpLiveEmpty()
    ensures UpLive(map[]) == map[]
  {
    assert UpObjects(map[]) == map[];
  }

  /** The pages of the first n lists. */
  ghost predicate ListsDone(plists: seq<seq<nat>>, n: nat, done: set<nat>) {
    forall p :: p in done <==> exists i :: 0 <= i < n && i < |plists| && p in plists[i]
  }

  lemma NothingSwitched(plists: seq<seq<nat>>)
    ensures ListsDone(plists, 0, {})
  {
  }

  lemma OneMoreList(plists: seq<seq<nat>>, n: nat, before: set<nat>, after: set<nat>)
    requires n < |plists| && ListsDone(plists, n, before) && after == before + Elems(plists[n])
    ensures ListsDone(plists, n + 1, after)
  {
  }

  lemma ListsAllDone(h: Heap, core: Core, layout: BuddyLinks.Layout, done: set<nat>)
    requires HeapOk(h, core, layout) && ListsDone(h.plists, CLASSES, done)
    ensures AllPartial(h.slabs, done)
  {
    forall p | p in h.slabs ensures p in done <==> h.slabs[p].free != [] {
      PageFacts(h, core, layout, p);
      assert Partial(h.slabs, h.slabs[p].cls, p) <==> p in h.plists[h.slabs[p].cls];
    }
  }

  lemma NotDoneYet(h: Heap, core: Core, layout: BuddyLinks.Layout, i: nat, done: set<nat>)
    requires HeapOk(h, core, layout) && i < CLASSES && ListsDone(h.plists, i, done)
    ensures |h.plists| == CLASSES && |h.heads| == CLASSES && forall p :: p in h.plists[i] ==> p !in done
  {
    ListsFacts(h, core, layout);
    hide HeapOk;
    forall p | p in h.plists[i] ensures p !in done {
      forall j | 0 <= j < i ensures p !in h.plists[j] { OnOneList(h.headers, h.heads, h.plists, h.slabs, i, j, p); }
    }
  }

  lemma HeadOfList(h: Heap, core: Core, layout: BuddyLinks.Layout, i: nat)
    requires HeapOk(h, core, layout) && i < CLASSES
    ensures |h.plists| == CLASSES && |h.heads| == CLASSES && h.heads[i] == SlabLists.At(h.plists[i], 0)
  {
    assert SlabLists.ListOk(h.headers, h.heads[i], h.plists[i]);
  }

  /** A page on the list: where it is, and what follows it. */
  lemma OnList(h: Heap, core: Core, layout: BuddyLinks.Layout, i: nat, k: nat, done: set<nat>)
    requires HeapOk(h, core, layout) && i < CLASSES && |h.plists| == CLASSES && k <= |h.plists[i]|
               && SlabLists.At(h.plists[i], k) != 0
    requires forall p :: p in h.plists[i] ==> p !in done
    ensures k < |h.plists[i]|
    ensures var p := h.plists[i][k];
            && p in h.slabs && p in h.headers && h.headers[p].next == SlabLists.At(h.plists[i], k + 1)
            && p !in done + Elems(h.plists[i][..k])
  {
    ListsFacts(h, core, layout);
    hide HeapOk;
    assert SlabLists.ListOk(h.headers, h.heads[i], h.plists[i]);
    var p := h.plists[i][k];
    assert SlabLists.NodeOk(h.headers, h.plists[i], k);
    assert p in h.plists[i] && Partial(h.slabs, i, p);
  }

  lemma EndOfList(h: Heap, core: Core, layout: BuddyLinks.Layout, i: nat, k: nat)
    requires HeapOk(h, core, layout) && i < CLASSES && |h.plists| == CLASSES && k <= |h.plists[i]|
               && SlabLists.At(h.plists[i], k) == 0
    ensures k == |h.plists[i]|
  {
    assert SlabLists.ListOk(h.headers, h.heads[i], h.plists[i]);
    assert k < |h.plists[i]| ==> SlabLists.NodeOk(h.headers, h.plists[i], k);
  }

  lemma PageIsUp(p: nat)
    requires PhysicalPage(p)
    ensures ToDmap(p) == Up(p)
  {
    PhysicalToDmap(p);
  }

  lemma HeaderRewritten(was: Headers, now: Headers, header: SlabLists.Header, p: nat)
    requires Up(p) in was && was[Up(p)] == header
    requires now == was[Up(p) := header.(next := ToDmap(header.next), prev := ToDmap(header.prev),
               freeList := ToDmap(header.freeList))]
    ensures now == was[Up(p) := UpHeader(header)]
  {
  }

  /** The chain of the page as it reads before it is rewritten: at image addresses, but with physical links. */
  ghost predicate PhysicalChain(words: Words, p: nat, s: Slab)
    requires s.cls < CLASSES
  {
    forall k :: 0 <= k < |s.free| ==>
      s.free[k] < Cap(s.cls) && SlotAt(Up(p), s, k) in words && words[SlotAt(Up(p), s, k)] == SlotAt(p, s, k + 1)
  }

  lemma ChainSeen(h: Heap, headers: Headers, words: Words, done: set<nat>, p: nat)
    requires p in h.slabs && PageOk(h.headers, h.words, p, h.slabs[p]) && PhysicalPage(p) && p !in done
    requires Rewriting(h.headers, h.words, h.slabs, headers, words, done)
    ensures PhysicalChain(words, p, h.slabs[p])
  {
    hide Up, Cap, Slot;
    var s := h.slabs[p];
    forall k | 0 <= k < |s.free|
      ensures SlotAt(Up(p), s, k) in words && words[SlotAt(Up(p), s, k)] == SlotAt(p, s, k + 1)
    {
      var x := SlotAt(p, s, k);
      assert x in h.words;
      UpSlotAt(p, s, k);
      InOwnPage(p, x);
      assert WordSeen(h.words, words, x);
    }
  }

  lemma InOwnPage(p: nat, x: nat)
    requires p % PAGE_SIZE == 0 && p <= x < p + PAGE_SIZE
    ensures x - x % PAGE_SIZE == p
  {
  }

  /** The first k links are rewritten. */
  ghost predicate HalfChained(words: Words, p: nat, s: Slab, k: nat)
    requires s.cls < CLASSES
  {
    forall j :: 0 <= j < |s.free| ==>
      && s.free[j] < Cap(s.cls) && SlotAt(Up(p), s, j) in words
      && words[SlotAt(Up(p), s, j)] == if j < k then SlotAt(Up(p), s, j + 1) else SlotAt(p, s, j + 1)
  }

  lemma ChainStart(words: Words, p: nat, s: Slab)
    requires s.cls < CLASSES && PhysicalChain(words, p, s)
    ensures HalfChained(words, p, s, 0) && OnlyPage(words, words, Up(p))
  {
  }

  lemma ChainAt(words: Words, p: nat, s: Slab, k: nat)
    requires s.cls < CLASSES && PhysicalPage(p) && HalfChained(words, p, s, k) && k <= |s.free| && SlotAt(p, s, k) != 0
    ensures k < |s.free| && ToDmap(SlotAt(p, s, k)) == SlotAt(Up(p), s, k)
    ensures SlotAt(Up(p), s, k) in words && words[SlotAt(Up(p), s, k)] == SlotAt(p, s, k + 1)
  {
    hide Up, Cap, Slot, ToDmap;
    UpSlotAt(p, s, k);
  }

  lemma ChainStep(before: Words, words: Words, p: nat, s: Slab, k: nat)
    requires s.cls < CLASSES && PhysicalPage(p) && HalfChained(words, p, s, k) && k < |s.free| && NoDup(s.free)
               && OnlyPage(before, words, Up(p))
    ensures var after := words[SlotAt(Up(p), s, k) := ToDmap(SlotAt(p, s, k + 1))];
            HalfChained(after, p, s, k + 1) && OnlyPage(before, after, Up(p))
  {
    hide Up, Cap, Slot, ToDmap;
    UpSlotAt(p, s, k + 1);
    SlotFits(Up(p), s.cls, s.free[k]);
    ClassFacts(s.cls);
    forall j | 0 <= j < |s.free| && j != k ensures SlotAt(Up(p), s, j) != SlotAt(Up(p), s, k) {
      SlotDiffers(Up(p), s.cls, s.free[j], s.free[k]);
    }
  }

  lemma ChainEnd(words: Words, p: nat, s: Slab, k: nat)
    requires s.cls < CLASSES && PhysicalPage(p) && HalfChained(words, p, s, k) && k <= |s.free| && SlotAt(p, s, k) == 0
    ensures Chained(words, Up(p), s)
  {
    hide Up, Cap, Slot, ToDmap;
    if k < |s.free| { UpSlotAt(p, s, k); }
  }

  lemma RewriteNext(h: Heap, core: Core, layout: BuddyLinks.Layout, headers: Headers, words: Words, done: set<nat>,
      p: nat, after: Words)
    requires HeapOk(h, core, layout) && Rewriting(h.headers, h.words, h.slabs, headers, words, done) && p in h.slabs
    requires h.slabs[p].cls < CLASSES && OnlyPage(words, after, Up(p)) && Chained(after, Up(p), h.slabs[p])
    ensures p in h.headers && Rewriting(h.headers, h.words, h.slabs, headers[Up(p) := UpHeader(h.headers[p])], after,
              done + {p})
  {
    hide HeapOk, Up, UpHeader, OnlyPage, Chained;
    PageFacts(h, core, layout, p);
    forall q | q in done ensures q % PAGE_SIZE == 0 { PageFacts(h, core, layout, q); }
    RewritePage(h.headers, h.words, h.slabs, headers, words, done, p, after);
  }

  /** Every power of two up to 2^48 divides the start of the direct map, so such requests are all served alike. */
  lemma PowersServable(l: SlabHeap.Layout, k: nat)
    requires l.align == Pow2(k) && k <= 48
    ensures Servable(Request(l))
  {
    Pow2Of48();
    hide Pow2;
    Pow2Monotone(k, 48);
    SmallerPower(DMAP_START, Pow2(48), k, 48);
  }

  lemma Pow2Of48()
    ensures Pow2(48) == 0x1_0000_0000_0000
  {
    assert Pow2(12) == 4096 by { ClassIsPower(8); }
    hide Pow2;
    Pow2Split(12, 24);
    assert Pow2(24) == 0x100_0000;
    Pow2Split(24, 48);
  }
}
