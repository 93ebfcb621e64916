/** The slab allocator's memory seen through the direct map, page by page as it is rewritten. */
module SlabDmap {
  import Alignment
  import opened BuddyCore
  import opened BuddyLinks
  import opened BuddyClient
  import opened BuddyDmap
  import opened SlabHeap
  import opened SlabOps
  import opened SlabMachine
  import SlabLists

  function UpHeader(h: SlabLists.Header): SlabLists.Header {
    SlabLists.Header(ToDmap(h.next), ToDmap(h.prev), ToDmap(h.freeList), h.freeCount, h.sizeClass)
  }

  /** The page lies in physical memory, above null. */
  predicate PhysicalPage(p: nat) {
    0 < p && p + PAGE_SIZE <= VA_LIMIT
  }

  lemma LivePhysical(core: Core, layout: BuddyLinks.Layout, a: nat, k: nat)
    requires Matches(core, layout) && Physical(layout) && LiveIn(core, layout, a, k)
    ensures PhysicalPage(a) && Up(a) == ToDmap(a) && LiveIn(core, DmapLayout(layout), Up(a), k)
  {
    var b := BlockOfLive(core, layout, a, k);
    AddrToDmap(layout, b);
    PhysicalToDmap(a);
    assert layout[b.zone].Valid();
    assert Addr(layout, b) + PAGE_SIZE <= layout[b.zone].End();
    assert Addr(DmapLayout(layout), b) == Up(a);
  }

  lemma UpMatches(core: Core, layout: BuddyLinks.Layout)
    requires Matches(core, layout) && Physical(layout)
    ensures Matches(core, DmapLayout(layout))
  {
    LayoutToDmap(layout);
    assert forall z :: 0 <= z < |layout| ==> DmapLayout(layout)[z].pages == layout[z].pages;
  }

  /** The free objects of the image page are the images of the free objects. */
  lemma UpSlotAt(p: nat, s: Slab, k: int)
    requires s.cls < CLASSES && PhysicalPage(p) && (0 <= k < |s.free| ==> s.free[k] < Cap(s.cls))
    ensures SlotAt(Up(p), s, k) == ToDmap(SlotAt(p, s, k))
    ensures 0 <= k < |s.free| ==> 0 < SlotAt(p, s, k) && SlotAt(Up(p), s, k) == Up(SlotAt(p, s, k))
    ensures 0 <= k < |s.free| ==> p <= SlotAt(p, s, k) < p + PAGE_SIZE
  {
    if 0 <= k < |s.free| {
      SlotFits(p, s.cls, s.free[k]);
      ClassFacts(s.cls);
      PhysicalToDmap(SlotAt(p, s, k));
      UpSlot(p, s.cls, s.free[k]);
    }
  }

  lemma UpAt(l: seq<nat>, i: int)
    requires forall p :: p in l ==> PhysicalPage(p)
    ensures SlabLists.At(UpList(l), i) == ToDmap(SlabLists.At(l, i))
  {
    if 0 <= i < |l| { assert l[i] in l; PhysicalToDmap(l[i]); }
  }

  // ---------------------------------------------------------------- rewriting, page by page

  /** The pages in `done` are rewritten; everything else still reads as it did. */
  ghost predicate Rewriting(was: Headers, oldWords: Words, slabs: map<nat, Slab>, headers: Headers, words: Words,
      done: set<nat>) {
    && (forall p :: p in was ==> HeaderSeen(was, headers, p, p in done))
    && (forall p :: p in done ==> p in slabs && slabs[p].cls < CLASSES && Chained(words, Up(p), slabs[p]))
    && (forall x :: x in oldWords && x - x % PAGE_SIZE !in done ==> WordSeen(oldWords, words, x))
  }

  predicate HeaderSeen(was: Headers, headers: Headers, p: nat, rewritten: bool)
    requires p in was
  {
    Up(p) in headers && headers[Up(p)] == if rewritten then UpHeader(was[p]) else was[p]
  }

  predicate WordSeen(was: Words, words: Words, x: nat)
    requires x in was
  {
    Up(x) in words && words[Up(x)] == was[x]
  }

  /** Seen at its direct-map addresses, memory reads as before. */
  lemma StartRewriting(was: Headers, oldWords: Words, slabs: map<nat, Slab>)
    ensures Rewriting(was, oldWords, slabs, Shift(was), Shift(oldWords), {})
  {
    hide Shift, Up;
    forall p | p in was ensures HeaderSeen(was, Shift(was), p, false) { ShiftAt(was, p); }
    forall x | x in oldWords ensures WordSeen(oldWords, Shift(oldWords), x) { ShiftAt(oldWords, x); }
  }

  /** Words change only inside the page. */
  ghost predicate OnlyPage(before: Words, after: Words, p: nat) {
    forall x :: x in before && !(p <= x < p + PAGE_SIZE) ==> x in after && after[x] == before[x]
  }

  lemma ChainedElsewhere(before: Words, after: Words, p: nat, q: nat, s: Slab)
    requires s.cls < CLASSES && Chained(before, q, s) && OnlyPage(before, after, p)
    requires p % PAGE_SIZE == 0 && q % PAGE_SIZE == 0 && p != q
    ensures Chained(after, q, s)
  {
    PagesApart(p, q);
    forall k | 0 <= k < |s.free| ensures SlotAt(q, s, k) in after && after[SlotAt(q, s, k)] == SlotAt(q, s, k + 1) {
      SlotFits(q, s.cls, s.free[k]);
      ClassFacts(s.cls);
    }
  }

  lemma UpPageAligned(p: nat)
    ensures Up(p) % PAGE_SIZE == p % PAGE_SIZE
  {
  }

  /** One more page rewritten. */
  lemma RewritePage(was: Headers, oldWords: Words, slabs: map<nat, Slab>, headers: Headers, words: Words,
      done: set<nat>, p: nat, after: Words)
    requires Rewriting(was, oldWords, slabs, headers, words, done)
    requires p in was && p in slabs && slabs[p].cls < CLASSES && p % PAGE_SIZE == 0
               && forall q :: q in done ==> q % PAGE_SIZE == 0
    requires OnlyPage(words, after, Up(p)) && Chained(after, Up(p), slabs[p])
    ensures Rewriting(was, oldWords, slabs, headers[Up(p) := UpHeader(was[p])], after, done + {p})
  {
    hide UpHeader, Chained, Up;
    var headers', done' := headers[Up(p) := UpHeader(was[p])], done + {p};
    forall q | q in was ensures HeaderSeen(was, headers', q, q in done') {
      assert HeaderSeen(was, headers, q, q in done);
      UpInjective(p, q);
    }
    forall q | q in done' ensures q in slabs && slabs[q].cls < CLASSES && Chained(after, Up(q), slabs[q]) {
      if q != p {
        UpInjective(p, q);
        UpPageAligned(p);
        UpPageAligned(q);
        ChainedElsewhere(words, after, Up(p), Up(q), slabs[q]);
      }
    }
    forall x | x in oldWords && x - x % PAGE_SIZE !in done' ensures WordSeen(oldWords, after, x) {
      assert WordSeen(oldWords, words, x);
      NotInPage(p, x);
    }
  }

  lemma NotInPage(p: nat, x: nat)
    requires p % PAGE_SIZE == 0 && x - x % PAGE_SIZE != p
    ensures !(Up(p) <= Up(x) < Up(p) + PAGE_SIZE)
  {
  }

  // ---------------------------------------------------------------- the finished image

  /** Every slab page has been rewritten, those without free objects by having nothing to rewrite. */
  ghost predicate Imaged(h: Heap, headers: Headers, words: Words) {
    && (forall p :: p in h.slabs ==> PageImaged(h, headers, words, p))
    && (forall a :: a in h.live && OverAligned(h.live[a]) && a >= WORD && a - WORD in h.words ==>
        WordSeen(h.words, words, a - WORD))
  }

  ghost predicate PageImaged(h: Heap, headers: Headers, words: Words, p: nat)
    requires p in h.slabs
  {
    p in h.headers && Up(p) in headers && headers[Up(p)] == UpHeader(h.headers[p])
    && h.slabs[p].cls < CLASSES && Chained(words, Up(p), h.slabs[p])
  }

  lemma FullPageImaged(h: Heap, core: Core, layout: BuddyLinks.Layout, headers: Headers, words: Words, p: nat)
    requires HeapOk(h, core, layout) && p in h.slabs && h.slabs[p].free == []
    ensures p in h.headers && h.headers[p] == UpHeader(h.headers[p])
    ensures Up(p) in headers && headers[Up(p)] == h.headers[p] ==> PageImaged(h, headers, words, p)
  {
    assert PageOk(h.headers, h.words, p, h.slabs[p]);
  }

  ghost predicate AllPartial(slabs: map<nat, Slab>, done: set<nat>) {
    forall p :: p in slabs ==> (p in done <==> slabs[p].free != [])
  }

  lemma RewritingDone(h: Heap, core: Core, layout: BuddyLinks.Layout, headers: Headers, words: Words, done: set<nat>)
    requires HeapOk(h, core, layout) && Rewriting(h.headers, h.words, h.slabs, headers, words, done)
               && AllPartial(h.slabs, done)
    ensures Imaged(h, headers, words)
  {
    hide UpHeader, Up;
    hide HeapOk, LiveIn;
    forall p | p in h.slabs ensures PageImaged(h, headers, words, p) {
      PageFacts(h, core, layout, p);
      assert HeaderSeen(h.headers, headers, p, p in done);
      if h.slabs[p].free == [] { FullPageImaged(h, core, layout, headers, words, p); }
    }
    forall a | a in h.live && OverAligned(h.live[a]) && a >= WORD && a - WORD in h.words
        ensures WordSeen(h.words, words, a - WORD) {
      forall q | q in done ensures q != (a - WORD) - (a - WORD) % PAGE_SIZE { BackingOutside(h, core, layout, a, q); }
    }
  }

  /** The backing word of an over-aligned object is not in a slab page. */
  lemma BackingOutside(h: Heap, core: Core, layout: BuddyLinks.Layout, a: nat, q: nat)
    requires HeapOk(h, core, layout) && a in h.live && OverAligned(h.live[a]) && a >= WORD && q in h.slabs
    ensures (a - WORD) - (a - WORD) % PAGE_SIZE != q
  {
    hide LiveIn, Matches, SmallOk, PagesOk, ListsOk;
    var o := h.live[a];
    assert LargeAt(h.words, a, o) && o.base !in h.slabs;
    assert LiveIn(core, layout, o.base, o.order) && LiveIn(core, layout, q, 0);
    hide LargeAt, LargeOk, Backed, HeapOk;
    BackingApart(core, layout, h.words, a, o, q, 0);
    OnePage();
  }

  lemma OnePage()
    ensures Bytes(0) == PAGE_SIZE
  {
    assert Alignment.Pow2(0) == 1;
  }

  lemma PageFacts(h: Heap, core: Core, layout: BuddyLinks.Layout, p: nat)
    requires HeapOk(h, core, layout) && p in h.slabs
    ensures PageOk(h.headers, h.words, p, h.slabs[p]) && LiveIn(core, layout, p, 0)
  {
  }

  // ---------------------------------------------------------------- the image keeps the invariant

  ghost function UpHeap(h: Heap, headers: Headers, words: Words, heads: seq<nat>): Heap {
    Heap(headers, words, heads, UpLists(h.plists), Shift(h.slabs), UpLive(h.live))
  }

  lemma UpPageOk(h: Heap, headers: Headers, words: Words, p: nat)
    requires p in h.slabs && PageOk(h.headers, h.words, p, h.slabs[p]) && PageImaged(h, headers, words, p)
               && PhysicalPage(p)
    ensures PageOk(headers, words, Up(p), h.slabs[p])
  {
    var s := h.slabs[p];
    UpPageAligned(p);
    if s.free != [] { assert SlotAt(p, s, 0) in h.words; }
    UpSlotAt(p, s, 0);
  }

  lemma UpPagesOk(h: Heap, core: Core, layout: BuddyLinks.Layout, headers: Headers, words: Words)
    requires HeapOk(h, core, layout) && Physical(layout) && Imaged(h, headers, words)
    ensures PagesOk(headers, words, Shift(h.slabs))
  {
    hide Shift, Up, PageOk, HeapOk, LiveIn;
    forall q | q in Shift(h.slabs) ensures PageOk(headers, words, q, Shift(h.slabs)[q]) {
      var p := ShiftFrom(h.slabs, q);
      PageFacts(h, core, layout, p);
      PagePhysical(h, core, layout, p);
      assert PageImaged(h, headers, words, p);
      UpPageOk(h, headers, words, p);
    }
  }

  lemma PagePhysical(h: Heap, core: Core, layout: BuddyLinks.Layout, p: nat)
    requires HeapOk(h, core, layout) && Physical(layout) && p in h.slabs
    ensures PhysicalPage(p)
  {
    hide LiveIn, Matches, SmallOk, PagesOk, ListsOk, LargeOk;
    assert LiveIn(core, layout, p, 0);
    LivePhysical(core, layout, p, 0);
  }

  /** The image of a list of pages, linked through the image headers. */
  lemma UpListOk(was: Headers, headers: Headers, head: nat, l: seq<nat>)
    requires SlabLists.ListOk(was, head, l) && forall p :: p in l ==> PhysicalPage(p)
    requires forall p :: p in l ==> p in was && Up(p) in headers && headers[Up(p)] == UpHeader(was[p])
    ensures SlabLists.ListOk(headers, ToDmap(head), UpList(l))
  {
    hide Up, ToDmap;
    UpAt(l, 0);
    forall i, j | 0 <= i < j < |l| ensures UpList(l)[i] != UpList(l)[j] { UpInjective(l[i], l[j]); }
    forall i | 0 <= i < |l| ensures SlabLists.NodeOk(headers, UpList(l), i) {
      assert SlabLists.NodeOk(was, l, i) && l[i] in l;
      UpAt(l, i - 1);
      UpAt(l, i + 1);
      UpNotNull(l[i]);
    }
  }

  lemma UpNotNull(p: nat)
    ensures Up(p) != 0
  {
  }

  lemma InUpList(l: seq<nat>, p: nat)
    ensures Up(p) in UpList(l) <==> p in l
  {
    if p in l {
      var k :| 0 <= k < |l| && l[k] == p;
      assert UpList(l)[k] == Up(p);
    }
    if Up(p) in UpList(l) {
      var k :| 0 <= k < |l| && UpList(l)[k] == Up(p);
      UpInjective(l[k], p);
    }
  }

  lemma FromUpList(l: seq<nat>, q: nat) returns (p: nat)
    requires q in UpList(l)
    ensures p in l && q == Up(p)
  {
    var k :| 0 <= k < |l| && UpList(l)[k] == q;
    p := l[k];
  }

  lemma UpPartial(h: Heap, i: nat, l: seq<nat>, q: nat)
    requires forall p: nat :: p in l <==> Partial(h.slabs, i, p)
    ensures q in UpList(l) <==> Partial(Shift(h.slabs), i, q)
  {
    hide Shift, Up, UpList;
    if q in UpList(l) {
      var p := FromUpList(l, q);
      ShiftAt(h.slabs, p);
    }
    if q in Shift(h.slabs) {
      var p := ShiftFrom(h.slabs, q);
      InUpList(l, p);
    }
  }

  ghost predicate UpHeads(heads: seq<nat>, heads': seq<nat>) {
    |heads'| == |heads| && forall i :: 0 <= i < |heads| ==> heads'[i] == ToDmap(heads[i])
  }

  lemma UpListsOk(h: Heap, core: Core, layout: BuddyLinks.Layout, headers: Headers, words: Words, heads: seq<nat>)
    requires HeapOk(h, core, layout) && Physical(layout) && Imaged(h, headers, words) && UpHeads(h.heads, heads)
    ensures ListsOk(headers, heads, UpLists(h.plists), Shift(h.slabs))
  {
    ListsFacts(h, core, layout);
    hide Shift, Up, HeapOk, LiveIn, ToDmap, UpHeader, UpList, PageOk;
    forall i | 0 <= i < CLASSES ensures SlabLists.ListOk(headers, heads[i], UpList(h.plists[i])) {
      forall p | p in h.plists[i]
        ensures PhysicalPage(p) && p in h.headers && Up(p) in headers && headers[Up(p)] == UpHeader(h.headers[p])
      {
        assert Partial(h.slabs, i, p);
        PagePhysical(h, core, layout, p);
        assert PageImaged(h, headers, words, p);
      }
      UpListOk(h.headers, headers, h.heads[i], h.plists[i]);
    }
    forall i: nat, q: nat | i < CLASSES ensures q in UpLists(h.plists)[i] <==> Partial(Shift(h.slabs), i, q) {
      UpPartial(h, i, h.plists[i], q);
    }
  }

  lemma ListsFacts(h: Heap, core: Core, layout: BuddyLinks.Layout)
    requires HeapOk(h, core, layout)
    ensures ListsOk(h.headers, h.heads, h.plists, h.slabs)
  {
  }

  lemma UpSmallOk(slabs: map<nat, Slab>, live: map<nat, Object>)
    requires SmallOk(slabs, live)
    ensures SmallOk(Shift(slabs), UpLive(live))
  {
    hide Shift, Up, UpLive, Slot, Cap, ClassFrom;
    forall b | b in UpLive(live) && UpLive(live)[b].Small? ensures SmallAt(Shift(slabs), b, UpLive(live)[b]) {
      var a := FromUpLive(live, b);
      assert SmallAt(slabs, a, live[a]);
      ShiftAt(slabs, live[a].page);
      UpSlot(live[a].page, slabs[live[a].page].cls, live[a].index);
    }
    forall q, j | q in Shift(slabs) && Shift(slabs)[q].cls < CLASSES && 0 <= j < Cap(Shift(slabs)[q].cls)
        && j !in Shift(slabs)[q].free
      ensures LiveSlot(Shift(slabs), UpLive(live), q, j)
    {
      var p := ShiftFrom(slabs, q);
      assert LiveSlot(slabs, live, p, j);
      UpSlot(p, slabs[p].cls, j);
      UpLiveAt(live, Slot(p, slabs[p].cls, j));
    }
  }

  lemma FromUpLive(live: map<nat, Object>, b: nat) returns (a: nat)
    requires b in UpLive(live)
    ensures a in live && b == Up(a) && UpLive(live)[b] == UpObject(live[a])
  {
    a := ShiftFrom(UpObjects(live), b);
  }

  ghost predicate NoOverAligned(live: map<nat, Object>) {
    forall a :: a in live ==> !OverAligned(live[a])
  }

  /** Without a backing word there is nothing to translate; with one, it still names the physical block. */
  lemma UpLargeAt(was: Words, words: Words, a: nat, o: Object)
    requires o.Large? && LargeAt(was, a, o)
    requires OverAligned(o) ==> a >= WORD && a - WORD in was && WordSeen(was, words, a - WORD)
    ensures LargeAt(words, Up(a), UpObject(o)) <==> !OverAligned(o)
  {
    hide LargeOrder, ClassFrom, AlignUp;
    if OverAligned(o) { assert Up(a) - WORD == Up(a - WORD); }
  }

  lemma UpLargeOk(h: Heap, core: Core, layout: BuddyLinks.Layout, headers: Headers, words: Words)
    requires HeapOk(h, core, layout) && Imaged(h, headers, words)
    ensures LargeOk(words, UpLive(h.live), Shift(h.slabs)) <==> NoOverAligned(h.live)
  {
    hide Shift, Up, UpLive, LargeAt, HeapOk, LiveIn;
    if NoOverAligned(h.live) {
      forall b | b in UpLive(h.live) && UpLive(h.live)[b].Large?
        ensures LargeAt(words, b, UpLive(h.live)[b]) && UpLive(h.live)[b].base !in Shift(h.slabs)
      {
        var a := FromUpLive(h.live, b);
        LargeImage(h, core, layout, headers, words, a);
      }
      forall b, d | b in UpLive(h.live) && d in UpLive(h.live) && UpLive(h.live)[b].Large? && UpLive(h.live)[d].Large?
          && UpLive(h.live)[b].base == UpLive(h.live)[d].base
        ensures b == d
      {
        var a := FromUpLive(h.live, b);
        var e := FromUpLive(h.live, d);
        UpInjective(h.live[a].base, h.live[e].base);
        LargeUnique(h, core, layout, a, e);
      }
    }
    if LargeOk(words, UpLive(h.live), Shift(h.slabs)) {
      forall a | a in h.live ensures !OverAligned(h.live[a]) {
        UpLiveAt(h.live, a);
        if h.live[a].Large? { LargeImage(h, core, layout, headers, words, a); }
      }
    }
  }

  lemma LargeImage(h: Heap, core: Core, layout: BuddyLinks.Layout, headers: Headers, words: Words, a: nat)
    requires HeapOk(h, core, layout) && Imaged(h, headers, words) && a in h.live && h.live[a].Large?
    ensures LargeAt(words, Up(a), UpObject(h.live[a])) <==> !OverAligned(h.live[a])
    ensures Up(h.live[a].base) !in Shift(h.slabs)
  {
    hide Shift, Up, LiveIn, Matches, SmallOk, PagesOk, ListsOk;
    assert LargeAt(h.words, a, h.live[a]);
    ShiftAt(h.slabs, h.live[a].base);
    LargeFits(h.words, a, h.live[a]);
    UpLargeAt(h.words, words, a, h.live[a]);
  }

  lemma LargeUnique(h: Heap, core: Core, layout: BuddyLinks.Layout, a: nat, b: nat)
    requires HeapOk(h, core, layout) && a in h.live && b in h.live && h.live[a].Large? && h.live[b].Large?
               && h.live[a].base == h.live[b].base
    ensures a == b
  {
  }

  lemma UpBacked(h: Heap, core: Core, layout: BuddyLinks.Layout)
    requires HeapOk(h, core, layout) && Physical(layout)
    ensures Backed(core, DmapLayout(layout), Shift(h.slabs), UpLive(h.live))
  {
    hide Shift, Up, UpLive, LiveIn, Matches, SmallOk, PagesOk, ListsOk, LargeOk;
    forall q | q in Shift(h.slabs) ensures LiveIn(core, DmapLayout(layout), q, 0) {
      var p := ShiftFrom(h.slabs, q);
      LivePhysical(core, layout, p, 0);
    }
    forall b | b in UpLive(h.live) && UpLive(h.live)[b].Large?
      ensures LiveIn(core, DmapLayout(layout), UpLive(h.live)[b].base, UpLive(h.live)[b].order)
    {
      var a := FromUpLive(h.live, b);
      LivePhysical(core, layout, h.live[a].base, h.live[a].order);
    }
  }

  /** After the switch the allocator's invariant holds just when no over-aligned object was live. */
  lemma ImageOkIff(h: Heap, core: Core, layout: BuddyLinks.Layout, headers: Headers, words: Words, heads: seq<nat>)
    requires HeapOk(h, core, layout) && Physical(layout) && Imaged(h, headers, words) && UpHeads(h.heads, heads)
    ensures HeapOk(UpHeap(h, headers, words, heads), core, DmapLayout(layout)) <==> NoOverAligned(h.live)
  {
    hide Matches, PagesOk, ListsOk, SmallOk, LargeOk, Backed, Imaged, UpHeads;
    UpMatches(core, layout);
    UpPagesOk(h, core, layout, headers, words);
    UpListsOk(h, core, layout, headers, words, heads);
    UpSmallOk(h.slabs, h.live);
    UpLargeOk(h, core, layout, headers, words);
    UpBacked(h, core, layout);
  }

  // ---------------------------------------------------------------- backing words

  /** The words before the over-aligned objects, as memory holds them. */
  function Backing(words: Words, live: map<nat, Object>): map<nat, nat> {
    map a | a in live && OverAligned(live[a]) && a >= WORD && a - WORD in words :: words[a - WORD]
  }

  /** Where they should lead. */
  function Bases(live: map<nat, Object>): map<nat, nat> {
    map a | a in live && OverAligned(live[a]) :: live[a].base
  }

  lemma BackingIs(h: Heap, core: Core, layout: BuddyLinks.Layout)
    requires HeapOk(h, core, layout)
    ensures Backing(h.words, h.live) == Bases(h.live)
  {
    hide LiveIn, Matches, SmallOk, PagesOk, ListsOk, Backed;
    forall a | a in h.live && OverAligned(h.live[a])
        ensures a >= WORD && a - WORD in h.words && h.words[a - WORD] == h.live[a].base {
      assert LargeAt(h.words, a, h.live[a]);
      LargeFits(h.words, a, h.live[a]);
    }
  }

  lemma BasesSmall(live: map<nat, Object>, a: nat, o: Object)
    requires a !in live && o.Small?
    ensures Bases(live[a := o]) == Bases(live)
  {
  }

  lemma BasesLarge(live: map<nat, Object>, a: nat, o: Object)
    requires a !in live && o.Large?
    ensures Bases(live[a := o]) == if OverAligned(o) then Bases(live)[a := o.base] else Bases(live)
  {
  }

  lemma BasesDrop(live: map<nat, Object>, a: nat)
    ensures Bases(live - {a}) == Bases(live) - {a}
    ensures a in live && live[a].Small? ==> Bases(live - {a}) == Bases(live)
  {
  }

  /** After the switch the backing words still hold what they held. */
  lemma BackingUp(h: Heap, core: Core, layout: BuddyLinks.Layout, headers: Headers, words: Words)
    requires HeapOk(h, core, layout) && Imaged(h, headers, words)
    ensures Backing(words, UpLive(h.live)) == UpBacking(Backing(h.words, h.live), Backing(h.words, h.live).Keys)
  {
    hide Shift, Up, UpLive, HeapOk, LiveIn, UpWords;
    var old', new' := Backing(h.words, h.live), Backing(words, UpLive(h.live));
    var up := UpBacking(old', old'.Keys);
    forall b | b in new' ensures b in up && up[b] == new'[b] {
      var a := FromUpLive(h.live, b);
      BackingWord(h, core, layout, words, headers, a);
      UpBackingAt(old', old'.Keys, a);
    }
    forall b | b in up ensures b in new' {
      var a := ShiftFrom(UpWords(old', old'.Keys), b);
      UpWordsKeys(old', old'.Keys, a);
      UpLiveAt(h.live, a);
      BackingWord(h, core, layout, words, headers, a);
    }
  }

  lemma UpWordsKeys(m: map<nat, nat>, stale: set<nat>, a: nat)
    requires a in UpWords(m, stale)
    ensures a in m
  {
  }

  lemma BackingWord(h: Heap, core: Core, layout: BuddyLinks.Layout, words: Words, headers: Headers, a: nat)
    requires HeapOk(h, core, layout) && Imaged(h, headers, words) && a in h.live && OverAligned(h.live[a])
    ensures a in Backing(h.words, h.live) && Up(a) >= WORD && Up(a) - WORD in words
    ensures words[Up(a) - WORD] == Backing(h.words, h.live)[a]
  {
    hide LiveIn, Matches, SmallOk, PagesOk, ListsOk, Backed, PageImaged;
    assert LargeAt(h.words, a, h.live[a]);
    LargeFits(h.words, a, h.live[a]);
    assert WordSeen(h.words, words, a - WORD);
    assert Up(a) - WORD == Up(a - WORD);
  }
}
