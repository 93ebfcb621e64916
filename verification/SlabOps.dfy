/** What each slab operation does to memory, and that it keeps the allocator's invariant. */
module SlabOps {
  import opened Wrappers
  import opened BuddyCore
  import opened BuddyLinks
  import opened BuddyClient
  import opened SlabHeap
  import SlabLists

  type Headers = SlabLists.Headers

  /** Everything the slab allocator keeps, and what the page allocator has handed out. */
  datatype Heap = Heap(headers: Headers, words: Words, heads: seq<nat>, plists: seq<seq<nat>>, slabs: map<nat, Slab>,
      live: map<nat, Object>)

  ghost predicate HeapOk(h: Heap, core: Core, layout: BuddyLinks.Layout) {
    && Matches(core, layout)
    && PagesOk(h.headers, h.words, h.slabs)
    && ListsOk(h.headers, h.heads, h.plists, h.slabs)
    && SmallOk(h.slabs, h.live)
    && LargeOk(h.words, h.live, h.slabs)
    && Backed(core, layout, h.slabs, h.live)
  }

  // ---------------------------------------------------------------- frames

  ghost predicate SameWordsOutside(words: Words, words': Words, lo: nat, hi: nat) {
    forall x :: x in words && !(lo <= x < hi) ==> x in words' && words'[x] == words[x]
  }

  ghost predicate SameWordsInPage(words: Words, words': Words, q: nat) {
    forall x :: x in words && q <= x < q + PAGE_SIZE ==> x in words' && words'[x] == words[x]
  }

  lemma PageFrame(headers: Headers, headers': Headers, words: Words, words': Words, q: nat, s: Slab)
    requires PageOk(headers, words, q, s) && q in headers' && SameWordsInPage(words, words', q)
    requires headers'[q].sizeClass == headers[q].sizeClass && headers'[q].freeCount == headers[q].freeCount
               && headers'[q].freeList == headers[q].freeList
    requires s.free == [] ==> headers'[q].next == headers[q].next && headers'[q].prev == headers[q].prev
    ensures PageOk(headers', words', q, s)
  {
    forall k | 0 <= k < |s.free|
      ensures SlotAt(q, s, k) in words' && words'[SlotAt(q, s, k)] == SlotAt(q, s, k + 1)
    {
      SlotFits(q, s.cls, s.free[k]);
      ClassFacts(s.cls);
    }
  }

  /** Pages of different addresses do not overlap. */
  lemma PagesApart(p: nat, q: nat)
    requires p % PAGE_SIZE == 0 && q % PAGE_SIZE == 0 && p != q
    ensures p + PAGE_SIZE <= q || q + PAGE_SIZE <= p
  {
  }

  lemma OtherPageWords(words: Words, words': Words, p: nat, q: nat)
    requires SameWordsOutside(words, words', p, p + PAGE_SIZE) && p % PAGE_SIZE == 0 && q % PAGE_SIZE == 0 && p != q
    ensures SameWordsInPage(words, words', q)
  {
    PagesApart(p, q);
  }

  /** The backing word of an over-aligned object is not in a block other than its own. */
  lemma BackingApart(core: Core, layout: BuddyLinks.Layout, words: Words, a: nat, o: Object, base: nat, k: nat)
    requires Matches(core, layout) && o.Large? && LargeAt(words, a, o) && o.layout.align > PAGE_SIZE
    requires LiveIn(core, layout, o.base, o.order) && LiveIn(core, layout, base, k) && o.base != base
    ensures !(base <= a - WORD < base + Bytes(k))
  {
    LargeFits(words, a, o);
    LiveDisjoint(core, layout, o.base, o.order, base, k);
    ClassNone(o.layout.Need(), 0);
  }

  lemma {:induction false} ClassNone(size: nat, i: nat)
    requires i <= CLASSES && ClassFrom(size, i) == None
    ensures i < CLASSES ==> size > 2048
    decreases CLASSES - i
  {
    if i < CLASSES { ClassNone(size, i + 1); }
  }

  /** Large objects stay what they are when words change inside another block only. */
  lemma LargeFrame(core: Core, layout: BuddyLinks.Layout, words: Words, words': Words, a: nat, o: Object, base: nat,
      k: nat)
    requires Matches(core, layout) && o.Large? && LargeAt(words, a, o)
    requires LiveIn(core, layout, o.base, o.order) && LiveIn(core, layout, base, k) && o.base != base
    requires SameWordsOutside(words, words', base, base + Bytes(k))
    ensures LargeAt(words', a, o)
  {
    if o.layout.align > PAGE_SIZE { BackingApart(core, layout, words, a, o, base, k); }
  }

  // ---------------------------------------------------------------- the lists

  ghost predicate SameLinks(headers: Headers, headers': Headers, except: set<nat>) {
    forall q :: q in headers && q !in except ==>
        q in headers' && headers'[q].next == headers[q].next && headers'[q].prev == headers[q].prev
  }

  /** Nothing joins or leaves a list. */
  lemma ListsKeep(headers: Headers, headers': Headers, heads: seq<nat>, plists: seq<seq<nat>>, slabs: map<nat, Slab>,
      slabs': map<nat, Slab>)
    requires ListsOk(headers, heads, plists, slabs) && SameLinks(headers, headers', {})
    requires forall i: nat, p: nat :: Partial(slabs', i, p) <==> Partial(slabs, i, p)
    ensures ListsOk(headers', heads, plists, slabs')
  {
    forall i | 0 <= i < CLASSES ensures SlabLists.ListOk(headers', heads[i], plists[i]) {
      SlabLists.ListFrame(headers, headers', heads[i], plists[i]);
    }
  }

  lemma ListsKeepBut(headers: Headers, headers': Headers, heads: seq<nat>, plists: seq<seq<nat>>, slabs: map<nat, Slab>,
      p: nat)
    requires ListsOk(headers, heads, plists, slabs) && SameLinks(headers, headers', {p})
    requires forall j: nat :: !Partial(slabs, j, p)
    ensures ListsOk(headers', heads, plists, slabs)
  {
    forall i | 0 <= i < CLASSES ensures SlabLists.ListOk(headers', heads[i], plists[i]) {
      assert p !in plists[i];
      SlabLists.ListFrame(headers, headers', heads[i], plists[i]);
    }
  }

  lemma OnOneList(headers: Headers, heads: seq<nat>, plists: seq<seq<nat>>, slabs: map<nat, Slab>, i: nat, j: nat,
      p: nat)
    requires ListsOk(headers, heads, plists, slabs) && i < CLASSES && j < CLASSES && i != j && p in plists[i]
    ensures p !in plists[j]
  {
  }

  /** Page p leaves the list of its class. */
  lemma ListsRemove(headers: Headers, headers': Headers, heads: seq<nat>, plists: seq<seq<nat>>, slabs: map<nat, Slab>,
      slabs': map<nat, Slab>, i: nat, k: nat)
    requires ListsOk(headers, heads, plists, slabs) && i < CLASSES && k < |plists[i]|
    requires var p := plists[i][k];
             && p in headers && (headers[p].prev == 0 || headers[p].prev in headers)
             && (headers[p].next == 0 || headers[p].next in headers)
             && SameLinks(SlabLists.UnlinkHeader(headers, p), headers', {p})
             && (forall j: nat, q: nat :: Partial(slabs', j, q) <==> Partial(slabs, j, q) && q != p)
    ensures var p := plists[i][k];
            ListsOk(headers', heads[i := SlabLists.UnlinkHead(headers, p, heads[i])],
                plists[i := BuddyLinks.RemoveAt(plists[i], k)], slabs')
  {
    var p := plists[i][k];
    assert p in plists[i];
    var heads', plists' := heads[i := SlabLists.UnlinkHead(headers, p, heads[i])],
        plists[i := BuddyLinks.RemoveAt(plists[i], k)];
    SlabLists.RemoveList(headers, heads[i], plists[i], k);
    forall j | 0 <= j < CLASSES ensures SlabLists.ListOk(headers', heads'[j], plists'[j]) {
      RemoveOther(headers, heads, plists, slabs, i, k, j);
      SlabLists.ListFrame(SlabLists.UnlinkHeader(headers, p), headers', heads'[j], plists'[j]);
    }
    forall j: nat, q: nat | j < CLASSES ensures q in plists'[j] <==> Partial(slabs', j, q) {
      if j != i { OnOneList(headers, heads, plists, slabs, i, j, p); }
    }
  }

  lemma RemoveOther(headers: Headers, heads: seq<nat>, plists: seq<seq<nat>>, slabs: map<nat, Slab>, i: nat, k: nat,
      j: nat)
    requires ListsOk(headers, heads, plists, slabs) && i < CLASSES && k < |plists[i]| && j < CLASSES
    requires var p := plists[i][k];
               p in headers && (headers[p].prev == 0 || headers[p].prev in headers)
               && (headers[p].next == 0 || headers[p].next in headers)
    ensures j != i ==>
              SlabLists.ListOk(SlabLists.UnlinkHeader(headers, plists[i][k]), heads[j], plists[j])
              && plists[i][k] !in plists[j]
  {
    if j != i {
      forall q | q in plists[j] && q in headers
        ensures SlabLists.UnlinkHeader(headers, plists[i][k]).Keys == headers.Keys
                  && SlabLists.UnlinkHeader(headers, plists[i][k])[q] == headers[q]
      {
        OnOneList(headers, heads, plists, slabs, j, i, q);
        SlabLists.UnlinkTouches(headers, heads[i], plists[i], k, q);
      }
      assert plists[i][k] in plists[i];
      OnOneList(headers, heads, plists, slabs, i, j, plists[i][k]);
      SlabLists.ListFrame(headers, SlabLists.UnlinkHeader(headers, plists[i][k]), heads[j], plists[j]);
    }
  }

  /** Page p joins the front of the list of class i. */
  lemma ListsPush(headers: Headers, heads: seq<nat>, plists: seq<seq<nat>>, slabs: map<nat, Slab>,
      slabs': map<nat, Slab>, i: nat, p: nat)
    requires ListsOk(headers, heads, plists, slabs) && i < CLASSES && p in headers && p != 0
    requires forall j: nat :: !Partial(slabs, j, p)
    requires forall j: nat, q: nat :: Partial(slabs', j, q) <==> Partial(slabs, j, q) || (j == i && q == p)
    ensures (heads[i] == 0 || heads[i] in headers) && heads[i] != p
    ensures ListsOk(SlabLists.PushHeader(headers, heads[i], p), heads[i := p], plists[i := [p] + plists[i]], slabs')
  {
    SlabLists.PushList(headers, heads[i], plists[i], p);
    var headers', heads', plists' := SlabLists.PushHeader(headers, heads[i], p), heads[i := p],
        plists[i := [p] + plists[i]];
    forall j | 0 <= j < CLASSES ensures SlabLists.ListOk(headers', heads'[j], plists'[j]) {
      if j != i {
        if plists[i] != [] {
          assert plists[i][0] in plists[i];
          OnOneList(headers, heads, plists, slabs, i, j, plists[i][0]);
        }
        SlabLists.ListFrame(headers, headers', heads[j], plists[j]);
      }
    }
    forall j: nat, q: nat | j < CLASSES ensures q in plists'[j] <==> Partial(slabs', j, q) {
    }
  }

  // ---------------------------------------------------------------- objects

  /** A free object is nobody's. */
  lemma FreeSlotNotLive(h: Heap, core: Core, layout: BuddyLinks.Layout, p: nat, j: nat)
    requires HeapOk(h, core, layout) && p in h.slabs && h.slabs[p].cls < CLASSES && j < Cap(h.slabs[p].cls)
               && j in h.slabs[p].free
    ensures Slot(p, h.slabs[p].cls, j) !in h.live
  {
    var a := Slot(p, h.slabs[p].cls, j);
    assert PageOk(h.headers, h.words, p, h.slabs[p]);
    SlotFits(p, h.slabs[p].cls, j);
    ClassFacts(h.slabs[p].cls);
    if a in h.live {
      PlaceOf(h, core, layout, a, p);
      var o := h.live[a];
      if o.Small? { SlotInjective(p, h.slabs[p].cls, j, o.index); }
    }
  }

  /** A live object that starts inside slab page p is one of its small objects. */
  lemma PlaceOf(h: Heap, core: Core, layout: BuddyLinks.Layout, a: nat, p: nat)
    requires HeapOk(h, core, layout) && p in h.slabs && a in h.live && p <= a < p + PAGE_SIZE
    ensures h.live[a].Small? && h.live[a].page == p && SmallAt(h.slabs, a, h.live[a])
  {
    assert PageOk(h.headers, h.words, p, h.slabs[p]);
    var o := h.live[a];
    if o.Small? {
      assert SmallAt(h.slabs, a, o);
      assert PageOk(h.headers, h.words, o.page, h.slabs[o.page]);
      SmallFits(h.slabs, a, o);
      ClassFacts(h.slabs[o.page].cls);
      if o.page != p { PagesApart(o.page, p); }
    } else {
      assert LargeAt(h.words, a, o);
      LargeFits(h.words, a, o);
      LiveDisjoint(core, layout, o.base, o.order, p, 0);
    }
  }

  lemma SmallTake(slabs: map<nat, Slab>, live: map<nat, Object>, p: nat, l: SlabHeap.Layout)
    requires SmallOk(slabs, live) && p in slabs && slabs[p].cls < CLASSES && slabs[p].free != [] && NoDup(slabs[p].free)
    requires slabs[p].free[0] < Cap(slabs[p].cls) && ClassFrom(l.Need(), 0) == Some(slabs[p].cls)
    requires Slot(p, slabs[p].cls, slabs[p].free[0]) !in live
    ensures SmallOk(slabs[p := Slab(slabs[p].cls, slabs[p].free[1..])],
                    live[Slot(p, slabs[p].cls, slabs[p].free[0]) := Small(l, p, slabs[p].free[0])])
  {
    var s := slabs[p];
    var a := Slot(p, s.cls, s.free[0]);
    var slabs', live' := slabs[p := Slab(s.cls, s.free[1..])], live[a := Small(l, p, s.free[0])];
    forall b | b in live' && live'[b].Small? ensures SmallAt(slabs', b, live'[b]) {
      if b != a { assert SmallAt(slabs, b, live[b]); }
    }
    forall q, j | q in slabs' && slabs'[q].cls < CLASSES && 0 <= j < Cap(slabs'[q].cls) && j !in slabs'[q].free
      ensures LiveSlot(slabs', live', q, j)
    {
      if q == p && j == s.free[0] {
      } else {
        assert q == p ==> s.free == [s.free[0]] + s.free[1..];
        assert j !in slabs[q].free;
        assert LiveSlot(slabs, live, q, j);
      }
    }
  }

  lemma SmallPut(slabs: map<nat, Slab>, live: map<nat, Object>, a: nat)
    requires SmallOk(slabs, live) && a in live && live[a].Small?
    requires forall q :: q in slabs ==> q % PAGE_SIZE == 0
    ensures var p, j := live[a].page, live[a].index;
            p in slabs && SmallOk(slabs[p := Slab(slabs[p].cls, [j] + slabs[p].free)], live - {a})
  {
    assert SmallAt(slabs, a, live[a]);
    var p, j := live[a].page, live[a].index;
    var s := slabs[p];
    var slabs', live' := slabs[p := Slab(s.cls, [j] + s.free)], live - {a};
    forall b | b in live' && live'[b].Small? ensures SmallAt(slabs', b, live'[b]) {
      assert SmallAt(slabs, b, live[b]);
      if live[b].page == p { assert live[b].index != j; }
    }
    forall q, k | q in slabs' && slabs'[q].cls < CLASSES && 0 <= k < Cap(slabs'[q].cls) && k !in slabs'[q].free
      ensures LiveSlot(slabs', live', q, k)
    {
      assert k !in slabs[q].free;
      assert LiveSlot(slabs, live, q, k);
      assert q == p ==> k != j;
    }
  }

  // ---------------------------------------------------------------- taking a free object

  /** The first page of a list has a free object at the head of its free list. */
  lemma FirstPartial(h: Heap, core: Core, layout: BuddyLinks.Layout, i: nat)
    requires HeapOk(h, core, layout) && i < CLASSES && h.plists[i] != []
    ensures var p := h.plists[i][0];
            && h.heads[i] == p && p != 0 && p in h.slabs && p in h.headers && PageOk(h.headers, h.words, p, h.slabs[p])
            && h.slabs[p].cls == i && h.slabs[p].free != [] && h.headers[p].freeCount > 0
            && h.headers[p].freeList == Slot(p, i, h.slabs[p].free[0]) && h.slabs[p].free[0] < Cap(i)
            && Slot(p, i, h.slabs[p].free[0]) in h.words
            && h.words[Slot(p, i, h.slabs[p].free[0])] == SlotAt(p, h.slabs[p], 1)
            && h.headers[p].prev == 0 && (h.headers[p].next == 0
                || (h.headers[p].next in h.headers && h.headers[p].next != p))
  {
    var p := h.plists[i][0];
    assert p in h.plists[i] && Partial(h.slabs, i, p);
    assert SlabLists.ListOk(h.headers, h.heads[i], h.plists[i]);
    SlabLists.Around(h.headers, h.heads[i], h.plists[i], 0);
    assert PageOk(h.headers, h.words, p, h.slabs[p]);
    assert SlotAt(p, h.slabs[p], 0) in h.words;
  }

  /** A free list that loses its first object. */
  lemma PageTake(headers: Headers, words: Words, p: nat, s: Slab, hdr: SlabLists.Header)
    requires PageOk(headers, words, p, s) && s.free != []
    requires hdr.freeList == SlotAt(p, s, 1) && hdr.freeCount == headers[p].freeCount - 1
               && hdr.sizeClass == headers[p].sizeClass
    requires |s.free| == 1 ==> hdr.next == 0 && hdr.prev == 0
    ensures PageOk(headers[p := hdr], words, p, Slab(s.cls, s.free[1..]))
  {
    var s' := Slab(s.cls, s.free[1..]);
    forall k | 0 <= k < |s'.free|
      ensures s'.free[k] < Cap(s.cls) && SlotAt(p, s', k) in words && words[SlotAt(p, s', k)] == SlotAt(p, s', k + 1)
    {
      assert SlotAt(p, s, k + 1) in words;
      assert SlotAt(p, s', k) == SlotAt(p, s, k + 1) && SlotAt(p, s', k + 1) == SlotAt(p, s, k + 2);
    }
    assert SlotAt(p, s', 0) == SlotAt(p, s, 1);
  }

  function TakenHeader(h: Heap, p: nat): SlabLists.Header
    requires p in h.headers && p in h.slabs && h.slabs[p].cls < CLASSES && h.headers[p].freeCount > 0
  {
    h.headers[p].(freeList := SlotAt(p, h.slabs[p], 1), freeCount := h.headers[p].freeCount - 1)
  }

  ghost function TakenHeap(h: Heap, p: nat, l: SlabHeap.Layout, headers: Headers, heads: seq<nat>,
      plists: seq<seq<nat>>): Heap
    requires p in h.slabs && h.slabs[p].cls < CLASSES && h.slabs[p].free != []
  {
    var s := h.slabs[p];
    Heap(headers, h.words, heads, plists, h.slabs[p := Slab(s.cls, s.free[1..])],
         h.live[Slot(p, s.cls, s.free[0]) := Small(l, p, s.free[0])])
  }

  /** The headers of the other pages count as before, and those on no list keep their links. */
  ghost predicate OthersKept(h: Heap, p: nat, headers': Headers) {
    forall q :: q in h.slabs && q != p ==>
      && q in headers' && q in h.headers && headers'[q].freeList == h.headers[q].freeList
      && headers'[q].freeCount == h.headers[q].freeCount && headers'[q].sizeClass == h.headers[q].sizeClass
      && (h.slabs[q].free == [] ==> headers'[q].next == h.headers[q].next && headers'[q].prev == h.headers[q].prev)
  }

  /** The header of page p has one free object less, and the others count as before. */
  ghost predicate TookOne(h: Heap, p: nat, headers': Headers)
    requires p in h.slabs && h.slabs[p].cls < CLASSES
  {
    && p in headers' && headers'[p].freeList == SlotAt(p, h.slabs[p], 1)
    && headers'[p].freeCount == |h.slabs[p].free| - 1 && headers'[p].sizeClass == h.slabs[p].cls
    && (|h.slabs[p].free| == 1 ==> headers'[p].next == 0 && headers'[p].prev == 0)
    && OthersKept(h, p, headers')
  }

  /** Objects, pages and backing after a free object is taken, whatever happened to the lists. */
  lemma TakeRest(h: Heap, core: Core, layout: BuddyLinks.Layout, p: nat, l: SlabHeap.Layout, headers': Headers)
    requires HeapOk(h, core, layout) && p in h.slabs && h.slabs[p].cls < CLASSES && h.slabs[p].free != []
    requires ClassFrom(l.Need(), 0) == Some(h.slabs[p].cls)
    requires TookOne(h, p, headers')
    ensures var s := h.slabs[p]; var slabs' := h.slabs[p := Slab(s.cls, s.free[1..])];
              var live' := h.live[Slot(p, s.cls, s.free[0]) := Small(l, p, s.free[0])];
            PagesOk(headers', h.words, slabs') && SmallOk(slabs', live') && LargeOk(h.words, live', slabs')
                && Backed(core, layout, slabs', live')
  {
    hide LiveIn, Matches, ListsOk, Cap, Slot, StartOff, NoDup, ClassFrom, LargeOrder, AlignUp;
    var s := h.slabs[p];
    assert PageOk(h.headers, h.words, p, s);
    var slabs' := h.slabs[p := Slab(s.cls, s.free[1..])];
    forall q | q in slabs' ensures PageOk(headers', h.words, q, slabs'[q]) {
      if q == p {
        PageTake(h.headers, h.words, p, s, headers'[p]);
        PageFrame(h.headers[p := headers'[p]], headers', h.words, h.words, p, slabs'[p]);
      } else {
        assert PageOk(h.headers, h.words, q, h.slabs[q]);
        PageFrame(h.headers, headers', h.words, h.words, q, h.slabs[q]);
      }
    }
    FreeSlotNotLive(h, core, layout, p, s.free[0]);
    SmallTake(h.slabs, h.live, p, l);
  }

  lemma HeadersKnown(h: Heap, core: Core, layout: BuddyLinks.Layout)
    requires HeapOk(h, core, layout)
    ensures forall q :: q in h.slabs ==>
              q in h.headers && h.slabs[q].cls < CLASSES && h.headers[q].freeCount == |h.slabs[q].free|
              && h.headers[q].sizeClass == h.slabs[q].cls
    ensures |h.plists| == CLASSES && |h.heads| == CLASSES
  {
    forall q | q in h.slabs
        ensures q in h.headers && h.slabs[q].cls < CLASSES && h.headers[q].freeCount == |h.slabs[q].free|
        && h.headers[q].sizeClass == h.slabs[q].cls {
      assert PageOk(h.headers, h.words, q, h.slabs[q]);
    }
  }

  /** The page still has a free object: its list is not touched. */
  lemma TakeKeepsPartial(h: Heap, core: Core, layout: BuddyLinks.Layout, i: nat, l: SlabHeap.Layout)
    requires HeapOk(h, core, layout) && i < CLASSES && h.plists[i] != [] && ClassFrom(l.Need(), 0) == Some(i)
    requires h.plists[i][0] in h.slabs && |h.slabs[h.plists[i][0]].free| > 1
    ensures var p := h.plists[i][0];
            && p in h.headers && h.slabs[p].cls == i && h.headers[p].freeCount > 0
            && HeapOk(TakenHeap(h, p, l, h.headers[p := TakenHeader(h, p)], h.heads, h.plists), core, layout)
  {
    hide LiveIn, Matches, PagesOk, SmallOk, LargeOk, Backed, ListsOk, Cap, Slot, StartOff, PageOk, ClassFrom;
    HeadersKnown(h, core, layout);
    FirstPartial(h, core, layout, i);
    var p := h.plists[i][0];
    var headers' := h.headers[p := TakenHeader(h, p)];
    assert TookOne(h, p, headers') && SameLinks(h.headers, headers', {});
    hide TookOne, SameLinks;
    TakeRest(h, core, layout, p, l, headers');
    var slabs' := h.slabs[p := Slab(i, h.slabs[p].free[1..])];
    ListsKeep(h.headers, headers', h.heads, h.plists, h.slabs, slabs');
  }

  /** The page is exhausted: it leaves its list and its links are cleared. */
  function ExhaustedHeaders(h: Heap, p: nat): Headers
    requires p in h.headers && p in h.slabs && h.slabs[p].cls < CLASSES && h.headers[p].freeCount > 0
    requires h.headers[p].next == 0 || h.headers[p].next in h.headers
  {
    Retired(h.headers[p := TakenHeader(h, p)], p)
  }

  /** The first page of a list leaves it with its links cleared. */
  function Retired(headers: Headers, p: nat): Headers
    requires p in headers && (headers[p].next == 0 || headers[p].next in headers)
  {
    var next := headers[p].next;
    var h1 := if next == 0 then headers else headers[next := headers[next].(prev := 0)];
    h1[p := h1[p].(next := 0, prev := 0)]
  }

  lemma TakeLast(h: Heap, core: Core, layout: BuddyLinks.Layout, i: nat, l: SlabHeap.Layout)
    requires HeapOk(h, core, layout) && i < CLASSES && h.plists[i] != [] && ClassFrom(l.Need(), 0) == Some(i)
    requires h.plists[i][0] in h.slabs && |h.slabs[h.plists[i][0]].free| == 1
    ensures var p := h.plists[i][0];
            && p in h.headers && h.slabs[p].cls == i && h.headers[p].freeCount > 0
            && (h.headers[p].next == 0 || h.headers[p].next in h.headers)
            && HeapOk(TakenHeap(h, p, l, ExhaustedHeaders(h, p), h.heads[i := h.headers[p].next],
                h.plists[i := h.plists[i][1..]]), core, layout)
  {
    hide LiveIn, Matches, PagesOk, SmallOk, LargeOk, Backed, ListsOk, Cap, Slot, StartOff, PageOk, ClassFrom;
    hide ExhaustedHeaders, TookOne, SameLinks;
    HeadersKnown(h, core, layout);
    FirstPartial(h, core, layout, i);
    if h.headers[h.plists[i][0]].next != 0 { NextIsPartial(h, core, layout, i); }
    ExhaustedKeeps(h, h.plists[i][0]);
    var p := h.plists[i][0];
    var headers' := ExhaustedHeaders(h, p);
    var slabs' := h.slabs[p := Slab(i, h.slabs[p].free[1..])];
    TakeRest(h, core, layout, p, l, headers');
    ListsRemove(h.headers, headers', h.heads, h.plists, h.slabs, slabs', i, 0);
    assert BuddyLinks.RemoveAt(h.plists[i], 0) == h.plists[i][1..];
  }

  lemma ExhaustedKeeps(h: Heap, p: nat)
    requires p in h.headers && p in h.slabs && h.slabs[p].cls < CLASSES && |h.slabs[p].free| == 1
    requires h.headers[p].freeCount == 1 && h.headers[p].sizeClass == h.slabs[p].cls && h.headers[p].prev == 0
    requires forall q :: q in h.slabs ==> q in h.headers
    requires var next := h.headers[p].next;
               next == 0 || (next in h.headers && next != p && next in h.slabs && h.slabs[next].free != [])
    ensures TookOne(h, p, ExhaustedHeaders(h, p))
              && SameLinks(SlabLists.UnlinkHeader(h.headers, p), ExhaustedHeaders(h, p), {p})
  {
    hide Cap, Slot, StartOff;
  }

  lemma NextIsPartial(h: Heap, core: Core, layout: BuddyLinks.Layout, i: nat)
    requires HeapOk(h, core, layout) && i < CLASSES && h.plists[i] != [] && h.plists[i][0] in h.headers
    requires h.headers[h.plists[i][0]].next != 0
    ensures var q := h.headers[h.plists[i][0]].next; Partial(h.slabs, i, q)
  {
    assert SlabLists.ListOk(h.headers, h.heads[i], h.plists[i]);
    SlabLists.Around(h.headers, h.heads[i], h.plists[i], 0);
    assert h.plists[i][1] in h.plists[i];
  }

  // ---------------------------------------------------------------- blocks outside the heap

  /** A block the page allocator has handed out that holds no slab page and no object of the heap. */
  ghost predicate Private(h: Heap, core: Core, layout: BuddyLinks.Layout, base: nat, k: nat) {
    && LiveIn(core, layout, base, k) && base !in h.slabs
    && forall a :: a in h.live && h.live[a].Large? ==> h.live[a].base != base
  }

  /** A block that has only now been handed out is private, and the heap is not touched by that. */
  lemma HeapGranted(h: Heap, core: Core, core': Core, layout: BuddyLinks.Layout, k: nat, base: nat)
    requires HeapOk(h, core, layout) && base != 0 && Granted(core, core', layout, k, base)
    ensures HeapOk(h, core', layout) && Private(h, core', layout, base, k)
    ensures forall p, j: nat :: Private(h, core, layout, p, j) ==> p != base && Private(h, core', layout, p, j)
  {
    hide LiveIn, Matches, PagesOk, ListsOk, SmallOk, LargeOk;
  }

  /** Giving a private block back does not touch the heap either. */
  lemma HeapReturned(h: Heap, core: Core, core': Core, layout: BuddyLinks.Layout, k: nat, base: nat)
    requires HeapOk(h, core, layout) && Private(h, core, layout, base, k) && Returned(core, core', layout, base)
    ensures HeapOk(h, core', layout)
    ensures forall p, j: nat :: Private(h, core, layout, p, j) && p != base ==> Private(h, core', layout, p, j)
  {
    hide LiveIn, Matches, PagesOk, ListsOk, SmallOk, LargeOk;
  }

  /** Nothing of the heap lies in a private block. */
  lemma PrivateApart(h: Heap, core: Core, layout: BuddyLinks.Layout, k: nat, base: nat, a: nat)
    requires HeapOk(h, core, layout) && Private(h, core, layout, base, k) && a in h.live
    ensures !(base <= a < base + Bytes(k))
  {
    hide LiveIn, Matches, PagesOk, ListsOk;
    var o := h.live[a];
    if o.Small? {
      assert SmallAt(h.slabs, a, o);
      SmallFits(h.slabs, a, o);
      ClassFacts(h.slabs[o.page].cls);
      LiveDisjoint(core, layout, o.page, 0, base, k);
    } else {
      assert LargeAt(h.words, a, o);
      LargeFits(h.words, a, o);
      LiveDisjoint(core, layout, o.base, o.order, base, k);
    }
  }

  /** Pages and large objects are untouched by writes inside a private block. */
  lemma PrivateWrites(h: Heap, core: Core, layout: BuddyLinks.Layout, k: nat, base: nat, words': Words)
    requires HeapOk(h, core, layout) && Private(h, core, layout, base, k)
    requires SameWordsOutside(h.words, words', base, base + Bytes(k))
    ensures PagesOk(h.headers, words', h.slabs) && LargeOk(words', h.live, h.slabs)
  {
    hide LiveIn, Matches, ListsOk, SmallOk;
    forall q | q in h.slabs ensures PageOk(h.headers, words', q, h.slabs[q]) {
      assert PageOk(h.headers, h.words, q, h.slabs[q]);
      LiveDisjoint(core, layout, q, 0, base, k);
      PageFrame(h.headers, h.headers, h.words, words', q, h.slabs[q]);
    }
    forall a | a in h.live && h.live[a].Large? ensures LargeAt(words', a, h.live[a]) {
      LargeFrame(core, layout, h.words, words', a, h.live[a], base, k);
    }
  }

  // ---------------------------------------------------------------- a new slab page

  function AllButFirst(n: nat): (r: seq<nat>)
    requires n >= 1
    ensures |r| == n - 1 && forall k :: 0 <= k < n - 1 ==> r[k] == k + 1
  {
    seq(n - 1, k => k + 1)
  }

  /** The first word of object j holds the address of the next, or null after the last. */
  ghost predicate NextIs(words': Words, p: nat, i: nat, j: nat)
    requires i < CLASSES
  {
    Slot(p, i, j) in words' && words'[Slot(p, i, j)] == if j + 1 < Cap(i) then Slot(p, i, j + 1) else 0
  }

  /** Every object of the new page is chained to the next. */
  ghost predicate Threaded(words': Words, p: nat, i: nat)
    requires i < CLASSES
  {
    forall j :: 0 <= j < Cap(i) ==> NextIs(words', p, i, j)
  }

  lemma NewPageOk(headers: Headers, words': Words, p: nat, i: nat)
    requires i < CLASSES && Cap(i) >= 2 && p % PAGE_SIZE == 0 && p != 0 && p in headers && Threaded(words', p, i)
    requires headers[p].freeList == Slot(p, i, 1) && headers[p].freeCount == Cap(i) - 1 && headers[p].sizeClass == i
    ensures PageOk(headers, words', p, Slab(i, AllButFirst(Cap(i))))
  {
    hide Cap, Slot, StartOff;
    var s := Slab(i, AllButFirst(Cap(i)));
    assert SlotAt(p, s, 0) == Slot(p, i, 1);
    forall k | 0 <= k < |s.free|
      ensures s.free[k] < Cap(i) && SlotAt(p, s, k) in words' && words'[SlotAt(p, s, k)] == SlotAt(p, s, k + 1)
    {
      assert NextIs(words', p, i, k + 1);
      assert SlotAt(p, s, k) == Slot(p, i, k + 1);
      assert SlotAt(p, s, k + 1) == if k + 2 < Cap(i) then Slot(p, i, k + 2) else 0;
    }
  }

  lemma NewPageObjects(slabs: map<nat, Slab>, live: map<nat, Object>, p: nat, i: nat, l: SlabHeap.Layout)
    requires SmallOk(slabs, live) && p !in slabs && i < CLASSES && Cap(i) >= 2 && ClassFrom(l.Need(), 0) == Some(i)
    requires Slot(p, i, 0) !in live
    ensures SmallOk(slabs[p := Slab(i, AllButFirst(Cap(i)))], live[Slot(p, i, 0) := Small(l, p, 0)])
  {
    var slabs', live' := slabs[p := Slab(i, AllButFirst(Cap(i)))], live[Slot(p, i, 0) := Small(l, p, 0)];
    forall j | 1 <= j < Cap(i) ensures j in AllButFirst(Cap(i)) { assert AllButFirst(Cap(i))[j - 1] == j; }
    forall b | b in live' && live'[b].Small? ensures SmallAt(slabs', b, live'[b]) {
      if b != Slot(p, i, 0) { assert SmallAt(slabs, b, live[b]); }
    }
    forall q, j | q in slabs' && slabs'[q].cls < CLASSES && 0 <= j < Cap(slabs'[q].cls) && j !in slabs'[q].free
      ensures LiveSlot(slabs', live', q, j)
    {
      if q != p { assert LiveSlot(slabs, live, q, j); }
    }
  }

  function NewHeader(p: nat, i: nat): SlabLists.Header
    requires i < CLASSES && Cap(i) >= 1
  {
    SlabLists.Header(0, 0, Slot(p, i, 1), Cap(i) - 1, i)
  }

  ghost function NewHeap(h: Heap, p: nat, i: nat, l: SlabHeap.Layout, headers: Headers, words': Words): Heap
    requires i < CLASSES && Cap(i) >= 1 && |h.heads| == CLASSES && |h.plists| == CLASSES
  {
    Heap(headers, words', h.heads[i := p], h.plists[i := [p] + h.plists[i]], h.slabs[p := Slab(i, AllButFirst(Cap(i)))],
         h.live[Slot(p, i, 0) := Small(l, p, 0)])
  }

  /** A private page joins the heap with its first object taken, at the front of its list. */
  lemma AddPage(h: Heap, core: Core, layout: BuddyLinks.Layout, p: nat, i: nat, l: SlabHeap.Layout, words': Words)
    requires HeapOk(h, core, layout) && p != 0 && Private(h, core, layout, p, 0) && p % PAGE_SIZE == 0
    requires i < CLASSES && ClassFrom(l.Need(), 0) == Some(i)
    requires SameWordsOutside(h.words, words', p, p + PAGE_SIZE) && Threaded(words', p, i)
    ensures Cap(i) >= 2 && (h.heads[i] == 0 || h.heads[i] in h.headers) && h.heads[i] != p
    ensures HeapOk(NewHeap(h, p, i, l, SlabLists.PushHeader(h.headers[p := NewHeader(p, i)], h.heads[i], p), words'),
              core, layout)
  {
    hide LiveIn, Matches, PagesOk, ListsOk, SmallOk, Threaded, SameWordsOutside;
    ClassFacts(i);
    SlotFits(p, i, 0);
    forall a | a in h.live ensures a != Slot(p, i, 0) { PrivateApart(h, core, layout, 0, p, a); }
    PrivateWrites(h, core, layout, 0, p, words');
    NewPageObjects(h.slabs, h.live, p, i, l);
    var headers0 := h.headers[p := NewHeader(p, i)];
    ListsKeepBut(h.headers, headers0, h.heads, h.plists, h.slabs, p);
    var slabs' := h.slabs[p := Slab(i, AllButFirst(Cap(i)))];
    ListsPush(headers0, h.heads, h.plists, h.slabs, slabs', i, p);
    HeadKnown(h, core, layout, i);
    var headers' := SlabLists.PushHeader(headers0, h.heads[i], p);
    NewPagePages(h, headers', words', slabs', p, i);
    var live' := h.live[Slot(p, i, 0) := Small(l, p, 0)];
    assert LargeOk(words', live', slabs') && Backed(core, layout, slabs', live');
  }

  lemma HeadKnown(h: Heap, core: Core, layout: BuddyLinks.Layout, i: nat)
    requires HeapOk(h, core, layout) && i < CLASSES
    ensures h.heads[i] == 0 || (h.heads[i] in h.headers && Partial(h.slabs, i, h.heads[i]))
  {
    if h.plists[i] != [] { FirstPartial(h, core, layout, i); } else {
      assert SlabLists.ListOk(h.headers, h.heads[i], h.plists[i]);
    }
  }

  lemma NewPagePages(h: Heap, headers': Headers, words': Words, slabs': map<nat, Slab>, p: nat, i: nat)
    requires PagesOk(h.headers, words', h.slabs) && p !in h.slabs && i < CLASSES && Cap(i) >= 2 && p % PAGE_SIZE == 0
               && p != 0
    requires Threaded(words', p, i) && |h.heads| == CLASSES && h.heads[i] != p
               && slabs' == h.slabs[p := Slab(i, AllButFirst(Cap(i)))]
    requires h.heads[i] == 0 || (h.heads[i] in h.headers && Partial(h.slabs, i, h.heads[i]))
    requires headers' == SlabLists.PushHeader(h.headers[p := NewHeader(p, i)], h.heads[i], p)
    ensures PagesOk(headers', words', slabs')
  {
    forall q | q in slabs' ensures PageOk(headers', words', q, slabs'[q]) {
      if q == p {
        NewPageOk(headers', words', p, i);
      } else {
        assert PageOk(h.headers, words', q, h.slabs[q]);
        PageFrame(h.headers, headers', words', words', q, h.slabs[q]);
      }
    }
  }

  // ---------------------------------------------------------------- large objects

  /** A large object moves into a private block. */
  lemma AddLarge(h: Heap, core: Core, layout: BuddyLinks.Layout, l: SlabHeap.Layout, base: nat, a: nat, words': Words)
    requires HeapOk(h, core, layout) && Private(h, core, layout, base, LargeOrder(l))
    requires SameWordsOutside(h.words, words', base, base + Bytes(LargeOrder(l)))
    requires LargeAt(words', a, Large(l, base, LargeOrder(l)))
    ensures HeapOk(h.(words := words', live := h.live[a := Large(l, base, LargeOrder(l))]), core, layout)
              && a !in h.live
  {
    hide LiveIn, Matches, PagesOk, ListsOk, SmallOk, SameWordsOutside, LargeOrder, Cap, ClassFrom, Bytes;
    PrivateWrites(h, core, layout, LargeOrder(l), base, words');
    LargeFits(words', a, Large(l, base, LargeOrder(l)));
    forall b | b in h.live ensures a != b { PrivateApart(h, core, layout, LargeOrder(l), base, b); }
    LargeSmallOk(h.slabs, h.live, a, Large(l, base, LargeOrder(l)));
  }

  lemma LargeSmallOk(slabs: map<nat, Slab>, live: map<nat, Object>, a: nat, o: Object)
    requires SmallOk(slabs, live) && a !in live && o.Large?
    ensures SmallOk(slabs, live[a := o])
  {
    hide Cap, Slot, ClassFrom;
    var live' := live[a := o];
    forall p, j | p in slabs && slabs[p].cls < CLASSES && 0 <= j < Cap(slabs[p].cls) && j !in slabs[p].free
      ensures LiveSlot(slabs, live', p, j)
    {
      assert LiveSlot(slabs, live, p, j);
    }
  }

  /** A large object goes; its block is private then. */
  lemma DropLarge(h: Heap, core: Core, layout: BuddyLinks.Layout, a: nat)
    requires HeapOk(h, core, layout) && a in h.live && h.live[a].Large?
    ensures HeapOk(h.(live := h.live - {a}), core, layout)
    ensures Private(h.(live := h.live - {a}), core, layout, h.live[a].base, h.live[a].order)
  {
    hide LiveIn, Matches, PagesOk, ListsOk, LargeAt, Cap, Slot, StartOff, ClassFrom;
    var live' := h.live - {a};
    forall p, j | p in h.slabs && h.slabs[p].cls < CLASSES && 0 <= j < Cap(h.slabs[p].cls) && j !in h.slabs[p].free
      ensures LiveSlot(h.slabs, live', p, j)
    {
      assert LiveSlot(h.slabs, h.live, p, j);
    }
  }

  // ---------------------------------------------------------------- giving a small object back

  /** The numbers below n. */
  ghost function Upto(n: nat): (r: set<nat>)
    ensures |r| == n && forall y: nat :: y in r <==> y < n
  {
    if n == 0 then {} else Upto(n - 1) + {n - 1}
  }

  ghost function Elems(s: seq<nat>): set<nat> {
    set x | x in s
  }

  lemma {:induction false} ElemsSize(s: seq<nat>)
    requires NoDup(s)
    ensures |Elems(s)| == |s|
  {
    if s != [] {
      var t, x := s[..|s| - 1], s[|s| - 1];
      ElemsSize(t);
      assert s == t + [x] && x !in t;
      assert Elems(s) == Elems(t) + {x};
    }
  }

  lemma SubsetEqual(a: set<nat>, b: set<nat>)
    requires a <= b && |a| == |b|
    ensures a == b
  {
    assert b == a + (b - a);
  }

  /** n distinct numbers below n are all of them. */
  lemma AllPresent(s: seq<nat>, n: nat, x: nat)
    requires NoDup(s) && |s| == n && x < n && forall y :: y in s ==> y < n
    ensures x in s
  {
    ElemsSize(s);
    SubsetEqual(Elems(s), Upto(n));
    assert x in Elems(s);
  }

  function PutHeader(h: Heap, p: nat, a: nat): SlabLists.Header
    requires p in h.headers
  {
    h.headers[p].(freeList := a, freeCount := h.headers[p].freeCount + 1)
  }

  function PutSlab(h: Heap, a: nat): Slab
    requires a in h.live && h.live[a].Small? && h.live[a].page in h.slabs
  {
    Slab(h.slabs[h.live[a].page].cls, [h.live[a].index] + h.slabs[h.live[a].page].free)
  }

  /** The page of a small object. */
  lemma PageOfObject(h: Heap, core: Core, layout: BuddyLinks.Layout, a: nat)
    requires HeapOk(h, core, layout) && a in h.live && h.live[a].Small?
    ensures var p := h.live[a].page;
            && p in h.slabs && PageOk(h.headers, h.words, p, h.slabs[p]) && SmallAt(h.slabs, a, h.live[a])
            && p == a - a % PAGE_SIZE && p <= a < p + PAGE_SIZE && LiveIn(core, layout, p, 0) && a != 0
            && |h.slabs[p].free| < Cap(h.slabs[p].cls) && |h.plists| == CLASSES && |h.heads| == CLASSES
  {
    var p := h.live[a].page;
    assert SmallAt(h.slabs, a, h.live[a]);
    assert PageOk(h.headers, h.words, p, h.slabs[p]);
    SlotPage(p, h.slabs[p].cls, h.live[a].index);
    SlotFits(p, h.slabs[p].cls, h.live[a].index);
    ClassFacts(h.slabs[p].cls);
  }

  /** The free list of the page gains the object at its head. */
  lemma PagePut(headers: Headers, words: Words, p: nat, s: Slab, j: nat, hdr: SlabLists.Header)
    requires PageOk(headers, words, p, s) && j < Cap(s.cls) && j !in s.free && |s.free| + 1 < Cap(s.cls)
    requires hdr.freeList == Slot(p, s.cls, j) && hdr.freeCount == headers[p].freeCount + 1
               && hdr.sizeClass == headers[p].sizeClass
    ensures PageOk(headers[p := hdr], words[Slot(p, s.cls, j) := headers[p].freeList], p, Slab(s.cls, [j] + s.free))
  {
    var s', a := Slab(s.cls, [j] + s.free), Slot(p, s.cls, j);
    var words' := words[a := headers[p].freeList];
    NoDupPush(s.free, j);
    forall k | 0 <= k < |s'.free|
      ensures s'.free[k] < Cap(s.cls) && SlotAt(p, s', k) in words' && words'[SlotAt(p, s', k)] == SlotAt(p, s', k + 1)
    {
      if k == 0 {
        assert SlotAt(p, s', 1) == SlotAt(p, s, 0);
      } else {
        assert SlotAt(p, s, k - 1) in words;
        assert SlotAt(p, s', k) == SlotAt(p, s, k - 1) && SlotAt(p, s', k + 1) == SlotAt(p, s, k);
        if SlotAt(p, s', k) == a { SlotInjective(p, s.cls, s.free[k - 1], j); }
      }
    }
  }

  /** Everything but the lists, when the page keeps at least one live object. */
  lemma PutRest(h: Heap, core: Core, layout: BuddyLinks.Layout, a: nat, headers': Headers)
    requires HeapOk(h, core, layout) && a in h.live && h.live[a].Small? && h.live[a].page in h.slabs
               && h.live[a].page in h.headers
    requires var p := h.live[a].page;
             && h.slabs[p].cls < CLASSES && |h.slabs[p].free| + 1 < Cap(h.slabs[p].cls)
             && p in headers' && headers'[p].freeList == a && headers'[p].freeCount == |h.slabs[p].free| + 1
             && headers'[p].sizeClass == h.slabs[p].cls
             && OthersKept(h, p, headers')
    ensures var p := h.live[a].page; var slabs' := h.slabs[p := PutSlab(h, a)];
              var words' := h.words[a := h.headers[p].freeList];
            PagesOk(headers', words', slabs') && SmallOk(slabs', h.live - {a}) && LargeOk(words', h.live - {a}, slabs')
                && Backed(core, layout, slabs', h.live - {a})
  {
    hide LiveIn, Matches, ListsOk, Cap, Slot, SlotAt, Chained, StartOff, NoDup, ClassFrom, LargeOrder, AlignUp;
    PageOfObject(h, core, layout, a);
    var p := h.live[a].page;
    var slabs', words' := h.slabs[p := PutSlab(h, a)], h.words[a := h.headers[p].freeList];
    assert SameWordsOutside(h.words, words', p, p + PAGE_SIZE);
    PutPages(h, a, headers');
    assert forall q :: q in h.slabs ==> PageOk(h.headers, h.words, q, h.slabs[q]);
    SmallPut(h.slabs, h.live, a);
    forall b | b in h.live && h.live[b].Large? ensures LargeAt(words', b, h.live[b]) {
      LargeFrame(core, layout, h.words, words', b, h.live[b], p, 0);
    }
  }

  lemma PutPages(h: Heap, a: nat, headers': Headers)
    requires PagesOk(h.headers, h.words, h.slabs) && a in h.live && h.live[a].Small? && SmallAt(h.slabs, a, h.live[a])
    requires var p := h.live[a].page;
             && p in h.headers && |h.slabs[p].free| + 1 < Cap(h.slabs[p].cls) && p <= a < p + PAGE_SIZE
             && p in headers' && headers'[p].freeList == a && headers'[p].freeCount == |h.slabs[p].free| + 1
             && headers'[p].sizeClass == h.slabs[p].cls
             && OthersKept(h, p, headers')
    ensures var p := h.live[a].page;
            PagesOk(headers', h.words[a := h.headers[p].freeList], h.slabs[p := PutSlab(h, a)])
  {
    var p := h.live[a].page;
    var slabs', words' := h.slabs[p := PutSlab(h, a)], h.words[a := h.headers[p].freeList];
    assert PageOk(h.headers, h.words, p, h.slabs[p]);
    forall q | q in slabs' ensures PageOk(headers', words', q, slabs'[q]) {
      if q == p {
        PagePut(h.headers, h.words, p, h.slabs[p], h.live[a].index, headers'[p]);
        PageFrame(h.headers[p := headers'[p]], headers', words', words', p, slabs'[p]);
      } else {
        assert PageOk(h.headers, h.words, q, h.slabs[q]);
        OtherPageWords(h.words, words', p, q);
        PageFrame(h.headers, headers', h.words, words', q, h.slabs[q]);
      }
    }
  }

  ghost function PutHeap(h: Heap, a: nat, headers: Headers, heads: seq<nat>, plists: seq<seq<nat>>): Heap
    requires a in h.live && h.live[a].Small? && h.live[a].page in h.slabs && h.live[a].page in h.headers
  {
    var p := h.live[a].page;
    Heap(headers, h.words[a := h.headers[p].freeList], heads, plists, h.slabs[p := PutSlab(h, a)], h.live - {a})
  }

  /** The page was partly free and stays so. */
  lemma PutKeepsPartial(h: Heap, core: Core, layout: BuddyLinks.Layout, a: nat)
    requires HeapOk(h, core, layout) && a in h.live && h.live[a].Small?
    requires var p := h.live[a].page;
               p in h.slabs && h.slabs[p].cls < CLASSES && 0 < |h.slabs[p].free|
               && |h.slabs[p].free| + 1 < Cap(h.slabs[p].cls)
    ensures var p := h.live[a].page;
            p in h.headers && HeapOk(PutHeap(h, a, h.headers[p := PutHeader(h, p, a)], h.heads, h.plists), core, layout)
  {
    hide LiveIn, Matches, SmallOk, LargeOk, Backed, PagesOk, ListsOk, PageOk, Cap, Slot, StartOff;
    HeadersKnown(h, core, layout);
    PageOfObject(h, core, layout, a);
    var p := h.live[a].page;
    var headers' := h.headers[p := PutHeader(h, p, a)];
    PutRest(h, core, layout, a, headers');
    ListsKeep(h.headers, headers', h.heads, h.plists, h.slabs, h.slabs[p := PutSlab(h, a)]);
  }

  /** The page was full: it joins the front of its list again. */
  lemma PutReopens(h: Heap, core: Core, layout: BuddyLinks.Layout, a: nat)
    requires HeapOk(h, core, layout) && a in h.live && h.live[a].Small?
    requires var p := h.live[a].page; p in h.slabs && h.slabs[p].cls < CLASSES && h.slabs[p].free == []
    ensures var p := h.live[a].page; var i := h.slabs[p].cls;
            && p in h.headers && (h.heads[i] == 0 || h.heads[i] in h.headers) && h.heads[i] != p
            && h.headers[p].prev == 0
            && HeapOk(PutHeap(h, a, SlabLists.PushHeader(h.headers[p := PutHeader(h, p, a)], h.heads[i], p),
                h.heads[i := p], h.plists[i := [p] + h.plists[i]]), core, layout)
  {
    hide LiveIn, Matches, SmallOk, LargeOk, Backed, PagesOk, ListsOk, Cap, Slot, StartOff;
    HeadersKnown(h, core, layout);
    PageOfObject(h, core, layout, a);
    var p := h.live[a].page;
    var i := h.slabs[p].cls;
    ClassFacts(i);
    var headers0 := h.headers[p := PutHeader(h, p, a)];
    ListsKeepBut(h.headers, headers0, h.heads, h.plists, h.slabs, p);
    var slabs' := h.slabs[p := PutSlab(h, a)];
    ListsPush(headers0, h.heads, h.plists, h.slabs, slabs', i, p);
    HeadKnown(h, core, layout, i);
    var headers' := SlabLists.PushHeader(headers0, h.heads[i], p);
    PushKeeps(h, p, a, h.heads[i]);
    hide OthersKept;
    PutRest(h, core, layout, a, headers');
  }

  lemma PushKeeps(h: Heap, p: nat, a: nat, head: nat)
    requires p in h.headers && (forall q :: q in h.slabs ==> q in h.headers)
    requires head == 0 || (head in h.headers && head != p && head in h.slabs && h.slabs[head].free != [])
    requires head != p
    ensures OthersKept(h, p, SlabLists.PushHeader(h.headers[p := PutHeader(h, p, a)], head, p))
  {
  }

  /** The headers once the emptied page has been taken out of its list. */
  function EmptiedHeaders(h: Heap, p: nat, a: nat): Headers
    requires p in h.headers && (h.headers[p].prev == 0 || h.headers[p].prev in h.headers)
               && (h.headers[p].next == 0 || h.headers[p].next in h.headers)
  {
    SlabLists.UnlinkHeader(h.headers[p := PutHeader(h, p, a)], p)
  }

  ghost function EmptiedHeap(h: Heap, a: nat, headers: Headers, k: nat): Heap
    requires a in h.live && h.live[a].Small? && h.live[a].page in h.slabs && h.live[a].page in h.headers
               && h.slabs[h.live[a].page].cls < CLASSES
    requires |h.heads| == CLASSES && |h.plists| == CLASSES && k < |h.plists[h.slabs[h.live[a].page].cls]|
  {
    var p := h.live[a].page;
    var i := h.slabs[p].cls;
    Heap(headers, h.words[a := h.headers[p].freeList], h.heads[i := SlabLists.UnlinkHead(h.headers, p, h.heads[i])],
         h.plists[i := BuddyLinks.RemoveAt(h.plists[i], k)], h.slabs - {p}, h.live - {a})
  }

  /** When its last object is freed, nothing of the page is in use. */
  lemma LastObject(h: Heap, core: Core, layout: BuddyLinks.Layout, a: nat, b: nat)
    requires HeapOk(h, core, layout) && a in h.live && h.live[a].Small? && b in h.live && h.live[b].Small? && b != a
    requires h.live[a].page in h.slabs && h.slabs[h.live[a].page].cls < CLASSES
    requires |h.slabs[h.live[a].page].free| + 1 == Cap(h.slabs[h.live[a].page].cls)
    ensures h.live[b].page != h.live[a].page
  {
    hide LiveIn, Matches, ListsOk, LargeOk, Backed;
    var p := h.live[a].page;
    assert SmallAt(h.slabs, a, h.live[a]) && SmallAt(h.slabs, b, h.live[b])
        && PageOk(h.headers, h.words, p, h.slabs[p]);
    if h.live[b].page == p {
      var s := h.slabs[p];
      var all := [h.live[a].index] + s.free;
      NoDupPush(s.free, h.live[a].index);
      forall y | y in all ensures y < Cap(s.cls) {
        if y in s.free {
          var k :| 0 <= k < |s.free| && s.free[k] == y;
          assert SlotAt(p, s, k) in h.words;
        }
      }
      AllPresent(all, Cap(s.cls), h.live[b].index);
    }
  }

  /** Where the emptied page stands on its list. */
  lemma PlaceOnList(h: Heap, core: Core, layout: BuddyLinks.Layout, p: nat) returns (k: nat)
    requires HeapOk(h, core, layout) && p in h.slabs && h.slabs[p].cls < CLASSES && h.slabs[p].free != []
    ensures k < |h.plists[h.slabs[p].cls]| && h.plists[h.slabs[p].cls][k] == p && p in h.headers && p != 0
    ensures (h.headers[p].prev == 0 || (h.headers[p].prev in h.headers && h.headers[p].prev != p
              && Partial(h.slabs, h.slabs[p].cls, h.headers[p].prev)))
    ensures (h.headers[p].next == 0 || (h.headers[p].next in h.headers && h.headers[p].next != p
              && Partial(h.slabs, h.slabs[p].cls, h.headers[p].next)))
  {
    var i := h.slabs[p].cls;
    assert Partial(h.slabs, i, p);
    assert p in h.plists[i];
    k :| 0 <= k < |h.plists[i]| && h.plists[i][k] == p;
    assert SlabLists.ListOk(h.headers, h.heads[i], h.plists[i]);
    SlabLists.Around(h.headers, h.heads[i], h.plists[i], k);
    if k > 0 { assert h.plists[i][k - 1] in h.plists[i]; }
    if k + 1 < |h.plists[i]| { assert h.plists[i][k + 1] in h.plists[i]; }
  }

  lemma EmptiedObjects(h: Heap, core: Core, layout: BuddyLinks.Layout, a: nat)
    requires HeapOk(h, core, layout) && a in h.live && h.live[a].Small?
    requires h.live[a].page in h.slabs && h.slabs[h.live[a].page].cls < CLASSES
    requires |h.slabs[h.live[a].page].free| + 1 == Cap(h.slabs[h.live[a].page].cls)
    ensures SmallOk(h.slabs - {h.live[a].page}, h.live - {a})
  {
    hide LiveIn, Matches, ListsOk, LargeOk, Backed, PagesOk, Cap;
    var p := h.live[a].page;
    var slabs', live' := h.slabs - {p}, h.live - {a};
    assert SmallAt(h.slabs, a, h.live[a]);
    forall b | b in live' && live'[b].Small? ensures SmallAt(slabs', b, live'[b]) {
      assert SmallAt(h.slabs, b, h.live[b]);
      LastObject(h, core, layout, a, b);
    }
    forall q, j | q in slabs' && slabs'[q].cls < CLASSES && 0 <= j < Cap(slabs'[q].cls) && j !in slabs'[q].free
      ensures LiveSlot(slabs', live', q, j)
    {
      assert LiveSlot(h.slabs, h.live, q, j);
    }
  }

  lemma EmptiedPages(h: Heap, a: nat, headers': Headers)
    requires PagesOk(h.headers, h.words, h.slabs) && a in h.live && h.live[a].Small? && SmallAt(h.slabs, a, h.live[a])
    requires var p := h.live[a].page;
             && p in h.headers && p <= a < p + PAGE_SIZE
             && OthersKept(h, p, headers')
    ensures var p := h.live[a].page;
            PagesOk(headers', h.words[a := h.headers[p].freeList], h.slabs - {p})
  {
    var p := h.live[a].page;
    var slabs', words' := h.slabs - {p}, h.words[a := h.headers[p].freeList];
    assert PageOk(h.headers, h.words, p, h.slabs[p]);
    forall q | q in slabs' ensures PageOk(headers', words', q, slabs'[q]) {
      assert PageOk(h.headers, h.words, q, h.slabs[q]);
      OtherPageWords(h.words, words', p, q);
      PageFrame(h.headers, headers', h.words, words', q, h.slabs[q]);
    }
  }

  lemma EmptiedLarge(h: Heap, core: Core, layout: BuddyLinks.Layout, a: nat)
    requires HeapOk(h, core, layout) && a in h.live && h.live[a].Small? && h.live[a].page in h.slabs
               && h.live[a].page in h.headers
    requires h.live[a].page <= a < h.live[a].page + PAGE_SIZE
    ensures var p := h.live[a].page;
            && LargeOk(h.words[a := h.headers[p].freeList], h.live - {a}, h.slabs - {p})
            && Backed(core, layout, h.slabs - {p}, h.live - {a})
            && forall b :: b in h.live && h.live[b].Large? ==> h.live[b].base != p
  {
    hide LiveIn, Matches, ListsOk, PagesOk, SmallOk;
    var p := h.live[a].page;
    var words' := h.words[a := h.headers[p].freeList];
    assert SameWordsOutside(h.words, words', p, p + PAGE_SIZE);
    forall b | b in h.live && h.live[b].Large? ensures LargeAt(words', b, h.live[b]) && h.live[b].base != p {
      LargeFrame(core, layout, h.words, words', b, h.live[b], p, 0);
    }
  }

  /** The page gave its last object back: it leaves its list and the heap, and is private then. */
  lemma PutEmpties(h: Heap, core: Core, layout: BuddyLinks.Layout, a: nat, k: nat)
    requires HeapOk(h, core, layout) && a in h.live && h.live[a].Small?
    requires var p := h.live[a].page;
             p in h.slabs && p in h.headers && h.slabs[p].cls < CLASSES && h.slabs[p].free != []
                 && |h.slabs[p].free| + 1 == Cap(h.slabs[p].cls)
             && k < |h.plists[h.slabs[p].cls]| && h.plists[h.slabs[p].cls][k] == p
    ensures var p := h.live[a].page;
            && (h.headers[p].prev == 0 || h.headers[p].prev in h.headers)
            && (h.headers[p].next == 0 || h.headers[p].next in h.headers)
            && HeapOk(EmptiedHeap(h, a, EmptiedHeaders(h, p, a), k), core, layout)
            && Private(EmptiedHeap(h, a, EmptiedHeaders(h, p, a), k), core, layout, p, 0)
  {
    hide LiveIn, Matches, SmallOk, LargeOk, Backed, PagesOk;
    PageOfObject(h, core, layout, a);
    var p := h.live[a].page;
    var i := h.slabs[p].cls;
    var m := PlaceOnList(h, core, layout, p);
    var headers' := EmptiedHeaders(h, p, a);
    EmptiedObjects(h, core, layout, a);
    EmptiedLarge(h, core, layout, a);
    EmptiedHeadersKeep(h, core, layout, a);
    EmptiedPages(h, a, headers');
    ListsRemove(h.headers, headers', h.heads, h.plists, h.slabs, h.slabs - {p}, i, k);
  }

  lemma EmptiedHeadersKeep(h: Heap, core: Core, layout: BuddyLinks.Layout, a: nat)
    requires HeapOk(h, core, layout) && a in h.live && h.live[a].Small?
    requires var p := h.live[a].page;
               p in h.slabs && p in h.headers && h.slabs[p].cls < CLASSES && h.slabs[p].free != []
    ensures var p := h.live[a].page;
            && (h.headers[p].prev == 0 || h.headers[p].prev in h.headers)
            && (h.headers[p].next == 0 || h.headers[p].next in h.headers)
            && SameLinks(SlabLists.UnlinkHeader(h.headers, p), EmptiedHeaders(h, p, a), {p})
            && OthersKept(h, p, EmptiedHeaders(h, p, a))
  {
    hide LiveIn, Matches, SmallOk, LargeOk, Backed, ListsOk, PagesOk, SameLinks, OthersKept, EmptiedHeaders;
    var p := h.live[a].page;
    HeadersKnown(h, core, layout);
    var m := PlaceOnList(h, core, layout, p);
    hide HeapOk;
    UnlinkKeeps(h, p, a);
  }

  lemma UnlinkKeeps(h: Heap, p: nat, a: nat)
    requires p in h.headers && (forall q :: q in h.slabs ==> q in h.headers)
    requires var x := h.headers[p].prev; x == 0 || (x in h.headers && x != p && x in h.slabs && h.slabs[x].free != [])
    requires var x := h.headers[p].next; x == 0 || (x in h.headers && x != p && x in h.slabs && h.slabs[x].free != [])
    ensures SameLinks(SlabLists.UnlinkHeader(h.headers, p), EmptiedHeaders(h, p, a), {p})
              && OthersKept(h, p, EmptiedHeaders(h, p, a))
  {
  }
}
