/** Size classes, the objects of a slab page, and what the slab allocator's memory must look like. */
module SlabHeap {
  import opened Wrappers
  import opened Alignment
  import opened BuddyCore
  import opened BuddyLinks
  import opened BuddyClient
  import SlabLists

  const CLASSES: nat := 9
  const CLASS_SIZES: seq<nat> := [8, 16, 32, 64, 128, 256, 512, 1024, 2048]
  const HEADER_SIZE: nat := 32
  const WORD: nat := 8

  function AlignUp(x: nat, a: nat): nat
    requires a > 0
  {
    (x + a - 1) / a * a
  }

  function StartOff(i: nat): nat
    requires i < CLASSES
  {
    AlignUp(HEADER_SIZE, CLASS_SIZES[i])
  }

  function Cap(i: nat): nat
    requires i < CLASSES
  {
    (PAGE_SIZE - StartOff(i)) / CLASS_SIZES[i]
  }

  /** The numbers behind the nine classes. */
  lemma ClassFacts(i: nat)
    requires i < CLASSES
    ensures var size := CLASS_SIZES[i];
            && WORD <= size && StartOff(i) >= HEADER_SIZE && StartOff(i) >= size
            && StartOff(i) % size == 0 && PAGE_SIZE % size == 0
            && 7 <= Cap(i) <= 2044 && StartOff(i) + Cap(i) * size <= PAGE_SIZE
  {
  }

  /** The objects of class i have 2^(i+3) bytes. */
  lemma ClassSize(i: nat)
    requires i < CLASSES
    ensures CLASS_SIZES[i] == Pow2(i + 3)
  {
    assert Pow2(3) == 8 && Pow2(4) == 16 && Pow2(5) == 32 && Pow2(6) == 64 && Pow2(7) == 128;
    assert Pow2(8) == 256 && Pow2(9) == 512 && Pow2(10) == 1024 && Pow2(11) == 2048;
  }

  /**
   * The first object stands at the first multiple of its size behind the 32 bytes of the
   * header, the others follow without a gap, and one more would pass the end of the page.
   */
  lemma SlotsFill(p: nat, i: nat, j: nat)
    requires i < CLASSES
    ensures var size := Pow2(i + 3);
            && Slot(p, i, 0) == p + (if size < 32 then 32 else size)
            && Slot(p, i, j + 1) == Slot(p, i, j) + size
            && Slot(p, i, Cap(i)) <= p + 16384 < Slot(p, i, Cap(i)) + size
  {
    ClassSize(i);
    hide Pow2;
    var size := CLASS_SIZES[i];
    assert StartOff(i) == if size < 32 then 32 else size;
    hide StartOff;
    assert Cap(i) * size <= PAGE_SIZE - StartOff(i) < Cap(i) * size + size;
    assert (j + 1) * size == j * size + size;
  }

  /** The class of a request is the smallest that holds its size and its alignment. */
  predicate OfClass(l: Layout, i: nat) {
    && i < 9 && l.size <= Pow2(i + 3) && l.align <= Pow2(i + 3)
    && (i > 0 ==> l.size > Pow2(i + 2) || l.align > Pow2(i + 2))
  }

  lemma ClassIs(l: Layout, i: nat)
    ensures ClassFrom(l.Need(), 0) == Some(i) <==> OfClass(l, i)
    ensures ClassFrom(l.Need(), 0).None? <==> l.size > 2048 || l.align > 2048
  {
    assert Pow2(3) == 8 && Pow2(4) == 16 && Pow2(5) == 32 && Pow2(6) == 64 && Pow2(7) == 128;
    assert Pow2(8) == 256 && Pow2(9) == 512 && Pow2(10) == 1024 && Pow2(11) == 2048;
    ClassFromSteps(l.Need());
  }

  lemma ClassFromSteps(n: nat)
    ensures ClassFrom(n, 0) ==
      if n <= 8 then Some(0) else if n <= 16 then Some(1) else if n <= 32 then Some(2) else if n <= 64 then Some(3)
      else if n <= 128 then Some(4) else if n <= 256 then Some(5) else if n <= 512 then Some(6)
      else if n <= 1024 then Some(7) else if n <= 2048 then Some(8) else None
  {
    assert ClassFrom(n, 8) == if n <= 2048 then Some(8) else None;
    assert ClassFrom(n, 6) == if n <= 512 then Some(6) else if n <= 1024 then Some(7) else ClassFrom(n, 8);
    assert ClassFrom(n, 4) == if n <= 128 then Some(4) else if n <= 256 then Some(5) else ClassFrom(n, 6);
    assert ClassFrom(n, 2) == if n <= 32 then Some(2) else if n <= 64 then Some(3) else ClassFrom(n, 4);
  }

  function ClassFrom(size: nat, i: nat): Option<nat>
    requires i <= CLASSES
    decreases CLASSES - i
  {
    if i == CLASSES then None else if size <= CLASS_SIZES[i] then Some(i) else ClassFrom(size, i + 1)
  }

  /** The smallest class that holds `size` bytes. */
  method SizeClassIndex(size: nat) returns (r: Option<nat>)
    ensures r == ClassFrom(size, 0)
    ensures r.None? <==> size > 2048
    ensures r.Some? ==>
              && r.value < CLASSES && size <= CLASS_SIZES[r.value]
              && forall j :: 0 <= j < r.value ==> CLASS_SIZES[j] < size
  {
    for i := 0 to CLASSES
      invariant ClassFrom(size, 0) == ClassFrom(size, i)
      invariant forall j :: 0 <= j < i ==> CLASS_SIZES[j] < size
    {
      if size <= CLASS_SIZES[i] { return Some(i); }
    }
    return None;
  }

  // ---------------------------------------------------------------- objects of a page

  /** The j-th object of a page of class i. */
  function Slot(p: nat, i: nat, j: nat): nat
    requires i < CLASSES
  {
    p + StartOff(i) + j * CLASS_SIZES[i]
  }

  lemma TimesGap(n: nat, a: nat, b: nat)
    requires a < b
    ensures a * n + n <= b * n
  {
    var d := b - a - 1;
    assert b * n == (a + 1 + d) * n == a * n + n + d * n;
  }

  /** Objects lie behind the header, inside the page, and apart from each other. */
  lemma SlotFits(p: nat, i: nat, j: nat)
    requires i < CLASSES && j < Cap(i)
    ensures p + HEADER_SIZE <= Slot(p, i, j) && Slot(p, i, j) + CLASS_SIZES[i] <= p + PAGE_SIZE
  {
    ClassFacts(i);
    TimesGap(CLASS_SIZES[i], j, Cap(i));
  }

  lemma SlotsApart(p: nat, i: nat, j: nat, k: nat)
    requires i < CLASSES && j < k
    ensures Slot(p, i, j) + CLASS_SIZES[i] <= Slot(p, i, k)
  {
    TimesGap(CLASS_SIZES[i], j, k);
  }

  lemma SlotInjective(p: nat, i: nat, j: nat, k: nat)
    requires i < CLASSES && Slot(p, i, j) == Slot(p, i, k)
    ensures j == k
  {
    ClassFacts(i);
    if j < k { SlotsApart(p, i, j, k); }
    if k < j { SlotsApart(p, i, k, j); }
  }

  /** An object is aligned to its class size when the page is aligned. */
  lemma SlotAligned(p: nat, i: nat, j: nat)
    requires i < CLASSES && p % PAGE_SIZE == 0
    ensures Slot(p, i, j) % CLASS_SIZES[i] == 0
  {
    ClassFacts(i);
    var n := CLASS_SIZES[i];
    var a, b, c := PAGE_SIZE / n, p / PAGE_SIZE, StartOff(i) / n;
    assert PAGE_SIZE == n * a && p == PAGE_SIZE * b && StartOff(i) == n * c;
    assert p == n * (a * b);
    assert Slot(p, i, j) == n * (a * b + c + j);
    MultipleMod(n, a * b + c + j);
  }

  lemma {:induction false} MultipleMod(n: nat, q: nat)
    requires n > 0
    ensures (n * q) % n == 0
  {
    if q > 0 {
      MultipleMod(n, q - 1);
      assert n * q == n * (q - 1) + n;
      AddModulus(n * (q - 1), n);
    }
  }

  lemma AddModulus(x: nat, n: nat)
    requires n > 0
    ensures (x + n) % n == x % n
  {
    var q, r := x / n, x % n;
    assert x + n == n * (q + 1) + r;
    DivModOf(x + n, n, q + 1, r);
  }

  lemma DivModOf(x: nat, n: nat, q: nat, r: nat)
    requires n > 0 && r < n && x == n * q + r
    ensures x % n == r
  {
    var q', r' := x / n, x % n;
    assert x == n * q' + r';
    if q < q' { TimesGap(n, q, q'); }
    if q' < q { TimesGap(n, q', q); }
  }

  /** The page of an object is found by rounding its address down. */
  lemma SlotPage(p: nat, i: nat, j: nat)
    requires i < CLASSES && j < Cap(i) && p % PAGE_SIZE == 0
    ensures Slot(p, i, j) - Slot(p, i, j) % PAGE_SIZE == p
  {
    SlotFits(p, i, j);
    ClassFacts(i);
  }

  // ---------------------------------------------------------------- memory

  type Words = map<nat, nat>

  /** A page of one class and its free objects, in the order of its free list. */
  datatype Slab = Slab(cls: nat, free: seq<nat>)

  /** A request: size in bytes and power-of-two alignment. */
  datatype Layout = Layout(size: nat, align: nat) {
    function Need(): nat { if size >= align then size else align }
  }

  /** A live allocation: the j-th object of a slab page, or a block of its own. */
  datatype Object = Small(layout: Layout, page: nat, index: nat) | Large(layout: Layout, base: nat, order: nat)

  function SlotAt(p: nat, s: Slab, k: int): nat
    requires s.cls < CLASSES
  {
    if 0 <= k < |s.free| then Slot(p, s.cls, s.free[k]) else 0
  }

  /** The free objects of a page, chained through their first words. */
  ghost predicate Chained(words: Words, p: nat, s: Slab)
    requires s.cls < CLASSES
  {
    forall k :: 0 <= k < |s.free| ==>
      s.free[k] < Cap(s.cls) && SlotAt(p, s, k) in words && words[SlotAt(p, s, k)] == SlotAt(p, s, k + 1)
  }

  ghost predicate PageOk(headers: SlabLists.Headers, words: Words, p: nat, s: Slab) {
    && s.cls < CLASSES && p % PAGE_SIZE == 0 && p != 0 && p in headers
    && headers[p].sizeClass == s.cls && headers[p].freeCount == |s.free| < Cap(s.cls)
    && headers[p].freeList == SlotAt(p, s, 0)
    && NoDup(s.free) && Chained(words, p, s)
    && (s.free == [] ==> headers[p].next == 0 && headers[p].prev == 0)
  }

  ghost predicate PagesOk(headers: SlabLists.Headers, words: Words, slabs: map<nat, Slab>) {
    forall p :: p in slabs ==> PageOk(headers, words, p, slabs[p])
  }

  /** Page p is of class i and has a free object (it is never completely free). */
  ghost predicate Partial(slabs: map<nat, Slab>, i: nat, p: nat) {
    p in slabs && slabs[p].cls == i && slabs[p].free != []
  }

  /** Each class has a list of exactly its pages that have a free object. */
  ghost predicate ListsOk(headers: SlabLists.Headers, heads: seq<nat>, plists: seq<seq<nat>>, slabs: map<nat, Slab>) {
    && |heads| == CLASSES && |plists| == CLASSES
    && (forall i :: 0 <= i < CLASSES ==> SlabLists.ListOk(headers, heads[i], plists[i]))
    && (forall i: nat, p: nat :: i < CLASSES ==> (p in plists[i] <==> Partial(slabs, i, p)))
  }

  /** Small objects are exactly the slots that are not free. */
  ghost predicate SmallOk(slabs: map<nat, Slab>, live: map<nat, Object>) {
    && (forall a :: a in live && live[a].Small? ==> SmallAt(slabs, a, live[a]))
    && (forall p, j :: p in slabs && slabs[p].cls < CLASSES && 0 <= j < Cap(slabs[p].cls) && j !in slabs[p].free ==>
          LiveSlot(slabs, live, p, j))
  }

  ghost predicate SmallAt(slabs: map<nat, Slab>, a: nat, o: Object)
    requires o.Small?
  {
    && o.page in slabs && slabs[o.page].cls < CLASSES
    && ClassFrom(o.layout.Need(), 0) == Some(slabs[o.page].cls)
    && o.index < Cap(slabs[o.page].cls) && o.index !in slabs[o.page].free
    && a == Slot(o.page, slabs[o.page].cls, o.index)
  }

  ghost predicate LiveSlot(slabs: map<nat, Slab>, live: map<nat, Object>, p: nat, j: nat)
    requires p in slabs && slabs[p].cls < CLASSES
  {
    var a := Slot(p, slabs[p].cls, j);
    a in live && live[a].Small? && live[a].page == p && live[a].index == j
  }

  /** Bytes a large request needs: over-aligned ones leave room for the alignment and the backing pointer. */
  function LargeBytes(l: Layout): nat {
    if l.align <= PAGE_SIZE then l.Need() else l.Need() + l.align + WORD
  }

  function CeilLog2(n: nat): (k: nat)
    ensures n <= Pow2(k) && (k > 0 ==> Pow2(k - 1) < n)
  {
    if n <= 1 then 0 else 1 + CeilLog2((n + 1) / 2)
  }

  function LargeOrder(l: Layout): nat {
    CeilLog2((LargeBytes(l) + PAGE_SIZE - 1) / PAGE_SIZE)
  }

  /**
   * 2^k pages hold a large request: its size and its alignment, and for an alignment
   * beyond a page also the way to the next multiple and the backing word.
   */
  predicate BlockHolds(l: Layout, k: nat) {
    if l.align <= 16384 then l.size <= Pow2(k) * 16384 && l.align <= Pow2(k) * 16384
    else l.size + l.align + 8 <= Pow2(k) * 16384 && l.align + l.align + 8 <= Pow2(k) * 16384
  }

  /** The order asked for is the smallest that holds the request. */
  lemma LargeOrderLeast(l: Layout, k: nat)
    ensures BlockHolds(l, k) <==> LargeOrder(l) <= k
  {
    HoldsBytes(l, k);
    var bytes := LargeBytes(l);
    hide Pow2, CeilLog2, BlockHolds, LargeBytes;
    PagesHold(bytes, Pow2(k));
    OrderHolds((bytes + PAGE_SIZE - 1) / PAGE_SIZE, k);
  }

  lemma HoldsBytes(l: Layout, k: nat)
    ensures BlockHolds(l, k) <==> LargeBytes(l) <= Pow2(k) * PAGE_SIZE
  {
    hide Pow2;
  }

  lemma PagesHold(bytes: nat, n: nat)
    ensures bytes <= n * PAGE_SIZE <==> (bytes + PAGE_SIZE - 1) / PAGE_SIZE <= n
  {
  }

  lemma OrderHolds(n: nat, k: nat)
    ensures n <= Pow2(k) <==> CeilLog2(n) <= k
  {
    hide Pow2, CeilLog2;
    var order := CeilLog2(n);
    if order <= k { Pow2Monotone(order, k); } else { Pow2Monotone(k, order - 1); }
  }

  /** A large object fills a block of its own; an over-aligned one keeps the block's address in the word before it. */
  ghost predicate LargeAt(words: Words, a: nat, o: Object)
    requires o.Large?
  {
    && ClassFrom(o.layout.Need(), 0) == None && o.layout.align > 0 && o.order == LargeOrder(o.layout)
    && (if o.layout.align <= PAGE_SIZE then a == o.base
        else a == AlignUp(o.base + WORD, o.layout.align) && a - WORD in words && words[a - WORD] == o.base)
  }

  ghost predicate LargeOk(words: Words, live: map<nat, Object>, slabs: map<nat, Slab>) {
    && (forall a :: a in live && live[a].Large? ==> LargeAt(words, a, live[a]) && live[a].base !in slabs)
    && (forall a, b :: a in live && b in live && live[a].Large? && live[b].Large? && live[a].base == live[b].base ==>
        a == b)
  }

  /** All the memory in use comes from blocks that the page allocator has handed out. */
  ghost predicate Backed(core: Core, layout: BuddyLinks.Layout, slabs: map<nat, Slab>, live: map<nat, Object>) {
    && (forall p :: p in slabs ==> LiveIn(core, layout, p, 0))
    && (forall a :: a in live && live[a].Large? ==> LiveIn(core, layout, live[a].base, live[a].order))
  }

  // ---------------------------------------------------------------- what the invariant means

  lemma AlignUpBounds(x: nat, a: nat)
    requires a > 0
    ensures x <= AlignUp(x, a) < x + a && AlignUp(x, a) % a == 0
  {
    var q := (x + a - 1) / a;
    var r := (x + a - 1) % a;
    assert x + a - 1 == a * q + r;
    assert AlignUp(x, a) == a * q;
    MultipleMod(a, q);
  }

  /** A large object lies inside its block, aligned, behind its backing word. */
  lemma LargeFits(words: Words, a: nat, o: Object)
    requires o.Large? && LargeAt(words, a, o)
    ensures o.base <= a < o.base + Bytes(o.order) && a + o.layout.size <= o.base + Bytes(o.order)
    ensures o.layout.align > PAGE_SIZE ==> a % o.layout.align == 0 && o.base + WORD <= a
  {
    var l := o.layout;
    var pages := (LargeBytes(l) + PAGE_SIZE - 1) / PAGE_SIZE;
    assert LargeBytes(l) <= pages * PAGE_SIZE;
    assert pages <= Pow2(o.order);
    assert pages * PAGE_SIZE <= Bytes(o.order);
    if l.align > PAGE_SIZE { AlignUpBounds(o.base + WORD, l.align); }
    assert l.Need() > 0;
  }

  lemma SmallFits(slabs: map<nat, Slab>, a: nat, o: Object)
    requires o.Small? && SmallAt(slabs, a, o)
    ensures a + o.layout.size <= a + CLASS_SIZES[slabs[o.page].cls]
    ensures o.page + HEADER_SIZE <= a && a + CLASS_SIZES[slabs[o.page].cls] <= o.page + PAGE_SIZE
  {
    SlotFits(o.page, slabs[o.page].cls, o.index);
    ClassFits(o.layout.Need(), 0);
  }

  lemma {:induction false} ClassFits(size: nat, i: nat)
    requires i <= CLASSES
    ensures ClassFrom(size, i).Some? ==>
              ClassFrom(size, i).value < CLASSES && size <= CLASS_SIZES[ClassFrom(size, i).value]
    decreases CLASSES - i
  {
    if i < CLASSES && size > CLASS_SIZES[i] { ClassFits(size, i + 1); }
  }
}
