/**
 * The slab allocator as a machine over its pages and objects: what each call
 * does exactly, and that seen through the direct map it does the same.
 */
module SlabMachine {
  import opened Wrappers
  import opened BuddyCore
  import opened BuddyLinks
  import opened BuddyDmap
  import opened SlabHeap
  import opened SlabOps

  /** The outcome of a request: an address, a null pointer, or the allocator's out-of-memory panic. */
  datatype AllocOutcome = Allocated(addr: nat) | Null | OutOfMemory

  /** The pages and objects, and for each over-aligned object the word before it, which names its block. */
  datatype Slabs = Slabs(plists: seq<seq<nat>>, slabs: map<nat, Slab>, live: map<nat, Object>, backing: map<nat, nat>)

  /** A large object that keeps its block's address in the word before it. */
  predicate OverAligned(o: Object) {
    o.Large? && o.layout.align > PAGE_SIZE
  }

  // ---------------------------------------------------------------- what the calls do

  predicate CanTake(s: Slabs, i: nat) {
    i < |s.plists| && i < CLASSES && s.plists[i] != [] && s.plists[i][0] in s.slabs
        && s.slabs[s.plists[i][0]].free != []
  }

  function TakenAddr(s: Slabs, i: nat): nat
    requires CanTake(s, i)
  {
    Slot(s.plists[i][0], i, s.slabs[s.plists[i][0]].free[0])
  }

  /** The first free object of the first page on the list. A page with none left leaves the list. */
  function Taken(s: Slabs, i: nat, l: SlabHeap.Layout): Slabs
    requires CanTake(s, i)
  {
    var p := s.plists[i][0];
    var free := s.slabs[p].free;
    Slabs(if |free| == 1 then s.plists[i := s.plists[i][1..]] else s.plists,
          s.slabs[p := Slab(i, free[1..])],
          s.live[TakenAddr(s, i) := Small(l, p, free[0])],
          s.backing)
  }

  /** A new page, first on the list, with its first object taken. */
  function Opened(s: Slabs, i: nat, l: SlabHeap.Layout, page: nat): Slabs
    requires i < |s.plists| && i < CLASSES && Cap(i) >= 1
  {
    Slabs(s.plists[i := [page] + s.plists[i]],
          s.slabs[page := Slab(i, AllButFirst(Cap(i)))],
          s.live[Slot(page, i, 0) := Small(l, page, 0)],
          s.backing)
  }

  function LargeAddr(l: SlabHeap.Layout, base: nat): nat
    requires l.align > 0
  {
    if l.align <= PAGE_SIZE then base else AlignUp(base + WORD, l.align)
  }

  function Lent(s: Slabs, l: SlabHeap.Layout, base: nat): Slabs
    requires l.align > 0
  {
    var a := LargeAddr(l, base);
    s.(live := s.live[a := Large(l, base, LargeOrder(l))], backing := if l.align > PAGE_SIZE then s.backing[a := base]
        else s.backing)
  }

  predicate IsSmall(s: Slabs, a: nat) {
    && a in s.live && s.live[a].Small? && s.live[a].page in s.slabs
    && s.slabs[s.live[a].page].cls < CLASSES && s.slabs[s.live[a].page].cls < |s.plists|
  }

  /** Freeing the object leaves its page without live objects. */
  predicate Empties(s: Slabs, a: nat)
    requires IsSmall(s, a)
  {
    var slab := s.slabs[s.live[a].page];
    |slab.free| + 1 == Cap(slab.cls)
  }

  /** The object back at the front of its page's free list. An emptied page goes, one that was full joins its list. */
  function Put(s: Slabs, a: nat): Slabs
    requires IsSmall(s, a)
  {
    var p := s.live[a].page;
    var slab := s.slabs[p];
    var i := slab.cls;
    if Empties(s, a) then Slabs(s.plists[i := Without(s.plists[i], p)], s.slabs - {p}, s.live - {a}, s.backing)
    else Slabs(if slab.free == [] then s.plists[i := [p] + s.plists[i]] else s.plists,
               s.slabs[p := Slab(i, [s.live[a].index] + slab.free)], s.live - {a}, s.backing)
  }

  predicate IsLarge(s: Slabs, a: nat) {
    a in s.live && s.live[a].Large? && (OverAligned(s.live[a]) ==> a in s.backing)
  }

  /** The address freed for a large object: its own, or what the word before it holds. */
  function FreedAddr(s: Slabs, a: nat): nat
    requires IsLarge(s, a)
  {
    if OverAligned(s.live[a]) then s.backing[a] else a
  }

  function Dropped(s: Slabs, a: nat): Slabs {
    s.(live := s.live - {a}, backing := s.backing - {a})
  }

  datatype SlabCall = Request(layout: SlabHeap.Layout) | Release(addr: nat)

  /** One call, with the page allocator in states `c` before and `c'` after. What is lent was not lent before. */
  ghost predicate SlabServes(s: Slabs, c: Core, layout: BuddyLinks.Layout, records: Records, call: SlabCall, s': Slabs,
      c': Core, r: AllocOutcome) {
    match call
    case Request(l) =>
      && l.align > 0 && (r.Allocated? ==> r.addr !in s.live)
      && (match ClassFrom(l.Need(), 0)
          case Some(i) => if CanTake(s, i) then s' == Taken(s, i, l) && c' == c && r == Allocated(TakenAddr(s, i))
                          else exists page :: ServesOpen(s, c, layout, records, i, l, page, s', c', r)
          case None => exists base :: ServesLarge(s, c, layout, records, l, base, s', c', r))
    case Release(a) =>
      r == Null &&
      if IsSmall(s, a)
          then s' == Put(s, a) && (if Empties(s, a) then Serves(c, layout, records, FreeCall(s.live[a].page), c', 0)
          else c' == c)
      else IsLarge(s, a) && s' == Dropped(s, a) && Serves(c, layout, records, FreeCall(FreedAddr(s, a)), c', 0)
  }

  ghost predicate ServesOpen(s: Slabs, c: Core, layout: BuddyLinks.Layout, records: Records, i: nat, l: SlabHeap.Layout,
      page: nat, s': Slabs, c': Core, r: AllocOutcome) {
    && i < |s.plists| && i < CLASSES && Cap(i) >= 1
    && Serves(c, layout, records, AllocCall(0), c', page)
    && (if page == 0 then s' == s && r == OutOfMemory
        else s' == Opened(s, i, l, page) && r == Allocated(Slot(page, i, 0)))
  }

  ghost predicate ServesLarge(s: Slabs, c: Core, layout: BuddyLinks.Layout, records: Records, l: SlabHeap.Layout,
      base: nat, s': Slabs, c': Core, r: AllocOutcome) {
    && l.align > 0
    && Serves(c, layout, records, AllocCall(LargeOrder(l)), c', base)
    && (if base == 0 then s' == s && r == Null else s' == Lent(s, l, base) && r == Allocated(LargeAddr(l, base)))
  }

  /** Only one state and result can follow a call. */
  lemma SlabServesUnique(s: Slabs, c: Core, layout: BuddyLinks.Layout, records: Records, call: SlabCall, t: Slabs,
      d: Core, x: AllocOutcome, u: Slabs, e: Core, y: AllocOutcome)
    requires LayoutOk(layout) && SlabServes(s, c, layout, records, call, t, d, x)
               && SlabServes(s, c, layout, records, call, u, e, y)
    ensures t == u && d == e && x == y
  {
    hide LayoutOk, Serves, Taken, Opened, Lent, Put, CanTake, Slot, Cap, ClassFrom, LargeAddr, LargeOrder, IsSmall;
    hide Empties;
    match call
    case Request(l) =>
      match ClassFrom(l.Need(), 0) {
        case Some(i) =>
          if !CanTake(s, i) {
            var p :| ServesOpen(s, c, layout, records, i, l, p, t, d, x);
            var q :| ServesOpen(s, c, layout, records, i, l, q, u, e, y);
            ServesUnique(c, layout, records, AllocCall(0), d, p, e, q);
          }
        case None =>
          var p :| ServesLarge(s, c, layout, records, l, p, t, d, x);
          var q :| ServesLarge(s, c, layout, records, l, q, u, e, y);
          ServesUnique(c, layout, records, AllocCall(LargeOrder(l)), d, p, e, q);
      }
    case Release(a) =>
      if IsSmall(s, a) {
        SmallObject(s, a);
        if Empties(s, a) { ServesUnique(c, layout, records, FreeCall(s.live[a].page), d, 0, e, 0); }
      } else {
        ServesUnique(c, layout, records, FreeCall(FreedAddr(s, a)), d, 0, e, 0);
      }
  }

  /** Exactly the over-aligned live objects have a backing word. */
  ghost predicate BackingOk(s: Slabs) {
    forall a :: a in s.backing <==> a in s.live && OverAligned(s.live[a])
  }

  lemma StepBacking(s: Slabs, c: Core, layout: BuddyLinks.Layout, records: Records, call: SlabCall, s': Slabs, c': Core,
      r: AllocOutcome)
    requires BackingOk(s) && SlabServes(s, c, layout, records, call, s', c', r)
    ensures BackingOk(s')
    ensures forall a :: a in s.backing && !(call.Release? && call.addr == a) ==> a in s'.backing
  {
    hide LargeOrder, Slot, Cap, Serves, ClassFrom, LargeAddr;
    if call.Request? {
      match ClassFrom(call.layout.Need(), 0) {
        case Some(i) =>
          if !CanTake(s, i) { var p :| ServesOpen(s, c, layout, records, i, call.layout, p, s', c', r); }
        case None => var p :| ServesLarge(s, c, layout, records, call.layout, p, s', c', r);
      }
    }
  }

  // ---------------------------------------------------------------- images

  function UpList(l: seq<nat>): (r: seq<nat>)
    ensures |r| == |l| && forall k :: 0 <= k < |l| ==> r[k] == Up(l[k])
  {
    seq(|l|, k requires 0 <= k < |l| => Up(l[k]))
  }

  function UpLists(ls: seq<seq<nat>>): (r: seq<seq<nat>>)
    ensures |r| == |ls| && forall k :: 0 <= k < |ls| ==> r[k] == UpList(ls[k])
  {
    seq(|ls|, k requires 0 <= k < |ls| => UpList(ls[k]))
  }

  lemma ShiftSet<V>(m: map<nat, V>, p: nat, v: V)
    ensures Shift(m[p := v]) == Shift(m)[Up(p) := v]
  {
    hide Shift, Up;
    var a, b := Shift(m[p := v]), Shift(m)[Up(p) := v];
    forall q | q in a ensures q in b && b[q] == a[q] {
      var x := ShiftFrom(m[p := v], q);
      ShiftAt(m, x);
      UpInjective(x, p);
    }
    forall q | q in b ensures q in a {
      if q == Up(p) { ShiftAt(m[p := v], p); } else {
        var x := ShiftFrom(m, q);
        ShiftAt(m[p := v], x);
      }
    }
  }

  lemma ShiftDrop<V>(m: map<nat, V>, p: nat)
    ensures Shift(m - {p}) == Shift(m) - {Up(p)}
  {
    hide Shift, Up;
    var a, b := Shift(m - {p}), Shift(m) - {Up(p)};
    forall q | q in a ensures q in b && b[q] == a[q] {
      var x := ShiftFrom(m - {p}, q);
      ShiftAt(m, x);
      UpInjective(x, p);
    }
    forall q | q in b ensures q in a {
      var x := ShiftFrom(m, q);
      ShiftAt(m - {p}, x);
    }
  }

  function UpObject(o: Object): Object {
    match o
    case Small(l, page, index) => Small(l, Up(page), index)
    case Large(l, base, order) => Large(l, Up(base), order)
  }

  function UpObjects(m: map<nat, Object>): map<nat, Object> {
    map a | a in m :: UpObject(m[a])
  }

  function UpLive(m: map<nat, Object>): map<nat, Object> {
    Shift(UpObjects(m))
  }

  lemma UpLiveAt(m: map<nat, Object>, a: nat)
    ensures Up(a) in UpLive(m) <==> a in m
    ensures a in m ==> UpLive(m)[Up(a)] == UpObject(m[a])
  {
    ShiftAt(UpObjects(m), a);
  }

  /** Backing words seen through the direct map: those of `stale` objects still name the physical block. */
  function UpWords(m: map<nat, nat>, stale: set<nat>): map<nat, nat> {
    map a | a in m :: if a in stale then m[a] else Up(m[a])
  }

  function UpBacking(m: map<nat, nat>, stale: set<nat>): map<nat, nat> {
    Shift(UpWords(m, stale))
  }

  lemma UpBackingAt(m: map<nat, nat>, stale: set<nat>, a: nat)
    ensures Up(a) in UpBacking(m, stale) <==> a in m
    ensures a in m ==> UpBacking(m, stale)[Up(a)] == if a in stale then m[a] else Up(m[a])
  {
    ShiftAt(UpWords(m, stale), a);
  }

  lemma UpBackingSet(m: map<nat, nat>, stale: set<nat>, a: nat, base: nat)
    requires a !in stale
    ensures UpBacking(m[a := base], stale) == UpBacking(m, stale)[Up(a) := Up(base)]
  {
    hide Up, Shift;
    assert UpWords(m[a := base], stale) == UpWords(m, stale)[a := Up(base)];
    ShiftSet(UpWords(m, stale), a, Up(base));
  }

  lemma UpBackingDrop(m: map<nat, nat>, stale: set<nat>, a: nat)
    ensures UpBacking(m - {a}, stale) == UpBacking(m, stale) - {Up(a)}
  {
    hide Up, Shift;
    assert UpWords(m - {a}, stale) == UpWords(m, stale) - {a};
    ShiftDrop(UpWords(m, stale), a);
  }

  /** The state some time after the switch, with the objects of `stale` live since before it. */
  function UpWith(s: Slabs, stale: set<nat>): Slabs {
    Slabs(UpLists(s.plists), Shift(s.slabs), UpLive(s.live), UpBacking(s.backing, stale))
  }

  /** The state right after the switch: all backing words are stale. */
  function UpAll(s: Slabs): Slabs {
    UpWith(s, s.backing.Keys)
  }

  function UpOutcome(r: AllocOutcome): AllocOutcome {
    if r.Allocated? then Allocated(Up(r.addr)) else r
  }

  function UpCall(call: SlabCall): SlabCall {
    if call.Request? then call else Release(Up(call.addr))
  }

  lemma UpLiveSet(m: map<nat, Object>, a: nat, o: Object)
    ensures UpLive(m[a := o]) == UpLive(m)[Up(a) := UpObject(o)]
  {
    assert UpObjects(m[a := o]) == UpObjects(m)[a := UpObject(o)];
    ShiftSet(UpObjects(m), a, UpObject(o));
  }

  lemma UpLiveDrop(m: map<nat, Object>, a: nat)
    ensures UpLive(m - {a}) == UpLive(m) - {Up(a)}
  {
    assert UpObjects(m - {a}) == UpObjects(m) - {a};
    ShiftDrop(UpObjects(m), a);
  }

  lemma UpListsSet(ls: seq<seq<nat>>, i: nat, l: seq<nat>)
    requires i < |ls|
    ensures UpLists(ls[i := l]) == UpLists(ls)[i := UpList(l)]
  {
  }

  lemma {:induction false} UpWithout(l: seq<nat>, p: nat)
    ensures UpList(Without(l, p)) == Without(UpList(l), Up(p))
  {
    if l != [] {
      UpWithout(l[1..], p);
      assert UpList(l)[1..] == UpList(l[1..]);
      assert UpList([l[0]] + Without(l[1..], p)) == [Up(l[0])] + UpList(Without(l[1..], p));
    }
  }

  // ---------------------------------------------------------------- the same calls on images

  lemma UpSlot(p: nat, i: nat, j: nat)
    requires i < CLASSES
    ensures Slot(Up(p), i, j) == Up(Slot(p, i, j))
  {
  }

  lemma UpTaken(s: Slabs, stale: set<nat>, i: nat, l: SlabHeap.Layout)
    ensures CanTake(UpWith(s, stale), i) <==> CanTake(s, i)
    ensures CanTake(s, i) ==>
              TakenAddr(UpWith(s, stale), i) == Up(TakenAddr(s, i))
              && Taken(UpWith(s, stale), i, l) == UpWith(Taken(s, i, l), stale)
  {
    hide Shift, UpLive, UpLists, UpBacking, Up;
    if i < |s.plists| && s.plists[i] != [] { ShiftAt(s.slabs, s.plists[i][0]); }
    if CanTake(s, i) {
      var p := s.plists[i][0];
      var free := s.slabs[p].free;
      UpSlot(p, i, free[0]);
      ShiftSet(s.slabs, p, Slab(i, free[1..]));
      UpLiveSet(s.live, TakenAddr(s, i), Small(l, p, free[0]));
      UpListsSet(s.plists, i, s.plists[i][1..]);
      assert UpList(s.plists[i])[1..] == UpList(s.plists[i][1..]);
    }
  }

  lemma UpOpened(s: Slabs, stale: set<nat>, i: nat, l: SlabHeap.Layout, page: nat)
    requires i < |s.plists| && i < CLASSES && Cap(i) >= 1
    ensures Opened(UpWith(s, stale), i, l, Up(page)) == UpWith(Opened(s, i, l, page), stale)
  {
    hide Shift, UpLive, UpLists, UpBacking, Up;
    UpSlot(page, i, 0);
    ShiftSet(s.slabs, page, Slab(i, AllButFirst(Cap(i))));
    UpLiveSet(s.live, Slot(page, i, 0), Small(l, page, 0));
    UpListsSet(s.plists, i, [page] + s.plists[i]);
    assert UpList([page] + s.plists[i]) == [Up(page)] + UpList(s.plists[i]);
  }

  /** The direct map is aligned to every alignment a physical address space can ask for. */
  lemma UpAligned(l: SlabHeap.Layout, base: nat)
    requires l.align > 0 && DMAP_START % l.align == 0
    ensures LargeAddr(l, Up(base)) == Up(LargeAddr(l, base))
  {
    if l.align > PAGE_SIZE {
      var a, x := l.align, base + WORD + l.align - 1;
      var d := DMAP_START / a;
      assert DMAP_START == a * d;
      AlignShift(x, a, d);
    }
  }

  lemma AlignShift(x: nat, a: nat, d: nat)
    requires a > 0
    ensures (a * d + x) / a * a == a * d + x / a * a
  {
    var q, r := x / a, x % a;
    assert x == a * q + r;
    assert a * d + x == a * (d + q) + r;
    QuotientOf(a * d + x, a, d + q, r);
    assert (d + q) * a == a * d + q * a;
  }

  lemma QuotientOf(x: nat, n: nat, q: nat, r: nat)
    requires n > 0 && r < n && x == n * q + r
    ensures x / n == q
  {
    DivModOf(x, n, q, r);
    assert x == n * (x / n) + x % n;
    assert n * q == n * (x / n);
    SameFactor(n, q, x / n);
  }

  lemma SameFactor(n: nat, q: nat, p: nat)
    requires n > 0 && n * q == n * p
    ensures q == p
  {
    if q < p { TimesGap(n, q, p); }
    if p < q { TimesGap(n, p, q); }
  }

  lemma UpLent(s: Slabs, stale: set<nat>, l: SlabHeap.Layout, base: nat)
    requires l.align > 0 && DMAP_START % l.align == 0 && LargeAddr(l, base) !in stale
    ensures Lent(UpWith(s, stale), l, Up(base)) == UpWith(Lent(s, l, base), stale)
  {
    hide Shift, UpLive, UpLists, UpBacking, Up, LargeAddr;
    UpAligned(l, base);
    UpLiveSet(s.live, LargeAddr(l, base), Large(l, base, LargeOrder(l)));
    UpBackingSet(s.backing, stale, LargeAddr(l, base), base);
  }

  lemma UpPut(s: Slabs, stale: set<nat>, a: nat)
    ensures IsSmall(UpWith(s, stale), Up(a)) <==> IsSmall(s, a)
    ensures IsSmall(s, a) ==>
              (Empties(UpWith(s, stale), Up(a)) <==> Empties(s, a))
              && Put(UpWith(s, stale), Up(a)) == UpWith(Put(s, a), stale)
  {
    hide Shift, UpLive, UpLists, UpBacking, Up, Cap;
    UpLiveAt(s.live, a);
    if a in s.live && s.live[a].Small? { ShiftAt(s.slabs, s.live[a].page); }
    if IsSmall(s, a) {
      var p := s.live[a].page;
      var slab := s.slabs[p];
      var i := slab.cls;
      UpLiveDrop(s.live, a);
      ShiftDrop(s.slabs, p);
      ShiftSet(s.slabs, p, Slab(i, [s.live[a].index] + slab.free));
      UpListsSet(s.plists, i, Without(s.plists[i], p));
      UpWithout(s.plists[i], p);
      UpListsSet(s.plists, i, [p] + s.plists[i]);
      assert UpList([p] + s.plists[i]) == [Up(p)] + UpList(s.plists[i]);
    }
  }

  // ---------------------------------------------------------------- one call after the switch

  lemma UpReleased(s: Slabs, stale: set<nat>, a: nat)
    ensures IsLarge(UpWith(s, stale), Up(a)) <==> IsLarge(s, a)
    ensures IsLarge(s, a) ==>
              FreedAddr(UpWith(s, stale), Up(a)) == if a in stale && OverAligned(s.live[a]) then FreedAddr(s, a)
              else Up(FreedAddr(s, a))
    ensures Dropped(UpWith(s, stale), Up(a)) == UpWith(Dropped(s, a), stale)
    ensures Up(a) in UpWith(s, stale).live <==> a in s.live
    ensures a in s.live ==> UpWith(s, stale).live[Up(a)] == UpObject(s.live[a])
  {
    hide Shift, UpLive, UpLists, UpBacking, Up;
    UpLiveAt(s.live, a);
    UpBackingAt(s.backing, stale, a);
    UpLiveDrop(s.live, a);
    UpBackingDrop(s.backing, stale, a);
  }

  /** A page allocator call that names an address it owns, under both layouts. */
  lemma UpServesAlloc(c: Core, layout: BuddyLinks.Layout, t: nat, c': Core, a: nat)
    requires LayoutOk(layout) && Physical(layout) && Serves(c, layout, TrueRecords(layout), AllocCall(t), c', a)
    ensures Serves(c, DmapLayout(layout), DmapRecords(layout), AllocCall(t), c', if a == 0 then 0 else Up(a)) <==>
              !UsesZero(c, layout, AllocCall(t))
  {
    ServesToDmap(c, layout, AllocCall(t), c', a);
    if Alloc(c, t).1.Some? { AddrToDmap(layout, Alloc(c, t).1.value); }
    NullToDmap();
  }

  lemma UpServesFree(c: Core, layout: BuddyLinks.Layout, c': Core, a: nat)
    requires LayoutOk(layout) && Physical(layout) && Serves(c, layout, TrueRecords(layout), FreeCall(a), c', 0)
    ensures Serves(c, DmapLayout(layout), DmapRecords(layout), FreeCall(Up(a)), c', 0) <==>
              !UsesZero(c, layout, FreeCall(a))
  {
    ServesToDmap(c, layout, FreeCall(a), c', 0);
    var b, k: nat :| Names(layout, a, b) && IsLiveBlock(c, b, k) && c' == Free(c, b, k);
    AddrToDmap(layout, b);
    NullToDmap();
  }

  /** A call that uses a zone at zero is not served at all after the switch. */
  lemma ZeroNotServed(c: Core, layout: BuddyLinks.Layout, call: Call, c': Core, a: nat, d: Core, x: nat)
    requires LayoutOk(layout) && Physical(layout) && Serves(c, layout, TrueRecords(layout), call, c', a)
               && UsesZero(c, layout, call)
    ensures !Serves(c, DmapLayout(layout), DmapRecords(layout), DmapCall(call), d, x)
  {
    hide LayoutOk, Physical, ToDmap, Free, Alloc, Ok;
    match call
    case AllocCall(t) =>
      TakesHead(c, t);
      FoundAfter(layout, Alloc(c, t).1.value.zone);
    case FreeCall(addr) =>
      var b :| Names(layout, addr, b) && layout[b.zone].metaBase == 0;
      FoundAfter(layout, b.zone);
      forall g | Names(DmapLayout(layout), ToDmap(addr), g) ensures g == b { NamesToDmap(layout, addr, b, g); }
  }

  /** After the switch the page allocator does not own a physical address: freeing one is refused. */
  lemma PhysicalNotOwned(c: Core, layout: BuddyLinks.Layout, records: Records, a: nat, d: Core, x: nat)
    requires a < VA_LIMIT
    ensures !Serves(c, DmapLayout(layout), records, FreeCall(a), d, x)
  {
    hide Free, Ok;
    forall b | InRange(DmapLayout(layout), b) ensures Addr(DmapLayout(layout), b) >= DMAP_START {}
  }

  /** The page allocator call a slab call makes, if it makes one. */
  function PageCall(s: Slabs, call: SlabCall): Option<Call> {
    match call
    case Request(l) =>
      (match ClassFrom(l.Need(), 0)
       case Some(i) => if CanTake(s, i) then None else Some(AllocCall(0))
       case None => Some(AllocCall(LargeOrder(l))))
    case Release(a) =>
      if IsSmall(s, a) then (if Empties(s, a) then Some(FreeCall(s.live[a].page)) else None)
      else if IsLarge(s, a) then Some(FreeCall(FreedAddr(s, a))) else None
  }

  /** The call releases an object of `stale`, or needs a zone whose metadata begins at zero. */
  ghost predicate Harmful(s: Slabs, c: Core, layout: BuddyLinks.Layout, stale: set<nat>, call: SlabCall) {
    || (call.Release? && call.addr in stale)
    || (PageCall(s, call).Some? && UsesZero(c, layout, PageCall(s, call).value))
  }

  /** Requests ask for alignments that divide the start of the direct map: any power of two up to 2^48. */
  predicate Servable(call: SlabCall) {
    call.Request? ==> call.layout.align > 0 && DMAP_START % call.layout.align == 0
  }

  /** A harmless call is served with the image of the result it would have had before the switch. */
  lemma HarmlessServed(s: Slabs, c: Core, layout: BuddyLinks.Layout, stale: set<nat>, call: SlabCall, s': Slabs,
      c': Core, r: AllocOutcome)
    requires LayoutOk(layout) && Physical(layout) && Servable(call) && stale <= s.backing.Keys && BackingOk(s)
    requires SlabServes(s, c, layout, TrueRecords(layout), call, s', c', r) && !Harmful(s, c, layout, stale, call)
    ensures SlabServes(UpWith(s, stale), c, DmapLayout(layout), DmapRecords(layout), UpCall(call), UpWith(s', stale),
              c', UpOutcome(r))
  {
    hide UpWith, Put, LayoutOk, Physical, Serves, DmapLayout, DmapRecords, TrueRecords, CanTake, IsSmall, Empties;
    hide IsLarge, FreedAddr, Dropped, ClassFrom, UsesZero, OverAligned;
    match call
    case Request(l) => HarmlessRequest(s, c, layout, stale, l, s', c', r);
    case Release(a) =>
      UpPut(s, stale, a);
      UpReleased(s, stale, a);
      if IsSmall(s, a) {
        SmallObject(s, a);
        if Empties(s, a) { UpServesFree(c, layout, c', s.live[a].page); }
      } else {
        UpServesFree(c, layout, c', FreedAddr(s, a));
      }
  }

  lemma SmallObject(s: Slabs, a: nat)
    requires IsSmall(s, a)
    ensures a in s.live && s.live[a].Small? && UpObject(s.live[a]).Small?
              && UpObject(s.live[a]).page == Up(s.live[a].page)
  {
  }

  lemma HarmlessRequest(s: Slabs, c: Core, layout: BuddyLinks.Layout, stale: set<nat>, l: SlabHeap.Layout, s': Slabs,
      c': Core, r: AllocOutcome)
    requires LayoutOk(layout) && Physical(layout) && Servable(Request(l)) && stale <= s.backing.Keys && BackingOk(s)
    requires SlabServes(s, c, layout, TrueRecords(layout), Request(l), s', c', r)
               && !Harmful(s, c, layout, stale, Request(l))
    ensures SlabServes(UpWith(s, stale), c, DmapLayout(layout), DmapRecords(layout), Request(l), UpWith(s', stale), c',
              UpOutcome(r))
  {
    hide UpWith, Taken, Opened, Lent, LayoutOk, Physical, Serves, DmapLayout, DmapRecords, TrueRecords, Cap, CanTake;
    hide LargeAddr, Slot, ClassFrom, UsesZero, BackingOk;
    if r.Allocated? {
      UpReleased(s, stale, r.addr);
      NotStale(s, stale, r.addr);
    }
    match ClassFrom(l.Need(), 0) {
      case Some(i) =>
        UpTaken(s, stale, i, l);
        if !CanTake(s, i) {
          var page :| ServesOpen(s, c, layout, TrueRecords(layout), i, l, page, s', c', r);
          UpServesAlloc(c, layout, 0, c', page);
          UpOpened(s, stale, i, l, page);
          UpShape(s, stale, i, page);
          assert ServesOpen(UpWith(s, stale), c, DmapLayout(layout), DmapRecords(layout), i, l, if page == 0 then 0
              else Up(page), UpWith(s', stale), c', UpOutcome(r));
        }
      case None =>
        var base :| ServesLarge(s, c, layout, TrueRecords(layout), l, base, s', c', r);
        UpServesAlloc(c, layout, LargeOrder(l), c', base);
        if base != 0 { UpLent(s, stale, l, base); }
        UpAligned(l, base);
        assert ServesLarge(UpWith(s, stale), c, DmapLayout(layout), DmapRecords(layout), l, if base == 0 then 0
            else Up(base), UpWith(s', stale), c', UpOutcome(r));
    }
  }

  lemma NotStale(s: Slabs, stale: set<nat>, a: nat)
    requires BackingOk(s) && stale <= s.backing.Keys && a !in s.live
    ensures a !in stale
  {
  }

  lemma UpShape(s: Slabs, stale: set<nat>, i: nat, page: nat)
    requires i < CLASSES
    ensures |UpWith(s, stale).plists| == |s.plists| && Slot(Up(page), i, 0) == Up(Slot(page, i, 0))
  {
  }

  /** A harmful call is not served at all. */
  lemma HarmfulNotServed(s: Slabs, c: Core, layout: BuddyLinks.Layout, stale: set<nat>, call: SlabCall, s': Slabs,
      c': Core, r: AllocOutcome, t: Slabs, d: Core, x: AllocOutcome)
    requires LayoutOk(layout) && Physical(layout) && stale <= s.backing.Keys && BackingOk(s)
    requires SlabServes(s, c, layout, TrueRecords(layout), call, s', c', r) && Harmful(s, c, layout, stale, call)
    ensures !SlabServes(UpWith(s, stale), c, DmapLayout(layout), DmapRecords(layout), UpCall(call), t, d, x)
  {
    hide UpWith, Put, Taken, Opened, Lent, LayoutOk, Physical, Serves, DmapLayout, DmapRecords, TrueRecords, CanTake;
    hide IsSmall, Empties, IsLarge, FreedAddr, Dropped, ClassFrom, UsesZero, Cap, LargeAddr, Slot, LargeOrder;
    match call
    case Request(l) =>
      match ClassFrom(l.Need(), 0) {
        case Some(i) =>
          UpTaken(s, stale, i, l);
          var page :| ServesOpen(s, c, layout, TrueRecords(layout), i, l, page, s', c', r);
          forall y ensures !Serves(c, DmapLayout(layout), DmapRecords(layout), AllocCall(0), d, y) {
            ZeroNotServed(c, layout, AllocCall(0), c', page, d, y);
          }
        case None =>
          var base :| ServesLarge(s, c, layout, TrueRecords(layout), l, base, s', c', r);
          forall y ensures !Serves(c, DmapLayout(layout), DmapRecords(layout), AllocCall(LargeOrder(l)), d, y) {
            ZeroNotServed(c, layout, AllocCall(LargeOrder(l)), c', base, d, y);
          }
      }
    case Release(a) => HarmfulRelease(s, c, layout, stale, a, s', c', t, d, x);
  }

  lemma HarmfulRelease(s: Slabs, c: Core, layout: BuddyLinks.Layout, stale: set<nat>, a: nat, s': Slabs, c': Core,
      t: Slabs, d: Core, x: AllocOutcome)
    requires LayoutOk(layout) && Physical(layout) && stale <= s.backing.Keys && BackingOk(s)
    requires SlabServes(s, c, layout, TrueRecords(layout), Release(a), s', c', Null)
               && Harmful(s, c, layout, stale, Release(a))
    ensures !SlabServes(UpWith(s, stale), c, DmapLayout(layout), DmapRecords(layout), Release(Up(a)), t, d, x)
  {
    hide UpWith, Put, LayoutOk, Physical, Serves, DmapLayout, DmapRecords, TrueRecords, IsSmall, Empties, IsLarge;
    hide FreedAddr, Dropped, UsesZero;
    UpPut(s, stale, a);
    UpReleased(s, stale, a);
    if IsSmall(s, a) {
      SmallObject(s, a);
      ServedPhysical(c, layout, c', s.live[a].page);
      ZeroNotServed(c, layout, FreeCall(s.live[a].page), c', 0, d, 0);
    } else {
      ServedPhysical(c, layout, c', FreedAddr(s, a));
      if a in stale {
        PhysicalNotOwned(c, layout, DmapRecords(layout), FreedAddr(s, a), d, 0);
      } else {
        ZeroNotServed(c, layout, FreeCall(FreedAddr(s, a)), c', 0, d, 0);
      }
    }
  }

  lemma ServedPhysical(c: Core, layout: BuddyLinks.Layout, c': Core, a: nat)
    requires LayoutOk(layout) && Physical(layout) && Serves(c, layout, TrueRecords(layout), FreeCall(a), c', 0)
    ensures a < VA_LIMIT && ToDmap(a) == Up(a)
  {
    var b, k: nat :| Names(layout, a, b) && IsLiveBlock(c, b, k);
    AddrToDmap(layout, b);
  }

  // ---------------------------------------------------------------- runs

  datatype Point = Point(s: Slabs, c: Core)

  ghost predicate SlabStep(p: Point, layout: BuddyLinks.Layout, records: Records, call: SlabCall, q: Point,
      r: AllocOutcome) {
    SlabServes(p.s, p.c, layout, records, call, q.s, q.c, r)
  }

  /** A run: the state before each call and after the last. */
  ghost predicate SlabRun(points: seq<Point>, layout: BuddyLinks.Layout, records: Records, calls: seq<SlabCall>,
      rs: seq<AllocOutcome>) {
    && |points| == |calls| + 1 && |rs| == |calls|
    && forall i :: 0 <= i < |calls| ==> SlabStep(points[i], layout, records, calls[i], points[i + 1], rs[i])
  }

  function UpCalls(calls: seq<SlabCall>): (r: seq<SlabCall>)
    ensures |r| == |calls| && forall i :: 0 <= i < |calls| ==> r[i] == UpCall(calls[i])
  {
    seq(|calls|, i requires 0 <= i < |calls| => UpCall(calls[i]))
  }

  function UpOutcomes(rs: seq<AllocOutcome>): (r: seq<AllocOutcome>)
    ensures |r| == |rs| && forall i :: 0 <= i < |rs| ==> r[i] == UpOutcome(rs[i])
  {
    seq(|rs|, i requires 0 <= i < |rs| => UpOutcome(rs[i]))
  }

  ghost predicate HarmfulAt(points: seq<Point>, layout: BuddyLinks.Layout, calls: seq<SlabCall>, i: nat)
    requires points != [] && i < |points| && i < |calls|
  {
    Harmful(points[i].s, points[i].c, layout, points[0].s.backing.Keys, calls[i])
  }

  /** As long as no call is harmful, the objects that were over-aligned at the switch are still live. */
  lemma {:induction false} StaleStay(points: seq<Point>, layout: BuddyLinks.Layout, calls: seq<SlabCall>,
      rs: seq<AllocOutcome>, i: nat)
    requires SlabRun(points, layout, TrueRecords(layout), calls, rs) && BackingOk(points[0].s) && i <= |calls|
    requires forall j: nat :: j < i ==> !HarmfulAt(points, layout, calls, j)
    ensures BackingOk(points[i].s) && points[0].s.backing.Keys <= points[i].s.backing.Keys
  {
    hide SlabServes, BackingOk, UsesZero, PageCall, TrueRecords;
    if i > 0 {
      StaleStay(points, layout, calls, rs, i - 1);
      assert SlabStep(points[i - 1], layout, TrueRecords(layout), calls[i - 1], points[i], rs[i - 1]);
      assert !HarmfulAt(points, layout, calls, i - 1);
      StepBacking(points[i - 1].s, points[i - 1].c, layout, TrueRecords(layout), calls[i - 1], points[i].s, points[i].c,
          rs[i - 1]);
    }
  }

  ghost function UpPoint(points: seq<Point>, i: nat): Point
    requires points != [] && i < |points|
  {
    Point(UpWith(points[i].s, points[0].s.backing.Keys), points[i].c)
  }

  /** A run after the switch that gives the images has gone through the images of the states, without a harmful call. */
  lemma {:induction false} RunFollows(points: seq<Point>, ups: seq<Point>, layout: BuddyLinks.Layout,
      calls: seq<SlabCall>, rs: seq<AllocOutcome>, i: nat)
    requires LayoutOk(layout) && Physical(layout) && i <= |calls|
               && (forall j :: 0 <= j < |calls| ==> Servable(calls[j]))
    requires SlabRun(points, layout, TrueRecords(layout), calls, rs) && BackingOk(points[0].s)
    requires SlabRun(ups, DmapLayout(layout), DmapRecords(layout), UpCalls(calls), UpOutcomes(rs))
               && ups[0] == UpPoint(points, 0)
    ensures ups[i] == UpPoint(points, i) && forall j: nat :: j < i ==> !HarmfulAt(points, layout, calls, j)
  {
    hide SlabServes, BackingOk, Harmful, TrueRecords, DmapLayout, DmapRecords, Servable, LayoutOk, Physical, UpWith;
    hide UpCall, UpOutcome;
    if i > 0 {
      var k, stale := i - 1, points[0].s.backing.Keys;
      RunFollows(points, ups, layout, calls, rs, k);
      StaleStay(points, layout, calls, rs, k);
      assert SlabStep(points[k], layout, TrueRecords(layout), calls[k], points[i], rs[k]);
      assert SlabStep(ups[k], DmapLayout(layout), DmapRecords(layout), UpCalls(calls)[k], ups[i], UpOutcomes(rs)[k]);
      if HarmfulAt(points, layout, calls, k) {
        HarmfulNotServed(points[k].s, points[k].c, layout, stale, calls[k], points[i].s, points[i].c, rs[k], ups[i].s,
            ups[i].c, UpOutcome(rs[k]));
      }
      HarmlessServed(points[k].s, points[k].c, layout, stale, calls[k], points[i].s, points[i].c, rs[k]);
      LayoutToDmap(layout);
      SlabServesUnique(ups[k].s, ups[k].c, DmapLayout(layout), DmapRecords(layout), UpCall(calls[k]), ups[i].s,
          ups[i].c, UpOutcome(rs[k]),
                       UpPoint(points, i).s, UpPoint(points, i).c, UpOutcome(rs[k]));
    }
  }

  /** From the state right after the switch, the calls are all served and give the images of their results. */
  ghost predicate ServedWithImages(points: seq<Point>, layout: BuddyLinks.Layout, calls: seq<SlabCall>,
      rs: seq<AllocOutcome>)
    requires points != []
  {
    exists ups :: SlabRun(ups, DmapLayout(layout), DmapRecords(layout), UpCalls(calls), UpOutcomes(rs))
        && ups[0] == Point(UpAll(points[0].s), points[0].c)
  }

  /**
   * After the switch a run of calls is served with the images of the results it
   * would have had, just when no call releases an object that was over-aligned
   * and live at the switch, or needs a zone whose metadata begins at zero.
   */
  lemma SlabSwitchSimulatesIff(points: seq<Point>, layout: BuddyLinks.Layout, calls: seq<SlabCall>,
      rs: seq<AllocOutcome>)
    requires LayoutOk(layout) && Physical(layout) && forall j :: 0 <= j < |calls| ==> Servable(calls[j])
    requires SlabRun(points, layout, TrueRecords(layout), calls, rs) && BackingOk(points[0].s)
    ensures ServedWithImages(points, layout, calls, rs) <==>
              forall i: nat :: i < |calls| ==> !HarmfulAt(points, layout, calls, i)
  {
    hide SlabServes, BackingOk, TrueRecords, DmapLayout, DmapRecords, Servable, LayoutOk, Physical, UpWith, UpCall;
    hide UpOutcome, Harmful;
    if ServedWithImages(points, layout, calls, rs) {
      var ups :| SlabRun(ups, DmapLayout(layout), DmapRecords(layout), UpCalls(calls), UpOutcomes(rs))
          && ups[0] == Point(UpAll(points[0].s), points[0].c);
      RunFollows(points, ups, layout, calls, rs, |calls|);
    }
    if forall i: nat :: i < |calls| ==> !HarmfulAt(points, layout, calls, i) {
      HarmlessRun(points, layout, calls, rs);
    }
  }

  lemma HarmlessRun(points: seq<Point>, layout: BuddyLinks.Layout, calls: seq<SlabCall>, rs: seq<AllocOutcome>)
    requires LayoutOk(layout) && Physical(layout) && forall j :: 0 <= j < |calls| ==> Servable(calls[j])
    requires SlabRun(points, layout, TrueRecords(layout), calls, rs) && BackingOk(points[0].s)
    requires forall i: nat :: i < |calls| ==> !HarmfulAt(points, layout, calls, i)
    ensures ServedWithImages(points, layout, calls, rs)
  {
    hide SlabServes, BackingOk, TrueRecords, DmapLayout, DmapRecords, Servable, LayoutOk, Physical, UpWith, UpCall;
    hide UpOutcome, Harmful;
    var ups := seq(|points|, i requires 0 <= i < |points| => UpPoint(points, i));
    forall i | 0 <= i < |calls|
        ensures SlabStep(ups[i], DmapLayout(layout), DmapRecords(layout), UpCalls(calls)[i], ups[i + 1],
        UpOutcomes(rs)[i]) {
      StaleStay(points, layout, calls, rs, i);
      assert SlabStep(points[i], layout, TrueRecords(layout), calls[i], points[i + 1], rs[i]);
      assert !HarmfulAt(points, layout, calls, i);
      HarmlessServed(points[i].s, points[i].c, layout, points[0].s.backing.Keys, calls[i], points[i + 1].s,
          points[i + 1].c, rs[i]);
    }
    assert SlabRun(ups, DmapLayout(layout), DmapRecords(layout), UpCalls(calls), UpOutcomes(rs))
        && ups[0] == UpPoint(points, 0);
  }

  /** With no over-aligned object live and no zone at zero, every run is. */
  lemma SlabSwitchSimulates(points: seq<Point>, layout: BuddyLinks.Layout, calls: seq<SlabCall>, rs: seq<AllocOutcome>)
    requires LayoutOk(layout) && Physical(layout) && forall j :: 0 <= j < |calls| ==> Servable(calls[j])
    requires SlabRun(points, layout, TrueRecords(layout), calls, rs) && BackingOk(points[0].s)
    requires NoneAtZero(layout) && forall a :: a in points[0].s.live ==> !OverAligned(points[0].s.live[a])
    ensures ServedWithImages(points, layout, calls, rs)
  {
    hide SlabServes, PageCall, UsesZero;
    assert points[0].s.backing.Keys == {};
    forall i: nat | i < |calls| ensures !HarmfulAt(points, layout, calls, i) {
      if PageCall(points[i].s, calls[i]).Some? {
        ZeroNotUsed(points[i].c, layout, PageCall(points[i].s, calls[i]).value);
      }
    }
    SlabSwitchSimulatesIff(points, layout, calls, rs);
  }
}
