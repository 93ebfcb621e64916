/** The direct map: physical address `a` is also seen at `a | DMAP_START`. */
module BuddyDmap {
  import opened BuddyTiling
  import opened BuddyCore
  import opened BuddyLinks

  const VA_LIMIT: nat := 0x1_0000_0000_0000
  const DMAP_START: nat := 0xFFFF_0000_0000_0000

  predicate IsKernelAddress(a: nat) {
    (a / VA_LIMIT) % 2 == 1
  }

  function PhysToDmap(a: nat): nat {
    if IsKernelAddress(a) then a else DMAP_START + a % VA_LIMIT
  }

  /** Null stays null. */
  function ToDmap(a: nat): nat {
    if a == 0 then 0 else PhysToDmap(a)
  }

  /** A 48-bit physical address moves to the top of the address space, null stays, and what has moved stays there. */
  lemma PhysicalToDmap(a: nat)
    requires a < 0x1_0000_0000_0000
    ensures ToDmap(a) == if a == 0 then 0 else 0xFFFF_0000_0000_0000 + a
    ensures ToDmap(a) == 0 <==> a == 0
    ensures ToDmap(ToDmap(a)) == ToDmap(a)
  {
    assert a / VA_LIMIT == 0 && (DMAP_START + a) / VA_LIMIT == 0xFFFF;
  }

  /** Where memory at physical address `a` is seen. */
  function Up(a: nat): nat { DMAP_START + a }

  /** The same memory at its direct-map addresses. */
  function Shift<V>(m: map<nat, V>): map<nat, V> {
    map p | p in m :: Up(p) := m[p]
  }

  lemma UpInjective(a: nat, b: nat)
    ensures Up(a) == Up(b) <==> a == b
  {
  }

  lemma ShiftAt<V>(m: map<nat, V>, p: nat)
    ensures Up(p) in Shift(m) <==> p in m
    ensures p in m ==> Shift(m)[Up(p)] == m[p]
  {
  }

  lemma ShiftFrom<V>(m: map<nat, V>, q: nat) returns (p: nat)
    requires q in Shift(m)
    ensures p in m && q == Up(p) && Shift(m)[q] == m[p]
  {
    p :| p in m && q == Up(p);
  }

  /** The switch takes an address where its memory is seen, unless the address is null. */
  lemma ToDmapIff(a: nat)
    requires a < VA_LIMIT
    ensures ToDmap(a) == Up(a) <==> a != 0
  {
    PhysicalToDmap(a);
  }

  function DmapRegion(r: Region): Region {
    Region(Up(r.metaBase), Up(r.zonePtr), Up(r.dataBase), r.pages)
  }

  /** Where the zones are seen after the switch. */
  function DmapLayout(layout: Layout): (r: Layout)
    ensures |r| == |layout| && forall z :: 0 <= z < |layout| ==> r[z] == DmapRegion(layout[z])
  {
    seq(|layout|, z requires 0 <= z < |layout| => DmapRegion(layout[z]))
  }

  function DmapNode(n: FreeBlock): FreeBlock {
    FreeBlock(ToDmap(n.next), ToDmap(n.prev), ToDmap(n.zone), n.pageIndex)
  }

  /** Every zone lies in the 48-bit physical address space. */
  ghost predicate Physical(layout: Layout) {
    forall z :: 0 <= z < |layout| ==> layout[z].End() <= VA_LIMIT
  }

  /** No zone's metadata begins at address zero. */
  ghost predicate NoneAtZero(layout: Layout) {
    forall z :: 0 <= z < |layout| ==> layout[z].metaBase != 0
  }

  /** Of a zone's three addresses only that of its metadata can be null, and then it is lost. */
  lemma RegionToDmap(r: Region)
    requires r.Valid() && r.End() <= VA_LIMIT
    ensures ToDmap(r.zonePtr) == Up(r.zonePtr) && ToDmap(r.dataBase) == Up(r.dataBase)
    ensures ToDmap(r.metaBase) == Up(r.metaBase) <==> r.metaBase != 0
    ensures DmapRegion(r).Valid() && DmapRegion(r).End() == Up(r.End())
  {
    ToDmapIff(r.metaBase);
    ToDmapIff(r.zonePtr);
    ToDmapIff(r.dataBase);
  }

  lemma ZoneToDmap(layout: Layout, z: nat)
    requires LayoutOk(layout) && Physical(layout) && z < |layout|
    ensures var r := layout[z];
            && ToDmap(r.zonePtr) == Up(r.zonePtr) && ToDmap(r.dataBase) == Up(r.dataBase)
            && (ToDmap(r.metaBase) == Up(r.metaBase) <==> r.metaBase != 0)
  {
    RegionToDmap(layout[z]);
  }

  lemma LayoutToDmap(layout: Layout)
    requires LayoutOk(layout) && Physical(layout)
    ensures LayoutOk(DmapLayout(layout))
  {
    forall z | 0 <= z < |layout|
      ensures DmapLayout(layout)[z].Valid() && DmapLayout(layout)[z].End() == Up(layout[z].End())
      ensures DmapLayout(layout)[z].metaBase == Up(layout[z].metaBase)
    {
      RegionToDmap(layout[z]);
    }
  }

  /** The address of a block after the switch is the direct-map image of its address before. */
  lemma AddrToDmap(layout: Layout, b: Block)
    requires LayoutOk(layout) && Physical(layout) && InRange(layout, b)
    ensures InRange(DmapLayout(layout), b)
    ensures 0 < Addr(layout, b) < VA_LIMIT
    ensures Addr(DmapLayout(layout), b) == ToDmap(Addr(layout, b)) == Up(Addr(layout, b))
  {
    AddrInjective(layout, b, b);
    assert layout[b.zone].End() <= VA_LIMIT;
    ToDmapIff(Addr(layout, b));
  }

  lemma AddrAtToDmap(layout: Layout, l: seq<Block>, i: int)
    requires LayoutOk(layout) && Physical(layout)
    ensures AddrAt(layout, l, i) < VA_LIMIT
    ensures AddrAt(DmapLayout(layout), l, i) == ToDmap(AddrAt(layout, l, i))
  {
    if 0 <= i < |l| && InRange(layout, l[i]) { AddrToDmap(layout, l[i]); }
  }

  // ---------------------------------------------------------------- the lists, half way

  /** The header of `b`, seen through the direct map: rewritten or as it was. */
  predicate NodeSeen(was: Nodes, now: Nodes, layout: Layout, b: Block, rewritten: bool)
    requires InRange(layout, b) && Addr(layout, b) in was
  {
    var a := Addr(layout, b);
    Up(a) in now && now[Up(a)] == if rewritten then DmapNode(was[a]) else was[a]
  }

  /** Exactly the headers of `done` have been rewritten in place. */
  ghost predicate NodesRewriting(was: Nodes, now: Nodes, layout: Layout, done: set<Block>) {
    forall b :: InRange(layout, b) && Addr(layout, b) in was ==> NodeSeen(was, now, layout, b, b in done)
  }

  lemma StartNodes(was: Nodes, layout: Layout)
    ensures NodesRewriting(was, Shift(was), layout, {})
  {
    hide Shift, Up;
    forall b | InRange(layout, b) && Addr(layout, b) in was ensures NodeSeen(was, Shift(was), layout, b, false) {
      ShiftAt(was, Addr(layout, b));
    }
  }

  lemma RewriteOne(was: Nodes, now: Nodes, layout: Layout, done: set<Block>, b: Block)
    requires LayoutOk(layout) && NodesRewriting(was, now, layout, done) && InRange(layout, b) && Addr(layout, b) in was
    ensures NodesRewriting(was, now[Up(Addr(layout, b)) := DmapNode(was[Addr(layout, b)])], layout, done + {b})
  {
    hide DmapNode, LayoutOk, Addr, Up;
    var now' := now[Up(Addr(layout, b)) := DmapNode(was[Addr(layout, b)])];
    forall g | InRange(layout, g) && Addr(layout, g) in was ensures NodeSeen(was, now', layout, g, g in done + {b}) {
      assert NodeSeen(was, now, layout, g, g in done);
      AddrInjective(layout, b, g);
      UpInjective(Addr(layout, b), Addr(layout, g));
    }
  }

  /** A header of a list as it reads before it is rewritten. */
  lemma ListHeader(was: Nodes, now: Nodes, head: nat, layout: Layout, l: seq<Block>, n: nat, done: set<Block>)
    requires LayoutOk(layout) && Physical(layout) && ListLinked(was, head, layout, l)
               && NodesRewriting(was, now, layout, done)
    requires n < |l| && l[n] !in done
    ensures var a := AddrAt(layout, l, n);
            && InRange(layout, l[n]) && a == Addr(layout, l[n]) && a in was && a != 0
            && ToDmap(a) == Up(a) && Up(a) in now && now[Up(a)] == was[a]
            && was[a].next == AddrAt(layout, l, n + 1)
  {
    assert NodeOk(was, layout, l, n);
    AddrToDmap(layout, l[n]);
    assert NodeSeen(was, now, layout, l[n], false);
  }

  /** A list whose headers are all rewritten is the image of the old list, in the same order. */
  lemma ListToDmap(was: Nodes, now: Nodes, head: nat, layout: Layout, l: seq<Block>, done: set<Block>)
    requires LayoutOk(layout) && Physical(layout) && ListLinked(was, head, layout, l)
    requires NodesRewriting(was, now, layout, done) && forall b :: b in l ==> b in done
    ensures ListLinked(now, ToDmap(head), DmapLayout(layout), l)
  {
    AddrAtToDmap(layout, l, 0);
    forall i | 0 <= i < |l| ensures NodeOk(now, DmapLayout(layout), l, i) {
      NodeToDmap(was, now, layout, l, i, done);
    }
  }

  lemma NodeToDmap(was: Nodes, now: Nodes, layout: Layout, l: seq<Block>, i: nat, done: set<Block>)
    requires LayoutOk(layout) && Physical(layout) && i < |l| && NodeOk(was, layout, l, i)
    requires NodesRewriting(was, now, layout, done) && l[i] in done
    ensures NodeOk(now, DmapLayout(layout), l, i)
  {
    hide AddrAt, Addr, ToDmap, LayoutOk, Physical;
    AddrToDmap(layout, l[i]);
    AddrAtToDmap(layout, l, i - 1);
    AddrAtToDmap(layout, l, i + 1);
    assert NodeSeen(was, now, layout, l[i], true);
    ZoneOfBlock(layout, l[i]);
  }

  lemma ZoneOfBlock(layout: Layout, b: Block)
    requires LayoutOk(layout) && Physical(layout) && InRange(layout, b)
    ensures DmapLayout(layout)[b.zone].zonePtr == ToDmap(layout[b.zone].zonePtr)
  {
    RegionToDmap(layout[b.zone]);
  }

  // ---------------------------------------------------------------- simulation

  /** What a client asks of the allocator, and by which address. */
  datatype Call = AllocCall(order: nat) | FreeCall(addr: nat)

  ghost predicate Names(layout: Layout, addr: nat, b: Block) {
    InRange(layout, b) && addr == Addr(layout, b)
  }

  /** The metadata addresses that the zone records hold. */
  type Records = seq<nat>

  /** The records of zones that are where they were added. */
  function TrueRecords(layout: Layout): (r: Records)
    ensures |r| == |layout| && forall z :: 0 <= z < |layout| ==> r[z] == layout[z].metaBase
  {
    seq(|layout|, z requires 0 <= z < |layout| => layout[z].metaBase)
  }

  /** The records after the switch. */
  function DmapRecords(layout: Layout): (r: Records)
    ensures |r| == |layout| && forall z :: 0 <= z < |layout| ==> r[z] == ToDmap(layout[z].metaBase)
  {
    seq(|layout|, z requires 0 <= z < |layout| => ToDmap(layout[z].metaBase))
  }

  /** The zone record leads to the zone's metadata. */
  predicate Found(layout: Layout, records: Records, z: nat) {
    z < |layout| && z < |records| && records[z] == layout[z].metaBase
  }

  /**
   * The state after a call and the address it returns (null for a free), as the
   * allocator's contracts say. Both kinds of call use the metadata of the
   * block's zone, so its record must lead there.
   */
  ghost predicate Serves(c: Core, layout: Layout, records: Records, call: Call, c': Core, result: nat) {
    Ok(c) &&
    match call
    case AllocCall(t) =>
      && c' == Alloc(c, t).0
      && (match Alloc(c, t).1
          case None => result == 0
          case Some(b) => Names(layout, result, b) && Found(layout, records, b.zone))
    case FreeCall(addr) =>
      && result == 0
      && exists b, k: nat ::
          Names(layout, addr, b) && Found(layout, records, b.zone) && IsLiveBlock(c, b, k) && c' == Free(c, b, k)
  }

  /**
   * The call uses the metadata of a zone that begins at address zero: that of the first block
   * on the list it takes from, or of the block freed.
   */
  ghost predicate UsesZero(c: Core, layout: Layout, call: Call) {
    Ok(c) &&
    match call
    case AllocCall(t) =>
      && t < MAX_ORDER && FirstOrder(c.lists, t) < MAX_ORDER
      && var b := c.lists[FirstOrder(c.lists, t)][0]; InRange(layout, b) && layout[b.zone].metaBase == 0
    case FreeCall(addr) => exists b :: Names(layout, addr, b) && layout[b.zone].metaBase == 0
  }

  /** An allocation takes the head of the first list that is not empty. */
  lemma TakesHead(c: Core, t: nat)
    requires Ok(c)
    ensures Alloc(c, t).1.Some? <==> t < MAX_ORDER && FirstOrder(c.lists, t) < MAX_ORDER
    ensures Alloc(c, t).1.Some? ==> Alloc(c, t).1.value == c.lists[FirstOrder(c.lists, t)][0]
  {
    hide Ok;
  }

  lemma ZeroNotUsed(c: Core, layout: Layout, call: Call)
    requires NoneAtZero(layout)
    ensures !UsesZero(c, layout, call)
  {
    hide Ok, Alloc;
  }

  function DmapCall(call: Call): Call {
    match call
    case AllocCall(t) => call
    case FreeCall(a) => FreeCall(ToDmap(a))
  }

  /** Only one state and result can follow a call. */
  lemma ServesUnique(c: Core, layout: Layout, records: Records, call: Call, d: Core, x: nat, e: Core, y: nat)
    requires LayoutOk(layout) && Serves(c, layout, records, call, d, x) && Serves(c, layout, records, call, e, y)
    ensures d == e && x == y
  {
    hide LayoutOk, Free, Ok, Alloc;
    if call.FreeCall? {
      var b, j: nat :| Names(layout, call.addr, b) && IsLiveBlock(c, b, j) && d == Free(c, b, j);
      var g, k: nat :| Names(layout, call.addr, g) && IsLiveBlock(c, g, k) && e == Free(c, g, k);
      AddrInjective(layout, b, g);
      OneOrder(c, b, j, k);
    }
  }

  lemma OneOrder(c: Core, b: Block, j: nat, k: nat)
    requires IsLiveBlock(c, b, j) && IsLiveBlock(c, b, k)
    ensures j == k
  {
  }

  lemma FoundAfter(layout: Layout, z: nat)
    requires LayoutOk(layout) && Physical(layout) && z < |layout|
    ensures Found(DmapLayout(layout), DmapRecords(layout), z) <==> layout[z].metaBase != 0
  {
    RegionToDmap(layout[z]);
  }

  /** A block has the same number under both layouts. */
  lemma NamesToDmap(layout: Layout, a: nat, b: Block, g: Block)
    requires LayoutOk(layout) && Physical(layout) && Names(layout, a, b) && Names(DmapLayout(layout), ToDmap(a), g)
    ensures g == b
  {
    hide LayoutOk, Physical;
    AddrToDmap(layout, b);
    assert InRange(layout, g);
    AddrToDmap(layout, g);
    UpInjective(Addr(layout, b), Addr(layout, g));
    AddrInjective(layout, b, g);
  }

  /** After the switch a call returns the image of what it would have returned, just when it uses no zone at zero. */
  lemma ServesToDmap(c: Core, layout: Layout, call: Call, c': Core, result: nat)
    requires LayoutOk(layout) && Physical(layout) && Serves(c, layout, TrueRecords(layout), call, c', result)
    ensures Serves(c, DmapLayout(layout), DmapRecords(layout), DmapCall(call), c', ToDmap(result)) <==>
              !UsesZero(c, layout, call)
  {
    hide LayoutOk, Physical, ToDmap, Free, Alloc, Ok;
    match call
    case AllocCall(t) =>
      TakesHead(c, t);
      if Alloc(c, t).1.Some? {
        AddrToDmap(layout, Alloc(c, t).1.value);
        FoundAfter(layout, Alloc(c, t).1.value.zone);
      } else {
        NullToDmap();
      }
    case FreeCall(addr) =>
      NullToDmap();
      FreeToDmap(c, layout, addr, c');
  }

  lemma NullToDmap()
    ensures ToDmap(0) == 0
  {
  }

  lemma FreeToDmap(c: Core, layout: Layout, addr: nat, c': Core)
    requires LayoutOk(layout) && Physical(layout) && Serves(c, layout, TrueRecords(layout), FreeCall(addr), c', 0)
    ensures Serves(c, DmapLayout(layout), DmapRecords(layout), FreeCall(ToDmap(addr)), c', 0) <==>
              !UsesZero(c, layout, FreeCall(addr))
  {
    hide LayoutOk, Physical, ToDmap, Free, Ok;
    var b, k: nat :| Names(layout, addr, b) && IsLiveBlock(c, b, k) && c' == Free(c, b, k);
    AddrToDmap(layout, b);
    FoundAfter(layout, b.zone);
    assert Names(DmapLayout(layout), ToDmap(addr), b);
    forall g | Names(layout, addr, g) ensures g == b { AddrInjective(layout, b, g); }
    forall g | Names(DmapLayout(layout), ToDmap(addr), g) ensures g == b { NamesToDmap(layout, addr, b, g); }
  }

  /** A run: the state before each call and after the last. */
  ghost predicate ServesAll(states: seq<Core>, layout: Layout, records: Records, calls: seq<Call>, results: seq<nat>) {
    && |states| == |calls| + 1 && |results| == |calls|
    && forall i :: 0 <= i < |calls| ==> Serves(states[i], layout, records, calls[i], states[i + 1], results[i])
  }

  function DmapCalls(calls: seq<Call>): (r: seq<Call>)
    ensures |r| == |calls| && forall i :: 0 <= i < |calls| ==> r[i] == DmapCall(calls[i])
  {
    seq(|calls|, i requires 0 <= i < |calls| => DmapCall(calls[i]))
  }

  function DmapAddrs(addrs: seq<nat>): (r: seq<nat>)
    ensures |r| == |addrs| && forall i :: 0 <= i < |addrs| ==> r[i] == ToDmap(addrs[i])
  {
    seq(|addrs|, i requires 0 <= i < |addrs| => ToDmap(addrs[i]))
  }

  /**
   * After the switch a run returns the images of what it would have returned, just when no
   * call uses a zone at zero.
   */
  lemma SwitchSimulatesIff(states: seq<Core>, layout: Layout, calls: seq<Call>, results: seq<nat>)
    requires LayoutOk(layout) && Physical(layout) && ServesAll(states, layout, TrueRecords(layout), calls, results)
    ensures ServesAll(states, DmapLayout(layout), DmapRecords(layout), DmapCalls(calls), DmapAddrs(results))
       <==> forall i :: 0 <= i < |calls| ==> !UsesZero(states[i], layout, calls[i])
  {
    hide LayoutOk, Physical, Serves, UsesZero, DmapLayout, DmapRecords, TrueRecords, DmapCall, ToDmap;
    forall i | 0 <= i < |calls|
      ensures Serves(states[i], DmapLayout(layout), DmapRecords(layout), DmapCalls(calls)[i], states[i + 1],
                DmapAddrs(results)[i])
         <==> !UsesZero(states[i], layout, calls[i])
    {
      ServesToDmap(states[i], layout, calls[i], states[i + 1], results[i]);
    }
    if ServesAll(states, DmapLayout(layout), DmapRecords(layout), DmapCalls(calls), DmapAddrs(results)) {
      forall i | 0 <= i < |calls| ensures !UsesZero(states[i], layout, calls[i]) {
        assert Serves(states[i], DmapLayout(layout), DmapRecords(layout), DmapCalls(calls)[i], states[i + 1],
            DmapAddrs(results)[i]);
      }
    }
  }

  /** With no zone at zero, every run does. */
  lemma SwitchSimulates(states: seq<Core>, layout: Layout, calls: seq<Call>, results: seq<nat>)
    requires LayoutOk(layout) && Physical(layout) && ServesAll(states, layout, TrueRecords(layout), calls, results)
    requires NoneAtZero(layout)
    ensures ServesAll(states, DmapLayout(layout), DmapRecords(layout), DmapCalls(calls), DmapAddrs(results))
  {
    SwitchSimulatesIff(states, layout, calls, results);
  }
}
