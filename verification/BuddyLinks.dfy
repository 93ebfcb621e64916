/**
 * The intrusive doubly linked free lists. A free block's header sits in its
 * own first page; `nodes` is the memory that holds those headers.
 */
module BuddyLinks {
  import opened BuddyTiling
  import opened BuddyCore

  const PAGE_SIZE: nat := 16384
  const ZONE_SIZE: nat := 32

  datatype FreeBlock = FreeBlock(next: nat, prev: nat, zone: nat, pageIndex: nat)
  type Nodes = map<nat, FreeBlock>

  /** Where a zone lies in memory: its metadata bytes, its record, then its pages. */
  datatype Region = Region(metaBase: nat, zonePtr: nat, dataBase: nat, pages: nat) {
    predicate Valid() {
      0 < pages && 0 < zonePtr && metaBase + pages <= zonePtr && zonePtr + ZONE_SIZE <= dataBase
          && dataBase % PAGE_SIZE == 0
    }
    function End(): nat { dataBase + pages * PAGE_SIZE }
  }
  type Layout = seq<Region>

  ghost predicate LayoutOk(layout: Layout) {
    && (forall z :: 0 <= z < |layout| ==> layout[z].Valid())
    && (forall y, z :: 0 <= y < z < |layout| ==>
          layout[y].End() <= layout[z].metaBase || layout[z].End() <= layout[y].metaBase)
  }

  predicate InRange(layout: Layout, b: Block) {
    b.zone < |layout| && b.index < layout[b.zone].pages
  }

  function Addr(layout: Layout, b: Block): nat
    requires b.zone < |layout|
  {
    layout[b.zone].dataBase + b.index * PAGE_SIZE
  }

  /** Distinct pages have distinct addresses, and none is null. */
  lemma AddrInjective(layout: Layout, a: Block, b: Block)
    requires LayoutOk(layout) && InRange(layout, a) && InRange(layout, b)
    ensures Addr(layout, a) != 0
    ensures Addr(layout, a) == Addr(layout, b) ==> a == b
  {
    if a.zone < b.zone {
      assert layout[a.zone].End() <= layout[b.zone].metaBase || layout[b.zone].End() <= layout[a.zone].metaBase;
    } else if b.zone < a.zone {
      assert layout[b.zone].End() <= layout[a.zone].metaBase || layout[a.zone].End() <= layout[b.zone].metaBase;
    }
  }

  /** The address of the i-th block of a list, null outside it. */
  function AddrAt(layout: Layout, l: seq<Block>, i: int): nat {
    if 0 <= i < |l| && InRange(layout, l[i]) then Addr(layout, l[i]) else 0
  }

  function NodeFor(layout: Layout, l: seq<Block>, i: int): FreeBlock
    requires 0 <= i < |l| && InRange(layout, l[i])
  {
    FreeBlock(AddrAt(layout, l, i + 1), AddrAt(layout, l, i - 1), layout[l[i].zone].zonePtr, l[i].index)
  }

  ghost predicate NodeOk(nodes: Nodes, layout: Layout, l: seq<Block>, i: int)
    requires 0 <= i < |l|
  {
    && InRange(layout, l[i])
    && Addr(layout, l[i]) in nodes
    && nodes[Addr(layout, l[i])] == NodeFor(layout, l, i)
  }

  ghost predicate ListLinked(nodes: Nodes, head: nat, layout: Layout, l: seq<Block>) {
    && head == AddrAt(layout, l, 0)
    && forall i :: 0 <= i < |l| ==> NodeOk(nodes, layout, l, i)
  }

  /** Every free list of the machine is threaded through memory in order. */
  ghost predicate Linked(nodes: Nodes, heads: seq<nat>, layout: Layout, lists: Lists) {
    |heads| == MAX_ORDER &&
    forall k :: 0 <= k < MAX_ORDER ==> ListLinked(nodes, heads[k], layout, lists[k])
  }

  /** No block is on two lists or twice on one. */
  ghost predicate Distinct(lists: Lists) {
    && (forall k :: 0 <= k < MAX_ORDER ==> NoDup(lists[k]))
    && (forall j, k, b :: 0 <= j < k < MAX_ORDER && b in lists[j] ==> b !in lists[k])
  }

  ghost predicate Unlisted(lists: Lists, b: Block) {
    forall k :: 0 <= k < MAX_ORDER ==> b !in lists[k]
  }

  // ---------------------------------------------------------------- pushing

  /** Memory after a header for `b` is written before the old head of its list. */
  function PushNodes(nodes: Nodes, head: nat, layout: Layout, b: Block): Nodes
    requires InRange(layout, b) && (head == 0 || head in nodes)
  {
    var a := Addr(layout, b);
    var written := nodes[a := FreeBlock(head, 0, layout[b.zone].zonePtr, b.index)];
    if head == 0 then written else written[head := written[head].(prev := a)]
  }

  /** Writing headers of other blocks leaves a list threaded. */
  lemma ListUntouched(nodes: Nodes, nodes': Nodes, head: nat, layout: Layout, l: seq<Block>)
    requires ListLinked(nodes, head, layout, l)
    requires forall b :: b in l && InRange(layout, b) && Addr(layout, b) in nodes ==>
               Addr(layout, b) in nodes' && nodes'[Addr(layout, b)] == nodes[Addr(layout, b)]
    ensures ListLinked(nodes', head, layout, l)
  {
    forall i | 0 <= i < |l| ensures NodeOk(nodes', layout, l, i) {
      assert NodeOk(nodes, layout, l, i);
      assert l[i] in l;
    }
  }

  lemma PushSame(nodes: Nodes, head: nat, layout: Layout, l: seq<Block>, b: Block)
    requires LayoutOk(layout) && InRange(layout, b) && b !in l && NoDup(l)
    requires ListLinked(nodes, head, layout, l)
    ensures head == 0 || head in nodes
    ensures ListLinked(PushNodes(nodes, head, layout, b), Addr(layout, b), layout, [b] + l)
  {
    if l != [] {
      assert NodeOk(nodes, layout, l, 0);
      AddrInjective(layout, b, l[0]);
    }
    var nodes', l' := PushNodes(nodes, head, layout, b), [b] + l;
    forall i | 0 <= i < |l'| ensures NodeOk(nodes', layout, l', i) {
      if i > 0 {
        assert l'[i] == l[i - 1] && l'[i] in l;
        assert NodeOk(nodes, layout, l, i - 1);
        AddrInjective(layout, b, l[i - 1]);
        if i > 1 {
          AddrInjective(layout, l[0], l[i - 1]);
          assert l'[i - 1] == l[i - 2];
          assert NodeOk(nodes, layout, l, i - 2);
        }
        if i < |l| {
          assert l'[i + 1] == l[i];
        }
      }
    }
  }

  lemma PushOther(nodes: Nodes, layout: Layout, l: seq<Block>, b: Block, head: nat, other: seq<Block>, otherHead: nat)
    requires LayoutOk(layout) && InRange(layout, b) && b !in other
    requires ListLinked(nodes, head, layout, l) && ListLinked(nodes, otherHead, layout, other)
    requires forall x :: x in l ==> x !in other
    requires head == 0 || head in nodes
    ensures ListLinked(PushNodes(nodes, head, layout, b), otherHead, layout, other)
  {
    var nodes' := PushNodes(nodes, head, layout, b);
    forall x | x in other && InRange(layout, x) && Addr(layout, x) in nodes
      ensures Addr(layout, x) in nodes' && nodes'[Addr(layout, x)] == nodes[Addr(layout, x)]
    {
      AddrInjective(layout, b, x);
      if l != [] {
        assert NodeOk(nodes, layout, l, 0);
        assert l[0] in l;
        AddrInjective(layout, l[0], x);
      }
    }
    ListUntouched(nodes, nodes', otherHead, layout, other);
  }

  lemma PushLinked(nodes: Nodes, heads: seq<nat>, layout: Layout, lists: Lists, k: nat, b: Block)
    requires LayoutOk(layout) && Linked(nodes, heads, layout, lists) && Distinct(lists)
    requires k < MAX_ORDER && InRange(layout, b) && Unlisted(lists, b)
    ensures heads[k] == 0 || heads[k] in nodes
    ensures Linked(PushNodes(nodes, heads[k], layout, b), heads[k := Addr(layout, b)], layout,
              lists[k := [b] + lists[k]])
    ensures Distinct(lists[k := [b] + lists[k]])
  {
    PushSame(nodes, heads[k], layout, lists[k], b);
    forall j | 0 <= j < MAX_ORDER && j != k
      ensures ListLinked(PushNodes(nodes, heads[k], layout, b), heads[j], layout, lists[j])
    {
      PushOther(nodes, layout, lists[k], b, heads[k], lists[j], heads[j]);
    }
    NoDupPush(lists[k], b);
  }

  // ---------------------------------------------------------------- unlinking

  /** Memory after the header at `a` is taken out of its list. */
  function UnlinkNodes(nodes: Nodes, a: nat): Nodes
    requires a in nodes && (nodes[a].prev == 0 || nodes[a].prev in nodes)
               && (nodes[a].next == 0 || nodes[a].next in nodes)
  {
    var next, prev := nodes[a].next, nodes[a].prev;
    var n1 := if prev == 0 then nodes else nodes[prev := nodes[prev].(next := next)];
    if next == 0 then n1 else n1[next := n1[next].(prev := prev)]
  }

  function UnlinkHead(nodes: Nodes, a: nat, head: nat): nat
    requires a in nodes
  {
    if nodes[a].prev == 0 then nodes[a].next else head
  }

  function RemoveAt<T>(s: seq<T>, i: nat): (r: seq<T>)
    requires i < |s|
    ensures |r| == |s| - 1
    ensures forall j :: 0 <= j < |r| ==> r[j] == if j < i then s[j] else s[j + 1]
  {
    s[..i] + s[i + 1..]
  }

  lemma {:induction false} WithoutAt<T>(s: seq<T>, i: nat)
    requires i < |s| && NoDup(s)
    ensures Without(s, s[i]) == RemoveAt(s, i)
  {
    if i > 0 {
      WithoutAt(s[1..], i - 1);
      assert s == [s[0]] + s[1..];
    }
  }

  /** The neighbours named by a header are headers, and differ from it and from each other. */
  lemma Neighbours(nodes: Nodes, head: nat, layout: Layout, l: seq<Block>, i: nat)
    requires LayoutOk(layout) && NoDup(l) && ListLinked(nodes, head, layout, l) && i < |l|
    ensures var a := AddrAt(layout, l, i);
            && a in nodes && a != 0 && nodes[a] == NodeFor(layout, l, i)
            && (nodes[a].prev == 0 || nodes[a].prev in nodes) && (nodes[a].prev == 0 <==> i == 0)
            && (nodes[a].next == 0 || nodes[a].next in nodes) && (nodes[a].next == 0 <==> i == |l| - 1)
  {
    assert NodeOk(nodes, layout, l, i);
    AddrInjective(layout, l[i], l[i]);
    if i > 0 { assert NodeOk(nodes, layout, l, i - 1); AddrInjective(layout, l[i - 1], l[i]); }
    if i + 1 < |l| { assert NodeOk(nodes, layout, l, i + 1); AddrInjective(layout, l[i + 1], l[i]); }
  }

  lemma UnlinkSame(nodes: Nodes, head: nat, layout: Layout, l: seq<Block>, i: nat)
    requires LayoutOk(layout) && NoDup(l) && ListLinked(nodes, head, layout, l) && i < |l|
    ensures var a := AddrAt(layout, l, i);
            && a in nodes && (nodes[a].prev == 0 || nodes[a].prev in nodes)
            && (nodes[a].next == 0 || nodes[a].next in nodes)
            && ListLinked(UnlinkNodes(nodes, a), UnlinkHead(nodes, a, head), layout, RemoveAt(l, i))
  {
    Neighbours(nodes, head, layout, l, i);
    var a := AddrAt(layout, l, i);
    var nodes', l' := UnlinkNodes(nodes, a), RemoveAt(l, i);
    forall j | 0 <= j < |l'| ensures NodeOk(nodes', layout, l', j) {
      UnlinkNode(nodes, head, layout, l, i, j);
    }
    assert NodeOk(nodes, layout, l, 0);
    if |l| > 1 { assert NodeOk(nodes, layout, l, 1); }
  }

  lemma UnlinkNode(nodes: Nodes, head: nat, layout: Layout, l: seq<Block>, i: nat, j: nat)
    requires LayoutOk(layout) && NoDup(l) && ListLinked(nodes, head, layout, l) && i < |l| && j < |l| - 1
    ensures var a := AddrAt(layout, l, i);
            && a in nodes && (nodes[a].prev == 0 || nodes[a].prev in nodes)
            && (nodes[a].next == 0 || nodes[a].next in nodes)
            && NodeOk(UnlinkNodes(nodes, a), layout, RemoveAt(l, i), j)
  {
    hide LayoutOk, RemoveAt;
    Neighbours(nodes, head, layout, l, i);
    var m := if j < i then j else j + 1;
    assert NodeOk(nodes, layout, l, m);
    if m > 0 { assert NodeOk(nodes, layout, l, m - 1); }
    if m + 1 < |l| { assert NodeOk(nodes, layout, l, m + 1); }
    if i > 0 { assert NodeOk(nodes, layout, l, i - 1); AddrInjective(layout, l[m], l[i - 1]); }
    if i + 1 < |l| { assert NodeOk(nodes, layout, l, i + 1); AddrInjective(layout, l[m], l[i + 1]); }
    AddrInjective(layout, l[m], l[i]);
  }

  lemma UnlinkOther(nodes: Nodes, head: nat, layout: Layout, l: seq<Block>, i: nat, other: seq<Block>, otherHead: nat)
    requires LayoutOk(layout) && NoDup(l) && ListLinked(nodes, head, layout, l) && i < |l|
    requires ListLinked(nodes, otherHead, layout, other) && forall x :: x in l ==> x !in other
    ensures var a := AddrAt(layout, l, i);
            && a in nodes && (nodes[a].prev == 0 || nodes[a].prev in nodes)
            && (nodes[a].next == 0 || nodes[a].next in nodes)
            && ListLinked(UnlinkNodes(nodes, a), otherHead, layout, other)
  {
    Neighbours(nodes, head, layout, l, i);
    var a := AddrAt(layout, l, i);
    var nodes' := UnlinkNodes(nodes, a);
    forall x | x in other && InRange(layout, x) && Addr(layout, x) in nodes
      ensures Addr(layout, x) in nodes' && nodes'[Addr(layout, x)] == nodes[Addr(layout, x)]
    {
      if i > 0 { assert NodeOk(nodes, layout, l, i - 1); AddrInjective(layout, x, l[i - 1]); }
      if i + 1 < |l| { assert NodeOk(nodes, layout, l, i + 1); AddrInjective(layout, x, l[i + 1]); }
    }
    ListUntouched(nodes, nodes', otherHead, layout, other);
  }

  lemma UnlinkLinked(nodes: Nodes, heads: seq<nat>, layout: Layout, lists: Lists, k: nat, i: nat)
    requires LayoutOk(layout) && Linked(nodes, heads, layout, lists) && Distinct(lists)
    requires k < MAX_ORDER && i < |lists[k]|
    ensures var a := AddrAt(layout, lists[k], i);
            && a in nodes && (nodes[a].prev == 0 || nodes[a].prev in nodes)
            && (nodes[a].next == 0 || nodes[a].next in nodes)
            && Linked(UnlinkNodes(nodes, a), heads[k := UnlinkHead(nodes, a, heads[k])], layout,
                lists[k := RemoveAt(lists[k], i)])
    ensures Distinct(lists[k := RemoveAt(lists[k], i)])
  {
    hide LayoutOk, NodeOk, UnlinkNodes;
    UnlinkSame(nodes, heads[k], layout, lists[k], i);
    var a := AddrAt(layout, lists[k], i);
    forall j | 0 <= j < MAX_ORDER && j != k
      ensures ListLinked(UnlinkNodes(nodes, a), heads[j], layout, lists[j])
    {
      UnlinkOther(nodes, heads[k], layout, lists[k], i, lists[j], heads[j]);
    }
  }
}
