/**
 * Whole runs of the buddy machine: what every reachable state keeps, and what a run that
 * gives everything back restores.
 */
module BuddyRuns {
  import opened Alignment
  import opened BuddyTiling
  import opened BuddyCore

  datatype Op = AddZoneOp(pages: nat) | AllocOp(order: nat) | FreeOp(block: Block, order: nat)

  const Empty: Core := Core([], seq(MAX_ORDER, _ => []))

  /** Only the head of a live block may be freed. */
  predicate Enabled(c: Core, op: Op) {
    op.FreeOp? ==> IsLiveBlock(c, op.block, op.order)
  }

  ghost function Step(c: Core, op: Op): (r: Core)
    requires Ok(c) && Enabled(c, op)
    ensures Ok(r)
  {
    match op
    case AddZoneOp(n) => (AddZoneOk(c, n); AddZone(c, n))
    case AllocOp(t) => (AllocOk(c, t); Alloc(c, t).0)
    case FreeOp(b, k) => (FreeOk(c, b, k); Free(c, b, k))
  }

  /** `c'` is reached from `c` by `ops`. */
  ghost predicate Reaches(c: Core, ops: seq<Op>, c': Core)
    decreases |ops|
  {
    if ops == [] then c' == c
    else Ok(c) && Enabled(c, ops[0]) && Reaches(Step(c, ops[0]), ops[1..], c')
  }

  lemma StepBalanced(c: Core, op: Op)
    requires Ok(c) && Enabled(c, op) && Balanced(c)
    ensures Balanced(Step(c, op))
  {
    match op
    case AddZoneOp(n) => AddZoneBalance(c, n);
    case AllocOp(t) => if Alloc(c, t).1.Some? { AllocBalance(c, t); }
    case FreeOp(b, k) => FreeBalance(c, b, k);
  }

  /** Every reachable state is canonical, its lists agree with its metadata, and its pages add up. */
  lemma {:induction false} ReachableOk(c: Core, ops: seq<Op>, c': Core)
    requires Ok(c) && Balanced(c) && Reaches(c, ops, c')
    ensures Ok(c') && Balanced(c')
    decreases |ops|
  {
    if ops != [] {
      StepBalanced(c, ops[0]);
      ReachableOk(Step(c, ops[0]), ops[1..], c');
    }
  }

  lemma EmptyOk()
    ensures Ok(Empty) && Balanced(Empty)
  {
    assert Weight(Empty.lists, MAX_ORDER) == 0 by { EmptyWeight(MAX_ORDER); }
  }

  lemma {:induction false} EmptyWeight(n: nat)
    requires n <= MAX_ORDER
    ensures Weight(Empty.lists, n) == 0
  {
    if n > 0 { EmptyWeight(n - 1); }
  }

  /** Live blocks never share a page. */
  lemma LiveBlocksDisjoint(c: Core, a: Block, j: nat, b: Block, k: nat, p: nat)
    requires Ok(c) && IsLiveBlock(c, a, j) && IsLiveBlock(c, b, k)
    requires a.zone == b.zone && a.index <= p < a.index + Pow2(j) && b.index <= p < b.index + Pow2(k)
    ensures a == b && j == k
  {
    HeadCovers(c.metas[a.zone], a.index, j);
    HeadCovers(c.metas[a.zone], b.index, k);
    DownInBlock(a.index, j, p);
    DownInBlock(b.index, k, p);
  }

  /** A page is free exactly when no live block holds it. */
  lemma FreeMeansNotLive(c: Core, z: nat, p: nat)
    requires Ok(c) && z < |c.metas| && p < |c.metas[z]|
    ensures PageIsFree(c, z, p) <==>
              !exists h: nat, k: nat :: IsLiveBlock(c, Block(z, h), k) && h <= p < h + Pow2(k)
  {
    var h, k := HeadOf(c.metas[z], p);
    if IsFree(c.metas[z][p]) {
      forall h': nat, k': nat | IsLiveBlock(c, Block(z, h'), k')
        ensures !(h' <= p < h' + Pow2(k'))
      {
        HeadCovers(c.metas[z], h', k');
      }
    } else {
      assert IsLiveBlock(c, Block(z, h), k);
    }
  }

  ghost predicate SameLive(c: Core, d: Core) {
    forall b, k: nat :: IsLiveBlock(c, b, k) <==> IsLiveBlock(d, b, k)
  }

  ghost predicate SameShape(c: Core, d: Core) {
    |c.metas| == |d.metas| && forall z :: 0 <= z < |c.metas| ==> |c.metas[z]| == |d.metas[z]|
  }

  /** The free lists are a function, as sets, of the live blocks. */
  lemma LiveDeterminesLists(c: Core, d: Core)
    requires Ok(c) && Ok(d) && SameShape(c, d) && SameLive(c, d)
    ensures forall k, b :: 0 <= k < MAX_ORDER ==> (b in c.lists[k] <==> b in d.lists[k])
  {
    forall z | 0 <= z < |c.metas|
      ensures forall h: nat, k: nat :: FreeHead(c.metas[z], h, k) <==> FreeHead(d.metas[z], h, k)
    {
      forall p | 0 <= p < |c.metas[z]| ensures IsFree(c.metas[z][p]) == IsFree(d.metas[z][p]) {
        FreeMeansNotLive(c, z, p);
        FreeMeansNotLive(d, z, p);
      }
      CanonicalUnique(c.metas[z], d.metas[z]);
    }
  }

  lemma StepShape(c: Core, op: Op)
    requires Ok(c) && Enabled(c, op) && !op.AddZoneOp?
    ensures SameShape(c, Step(c, op))
  {
    if op.AllocOp? && Alloc(c, op.order).1.Some? {
      var k, b, after := Chosen(c, op.order);
    } else if op.FreeOp? {
      var m := Reached(c, op.block, op.order);
    }
  }

  lemma {:induction false} RunShape(c: Core, ops: seq<Op>, c': Core)
    requires Ok(c) && Reaches(c, ops, c') && forall i :: 0 <= i < |ops| ==> !ops[i].AddZoneOp?
    ensures Ok(c') && SameShape(c, c')
    decreases |ops|
  {
    if ops != [] {
      StepShape(c, ops[0]);
      RunShape(Step(c, ops[0]), ops[1..], c');
    }
  }

  /** Any run of allocations and frees that ends with the live blocks it began with restores the exact block set. */
  lemma RunRestores(c: Core, ops: seq<Op>, c': Core)
    requires Ok(c) && Reaches(c, ops, c') && forall i :: 0 <= i < |ops| ==> !ops[i].AddZoneOp?
    requires SameLive(c, c')
    ensures forall k, b :: 0 <= k < MAX_ORDER ==> (b in c.lists[k] <==> b in c'.lists[k])
  {
    RunShape(c, ops, c');
    LiveDeterminesLists(c, c');
  }

  /** In particular, once everything allocated has been freed, the seeded blocks are back. */
  lemma EverythingFreedRestoresSeed(c: Core, n: nat, ops: seq<Op>, c': Core)
    requires Ok(c) && !exists b, k: nat :: IsLiveBlock(c, b, k)
    requires Reaches(AddZone(c, n), ops, c') && forall i :: 0 <= i < |ops| ==> !ops[i].AddZoneOp?
    requires !exists b, k: nat :: IsLiveBlock(c', b, k)
    ensures forall k, b :: 0 <= k < MAX_ORDER ==> (b in AddZone(c, n).lists[k] <==> b in c'.lists[k])
  {
    AddZoneOk(c, n);
    var s := AddZone(c, n);
    forall b, k: nat ensures !IsLiveBlock(s, b, k) {
      if b.zone < |c.metas| { assert s.metas[b.zone] == c.metas[b.zone]; assert !IsLiveBlock(c, b, k); }
    }
    RunRestores(s, ops, c');
  }
}
