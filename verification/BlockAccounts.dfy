/**
 * Access accounting: how opening and closing moves the counts of a chain of
 * consumers and its leaf, and what that keeps.
 */
module BlockAccounts {
  import opened BlockTree

  // ---------------------------------------------------------------- balance

  /** The references held by the first n consumers that are attached to `p`. */
  function Sum(consumers: seq<Consumer>, n: nat, p: nat): Counts
    requires n <= |consumers|
  {
    if n == 0 then NONE
    else if consumers[n - 1].provider == p then Sum(consumers, n - 1, p).Plus(consumers[n - 1].counts)
    else Sum(consumers, n - 1, p)
  }

  /** The references a provider has recorded: its own, or those of the consumer it owns. */
  function Recorded(f: Forest, p: nat): Counts
    requires Shaped(f) && p < |f.providers|
  {
    assert ProviderOk(f, p);
    if f.providers[p].Hardware? then f.providers[p].counts else f.consumers[f.providers[p].parent].counts
  }

  /** What a provider has recorded beyond what its consumers hold. */
  function Slack(f: Forest, p: nat): Counts
    requires Shaped(f) && p < |f.providers|
  {
    Recorded(f, p).Minus(Sum(f.consumers, |f.consumers|, p))
  }

  ghost predicate Balanced(f: Forest)
    requires Shaped(f)
  {
    && (forall c :: 0 <= c < |f.consumers| ==> f.consumers[c].counts.AtLeast(NONE))
    && (forall p :: 0 <= p < |f.providers| ==> Slack(f, p).AtLeast(NONE))
  }

  lemma {:induction false} SumUpdate(consumers: seq<Consumer>, n: nat, p: nat, c: nat, d: Counts)
    requires n <= |consumers| && c < |consumers|
    ensures Sum(consumers[c := consumers[c].(counts := consumers[c].counts.Plus(d))], n, p)
         == if c < n && consumers[c].provider == p then Sum(consumers, n, p).Plus(d) else Sum(consumers, n, p)
  {
    if n > 0 { SumUpdate(consumers, n - 1, p, c, d); }
  }

  lemma {:induction false} SumPush(consumers: seq<Consumer>, n: nat, p: nat, c: Consumer)
    requires n <= |consumers|
    ensures Sum(consumers + [c], n, p) == Sum(consumers, n, p)
  {
    if n > 0 { SumPush(consumers, n - 1, p, c); }
  }

  lemma {:induction false} SumAbove(consumers: seq<Consumer>, n: nat, p: nat, c: nat)
    requires n <= |consumers| && forall i :: 0 <= i < |consumers| ==> consumers[i].counts.AtLeast(NONE)
    ensures Sum(consumers, n, p).AtLeast(NONE)
    ensures c < n && consumers[c].provider == p ==> Sum(consumers, n, p).AtLeast(consumers[c].counts)
  {
    if n > 0 { SumAbove(consumers, n - 1, p, c); }
  }

  /** No consumer holds more than its provider has recorded. */
  lemma RecordedAbove(f: Forest, c: nat)
    requires IsConsumer(f, c) && Balanced(f)
    ensures Recorded(f, f.consumers[c].provider).AtLeast(f.consumers[c].counts)
  {
    SumAbove(f.consumers, |f.consumers|, f.consumers[c].provider, c);
    assert Slack(f, f.consumers[c].provider).AtLeast(NONE);
  }

  /** No consumer holds more than the leaf below it has recorded. */
  lemma {:induction false} LeafAbove(f: Forest, c: nat)
    requires IsConsumer(f, c) && Balanced(f)
    ensures f.providers[LeafOf(f, c)].counts.AtLeast(f.consumers[c].counts)
    decreases f.consumers[c].provider
  {
    RecordedAbove(f, c);
    var p := f.consumers[c].provider;
    assert ProviderOk(f, p);
    if f.providers[p].Partition? { LeafAbove(f, f.providers[p].parent); }
  }

  // ---------------------------------------------------------------- moving counts

  /** Adds `d` to one consumer. */
  function Credit(f: Forest, c: nat, d: Counts): (g: Forest)
    requires IsConsumer(f, c)
    ensures SameShape(f, g) && Shaped(g)
  {
    var g := Forest(f.consumers[c := f.consumers[c].(counts := f.consumers[c].counts.Plus(d))], f.providers);
    ShapeKept(f, g);
    g
  }

  /** Adds `d` to a leaf and records the calls its device got. */
  function CreditLeaf(f: Forest, h: nat, d: Counts, ops: seq<DeviceOp>): (g: Forest)
    requires Shaped(f) && h < |f.providers| && f.providers[h].Hardware?
    ensures SameShape(f, g) && Shaped(g)
  {
    var leaf := f.providers[h];
    var g := Forest(f.consumers, f.providers[h := leaf.(counts := leaf.counts.Plus(d), log := leaf.log + ops)]);
    assert ProviderOk(f, h);
    ShapeKept(f, g);
    g
  }

  /** Adds `d` to every consumer on the chain of `c` and to the leaf below. */
  function Move(f: Forest, c: nat, d: Counts, ops: seq<DeviceOp>): (g: Forest)
    requires IsConsumer(f, c)
    ensures SameShape(f, g) && Shaped(g)
    decreases f.consumers[c].provider
  {
    var p := f.consumers[c].provider;
    assert ProviderOk(f, p);
    var lower := if f.providers[p].Hardware? then CreditLeaf(f, p, d, ops) else Move(f, f.providers[p].parent, d, ops);
    ShapeTrans(f, lower, Credit(lower, c, d));
    Credit(lower, c, d)
  }

  lemma ShapeTrans(f: Forest, g: Forest, h: Forest)
    requires SameShape(f, g) && SameShape(g, h)
    ensures SameShape(f, h)
  {
    forall p | 0 <= p < |f.providers| ensures SameProvider(f.providers[p], h.providers[p]) {
      assert SameProvider(f.providers[p], g.providers[p]) && SameProvider(g.providers[p], h.providers[p]);
    }
  }

  /** Provider `p` is the partition that owns consumer `c`. */
  predicate Owns(f: Forest, p: nat, c: nat) {
    p < |f.providers| && f.providers[p].Partition? && f.providers[p].parent == c
  }

  predicate Unowned(f: Forest, c: nat) {
    forall p :: 0 <= p < |f.providers| ==> !Owns(f, p, c)
  }

  /** Crediting a consumer gives slack to the partition that owns it and takes it from its provider. */
  lemma CreditSlack(f: Forest, c: nat, d: Counts, p: nat)
    requires IsConsumer(f, c) && p < |f.providers|
    ensures Slack(Credit(f, c, d), p) ==
      if Owns(f, p, c) then Slack(f, p).Plus(d)
      else if f.consumers[c].provider == p then Slack(f, p).Minus(d)
      else Slack(f, p)
  {
    SumUpdate(f.consumers, |f.consumers|, p, c, d);
    assert ProviderOk(f, p);
  }

  lemma CreditLeafSlack(f: Forest, h: nat, d: Counts, ops: seq<DeviceOp>, p: nat)
    requires Shaped(f) && h < |f.providers| && f.providers[h].Hardware? && p < |f.providers|
    ensures Slack(CreditLeaf(f, h, d, ops), p) == if p == h then Slack(f, p).Plus(d) else Slack(f, p)
  {
    assert ProviderOk(f, p);
  }

  /** Moving counts along a chain changes no slack but that of a partition owning its top. */
  lemma {:induction false} MoveSlack(f: Forest, c: nat, d: Counts, ops: seq<DeviceOp>, p: nat)
    requires IsConsumer(f, c) && p < |f.providers|
    ensures Slack(Move(f, c, d, ops), p) == if Owns(f, p, c) then Slack(f, p).Plus(d) else Slack(f, p)
    decreases f.consumers[c].provider
  {
    hide Slack;
    var q := f.consumers[c].provider;
    assert ProviderOk(f, q);
    assert p != q ==> !(f.providers[q].Partition? && Owns(f, p, f.providers[q].parent));
    var lower := if f.providers[q].Hardware? then CreditLeaf(f, q, d, ops) else Move(f, f.providers[q].parent, d, ops);
    if f.providers[q].Hardware? { CreditLeafSlack(f, q, d, ops, p); } else {
      MoveSlack(f, f.providers[q].parent, d, ops, p);
    }
    assert SameProvider(f.providers[p], lower.providers[p]);
    CreditSlack(lower, c, d, p);
    assert Owns(f, q, c) ==> false by { ProviderBelow(f, q, c); }
    assert Slack(f, p).Plus(d).Minus(d) == Slack(f, p);
  }

  /** A consumer is not owned by the provider it is attached to. */
  lemma ProviderBelow(f: Forest, p: nat, c: nat)
    requires IsConsumer(f, c) && p < |f.providers| && f.consumers[c].provider == p
    ensures !Owns(f, p, c)
  {
    assert ProviderOk(f, p);
  }

  /** Which counts move, one by one. */
  lemma {:induction false} MoveConsumer(f: Forest, c: nat, d: Counts, ops: seq<DeviceOp>, a: nat)
    requires IsConsumer(f, c) && a < |f.consumers|
    ensures Move(f, c, d, ops).consumers[a].counts ==
      if OnChain(f, a, c) then f.consumers[a].counts.Plus(d) else f.consumers[a].counts
    decreases f.consumers[c].provider
  {
    var p := f.consumers[c].provider;
    assert ProviderOk(f, p);
    if f.providers[p].Partition? {
      MoveConsumer(f, f.providers[p].parent, d, ops, a);
      if a == c && OnChain(f, c, f.providers[p].parent) { ChainDescends(f, c, f.providers[p].parent); }
    }
  }

  /**
   * Every consumer on the chain of `c` and the leaf below have `d` more, the device got `ops`,
   * and nothing else changed.
   */
  ghost predicate Moved(f: Forest, g: Forest, c: nat, d: Counts, ops: seq<DeviceOp>)
    requires IsConsumer(f, c)
  {
    && |g.consumers| == |f.consumers|
    && (forall a :: 0 <= a < |f.consumers| ==>
          g.consumers[a] == Consumer(f.consumers[a].provider,
                                     if OnChain(f, a, c) then f.consumers[a].counts.Plus(d) else f.consumers[a].counts))
    && var leaf := f.providers[LeafOf(f, c)];
       g.providers == f.providers[LeafOf(f, c) :=
           Hardware(leaf.counts.Plus(d), leaf.blockSize, leaf.capacity, leaf.log + ops)]
  }

  lemma MoveIsMoved(f: Forest, c: nat, d: Counts, ops: seq<DeviceOp>)
    requires IsConsumer(f, c)
    ensures Moved(f, Move(f, c, d, ops), c, d, ops)
  {
    var g := Move(f, c, d, ops);
    forall a | 0 <= a < |f.consumers|
      ensures g.consumers[a] == Consumer(f.consumers[a].provider,
                                         if OnChain(f, a, c) then f.consumers[a].counts.Plus(d)
                                         else f.consumers[a].counts)
    {
      MoveConsumer(f, c, d, ops, a);
    }
    MoveProviders(f, c, d, ops);
  }

  /** Of the providers, only the leaf below changes. */
  lemma {:induction false} MoveProviders(f: Forest, c: nat, d: Counts, ops: seq<DeviceOp>)
    requires IsConsumer(f, c)
    ensures var leaf := f.providers[LeafOf(f, c)];
            Move(f, c, d, ops).providers ==
              f.providers[LeafOf(f, c) := leaf.(counts := leaf.counts.Plus(d), log := leaf.log + ops)]
    decreases f.consumers[c].provider
  {
    var p := f.consumers[c].provider;
    assert ProviderOk(f, p);
    if f.providers[p].Partition? { MoveProviders(f, f.providers[p].parent, d, ops); }
  }
}
