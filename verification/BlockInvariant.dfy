/**
 * What holds of the block stack after every call: the accounts balance, an
 * exclusive holder has the device to its own chain, and nothing written stays
 * unflushed without a writer.
 */
module BlockInvariant {
  import opened BlockTree
  import opened BlockAccounts

  datatype BlockError =
    | OutOfBounds | UnalignedBuffer | HardwareError | ReadOnly | NotReady | InUse
    | InvalidPartition | InvalidBlockSize | AccessUnderflow

  datatype Result<+T> = Ok(value: T) | Err(error: BlockError)

  // ---------------------------------------------------------------- the leaf's decision

  /** The last writer goes. */
  predicate LastWriter(counts: Counts, d: Counts) {
    counts.write > 0 && counts.write + d.write <= 0
  }

  /** What the hardware leaf answers; `flushOk` is what its device answers to a flush. */
  function Admit(counts: Counts, d: Counts, flushOk: bool): Result<()> {
    if !counts.Plus(d).AtLeast(NONE) then Err(AccessUnderflow)
    else if d.exclusive > 0 && (counts.read > 0 || counts.write > 0 || counts.exclusive > 0) then Err(InUse)
    else if counts.exclusive > 0 && (d.read > 0 || d.write > 0 || d.exclusive > 0) then Err(InUse)
    else if LastWriter(counts, d) && !flushOk then Err(HardwareError)
    else Ok(())
  }

  /**
   * A change is admitted exactly when the counts cover what it gives back, nobody holds the
   * device exclusively while it opens something, nobody holds it at all where it opens it
   * exclusively, and the flush succeeds where the last writer goes.
   */
  lemma AdmittedIff(counts: Counts, d: Counts, flushOk: bool)
    requires counts.AtLeast(NONE)
    ensures Admit(counts, d, flushOk).Ok? <==>
      && counts.Plus(d).AtLeast(NONE) && !InTheWay(counts, d)
      && (counts.write > 0 && counts.write + d.write == 0 ==> flushOk)
    ensures Admit(counts, d, flushOk) == Err(InUse) <==> counts.Plus(d).AtLeast(NONE) && InTheWay(counts, d)
    ensures Admit(counts, d, flushOk) == Err(AccessUnderflow) <==> !counts.Plus(d).AtLeast(NONE)
    ensures Admit(counts, d, flushOk).Err? ==>
              Admit(counts, d, flushOk).error in {InUse, AccessUnderflow, HardwareError}
  {
  }

  /** Something opens beside an exclusive holder, or an exclusive holder would come beside anybody. */
  predicate InTheWay(counts: Counts, d: Counts) {
    (counts.exclusive > 0 && !NONE.AtLeast(d)) || (d.exclusive > 0 && counts != NONE)
  }

  /** The device calls made by an admitted change. */
  function Flushes(counts: Counts, d: Counts): seq<DeviceOp> {
    if LastWriter(counts, d) then [DeviceOp(Flush, 0, true)] else []
  }

  // ---------------------------------------------------------------- the invariant

  /** Consumers with references on an exclusively held leaf all lie on one chain. */
  ghost predicate Exclusive(f: Forest)
    requires Shaped(f)
  {
    forall a: nat, b: nat :: a < |f.consumers| && b < |f.consumers| && BothOpen(f, a, b) ==>
        OnChain(f, a, b) || OnChain(f, b, a)
  }

  predicate BothOpen(f: Forest, a: nat, b: nat)
    requires IsConsumer(f, a) && IsConsumer(f, b)
  {
    && LeafOf(f, a) == LeafOf(f, b) && f.providers[LeafOf(f, a)].counts.exclusive > 0
    && f.consumers[a].counts != NONE && f.consumers[b].counts != NONE
  }

  /** A write or a delete has gone to the device since its last successful flush. */
  predicate Unflushed(log: seq<DeviceOp>) {
    if log == [] then false
    else
      var last := log[|log| - 1];
      match last.cmd
      case Flush => !last.ok && Unflushed(log[..|log| - 1])
      case Read(_) => Unflushed(log[..|log| - 1])
      case _ => true
  }

  ghost predicate Clean(f: Forest) {
    forall h :: 0 <= h < |f.providers| && f.providers[h].Hardware? && Unflushed(f.providers[h].log)
      ==> f.providers[h].counts.write > 0
  }

  ghost predicate Good(f: Forest) {
    Shaped(f) && Balanced(f) && Exclusive(f) && Clean(f)
  }

  // ---------------------------------------------------------------- admitted changes keep it

  /** A consumer further down a chain holds at least as much. */
  lemma {:induction false} ChainAbove(f: Forest, a: nat, c: nat)
    requires IsConsumer(f, c) && Balanced(f) && OnChain(f, a, c)
    ensures a < |f.consumers| && f.consumers[a].counts.AtLeast(f.consumers[c].counts)
    decreases f.consumers[c].provider
  {
    var p := f.consumers[c].provider;
    assert ProviderOk(f, p);
    if a != c {
      RecordedAbove(f, c);
      ChainAbove(f, a, f.providers[p].parent);
    }
  }

  /** The change may be made at `c`: its own count and that of a partition owning it stay in order. */
  ghost predicate Fits(f: Forest, c: nat, d: Counts)
    requires IsConsumer(f, c)
  {
    && f.consumers[c].counts.Plus(d).AtLeast(NONE)
    && (forall p :: 0 <= p < |f.providers| && Owns(f, p, c) ==> Slack(f, p).Plus(d).AtLeast(NONE))
  }

  lemma BalancedMove(f: Forest, c: nat, d: Counts, ops: seq<DeviceOp>)
    requires IsConsumer(f, c) && Balanced(f) && Fits(f, c, d)
    ensures Balanced(Move(f, c, d, ops))
  {
    hide Slack, Move;
    var g := Move(f, c, d, ops);
    forall a | 0 <= a < |g.consumers| ensures g.consumers[a].counts.AtLeast(NONE) {
      MoveConsumer(f, c, d, ops, a);
      if OnChain(f, a, c) { ChainAbove(f, a, c); }
    }
    forall p | 0 <= p < |g.providers| ensures Slack(g, p).AtLeast(NONE) {
      MoveSlack(f, c, d, ops, p);
    }
  }

  /** A leaf with no references has no consumer with references. */
  lemma NoneAbove(f: Forest, a: nat)
    requires IsConsumer(f, a) && Balanced(f)
    requires var counts := f.providers[LeafOf(f, a)].counts;
             counts.read <= 0 && counts.write <= 0 && counts.exclusive <= 0
    ensures f.consumers[a].counts == NONE
  {
    LeafAbove(f, a);
  }

  lemma ExclusiveMove(f: Forest, c: nat, d: Counts, ops: seq<DeviceOp>, flushOk: bool)
    requires IsConsumer(f, c) && Balanced(f) && Exclusive(f) && Fits(f, c, d)
    requires Admit(f.providers[LeafOf(f, c)].counts, d, flushOk).Ok?
    ensures Exclusive(Move(f, c, d, ops))
  {
    hide Slack, Move;
    var g := Move(f, c, d, ops);
    MoveProviders(f, c, d, ops);
    forall a: nat, b: nat | a < |g.consumers| && b < |g.consumers| && BothOpen(g, a, b)
      ensures OnChain(g, a, b) || OnChain(g, b, a)
    {
      ChainSame(f, g, a, b);
      ChainSame(f, g, b, a);
      MoveConsumer(f, c, d, ops, a);
      MoveConsumer(f, c, d, ops, b);
      PairStays(f, c, d, a, b, flushOk);
    }
  }

  /**
   * Two consumers with references on an exclusive leaf after a change were so before, or both
   * lie on the moved chain.
   */
  lemma PairStays(f: Forest, c: nat, d: Counts, a: nat, b: nat, flushOk: bool)
    requires IsConsumer(f, c) && IsConsumer(f, a) && IsConsumer(f, b) && Balanced(f) && Exclusive(f) && Fits(f, c, d)
    requires LeafOf(f, a) == LeafOf(f, b)
    requires var leaf := f.providers[LeafOf(f, c)].counts;
             && Admit(leaf, d, flushOk).Ok?
             && (if LeafOf(f, a) == LeafOf(f, c) then leaf.exclusive + d.exclusive > 0
                 else f.providers[LeafOf(f, a)].counts.exclusive > 0)
    requires StillOpen(f, c, d, a) && StillOpen(f, c, d, b)
    ensures OnChain(f, a, b) || OnChain(f, b, a)
  {
    if OnChain(f, a, c) { ChainDescends(f, a, c); ChainAbove(f, a, c); }
    if OnChain(f, b, c) { ChainDescends(f, b, c); ChainAbove(f, b, c); }
    if LeafOf(f, a) == LeafOf(f, c) && d.exclusive > 0 {
      NoneAbove(f, a);
      NoneAbove(f, b);
      ChainTotal(f, a, b, c);
    } else {
      assert BothOpen(f, a, b);
    }
  }

  ghost predicate StillOpen(f: Forest, c: nat, d: Counts, a: nat)
    requires IsConsumer(f, c) && IsConsumer(f, a)
  {
    (if OnChain(f, a, c) then f.consumers[a].counts.Plus(d) else f.consumers[a].counts) != NONE
  }

  lemma FlushedBy(log: seq<DeviceOp>, op: DeviceOp)
    ensures op.cmd.Flush? && op.ok ==> !Unflushed(log + [op])
    ensures (op.cmd.Flush? && !op.ok) || op.cmd.Read? ==> Unflushed(log + [op]) == Unflushed(log)
  {
    assert (log + [op])[..|log|] == log;
  }

  lemma CleanMove(f: Forest, c: nat, d: Counts, flushOk: bool)
    requires IsConsumer(f, c) && Clean(f)
    requires Admit(f.providers[LeafOf(f, c)].counts, d, flushOk).Ok?
    ensures Clean(Move(f, c, d, Flushes(f.providers[LeafOf(f, c)].counts, d)))
  {
    hide Move;
    var leaf := f.providers[LeafOf(f, c)];
    MoveProviders(f, c, d, Flushes(leaf.counts, d));
    FlushedBy(leaf.log, DeviceOp(Flush, 0, true));
    assert leaf.log + [] == leaf.log;
  }

  /** An admitted change, made along the whole chain, keeps everything. */
  lemma GoodMove(f: Forest, c: nat, d: Counts, flushOk: bool)
    requires Good(f) && c < |f.consumers| && Fits(f, c, d)
    requires Admit(f.providers[LeafOf(f, c)].counts, d, flushOk).Ok?
    ensures Good(Move(f, c, d, Flushes(f.providers[LeafOf(f, c)].counts, d)))
  {
    hide Move, Balanced, Exclusive, Clean, Fits;
    var ops := Flushes(f.providers[LeafOf(f, c)].counts, d);
    BalancedMove(f, c, d, ops);
    ExclusiveMove(f, c, d, ops, flushOk);
    CleanMove(f, c, d, flushOk);
  }

  // ---------------------------------------------------------------- device calls alone

  function Logged(f: Forest, h: nat, op: DeviceOp): (g: Forest)
    requires Shaped(f) && h < |f.providers| && f.providers[h].Hardware?
    ensures SameShape(f, g) && Shaped(g)
  {
    CreditLeaf(f, h, NONE, [op])
  }

  lemma GoodLogged(f: Forest, h: nat, op: DeviceOp)
    requires Good(f) && h < |f.providers| && f.providers[h].Hardware?
    requires op.cmd.Write? || op.cmd.Delete? ==> f.providers[h].counts.write > 0
    ensures Good(Logged(f, h, op))
  {
    hide Slack;
    var g := Logged(f, h, op);
    forall p | 0 <= p < |g.providers| ensures Slack(g, p).AtLeast(NONE) {
      CreditLeafSlack(f, h, NONE, [op], p);
      assert Slack(f, p).AtLeast(NONE);
    }
    forall a: nat, b: nat | a < |g.consumers| && b < |g.consumers| && BothOpen(g, a, b)
      ensures OnChain(g, a, b) || OnChain(g, b, a)
    {
      ChainSame(f, g, a, b);
      ChainSame(f, g, b, a);
      assert BothOpen(f, a, b);
    }
    FlushedBy(f.providers[h].log, op);
  }

  // ---------------------------------------------------------------- a consumer going away without its leaf knowing

  lemma ForgetBalanced(f: Forest, c: nat)
    requires IsConsumer(f, c) && Balanced(f) && Fits(f, c, NONE.Minus(f.consumers[c].counts))
    ensures Balanced(Credit(f, c, NONE.Minus(f.consumers[c].counts)))
  {
    hide Slack, Owns;
    var d := NONE.Minus(f.consumers[c].counts);
    var g := Credit(f, c, d);
    forall p | 0 <= p < |g.providers| ensures Slack(g, p).AtLeast(NONE) {
      CreditSlack(f, c, d, p);
      assert Slack(f, p).AtLeast(NONE);
    }
  }

  lemma ForgetExclusive(f: Forest, c: nat)
    requires IsConsumer(f, c) && Exclusive(f)
    ensures Exclusive(Credit(f, c, NONE.Minus(f.consumers[c].counts)))
  {
    hide OnChain, Leaf, Shaped, SameShape;
    var g := Credit(f, c, NONE.Minus(f.consumers[c].counts));
    forall a: nat, b: nat | a < |g.consumers| && b < |g.consumers| && BothOpen(g, a, b)
      ensures OnChain(g, a, b) || OnChain(g, b, a)
    {
      ChainSame(f, g, a, b);
      ChainSame(f, g, b, a);
      ForgetCounts(f, c, a);
      ForgetCounts(f, c, b);
      assert BothOpen(f, a, b);
    }
  }

  lemma ForgetCounts(f: Forest, c: nat, a: nat)
    requires IsConsumer(f, c) && a < |f.consumers|
    ensures Credit(f, c, NONE.Minus(f.consumers[c].counts)).consumers[a].counts == if a == c then NONE
              else f.consumers[a].counts
  {
  }

  /** Forgetting a consumer's references only ever leaves its provider with too many. */
  lemma GoodForget(f: Forest, c: nat)
    requires Good(f) && c < |f.consumers| && Fits(f, c, NONE.Minus(f.consumers[c].counts))
    ensures Good(Credit(f, c, NONE.Minus(f.consumers[c].counts)))
  {
    hide Balanced, Exclusive, Fits;
    ForgetBalanced(f, c);
    ForgetExclusive(f, c);
  }
}
