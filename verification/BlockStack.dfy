/** The block stack itself: every call updates the counts of consumers and leaves in place. */
module BlockStack {
  import opened BlockTree
  import opened BlockAccounts
  import opened BlockInvariant
  import opened BlockRequests

  datatype Outcome = Rejected(error: BlockError) | Answered(ok: bool)

  /** What a change of access finds on its way down from a provider. */
  function AdmitProvider(f: Forest, p: nat, d: Counts, flushOk: bool): Result<()>
    requires Shaped(f) && p < |f.providers|
    decreases p
  {
    assert ProviderOk(f, p);
    match f.providers[p]
    case Hardware(counts, _, _, _) => Admit(counts, d, flushOk)
    case Partition(parent, _, _) =>
      if !f.consumers[parent].counts.Plus(d).AtLeast(NONE) then Err(AccessUnderflow)
      else AdmitProvider(f, f.consumers[parent].provider, d, flushOk)
  }

  /** Where the first consumer does not underflow, only the leaf can refuse. */
  lemma {:induction false} AdmitDecidedAtLeaf(f: Forest, c: nat, d: Counts, flushOk: bool)
    requires IsConsumer(f, c) && Balanced(f) && f.consumers[c].counts.Plus(d).AtLeast(NONE)
    ensures AdmitProvider(f, f.consumers[c].provider, d, flushOk) == Admit(f.providers[LeafOf(f, c)].counts, d, flushOk)
    decreases f.consumers[c].provider
  {
    var p := f.consumers[c].provider;
    assert ProviderOk(f, p);
    RecordedAbove(f, c);
    if f.providers[p].Partition? { AdmitDecidedAtLeaf(f, f.providers[p].parent, d, flushOk); }
  }

  /** The state after a change of access at provider `p`. */
  ghost function Accessed(f: Forest, p: nat, d: Counts, r: Result<()>): (g: Forest)
    requires Shaped(f) && p < |f.providers|
    ensures SameShape(f, g) && Shaped(g)
  {
    var h := Leaf(f, p);
    var ops := Flushes(f.providers[h].counts, d);
    assert ProviderOk(f, p);
    match r
    case Ok(_) => if f.providers[p].Hardware? then CreditLeaf(f, p, d, ops) else Move(f, f.providers[p].parent, d, ops)
    case Err(e) => if e == HardwareError then Logged(f, h, DeviceOp(Flush, 0, false)) else f
  }

  class BlockStack {
    var forest: Forest

    ghost predicate Valid()
      reads this
    {
      Good(forest)
    }

    constructor ()
      ensures Valid() && forest == Forest([], [])
    {
      forest := Forest([], []);
    }

    /** A hardware leaf over a device. */
    method AddHardware(blockSize: nat, capacity: nat) returns (p: nat)
      requires Valid() && capacity < U64
      modifies this
      ensures Valid() && p == |old(forest).providers|
      ensures forest == Forest(old(forest).consumers, old(forest).providers + [Hardware(NONE, blockSize, capacity, [])])
    {
      p := |forest.providers|;
      ghost var f := forest;
      forest := Forest(forest.consumers, forest.providers + [Hardware(NONE, blockSize, capacity, [])]);
      GoodNewProvider(f, Hardware(NONE, blockSize, capacity, []));
    }

    method Attach(p: nat) returns (c: nat)
      requires Valid() && p < |forest.providers|
      modifies this
      ensures Valid() && c == |old(forest).consumers|
      ensures forest == Forest(old(forest).consumers + [Consumer(p, NONE)], old(forest).providers)
    {
      c := |forest.consumers|;
      ghost var f := forest;
      forest := Forest(forest.consumers + [Consumer(p, NONE)], forest.providers);
      GoodAttach(f, p);
    }

    /** A partition that takes over its parent consumer. If the window does not fit, the consumer is dropped with it. */
    method NewPartition(parent: nat, start: nat, blocks: nat, flushOk: bool) returns (r: Result<nat>)
      requires Valid() && parent < |forest.consumers| && Unowned(forest, parent) && start < U64 && blocks < U64
      modifies this
      ensures Valid()
      ensures r.Ok? <==> start + blocks <= Capacity(old(forest).providers[old(forest).consumers[parent].provider])
      ensures r.Ok? ==> r.value == |old(forest).providers|
      ensures r.Ok? ==>
                forest == Forest(old(forest).consumers, old(forest).providers + [Partition(parent, start, blocks)])
      ensures r.Err? ==> r.error == InvalidPartition && GaveBack(old(forest), forest, parent, flushOk)
    {
      ghost var f := forest;
      var capacity := Capacity(forest.providers[forest.consumers[parent].provider]);
      CapacityFits(f, f.consumers[parent].provider);
      if start > capacity || CheckedAdd(start, blocks).Err? || start + blocks > capacity {
        DropConsumer(parent, flushOk);
        return Err(InvalidPartition);
      }
      r := Ok(|forest.providers|);
      forest := Forest(forest.consumers, forest.providers + [Partition(parent, start, blocks)]);
      GoodNewProvider(f, Partition(parent, start, blocks));
    }

    // -------------------------------------------------------------- access

    method AccessProvider(p: nat, d: Counts, flushOk: bool) returns (r: Result<()>)
      requires Shaped(forest) && p < |forest.providers|
      modifies this
      ensures r == AdmitProvider(old(forest), p, d, flushOk)
      ensures forest == Accessed(old(forest), p, d, r)
      decreases p, 0
    {
      assert ProviderOk(forest, p);
      match forest.providers[p]
      case Hardware(counts, _, _, _) =>
        r := AccessHardware(p, d, flushOk);
      case Partition(parent, _, _) =>
        r := AccessConsumer(parent, d, flushOk);
    }

    method AccessHardware(h: nat, d: Counts, flushOk: bool) returns (r: Result<()>)
      requires Shaped(forest) && h < |forest.providers| && forest.providers[h].Hardware?
      modifies this
      ensures r == Admit(old(forest).providers[h].counts, d, flushOk)
      ensures forest == Accessed(old(forest), h, d, r)
    {
      var leaf := forest.providers[h];
      var counts := leaf.counts.Plus(d);
      if counts.read < 0 || counts.write < 0 || counts.exclusive < 0 {
        return Err(AccessUnderflow);
      }
      if d.exclusive > 0 {
        if leaf.counts.read > 0 || leaf.counts.write > 0 || leaf.counts.exclusive > 0 {
          return Err(InUse);
        }
      }
      if leaf.counts.exclusive > 0 && (d.read > 0 || d.write > 0 || d.exclusive > 0) {
        return Err(InUse);
      }
      var log := leaf.log;
      if leaf.counts.write > 0 && counts.write <= 0 {
        log := log + [DeviceOp(Flush, 0, flushOk)];
        if !flushOk {
          forest := Forest(forest.consumers, forest.providers[h := leaf.(log := log)]);
          return Err(HardwareError);
        }
      }
      forest := Forest(forest.consumers, forest.providers[h := leaf.(counts := counts, log := log)]);
      assert leaf.log + [] == leaf.log;
      return Ok(());
    }

    method AccessConsumer(c: nat, d: Counts, flushOk: bool) returns (r: Result<()>)
      requires IsConsumer(forest, c)
      modifies this
      ensures r == if !old(forest).consumers[c].counts.Plus(d).AtLeast(NONE) then Err(AccessUnderflow)
                   else AdmitProvider(old(forest), old(forest).consumers[c].provider, d, flushOk)
      ensures forest == if r.Ok?
                then Move(old(forest), c, d, Flushes(old(forest).providers[LeafOf(old(forest), c)].counts, d))
                        else Accessed(old(forest), old(forest).consumers[c].provider, d, r)
      decreases forest.consumers[c].provider, 1
    {
      ghost var f := forest;
      var counts := forest.consumers[c].counts.Plus(d);
      if counts.read < 0 || counts.write < 0 || counts.exclusive < 0 {
        return Err(AccessUnderflow);
      }
      r := AccessProvider(forest.consumers[c].provider, d, flushOk);
      if r.Err? { return; }
      SameCounts(f, c, d);
      forest := Forest(forest.consumers[c := forest.consumers[c].(counts := counts)], forest.providers);
    }

    /** Opening and closing: all counts from here to the device move by `d`, or none does. */
    method Access(c: nat, d: Counts, flushOk: bool) returns (r: Result<()>)
      requires Valid() && c < |forest.consumers| && Unowned(forest, c)
      modifies this
      ensures Valid()
      ensures var own, leaf := old(forest).consumers[c].counts, old(forest).providers[LeafOf(old(forest), c)].counts;
              var lastWriter := leaf.write > 0 && leaf.write + d.write == 0;
              if !own.Plus(d).AtLeast(NONE) then r == Err(AccessUnderflow) && forest == old(forest)
              else if InTheWay(leaf, d) then r == Err(InUse) && forest == old(forest)
              else if lastWriter && !flushOk then
                && r == Err(HardwareError)
                && Moved(old(forest), forest, c, NONE, [DeviceOp(Flush, 0, false)])
              else
                && r == Ok(())
                && Moved(old(forest), forest, c, d, if lastWriter then [DeviceOp(Flush, 0, true)] else [])
    {
      ghost var f := forest;
      LeafAbove(f, c);
      AdmittedIff(f.providers[LeafOf(f, c)].counts, d, flushOk);
      MoveIsMoved(f, c, d, Flushes(f.providers[LeafOf(f, c)].counts, d));
      r := AccessConsumer(c, d, flushOk);
      if f.consumers[c].counts.Plus(d).AtLeast(NONE) {
        AdmitDecidedAtLeaf(f, c, d, flushOk);
        if r.Ok? { GoodMove(f, c, d, flushOk); }
      }
      if r == Err(HardwareError) { GoodLogged(f, LeafOf(f, c), DeviceOp(Flush, 0, false)); }
    }

    /** A consumer that goes away gives its references back if its leaf lets it. */
    method DropConsumer(c: nat, flushOk: bool)
      requires Valid() && c < |forest.consumers|
      requires forall p :: 0 <= p < |forest.providers| && Owns(forest, p, c) ==>
                 Sum(forest.consumers, |forest.consumers|, p) == NONE
      modifies this
      ensures Valid() && GaveBack(old(forest), forest, c, flushOk)
    {
      ghost var f := forest;
      var counts := forest.consumers[c].counts;
      var d := NONE.Minus(counts);
      assert counts.Plus(d) == NONE;
      DropFits(f, c);
      LeafAbove(f, c);
      AdmitDecidedAtLeaf(f, c, d, flushOk);
      DropAdmitted(f, c, flushOk);
      if counts.read > 0 || counts.write > 0 || counts.exclusive > 0 {
        var r := AccessProvider(forest.consumers[c].provider, d, flushOk);
        ghost var g := forest;
        forest := Forest(forest.consumers[c := forest.consumers[c].(counts := NONE)], forest.providers);
        if r.Ok? {
          SameCounts(f, c, d);
          GoodMove(f, c, d, flushOk);
          MoveIsMoved(f, c, d, Flushes(f.providers[LeafOf(f, c)].counts, d));
        } else {
          GoodLogged(f, LeafOf(f, c), DeviceOp(Flush, 0, false));
          assert g == Logged(f, LeafOf(f, c), DeviceOp(Flush, 0, false));
          LoggedFits(f, c, LeafOf(f, c), DeviceOp(Flush, 0, false), d);
          GoodForget(g, c);
        }
      }
    }

    // -------------------------------------------------------------- requests

    /** A request is refused at once with nothing done, or reaches the device once, at its translated address. */
    method Request(c: nat, cmd: Command, lba: nat, deviceOk: bool) returns (r: Outcome)
      requires Valid() && c < |forest.consumers|
      modifies this
      ensures Valid()
      ensures var (size, capacity, open) := Sizes(old(forest), c);
              if size == 0 then r == Rejected(InvalidBlockSize)
              else if !cmd.Delete? && Bytes(cmd, size) % size != 0 then r == Rejected(UnalignedBuffer)
              else if !cmd.Flush? && (capacity == 0 || lba * size + Bytes(cmd, size) > capacity * size) then
                r == Rejected(OutOfBounds)
              else if cmd.Read? && open.read <= 0 then r == Rejected(NotReady)
              else if (cmd.Write? || cmd.Delete?) && open.write <= 0 then r == Rejected(ReadOnly)
              else r == Answered(deviceOk)
      ensures if r.Rejected? then forest == old(forest)
              else Moved(old(forest), forest, c, NONE, [DeviceOp(cmd, DeviceLba(old(forest), c, cmd, lba), deviceOk)])
    {
      ghost var f := forest;
      CheckInBytes(f, c, cmd, lba);
      r := RequestConsumer(c, cmd, lba, deviceOk);
      RouteDecidedAtTop(f, c, cmd, lba);
      if Check(f, c, cmd, lba).Ok? {
        if cmd.Write? || cmd.Delete? { WritersBelow(f, c, cmd, lba); }
        GoodLogged(f, LeafOf(f, c), DeviceOp(cmd, DeviceLba(f, c, cmd, lba), deviceOk));
      }
    }

    method RequestConsumer(c: nat, cmd: Command, lba: nat, deviceOk: bool) returns (r: Outcome)
      requires IsConsumer(forest, c)
      modifies this
      ensures match Route(old(forest), c, cmd, lba)
              case Err(e) => r == Rejected(e) && forest == old(forest)
              case Ok(at) => r == Answered(deviceOk) && forest ==
                               Logged(old(forest), LeafOf(old(forest), c), DeviceOp(cmd, at, deviceOk))
      decreases forest.consumers[c].provider, 1
    {
      var check := Check(forest, c, cmd, lba);
      match check
      case Err(e) => r := Rejected(e);
      case Ok(_) => r := RequestProvider(forest.consumers[c].provider, cmd, lba, deviceOk);
    }

    method RequestProvider(p: nat, cmd: Command, lba: nat, deviceOk: bool) returns (r: Outcome)
      requires Shaped(forest) && p < |forest.providers|
      modifies this
      ensures match RouteProvider(old(forest), p, cmd, lba)
              case Err(e) => r == Rejected(e) && forest == old(forest)
              case Ok(at) => r == Answered(deviceOk) && forest ==
                               Logged(old(forest), Leaf(old(forest), p), DeviceOp(cmd, at, deviceOk))
      decreases p, 0
    {
      assert ProviderOk(forest, p);
      match forest.providers[p]
      case Hardware(counts, _, _, log) =>
        var leaf := forest.providers[p];
        forest := Forest(forest.consumers, forest.providers[p := leaf.(log := log + [DeviceOp(cmd, lba, deviceOk)])]);
        r := Answered(deviceOk);
      case Partition(parent, start, blocks) =>
        var at := Translate(BlockSize(forest, p), start, blocks, cmd, lba);
        match at
        case Err(e) => r := Rejected(e);
        case Ok(lower) => r := RequestConsumer(parent, cmd, lower, deviceOk);
    }
  }

  /**
   * A dropped consumer has no references left. They went from its whole chain and the leaf,
   * or from itself alone where the flush for the last writer failed.
   */
  ghost predicate GaveBack(f: Forest, g: Forest, c: nat, flushOk: bool)
    requires IsConsumer(f, c)
  {
    var own, h := f.consumers[c].counts, LeafOf(f, c);
    var lastWriter := own.write > 0 && f.providers[h].counts.write == own.write;
    if own == NONE then g == f
    else if lastWriter && !flushOk then
      && g.consumers == f.consumers[c := Consumer(f.consumers[c].provider, NONE)]
      && g.providers == f.providers[h := f.providers[h].(log := f.providers[h].log + [DeviceOp(Flush, 0, false)])]
    else Moved(f, g, c, NONE.Minus(own), if lastWriter then [DeviceOp(Flush, 0, true)] else [])
  }

  /** On the way down to the leaf, the top consumer's own counts are not touched. */
  lemma SameCounts(f: Forest, c: nat, d: Counts)
    requires IsConsumer(f, c)
    ensures Accessed(f, f.consumers[c].provider, d, Ok(())).consumers[c] == f.consumers[c]
  {
    var p := f.consumers[c].provider;
    assert ProviderOk(f, p);
    if f.providers[p].Partition? {
      var parent := f.providers[p].parent;
      MoveConsumer(f, parent, d, Flushes(f.providers[Leaf(f, p)].counts, d), c);
      if OnChain(f, c, parent) { ChainDescends(f, c, parent); }
    }
  }

  lemma DropFits(f: Forest, c: nat)
    requires Good(f) && c < |f.consumers|
    requires forall p :: 0 <= p < |f.providers| && Owns(f, p, c) ==> Sum(f.consumers, |f.consumers|, p) == NONE
    ensures Fits(f, c, NONE.Minus(f.consumers[c].counts))
  {
    forall p | 0 <= p < |f.providers| && Owns(f, p, c)
      ensures Slack(f, p).Plus(NONE.Minus(f.consumers[c].counts)).AtLeast(NONE)
    {
      assert ProviderOk(f, p);
    }
  }

  /** Giving references back can fail for one reason only: the flush of the last writer. */
  lemma DropAdmitted(f: Forest, c: nat, flushOk: bool)
    requires IsConsumer(f, c) && Balanced(f)
    ensures var leaf := f.providers[LeafOf(f, c)].counts;
            var d := NONE.Minus(f.consumers[c].counts);
            Admit(leaf, d, flushOk) == if LastWriter(leaf, d) && !flushOk then Err(HardwareError) else Ok(())
  {
    LeafAbove(f, c);
  }

  lemma LoggedFits(f: Forest, c: nat, h: nat, op: DeviceOp, d: Counts)
    requires IsConsumer(f, c) && h < |f.providers| && f.providers[h].Hardware? && Fits(f, c, d)
    ensures Fits(Logged(f, h, op), c, d)
  {
    var g := Logged(f, h, op);
    forall p | 0 <= p < |g.providers| && Owns(g, p, c) ensures Slack(g, p).Plus(d).AtLeast(NONE) {
      assert Owns(f, p, c);
      CreditLeafSlack(f, h, NONE, [op], p);
    }
  }

  // ---------------------------------------------------------------- growing the forest

  /** Old parts keep their place and meaning as the forest grows. */
  ghost predicate Extends(f: Forest, g: Forest) {
    && |f.consumers| <= |g.consumers| && f.consumers == g.consumers[..|f.consumers|]
    && |f.providers| <= |g.providers| && f.providers == g.providers[..|f.providers|]
  }

  lemma {:induction false} ChainExtends(f: Forest, g: Forest, a: nat, c: nat)
    requires IsConsumer(f, c) && Shaped(g) && Extends(f, g)
    ensures OnChain(g, a, c) <==> OnChain(f, a, c)
    ensures LeafOf(g, c) == LeafOf(f, c)
    decreases f.consumers[c].provider
  {
    var p := f.consumers[c].provider;
    assert f.consumers[c] == g.consumers[c] && f.providers[p] == g.providers[p];
    assert ProviderOk(f, p);
    if f.providers[p].Partition? { ChainExtends(f, g, a, f.providers[p].parent); }
  }

  lemma ExclusiveExtends(f: Forest, g: Forest)
    requires Shaped(f) && Exclusive(f) && Shaped(g) && Extends(f, g)
    requires forall c :: |f.consumers| <= c < |g.consumers| ==> g.consumers[c].counts == NONE
    ensures Exclusive(g)
  {
    forall a: nat, b: nat | a < |g.consumers| && b < |g.consumers| && BothOpen(g, a, b)
      ensures OnChain(g, a, b) || OnChain(g, b, a)
    {
      assert a < |f.consumers| && b < |f.consumers|;
      assert g.consumers[a] == f.consumers[a] && g.consumers[b] == f.consumers[b];
      ChainExtends(f, g, a, b);
      ChainExtends(f, g, b, a);
      assert g.providers[LeafOf(f, a)] == f.providers[LeafOf(f, a)];
      assert BothOpen(f, a, b);
    }
  }

  lemma GoodAttach(f: Forest, p: nat)
    requires Good(f) && p < |f.providers|
    ensures Good(Forest(f.consumers + [Consumer(p, NONE)], f.providers))
  {
    hide Slack, ProviderOk, OnChain, BothOpen;
    var g := Forest(f.consumers + [Consumer(p, NONE)], f.providers);
    AttachShape(f, p);
    forall q | 0 <= q < |g.providers| ensures Slack(g, q).AtLeast(NONE) { AttachSlack(f, p, q); }
    ExclusiveExtends(f, g);
  }

  lemma AttachShape(f: Forest, p: nat)
    requires Shaped(f) && p < |f.providers|
    ensures Shaped(Forest(f.consumers + [Consumer(p, NONE)], f.providers))
  {
    var g := Forest(f.consumers + [Consumer(p, NONE)], f.providers);
    forall q | 0 <= q < |g.providers| ensures ProviderOk(g, q) { assert ProviderOk(f, q); }
  }

  lemma AttachSlack(f: Forest, p: nat, q: nat)
    requires Shaped(f) && p < |f.providers| && q < |f.providers|
    requires Shaped(Forest(f.consumers + [Consumer(p, NONE)], f.providers))
    ensures Slack(Forest(f.consumers + [Consumer(p, NONE)], f.providers), q) == Slack(f, q)
  {
    var g := Forest(f.consumers + [Consumer(p, NONE)], f.providers);
    assert ProviderOk(f, q);
    SumPush(f.consumers, |f.consumers|, q, Consumer(p, NONE));
    assert Sum(g.consumers, |f.consumers| + 1, q) == Sum(f.consumers, |f.consumers|, q);
  }

  lemma GoodNewProvider(f: Forest, p: Provider)
    requires Good(f)
    requires match p
             case Hardware(counts, _, capacity, log) => counts == NONE && capacity < U64 && log == []
             case Partition(parent, start, blocks) =>
               && parent < |f.consumers| && Unowned(f, parent)
               && start + blocks <= Capacity(f.providers[f.consumers[parent].provider])
    ensures Good(Forest(f.consumers, f.providers + [p]))
  {
    var g := Forest(f.consumers, f.providers + [p]);
    var n := |f.providers|;
    ShapedNewProvider(f, p);
    NoneAttached(f.consumers, |f.consumers|, n);
    forall q | 0 <= q < |g.providers| ensures Slack(g, q).AtLeast(NONE) {
      if q < n { assert Slack(f, q).AtLeast(NONE); assert ProviderOk(f, q); } else { assert ProviderOk(g, n); }
    }
    ExclusiveExtends(f, g);
  }

  lemma ShapedNewProvider(f: Forest, p: Provider)
    requires Shaped(f)
    requires match p
             case Hardware(counts, _, capacity, log) => capacity < U64
             case Partition(parent, start, blocks) =>
               && parent < |f.consumers| && Unowned(f, parent)
               && start + blocks <= Capacity(f.providers[f.consumers[parent].provider])
    ensures Shaped(Forest(f.consumers, f.providers + [p]))
  {
    var g := Forest(f.consumers, f.providers + [p]);
    var n := |f.providers|;
    forall q | 0 <= q < |g.providers| ensures ProviderOk(g, q) {
      if q < n { assert ProviderOk(f, q); }
    }
    forall a, b | 0 <= a < b < |g.providers| && g.providers[a].Partition? && g.providers[b].Partition?
      ensures g.providers[a].parent != g.providers[b].parent
    {
      if b == n { assert !Owns(f, a, p.parent); }
    }
  }

  /** Nothing is attached to a provider that does not exist yet. */
  lemma {:induction false} NoneAttached(consumers: seq<Consumer>, n: nat, p: nat)
    requires n <= |consumers| && forall c :: 0 <= c < |consumers| ==> consumers[c].provider < p
    ensures Sum(consumers, n, p) == NONE
  {
    if n > 0 { NoneAttached(consumers, n - 1, p); }
  }
}
