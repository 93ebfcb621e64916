/**
 * The block-device stack as a forest: consumers attach to providers, and a
 * provider is either a hardware leaf or a partition that owns one consumer of
 * its parent. Consumers and providers are numbered in order of creation.
 */
module BlockTree {

  const U64: nat := 0x1_0000_0000_0000_0000

  /** Open references for reading, writing and exclusive use. */
  datatype Counts = Counts(read: int, write: int, exclusive: int) {
    function Plus(d: Counts): Counts { Counts(read + d.read, write + d.write, exclusive + d.exclusive) }
    function Minus(d: Counts): Counts { Counts(read - d.read, write - d.write, exclusive - d.exclusive) }
    predicate AtLeast(d: Counts) { read >= d.read && write >= d.write && exclusive >= d.exclusive }
  }

  const NONE := Counts(0, 0, 0)

  datatype Command = Read(bytes: nat) | Write(bytes: nat) | Flush | Delete(blocks: nat)

  /** One call into the device and whether it succeeded. */
  datatype DeviceOp = DeviceOp(cmd: Command, lba: nat, ok: bool)

  datatype Consumer = Consumer(provider: nat, counts: Counts)

  datatype Provider =
    | Hardware(counts: Counts, blockSize: nat, capacity: nat, log: seq<DeviceOp>)
    | Partition(parent: nat, start: nat, blocks: nat)

  datatype Forest = Forest(consumers: seq<Consumer>, providers: seq<Provider>)

  // ---------------------------------------------------------------- shape

  /** Every link leads to an older provider, no consumer is owned twice, and every partition fits its parent. */
  predicate Shaped(f: Forest) {
    && (forall c :: 0 <= c < |f.consumers| ==> f.consumers[c].provider < |f.providers|)
    && (forall p :: 0 <= p < |f.providers| ==> ProviderOk(f, p))
    && (forall p, q :: 0 <= p < q < |f.providers| && f.providers[p].Partition? && f.providers[q].Partition?
          ==> f.providers[p].parent != f.providers[q].parent)
  }

  predicate ProviderOk(f: Forest, p: nat)
    requires p < |f.providers|
  {
    match f.providers[p]
    case Hardware(_, _, capacity, _) => capacity < U64
    case Partition(parent, start, blocks) =>
      && parent < |f.consumers| && f.consumers[parent].provider < p
      && start + blocks <= Capacity(f.providers[f.consumers[parent].provider])
  }

  function Capacity(p: Provider): nat {
    if p.Hardware? then p.capacity else p.blocks
  }

  ghost predicate IsConsumer(f: Forest, c: nat) {
    Shaped(f) && c < |f.consumers|
  }

  /** The same links and windows; only counts and logs may differ. */
  predicate SameShape(f: Forest, g: Forest) {
    && |f.consumers| == |g.consumers| && |f.providers| == |g.providers|
    && (forall c :: 0 <= c < |f.consumers| ==> g.consumers[c].provider == f.consumers[c].provider)
    && (forall p :: 0 <= p < |f.providers| ==> SameProvider(f.providers[p], g.providers[p]))
  }

  predicate SameProvider(p: Provider, q: Provider) {
    match p
    case Hardware(_, blockSize, capacity, _) => q.Hardware? && q.blockSize == blockSize && q.capacity == capacity
    case Partition(_, _, _) => p == q
  }

  lemma ShapeKept(f: Forest, g: Forest)
    requires Shaped(f) && SameShape(f, g)
    ensures Shaped(g)
  {
    forall p | 0 <= p < |g.providers| ensures ProviderOk(g, p) {
      assert ProviderOk(f, p) && SameProvider(f.providers[p], g.providers[p]);
      if f.providers[p].Partition? {
        var q := f.consumers[f.providers[p].parent].provider;
        assert SameProvider(f.providers[q], g.providers[q]);
      }
    }
    forall p, q | 0 <= p < q < |g.providers| && g.providers[p].Partition? && g.providers[q].Partition?
      ensures g.providers[p].parent != g.providers[q].parent
    {
      assert SameProvider(f.providers[p], g.providers[p]) && SameProvider(f.providers[q], g.providers[q]);
    }
  }

  // ---------------------------------------------------------------- paths

  /** Consumer `a` is `c` or one that requests through `c` pass on their way to the leaf. */
  predicate OnChain(f: Forest, a: nat, c: nat)
    requires IsConsumer(f, c)
    decreases f.consumers[c].provider
  {
    a == c ||
    var p := f.consumers[c].provider;
    assert ProviderOk(f, p);
    f.providers[p].Partition? && OnChain(f, a, f.providers[p].parent)
  }

  /** The hardware leaf below a provider. */
  function Leaf(f: Forest, p: nat): (h: nat)
    requires Shaped(f) && p < |f.providers|
    ensures h < |f.providers| && f.providers[h].Hardware? && h <= p
    decreases p
  {
    assert ProviderOk(f, p);
    if f.providers[p].Hardware? then p else Leaf(f, f.consumers[f.providers[p].parent].provider)
  }

  function LeafOf(f: Forest, c: nat): (h: nat)
    requires IsConsumer(f, c)
    ensures h < |f.providers| && f.providers[h].Hardware?
  {
    Leaf(f, f.consumers[c].provider)
  }

  /** The sum of the partition starts between a provider and its leaf. */
  function Base(f: Forest, p: nat): nat
    requires Shaped(f) && p < |f.providers|
    decreases p
  {
    assert ProviderOk(f, p);
    if f.providers[p].Hardware? then 0
    else f.providers[p].start + Base(f, f.consumers[f.providers[p].parent].provider)
  }

  /** Provider `q` encloses `p`: it is `p` or lies between `p` and its leaf. */
  predicate Encloses(f: Forest, q: nat, p: nat)
    requires Shaped(f) && p < |f.providers|
    decreases p
  {
    q == p ||
    (assert ProviderOk(f, p);
     f.providers[p].Partition? && Encloses(f, q, f.consumers[f.providers[p].parent].provider))
  }

  lemma {:induction false} ChainSame(f: Forest, g: Forest, a: nat, c: nat)
    requires IsConsumer(f, c) && SameShape(f, g) && Shaped(g)
    ensures OnChain(g, a, c) <==> OnChain(f, a, c)
    ensures LeafOf(g, c) == LeafOf(f, c)
    decreases f.consumers[c].provider
  {
    var p := f.consumers[c].provider;
    assert ProviderOk(f, p) && SameProvider(f.providers[p], g.providers[p]);
    if f.providers[p].Partition? { ChainSame(f, g, a, f.providers[p].parent); }
  }

  /** A chain goes down: everything on it but its top is attached to an older provider. */
  lemma {:induction false} ChainDescends(f: Forest, a: nat, c: nat)
    requires IsConsumer(f, c) && OnChain(f, a, c)
    ensures a < |f.consumers| && LeafOf(f, a) == LeafOf(f, c)
    ensures a == c || f.consumers[a].provider < f.consumers[c].provider
    decreases f.consumers[c].provider
  {
    var p := f.consumers[c].provider;
    assert ProviderOk(f, p);
    if a != c { ChainDescends(f, a, f.providers[p].parent); }
  }

  /** Of two consumers on one chain, one is on the chain of the other. */
  lemma {:induction false} ChainTotal(f: Forest, a: nat, b: nat, c: nat)
    requires IsConsumer(f, c) && OnChain(f, a, c) && OnChain(f, b, c)
    ensures a < |f.consumers| && b < |f.consumers| && (OnChain(f, a, b) || OnChain(f, b, a))
    decreases f.consumers[c].provider
  {
    ChainDescends(f, a, c);
    ChainDescends(f, b, c);
    var p := f.consumers[c].provider;
    assert ProviderOk(f, p);
    if a != c && b != c { ChainTotal(f, a, b, f.providers[p].parent); }
  }

  // ---------------------------------------------------------------- windows on the device

  /** Every enclosing window contains the window of what it encloses. */
  lemma {:induction false} WindowsNest(f: Forest, q: nat, p: nat)
    requires Shaped(f) && p < |f.providers| && Encloses(f, q, p)
    ensures q < |f.providers|
    ensures Base(f, q) <= Base(f, p) && Base(f, p) + Capacity(f.providers[p]) <= Base(f, q) + Capacity(f.providers[q])
    decreases p
  {
    assert ProviderOk(f, p);
    if q != p { WindowsNest(f, q, f.consumers[f.providers[p].parent].provider); }
  }

  /** What lies below two partitions of one provider with disjoint windows stays disjoint on the device. */
  lemma SiblingsDisjoint(f: Forest, p: nat, q: nat, below: nat, other: nat)
    requires Shaped(f) && p < |f.providers| && q < |f.providers| && below < |f.providers| && other < |f.providers|
    requires f.providers[p].Partition? && f.providers[q].Partition? && ProviderOk(f, p) && ProviderOk(f, q)
    requires f.consumers[f.providers[p].parent].provider == f.consumers[f.providers[q].parent].provider
    requires f.providers[p].start + f.providers[p].blocks <= f.providers[q].start
    requires Encloses(f, p, below) && Encloses(f, q, other)
    ensures Base(f, below) + Capacity(f.providers[below]) <= Base(f, other)
  {
    WindowsNest(f, p, below);
    WindowsNest(f, q, other);
  }
}
