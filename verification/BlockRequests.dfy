/**
 * Where a request goes: the checks of every layer on its way down, and the
 * proof that only those of the first one matter.
 */
module BlockRequests {
  import opened BlockTree
  import opened BlockAccounts
  import opened BlockInvariant

  /** The number of blocks a command affects. */
  function Blocks(cmd: Command, blockSize: nat): Result<nat> {
    if blockSize == 0 then Err(InvalidBlockSize)
    else
      match cmd
      case Read(bytes) => if bytes > 0 && bytes % blockSize != 0 then Err(UnalignedBuffer) else Ok(bytes / blockSize)
      case Write(bytes) => if bytes > 0 && bytes % blockSize != 0 then Err(UnalignedBuffer) else Ok(bytes / blockSize)
      case Flush => Ok(0)
      case Delete(blocks) => Ok(blocks)
  }

  /** The bytes of the device a command covers. */
  function Bytes(cmd: Command, blockSize: nat): nat {
    match cmd
    case Read(bytes) => bytes
    case Write(bytes) => bytes
    case Flush => 0
    case Delete(blocks) => blocks * blockSize
  }

  /** A buffer is accepted exactly when it is whole blocks, and then the blocks are its bytes. */
  lemma BlocksCover(cmd: Command, blockSize: nat)
    ensures blockSize == 0 ==> Blocks(cmd, blockSize) == Err(InvalidBlockSize)
    ensures blockSize > 0 ==>
      var whole := cmd.Delete? || Bytes(cmd, blockSize) % blockSize == 0;
      && (!whole ==> Blocks(cmd, blockSize) == Err(UnalignedBuffer))
      && (whole ==> Blocks(cmd, blockSize).Ok? && Blocks(cmd, blockSize).value * blockSize == Bytes(cmd, blockSize))
  {
  }

  /** A 64-bit addition that reports overflow. */
  function CheckedAdd(a: nat, b: nat): Result<nat> {
    if a + b < U64 then Ok(a + b) else Err(OutOfBounds)
  }

  /** The open-mode check of a consumer. */
  function ModeCheck(counts: Counts, cmd: Command): Result<()> {
    match cmd
    case Read(_) => if counts.read <= 0 then Err(NotReady) else Ok(())
    case Write(_) => if counts.write <= 0 then Err(ReadOnly) else Ok(())
    case Delete(_) => if counts.write <= 0 then Err(ReadOnly) else Ok(())
    case Flush => Ok(())
  }

  /** Everything a consumer checks before it passes a request on. */
  function ConsumerCheck(counts: Counts, blockSize: nat, capacity: nat, cmd: Command, lba: nat): Result<()> {
    match Blocks(cmd, blockSize)
    case Err(e) => Err(e)
    case Ok(blocks) =>
      if !cmd.Flush? && (capacity == 0 || lba > capacity || CheckedAdd(lba, blocks).Err? || lba + blocks > capacity)
      then Err(OutOfBounds)
      else ModeCheck(counts, cmd)
  }

  /** What a partition makes of the block address. */
  function Translate(blockSize: nat, start: nat, capacity: nat, cmd: Command, lba: nat): Result<nat> {
    if cmd.Flush? then Ok(lba)
    else
      match Blocks(cmd, blockSize)
      case Err(e) => Err(e)
      case Ok(blocks) =>
        if lba > capacity || CheckedAdd(lba, blocks).Err? || lba + blocks > capacity then Err(OutOfBounds)
        else CheckedAdd(lba, start)
  }

  function BlockSize(f: Forest, p: nat): nat
    requires Shaped(f) && p < |f.providers|
    decreases p
  {
    assert ProviderOk(f, p);
    if f.providers[p].Hardware? then f.providers[p].blockSize
    else BlockSize(f, f.consumers[f.providers[p].parent].provider)
  }

  /** The check of consumer `c`, with the sizes its provider reports. */
  function Check(f: Forest, c: nat, cmd: Command, lba: nat): Result<()>
    requires IsConsumer(f, c)
  {
    var p := f.consumers[c].provider;
    ConsumerCheck(f.consumers[c].counts, BlockSize(f, p), Capacity(f.providers[p]), cmd, lba)
  }

  /**
   * The check in bytes. The first reason to refuse counts: a device without a block size, a
   * buffer that is not whole blocks, an end beyond the capacity, and references that do not
   * allow the command.
   */
  lemma CheckInBytes(f: Forest, c: nat, cmd: Command, lba: nat)
    requires IsConsumer(f, c)
    ensures var (size, capacity, open) := Sizes(f, c);
      Check(f, c, cmd, lba) ==
        if size == 0 then Err(InvalidBlockSize)
        else if !cmd.Delete? && Bytes(cmd, size) % size != 0 then Err(UnalignedBuffer)
        else if !cmd.Flush? && (capacity == 0 || lba * size + Bytes(cmd, size) > capacity * size) then Err(OutOfBounds)
        else if cmd.Read? && open.read <= 0 then Err(NotReady)
        else if (cmd.Write? || cmd.Delete?) && open.write <= 0 then Err(ReadOnly)
        else Ok(())
  {
    var (size, capacity, open) := Sizes(f, c);
    CapacityFits(f, f.consumers[c].provider);
    BlockSizeOfLeaf(f, f.consumers[c].provider);
    BlocksCover(cmd, size);
    if size > 0 && Blocks(cmd, size).Ok? { InBlocks(lba, Blocks(cmd, size).value, capacity, size); }
  }

  /** The block size of the device, the capacity of the provider and the consumer's own references. */
  function Sizes(f: Forest, c: nat): (nat, nat, Counts)
    requires IsConsumer(f, c)
  {
    (f.providers[LeafOf(f, c)].blockSize, Capacity(f.providers[f.consumers[c].provider]), f.consumers[c].counts)
  }

  lemma InBlocks(lba: nat, blocks: nat, capacity: nat, size: nat)
    requires size > 0
    ensures lba + blocks > capacity <==> lba * size + blocks * size > capacity * size
  {
    assert lba * size + blocks * size == (lba + blocks) * size;
    if lba + blocks > capacity { assert (lba + blocks - capacity) * size > 0; }
    else { assert (capacity - lba - blocks) * size >= 0; }
  }

  lemma {:induction false} BlockSizeOfLeaf(f: Forest, p: nat)
    requires Shaped(f) && p < |f.providers|
    ensures BlockSize(f, p) == f.providers[Leaf(f, p)].blockSize
    decreases p
  {
    assert ProviderOk(f, p);
    if f.providers[p].Partition? { BlockSizeOfLeaf(f, f.consumers[f.providers[p].parent].provider); }
  }

  /** The device address a request to `c` ends at, or the first check on the way that refuses it. */
  function Route(f: Forest, c: nat, cmd: Command, lba: nat): Result<nat>
    requires IsConsumer(f, c)
    decreases f.consumers[c].provider, 1
  {
    match Check(f, c, cmd, lba)
    case Err(e) => Err(e)
    case Ok(_) => RouteProvider(f, f.consumers[c].provider, cmd, lba)
  }

  function RouteProvider(f: Forest, p: nat, cmd: Command, lba: nat): Result<nat>
    requires Shaped(f) && p < |f.providers|
    decreases p, 0
  {
    assert ProviderOk(f, p);
    match f.providers[p]
    case Hardware(_, _, _, _) => Ok(lba)
    case Partition(parent, start, blocks) =>
      match Translate(BlockSize(f, p), start, blocks, cmd, lba)
      case Err(e) => Err(e)
      case Ok(lower) => Route(f, parent, cmd, lower)
  }

  /** A request that passes one consumer's checks passes the partition's and the next consumer's. */
  lemma PassesDown(f: Forest, c: nat, cmd: Command, lba: nat)
    requires IsConsumer(f, c) && Balanced(f) && f.providers[f.consumers[c].provider].Partition?
    requires Check(f, c, cmd, lba).Ok?
    ensures var part := f.providers[f.consumers[c].provider];
            && part.parent < |f.consumers|
            && var lower := if cmd.Flush? then lba else lba + part.start;
            && Translate(BlockSize(f, f.consumers[c].provider), part.start, part.blocks, cmd, lba) == Ok(lower)
            && Check(f, part.parent, cmd, lower).Ok?
  {
    var p := f.consumers[c].provider;
    assert ProviderOk(f, p);
    var q := f.consumers[f.providers[p].parent].provider;
    RecordedAbove(f, c);
    CapacityFits(f, q);
    assert BlockSize(f, p) == BlockSize(f, q);
  }

  lemma {:induction false} CapacityFits(f: Forest, p: nat)
    requires Shaped(f) && p < |f.providers|
    ensures Capacity(f.providers[p]) < U64
    decreases p
  {
    assert ProviderOk(f, p);
    if f.providers[p].Partition? { CapacityFits(f, f.consumers[f.providers[p].parent].provider); }
  }

  /** The device address: the request's own plus every partition start on the way. A flush keeps its address. */
  function DeviceLba(f: Forest, c: nat, cmd: Command, lba: nat): nat
    requires IsConsumer(f, c)
  {
    if cmd.Flush? then lba else lba + Base(f, f.consumers[c].provider)
  }

  /** At any depth, a request is refused by its first consumer or by nobody, and ends at its address plus all starts. */
  lemma {:induction false} RouteDecidedAtTop(f: Forest, c: nat, cmd: Command, lba: nat)
    requires IsConsumer(f, c) && Balanced(f)
    ensures Route(f, c, cmd, lba) ==
      match Check(f, c, cmd, lba)
      case Err(e) => Err(e)
      case Ok(_) => Ok(DeviceLba(f, c, cmd, lba))
    decreases f.consumers[c].provider
  {
    var p := f.consumers[c].provider;
    assert ProviderOk(f, p);
    if Check(f, c, cmd, lba).Ok? && f.providers[p].Partition? {
      PassesDown(f, c, cmd, lba);
      RouteDecidedAtTop(f, f.providers[p].parent, cmd, if cmd.Flush? then lba else lba + f.providers[p].start);
    }
  }

  /** The bytes of the device an accepted request touches lie inside every enclosing window. */
  lemma Confined(f: Forest, c: nat, cmd: Command, lba: nat, q: nat)
    requires IsConsumer(f, c) && Encloses(f, q, f.consumers[c].provider) && !cmd.Flush?
    requires Check(f, c, cmd, lba).Ok?
    ensures q < |f.providers|
    ensures var size := f.providers[LeafOf(f, c)].blockSize;
            && Base(f, q) * size <= DeviceLba(f, c, cmd, lba) * size
            && DeviceLba(f, c, cmd, lba) * size + Bytes(cmd, size) <= (Base(f, q) + Capacity(f.providers[q])) * size
  {
    var p := f.consumers[c].provider;
    WindowsNest(f, q, p);
    CheckInBytes(f, c, cmd, lba);
    var (size, capacity, open) := Sizes(f, c);
    hide Check, Base, Leaf, Encloses, Bytes;
    InWindow(lba, Bytes(cmd, size), Base(f, p), capacity, Base(f, q), Capacity(f.providers[q]), size);
  }

  lemma InWindow(lba: nat, bytes: nat, base: nat, capacity: nat, outer: nat, room: nat, size: nat)
    requires lba * size + bytes <= capacity * size && outer <= base && base + capacity <= outer + room
    ensures outer * size <= (lba + base) * size && (lba + base) * size + bytes <= (outer + room) * size
  {
    TimesMonotone(outer, lba + base, size);
    TimesMonotone(base + capacity, outer + room, size);
    assert (lba + base) * size == lba * size + base * size;
    assert (base + capacity) * size == base * size + capacity * size;
  }

  lemma TimesMonotone(a: nat, b: nat, n: nat)
    requires a <= b
    ensures a * n <= b * n
  {
    assert (b - a) * n >= 0;
  }

  /** Accepted requests below two disjoint partitions of one provider touch no common byte. */
  lemma SiblingRequestsDisjoint(f: Forest, p: nat, q: nat, c: nat, e: nat, cmd: Command, lba: nat, other: Command,
      otherLba: nat)
    requires IsConsumer(f, c) && IsConsumer(f, e) && p < |f.providers| && q < |f.providers|
    requires f.providers[p].Partition? && f.providers[q].Partition? && ProviderOk(f, p) && ProviderOk(f, q)
    requires f.consumers[f.providers[p].parent].provider == f.consumers[f.providers[q].parent].provider
    requires f.providers[p].start + f.providers[p].blocks <= f.providers[q].start
    requires Encloses(f, p, f.consumers[c].provider) && Encloses(f, q, f.consumers[e].provider)
    requires !cmd.Flush? && !other.Flush? && Check(f, c, cmd, lba).Ok? && Check(f, e, other, otherLba).Ok?
    ensures var size := f.providers[LeafOf(f, c)].blockSize;
            && LeafOf(f, e) == LeafOf(f, c)
            && DeviceLba(f, c, cmd, lba) * size + Bytes(cmd, size) <= DeviceLba(f, e, other, otherLba) * size
  {
    Confined(f, c, cmd, lba, p);
    Confined(f, e, other, otherLba, q);
    EnclosedLeaf(f, p, f.consumers[c].provider);
    EnclosedLeaf(f, q, f.consumers[e].provider);
    TimesMonotone(Base(f, p) + Capacity(f.providers[p]), Base(f, q), f.providers[LeafOf(f, c)].blockSize);
  }

  lemma {:induction false} EnclosedLeaf(f: Forest, q: nat, p: nat)
    requires Shaped(f) && p < |f.providers| && Encloses(f, q, p)
    ensures q < |f.providers| && Leaf(f, p) == Leaf(f, q)
    decreases p
  {
    assert ProviderOk(f, p);
    if q != p { EnclosedLeaf(f, q, f.consumers[f.providers[p].parent].provider); }
  }

  /** A request that changes the device comes through a chain of writers, so the leaf has one. */
  lemma WritersBelow(f: Forest, c: nat, cmd: Command, lba: nat)
    requires IsConsumer(f, c) && Balanced(f) && Check(f, c, cmd, lba).Ok? && (cmd.Write? || cmd.Delete?)
    ensures f.providers[LeafOf(f, c)].counts.write > 0
  {
    LeafAbove(f, c);
  }
}
