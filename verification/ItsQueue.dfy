/**
 * The ITS command queue: the driver writes commands into a ring and advances
 * CWRITER, the hardware consumes them and advances CREADR at its own pace.
 */
module ItsQueue {

  datatype Command = Command(w0: nat, w1: nat, w2: nat, w3: nat)

  const ZERO := Command(0, 0, 0, 0)

  datatype PushResult = Done | QueueFull | Stalled | TimedOut

  const MAX_SPINS: nat := 1_000_000
  const MAX_RETRIES: nat := 3

  /** What the hardware does before one register access: commands it consumes, and whether it reports a stall. */
  datatype Tick = Tick(consumes: nat, stalled: bool)

  function Min(a: nat, b: nat): nat { if a < b then a else b }

  /** Commands consumed in the polling loop before turn i. */
  function Before(hw: nat -> Tick, i: nat): nat
    decreases i, 0
  {
    if i == 0 then 0 else Consumed(hw, i - 1) + hw(2 + 2 * i).consumes
  }

  /** Commands consumed in the polling loop when turn i looks at CREADR. */
  function Consumed(hw: nat -> Tick, i: nat): nat
    decreases i, 1
  {
    Before(hw, i) + hw(3 + 2 * i).consumes
  }

  /** Stalls reported before turn i of the polling loop. */
  function Stalls(hw: nat -> Tick, i: nat): nat {
    if i == 0 then 0 else Stalls(hw, i - 1) + if hw(2 + 2 * i).stalled then 1 else 0
  }

  lemma ConsumedIs(hw: nat -> Tick, i: nat)
    ensures Consumed(hw, i) == Before(hw, i) + hw(3 + 2 * i).consumes
    ensures Before(hw, i + 1) == Consumed(hw, i) + hw(4 + 2 * i).consumes
  {
  }

  /** With `left` commands outstanding when polling begins, turn i finds the queue drained. */
  ghost predicate Drained(hw: nat -> Tick, left: nat, i: nat) {
    Consumed(hw, i) >= left
  }

  /** Turn i gives up: a stall is reported once all retries are spent. */
  ghost predicate GivesUp(hw: nat -> Tick, i: nat) {
    Stalls(hw, i) == 3 && hw(4 + 2 * i).stalled
  }

  /** No turn before i ends the loop. */
  ghost predicate Waits(hw: nat -> Tick, left: nat, i: nat) {
    forall j: nat :: j < i ==> !Drained(hw, left, j) && !GivesUp(hw, j)
  }

  lemma NoneBefore(hw: nat -> Tick, left: nat)
    ensures Waits(hw, left, 0) && Stalls(hw, 0) == 0
  {
  }

  /** One turn: what it adds to the stalls, when it gives up, and when it goes on to the next. */
  lemma TurnIs(hw: nat -> Tick, left: nat, i: nat)
    ensures Stalls(hw, i + 1) == Stalls(hw, i) + if hw(4 + 2 * i).stalled then 1 else 0
    ensures GivesUp(hw, i) <==> Stalls(hw, i) == MAX_RETRIES && hw(4 + 2 * i).stalled
    ensures Waits(hw, left, i) && !Drained(hw, left, i) && !GivesUp(hw, i) ==> Waits(hw, left, i + 1)
  {
  }

  // ---------------------------------------------------------------- offsets

  /** The slot of the k-th command. */
  function Slot(k: nat, n: nat): (i: nat)
    requires n > 0
    ensures i < n
  {
    k % n
  }

  /** The offset after `offset`, going round. */
  function After(offset: nat, n: nat): (i: nat)
    requires n > 0
    ensures i < n
  {
    (offset + 1) % n
  }

  lemma Multiple(n: int, q: int)
    requires n >= 0
    ensures q >= 1 ==> n * q >= n
    ensures q <= -1 ==> n * q <= 0 - n
  {
  }

  lemma Remainder(x: nat, q: int, r: nat, n: nat)
    requires r < n && x == n * q + r
    ensures Slot(x, n) == r
  {
    assert x == n * (x / n) + x % n;
    assert n * (q - x / n) == n * q - n * (x / n);
    Multiple(n, q - x / n);
  }

  /** Commands less than n apart share a slot only if they are the same. */
  lemma SameSlot(a: nat, b: nat, n: nat)
    requires n > 0 && a <= b < a + n
    ensures Slot(a, n) == Slot(b, n) <==> a == b
  {
    if Slot(a, n) == Slot(b, n) {
      assert a == n * (a / n) + a % n && b == n * (b / n) + b % n;
      assert n * (b / n - a / n) == n * (b / n) - n * (a / n);
      Multiple(n, b / n - a / n);
    }
  }

  lemma NextSlot(a: nat, n: nat)
    requires n > 0
    ensures After(Slot(a, n), n) == Slot(a + 1, n)
  {
    var q, r := a / n, a % n;
    assert a == n * q + r;
    if r + 1 < n {
      Remainder(a + 1, q, r + 1, n);
      Small(r + 1, n);
    } else {
      assert n * (q + 1) == n * q + n;
      Remainder(a + 1, q + 1, 0, n);
    }
  }

  lemma Small(r: nat, n: nat)
    requires r < n
    ensures r % n == r
  {
  }

  /** The slot after the last command is the oldest outstanding one's just when n - 1 are outstanding. */
  lemma FullIff(a: nat, b: nat, n: nat)
    requires n > 0 && a <= b < a + n
    ensures After(Slot(b, n), n) == Slot(a, n) <==> b - a == n - 1
  {
    NextSlot(b, n);
    if b + 1 < a + n {
      SameSlot(a, b + 1, n);
    } else {
      assert a == n * (a / n) + a % n;
      assert n * (a / n + 1) == n * (a / n) + n;
      Remainder(a + n, a / n + 1, a % n, n);
    }
  }

  /** What is left of n outstanding commands once `count` may have been consumed. */
  function Rest(n: nat, count: nat): nat {
    if count <= n then n - count else 0
  }

  class CommandQueue {
    const slots: array<Command>
    const entries: nat
    /** The driver's copy of CWRITER, and the two registers. */
    var writeOffset: nat
    var cwriter: nat
    var creadr: nat
    /** All commands made visible to the hardware, and all it has consumed, since the start. */
    ghost var pushed: seq<Command>
    ghost var consumed: seq<Command>

    ghost predicate Valid()
      reads this, slots
    {
      && entries == slots.Length > 0
      && writeOffset == cwriter == Slot(|pushed|, entries) && creadr == Slot(|consumed|, entries)
      && consumed <= pushed
      && |pushed| - |consumed| < entries
      && forall k :: |consumed| <= k < |pushed| ==> slots[Slot(k, entries)] == pushed[k]
    }

    ghost function Outstanding(): nat
      reads this
    {
      if consumed <= pushed then |pushed| - |consumed| else 0
    }

    constructor (n: nat)
      requires n > 0
      ensures Valid() && entries == n && pushed == consumed == [] && fresh(slots)
    {
      slots := new Command[n](_ => ZERO);
      entries := n;
      writeOffset, cwriter, creadr := 0, 0, 0;
      pushed, consumed := [], [];
    }

    /** The hardware consumes up to `count` commands, each from the slot CREADR names, and stops at CWRITER. */
    method Hardware(count: nat)
      requires Valid()
      modifies this`creadr, this`consumed
      ensures Valid() && old(consumed) <= consumed
      ensures consumed == pushed[..|old(consumed)| + Min(count, old(Outstanding()))]
      ensures Outstanding() == Rest(old(Outstanding()), count)
    {
      hide Slot, After;
      var left := count;
      ghost var done := 0;
      SameSlot(|consumed|, |pushed|, entries);
      while left > 0 && creadr != cwriter
        invariant Valid() && left >= 0 && done + left == count && done <= old(Outstanding())
        invariant consumed == pushed[..|old(consumed)| + done]
        invariant left > 0 && creadr == cwriter ==> done == old(Outstanding())
        decreases left
      {
        SameSlot(|consumed|, |pushed|, entries);
        NextSlot(|consumed|, entries);
        var command := slots[creadr];
        creadr := After(creadr, entries);
        consumed := consumed + [command];
        left, done := left - 1, done + 1;
        SameSlot(|consumed|, |pushed|, entries);
      }
      assert done == Min(count, old(Outstanding()));
    }

    /**
     * Pushes one command while the hardware runs beside it.
     * `left` is the number of outstanding commands when polling begins.
     */
    method Push(build: Command -> Command, hw: nat -> Tick) returns (r: PushResult, ghost left: nat)
      requires Valid()
      modifies this, slots
      ensures Valid() && old(consumed) <= consumed
      ensures r == QueueFull <==> Rest(old(Outstanding()), hw(0).consumes) == entries - 1
      ensures pushed == old(pushed) + if r == QueueFull then [] else [build(ZERO)]
      ensures r == QueueFull ==> forall i :: 0 <= i < slots.Length ==> slots[i] == old(slots[i])
      ensures r == Done ==> consumed == pushed
      ensures r != QueueFull ==>
                left == Rest(old(Outstanding()), hw(0).consumes + hw(1).consumes + hw(2).consumes) + 1 < entries
      ensures r == Done ==> exists i: nat :: i < 1_000_000 && Waits(hw, left, i) && Drained(hw, left, i)
      ensures r == Stalled ==>
                exists i: nat :: i < 1_000_000 && Waits(hw, left, i) && !Drained(hw, left, i) && GivesUp(hw, i)
      ensures r == TimedOut ==> Waits(hw, left, 1_000_000)
    {
      hide Slot, After, Waits, Drained, GivesUp;
      left := 0;
      Hardware(hw(0).consumes);
      var current := creadr;
      var next := After(writeOffset, entries);
      NextSlot(|pushed|, entries);
      FullIff(|consumed|, |pushed|, entries);
      if next == current {
        assert Outstanding() == entries - 1;
        return QueueFull, left;
      }
      assert Outstanding() < entries - 1;
      Enqueue(next, build, hw);
      left := Outstanding();
      r := Poll(next, hw, left);
    }

    /** Fills the next slot and hands it to the hardware by moving CWRITER on. */
    method Enqueue(next: nat, build: Command -> Command, hw: nat -> Tick)
      requires Valid() && Outstanding() < entries - 1 && next == After(writeOffset, entries)
      modifies this, slots
      ensures Valid() && cwriter == next && old(consumed) <= consumed
      ensures pushed == old(pushed) + [build(ZERO)]
      ensures Outstanding() == Rest(old(Outstanding()), hw(1).consumes + hw(2).consumes) + 1
    {
      hide Slot, After, Valid;
      Hardware(hw(1).consumes);
      WriteSlot(build);
      Hardware(hw(2).consumes);
      MoveOn(next, build(ZERO));
    }

    /** Moves CWRITER on past a slot that holds a command. */
    method MoveOn(next: nat, ghost command: Command)
      requires Valid() && Outstanding() < entries - 1 && next == After(writeOffset, entries)
      requires writeOffset < slots.Length && slots[writeOffset] == command
      modifies this`writeOffset, this`cwriter, this`pushed
      ensures Valid() && cwriter == next && pushed == old(pushed) + [command] && Outstanding() == old(Outstanding()) + 1
    {
      hide Slot, After;
      NextSlot(|pushed|, entries);
      writeOffset := next;
      cwriter := next;
      pushed := pushed + [command];
    }

    /** Clears and fills the slot at the write offset, which no outstanding command occupies. */
    method WriteSlot(build: Command -> Command)
      requires Valid() && Outstanding() < entries - 1
      modifies slots
      ensures Valid() && writeOffset < slots.Length && slots[writeOffset] == build(ZERO)
      ensures forall i :: 0 <= i < slots.Length && i != writeOffset ==> slots[i] == old(slots[i])
    {
      hide Slot, After;
      forall k | |consumed| <= k < |pushed| ensures Slot(k, entries) != writeOffset {
        SameSlot(k, |pushed|, entries);
      }
      slots[writeOffset] := ZERO;
      slots[writeOffset] := build(slots[writeOffset]);
    }

    /** Waits until CREADR reaches `next`, retrying a stalled queue a few times. */
    method Poll(next: nat, hw: nat -> Tick, ghost left: nat) returns (r: PushResult)
      requires Valid() && next == cwriter && left == Outstanding()
      modifies this`creadr, this`consumed
      ensures Valid() && old(consumed) <= consumed
      ensures r != QueueFull && (r == Done ==> consumed == pushed)
      ensures r == Done ==> exists i: nat :: i < MAX_SPINS && Waits(hw, left, i) && Drained(hw, left, i)
      ensures r == Stalled ==>
                exists i: nat :: i < MAX_SPINS && Waits(hw, left, i) && !Drained(hw, left, i) && GivesUp(hw, i)
      ensures r == TimedOut ==> Waits(hw, left, MAX_SPINS)
    {
      hide Slot, After, Consumed, Waits, GivesUp, Stalls;
      NoneBefore(hw, left);
      var retries := 0;
      for i := 0 to MAX_SPINS
        invariant Valid() && old(consumed) <= consumed && retries == Stalls(hw, i) <= MAX_RETRIES
        invariant Waits(hw, left, i)
        invariant Outstanding() == left - Min(left, Before(hw, i))
      {
        Hardware(hw(3 + 2 * i).consumes);
        ConsumedIs(hw, i);
        assert Outstanding() == left - Min(left, Consumed(hw, i));
        SameSlot(|consumed|, |pushed|, entries);
        TurnIs(hw, left, i);
        if creadr == next {
          return Done;
        }
        Hardware(hw(4 + 2 * i).consumes);
        if hw(4 + 2 * i).stalled {
          if retries < MAX_RETRIES {
            retries := retries + 1;
          } else {
            return Stalled;
          }
        }
      }
      return TimedOut;
    }
  }
}
