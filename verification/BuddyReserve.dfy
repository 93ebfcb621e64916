/** How many pages of a region are set aside for its metadata bytes and its zone record. */
module BuddyReserve {
  import opened BuddyLinks

  /** Pages needed for one metadata byte per usable page and the zone record. */
  function Needed(total: nat, reserved: nat): nat
    requires reserved <= total
  {
    (total - reserved + ZONE_SIZE + PAGE_SIZE - 1) / PAGE_SIZE
  }

  predicate Settled(total: nat, reserved: nat) {
    reserved <= total && Needed(total, reserved) == reserved
  }

  /** The region sizes for which the search oscillates for ever. */
  predicate NeverSettles(total: nat) {
    total > 0 && (total + ZONE_SIZE - 1) % (PAGE_SIZE + 1) == 0
  }

  lemma NeededFits(total: nat, reserved: nat)
    requires 0 < total && reserved <= total
    ensures 0 < Needed(total, reserved) <= total
  {
  }

  lemma NeededDecreasing(total: nat, a: nat, b: nat)
    requires a <= b <= total
    ensures Needed(total, b) <= Needed(total, a)
    ensures Needed(total, a) - Needed(total, b) <= b - a
    ensures b - a >= 2 ==> Needed(total, a) - Needed(total, b) < b - a
  {
  }

  /** A reservation that covers its own metadata exists exactly outside the oscillating sizes. */
  lemma SettlesIff(total: nat)
    requires total > 0
    ensures (exists r: nat :: Settled(total, r)) <==> !NeverSettles(total)
  {
    var q, m := (total + ZONE_SIZE - 1) / (PAGE_SIZE + 1), (total + ZONE_SIZE - 1) % (PAGE_SIZE + 1);
    assert total + ZONE_SIZE - 1 == (PAGE_SIZE + 1) * q + m;
    if m > 0 {
      assert Settled(total, q + 1);
    } else if r: nat :| Settled(total, r) {
      NoneWhenMultiple(total, q, r);
    }
  }

  lemma NoneWhenMultiple(total: nat, q: nat, r: nat)
    requires total > 0 && total + ZONE_SIZE - 1 == (PAGE_SIZE + 1) * q
    ensures !Settled(total, r)
  {
  }

  /** A two-cycle of the search rules out a settled reservation. */
  lemma CycleNeverSettles(total: nat, r: nat, s: nat)
    requires r + 1 <= total && Needed(total, r) == r + 1 && Needed(total, r + 1) == r
    ensures !Settled(total, s)
  {
    if s <= r {
      NeededDecreasing(total, s, r);
    } else if s <= total {
      NeededDecreasing(total, r + 1, s);
    }
  }

  /** How far one step of the search moves. */
  function Gap(total: nat, reserved: nat): nat
    requires reserved <= total
  {
    var n := Needed(total, reserved);
    if n <= reserved then reserved - n else n - reserved
  }

  lemma GapShrinks(total: nat, r: nat)
    requires total > 0 && !NeverSettles(total) && r <= total && Needed(total, r) != r && Needed(total, r) <= total
    ensures Gap(total, Needed(total, r)) < Gap(total, r)
  {
    var n := Needed(total, r);
    NeededDecreasing(total, if r <= n then r else n, if r <= n then n else r);
    if Gap(total, r) == 1 && Gap(total, n) == 1 {
      SettlesIff(total);
      var s: nat :| Settled(total, s);
      CycleNeverSettles(total, if r <= n then r else n, s);
    }
  }

  // ---------------------------------------------------------------- the sizes that never settle

  /** The reservation after n turns of the search from r. */
  function Turns(total: nat, r: nat, n: nat): (s: nat)
    requires 0 < total && r <= total
    ensures s <= total
    decreases n
  {
    if n == 0 then r else NeededFits(total, r); Turns(total, Needed(total, r), n - 1)
  }

  lemma {:induction false} TurnsAdd(total: nat, r: nat, m: nat, n: nat)
    requires 0 < total && r <= total
    ensures Turns(total, r, m + n) == Turns(total, Turns(total, r, m), n)
    decreases m
  {
    if m > 0 {
      NeededFits(total, r);
      TurnsAdd(total, Needed(total, r), m - 1, n);
    }
  }

  /** The gap shrinks until the search is between two neighbours. */
  lemma {:induction false} ReachesNeighbours(total: nat, r: nat) returns (n: nat)
    requires NeverSettles(total) && r <= total
    ensures Gap(total, Turns(total, r, n)) == 1
    decreases Gap(total, r)
  {
    SettlesIff(total);
    assert !Settled(total, r);
    if Gap(total, r) == 1 { return 0; }
    NeededFits(total, r);
    var s := Needed(total, r);
    NeededDecreasing(total, if r <= s then r else s, if r <= s then s else r);
    n := ReachesNeighbours(total, s);
    n := n + 1;
  }

  lemma NeighboursCycle(total: nat, r: nat)
    requires NeverSettles(total) && r <= total && Needed(total, r) == r + 1
    ensures r + 1 <= total && Needed(total, r + 1) == r
  {
    NeededFits(total, r);
    SettlesIff(total);
    NeededDecreasing(total, r, r + 1);
    assert !Settled(total, r + 1);
  }

  lemma {:induction false} CycleTurns(total: nat, r: nat, k: nat)
    requires r + 1 <= total && Needed(total, r) == r + 1 && Needed(total, r + 1) == r
    ensures Turns(total, r, 2 * k) == r
  {
    if k > 0 {
      CycleTurns(total, r, k - 1);
      assert Turns(total, r, 2 * k) == Turns(total, r + 1, 2 * k - 1) == Turns(total, r, 2 * (k - 1));
    }
  }

  ghost predicate Alternates(total: nat, n: nat, r: nat, k: nat)
    requires 0 < total
  {
    Turns(total, 0, n + 2 * k) == r && Turns(total, 0, n + 2 * k + 1) == r + 1
  }

  /** For a size with no settled reservation the search runs into a two-cycle and stays in it. */
  lemma SearchOscillates(total: nat) returns (n: nat, r: nat)
    requires NeverSettles(total)
    ensures forall k: nat :: Alternates(total, n, r, k)
  {
    n := ReachesNeighbours(total, 0);
    r := Turns(total, 0, n);
    NeededFits(total, r);
    if Needed(total, r) == r - 1 {
      TurnsAdd(total, 0, n, 1);
      NeededDecreasing(total, r - 1, r);
      SettlesIff(total);
      assert !Settled(total, r - 1);
      n, r := n + 1, r - 1;
    }
    assert r == Turns(total, 0, n) && Needed(total, r) == r + 1;
    NeighboursCycle(total, r);
    forall k: nat ensures Alternates(total, n, r, k) {
      CycleTurns(total, r, k);
      TurnsAdd(total, 0, n, 2 * k);
      TurnsAdd(total, 0, n + 2 * k, 1);
    }
  }

  /** A region of 16354 pages is of such a size: the search alternates between one page and two. */
  lemma OscillatesAt16354()
    ensures NeverSettles(16354) && forall r: nat :: !Settled(16354, r)
    ensures Needed(16354, 0) == 2 && Needed(16354, 2) == 1 && Needed(16354, 1) == 2
  {
    SettlesIff(16354);
  }

  lemma SettledUnique(total: nat, a: nat, b: nat)
    requires Settled(total, a) && Settled(total, b)
    ensures a == b
  {
    if a < b { NeededDecreasing(total, a, b); }
    if b < a { NeededDecreasing(total, b, a); }
  }

  /**
   * The search of `add_range`. It stops for every region that has a settled
   * reservation, at the only one there is; the metadata bytes and the zone
   * record fit in it side by side, and from two pages on a page stays usable.
   */
  method ReservePages(total: nat) returns (reserved: nat)
    requires total > 0 && !NeverSettles(total)
    ensures Settled(total, reserved)
    ensures forall r: nat :: Settled(total, r) ==> r == reserved
    ensures (total - reserved) + ZONE_SIZE <= reserved * PAGE_SIZE
    ensures total >= 2 <==> reserved < total
  {
    reserved := 0;
    while true
      invariant reserved <= total
      decreases Gap(total, reserved)
    {
      var usable := total - reserved;
      var neededBytes := usable + ZONE_SIZE;
      var neededReserved := (neededBytes + PAGE_SIZE - 1) / PAGE_SIZE;
      if neededReserved == reserved { break; }
      NeededFits(total, reserved);
      GapShrinks(total, reserved);
      reserved := neededReserved;
    }
    forall r: nat | Settled(total, r) ensures r == reserved { SettledUnique(total, r, reserved); }
  }
}
