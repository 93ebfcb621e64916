/**
 * Building the direct map from the firmware's memory map: page-aligned ranges
 * are sorted and merged, then swept page by page with a list of the descriptors
 * that reach into the page.
 */
module DirectMap {
  import opened Wrappers

  const PAGE_SIZE: nat := 16384
  const UEFI_PAGE: nat := 4096

  datatype Desc = Desc(start: nat, pages: nat, uncacheable: bool) {
    function End(): nat { start + pages * UEFI_PAGE }
  }

  /** One `map_page` call: the page and the descriptor whose attributes it gets. */
  datatype Call = Call(pa: nat, desc: nat)

  datatype Range = Range(start: nat, end: nat)

  function AlignDown(a: nat): nat { a - a % PAGE_SIZE }
  function AlignUp(a: nat): nat { AlignDown(a + PAGE_SIZE - 1) }

  // ---------------------------------------------------------------- what it should do

  /** The descriptor reaches into the page at `pa`. */
  predicate Overlaps(d: Desc, pa: nat) {
    d.start < pa + 16384 && pa < d.start + d.pages * 4096
  }

  predicate Reaches(descs: seq<Desc>, i: nat, pa: nat) {
    i < |descs| && Overlaps(descs[i], pa)
  }

  ghost predicate Covered(descs: seq<Desc>, pa: nat) {
    exists i: nat :: Reaches(descs, i, pa)
  }

  /** Of the candidates, the first uncacheable one, or the first of all if none is uncacheable. */
  ghost predicate Pick(descs: seq<Desc>, candidates: iset<nat>, i: nat) {
    && i in candidates && i < |descs|
    && (if exists j :: j in candidates && j < |descs| && descs[j].uncacheable
        then descs[i].uncacheable && forall j :: j in candidates && j < i ==> !descs[j].uncacheable
        else forall j :: j in candidates ==> i <= j)
  }

  ghost function Reaching(descs: seq<Desc>, pa: nat): iset<nat> {
    iset i: nat | Reaches(descs, i, pa)
  }

  /** Exactly the covered pages are mapped, in ascending order, each once and from its best descriptor. */
  ghost predicate Exact(descs: seq<Desc>, calls: seq<Call>) {
    && Ascending(calls)
    && (forall i :: 0 <= i < |calls| ==>
        calls[i].pa % PAGE_SIZE == 0 && Pick(descs, Reaching(descs, calls[i].pa), calls[i].desc))
    && (forall pa: nat :: pa % PAGE_SIZE == 0 && Covered(descs, pa) ==> Mapped(calls, pa))
  }

  ghost predicate Ascending(calls: seq<Call>) {
    forall i, j :: 0 <= i < j < |calls| ==> calls[i].pa < calls[j].pa
  }

  /** The firmware lists its descriptors by start address. */
  ghost predicate SortedByStart(descs: seq<Desc>) {
    forall i, j :: 0 <= i < j < |descs| ==> descs[i].start <= descs[j].start
  }

  ghost predicate Mapped(calls: seq<Call>, pa: nat) {
    exists i :: 0 <= i < |calls| && calls[i].pa == pa
  }

  // ---------------------------------------------------------------- ranges

  predicate IsRange(r: Range) {
    r.start < r.end && r.start % PAGE_SIZE == 0 && r.end % PAGE_SIZE == 0
  }

  predicate InRange(r: Range, pa: nat) {
    r.start <= pa < r.end
  }

  ghost predicate InSome(ranges: seq<Range>, pa: nat) {
    exists i :: 0 <= i < |ranges| && InRange(ranges[i], pa)
  }

  /** For a page address, lying in the rounded range and reaching into the page are the same. */
  lemma RoundedRange(d: Desc, pa: nat)
    requires pa % PAGE_SIZE == 0
    ensures InRange(Range(AlignDown(d.start), AlignUp(d.End())), pa) <==> Overlaps(d, pa)
  {
  }

  /** The page-rounded ranges of the descriptors; those that round to nothing are dropped. */
  method BuildRanges(descs: seq<Desc>) returns (ranges: seq<Range>)
    ensures forall i :: 0 <= i < |ranges| ==> IsRange(ranges[i])
    ensures forall pa: nat :: pa % PAGE_SIZE == 0 ==> (InSome(ranges, pa) <==> Covered(descs, pa))
  {
    ranges := [];
    for n := 0 to |descs|
      invariant forall i :: 0 <= i < |ranges| ==> IsRange(ranges[i])
      invariant forall pa: nat :: pa % PAGE_SIZE == 0 ==> (InSome(ranges, pa) <==> CoveredBy(descs, n, pa))
    {
      var desc := descs[n];
      var start := AlignDown(desc.start);
      var end := AlignUp(desc.End());
      ghost var before := ranges;
      if start < end {
        ranges := ranges + [Range(start, end)];
      }
      forall pa: nat | pa % PAGE_SIZE == 0 ensures InSome(ranges, pa) <==> CoveredBy(descs, n + 1, pa) {
        RoundedRange(desc, pa);
        AddRange(before, Range(start, end), pa);
        CoveredByStep(descs, n, pa);
      }
    }
  }

  ghost predicate CoveredBy(descs: seq<Desc>, n: nat, pa: nat) {
    exists i: nat :: i < n && Reaches(descs, i, pa)
  }

  lemma CoveredByStep(descs: seq<Desc>, n: nat, pa: nat)
    requires n < |descs|
    ensures CoveredBy(descs, n + 1, pa) <==> CoveredBy(descs, n, pa) || Overlaps(descs[n], pa)
    ensures n + 1 == |descs| ==> (CoveredBy(descs, n + 1, pa) <==> Covered(descs, pa))
  {
    if Overlaps(descs[n], pa) { assert Reaches(descs, n, pa); }
  }

  lemma AddRange(ranges: seq<Range>, r: Range, pa: nat)
    ensures InSome(ranges + [r], pa) <==> InSome(ranges, pa) || InRange(r, pa)
  {
    if i :| 0 <= i < |ranges| && InRange(ranges[i], pa) { assert (ranges + [r])[i] == ranges[i]; }
    assert (ranges + [r])[|ranges|] == r;
  }

  // ---------------------------------------------------------------- sorting

  ghost predicate Sorted(ranges: seq<Range>, n: nat) {
    forall i, j :: 0 <= i < j < n && j < |ranges| ==> ranges[i].start <= ranges[j].start
  }

  ghost predicate SameRanges(a: seq<Range>, b: seq<Range>) {
    multiset(a) == multiset(b)
  }

  lemma SameSelf(a: seq<Range>)
    ensures SameRanges(a, a)
  {
  }

  lemma SameTrans(a: seq<Range>, b: seq<Range>, c: seq<Range>)
    requires SameRanges(a, b) && SameRanges(b, c)
    ensures SameRanges(a, c)
  {
  }

  /** Insertion sort by start address. */
  method SortRanges(input: seq<Range>) returns (ranges: seq<Range>)
    ensures Sorted(ranges, |ranges|) && SameRanges(ranges, input)
  {
    ranges := input;
    var i := 1;
    while i < |ranges|
      invariant 1 <= i && (i <= |ranges| || |ranges| == 0) && SameRanges(ranges, input)
      invariant Sorted(ranges, i)
    {
      ranges := SinkRange(ranges, i);
      i := i + 1;
    }
  }

  /** Swaps element `n` down to its place among the sorted elements before it. */
  method SinkRange(input: seq<Range>, n: nat) returns (ranges: seq<Range>)
    requires n < |input| && Sorted(input, n)
    ensures |ranges| == |input| && SameRanges(ranges, input) && Sorted(ranges, n + 1)
  {
    hide SameRanges;
    ranges := input;
    assert SameRanges(ranges, input) by { SameSelf(input); }
    var j := n;
    while j > 0 && ranges[j - 1].start > ranges[j].start
      invariant 0 <= j <= n && |ranges| == |input| && SameRanges(ranges, input)
      invariant forall a, b :: 0 <= a < b <= n && b != j ==> ranges[a].start <= ranges[b].start
    {
      SameTrans(SwapDown(ranges, j), ranges, input);
      ranges := SwapDown(ranges, j);
      j := j - 1;
    }
  }

  function SwapDown(ranges: seq<Range>, j: nat): (r: seq<Range>)
    requires 0 < j < |ranges|
    ensures |r| == |ranges| && SameRanges(r, ranges)
  {
    ranges[j - 1 := ranges[j]][j := ranges[j - 1]]
  }

  // ---------------------------------------------------------------- merging

  /** Ascending ranges with a gap between any two. */
  ghost predicate Separate(merged: seq<Range>) {
    forall i, j :: 0 <= i < j < |merged| ==> merged[i].end < merged[j].start
  }

  lemma SameInSome(a: seq<Range>, b: seq<Range>, pa: nat)
    requires SameRanges(a, b) && InSome(a, pa)
    ensures InSome(b, pa)
  {
    var i :| 0 <= i < |a| && InRange(a[i], pa);
    assert a[i] in multiset(a);
    assert a[i] in b;
    var k :| 0 <= k < |b| && b[k] == a[i];
  }

  lemma SameIsRange(a: seq<Range>, b: seq<Range>)
    requires SameRanges(a, b) && forall i :: 0 <= i < |a| ==> IsRange(a[i])
    ensures forall i :: 0 <= i < |b| ==> IsRange(b[i])
  {
    forall i | 0 <= i < |b| ensures IsRange(b[i]) {
      assert b[i] in multiset(b);
      assert b[i] in a;
    }
  }

  /** Merges ranges that overlap or touch. */
  method MergeRanges(ranges: seq<Range>) returns (merged: seq<Range>)
    requires Sorted(ranges, |ranges|) && forall i :: 0 <= i < |ranges| ==> IsRange(ranges[i])
    ensures Separate(merged) && forall i :: 0 <= i < |merged| ==> IsRange(merged[i])
    ensures forall pa: nat :: InSome(merged, pa) <==> InSome(ranges, pa)
  {
    merged := [];
    for n := 0 to |ranges|
      invariant Separate(merged) && forall i :: 0 <= i < |merged| ==> IsRange(merged[i])
      invariant forall pa: nat :: InSome(merged, pa) <==> InSome(ranges[..n], pa)
      invariant merged != [] ==> forall k :: n <= k < |ranges| ==> merged[|merged| - 1].start <= ranges[k].start
    {
      var r := ranges[n];
      ghost var before := merged;
      assert ranges[..n + 1] == ranges[..n] + [r];
      if merged != [] && merged[|merged| - 1].end >= r.start {
        var last := |merged| - 1;
        if r.end > merged[last].end {
          merged := merged[last := Range(merged[last].start, r.end)];
        }
        forall pa: nat ensures InSome(merged, pa) <==> InSome(ranges[..n + 1], pa) {
          AddRange(ranges[..n], r, pa);
          Widen(before, merged, r, pa);
        }
      } else {
        merged := merged + [r];
        forall pa: nat ensures InSome(merged, pa) <==> InSome(ranges[..n + 1], pa) {
          AddRange(ranges[..n], r, pa);
          AddRange(before, r, pa);
        }
      }
    }
    assert ranges[..|ranges|] == ranges;
  }

  lemma Widen(before: seq<Range>, merged: seq<Range>, r: Range, pa: nat)
    requires before != [] && |merged| == |before|
    requires var last := before[|before| - 1];
             && last.start <= r.start <= last.end
             && merged == before[|before| - 1 := Range(last.start, if r.end > last.end then r.end else last.end)]
    ensures InSome(merged, pa) <==> InSome(before, pa) || InRange(r, pa)
  {
    var n := |before| - 1;
    if i :| 0 <= i < |merged| && InRange(merged[i], pa) {
      if i < n { assert before[i] == merged[i]; } else { assert InRange(before[n], pa) || InRange(r, pa); }
    }
    if i :| 0 <= i < |before| && InRange(before[i], pa) {
      assert InRange(merged[i], pa);
    }
    if InRange(r, pa) { assert InRange(merged[n], pa); }
  }

  // ---------------------------------------------------------------- the active list

  predicate Below(active: seq<nat>, n: nat) {
    forall k :: 0 <= k < |active| ==> active[k] < n
  }

  /** Of the first n descriptors, those that end beyond `pa`, in order. */
  function Beyond(descs: seq<Desc>, n: nat, pa: nat): (r: seq<nat>)
    requires n <= |descs|
    ensures Below(r, n)
  {
    if n == 0 then [] else if descs[n - 1].End() > pa then Beyond(descs, n - 1, pa) + [n - 1]
        else Beyond(descs, n - 1, pa)
  }

  /** `active.retain`: drops the descriptors that end at or before `pa`. */
  function Retain(descs: seq<Desc>, active: seq<nat>, pa: nat): seq<nat>
    requires Below(active, |descs|)
  {
    if active == [] then []
    else
      var last := active[|active| - 1];
      var rest := Retain(descs, active[..|active| - 1], pa);
      if descs[last].End() > pa then rest + [last] else rest
  }

  lemma {:induction false} BeyondIs(descs: seq<Desc>, n: nat, pa: nat, i: nat)
    requires n <= |descs|
    ensures i in Beyond(descs, n, pa) <==> i < n && descs[i].End() > pa
  {
    if n > 0 { BeyondIs(descs, n - 1, pa, i); }
  }

  lemma {:induction false} BeyondAscends(descs: seq<Desc>, n: nat, pa: nat)
    requires n <= |descs|
    ensures forall a, b :: 0 <= a < b < |Beyond(descs, n, pa)| ==> Beyond(descs, n, pa)[a] < Beyond(descs, n, pa)[b]
  {
    if n > 0 { BeyondAscends(descs, n - 1, pa); }
  }

  /** What was active for an earlier page, filtered for this one, is what is active now. */
  lemma {:induction false} RetainBeyond(descs: seq<Desc>, n: nat, earlier: nat, pa: nat)
    requires n <= |descs| && earlier <= pa
    ensures Retain(descs, Beyond(descs, n, earlier), pa) == Beyond(descs, n, pa)
  {
    if n > 0 {
      RetainBeyond(descs, n - 1, earlier, pa);
      if descs[n - 1].End() > earlier {
        RetainPush(descs, Beyond(descs, n - 1, earlier), n - 1, pa);
      }
    }
  }

  lemma RetainPush(descs: seq<Desc>, active: seq<nat>, n: nat, pa: nat)
    requires n < |descs| && Below(active, |descs|)
    requires Retain(descs, active, pa) == Beyond(descs, n, pa)
    ensures Below(active + [n], |descs|) && Retain(descs, active + [n], pa) == Beyond(descs, n + 1, pa)
  {
    assert (active + [n])[..|active|] == active;
  }

  lemma BeyondSkip(descs: seq<Desc>, n: nat, pa: nat)
    requires n < |descs| && descs[n].End() <= pa
    ensures Beyond(descs, n + 1, pa) == Beyond(descs, n, pa)
  {
  }

  /** The filtering itself, as a loop over the list. */
  method RetainActive(descs: seq<Desc>, active: seq<nat>, pa: nat) returns (kept: seq<nat>)
    requires Below(active, |descs|)
    ensures kept == Retain(descs, active, pa)
  {
    kept := [];
    for k := 0 to |active|
      invariant kept == Retain(descs, active[..k], pa)
    {
      assert active[..k + 1][..k] == active[..k];
      if descs[active[k]].End() > pa { kept := kept + [active[k]]; }
    }
    assert active[..|active|] == active;
  }

  // ---------------------------------------------------------------- the sweep

  /** No descriptor listed up to and including i starts beyond the page at `pa`. */
  predicate Arrived(descs: seq<Desc>, i: nat, pa: nat) {
    i < |descs| && forall j :: 0 <= j <= i ==> descs[j].start < pa + PAGE_SIZE
  }

  /**
   * What the sweep takes into account at a page: the reaching descriptors that are not held up
   * behind a later start.
   */
  ghost function Seen(descs: seq<Desc>, pa: nat): iset<nat> {
    iset i: nat | Reaches(descs, i, pa) && Arrived(descs, i, pa)
  }

  /** `next` is the first descriptor that has not arrived at `pa`. */
  ghost predicate Front(descs: seq<Desc>, next: nat, pa: nat) {
    && next <= |descs|
    && (forall j :: 0 <= j < next ==> descs[j].start < pa + PAGE_SIZE)
    && (next < |descs| ==> descs[next].start >= pa + PAGE_SIZE)
  }

  lemma SeenIsBeyond(descs: seq<Desc>, next: nat, pa: nat, i: nat)
    requires Front(descs, next, pa)
    ensures i in Seen(descs, pa) <==> i in Beyond(descs, next, pa)
  {
    BeyondIs(descs, next, pa, i);
    if i >= next && i < |descs| { assert !Arrived(descs, i, pa) by { assert descs[next].start >= pa + PAGE_SIZE; } }
  }

  /** Moves the front and the active list on to the page at `pa`. */
  method Advance(descs: seq<Desc>, next: nat, active: seq<nat>, pa: nat, ghost earlier: nat)
    returns (front: nat, kept: seq<nat>)
    requires next <= |descs| && earlier <= pa && active == Beyond(descs, next, earlier)
    requires forall j :: 0 <= j < next ==> descs[j].start < pa + PAGE_SIZE
    ensures Front(descs, front, pa) && kept == Beyond(descs, front, pa)
  {
    hide Retain, Beyond;
    front, kept := next, active;
    RetainBeyond(descs, next, earlier, pa);
    while front < |descs| && descs[front].start < pa + PAGE_SIZE
      invariant front <= |descs| && Below(kept, |descs|) && Retain(descs, kept, pa) == Beyond(descs, front, pa)
      invariant forall j :: 0 <= j < front ==> descs[j].start < pa + PAGE_SIZE
    {
      if descs[front].End() > pa {
        RetainPush(descs, kept, front, pa);
        kept := kept + [front];
      } else {
        BeyondSkip(descs, front, pa);
      }
      front := front + 1;
    }
    kept := RetainActive(descs, kept, pa);
  }

  ghost function Members(active: seq<nat>): iset<nat> {
    iset i | i in active
  }

  /** The strictest of the active descriptors. */
  method Choose(descs: seq<Desc>, active: seq<nat>) returns (optimal: Option<nat>)
    requires Below(active, |descs|)
    requires forall a, b :: 0 <= a < b < |active| ==> active[a] < active[b]
    ensures optimal.None? <==> active == []
    ensures optimal.Some? ==> Pick(descs, Members(active), optimal.value)
  {
    optimal := None;
    ghost var at := 0;
    for k := 0 to |active|
      invariant optimal.None? <==> k == 0
      invariant optimal.Some? ==> 0 <= at < k && optimal.value == active[at]
      invariant optimal.Some? && descs[optimal.value].uncacheable ==>
                  forall m :: 0 <= m < at ==> !descs[active[m]].uncacheable
      invariant optimal.Some? && !descs[optimal.value].uncacheable ==>
                  at == 0 && forall m :: 0 <= m < k ==> !descs[active[m]].uncacheable
    {
      match optimal
      case None =>
        optimal, at := Some(active[k]), k;
      case Some(current) =>
        if descs[active[k]].uncacheable && !descs[current].uncacheable {
          optimal, at := Some(active[k]), k;
        }
    }
  }

  /** All pages below `bound` are dealt with, and none from there on. */
  ghost predicate SweptTo(descs: seq<Desc>, calls: seq<Call>, bound: nat) {
    && Ascending(calls)
    && (forall i :: 0 <= i < |calls| ==> CallOk(descs, calls[i], bound))
    && (forall pa: nat :: pa < bound && pa % PAGE_SIZE == 0 && Seen(descs, pa) != iset{} ==> Mapped(calls, pa))
  }

  ghost predicate CallOk(descs: seq<Desc>, call: Call, bound: nat) {
    call.pa < bound && call.pa % PAGE_SIZE == 0 && Pick(descs, Seen(descs, call.pa), call.desc)
  }

  lemma SweepOn(descs: seq<Desc>, calls: seq<Call>, pa: nat, desc: nat)
    requires SweptTo(descs, calls, pa) && pa % PAGE_SIZE == 0 && Pick(descs, Seen(descs, pa), desc)
    ensures SweptTo(descs, calls + [Call(pa, desc)], pa + PAGE_SIZE)
  {
    var all := calls + [Call(pa, desc)];
    assert all[|calls|] == Call(pa, desc);
    forall p: nat | p < pa + PAGE_SIZE && p % PAGE_SIZE == 0 && Seen(descs, p) != iset{} ensures Mapped(all, p) {
      if p < pa {
        var i :| 0 <= i < |calls| && calls[i].pa == p;
        assert all[i].pa == p;
      } else {
        assert p == pa;
      }
    }
  }

  /** Pages up to `bound` at which nothing is seen need no call. */
  lemma SweepOver(descs: seq<Desc>, calls: seq<Call>, pa: nat, bound: nat)
    requires SweptTo(descs, calls, pa) && pa <= bound
    requires forall p: nat :: pa <= p < bound && p % PAGE_SIZE == 0 ==> Seen(descs, p) == iset{}
    ensures SweptTo(descs, calls, bound)
  {
  }

  /** What is carried from page to page: the active list as it was at an earlier page. */
  ghost predicate Carried(descs: seq<Desc>, next: nat, active: seq<nat>, earlier: nat) {
    && next <= |descs| && active == Beyond(descs, next, earlier)
    && forall j :: 0 <= j < next ==> descs[j].start < earlier + PAGE_SIZE
  }

  method SweepPage(descs: seq<Desc>, next: nat, active: seq<nat>, calls: seq<Call>, pa: nat, ghost earlier: nat)
    returns (front: nat, kept: seq<nat>, all: seq<Call>)
    requires Carried(descs, next, active, earlier) && earlier <= pa && pa % PAGE_SIZE == 0
    requires SweptTo(descs, calls, pa)
    ensures Carried(descs, front, kept, pa) && SweptTo(descs, all, pa + PAGE_SIZE)
  {
    front, kept := Advance(descs, next, active, pa, earlier);
    BeyondAscends(descs, front, pa);
    var optimal := Choose(descs, kept);
    forall i: nat ensures i in Seen(descs, pa) <==> i in kept { SeenIsBeyond(descs, front, pa, i); }
    assert Seen(descs, pa) == Members(kept);
    all := calls;
    match optimal
    case Some(desc) =>
      SweepOn(descs, calls, pa, desc);
      all := calls + [Call(pa, desc)];
    case None =>
      assert forall p: nat :: pa <= p < pa + PAGE_SIZE && p % PAGE_SIZE == 0 ==> p == pa;
      SweepOver(descs, calls, pa, pa + PAGE_SIZE);
  }

  method SweepRange(descs: seq<Desc>, r: Range, next: nat, active: seq<nat>, calls: seq<Call>, ghost earlier: nat)
    returns (front: nat, kept: seq<nat>, all: seq<Call>, ghost last: nat)
    requires IsRange(r) && Carried(descs, next, active, earlier) && earlier <= r.start
    requires SweptTo(descs, calls, r.start)
    ensures last <= r.end && Carried(descs, front, kept, last) && SweptTo(descs, all, r.end)
  {
    front, kept, all, last := next, active, calls, earlier;
    var pa := r.start;
    while pa < r.end
      invariant last <= pa <= r.end && pa % PAGE_SIZE == 0
      invariant Carried(descs, front, kept, last) && SweptTo(descs, all, pa)
    {
      front, kept, all := SweepPage(descs, front, kept, all, pa, last);
      last := pa;
      pa := pa + PAGE_SIZE;
    }
  }

  /** Every call is for a page some descriptor has arrived at, from the best of those, and no such page is missed. */
  ghost predicate Swept(descs: seq<Desc>, calls: seq<Call>) {
    && Ascending(calls)
    && (forall i :: 0 <= i < |calls| ==>
        calls[i].pa % PAGE_SIZE == 0 && Pick(descs, Seen(descs, calls[i].pa), calls[i].desc))
    && (forall pa: nat :: pa % PAGE_SIZE == 0 && Seen(descs, pa) != iset{} ==> Mapped(calls, pa))
  }

  /** The whole of it, for a memory map in any order. */
  method MapAllDmap(descs: seq<Desc>) returns (calls: seq<Call>)
    ensures Swept(descs, calls)
  {
    var ranges := BuildRanges(descs);
    var sorted := SortRanges(ranges);
    SameIsRange(ranges, sorted);
    var merged := MergeRanges(sorted);
    forall pa: nat | pa % PAGE_SIZE == 0 && Seen(descs, pa) != iset{} ensures InSome(merged, pa) {
      var i :| i in Seen(descs, pa);
      assert Reaches(descs, i, pa);
      SameInSome(ranges, sorted, pa);
    }
    calls := SweepAll(descs, merged);
  }

  method SweepAll(descs: seq<Desc>, merged: seq<Range>) returns (calls: seq<Call>)
    requires Separate(merged) && forall i :: 0 <= i < |merged| ==> IsRange(merged[i])
    requires forall pa: nat :: pa % PAGE_SIZE == 0 && Seen(descs, pa) != iset{} ==> InSome(merged, pa)
    ensures Swept(descs, calls)
  {
    calls := [];
    var next: nat, active: seq<nat> := 0, [];
    ghost var last: nat, bound: nat := 0, 0;
    for n := 0 to |merged|
      invariant bound == (if n == 0 then 0 else merged[n - 1].end)
      invariant last <= bound && Carried(descs, next, active, last) && SweptTo(descs, calls, bound)
    {
      Gap(descs, merged, n, bound);
      SweepOver(descs, calls, bound, merged[n].start);
      next, active, calls, last := SweepRange(descs, merged[n], next, active, calls, last);
      bound := merged[n].end;
    }
    forall pa: nat | pa % PAGE_SIZE == 0 && Seen(descs, pa) != iset{} ensures Mapped(calls, pa) {
      assert InSome(merged, pa);
      var i :| 0 <= i < |merged| && InRange(merged[i], pa);
      assert i == |merged| - 1 || merged[i].end < merged[|merged| - 1].start;
    }
  }

  /** Between one merged range and the next, nothing is seen. */
  lemma Gap(descs: seq<Desc>, merged: seq<Range>, n: nat, bound: nat)
    requires Separate(merged) && (forall i :: 0 <= i < |merged| ==> IsRange(merged[i])) && n < |merged|
    requires forall pa: nat :: pa % PAGE_SIZE == 0 && Seen(descs, pa) != iset{} ==> InSome(merged, pa)
    requires bound == if n == 0 then 0 else merged[n - 1].end
    ensures bound <= merged[n].start
    ensures forall p: nat :: bound <= p < merged[n].start && p % PAGE_SIZE == 0 ==> Seen(descs, p) == iset{}
  {
    forall p: nat | bound <= p < merged[n].start && p % PAGE_SIZE == 0 ensures Seen(descs, p) == iset{} {
      forall i | 0 <= i < |merged| ensures !InRange(merged[i], p) {
        assert n < i ==> merged[n].end < merged[i].start;
        assert i < n - 1 ==> merged[i].end < merged[n - 1].start;
      }
    }
  }

  // ---------------------------------------------------------------- when the sweep is exact

  /** No page's best descriptor is listed behind one that starts beyond that page. */
  ghost predicate BestArrive(descs: seq<Desc>) {
    forall pa: nat, i: nat :: pa % PAGE_SIZE == 0 && Pick(descs, Reaching(descs, pa), i) ==> Arrived(descs, i, pa)
  }

  /** Where the best descriptor of all has arrived, it is the best of those that have. */
  lemma BestOfSeen(descs: seq<Desc>, pa: nat, i: nat)
    requires Pick(descs, Reaching(descs, pa), i)
    ensures Arrived(descs, i, pa) <==> Pick(descs, Seen(descs, pa), i)
  {
    assert Reaches(descs, i, pa);
    assert forall j :: j in Seen(descs, pa) ==> j in Reaching(descs, pa);
    if Arrived(descs, i, pa) {
      assert i in Seen(descs, pa);
      if exists j :: j in Reaching(descs, pa) && j < |descs| && descs[j].uncacheable {
        assert descs[i].uncacheable;
      }
    }
  }

  lemma PickUnique(descs: seq<Desc>, candidates: iset<nat>, i: nat, j: nat)
    requires Pick(descs, candidates, i) && Pick(descs, candidates, j)
    ensures i == j
  {
  }

  /** A page that some descriptor reaches has a best one. */
  lemma BestExists(descs: seq<Desc>, pa: nat) returns (i: nat)
    requires Covered(descs, pa)
    ensures Pick(descs, Reaching(descs, pa), i)
  {
    if j: nat :| Reaches(descs, j, pa) && descs[j].uncacheable {
      i := j;
      while exists k: nat :: k < i && Reaches(descs, k, pa) && descs[k].uncacheable
        invariant Reaches(descs, i, pa) && descs[i].uncacheable
        decreases i
      {
        var k: nat :| k < i && Reaches(descs, k, pa) && descs[k].uncacheable;
        i := k;
      }
    } else {
      i :| Reaches(descs, i, pa);
      while exists k: nat :: k < i && Reaches(descs, k, pa)
        invariant Reaches(descs, i, pa)
        decreases i
      {
        var k: nat :| k < i && Reaches(descs, k, pa);
        i := k;
      }
    }
  }

  /** The sweep maps exactly the covered pages from their best descriptors just when every best descriptor arrives. */
  lemma ExactIff(descs: seq<Desc>, calls: seq<Call>)
    requires Swept(descs, calls)
    ensures Exact(descs, calls) <==> BestArrive(descs)
  {
    if Exact(descs, calls) {
      forall pa: nat, i: nat | pa % PAGE_SIZE == 0 && Pick(descs, Reaching(descs, pa), i)
          ensures Arrived(descs, i, pa) {
        assert Reaches(descs, i, pa);
        assert Mapped(calls, pa);
        var k :| 0 <= k < |calls| && calls[k].pa == pa;
        PickUnique(descs, Reaching(descs, pa), i, calls[k].desc);
        assert i in Seen(descs, pa);
      }
    }
    if BestArrive(descs) { ArriveExact(descs, calls); }
  }

  lemma ArriveExact(descs: seq<Desc>, calls: seq<Call>)
    requires Swept(descs, calls) && BestArrive(descs)
    ensures Exact(descs, calls)
  {
    forall k | 0 <= k < |calls| ensures Pick(descs, Reaching(descs, calls[k].pa), calls[k].desc) {
      var pa := calls[k].pa;
      assert calls[k].desc in Seen(descs, pa);
      assert Reaches(descs, calls[k].desc, pa);
      var best := BestExists(descs, pa);
      BestOfSeen(descs, pa, best);
      PickUnique(descs, Seen(descs, pa), best, calls[k].desc);
    }
    forall pa: nat | pa % PAGE_SIZE == 0 && Covered(descs, pa) ensures Mapped(calls, pa) {
      var best := BestExists(descs, pa);
      assert best in Seen(descs, pa);
    }
  }

  /** A memory map in address order is always mapped exactly. */
  lemma SortedIsExact(descs: seq<Desc>, calls: seq<Call>)
    requires SortedByStart(descs) && Swept(descs, calls)
    ensures Exact(descs, calls)
  {
    forall pa: nat, i: nat | pa % PAGE_SIZE == 0 && Pick(descs, Reaching(descs, pa), i) ensures Arrived(descs, i, pa) {
      assert Reaches(descs, i, pa);
    }
    ExactIff(descs, calls);
  }

  /** Out of order, a page can be left unmapped: the second descriptor waits behind the first. */
  lemma UnsortedCanMiss(calls: seq<Call>)
    requires Swept([Desc(PAGE_SIZE, 4, false), Desc(0, 4, false)], calls)
    ensures !Mapped(calls, 0) && !Exact([Desc(PAGE_SIZE, 4, false), Desc(0, 4, false)], calls)
  {
    var descs := [Desc(PAGE_SIZE, 4, false), Desc(0, 4, false)];
    assert Seen(descs, 0) == iset{} by {
      forall i: nat ensures i !in Seen(descs, 0) { assert descs[0].start >= PAGE_SIZE; }
    }
    assert Reaches(descs, 1, 0);
  }
}
