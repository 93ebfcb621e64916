/**
 * The slab allocator under any number of threads. A call is a chain of steps:
 * it gives the lock up while it asks for a page or hands one back, and counts
 * the bytes with an atomic addition of its own, so the steps of different
 * calls interleave.
 */
module SlabThreads {
  import opened Wrappers
  import BuddyLinks
  import opened BuddyCore
  import opened BuddyAllocator
  import opened BuddyClient
  import opened BuddyDmap
  import opened SlabHeap
  import opened SlabOps
  import opened SlabMachine
  import opened SlabDmap
  import opened SlabAlloc

  /** Where a thread is between two steps. */
  datatype Phase =
    | Idle
    | Fetching(cls: nat, layout: SlabHeap.Layout)
    | Opening(page: nat, cls: nat, layout: SlabHeap.Layout)
    | Counting(addr: nat, layout: SlabHeap.Layout)
    | Returning(page: nat, size: nat)
    | Uncounting(size: nat)
    | Panicked

  /** The page a phase keeps to itself. */
  function PageOf(ph: Phase): set<nat> {
    if ph.Opening? || ph.Returning? then {ph.page} else {}
  }

  /** The object a phase has and has not handed out. */
  function ObjectOf(ph: Phase): set<nat> {
    if ph.Counting? then {ph.addr} else {}
  }

  /** The bytes a phase has still to take off the count. */
  function Owed(ph: Phase): nat {
    if ph.Returning? || ph.Uncounting? then ph.size else 0
  }

  function Debt(phases: seq<Phase>): nat {
    if phases == [] then 0 else Owed(phases[0]) + Debt(phases[1..])
  }

  /** What the phases keep is apart, and together it is `all`. */
  ghost predicate Held(phases: seq<Phase>, kept: Phase -> set<nat>, all: set<nat>) {
    && (forall t, u :: 0 <= t < |phases| && 0 <= u < |phases| && t != u ==> kept(phases[t]) !! kept(phases[u]))
    && (forall t :: 0 <= t < |phases| ==> kept(phases[t]) <= all)
    && (forall p :: p in all ==> exists t :: 0 <= t < |phases| && p in kept(phases[t]))
  }

  lemma HeldUpdate(phases: seq<Phase>, kept: Phase -> set<nat>, all: set<nat>, t: nat, ph: Phase)
    requires Held(phases, kept, all) && t < |phases| && kept(ph) !! (all - kept(phases[t]))
    ensures Held(phases[t := ph], kept, all - kept(phases[t]) + kept(ph))
  {
    var now, all' := phases[t := ph], all - kept(phases[t]) + kept(ph);
    forall p | p in all' ensures exists u :: 0 <= u < |now| && p in kept(now[u]) {
      if p in kept(ph) {
        assert p in kept(now[t]);
      } else {
        var u :| 0 <= u < |phases| && p in kept(phases[u]);
        assert p in kept(now[u]);
      }
    }
  }

  lemma {:induction false} DebtUpdate(phases: seq<Phase>, t: nat, ph: Phase)
    requires t < |phases|
    ensures Debt(phases[t := ph]) + Owed(phases[t]) == Debt(phases) + Owed(ph)
  {
    if t == 0 {
      assert phases[0 := ph][1..] == phases[1..];
    } else {
      DebtUpdate(phases[1..], t - 1, ph);
      assert phases[t := ph][1..] == phases[1..][t - 1 := ph];
    }
  }

  lemma {:induction false} NoDebt(phases: seq<Phase>)
    requires forall t :: 0 <= t < |phases| ==> Owed(phases[t]) == 0
    ensures Debt(phases) == 0
  {
    if phases != [] { NoDebt(phases[1..]); }
  }

  /** The live objects that clients have been given and not freed. */
  ghost function Given(live: map<nat, Object>, given: map<nat, SlabHeap.Layout>): map<nat, Object> {
    map a | a in live && a in given :: live[a]
  }

  ghost predicate PhaseOk(ph: Phase, live: map<nat, Object>, given: map<nat, SlabHeap.Layout>) {
    match ph
    case Fetching(i, l) => i < CLASSES && ClassFrom(l.Need(), 0) == Some(i) && ValidLayout(l)
    case Opening(_, i, l) => i < CLASSES && ClassFrom(l.Need(), 0) == Some(i) && ValidLayout(l)
    case Counting(a, l) => a in live && a !in given && live[a].layout == l && ValidLayout(l)
    case _ => true
  }

  ghost predicate PhasesOk(phases: seq<Phase>, live: map<nat, Object>, given: map<nat, SlabHeap.Layout>) {
    forall t :: 0 <= t < |phases| ==> PhaseOk(phases[t], live, given)
  }

  ghost predicate GivenOk(live: map<nat, Object>, given: map<nat, SlabHeap.Layout>) {
    forall a :: a in given ==> a in live && live[a].layout == given[a]
  }

  /** Everything about the threads: pages in limbo, objects on their way out, and bytes still to be counted. */
  ghost predicate ThreadsOk(phases: seq<Phase>, limbo: set<nat>, live: map<nat, Object>,
      given: map<nat, SlabHeap.Layout>, usedBytes: nat) {
    && PhasesOk(phases, live, given) && GivenOk(live, given)
    && Held(phases, PageOf, limbo)
    && Held(phases, ObjectOf, live.Keys - given.Keys)
    && usedBytes == Total(Given(live, given)) + Debt(phases)
  }

  lemma NothingHeld(phases: seq<Phase>, kept: Phase -> set<nat>, all: set<nat>)
    requires Held(phases, kept, all) && forall t :: 0 <= t < |phases| ==> kept(phases[t]) == {}
    ensures all == {}
  {
  }

  ghost predicate OnlyThread(t: nat, was: seq<Phase>, now: seq<Phase>) {
    t < |was| == |now| && now == was[t := now[t]]
  }

  // ---------------------------------------------------------------- one lemma per kind of step

  /** A step that changes only what thread t keeps to itself. */
  lemma Quiet(phases: seq<Phase>, limbo: set<nat>, live: map<nat, Object>, given: map<nat, SlabHeap.Layout>, used: nat,
      t: nat, ph: Phase, limbo': set<nat>)
    requires ThreadsOk(phases, limbo, live, given, used) && t < |phases| && PhaseOk(ph, live, given)
    requires ObjectOf(phases[t]) == ObjectOf(ph) == {} && Owed(phases[t]) == Owed(ph)
    requires PageOf(ph) !! (limbo - PageOf(phases[t])) && limbo' == limbo - PageOf(phases[t]) + PageOf(ph)
    ensures ThreadsOk(phases[t := ph], limbo', live, given, used)
  {
    hide Held, Total, Debt, PhaseOk, GivenOk;
    HeldUpdate(phases, PageOf, limbo, t, ph);
    HeldUpdate(phases, ObjectOf, live.Keys - given.Keys, t, ph);
    assert live.Keys - given.Keys - {} + {} == live.Keys - given.Keys;
    DebtUpdate(phases, t, ph);
  }

  /** Thread t gets an object that was not live, and counts it next. */
  lemma Gets(phases: seq<Phase>, limbo: set<nat>, live: map<nat, Object>, given: map<nat, SlabHeap.Layout>, used: nat,
      t: nat, a: nat, o: Object, limbo': set<nat>)
    requires ThreadsOk(phases, limbo, live, given, used) && t < |phases| && ObjectOf(phases[t]) == {}
               && Owed(phases[t]) == 0
    requires a !in live && ValidLayout(o.layout) && limbo' == limbo - PageOf(phases[t])
    ensures ThreadsOk(phases[t := Counting(a, o.layout)], limbo', live[a := o], given, used)
  {
    hide Held, Total, Debt, ValidLayout, ClassFrom;
    var ph := Counting(a, o.layout);
    HeldUpdate(phases, PageOf, limbo, t, ph);
    assert limbo - PageOf(phases[t]) + PageOf(ph) == limbo';
    HeldUpdate(phases, ObjectOf, live.Keys - given.Keys, t, ph);
    assert live.Keys - given.Keys - {} + {a} == live[a := o].Keys - given.Keys;
    DebtUpdate(phases, t, ph);
    assert Given(live[a := o], given) == Given(live, given);
  }

  /** Thread t adds its object's bytes and hands the object out. */
  lemma Counts(phases: seq<Phase>, limbo: set<nat>, live: map<nat, Object>, given: map<nat, SlabHeap.Layout>, used: nat,
      t: nat)
    requires ThreadsOk(phases, limbo, live, given, used) && t < |phases| && phases[t].Counting?
    ensures var Counting(a, l) := phases[t]; ThreadsOk(phases[t := Idle], limbo, live, given[a := l], used + l.size)
  {
    hide Held, Total, Debt, ValidLayout, ClassFrom;
    var Counting(a, l) := phases[t];
    assert PhaseOk(phases[t], live, given);
    OnlyKeeper(phases, live.Keys - given.Keys, t);
    HeldUpdate(phases, PageOf, limbo, t, Idle);
    assert limbo - {} + {} == limbo;
    HeldUpdate(phases, ObjectOf, live.Keys - given.Keys, t, Idle);
    assert live.Keys - given.Keys - {a} + {} == live.Keys - given[a := l].Keys;
    DebtUpdate(phases, t, Idle);
    TotalWith(Given(live, given), a, live[a]);
    assert Given(live, given[a := l]) == Given(live, given)[a := live[a]];
  }

  lemma OnlyKeeper(phases: seq<Phase>, all: set<nat>, t: nat)
    requires Held(phases, ObjectOf, all) && t < |phases| && phases[t].Counting?
    ensures forall u :: 0 <= u < |phases| && u != t && phases[u].Counting? ==> phases[u].addr != phases[t].addr
  {
    forall u | 0 <= u < |phases| && u != t && phases[u].Counting? ensures phases[u].addr != phases[t].addr {
      assert ObjectOf(phases[u]) !! ObjectOf(phases[t]);
      assert phases[u].addr in ObjectOf(phases[u]) && phases[t].addr in ObjectOf(phases[t]);
    }
  }

  /** Thread t frees an object it was given; its bytes come off the count later. */
  lemma Frees(phases: seq<Phase>, limbo: set<nat>, live: map<nat, Object>, given: map<nat, SlabHeap.Layout>, used: nat,
      t: nat, a: nat, ph: Phase, limbo': set<nat>)
    requires ThreadsOk(phases, limbo, live, given, used) && t < |phases| && phases[t].Idle? && a in given && a in live
    requires (ph.Returning? || ph.Uncounting?) && ph.size == live[a].layout.size
    requires PageOf(ph) !! limbo && limbo' == limbo + PageOf(ph)
    ensures ThreadsOk(phases[t := ph], limbo', live - {a}, given - {a}, used)
  {
    hide Held, Total, Debt, PhasesOk, GivenOk;
    HeldUpdate(phases, PageOf, limbo, t, ph);
    assert limbo - {} + PageOf(ph) == limbo';
    HeldUpdate(phases, ObjectOf, live.Keys - given.Keys, t, ph);
    assert live.Keys - given.Keys - {} + {} == (live - {a}).Keys - (given - {a}).Keys;
    DebtUpdate(phases, t, ph);
    TotalWithout(Given(live, given), a);
    assert Given(live - {a}, given - {a}) == Given(live, given) - {a};
    FreesPhases(phases, live, given, t, a, ph);
  }

  lemma FreesPhases(phases: seq<Phase>, live: map<nat, Object>, given: map<nat, SlabHeap.Layout>, t: nat, a: nat,
      ph: Phase)
    requires PhasesOk(phases, live, given) && GivenOk(live, given) && t < |phases| && a in given
               && (ph.Returning? || ph.Uncounting?)
    ensures PhasesOk(phases[t := ph], live - {a}, given - {a}) && GivenOk(live - {a}, given - {a})
  {
    hide ValidLayout, ClassFrom;
    var now := phases[t := ph];
    forall u | 0 <= u < |now| ensures PhaseOk(now[u], live - {a}, given - {a}) {
      assert PhaseOk(phases[u], live, given);
    }
  }

  /** Thread t takes the bytes of a freed object off the count. */
  lemma Uncounts(phases: seq<Phase>, limbo: set<nat>, live: map<nat, Object>, given: map<nat, SlabHeap.Layout>,
      used: nat, t: nat)
    requires ThreadsOk(phases, limbo, live, given, used) && t < |phases| && phases[t].Uncounting?
    ensures phases[t].size <= used && ThreadsOk(phases[t := Idle], limbo, live, given, used - phases[t].size)
  {
    hide Held, Total, Debt, ValidLayout, ClassFrom;
    HeldUpdate(phases, PageOf, limbo, t, Idle);
    assert limbo - {} + {} == limbo;
    HeldUpdate(phases, ObjectOf, live.Keys - given.Keys, t, Idle);
    assert live.Keys - given.Keys - {} + {} == live.Keys - given.Keys;
    DebtUpdate(phases, t, Idle);
  }

  lemma Waits(phases: seq<Phase>, limbo: set<nat>, live: map<nat, Object>, given: map<nat, SlabHeap.Layout>, used: nat,
      t: nat, i: nat, l: SlabHeap.Layout)
    requires ThreadsOk(phases, limbo, live, given, used) && t < |phases| && phases[t].Idle?
    requires i < CLASSES && ClassFrom(l.Need(), 0) == Some(i) && ValidLayout(l)
    ensures ThreadsOk(phases[t := Fetching(i, l)], limbo, live, given, used)
  {
    hide ThreadsOk, ClassFrom, ValidLayout;
    Quiet(phases, limbo, live, given, used, t, Fetching(i, l), limbo);
  }

  // Readings of the invariant at one thread or one object.

  lemma InOpening(phases: seq<Phase>, limbo: set<nat>, live: map<nat, Object>, given: map<nat, SlabHeap.Layout>,
      used: nat, t: nat)
    requires ThreadsOk(phases, limbo, live, given, used) && t < |phases| && phases[t].Opening?
    ensures phases[t].page in limbo && PhaseOk(phases[t], live, given)
  {
    assert phases[t].page in PageOf(phases[t]);
  }

  lemma InReturning(phases: seq<Phase>, limbo: set<nat>, live: map<nat, Object>, given: map<nat, SlabHeap.Layout>,
      used: nat, t: nat)
    requires ThreadsOk(phases, limbo, live, given, used) && t < |phases| && phases[t].Returning?
    ensures phases[t].page in limbo
  {
    assert phases[t].page in PageOf(phases[t]);
  }

  lemma InGiven(phases: seq<Phase>, limbo: set<nat>, live: map<nat, Object>, given: map<nat, SlabHeap.Layout>,
      used: nat)
    requires ThreadsOk(phases, limbo, live, given, used)
    ensures GivenOk(live, given) && PhasesOk(phases, live, given)
  {
  }

  /** Freeing a small object takes exactly it out of the live objects. */
  lemma PutDrops(s: Slabs, a: nat)
    requires IsSmall(s, a)
    ensures Put(s, a).live == s.live - {a}
  {
  }

  ghost predicate Extends(live: map<nat, Object>, now: map<nat, Object>) {
    forall a :: a in live ==> a in now && now[a] == live[a]
  }

  // ---------------------------------------------------------------- the switch to the direct map

  predicate HoldsNothing(ph: Phase) {
    PageOf(ph) == {} && ObjectOf(ph) == {}
  }

  /** The clients' objects under their new addresses. */
  method Shifted(given: map<nat, SlabHeap.Layout>) returns (r: map<nat, SlabHeap.Layout>)
    ensures r == Shift(given)
  {
    r := map a | a in given :: Up(a) := given[a];
  }

  /** The threads stay in order over the switch just when none of them holds an address from before it. */
  lemma ThreadsSwitch(phases: seq<Phase>, limbo: set<nat>, h: Heap, core: Core, layout: BuddyLinks.Layout,
      given: map<nat, SlabHeap.Layout>, used: nat)
    requires ThreadsOk(phases, limbo, h.live, given, used) && HeapOk(h, core, layout) && Physical(layout)
    ensures limbo == {} && ThreadsOk(phases, limbo, UpLive(h.live), Shift(given), used)
       <==> forall t :: 0 <= t < |phases| ==> HoldsNothing(phases[t])
  {
    hide HeapOk, Physical, Total, Debt, Shift, UpLive, ValidLayout, ClassFrom;
    if forall t :: 0 <= t < |phases| ==> HoldsNothing(phases[t]) {
      NothingHeld(phases, PageOf, limbo);
      NothingHeld(phases, ObjectOf, h.live.Keys - given.Keys);
      AllGiven(h.live, given);
      SwitchGiven(h.live, given);
      TotalUp(h.live);
    }
    if limbo == {} && ThreadsOk(phases, limbo, UpLive(h.live), Shift(given), used) {
      forall t | 0 <= t < |phases| ensures HoldsNothing(phases[t]) {
        assert PhaseOk(phases[t], h.live, given) && PhaseOk(phases[t], UpLive(h.live), Shift(given));
        if phases[t].Counting? { ObjectBelow(h, core, layout, phases[t].addr); }
        assert PageOf(phases[t]) <= limbo;
      }
    }
  }

  lemma AllGiven(live: map<nat, Object>, given: map<nat, SlabHeap.Layout>)
    requires GivenOk(live, given) && live.Keys - given.Keys == {}
    ensures live.Keys == given.Keys && Given(live, given) == live
  {
    forall a | a in live ensures a in given { assert a !in live.Keys - given.Keys; }
  }

  lemma SwitchGiven(live: map<nat, Object>, given: map<nat, SlabHeap.Layout>)
    requires GivenOk(live, given) && live.Keys == given.Keys
    ensures GivenOk(UpLive(live), Shift(given)) && UpLive(live).Keys == Shift(given).Keys
    ensures UpLive(live).Keys - Shift(given).Keys == {} && Given(UpLive(live), Shift(given)) == UpLive(live)
  {
    hide UpLive, Shift;
    forall b | b in Shift(given) ensures b in UpLive(live) && UpLive(live)[b].layout == Shift(given)[b] {
      var a := ShiftFrom(given, b);
      UpLiveAt(live, a);
    }
    forall b | b in UpLive(live) ensures b in Shift(given) {
      var a := FromUpLive(live, b);
      ShiftAt(given, a);
    }
  }

  // ---------------------------------------------------------------- the threads

  class Threads {
    const slab: SlabAllocator
    var phases: seq<Phase>
    /** The objects clients hold, with the layouts they asked for. */
    var given: map<nat, SlabHeap.Layout>

    ghost predicate Inv()
      reads this, slab, slab.plist, slab.pages, slab.pages.freeArea
    {
      slab.Sound() && ThreadsOk(phases, slab.limbo, slab.live, given, slab.usedBytes)
    }

    constructor (allocator: SlabAllocator, threads: nat)
      requires allocator.Valid() && allocator.live == map[] && allocator.limbo == {}
      ensures Inv() && slab == allocator && |phases| == threads && given == map[]
    {
      slab := allocator;
      phases, given := seq(threads, _ => Idle), map[];
      new;
      NoDebt(phases);
      assert Given(slab.live, given) == map[];
    }

    /** A client may ask for memory, and free null or an object it holds. */
    predicate MayCall(call: SlabCall)
      reads this
    {
      call.Request? || call.addr == 0 || call.addr in given
    }

    // -------------------------------------------------------------- the steps

    /** A call asks for memory: an object of a partly used page or a block at once, or a page to be fetched next. */
    method Ask(t: nat, l: SlabHeap.Layout) returns (r: Option<AllocOutcome>)
      requires Inv() && t < |phases| && phases[t].Idle? && ValidLayout(l)
      modifies this`phases, slab, slab.plist, slab.pages, slab.pages.freeArea
      ensures Inv() && OnlyThread(t, old(phases), phases) && Extends(old(slab.live), slab.live)
      ensures r == None || r == Some(Null)
    {
      hide HeapOk, LimboOk, PageAllocator.Valid, ThreadsOk, ValidLayout, ClassFrom, Alloc, SlabServes, Backing, Taken;
      PositiveAlign(l);
      ghost var live := slab.live;
      var cls := SizeClassIndex(l.Need());
      if cls.Some? && slab.plist[cls.value] == 0 {
        Waits(phases, slab.limbo, slab.live, given, slab.usedBytes, t, cls.value, l);
        phases := phases[t := Fetching(cls.value, l)];
        return None;
      }
      var addr;
      if cls.Some? {
        addr := slab.TakeObject(cls.value, l);
      } else {
        var outcome := slab.AllocLarge(l);
        if !outcome.Allocated? {
          return Some(Null);
        }
        addr := outcome.addr;
      }
      Gets(phases, slab.limbo, live, given, slab.usedBytes, t, addr, slab.live[addr], slab.limbo);
      phases := phases[t := Counting(addr, l)];
      return None;
    }

    /** Without the lock: asks for a page; when there is none the call panics. */
    method Fetch(t: nat)
      requires Inv() && t < |phases| && phases[t].Fetching?
      modifies this`phases, slab, slab.plist, slab.pages, slab.pages.freeArea
      ensures Inv() && OnlyThread(t, old(phases), phases) && slab.live == old(slab.live)
      ensures phases[t].Opening? || phases[t].Panicked?
      ensures phases[t].Panicked? <==> Alloc(old(slab.pages.core), 0).1.None?
    {
      hide HeapOk, LimboOk, PageAllocator.Valid, ThreadsOk, ValidLayout, ClassFrom, Alloc, Serves;
      var Fetching(i, l) := phases[t];
      ghost var limbo := slab.limbo;
      InGiven(phases, slab.limbo, slab.live, given, slab.usedBytes);
      var page := slab.FetchPage();
      var next := if page == 0 then Panicked else Opening(page, i, l);
      Quiet(phases, limbo, slab.live, given, slab.usedBytes, t, next, slab.limbo);
      phases := phases[t := next];
    }

    /** Opens the page fetched, whatever other threads have done to the lists meanwhile. */
    method Open(t: nat)
      requires Inv() && t < |phases| && phases[t].Opening?
      modifies this`phases, slab, slab.plist, slab.pages, slab.pages.freeArea
      ensures Inv() && OnlyThread(t, old(phases), phases) && phases[t].Counting? && Extends(old(slab.live), slab.live)
    {
      hide HeapOk, LimboOk, PageAllocator.Valid, ThreadsOk, ValidLayout, ClassFrom, Opened, Cap, Slot, Backing;
      var Opening(page, i, l) := phases[t];
      ghost var live, limbo := slab.live, slab.limbo;
      InOpening(phases, slab.limbo, slab.live, given, slab.usedBytes, t);
      var addr := slab.OpenPage(page, i, l);
      Gets(phases, limbo, live, given, slab.usedBytes, t, addr, slab.live[addr], slab.limbo);
      phases := phases[t := Counting(addr, l)];
    }

    /** Adds the bytes of the object to the count and hands the object out. */
    method Count(t: nat) returns (addr: nat)
      requires Inv() && t < |phases| && phases[t].Counting?
      modifies this, slab`usedBytes
      ensures Inv() && phases == old(phases)[t := Idle]
      ensures addr !in old(given) && addr in slab.live && given == old(given)[addr := slab.live[addr].layout]
      ensures slab.live[addr].layout.align > 0 && addr % slab.live[addr].layout.align == 0
    {
      hide HeapOk, LimboOk, PageAllocator.Valid, ThreadsOk, ValidLayout, ClassFrom;
      var Counting(a, l) := phases[t];
      InGiven(phases, slab.limbo, slab.live, given, slab.usedBytes);
      ObjectAligned(slab.View(), slab.pages.core, slab.pages.layout, a);
      Counts(phases, slab.limbo, slab.live, given, slab.usedBytes, t);
      slab.usedBytes := slab.usedBytes + l.size;
      phases, given := phases[t := Idle], given[a := l];
      return a;
    }

    /** Under the lock: frees an object; a large one, whose block goes back at once, needs no lock. */
    method Free(t: nat, a: nat)
      requires Inv() && t < |phases| && phases[t].Idle? && (a == 0 || a in given)
      modifies this, slab, slab.plist, slab.pages, slab.pages.freeArea
      ensures Inv() && OnlyThread(t, old(phases), phases) && given == old(given) - {a}
                && slab.live == old(slab.live) - {a}
    {
      hide HeapOk, LimboOk, PageAllocator.Valid, ThreadsOk, ValidLayout, ClassFrom, Returned, SlabServes, LastOfPage;
      hide Put, Empties, Backing;
      ghost var live, limbo := slab.live, slab.limbo;
      InGiven(phases, slab.limbo, slab.live, given, slab.usedBytes);
      NullNotLive(slab.View(), slab.pages.core, slab.pages.layout);
      if a == 0 {
        assert given - {0} == given;
        return;
      }
      var l := given[a];
      var cls := SizeClassIndex(l.Need());
      KindOfObject(slab.View(), slab.pages.core, slab.pages.layout, a);
      var next := Uncounting(l.size);
      if cls.None? {
        slab.FreeLarge(a, l);
      } else {
        PageOfObject(slab.View(), slab.pages.core, slab.pages.layout, a);
        PutDrops(slab.State(), a);
        var emptied := slab.PutObject(a);
        if emptied { next := Returning(a - a % BuddyLinks.PAGE_SIZE, l.size); }
      }
      Frees(phases, limbo, live, given, slab.usedBytes, t, a, next, slab.limbo);
      phases, given := phases[t := next], given - {a};
    }

    /** Without the lock: gives the emptied page back. */
    method GiveBack(t: nat)
      requires Inv() && t < |phases| && phases[t].Returning?
      modifies this`phases, slab, slab.plist, slab.pages, slab.pages.freeArea
      ensures Inv() && phases == old(phases)[t := Uncounting(old(phases[t].size))] && slab.live == old(slab.live)
    {
      hide HeapOk, LimboOk, PageAllocator.Valid, ThreadsOk, ValidLayout, ClassFrom, Returned, Serves;
      ghost var limbo := slab.limbo;
      InReturning(phases, slab.limbo, slab.live, given, slab.usedBytes, t);
      slab.ReturnPage(phases[t].page);
      var next := Uncounting(phases[t].size);
      Quiet(phases, limbo, slab.live, given, slab.usedBytes, t, next, slab.limbo);
      phases := phases[t := next];
    }

    /** Takes the bytes of the freed object off the count. */
    method Uncount(t: nat)
      requires Inv() && t < |phases| && phases[t].Uncounting?
      modifies this`phases, slab`usedBytes
      ensures Inv() && phases == old(phases)[t := Idle]
    {
      hide HeapOk, LimboOk, PageAllocator.Valid, ThreadsOk;
      Uncounts(phases, slab.limbo, slab.live, given, slab.usedBytes, t);
      slab.usedBytes := slab.usedBytes - phases[t].size;
      phases := phases[t := Idle];
    }

    /**
     * One step of thread t; an idle thread starts the call it is given. The step
     * that ends an allocation hands out an object nobody holds, aligned as asked.
     * An object somebody holds stays where it is, with the layout asked for.
     */
    method Step(t: nat, call: SlabCall) returns (r: Option<AllocOutcome>)
      requires Inv() && t < |phases|
      requires phases[t].Idle? ==> MayCall(call) && (call.Request? ==> ValidLayout(call.layout))
      modifies this, slab, slab.plist, slab.pages, slab.pages.freeArea
      ensures Inv() && OnlyThread(t, old(phases), phases)
      ensures r.Some? && r.value.Allocated? ==>
        var a := r.value.addr;
        && a !in old(given) && a in given && given == old(given)[a := given[a]]
        && given[a].align > 0 && a % given[a].align == 0
      ensures !(r.Some? && r.value.Allocated?) ==>
        given == if old(phases[t]).Idle? && call.Release? then old(given) - {call.addr} else old(given)
      ensures forall a :: a in given && a in old(given) ==>
                a in slab.live && a in old(slab.live) && slab.live[a] == old(slab.live[a])
    {
      hide SlabAllocator.Sound, ThreadsOk, ValidLayout, Alloc;
      InGiven(phases, slab.limbo, slab.live, given, slab.usedBytes);
      ghost var was := given;
      r := None;
      match phases[t] {
        case Idle => if call.Request? { r := Ask(t, call.layout); } else { Free(t, call.addr); }
        case Fetching(_, _) => Fetch(t);
        case Opening(_, _, _) => Open(t);
        case Counting(_, _) => var a := Count(t); r := Some(Allocated(a));
        case Returning(_, _) => GiveBack(t);
        case Uncounting(_) => Uncount(t);
        case Panicked =>
      }
      InGiven(phases, slab.limbo, slab.live, given, slab.usedBytes);
    }

    /** Any schedule of any length keeps the invariant; turns no client could take are passed over. */
    method Run(schedule: seq<(nat, SlabCall)>)
      requires Inv() && forall n :: 0 <= n < |schedule| && schedule[n].1.Request? ==> ValidLayout(schedule[n].1.layout)
      modifies this, slab, slab.plist, slab.pages, slab.pages.freeArea
      ensures Inv() && |phases| == old(|phases|)
    {
      hide SlabAllocator.Sound, ThreadsOk, ValidLayout;
      for n := 0 to |schedule|
        invariant Inv() && |phases| == old(|phases|)
      {
        var (t, call) := schedule[n];
        if t < |phases| && (phases[t].Idle? ==> MayCall(call)) {
          var _ := Step(t, call);
        }
      }
    }

    /**
     * The switch to the direct map at any moment, with the clients' objects known
     * by their new addresses. A thread in the middle of a call keeps the old
     * address of its page or object, so the invariant survives just when no
     * thread holds one, no over-aligned object is live and no zone lies at zero.
     */
    method Switch()
      requires Inv() && !slab.pages.isDmap && Physical(slab.pages.layout)
      modifies this, slab, slab.plist, slab.pages, slab.pages.freeArea
      ensures phases == old(phases) && given == Shift(old(given)) && slab.live == UpLive(old(slab.live))
      ensures Inv() <==>
        && NoOverAligned(old(slab.live)) && NoneAtZero(old(slab.pages.layout))
        && forall t :: 0 <= t < |phases| ==> HoldsNothing(phases[t])
    {
      hide HeapOk, LimboOk, PageAllocator.Valid, ThreadsOk, NoOverAligned, NoneAtZero, Physical, DmapLayout, UpAll;
      hide UpHeads, Recorded, Shift, UpLive, HoldsNothing, Total, DmapRecords, Backing;
      ghost var h, core, layout, limbo, was, used := slab.View(), slab.pages.core, slab.pages.layout, slab.limbo, given,
          slab.usedBytes;
      slab.TransitionDmap();
      given := Shifted(given);
      ThreadsSwitch(phases, limbo, h, core, layout, was, used);
    }

    /** Once every thread is idle again the allocator is as between calls, with every object in a client's hands. */
    lemma AtRest()
      requires Inv() && forall t :: 0 <= t < |phases| ==> phases[t].Idle?
      ensures slab.Valid() && slab.limbo == {} && given.Keys == slab.live.Keys
      ensures forall a :: a in given ==> slab.live[a].layout == given[a]
    {
      hide HeapOk, LimboOk, PageAllocator.Valid, Total;
      NoDebt(phases);
      NothingHeld(phases, PageOf, slab.limbo);
      NothingHeld(phases, ObjectOf, slab.live.Keys - given.Keys);
      forall a | a in slab.live ensures a in given { assert a !in slab.live.Keys - given.Keys; }
      assert Given(slab.live, given) == slab.live;
    }
  }
}
