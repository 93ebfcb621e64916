/**
 * Mapping MSI events to LPIs: the allocator and two maps, kept in step across
 * commands that fail and events that are mapped again while still live.
 */
module MsiEvents {
  import opened Wrappers
  import opened LpiAlloc

  const LPI_START: nat := 8192
  const MAX_LPI_ID: nat := 32767

  datatype Event = Event(device: nat, event: nat)
  datatype Target = Target(event: Event, icid: nat)

  datatype Error = LpiAlreadyUsed | NoAvailableLpi | MsiNotSupported | CommandFailed
  datatype Result<+T> = Ok(value: T) | Err(error: Error)

  /** Every mapped event has an LPI of its own, that LPI is in use, and it is known to belong to that event. */
  ghost predicate Consistent(used: iset<nat>, events: map<Event, nat>, lpis: map<nat, Target>) {
    && (forall e :: e in events ==> events[e] in lpis && lpis[events[e]].event == e)
    && (forall l :: l in lpis ==> l in used)
  }

  /** No two events share an LPI, and all their LPIs are in use. */
  lemma MappingsInjective(used: iset<nat>, events: map<Event, nat>, lpis: map<nat, Target>, a: Event, b: Event)
    requires Consistent(used, events, lpis) && a in events && b in events && events[a] == events[b]
    ensures a == b && events[a] in used
  {
    assert lpis[events[a]].event == a;
  }

  /** The LPI side knows nothing the event side does not. */
  ghost predicate Exact(events: map<Event, nat>, lpis: map<nat, Target>) {
    forall l :: l in lpis ==> lpis[l].event in events && events[lpis[l].event] == l
  }

  /** Mapping an event keeps the two sides exact inverses just when the event was not mapped already. */
  lemma ExactIffNew(used: iset<nat>, events: map<Event, nat>, lpis: map<nat, Target>, e: Event, l: nat, icid: nat)
    requires Consistent(used, events, lpis) && Exact(events, lpis) && l !in used
    ensures Consistent(used + iset{l}, events[e := l], lpis[l := Target(e, icid)])
    ensures Exact(events[e := l], lpis[l := Target(e, icid)]) <==> e !in events
  {
    if e in events {
      var stale := events[e];
      assert stale in lpis[l := Target(e, icid)] && stale != l;
    }
  }

  /** Removing an event with its LPI keeps both. */
  lemma UnmapKeeps(used: iset<nat>, events: map<Event, nat>, lpis: map<nat, Target>, e: Event)
    requires Consistent(used, events, lpis) && e in events
    ensures Consistent(used - iset{events[e]}, events - {e}, lpis - {events[e]})
    ensures Exact(events, lpis) ==> Exact(events - {e}, lpis - {events[e]})
  {
    forall f | f in events - {e} ensures events[f] in lpis - {events[e]} {
      assert lpis[events[f]].event == f;
    }
  }

  class Msi {
    const hasIts: bool
    const alloc: LpiAllocator
    var events: map<Event, nat>
    var lpis: map<nat, Target>
    var handlers: map<nat, nat>

    ghost predicate Valid()
      reads this, alloc
    {
      alloc.Valid() && Consistent(InUse(), events, lpis)
    }

    ghost function InUse(): iset<nat>
      reads alloc
    {
      iset id: nat | alloc.Used(id)
    }

    /** The LPI a call takes: the one it asks for, or else the lowest free one in range. */
    ghost predicate IsChosen(wanted: Option<nat>, l: nat)
      reads alloc
    {
      && alloc.base <= l <= alloc.max && l !in InUse()
      && if wanted.Some? then l == wanted.value else forall id: nat :: alloc.base <= id < l ==> id in InUse()
    }

    ghost function Current(): State
      reads this, alloc
    {
      State(InUse(), events, lpis)
    }

    constructor (its: bool)
      ensures Valid() && fresh(alloc) && hasIts == its && events == map[] && lpis == map[] && handlers == map[]
      ensures alloc.base == 8192 && alloc.max == 32767 && InUse() == iset{}
    {
      hasIts := its;
      alloc := new LpiAllocator(LPI_START, MAX_LPI_ID);
      events, lpis, handlers := map[], map[], map[];
    }

    /** Maps an event to a given or a free LPI; `pushed` is whether the MAPTI command went through. */
    method MapEvent(e: Event, wanted: Option<nat>, icid: nat, pushed: bool) returns (r: Result<nat>)
      requires Valid()
      modifies this, alloc
      ensures Valid() && handlers == old(handlers)
      ensures if wanted.Some? && !(alloc.base <= wanted.value <= alloc.max && wanted.value !in old(InUse())) then
                r == Err(LpiAlreadyUsed)
              else if wanted.None? && old(alloc.AllUsed()) then r == Err(NoAvailableLpi)
              else if !hasIts then r == Err(MsiNotSupported)
              else if !pushed then r == Err(CommandFailed)
              else r.Ok?
      ensures r.Ok? ==> old(IsChosen(wanted, r.value)) && Current() == Apply(old(Current()), Mapped(e, r.value, icid))
      ensures r.Err? && r.error != CommandFailed ==> Current() == old(Current())
      ensures r == Err(CommandFailed) ==>
                exists l :: old(IsChosen(wanted, l)) && Current() == Apply(old(Current()), Leaked(l))
    {
      ghost var used := InUse();
      var lpi;
      match wanted {
        case Some(id) =>
          var ok := alloc.Reserve(id);
          if !ok {
            assert InUse() == used;
            return Err(LpiAlreadyUsed);
          }
          lpi := id;
        case None =>
          var found := alloc.Alloc();
          if found.None? {
            assert InUse() == used;
            return Err(NoAvailableLpi);
          }
          lpi := found.value;
      }
      assert InUse() == used + iset{lpi} && lpi !in used && old(IsChosen(wanted, lpi));
      if hasIts {
        if !pushed {
          return Err(CommandFailed);
        }
        events := events[e := lpi];
        lpis := lpis[lpi := Target(e, icid)];
        r := Ok(lpi);
      } else {
        alloc.Free(lpi);
        assert InUse() == used;
        r := Err(MsiNotSupported);
      }
    }

    /** Unmaps an event; `commands` are the outcomes of the DISCARD and of one SYNC per redistributor. */
    method UnmapEvent(e: Event, commands: seq<bool>) returns (r: Result<()>)
      requires Valid()
      modifies this, alloc
      ensures Valid()
      ensures r.Ok? <==> !hasIts || forall i :: 0 <= i < |commands| ==> commands[i]
      ensures r.Err? ==> r.error == CommandFailed
      ensures if r.Ok? && hasIts && e in old(events)
              then Current() == Apply(old(Current()), Unmapped(e)) && handlers == old(handlers) - {old(events)[e]}
              else Current() == old(Current()) && handlers == old(handlers)
    {
      if !hasIts {
        return Ok(());
      }
      for i := 0 to |commands|
        invariant Valid() && unchanged(this) && unchanged(alloc)
        invariant forall j :: 0 <= j < i ==> commands[j]
      {
        if !commands[i] { return Err(CommandFailed); }
      }
      if e in events {
        var lpi := events[e];
        UnmapKeeps(InUse(), events, lpis, e);
        events := events - {e};
        lpis := lpis - {lpi};
        ghost var used := InUse();
        alloc.Free(lpi);
        assert InUse() == used - iset{lpi};
        handlers := handlers - {lpi};
      }
      r := Ok(());
    }
  }

  // ---------------------------------------------------------------- runs

  datatype State = State(used: iset<nat>, events: map<Event, nat>, lpis: map<nat, Target>)

  /** What a call leaves behind: a new mapping, an LPI taken for a command that failed, or a mapping gone. */
  datatype Step = Mapped(e: Event, lpi: nat, icid: nat) | Leaked(lpi: nat) | Unmapped(e: Event) | Nothing

  ghost predicate Enabled(s: State, step: Step) {
    match step
    case Mapped(_, lpi, _) => lpi !in s.used
    case Leaked(lpi) => lpi !in s.used
    case Unmapped(e) => e in s.events
    case Nothing => true
  }

  ghost function Apply(s: State, step: Step): State
    requires Enabled(s, step)
  {
    match step
    case Mapped(e, lpi, icid) => State(s.used + iset{lpi}, s.events[e := lpi], s.lpis[lpi := Target(e, icid)])
    case Leaked(lpi) => s.(used := s.used + iset{lpi})
    case Unmapped(e) => State(s.used - iset{s.events[e]}, s.events - {e}, s.lpis - {s.events[e]})
    case Nothing => s
  }

  /** Every step of the run is possible where it is taken. */
  ghost predicate IsRun(s: State, steps: seq<Step>)
    decreases |steps|
  {
    steps == [] || (Enabled(s, steps[0]) && IsRun(Apply(s, steps[0]), steps[1..]))
  }

  ghost function After(s: State, steps: seq<Step>): State
    requires IsRun(s, steps)
    decreases |steps|
  {
    if steps == [] then s else After(Apply(s, steps[0]), steps[1..])
  }

  /** Some step maps an event that is mapped at that point. */
  ghost predicate Remaps(s: State, steps: seq<Step>)
    requires IsRun(s, steps)
    decreases |steps|
  {
    steps != [] && ((steps[0].Mapped? && steps[0].e in s.events) || Remaps(Apply(s, steps[0]), steps[1..]))
  }

  lemma StepConsistent(s: State, step: Step)
    requires Enabled(s, step) && Consistent(s.used, s.events, s.lpis)
    ensures var t := Apply(s, step); Consistent(t.used, t.events, t.lpis)
  {
    if step.Unmapped? { UnmapKeeps(s.used, s.events, s.lpis, step.e); }
  }

  /** An LPI that points at an event which does not point back does so for ever. */
  lemma StaleStays(s: State, step: Step)
    requires Enabled(s, step) && Consistent(s.used, s.events, s.lpis) && !Exact(s.events, s.lpis)
    ensures var t := Apply(s, step); !Exact(t.events, t.lpis)
  {
    var t := Apply(s, step);
    var l :| l in s.lpis && !(s.lpis[l].event in s.events && s.events[s.lpis[l].event] == l);
    assert l in t.lpis && t.lpis[l] == s.lpis[l];
  }

  lemma {:induction false} InexactRun(s: State, steps: seq<Step>)
    requires IsRun(s, steps) && Consistent(s.used, s.events, s.lpis) && !Exact(s.events, s.lpis)
    ensures var t := After(s, steps); !Exact(t.events, t.lpis)
    decreases |steps|
  {
    if steps != [] {
      StepConsistent(s, steps[0]);
      StaleStays(s, steps[0]);
      InexactRun(Apply(s, steps[0]), steps[1..]);
    }
  }

  /**
   * Over any run both sides stay consistent, and they end as exact inverses just when no live
   * event was mapped again.
   */
  lemma {:induction false} ExactIffNoRemap(s: State, steps: seq<Step>)
    requires IsRun(s, steps) && Consistent(s.used, s.events, s.lpis) && Exact(s.events, s.lpis)
    ensures var t := After(s, steps);
            && Consistent(t.used, t.events, t.lpis)
            && (Exact(t.events, t.lpis) <==> !Remaps(s, steps))
    decreases |steps|
  {
    if steps != [] {
      var step, t := steps[0], Apply(s, steps[0]);
      StepConsistent(s, step);
      match step {
        case Mapped(e, lpi, icid) => ExactIffNew(s.used, s.events, s.lpis, e, lpi, icid);
        case Unmapped(e) => UnmapKeeps(s.used, s.events, s.lpis, e);
        case _ =>
      }
      if Exact(t.events, t.lpis) {
        ExactIffNoRemap(t, steps[1..]);
      } else {
        InexactRun(t, steps[1..]);
        RunConsistent(t, steps[1..]);
      }
    }
  }

  lemma {:induction false} RunConsistent(s: State, steps: seq<Step>)
    requires IsRun(s, steps) && Consistent(s.used, s.events, s.lpis)
    ensures var t := After(s, steps); Consistent(t.used, t.events, t.lpis)
    decreases |steps|
  {
    if steps != [] {
      StepConsistent(s, steps[0]);
      RunConsistent(Apply(s, steps[0]), steps[1..]);
    }
  }
}
