/**
 * Mapping and unmapping MSI events from any number of threads. A map call holds
 * the lock of the LPI allocator to its end; an unmap call takes one lock after
 * the other, so the steps of both interleave.
 */
module MsiThreads {
  import opened MsiEvents

  /** Where a thread is between two steps. */
  datatype Phase =
    | Idle
    | Inserting(e: Event, lpi: nat, icid: nat)
    | Linking(e: Event, lpi: nat, icid: nat)
    | Unlinking(lpi: nat)
    | Freeing(lpi: nat)
    | Dropping(lpi: nat)

  datatype Threads = Threads(used: iset<nat>, events: map<Event, nat>, lpis: map<nat, Target>, handlers: map<nat, nat>,
      phases: seq<Phase>)

  datatype Step =
    | Take(t: nat, e: Event, lpi: nat, icid: nat)
    | Fail(t: nat)
    | Insert(t: nat)
    | Link(t: nat)
    | Remove(t: nat, e: Event)
    | Unlink(t: nat)
    | Free(t: nat)
    | Drop(t: nat)
    | Register(lpi: nat, handler: nat)

  /** The thread holds the allocator's lock. */
  predicate Locks(ph: Phase) { ph.Inserting? || ph.Linking? }

  /** The thread is taking the LPI out of use. */
  predicate Ends(ph: Phase, l: nat) { (ph.Unlinking? || ph.Freeing?) && ph.lpi == l }

  predicate LockFree(phases: seq<Phase>) {
    forall u :: 0 <= u < |phases| ==> !Locks(phases[u])
  }

  ghost predicate Enabled(s: Threads, step: Step) {
    match step
    case Take(t, _, l, _) => t < |s.phases| && s.phases[t].Idle? && LockFree(s.phases) && l !in s.used
    case Fail(t) => t < |s.phases| && s.phases[t].Inserting?
    case Insert(t) => t < |s.phases| && s.phases[t].Inserting?
    case Link(t) => t < |s.phases| && s.phases[t].Linking?
    case Remove(t, e) => t < |s.phases| && s.phases[t].Idle? && e in s.events
    case Unlink(t) => t < |s.phases| && s.phases[t].Unlinking?
    case Free(t) => t < |s.phases| && s.phases[t].Freeing? && LockFree(s.phases)
    case Drop(t) => t < |s.phases| && s.phases[t].Dropping?
    case Register(_, _) => true
  }

  ghost function Apply(s: Threads, step: Step): (r: Threads)
    requires Enabled(s, step)
    ensures |r.phases| == |s.phases|
  {
    match step
    case Take(t, e, l, icid) => s.(used := s.used + iset{l}, phases := s.phases[t := Inserting(e, l, icid)])
    case Fail(t) => s.(phases := s.phases[t := Idle])
    case Insert(t) =>
      var Inserting(e, l, icid) := s.phases[t];
      s.(events := s.events[e := l], phases := s.phases[t := Linking(e, l, icid)])
    case Link(t) =>
      var Linking(e, l, icid) := s.phases[t];
      s.(lpis := s.lpis[l := Target(e, icid)], phases := s.phases[t := Idle])
    case Remove(t, e) => s.(events := s.events - {e}, phases := s.phases[t := Unlinking(s.events[e])])
    case Unlink(t) => s.(lpis := s.lpis - {s.phases[t].lpi}, phases := s.phases[t := Freeing(s.phases[t].lpi)])
    case Free(t) => s.(used := s.used - iset{s.phases[t].lpi}, phases := s.phases[t := Dropping(s.phases[t].lpi)])
    case Drop(t) => s.(handlers := s.handlers - {s.phases[t].lpi}, phases := s.phases[t := Idle])
    case Register(l, h) => s.(handlers := s.handlers[l := h])
  }

  /** An unmap has removed the entry of the LPI, and has not yet freed it. */
  ghost predicate IsFreeing(phases: seq<Phase>, l: nat) {
    exists u :: 0 <= u < |phases| && phases[u] == Freeing(l)
  }

  ghost predicate IsEnding(phases: seq<Phase>, l: nat) {
    exists u :: 0 <= u < |phases| && Ends(phases[u], l)
  }

  ghost predicate IsLinking(phases: seq<Phase>, e: Event, l: nat) {
    exists u :: 0 <= u < |phases| && phases[u].Linking? && phases[u].e == e && phases[u].lpi == l
  }

  /**
   * The entries left behind, told from the steps alone: a map call that links its
   * LPI after an unmap of the same event has passed that entry leaves it behind,
   * until the LPI is taken again.
   */
  ghost function Orphans(s: Threads, step: Step, o: set<nat>): set<nat>
    requires Enabled(s, step)
  {
    match step
    case Take(_, _, l, _) => o - {l}
    case Link(t) => if IsFreeing(s.phases, s.phases[t].lpi) then o + {s.phases[t].lpi} else o - {s.phases[t].lpi}
    case Unlink(t) => o - {s.phases[t].lpi}
    case _ => o
  }

  // ---------------------------------------------------------------- the invariant

  /** What a thread holds is in use. */
  ghost predicate PhaseOk(s: Threads, t: nat)
    requires t < |s.phases|
  {
    match s.phases[t]
    case Idle => true
    case Inserting(_, l, _) => l in s.used && NotMapped(s.events, l) && !IsEnding(s.phases, l)
    case Linking(e, l, _) => l in s.used && ((e in s.events && s.events[e] == l) || IsEnding(s.phases, l))
    case Unlinking(l) => l in s.used && NotMapped(s.events, l)
    case Freeing(l) => l in s.used && NotMapped(s.events, l)
    case Dropping(_) => true
  }

  ghost predicate NotMapped(events: map<Event, nat>, l: nat) {
    forall e :: e in events ==> events[e] != l
  }

  /** An event has an LPI of its own, and the LPI knows the event or is about to. */
  ghost predicate EventOk(s: Threads, e: Event)
    requires e in s.events
  {
    var l := s.events[e];
    && l in s.used
    && (forall f :: f in s.events && s.events[f] == l ==> f == e)
    && ((l in s.lpis && s.lpis[l].event == e) || IsLinking(s.phases, e, l))
  }

  /** One holder of the lock, and one thread to end an LPI. */
  ghost predicate Alone(phases: seq<Phase>) {
    && (forall t, u :: 0 <= t < |phases| && 0 <= u < |phases| && Locks(phases[t]) && Locks(phases[u]) ==> t == u)
    && (forall t, u, l :: 0 <= t < |phases| && 0 <= u < |phases| && Ends(phases[t], l) && Ends(phases[u], l) ==> t == u)
  }

  ghost predicate LeftBehind(s: Threads, l: nat) {
    l in s.lpis && (l !in s.used || IsFreeing(s.phases, l))
  }

  ghost predicate Inv(s: Threads, o: set<nat>) {
    && (forall t :: 0 <= t < |s.phases| ==> PhaseOk(s, t))
    && (forall e :: e in s.events ==> EventOk(s, e))
    && Alone(s.phases)
    && (forall l :: l in o <==> LeftBehind(s, l))
  }

  /** What others see of the threads once thread t is in another phase. */
  lemma Moves(phases: seq<Phase>, t: nat, ph: Phase, l: nat, e: Event)
    requires Alone(phases) && t < |phases|
    ensures IsFreeing(phases[t := ph], l) <==> ph == Freeing(l) || (phases[t] != Freeing(l) && IsFreeing(phases, l))
    ensures IsEnding(phases[t := ph], l) <==> Ends(ph, l) || (!Ends(phases[t], l) && IsEnding(phases, l))
    ensures IsLinking(phases[t := ph], e, l) <==>
      (ph.Linking? && ph.e == e && ph.lpi == l) || (!(phases[t].Linking? && phases[t].e == e && phases[t].lpi == l)
          && IsLinking(phases, e, l))
  {
    var now := phases[t := ph];
    if u :| 0 <= u < |phases| && phases[u] == Freeing(l) {
      assert Ends(phases[u], l) && (u != t ==> now[u] == phases[u]);
    }
    if u :| 0 <= u < |phases| && Ends(phases[u], l) { assert u != t ==> now[u] == phases[u]; }
    if u :| 0 <= u < |phases| && phases[u].Linking? && phases[u].e == e && phases[u].lpi == l {
      assert Locks(phases[u]) && (u != t ==> now[u] == phases[u]);
    }
    assert now[t] == ph;
  }

  lemma MovesAll(phases: seq<Phase>, t: nat, ph: Phase)
    requires Alone(phases) && t < |phases|
    ensures forall l: nat :: IsFreeing(phases[t := ph], l) <==>
              ph == Freeing(l) || (phases[t] != Freeing(l) && IsFreeing(phases, l))
    ensures forall l: nat :: IsEnding(phases[t := ph], l) <==>
              Ends(ph, l) || (!Ends(phases[t], l) && IsEnding(phases, l))
    ensures forall e, l: nat :: IsLinking(phases[t := ph], e, l) <==>
      (ph.Linking? && ph.e == e && ph.lpi == l) || (!(phases[t].Linking? && phases[t].e == e && phases[t].lpi == l)
          && IsLinking(phases, e, l))
  {
    hide IsFreeing, IsEnding, IsLinking, Alone;
    forall l: nat
      ensures IsFreeing(phases[t := ph], l) <==> ph == Freeing(l) || (phases[t] != Freeing(l) && IsFreeing(phases, l))
      ensures IsEnding(phases[t := ph], l) <==> Ends(ph, l) || (!Ends(phases[t], l) && IsEnding(phases, l))
    {
      Moves(phases, t, ph, l, Event(0, 0));
    }
    forall l: nat, e
      ensures IsLinking(phases[t := ph], e, l) <==>
        (ph.Linking? && ph.e == e && ph.lpi == l) || (!(phases[t].Linking? && phases[t].e == e && phases[t].lpi == l)
            && IsLinking(phases, e, l))
    {
      Moves(phases, t, ph, l, e);
    }
  }

  lemma EndingHeld(s: Threads, o: set<nat>, l: nat)
    requires Inv(s, o)
    ensures IsFreeing(s.phases, l) ==> IsEnding(s.phases, l)
    ensures IsEnding(s.phases, l) ==> l in s.used && NotMapped(s.events, l)
  {
    if u :| 0 <= u < |s.phases| && Ends(s.phases[u], l) { assert PhaseOk(s, u); }
    if u :| 0 <= u < |s.phases| && s.phases[u] == Freeing(l) { assert Ends(s.phases[u], l); }
  }

  lemma LinkingHeld(s: Threads, o: set<nat>, e: Event, l: nat)
    requires Inv(s, o)
    ensures IsLinking(s.phases, e, l) ==> !LockFree(s.phases) && l in s.used
  {
    if u :| 0 <= u < |s.phases| && s.phases[u].Linking? && s.phases[u].e == e && s.phases[u].lpi == l {
      assert PhaseOk(s, u) && Locks(s.phases[u]);
    }
  }

  /** The lock and the end of each LPI stay with one thread. */
  lemma StaysAlone(phases: seq<Phase>, t: nat, ph: Phase)
    requires Alone(phases) && t < |phases|
    requires Locks(ph) ==> Locks(phases[t]) || LockFree(phases)
    requires (ph.Unlinking? || ph.Freeing?) ==> Ends(phases[t], ph.lpi) || !IsEnding(phases, ph.lpi)
    ensures Alone(phases[t := ph])
  {
    hide IsEnding;
    var now := phases[t := ph];
    forall u, v, l | 0 <= u < |now| && 0 <= v < |now| && Ends(now[u], l) && Ends(now[v], l) ensures u == v {
      EndsOnce(phases, u, l);
      EndsOnce(phases, v, l);
    }
  }

  lemma TakeInv(s: Threads, step: Step, o: set<nat>)
    requires Inv(s, o) && Enabled(s, step) && step.Take?
    ensures Inv(Apply(s, step), Orphans(s, step, o))
  {
    var Take(t, e, l, icid) := step;
    var s' := Apply(s, step);
    MovesAll(s.phases, t, Inserting(e, l, icid));
    StaysAlone(s.phases, t, Inserting(e, l, icid));
    EndingHeld(s, o, l);
    assert NotMapped(s.events, l) by { forall f | f in s.events ensures s.events[f] != l { assert EventOk(s, f); } }
    hide IsFreeing, IsEnding, IsLinking, Alone;
    forall u | 0 <= u < |s'.phases| ensures PhaseOk(s', u) { if u != t { assert PhaseOk(s, u); } }
    forall f | f in s'.events ensures EventOk(s', f) { assert EventOk(s, f); }
    forall m: nat ensures m in Orphans(s, step, o) <==> LeftBehind(s', m) { assert m in o <==> LeftBehind(s, m); }
  }

  lemma InsertInv(s: Threads, step: Step, o: set<nat>)
    requires Inv(s, o) && Enabled(s, step) && step.Insert?
    ensures Inv(Apply(s, step), Orphans(s, step, o))
  {
    var t := step.t;
    var Inserting(e, l, icid) := s.phases[t];
    var s' := Apply(s, step);
    assert PhaseOk(s, t);
    MovesAll(s.phases, t, Linking(e, l, icid));
    Moves(s.phases, t, Linking(e, l, icid), l, e);
    StaysAlone(s.phases, t, Linking(e, l, icid));
    OthersFree(s.phases, t);
    hide IsFreeing, IsEnding, IsLinking, Alone;
    forall u | 0 <= u < |s'.phases| ensures PhaseOk(s', u)
        { if u != t { assert PhaseOk(s, u); EndsOnce(s.phases, u, l); } }
    forall f | f in s'.events ensures EventOk(s', f) {
      if f != e {
        assert EventOk(s, f) && s.events[f] != l;
      } else {
        assert forall g :: g in s.events ==> s.events[g] != l;
      }
    }
    forall m: nat ensures m in Orphans(s, step, o) <==> LeftBehind(s', m) { assert m in o <==> LeftBehind(s, m); }
  }

  lemma EndsOnce(phases: seq<Phase>, t: nat, l: nat)
    requires t < |phases|
    ensures Ends(phases[t], l) ==> IsEnding(phases, l)
  {
  }

  /** While thread t has the lock no other does. */
  lemma OthersFree(phases: seq<Phase>, t: nat)
    requires Alone(phases) && t < |phases| && Locks(phases[t])
    ensures forall u :: 0 <= u < |phases| && u != t ==> !Locks(phases[u])
  {
  }

  lemma LinkInv(s: Threads, step: Step, o: set<nat>)
    requires Inv(s, o) && Enabled(s, step) && step.Link?
    ensures Inv(Apply(s, step), Orphans(s, step, o))
  {
    var t := step.t;
    var Linking(e, l, icid) := s.phases[t];
    var s' := Apply(s, step);
    assert PhaseOk(s, t);
    MovesAll(s.phases, t, Idle);
    StaysAlone(s.phases, t, Idle);
    OthersFree(s.phases, t);
    EndingHeld(s, o, l);
    hide IsFreeing, IsEnding, IsLinking, Alone;
    forall u | 0 <= u < |s'.phases| ensures PhaseOk(s', u) { if u != t { assert PhaseOk(s, u); } }
    forall f | f in s'.events ensures EventOk(s', f) { assert EventOk(s, f); }
    forall m: nat ensures m in Orphans(s, step, o) <==> LeftBehind(s', m) { assert m in o <==> LeftBehind(s, m); }
  }

  lemma RemoveInv(s: Threads, step: Step, o: set<nat>)
    requires Inv(s, o) && Enabled(s, step) && step.Remove?
    ensures Inv(Apply(s, step), Orphans(s, step, o))
  {
    var Remove(t, e) := step;
    var l := s.events[e];
    var s' := Apply(s, step);
    assert EventOk(s, e);
    EndingHeld(s, o, l);
    MovesAll(s.phases, t, Unlinking(l));
    StaysAlone(s.phases, t, Unlinking(l));
    hide IsFreeing, IsEnding, IsLinking, Alone;
    forall u | 0 <= u < |s'.phases| ensures PhaseOk(s', u) { if u != t { assert PhaseOk(s, u); } }
    forall f | f in s'.events ensures EventOk(s', f) { assert EventOk(s, f); }
    forall m: nat ensures m in Orphans(s, step, o) <==> LeftBehind(s', m) { assert m in o <==> LeftBehind(s, m); }
  }

  lemma UnlinkInv(s: Threads, step: Step, o: set<nat>)
    requires Inv(s, o) && Enabled(s, step) && step.Unlink?
    ensures Inv(Apply(s, step), Orphans(s, step, o))
  {
    var t, l := step.t, s.phases[step.t].lpi;
    var s' := Apply(s, step);
    assert PhaseOk(s, t);
    MovesAll(s.phases, t, Freeing(l));
    StaysAlone(s.phases, t, Freeing(l));
    hide IsFreeing, IsEnding, IsLinking, Alone;
    forall u | 0 <= u < |s'.phases| ensures PhaseOk(s', u) { if u != t { assert PhaseOk(s, u); } }
    forall f | f in s'.events ensures EventOk(s', f) { assert EventOk(s, f); }
    forall m: nat ensures m in Orphans(s, step, o) <==> LeftBehind(s', m) { assert m in o <==> LeftBehind(s, m); }
  }

  lemma FreeInv(s: Threads, step: Step, o: set<nat>)
    requires Inv(s, o) && Enabled(s, step) && step.Free?
    ensures Inv(Apply(s, step), Orphans(s, step, o))
  {
    var t, l := step.t, s.phases[step.t].lpi;
    var s' := Apply(s, step);
    assert PhaseOk(s, t) && Ends(s.phases[t], l);
    MovesAll(s.phases, t, Dropping(l));
    StaysAlone(s.phases, t, Dropping(l));
    OthersEnd(s.phases, t, l);
    hide IsFreeing, IsEnding, IsLinking, Alone;
    forall u | 0 <= u < |s'.phases| ensures PhaseOk(s', u)
        { if u != t { assert PhaseOk(s, u) && !Locks(s.phases[u]); } }
    forall f | f in s'.events ensures EventOk(s', f) { assert EventOk(s, f); }
    forall m: nat ensures m in Orphans(s, step, o) <==> LeftBehind(s', m) { assert m in o <==> LeftBehind(s, m); }
  }

  /** While thread t ends the LPI no other does. */
  lemma OthersEnd(phases: seq<Phase>, t: nat, l: nat)
    requires Alone(phases) && t < |phases| && Ends(phases[t], l)
    ensures forall u :: 0 <= u < |phases| && u != t ==> !Ends(phases[u], l)
    ensures phases[t].Freeing? ==> IsFreeing(phases, l)
  {
  }

  lemma QuietInv(s: Threads, step: Step, o: set<nat>)
    requires Inv(s, o) && Enabled(s, step) && (step.Fail? || step.Drop? || step.Register?)
    ensures Inv(Apply(s, step), Orphans(s, step, o))
  {
    var s' := Apply(s, step);
    if !step.Register? {
      MovesAll(s.phases, step.t, Idle);
      StaysAlone(s.phases, step.t, Idle);
    }
    hide IsFreeing, IsEnding, IsLinking, Alone;
    forall u | 0 <= u < |s'.phases| ensures PhaseOk(s', u) { assert PhaseOk(s, u); }
    forall f | f in s'.events ensures EventOk(s', f) { assert EventOk(s, f); }
    forall m: nat ensures m in Orphans(s, step, o) <==> LeftBehind(s', m) { assert m in o <==> LeftBehind(s, m); }
  }

  /** Every step of any thread keeps the invariant, and what is left behind is what the steps say. */
  lemma StepInv(s: Threads, step: Step, o: set<nat>)
    requires Inv(s, o) && Enabled(s, step)
    ensures Inv(Apply(s, step), Orphans(s, step, o))
  {
    hide Inv, Orphans, Apply;
    match step
    case Take(_, _, _, _) => TakeInv(s, step, o);
    case Fail(_) => QuietInv(s, step, o);
    case Insert(_) => InsertInv(s, step, o);
    case Link(_) => LinkInv(s, step, o);
    case Remove(_, _) => RemoveInv(s, step, o);
    case Unlink(_) => UnlinkInv(s, step, o);
    case Free(_) => FreeInv(s, step, o);
    case Drop(_) => QuietInv(s, step, o);
    case Register(_, _) => QuietInv(s, step, o);
  }

  // ---------------------------------------------------------------- runs

  ghost predicate IsRun(s: Threads, steps: seq<Step>)
    decreases |steps|
  {
    steps == [] || (Enabled(s, steps[0]) && IsRun(Apply(s, steps[0]), steps[1..]))
  }

  ghost function After(s: Threads, steps: seq<Step>): Threads
    requires IsRun(s, steps)
    decreases |steps|
  {
    if steps == [] then s else After(Apply(s, steps[0]), steps[1..])
  }

  /** The entries a run leaves behind. */
  ghost function Behind(s: Threads, steps: seq<Step>, o: set<nat>): set<nat>
    requires IsRun(s, steps)
    decreases |steps|
  {
    if steps == [] then o else Behind(Apply(s, steps[0]), steps[1..], Orphans(s, steps[0], o))
  }

  lemma {:induction false} RunInv(s: Threads, steps: seq<Step>, o: set<nat>)
    requires IsRun(s, steps) && Inv(s, o)
    ensures Inv(After(s, steps), Behind(s, steps, o))
    decreases |steps|
  {
    hide Inv, Apply, Orphans, Enabled;
    if steps != [] {
      StepInv(s, steps[0], o);
      RunInv(Apply(s, steps[0]), steps[1..], Orphans(s, steps[0], o));
    }
  }

  ghost predicate AtRest(s: Threads) {
    forall t :: 0 <= t < |s.phases| ==> s.phases[t].Idle?
  }

  function Start(threads: nat): Threads {
    Threads(iset{}, map[], map[], map[], seq(threads, _ => Idle))
  }

  /**
   * After any run, once all calls are over: events have LPIs of their own that
   * know them, and no LPI out of use knows an event just when the run left no
   * entry behind.
   */
  lemma RunConsistentIff(threads: nat, steps: seq<Step>)
    requires IsRun(Start(threads), steps) && AtRest(After(Start(threads), steps))
    ensures var s, o := After(Start(threads), steps), Behind(Start(threads), steps, {});
            && (forall e :: e in s.events ==>
                s.events[e] in s.used && s.events[e] in s.lpis && s.lpis[s.events[e]].event == e)
            && (Consistent(s.used, s.events, s.lpis) <==> o == {})
            && (forall l :: l in o <==> l in s.lpis && l !in s.used)
  {
    hide IsRun, After, Behind;
    StartInv(threads);
    RunInv(Start(threads), steps, {});
    RestIff(After(Start(threads), steps), Behind(Start(threads), steps, {}));
  }

  lemma StartInv(threads: nat)
    ensures Inv(Start(threads), {})
  {
  }

  lemma RestIff(s: Threads, o: set<nat>)
    requires Inv(s, o) && AtRest(s)
    ensures forall e :: e in s.events ==>
              s.events[e] in s.used && s.events[e] in s.lpis && s.lpis[s.events[e]].event == e
    ensures Consistent(s.used, s.events, s.lpis) <==> o == {}
    ensures forall l :: l in o <==> l in s.lpis && l !in s.used
  {
    forall e | e in s.events ensures s.events[e] in s.used && s.events[e] in s.lpis && s.lpis[s.events[e]].event == e {
      assert EventOk(s, e);
      LinkingHeld(s, o, e, s.events[e]);
      assert LockFree(s.phases);
    }
    forall l ensures l in o <==> l in s.lpis && l !in s.used {
      assert l in o <==> LeftBehind(s, l);
    }
    if Consistent(s.used, s.events, s.lpis) {
      forall l ensures l !in o { assert l in s.lpis ==> l in s.used; }
    }
  }

  // ---------------------------------------------------------------- when nothing is left behind

  /** An unmap takes away an event whose map call is not over. */
  ghost predicate Overtakes(s: Threads, step: Step) {
    step.Remove? && exists l :: IsLinking(s.phases, step.e, l)
  }

  /** Every map call that is not over still has its event. */
  ghost predicate Calm(s: Threads) {
    forall t :: 0 <= t < |s.phases| && s.phases[t].Linking? ==>
      s.phases[t].e in s.events && s.events[s.phases[t].e] == s.phases[t].lpi
  }

  lemma CalmStep(s: Threads, step: Step, o: set<nat>)
    requires Inv(s, o) && Enabled(s, step) && Calm(s) && o == {} && !Overtakes(s, step)
    ensures Calm(Apply(s, step)) && Orphans(s, step, o) == {}
  {
    if step.Link? {
      assert EventOk(s, s.phases[step.t].e);
      EndingHeld(s, o, s.phases[step.t].lpi);
    } else if step.Insert? {
      OthersFree(s.phases, step.t);
    }
  }

  ghost predicate NoneOvertaken(s: Threads, steps: seq<Step>)
    requires IsRun(s, steps)
    decreases |steps|
  {
    steps == [] || (!Overtakes(s, steps[0]) && NoneOvertaken(Apply(s, steps[0]), steps[1..]))
  }

  /** Where no unmap takes an event from a map call that is not over, nothing is ever left behind. */
  lemma {:induction false} CalmRun(s: Threads, steps: seq<Step>)
    requires IsRun(s, steps) && Inv(s, {}) && Calm(s) && NoneOvertaken(s, steps)
    ensures Behind(s, steps, {}) == {}
    decreases |steps|
  {
    hide Inv, Calm, Overtakes, Enabled, Apply, Orphans;
    if steps != [] {
      StepInv(s, steps[0], {});
      CalmStep(s, steps[0], {});
      CalmRun(Apply(s, steps[0]), steps[1..]);
    }
  }

  // ---------------------------------------------------------------- handlers

  /** A thread that is still to drop a handler drops it for an LPI out of use. */
  ghost predicate Tidy(s: Threads) {
    forall t :: 0 <= t < |s.phases| && s.phases[t].Dropping? ==> s.phases[t].lpi !in s.used
  }

  /** An LPI is taken while the handler of its last mapping is still to be dropped. */
  ghost predicate TakesEarly(s: Threads, step: Step) {
    step.Take? && exists t :: 0 <= t < |s.phases| && s.phases[t] == Dropping(step.lpi)
  }

  /** Unless an LPI is taken too early, no LPI in use loses its handler. */
  lemma TidyStep(s: Threads, step: Step)
    requires Tidy(s) && Enabled(s, step) && !TakesEarly(s, step)
    ensures var s' := Apply(s, step);
            Tidy(s') && forall l :: l in s.used && l in s'.used && l in s.handlers ==> l in s'.handlers
  {
  }

  /** No handler of an LPI in use is dropped in the run. */
  ghost predicate HandlersKept(s: Threads, steps: seq<Step>)
    requires IsRun(s, steps)
    decreases |steps|
  {
    steps == [] ||
    var s' := Apply(s, steps[0]);
    && (forall l :: l in s.used && l in s'.used && l in s.handlers ==> l in s'.handlers)
    && HandlersKept(s', steps[1..])
  }

  ghost predicate NoneEarly(s: Threads, steps: seq<Step>)
    requires IsRun(s, steps)
    decreases |steps|
  {
    steps == [] || (!TakesEarly(s, steps[0]) && NoneEarly(Apply(s, steps[0]), steps[1..]))
  }

  lemma {:induction false} HandlersStay(s: Threads, steps: seq<Step>)
    requires IsRun(s, steps) && Tidy(s) && NoneEarly(s, steps)
    ensures HandlersKept(s, steps)
    decreases |steps|
  {
    hide Tidy, TakesEarly, Enabled, Apply;
    if steps != [] {
      TidyStep(s, steps[0]);
      HandlersStay(Apply(s, steps[0]), steps[1..]);
    }
  }

  /** And an LPI taken too early can lose the handler of its new mapping. */
  lemma EarlyTakeLosesHandler(s: Threads, t: nat, u: nat, e: Event, l: nat, icid: nat, handler: nat)
    requires t < |s.phases| && s.phases[t] == Dropping(l) && Enabled(s, Take(u, e, l, icid))
    ensures var steps := [Take(u, e, l, icid), Register(l, handler), Drop(t)];
            IsRun(s, steps) && l in After(s, steps).used && l !in After(s, steps).handlers && !NoneEarly(s, steps)
  {
    var steps := [Take(u, e, l, icid), Register(l, handler), Drop(t)];
    var after1, after2 := [Register(l, handler), Drop(t)], [Drop(t)];
    assert steps[1..] == after1 && after1[1..] == after2 && after2[1..] == [];
    var s1 := Apply(s, steps[0]);
    var s2 := Apply(s1, after1[0]);
    assert IsRun(s2, after2);
    assert IsRun(s1, after1);
    assert After(s, steps) == After(s1, after1) == After(s2, after2) == Apply(s2, Drop(t));
    assert TakesEarly(s, steps[0]);
  }

  // ---------------------------------------------------------------- calls with nothing in between

  ghost function Seen(s: Threads): State {
    State(s.used, s.events, s.lpis)
  }

  /** The steps of a map call on their own make the mapping. */
  lemma MapAlone(s: Threads, t: nat, e: Event, l: nat, icid: nat)
    requires Enabled(s, Take(t, e, l, icid))
    ensures var steps := [Take(t, e, l, icid), Insert(t), Link(t)];
            && IsRun(s, steps) && After(s, steps).phases == s.phases
            && Seen(After(s, steps)) == MsiEvents.Apply(Seen(s), Mapped(e, l, icid))
  {
    var steps := [Take(t, e, l, icid), Insert(t), Link(t)];
    assert steps[1..] == [Insert(t), Link(t)] && steps[1..][1..] == [Link(t)] && [Link(t)][1..] == [];
    var s1 := Apply(s, steps[0]);
    var s2 := Apply(s1, steps[1]);
    assert IsRun(s2, [Link(t)]) && IsRun(s1, steps[1..]);
    assert After(s, steps) == After(s1, steps[1..]) == After(s2, [Link(t)]) == Apply(s2, Link(t));
  }

  /** The steps of an unmap call on their own take the mapping away. */
  lemma UnmapAlone(s: Threads, t: nat, e: Event)
    requires Enabled(s, Remove(t, e)) && LockFree(s.phases)
    ensures var steps := [Remove(t, e), Unlink(t), Free(t), Drop(t)];
            && IsRun(s, steps) && After(s, steps).phases == s.phases
            && Seen(After(s, steps)) == MsiEvents.Apply(Seen(s), Unmapped(e))
            && After(s, steps).handlers == s.handlers - {s.events[e]}
  {
    var steps := [Remove(t, e), Unlink(t), Free(t), Drop(t)];
    var after1, after2, after3 := [Unlink(t), Free(t), Drop(t)], [Free(t), Drop(t)], [Drop(t)];
    assert steps[1..] == after1 && after1[1..] == after2 && after2[1..] == after3 && after3[1..] == [];
    var s1 := Apply(s, steps[0]);
    var s2 := Apply(s1, after1[0]);
    var s3 := Apply(s2, after2[0]);
    assert IsRun(s3, after3);
    assert IsRun(s2, after2);
    assert IsRun(s1, after1);
    assert After(s, steps) == After(s1, after1) == After(s2, after2) == After(s3, after3) == Apply(s3, Drop(t));
  }
}
