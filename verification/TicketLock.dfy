/**
 * The ticket lock as a transition system over any number of threads. Both
 * counters wrap modulo 2^64; the history of tickets is kept beside them.
 */
module TicketLock {

  const MOD: nat := 0x1_0000_0000_0000_0000

  type Tid = nat

  datatype Pc = Idle | Waiting(ticket: nat) | Holding

  /** `taken` lists the threads in the order of their fetch_add, `acquired` in the order they got the lock. */
  datatype State = State(ticket: nat, users: nat, threads: map<Tid, Pc>, taken: seq<Tid>, acquired: seq<Tid>,
      served: nat)

  datatype Step = Take(t: Tid) | Check(t: Tid) | Unlock(t: Tid)

  predicate Init(s: State) {
    s.ticket == 0 && s.users == 0 && s.taken == [] && s.acquired == [] && s.served == 0
    && forall t :: t in s.threads ==> s.threads[t] == Idle
  }

  function Outstanding(s: State): int {
    |s.taken| - s.served
  }

  predicate Enabled(s: State, a: Step) {
    a.t in s.threads &&
    match a
    case Take(t) => s.threads[t] == Idle
    case Check(t) => s.threads[t].Waiting?
    case Unlock(t) => s.threads[t] == Holding
  }

  function Next(s: State, a: Step): State
    requires Enabled(s, a)
  {
    match a
    case Take(t) =>
      s.(ticket := (s.ticket + 1) % MOD, threads := s.threads[t := Waiting(s.ticket)], taken := s.taken + [t])
    case Check(t) =>
      if s.users == s.threads[t].ticket then s.(threads := s.threads[t := Holding], acquired := s.acquired + [t]) else s
    case Unlock(t) =>
      s.(users := (s.users + 1) % MOD, threads := s.threads[t := Idle], served := s.served + 1)
  }

  /** Fewer than 2^64 tickets are out when one more is taken. */
  predicate Bounded(s: State, a: Step) {
    a.Take? ==> Outstanding(s) < MOD
  }

  /** Where the thread of ticket number i, not yet returned, must be. */
  ghost predicate Placed(s: State, i: nat)
    requires i < |s.taken|
  {
    s.taken[i] in s.threads &&
    s.threads[s.taken[i]] == if i < |s.acquired| then Holding else Waiting(i % MOD)
  }

  ghost predicate Inv(s: State) {
    && s.ticket == |s.taken| % MOD && s.users == s.served % MOD
    && s.served <= |s.acquired| <= s.served + 1 && |s.acquired| <= |s.taken| <= s.served + MOD
    && s.acquired == s.taken[..|s.acquired|]
    && (forall i :: s.served <= i < |s.taken| ==> Placed(s, i))
    && (forall i, j :: s.served <= i < j < |s.taken| ==> s.taken[i] != s.taken[j])
    && (forall t :: t in s.threads && s.threads[t] != Idle ==> exists i :: s.served <= i < |s.taken| && s.taken[i] == t)
  }

  lemma SameResidue(a: nat, b: nat)
    requires a <= b < a + MOD && a % MOD == b % MOD
    ensures a == b
  {
  }

  lemma ModSucc(n: nat)
    ensures (n % MOD + 1) % MOD == (n + 1) % MOD
  {
  }

  lemma InitInv(s: State)
    requires Init(s)
    ensures Inv(s)
  {
  }

  lemma TakeInv(s: State, t: Tid)
    requires Inv(s) && Enabled(s, Take(t)) && Outstanding(s) < MOD
    ensures Inv(Next(s, Take(t)))
  {
    var s' := Next(s, Take(t));
    var n := |s.taken|;
    ModSucc(n);
    assert s'.acquired == s'.taken[..|s'.acquired|];
    forall i | s.served <= i < n ensures s.taken[i] != t { assert Placed(s, i); }
    forall i | s'.served <= i < |s'.taken| ensures Placed(s', i) {
      if i < n { assert Placed(s, i); }
    }
    hide Placed;
    forall u | u in s'.threads && s'.threads[u] != Idle
      ensures exists i :: s'.served <= i < |s'.taken| && s'.taken[i] == u
    {
      if u == t {
        assert s'.taken[n] == u;
      } else {
        var i :| s.served <= i < |s.taken| && s.taken[i] == u;
        assert s'.taken[i] == u;
      }
    }
  }

  /** The number a waiting thread compares leads to its ticket, and it matches only when its turn has come. */
  lemma TurnOf(s: State, t: Tid) returns (i: nat)
    requires Inv(s) && t in s.threads && s.threads[t].Waiting?
    ensures |s.acquired| <= i < |s.taken| && s.taken[i] == t && s.threads[t].ticket == i % MOD
    ensures s.users == s.threads[t].ticket ==> i == s.served == |s.acquired|
  {
    i :| s.served <= i < |s.taken| && s.taken[i] == t;
    assert Placed(s, i);
    if s.users == s.threads[t].ticket { SameResidue(s.served, i); }
  }

  /** While nobody holds the lock, the thread with the oldest ticket gets in at its next look, and no other does. */
  lemma OldestEnters(s: State, t: Tid)
    requires Inv(s) && t in s.threads && s.threads[t].Waiting?
    ensures var s' := Next(s, Check(t));
            && (s'.threads[t] == Holding <==> |s.acquired| == s.served && s.taken[s.served] == t)
            && (s'.threads[t] != Holding ==> s' == s)
  {
    var i := TurnOf(s, t);
    if |s.acquired| == s.served && s.taken[s.served] == t { assert Placed(s, s.served); }
  }

  lemma AcquireInv(s: State, t: Tid)
    requires Inv(s) && Enabled(s, Check(t)) && s.users == s.threads[t].ticket
    ensures Inv(Next(s, Check(t)))
  {
    var s' := Next(s, Check(t));
    var n := TurnOf(s, t);
    assert s'.acquired == s.taken[..n + 1];
    forall i | s'.served <= i < |s'.taken| ensures Placed(s', i) { assert Placed(s, i); }
    forall u | u in s'.threads && s'.threads[u] != Idle
      ensures exists i :: s'.served <= i < |s'.taken| && s'.taken[i] == u
    {
      var i :| s.served <= i < |s.taken| && s.taken[i] == u;
      assert s'.taken[i] == u;
    }
  }

  lemma UnlockInv(s: State, t: Tid)
    requires Inv(s) && Enabled(s, Unlock(t))
    ensures Inv(Next(s, Unlock(t)))
  {
    var s' := Next(s, Unlock(t));
    ModSucc(s.served);
    var n :| s.served <= n < |s.taken| && s.taken[n] == t;
    assert Placed(s, n);
    assert n == s.served && |s.acquired| == s.served + 1;
    forall i | s'.served <= i < |s'.taken| ensures Placed(s', i) { assert Placed(s, i); }
    forall u | u in s'.threads && s'.threads[u] != Idle
      ensures exists i :: s'.served <= i < |s'.taken| && s'.taken[i] == u
    {
      var i :| s.served <= i < |s.taken| && s.taken[i] == u;
      assert i != n;
      assert s'.taken[i] == u;
    }
  }

  lemma NextInv(s: State, a: Step)
    requires Inv(s) && Enabled(s, a) && Bounded(s, a)
    ensures Inv(Next(s, a))
  {
    match a
    case Take(t) => TakeInv(s, t);
    case Check(t) => if s.users == s.threads[t].ticket { AcquireInv(s, t); }
    case Unlock(t) => UnlockInv(s, t);
  }

  // ---------------------------------------------------------------- runs

  ghost predicate IsRun(states: seq<State>, steps: seq<Step>) {
    && |states| == |steps| + 1
    && forall i :: 0 <= i < |steps| ==> Enabled(states[i], steps[i]) && states[i + 1] == Next(states[i], steps[i])
  }

  lemma {:induction false} RunInv(states: seq<State>, steps: seq<Step>, i: nat)
    requires IsRun(states, steps) && Init(states[0]) && i < |states|
    requires forall k :: 0 <= k < |steps| ==> Bounded(states[k], steps[k])
    ensures Inv(states[i])
  {
    if i == 0 {
      InitInv(states[0]);
    } else {
      RunInv(states, steps, i - 1);
      NextInv(states[i - 1], steps[i - 1]);
    }
  }

  lemma HoldersEqual(s: State, t: Tid, u: Tid)
    requires Inv(s) && t in s.threads && u in s.threads && s.threads[t] == Holding && s.threads[u] == Holding
    ensures t == u
  {
    var i :| s.served <= i < |s.taken| && s.taken[i] == t;
    var j :| s.served <= j < |s.taken| && s.taken[j] == u;
    assert Placed(s, i) && Placed(s, j);
  }

  /**
   * While fewer than 2^64 tickets are out at every take: at most one thread
   * holds the lock, and the lock is acquired in the order of the fetch_adds.
   */
  lemma FifoExclusion(states: seq<State>, steps: seq<Step>, i: nat)
    requires IsRun(states, steps) && Init(states[0]) && i < |states|
    requires forall k :: 0 <= k < |steps| ==> Bounded(states[k], steps[k])
    ensures var s := states[i];
            && (forall t, u ::
                t in s.threads && u in s.threads && s.threads[t] == Holding && s.threads[u] == Holding ==> t == u)
            && s.acquired <= s.taken
            && s.ticket == |s.taken| % 0x1_0000_0000_0000_0000 && s.users == s.served % 0x1_0000_0000_0000_0000
  {
    RunInv(states, steps, i);
    var s := states[i];
    forall t, u | t in s.threads && u in s.threads && s.threads[t] == Holding && s.threads[u] == Holding
        ensures t == u {
      HoldersEqual(s, t, u);
    }
  }

  /** If a ticket is taken while 2^64 are out, the newcomer walks in beside the holder: the bound is needed. */
  lemma OneTicketTooMany(s: State, h: Tid, t: Tid)
    requires Inv(s) && h in s.threads && s.threads[h] == Holding
    requires Enabled(s, Take(t)) && |s.taken| - s.served == 0x1_0000_0000_0000_0000
    ensures var s1 := Next(s, Take(t));
            Enabled(s1, Check(t)) && Next(s1, Check(t)).threads[t] == Holding
                && Next(s1, Check(t)).threads[h] == Holding && t != h
  {
    assert |s.taken| % MOD == s.served % MOD;
  }
}
