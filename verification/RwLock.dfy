/**
 * The reader-writer spinlock as a transition system: any number of threads, one
 * atomic access per step, stale local copies and failing compare-exchanges included.
 */
module RwLock {

  /** The lock word is an i32: the sign bit is the writer bit, the rest counts readers. */
  const WRITER: int := -0x8000_0000
  const READERS: int := 0x7FFF_FFFF

  type Word = w: int | WRITER <= w <= READERS
  type Tid = nat

  /** `w & WRITER == 0` */
  predicate NoWriterBit(w: Word) { w >= 0 }

  /** `w | WRITER` */
  function SetWriterBit(w: Word): Word { if w >= 0 then w + WRITER else w }

  /** Two's complement `w - 1`. */
  function WrappingDec(w: Word): Word { if w == WRITER then READERS else w - 1 }

  datatype Pc =
    | Idle
    | ReadLoop(seen: Word)
    | Reading
    | WriteLoop(seen: Word)
    | WriteWait
    | Writing

  datatype State = State(word: Word, threads: map<Tid, Pc>)

  datatype Step =
    | StartRead(t: Tid)
    | ReadCas(t: Tid, spurious: bool)
    | ReadReload(t: Tid)
    | DropRead(t: Tid)
    | StartWrite(t: Tid)
    | WriteCas(t: Tid, spurious: bool)
    | WriteReload(t: Tid)
    | WritePoll(t: Tid)
    | DropWrite(t: Tid)

  predicate Init(s: State) {
    s.word == 0 && forall t :: t in s.threads ==> s.threads[t] == Idle
  }

  function Goto(s: State, t: Tid, pc: Pc): State {
    s.(threads := s.threads[t := pc])
  }

  predicate Enabled(s: State, a: Step) {
    a.t in s.threads &&
    var pc := s.threads[a.t];
    match a
    case StartRead(_) => pc == Idle
    case ReadCas(_, _) => pc.ReadLoop? && NoWriterBit(pc.seen) && pc.seen != READERS
    case ReadReload(_) => pc.ReadLoop? && !(NoWriterBit(pc.seen) && pc.seen != READERS)
    case DropRead(_) => pc == Reading
    case StartWrite(_) => pc == Idle
    case WriteCas(_, _) => pc.WriteLoop? && NoWriterBit(pc.seen)
    case WriteReload(_) => pc.WriteLoop? && !NoWriterBit(pc.seen)
    case WritePoll(_) => pc == WriteWait
    case DropWrite(_) => pc == Writing
  }

  function Next(s: State, a: Step): State
    requires Enabled(s, a)
  {
    var pc := s.threads[a.t];
    match a
    case StartRead(t) => Goto(s, t, ReadLoop(s.word))
    case ReadCas(t, spurious) =>
      if s.word == pc.seen && !spurious then Goto(s.(word := pc.seen + 1), t, Reading)
      else Goto(s, t, ReadLoop(s.word))
    case ReadReload(t) => Goto(s, t, ReadLoop(s.word))
    case DropRead(t) => Goto(s.(word := WrappingDec(s.word)), t, Idle)
    case StartWrite(t) => Goto(s, t, WriteLoop(s.word))
    case WriteCas(t, spurious) =>
      if s.word == pc.seen && !spurious then
        Goto(s.(word := SetWriterBit(pc.seen)), t, if pc.seen == 0 then Writing else WriteWait)
      else Goto(s, t, WriteLoop(s.word))
    case WriteReload(t) => Goto(s, t, WriteLoop(s.word))
    case WritePoll(t) => if s.word == WRITER then Goto(s, t, Writing) else s
    case DropWrite(t) => Goto(s.(word := 0), t, Idle)
  }

  function Readers(s: State): set<Tid> {
    set t | t in s.threads && s.threads[t] == Reading
  }

  /** Threads that have set the writer bit: waiting for readers to leave, or writing. */
  function Writers(s: State): set<Tid> {
    set t | t in s.threads && (s.threads[t] == WriteWait || s.threads[t] == Writing)
  }

  /** The word is the writer bit of the writer there is, if any, plus the number of readers. */
  ghost predicate Inv(s: State) {
    && |Writers(s)| <= 1
    && |Readers(s)| <= READERS
    && s.word == (if Writers(s) == {} then 0 else WRITER) + |Readers(s)|
    && (forall t :: t in s.threads && s.threads[t] == Writing ==> Readers(s) == {})
  }

  /** How one thread's move changes the two sets. */
  lemma Moved(s: State, t: Tid, pc: Pc, word: Word)
    requires t in s.threads
    ensures var s' := Goto(s.(word := word), t, pc);
            && Readers(s') == (if pc == Reading then Readers(s) + {t} else Readers(s) - {t})
            && Writers(s') == (if pc == WriteWait || pc == Writing then Writers(s) + {t} else Writers(s) - {t})
  {
  }

  lemma AtMostOne(s: State, t: Tid, u: Tid)
    requires |Writers(s)| <= 1 && t in Writers(s) && u in Writers(s)
    ensures t == u
  {
    if t != u {
      var pair := {t, u};
      SubsetSize(pair, Writers(s));
    }
  }

  lemma SubsetSize(a: set<Tid>, b: set<Tid>)
    requires a <= b
    ensures |a| <= |b|
  {
    assert b == a + (b - a);
  }

  lemma OnlyWriter(s: State, t: Tid)
    requires Inv(s) && t in Writers(s)
    ensures Writers(s) == {t}
  {
    forall u | u in Writers(s) ensures u == t { AtMostOne(s, t, u); }
  }

  /** A move that touches neither the word nor a guard. */
  lemma QuietMove(s: State, t: Tid, pc: Pc)
    requires Inv(s) && t in s.threads && t !in Readers(s) && t !in Writers(s)
    requires pc != Reading && pc != WriteWait && pc != Writing
    ensures Inv(Goto(s, t, pc))
  {
    Moved(s, t, pc, s.word);
    assert Readers(s) - {t} == Readers(s) && Writers(s) - {t} == Writers(s);
  }

  lemma EnterRead(s: State, t: Tid)
    requires Inv(s) && t in s.threads && s.threads[t].ReadLoop? && 0 <= s.word < READERS
    ensures Inv(Goto(s.(word := s.word + 1), t, Reading))
  {
    Moved(s, t, Reading, s.word + 1);
    var s' := Goto(s.(word := s.word + 1), t, Reading);
    assert Writers(s) == {} && Writers(s') == {};
    assert t !in Readers(s) && |Readers(s) + {t}| == |Readers(s)| + 1;
    assert forall u :: u in s'.threads ==> u !in Writers(s');
  }

  lemma LeaveRead(s: State, t: Tid)
    requires Inv(s) && t in s.threads && s.threads[t] == Reading
    ensures s.word != WRITER && Inv(Goto(s.(word := s.word - 1), t, Idle))
  {
    assert t in Readers(s);
    assert |Readers(s) - {t}| == |Readers(s)| - 1;
    Moved(s, t, Idle, s.word - 1);
    assert Writers(s) - {t} == Writers(s);
  }

  lemma SetBit(s: State, t: Tid)
    requires Inv(s) && t in s.threads && s.threads[t].WriteLoop? && s.word >= 0
    ensures Inv(Goto(s.(word := SetWriterBit(s.word)), t, if s.word == 0 then Writing else WriteWait))
  {
    assert Writers(s) == {} && Writers(s) + {t} == {t};
    Moved(s, t, if s.word == 0 then Writing else WriteWait, SetWriterBit(s.word));
    assert Readers(s) - {t} == Readers(s);
  }

  lemma FinishWait(s: State, t: Tid)
    requires Inv(s) && t in s.threads && s.threads[t] == WriteWait && s.word == WRITER
    ensures Inv(Goto(s, t, Writing))
  {
    assert t in Writers(s) && Writers(s) + {t} == Writers(s);
    Moved(s, t, Writing, s.word);
    assert Readers(s) - {t} == Readers(s);
  }

  lemma LeaveWrite(s: State, t: Tid)
    requires Inv(s) && t in s.threads && s.threads[t] == Writing
    ensures Inv(Goto(s.(word := 0), t, Idle))
  {
    OnlyWriter(s, t);
    Moved(s, t, Idle, 0);
    var s' := Goto(s.(word := 0), t, Idle);
    assert Writers(s') == {} && Readers(s') == {};
    assert forall u :: u in s'.threads ==> u !in Writers(s');
  }

  /** Every step keeps the invariant. */
  lemma NextInv(s: State, a: Step)
    requires Inv(s) && Enabled(s, a)
    ensures Inv(Next(s, a))
  {
    hide Inv;
    var s', pc := Next(s, a), s.threads[a.t];
    match a
    case StartRead(t) => QuietMove(s, t, ReadLoop(s.word));
    case ReadCas(t, spurious) =>
      if s.word == pc.seen && !spurious { EnterRead(s, t); } else { QuietMove(s, t, ReadLoop(s.word)); }
    case ReadReload(t) => QuietMove(s, t, ReadLoop(s.word));
    case DropRead(t) => LeaveRead(s, t);
    case StartWrite(t) => QuietMove(s, t, WriteLoop(s.word));
    case WriteCas(t, spurious) =>
      if s.word == pc.seen && !spurious { SetBit(s, t); } else { QuietMove(s, t, WriteLoop(s.word)); }
    case WriteReload(t) => QuietMove(s, t, WriteLoop(s.word));
    case WritePoll(t) => if s.word == WRITER { FinishWait(s, t); }
    case DropWrite(t) => LeaveWrite(s, t);
  }

  // ---------------------------------------------------------------- runs

  /** `states` is an execution of `steps`. */
  ghost predicate IsRun(states: seq<State>, steps: seq<Step>) {
    && |states| == |steps| + 1
    && forall i :: 0 <= i < |steps| ==> Enabled(states[i], steps[i]) && states[i + 1] == Next(states[i], steps[i])
  }

  lemma InitInv(s: State)
    requires Init(s)
    ensures Inv(s)
  {
    assert Readers(s) == {} && Writers(s) == {};
  }

  lemma {:induction false} RunInv(states: seq<State>, steps: seq<Step>, i: nat)
    requires IsRun(states, steps) && Inv(states[0]) && i < |states|
    ensures Inv(states[i])
  {
    if i > 0 {
      RunInv(states, steps, i - 1);
      NextInv(states[i - 1], steps[i - 1]);
    }
  }

  /**
   * In every reachable state: the word decodes to the pending or holding writer
   * and the number of readers, a writer that holds the lock is alone, and the
   * count of readers never reaches the writer bit.
   */
  lemma RunSafe(states: seq<State>, steps: seq<Step>, i: nat)
    requires IsRun(states, steps) && Init(states[0]) && i < |states|
    ensures var s := states[i];
            && NoWriterBit(s.word) == (Writers(s) == {})
            && |Readers(s)| == (if NoWriterBit(s.word) then s.word else s.word + 0x8000_0000)
            && (forall t, u :: t in s.threads && u in s.threads && s.threads[t] == Writing && t != u ==>
                  s.threads[u] != Writing && s.threads[u] != Reading && s.threads[u] != WriteWait)
  {
    InitInv(states[0]);
    RunInv(states, steps, i);
    var s := states[i];
    forall t, u | t in s.threads && u in s.threads && s.threads[t] == Writing && t != u
      ensures s.threads[u] != Writing && s.threads[u] != Reading && s.threads[u] != WriteWait
    {
      assert t in Writers(s) && u !in Readers(s);
      OnlyWriter(s, t);
      assert u !in Writers(s);
    }
  }

  /** While a writer waits or writes, no step lets a reader in. */
  lemma StepAdmitsNoReader(s: State, a: Step, w: Tid)
    requires Inv(s) && Enabled(s, a) && w in Writers(s)
    ensures Readers(Next(s, a)) <= Readers(s)
  {
    var s' := Next(s, a);
    assert s.word < 0;
    forall t | t in Readers(s') ensures t in Readers(s) {
      if t == a.t { assert s'.threads[t] == Reading; }
    }
  }

  /** From the moment a writer sets its bit until it releases, the readers can only become fewer. */
  lemma {:induction false} WriterBarsReaders(states: seq<State>, steps: seq<Step>, w: Tid, i: nat, j: nat)
    requires IsRun(states, steps) && Inv(states[0]) && i <= j < |states|
    requires forall k :: i <= k <= j ==> w in Writers(states[k])
    ensures Readers(states[j]) <= Readers(states[i])
    decreases j
  {
    if i < j {
      WriterBarsReaders(states, steps, w, i, j - 1);
      RunInv(states, steps, j - 1);
      StepAdmitsNoReader(states[j - 1], steps[j - 1], w);
    }
  }

  /** A waiting writer gets the lock at its next poll exactly when the last reader has left. */
  lemma WaiterProceeds(s: State, w: Tid)
    requires Inv(s) && w in s.threads && s.threads[w] == WriteWait
    ensures Next(s, WritePoll(w)).threads[w] == Writing <==> Readers(s) == {}
  {
    assert w in Writers(s);
  }

  // ---------------------------------------------------------------- who gets in

  /** What thread t does next when it is given a turn and its exchange does not fail on its own. */
  function Turn(s: State, t: Tid): (r: State)
    requires t in s.threads && (s.threads[t].ReadLoop? || s.threads[t].WriteLoop? || s.threads[t].WriteWait?)
    ensures r.threads.Keys == s.threads.Keys
  {
    var pc := s.threads[t];
    if Enabled(s, ReadCas(t, false)) then Next(s, ReadCas(t, false))
    else if pc.ReadLoop? then Next(s, ReadReload(t))
    else if Enabled(s, WriteCas(t, false)) then Next(s, WriteCas(t, false))
    else if pc.WriteLoop? then Next(s, WriteReload(t))
    else Next(s, WritePoll(t))
  }

  /**
   * A reader that has seen the current word gets in at its next turn exactly when no writer
   * has the bit and the count has room.
   */
  lemma ReaderEnters(s: State, t: Tid)
    requires Inv(s) && t in s.threads && s.threads[t] == ReadLoop(s.word)
    ensures Turn(s, t).threads[t] == Reading <==> Writers(s) == {} && |Readers(s)| < 0x7FFF_FFFF
    ensures Turn(s, t).threads[t] == Reading || Turn(s, t) == s
  {
    assert s.threads[t := ReadLoop(s.word)] == s.threads;
  }

  /** Whatever the reader saw before, a turn brings it in or shows it the current word. */
  lemma ReaderLooks(s: State, t: Tid)
    requires Inv(s) && t in s.threads && s.threads[t].ReadLoop?
    ensures var s' := Turn(s, t);
            || (s'.threads[t] == Reading && s.threads[t] == ReadLoop(s.word))
            || s' == Goto(s, t, ReadLoop(s.word))
  {
  }

  /** A thread that only looks changes nothing for the others. */
  lemma LookKeeps(s: State, t: Tid, pc: Pc)
    requires Inv(s) && t in s.threads && (s.threads[t].ReadLoop? || s.threads[t].WriteLoop?)
               && (pc.ReadLoop? || pc.WriteLoop?)
    ensures var s' := Goto(s, t, pc); Inv(s') && Readers(s') == Readers(s) && Writers(s') == Writers(s)
  {
    Moved(s, t, pc, s.word);
    assert t !in Readers(s) && t !in Writers(s);
    assert Goto(s.(word := s.word), t, pc) == Goto(s, t, pc);
  }

  /**
   * So a reader that runs for two turns on its own is in after one or two of them,
   * exactly when no writer has the bit and the count has room.
   */
  lemma ReaderGetsIn(s: State, t: Tid)
    requires Inv(s) && t in s.threads && s.threads[t].ReadLoop?
    ensures var s' := Turn(s, t);
            (s'.threads[t] == Reading || (s'.threads[t].ReadLoop? && Turn(s', t).threads[t] == Reading))
              <==> Writers(s) == {} && |Readers(s)| < 0x7FFF_FFFF
  {
    hide Inv, Readers, Writers, Turn;
    ReaderLooks(s, t);
    if Turn(s, t).threads[t] == Reading {
      ReaderEnters(s, t);
    } else {
      LookKeeps(s, t, ReadLoop(s.word));
      ReaderEnters(Turn(s, t), t);
    }
  }

  /**
   * A writer that has seen the current word sets the bit at its next turn exactly
   * when no other thread has it, and then writes at once exactly when nobody reads.
   */
  lemma WriterSetsBit(s: State, t: Tid)
    requires Inv(s) && t in s.threads && s.threads[t] == WriteLoop(s.word)
    ensures t in Writers(Turn(s, t)) <==> Writers(s) == {}
    ensures Turn(s, t).threads[t] == Writing <==> Writers(s) == {} && Readers(s) == {}
    ensures t !in Writers(Turn(s, t)) ==> Turn(s, t) == s
  {
    assert s.threads[t := WriteLoop(s.word)] == s.threads;
  }

  lemma WriterLooks(s: State, t: Tid)
    requires Inv(s) && t in s.threads && s.threads[t].WriteLoop?
    ensures var s' := Turn(s, t);
            || (t in Writers(s') && s.threads[t] == WriteLoop(s.word))
            || (t !in Writers(s') && s' == Goto(s, t, WriteLoop(s.word)))
  {
  }

  /** A writer that runs for two turns on its own has set the bit after one or two of them, exactly when it was free. */
  lemma WriterGetsBit(s: State, t: Tid)
    requires Inv(s) && t in s.threads && s.threads[t].WriteLoop?
    ensures var s' := Turn(s, t);
            (t in Writers(s') || (s'.threads[t].WriteLoop? && t in Writers(Turn(s', t)))) <==> Writers(s) == {}
  {
    hide Inv, Readers, Writers, Turn;
    WriterLooks(s, t);
    if t in Writers(Turn(s, t)) {
      WriterSetsBit(s, t);
    } else {
      LookKeeps(s, t, WriteLoop(s.word));
      WriterSetsBit(Turn(s, t), t);
    }
  }
}
