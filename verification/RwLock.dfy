/** The read-write lock of posix_multithread/programs_src/rwlock.c.

    A step is one critical section: what a thread does between acquiring the mutex and
    releasing it or waiting.  A waiting thread is asleep until a signal, a broadcast or
    a spurious wakeup wakes it; it then needs a step of its own to reacquire the mutex
    and test its condition again. */
module RwLock {
  import opened Basics
  import opened Counting

  type Thread = nat

  datatype Pc =
    | Idle
    | Reading                      // holds the lock for reading
    | Writing                      // holds the lock for writing
    | ReadWait(woken: bool)        // inside pthread_cond_wait on `read`
    | WriteWait(woken: bool)       // inside pthread_cond_wait on `write`

  datatype State = State(rActive: int, wActive: bool, rWait: int, wWait: int, pcs: seq<Pc>)

  datatype Action =
    | ReadLock
    | ReadTryLock(busy: bool)
    | ReadResume                   // a woken reader gets the mutex back
    | ReadUnlock
    | WriteLock
    | WriteTryLock(busy: bool)
    | WriteResume
    | WriteUnlock
    | SpuriousWakeup

  predicate Initial(s: State) {
    && s.rActive == 0 && !s.wActive && s.rWait == 0 && s.wWait == 0
    && forall t :: 0 <= t < |s.pcs| ==> s.pcs[t] == Idle
  }

  // ---------- condition variables ----------

  /** pthread_cond_signal on `write`: at least one sleeper wakes, if there is any. */
  ghost predicate SignalWrite(pcs: seq<Pc>, pcs': seq<Pc>) {
    && |pcs'| == |pcs|
    && (forall t :: 0 <= t < |pcs| ==>
          pcs'[t] == pcs[t] || (pcs[t] == WriteWait(false) && pcs'[t] == WriteWait(true)))
    && ((exists t :: 0 <= t < |pcs| && pcs[t] == WriteWait(false)) ==>
          exists t :: 0 <= t < |pcs| && pcs[t] == WriteWait(false) && pcs'[t] == WriteWait(true))
  }

  /** pthread_cond_broadcast on `read`: every sleeper wakes. */
  ghost predicate BroadcastRead(pcs: seq<Pc>, pcs': seq<Pc>) {
    && |pcs'| == |pcs|
    && (forall t :: 0 <= t < |pcs| ==>
          pcs'[t] == if pcs[t] == ReadWait(false) then ReadWait(true) else pcs[t])
  }

  // ---------- the critical sections ----------

  predicate Free(s: State) {
    !s.wActive && s.rActive == 0
  }

  /** The thread is in no call of its own, so it can make one. */
  predicate Outside(pc: Pc) {
    pc.Idle? || pc.Reading? || pc.Writing?
  }

  /** Nothing in the source keeps a thread from unlocking what it does not hold. */
  ghost predicate Step(s: State, s': State, t: Thread, a: Action)
    requires t < |s.pcs|
  {
    match a
    case ReadLock =>
      s.pcs[t] == Idle && s' ==
        if s.wActive then s.(rWait := s.rWait + 1, pcs := s.pcs[t := ReadWait(false)])
        else s.(rActive := s.rActive + 1, pcs := s.pcs[t := Reading])
    case ReadTryLock(busy) =>
      s.pcs[t] == Idle && busy == s.wActive && s' ==
        if busy then s else s.(rActive := s.rActive + 1, pcs := s.pcs[t := Reading])
    case ReadResume =>
      s.pcs[t] == ReadWait(true) && s' ==
        if s.wActive then s.(pcs := s.pcs[t := ReadWait(false)])
        else s.(rWait := s.rWait - 1, rActive := s.rActive + 1, pcs := s.pcs[t := Reading])
    case ReadUnlock =>
      && Outside(s.pcs[t])
      && s' == s.(rActive := s.rActive - 1, pcs := s'.pcs)
      && var pcs := if s.pcs[t] == Reading then s.pcs[t := Idle] else s.pcs;
         if s.rActive - 1 == 0 && s.wWait > 0 then SignalWrite(pcs, s'.pcs) else s'.pcs == pcs
    case WriteLock =>
      s.pcs[t] == Idle && s' ==
        if s.wActive || s.rActive > 0 then s.(wWait := s.wWait + 1, pcs := s.pcs[t := WriteWait(false)])
        else s.(wActive := true, pcs := s.pcs[t := Writing])
    case WriteTryLock(busy) =>
      s.pcs[t] == Idle && busy == (s.wActive || s.rActive > 0) && s' ==
        if busy then s else s.(wActive := true, pcs := s.pcs[t := Writing])
    case WriteResume =>
      s.pcs[t] == WriteWait(true) && s' ==
        if s.wActive || s.rActive > 0 then s.(pcs := s.pcs[t := WriteWait(false)])
        else s.(wWait := s.wWait - 1, wActive := true, pcs := s.pcs[t := Writing])
    case WriteUnlock =>
      && Outside(s.pcs[t])
      && s' == s.(wActive := false, pcs := s'.pcs)
      && var pcs := if s.pcs[t] == Writing then s.pcs[t := Idle] else s.pcs;
         if s.rWait > 0 then BroadcastRead(pcs, s'.pcs)
         else if s.wWait > 0 then SignalWrite(pcs, s'.pcs)
         else s'.pcs == pcs
    case SpuriousWakeup =>
      && (s.pcs[t] == ReadWait(false) || s.pcs[t] == WriteWait(false))
      && s' == s.(pcs := s.pcs[t := s.pcs[t].(woken := true)])
  }

  // ---------- the invariant ----------

  predicate IsReading(pc: Pc) { pc.Reading? }
  predicate IsWriting(pc: Pc) { pc.Writing? }
  predicate IsReadWait(pc: Pc) { pc.ReadWait? }
  predicate IsWriteWait(pc: Pc) { pc.WriteWait? }

  /** The four counters count the threads they are meant to count. */
  ghost predicate Counters(s: State) {
    && s.rActive == Count(s.pcs, IsReading)
    && (if s.wActive then 1 else 0) == Count(s.pcs, IsWriting)
    && s.rWait == Count(s.pcs, IsReadWait)
    && s.wWait == Count(s.pcs, IsWriteWait)
  }

  ghost predicate Waiting(s: State, t: int) {
    0 <= t < |s.pcs| && (s.pcs[t].ReadWait? || s.pcs[t].WriteWait?)
  }

  ghost predicate Woken(s: State, t: int) {
    Waiting(s, t) && s.pcs[t].woken
  }

  /** Readers sleep only while a writer is active, and a free lock with waiters has a
      waiter that has already been woken. */
  ghost predicate NoLostWakeup(s: State) {
    && ((exists t :: 0 <= t < |s.pcs| && s.pcs[t] == ReadWait(false)) ==> s.wActive)
    && (Free(s) && (exists t :: Waiting(s, t)) ==> exists t :: Woken(s, t))
  }

  ghost predicate Inv(s: State) {
    Counters(s) && (s.wActive ==> s.rActive == 0) && NoLostWakeup(s)
  }

  lemma InitialInv(s: State)
    requires Initial(s)
    ensures Inv(s)
  {
    CountZero(s.pcs, IsReading);
    CountZero(s.pcs, IsWriting);
    CountZero(s.pcs, IsReadWait);
    CountZero(s.pcs, IsWriteWait);
  }

  /** Moving one thread changes each count by that thread alone. */
  lemma CountsMove(pcs: seq<Pc>, t: Thread, pc: Pc)
    requires t < |pcs|
    ensures Count(pcs[t := pc], IsReading) == Count(pcs, IsReading) - Bit(pcs[t].Reading?) + Bit(pc.Reading?)
    ensures Count(pcs[t := pc], IsWriting) == Count(pcs, IsWriting) - Bit(pcs[t].Writing?) + Bit(pc.Writing?)
    ensures Count(pcs[t := pc], IsReadWait) == Count(pcs, IsReadWait) - Bit(pcs[t].ReadWait?) + Bit(pc.ReadWait?)
    ensures Count(pcs[t := pc], IsWriteWait) == Count(pcs, IsWriteWait) - Bit(pcs[t].WriteWait?) + Bit(pc.WriteWait?)
  {
    CountUpdate(pcs, t, pc, IsReading);
    CountUpdate(pcs, t, pc, IsWriting);
    CountUpdate(pcs, t, pc, IsReadWait);
    CountUpdate(pcs, t, pc, IsWriteWait);
  }

  /** Waking threads changes no count. */
  lemma CountsWake(pcs: seq<Pc>, pcs': seq<Pc>)
    requires |pcs'| == |pcs|
    requires forall t :: 0 <= t < |pcs| ==>
      pcs'[t] == pcs[t] || (pcs[t] == WriteWait(false) && pcs'[t] == WriteWait(true))
                        || (pcs[t] == ReadWait(false) && pcs'[t] == ReadWait(true))
    ensures Count(pcs', IsReading) == Count(pcs, IsReading)
    ensures Count(pcs', IsWriting) == Count(pcs, IsWriting)
    ensures Count(pcs', IsReadWait) == Count(pcs, IsReadWait)
    ensures Count(pcs', IsWriteWait) == Count(pcs, IsWriteWait)
  {
    CountSame(pcs', pcs, IsReading);
    CountSame(pcs', pcs, IsWriting);
    CountSame(pcs', pcs, IsReadWait);
    CountSame(pcs', pcs, IsWriteWait);
  }

  /** The step does not give back what its thread does not hold: it does not unlock for
      reading unless it reads, nor for writing what another thread is writing. */
  predicate HolderUnlocks(s: State, t: Thread, a: Action)
    requires t < |s.pcs|
  {
    (a.ReadUnlock? ==> s.pcs[t].Reading?) && (a.WriteUnlock? ==> s.pcs[t].Writing? || !s.wActive)
  }

  lemma CountersStep(s: State, s': State, t: Thread, a: Action)
    requires Inv(s) && t < |s.pcs| && Step(s, s', t, a) && HolderUnlocks(s, t, a)
    ensures Counters(s') && |s'.pcs| == |s.pcs|
  {
    if a.ReadUnlock? {
      CountsMove(s.pcs, t, Idle);
      CountsWake(s.pcs[t := Idle], s'.pcs);
    } else if a.WriteUnlock? {
      WriteUnlockCounts(s, s', t);
    } else if s' != s {
      CountsMove(s.pcs, t, s'.pcs[t]);
    }
  }

  lemma WriteUnlockCounts(s: State, s': State, t: Thread)
    requires Counters(s) && t < |s.pcs| && Step(s, s', t, WriteUnlock) && (s.pcs[t].Writing? || !s.wActive)
    ensures Counters(s') && |s'.pcs| == |s.pcs|
  {
    var pcs := if s.pcs[t] == Writing then s.pcs[t := Idle] else s.pcs;
    CountsMove(s.pcs, t, Idle);
    CountsWake(pcs, s'.pcs);
  }

  /** A thread counted by a counter makes it positive. */
  lemma Counted(s: State, t: Thread)
    requires Counters(s) && t < |s.pcs|
    ensures s.pcs[t].Reading? ==> s.rActive > 0
    ensures s.pcs[t].Writing? ==> s.wActive
    ensures s.pcs[t].ReadWait? ==> s.rWait > 0
    ensures s.pcs[t].WriteWait? ==> s.wWait > 0
  {
    CountZero(s.pcs, IsReading);
    CountZero(s.pcs, IsWriting);
    CountZero(s.pcs, IsReadWait);
    CountZero(s.pcs, IsWriteWait);
  }

  lemma ExclusionStep(s: State, s': State, t: Thread, a: Action)
    requires Inv(s) && t < |s.pcs| && Step(s, s', t, a) && HolderUnlocks(s, t, a)
    ensures s'.wActive ==> s'.rActive == 0
  {
    Counted(s, t);
  }

  lemma SomeWriteWaiter(s: State) returns (u: Thread)
    requires Counters(s) && s.wWait > 0
    ensures u < |s.pcs| && s.pcs[u].WriteWait?
  {
    CountZero(s.pcs, IsWriteWait);
    u :| 0 <= u < |s.pcs| && IsWriteWait(s.pcs[u]);
  }

  lemma SomeReadWaiter(s: State) returns (u: Thread)
    requires Counters(s) && s.rWait > 0
    ensures u < |s.pcs| && s.pcs[u].ReadWait?
  {
    CountZero(s.pcs, IsReadWait);
    u :| 0 <= u < |s.pcs| && IsReadWait(s.pcs[u]);
  }

  /** After a signal to a non-empty set of waiting writers, one of them is awake. */
  lemma SignalLeavesWoken(pcs: seq<Pc>, s': State, u: Thread)
    requires u < |pcs| && pcs[u].WriteWait? && SignalWrite(pcs, s'.pcs)
    ensures exists v :: Woken(s', v)
  {
    if pcs[u] == WriteWait(false) {
      var v :| 0 <= v < |pcs| && pcs[v] == WriteWait(false) && s'.pcs[v] == WriteWait(true);
      assert Woken(s', v);
    } else {
      assert Woken(s', u);
    }
  }

  lemma ReadUnlockWakes(s: State, s': State, t: Thread)
    requires Inv(s) && t < |s.pcs| && Step(s, s', t, ReadUnlock) && s.pcs[t].Reading?
    ensures NoLostWakeup(s')
  {
    Counted(s, t);
    if Free(s') && exists u :: Waiting(s', u) {
      if s.wWait > 0 {
        var u := SomeWriteWaiter(s);
        SignalLeavesWoken(s.pcs[t := Idle], s', u);
      } else {
        var u :| Waiting(s', u);
        Counted(s, u);
        assert Woken(s', u);
      }
    }
  }

  lemma WriteUnlockWakes(s: State, s': State, t: Thread)
    requires Inv(s) && t < |s.pcs| && Step(s, s', t, WriteUnlock)
    ensures NoLostWakeup(s')
  {
    var pcs := if s.pcs[t] == Writing then s.pcs[t := Idle] else s.pcs;
    forall u | 0 <= u < |s'.pcs|
      ensures s'.pcs[u] != ReadWait(false)
    {
      Counted(s, u);
    }
    if s.rWait > 0 {
      var u := SomeReadWaiter(s);
      assert Woken(s', u);
    } else if s.wWait > 0 {
      var u := SomeWriteWaiter(s);
      SignalLeavesWoken(pcs, s', u);
    } else {
      forall u | 0 <= u < |s'.pcs|
        ensures !Waiting(s', u)
      {
        Counted(s, u);
      }
    }
  }

  lemma OtherStepsWake(s: State, s': State, t: Thread, a: Action)
    requires Inv(s) && t < |s.pcs| && Step(s, s', t, a) && !a.ReadUnlock? && !a.WriteUnlock?
    ensures NoLostWakeup(s')
  {
    Counted(s, t);
    if a.SpuriousWakeup? {
      assert Woken(s', t);
    } else if Free(s') && exists u :: Waiting(s', u) {
      assert s' == s;
    }
    if u :| 0 <= u < |s'.pcs| && s'.pcs[u] == ReadWait(false) {
      assert u != t ==> s.pcs[u] == ReadWait(false);
    }
  }

  lemma StepKeepsInv(s: State, s': State, t: Thread, a: Action)
    requires Inv(s) && t < |s.pcs| && Step(s, s', t, a) && HolderUnlocks(s, t, a)
    ensures Inv(s') && |s'.pcs| == |s.pcs|
  {
    CountersStep(s, s', t, a);
    ExclusionStep(s, s', t, a);
    match a
    case ReadUnlock => ReadUnlockWakes(s, s', t);
    case WriteUnlock => WriteUnlockWakes(s, s', t);
    case _ => OtherStepsWake(s, s', t, a);
  }

  /** An unlock by a thread that does not hold what it gives back makes a counter wrong. */
  lemma ForeignUnlockMiscounts(s: State, s': State, t: Thread, a: Action)
    requires Inv(s) && t < |s.pcs| && Step(s, s', t, a) && !HolderUnlocks(s, t, a)
    ensures !Counters(s') && |s'.pcs| == |s.pcs|
  {
    CountsWake(s.pcs, s'.pcs);
  }

  // ---------- whole runs ----------

  datatype Move = Move(thread: Thread, action: Action)

  ghost predicate IsRun(run: seq<State>, moves: seq<Move>) {
    && |run| == |moves| + 1 && Initial(run[0])
    && (forall i :: 0 <= i < |moves| ==> StepAt(run, moves, i))
  }

  ghost predicate StepAt(run: seq<State>, moves: seq<Move>, i: nat)
    requires i < |moves| < |run|
  {
    moves[i].thread < |run[i].pcs| && Step(run[i], run[i + 1], moves[i].thread, moves[i].action)
  }

  /** In the first i steps no thread unlocks what it does not hold. */
  ghost predicate HoldersUnlock(run: seq<State>, moves: seq<Move>, i: nat)
    requires i <= |moves| < |run|
  {
    forall j :: 0 <= j < i ==> HolderAt(run, moves, j)
  }

  predicate HolderAt(run: seq<State>, moves: seq<Move>, j: nat)
    requires j < |moves| < |run|
  {
    moves[j].thread < |run[j].pcs| && HolderUnlocks(run[j], moves[j].thread, moves[j].action)
  }

  /** The counters, the exclusion and the wakeups are right throughout a run if and only
      if no thread unlocks what it does not hold. */
  lemma {:induction false} RunInvIff(run: seq<State>, moves: seq<Move>, i: nat)
    requires IsRun(run, moves) && i <= |moves|
    ensures (forall j :: 0 <= j <= i ==> Inv(run[j])) <==> HoldersUnlock(run, moves, i)
  {
    if i == 0 {
      InitialInv(run[0]);
    } else {
      RunInvIff(run, moves, i - 1);
      assert StepAt(run, moves, i - 1);
      if Inv(run[i - 1]) {
        var m := moves[i - 1];
        if HolderAt(run, moves, i - 1) {
          StepKeepsInv(run[i - 1], run[i], m.thread, m.action);
        } else {
          ForeignUnlockMiscounts(run[i - 1], run[i], m.thread, m.action);
        }
      }
    }
  }

  /** A writer is never active together with any other holder. */
  lemma WriterExcludesAll(run: seq<State>, moves: seq<Move>, i: nat, t: Thread, u: Thread)
    requires IsRun(run, moves) && i <= |moves| && HoldersUnlock(run, moves, i)
    requires t < |run[i].pcs| && u < |run[i].pcs| && t != u && run[i].pcs[t].Writing?
    ensures !run[i].pcs[u].Writing? && !run[i].pcs[u].Reading?
  {
    RunInvIff(run, moves, i);
    var s := run[i];
    Counted(s, t);
    Counted(s, u);
    if s.pcs[u].Writing? {
      CountTwo(s.pcs, if t < u then t else u, if t < u then u else t, IsWriting);
    }
  }

  /** r_wait and w_wait are the threads inside waits, readers sleep only behind a
      writer, and a free lock with waiters has a woken one whose own next step, taken
      now, acquires the lock. */
  lemma WaitersAreServed(run: seq<State>, moves: seq<Move>, i: nat)
    requires IsRun(run, moves) && i <= |moves| && HoldersUnlock(run, moves, i)
    ensures var s := run[i];
      && s.rWait == Count(s.pcs, IsReadWait) && s.wWait == Count(s.pcs, IsWriteWait)
      && (forall t :: 0 <= t < |s.pcs| && s.pcs[t] == ReadWait(false) ==> s.wActive)
      && (Free(s) && s.rWait + s.wWait > 0 ==>
            exists t: Thread, s', a :: t < |s.pcs| && s.pcs[t] in {ReadWait(true), WriteWait(true)}
              && Step(s, s', t, a) && s'.pcs[t] in {Reading, Writing})
  {
    RunInvIff(run, moves, i);
    var s := run[i];
    if Free(s) && s.rWait + s.wWait > 0 {
      WokenGetsLock(s);
    }
  }

  lemma WokenGetsLock(s: State)
    requires Inv(s) && Free(s) && s.rWait + s.wWait > 0
    ensures exists t: Thread, s', a :: t < |s.pcs| && s.pcs[t] in {ReadWait(true), WriteWait(true)}
              && Step(s, s', t, a) && s'.pcs[t] in {Reading, Writing}
  {
    var w;
    if s.rWait > 0 { w := SomeReadWaiter(s); } else { w := SomeWriteWaiter(s); }
    assert Waiting(s, w);
    var t :| Woken(s, t);
    if s.pcs[t].ReadWait? {
      var s' := s.(rWait := s.rWait - 1, rActive := s.rActive + 1, pcs := s.pcs[t := Reading]);
      assert Step(s, s', t, ReadResume);
    } else {
      var s' := s.(wWait := s.wWait - 1, wActive := true, pcs := s.pcs[t := Writing]);
      assert Step(s, s', t, WriteResume);
    }
  }

  // ---------- what each call does, by who holds the lock ----------

  predicate SomeReader(pcs: seq<Pc>) {
    exists u :: 0 <= u < |pcs| && pcs[u].Reading?
  }

  predicate SomeWriter(pcs: seq<Pc>) {
    exists u :: 0 <= u < |pcs| && pcs[u].Writing?
  }

  predicate SomeReadWaiting(pcs: seq<Pc>) {
    exists u :: 0 <= u < |pcs| && pcs[u].ReadWait?
  }

  lemma CountersTell(s: State)
    requires Counters(s)
    ensures s.rActive > 0 <==> SomeReader(s.pcs)
    ensures s.wActive <==> SomeWriter(s.pcs)
    ensures s.rWait > 0 <==> SomeReadWaiting(s.pcs)
    ensures s.wWait > 0 <==> exists u :: 0 <= u < |s.pcs| && s.pcs[u].WriteWait?
  {
    CountZero(s.pcs, IsReading);
    CountZero(s.pcs, IsWriting);
    CountZero(s.pcs, IsReadWait);
    CountZero(s.pcs, IsWriteWait);
  }

  /** What a step of thread t makes of the threads: a reader is stopped by a writer only, a
      writer by any holder; the try-locks answer busy in just these cases, and then change
      nothing.  The last reader to leave wakes a writer; a writer that leaves wakes all
      readers if any waits, and otherwise a writer. */
  ghost predicate Answers(pcs: seq<Pc>, pcs': seq<Pc>, t: Thread, a: Action)
    requires t < |pcs|
  {
    var read := pcs[t := Reading];
    var write := pcs[t := Writing];
    var left := if a.WriteUnlock? && pcs[t] != Writing then pcs else pcs[t := Idle];
    match a
    case ReadLock | ReadResume => pcs' == if SomeWriter(pcs) then pcs[t := ReadWait(false)] else read
    case ReadTryLock(busy) => (busy <==> SomeWriter(pcs)) && pcs' == if busy then pcs else read
    case WriteLock | WriteResume =>
      pcs' == if SomeWriter(pcs) || SomeReader(pcs) then pcs[t := WriteWait(false)] else write
    case WriteTryLock(busy) =>
      (busy <==> SomeWriter(pcs) || SomeReader(pcs)) && pcs' == if busy then pcs else write
    case ReadUnlock => if SomeReader(left) then pcs' == left else SignalWrite(left, pcs')
    case WriteUnlock => if SomeReadWaiting(pcs) then BroadcastRead(left, pcs') else SignalWrite(left, pcs')
    case SpuriousWakeup => pcs' == pcs[t := pcs[t].(woken := true)]
  }

  lemma UnlockAnswers(s: State, s': State, t: Thread, a: Action)
    requires Inv(s) && t < |s.pcs| && Step(s, s', t, a) && HolderUnlocks(s, t, a) && (a.ReadUnlock? || a.WriteUnlock?)
    ensures Answers(s.pcs, s'.pcs, t, a)
  {
    CountersTell(s);
    CountsMove(s.pcs, t, Idle);
    CountZero(s.pcs[t := Idle], IsReading);
  }

  lemma StepAnswers(s: State, s': State, t: Thread, a: Action)
    requires Inv(s) && t < |s.pcs| && Step(s, s', t, a) && HolderUnlocks(s, t, a)
    ensures Answers(s.pcs, s'.pcs, t, a)
  {
    if a.ReadUnlock? || a.WriteUnlock? {
      UnlockAnswers(s, s', t, a);
    } else {
      CountersTell(s);
    }
  }

  /** An unlock by whichever thread can always be made, and it need not wake more than one
      writer. */
  lemma UnlockPossible(s: State, t: Thread, a: Action) returns (s': State)
    requires t < |s.pcs| && Outside(s.pcs[t]) && (a.ReadUnlock? || a.WriteUnlock?)
    ensures Step(s, s', t, a) && |s'.pcs| == |s.pcs|
    ensures forall u, v :: 0 <= u < v < |s.pcs| && s.pcs[u] == s.pcs[v] == WriteWait(false) ==>
      s'.pcs[u] == WriteWait(false) || s'.pcs[v] == WriteWait(false)
  {
    var holds := if a.ReadUnlock? then Reading else Writing;
    var pcs := if s.pcs[t] == holds then s.pcs[t := Idle] else s.pcs;
    var woken := pcs;
    if a.WriteUnlock? && s.rWait > 0 {
      woken := seq(|pcs|, u requires 0 <= u < |pcs| => if pcs[u] == ReadWait(false) then ReadWait(true) else pcs[u]);
    } else if s.wWait > 0 && (a.WriteUnlock? || s.rActive - 1 == 0) {
      if u :| 0 <= u < |pcs| && pcs[u] == WriteWait(false) {
        woken := pcs[u := WriteWait(true)];
        assert pcs[u] == WriteWait(false) && woken[u] == WriteWait(true);
      }
    }
    s' := if a.ReadUnlock? then s.(rActive := s.rActive - 1, pcs := woken) else s.(wActive := false, pcs := woken);
  }

  /** As long as only holders unlock, every call does what the threads that hold the lock
      and wait for it require, and nothing else. */
  lemma CallsAnswer(run: seq<State>, moves: seq<Move>, i: nat)
    requires IsRun(run, moves) && i < |moves| && HoldersUnlock(run, moves, i + 1)
    ensures moves[i].thread < |run[i].pcs|
    ensures Answers(run[i].pcs, run[i + 1].pcs, moves[i].thread, moves[i].action)
  {
    RunInvIff(run, moves, i);
    assert HolderAt(run, moves, i) && StepAt(run, moves, i);
    StepAnswers(run[i], run[i + 1], moves[i].thread, moves[i].action);
  }

  /** The condition is needed: from every initial state with two threads, thread 1 can
      unlock what thread 0 is writing, and then both write. */
  lemma TwoWriters(s: State) returns (run: seq<State>, moves: seq<Move>)
    requires Initial(s) && |s.pcs| >= 2
    ensures IsRun(run, moves) && run[0] == s
    ensures |run[|moves|].pcs| == |s.pcs| && run[|moves|].pcs[0] == run[|moves|].pcs[1] == Writing
  {
    var s1 := s.(wActive := true, pcs := s.pcs[0 := Writing]);
    var s2 := s1.(wActive := false);
    var s3 := s2.(wActive := true, pcs := s2.pcs[1 := Writing]);
    run := [s, s1, s2, s3];
    moves := [Move(0, WriteLock), Move(1, WriteUnlock), Move(1, WriteLock)];
    assert StepAt(run, moves, 0) && StepAt(run, moves, 1) && StepAt(run, moves, 2);
  }
}
