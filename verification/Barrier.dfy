/** The barrier of posix_multithread/programs_src/barrier.c.  A step is one critical
    section of barrier_wait; a sleeping thread wakes by the broadcast or spuriously and
    then tests the cycle again in a step of its own. */
module Barrier {
  import opened Counting

  type Thread = nat

  /** `round` is history: the round in which the thread made its call. */
  datatype Pc =
    | Outside
    | Inside(cycle: bool, woken: bool, round: nat)

  /** What happened in one round: calls made, calls returned, and returns of -1. */
  datatype Record = Record(calls: nat, returned: nat, serial: nat)

  /** `rounds` is history; its last entry is the round in progress. */
  datatype State = State(threshold: int, counter: int, cycle: bool, pcs: seq<Pc>, rounds: seq<Record>)
  {
    function Round(): (k: int) {
      |rounds| - 1
    }
  }

  datatype Action = Call | Resume | SpuriousWakeup

  predicate Initial(s: State) {
    && s.threshold == s.counter >= 1 && !s.cycle
    && s.rounds == [Record(0, 0, 0)]
    && forall t :: 0 <= t < |s.pcs| ==> s.pcs[t] == Outside
  }

  /** pthread_cond_broadcast */
  function Wake(pcs: seq<Pc>): (r: seq<Pc>)
    ensures |r| == |pcs|
  {
    seq(|pcs|, t requires 0 <= t < |pcs| =>
      if pcs[t].Inside? then pcs[t].(woken := true) else pcs[t])
  }

  predicate Enabled(s: State, t: Thread, a: Action) {
    && t < |s.pcs| && |s.rounds| > 0
    && match a
       case Call => s.pcs[t].Outside?
       case Resume => s.pcs[t].Inside? && s.pcs[t].woken && s.pcs[t].round < |s.rounds|
       case SpuriousWakeup => s.pcs[t].Inside?
  }

  function Step(s: State, t: Thread, a: Action): (s': State)
    requires Enabled(s, t, a)
  {
    var k := s.Round();
    var r := s.rounds[k];
    match a
    case Call =>
      if s.counter - 1 == 0 then
        // the last thread in: it flips the cycle and returns -1
        s.(cycle := !s.cycle, counter := s.threshold, pcs := Wake(s.pcs),
           rounds := s.rounds[k := Record(r.calls + 1, r.returned + 1, r.serial + 1)] + [Record(0, 0, 0)])
      else
        s.(counter := s.counter - 1, pcs := s.pcs[t := Inside(s.cycle, false, k)],
           rounds := s.rounds[k := r.(calls := r.calls + 1)])
    case Resume =>
      var pc := s.pcs[t];
      if pc.cycle == s.cycle then
        s.(pcs := s.pcs[t := pc.(woken := false)])
      else
        // barrier_wait returns 0
        s.(pcs := s.pcs[t := Outside],
           rounds := s.rounds[pc.round := s.rounds[pc.round].(returned := s.rounds[pc.round].returned + 1)])
    case SpuriousWakeup => s.(pcs := s.pcs[t := s.pcs[t].(woken := true)])
  }

  // ---------- the one-bit cycle stands for the round number ----------

  predicate Odd(k: int) { k % 2 == 1 }

  predicate InEven(pc: Pc) { pc.Inside? && !pc.cycle }
  predicate InOdd(pc: Pc) { pc.Inside? && pc.cycle }

  /** How many threads wait with the given cycle bit. */
  function Waiting(s: State, cycle: bool): (n: nat) {
    if cycle then Count(s.pcs, InOdd) else Count(s.pcs, InEven)
  }

  ghost predicate Inv(s: State) {
    Paced(s) && (|s.pcs| <= s.threshold ==> Complete(s))
  }

  /** With any number of threads: the bit is the parity of the round, a waiter carries the
      bit of its round, a completed round had `threshold` calls of which one returned -1,
      and the counter says how many calls the round in progress still needs. */
  ghost predicate Paced(s: State) {
    && 1 <= s.counter <= s.threshold && s.Round() >= 0
    && s.cycle == Odd(s.Round())
    && (forall t :: 0 <= t < |s.pcs| && s.pcs[t].Inside? ==>
          0 <= s.pcs[t].round <= s.Round() && s.pcs[t].cycle == Odd(s.pcs[t].round))
    && (forall i :: 0 <= i < s.Round() ==> s.rounds[i].calls == s.threshold && s.rounds[i].serial == 1)
    && s.rounds[s.Round()].calls == s.threshold - s.counter && s.rounds[s.Round()].serial == 0
  }

  /** With at most `threshold` threads nobody is left from an earlier round than the last,
      and every call of a completed round has returned or is about to. */
  ghost predicate Complete(s: State)
    requires s.Round() >= 0
  {
    && Waiting(s, s.cycle) == s.threshold - s.counter
    && (s.Round() == 0 ==> Waiting(s, !s.cycle) == 0)
    && Waiters(s)
    && Returns(s)
  }

  ghost predicate Waiters(s: State) {
    forall t :: 0 <= t < |s.pcs| && s.pcs[t].Inside? ==> WaiterOk(s, s.pcs[t])
  }

  /** A waiter belongs to the round in progress, or to the one before and is awake. */
  ghost predicate WaiterOk(s: State, pc: Pc)
    requires pc.Inside?
  {
    && s.Round() - 1 <= pc.round <= s.Round()
    && (pc.round < s.Round() ==> pc.woken)
  }

  ghost predicate Returns(s: State)
    requires s.Round() >= 0
  {
    var k := s.Round();
    && (forall i :: 0 <= i < k - 1 ==> s.rounds[i].returned == s.threshold)
    && (k >= 1 ==> s.rounds[k - 1].returned + Waiting(s, !s.cycle) == s.threshold)
    && s.rounds[k].returned == 0
  }

  lemma InitialInv(s: State)
    requires Initial(s)
    ensures Inv(s)
  {
    CountZero(s.pcs, InEven);
    CountZero(s.pcs, InOdd);
  }

  function In(pc: Pc, cycle: bool): (n: int) {
    if pc.Inside? && pc.cycle == cycle then 1 else 0
  }

  lemma WaitingMove(s: State, t: Thread, pc: Pc)
    requires t < |s.pcs|
    ensures forall c :: Waiting(s.(pcs := s.pcs[t := pc]), c) == Waiting(s, c) - In(s.pcs[t], c) + In(pc, c)
  {
    CountUpdate(s.pcs, t, pc, InEven);
    CountUpdate(s.pcs, t, pc, InOdd);
  }

  /** With at most `threshold` threads, a round completes only when every other thread
      waits in it: nobody is left from the round before. */
  lemma NobodyLeftBehind(s: State, t: Thread)
    requires Inv(s) && |s.pcs| <= s.threshold && t < |s.pcs| && s.pcs[t].Outside? && s.counter == 1
    ensures forall u :: 0 <= u < |s.pcs| && u != t ==> s.pcs[u].Inside? && s.pcs[u].cycle == s.cycle
    ensures Waiting(s, !s.cycle) == 0
  {
    forall u | 0 <= u < |s.pcs| && u != t
      ensures s.pcs[u].Inside? && s.pcs[u].cycle == s.cycle
    {
      if !(s.pcs[u].Inside? && s.pcs[u].cycle == s.cycle) {
        var i, j := if t < u then t else u, if t < u then u else t;
        if s.cycle {
          CountMissesTwo(s.pcs, i, j, InOdd);
        } else {
          CountMissesTwo(s.pcs, i, j, InEven);
        }
      }
    }
    CountZero(s.pcs, InEven);
    CountZero(s.pcs, InOdd);
  }

  lemma WakeCounts(pcs: seq<Pc>)
    ensures Count(Wake(pcs), InEven) == Count(pcs, InEven)
    ensures Count(Wake(pcs), InOdd) == Count(pcs, InOdd)
  {
    CountSame(Wake(pcs), pcs, InEven);
    CountSame(Wake(pcs), pcs, InOdd);
  }

  lemma StepKeepsPace(s: State, t: Thread, a: Action)
    requires Paced(s) && Enabled(s, t, a)
    ensures Paced(Step(s, t, a))
  {
  }

  lemma LastCallCompletes(s: State, t: Thread)
    requires Inv(s) && |s.pcs| <= s.threshold && Enabled(s, t, Call) && s.counter == 1
    ensures Step(s, t, Call).Round() >= 0 && Complete(Step(s, t, Call))
  {
    NobodyLeftBehind(s, t);
    WakeCounts(s.pcs);
    var s', k := Step(s, t, Call), s.Round();
    forall u | 0 <= u < |s'.pcs| && s'.pcs[u].Inside?
      ensures WaiterOk(s', s'.pcs[u])
    {
      assert WaiterOk(s, s.pcs[u]);
    }
  }

  lemma OtherStepCompletes(s: State, t: Thread, a: Action)
    requires Inv(s) && |s.pcs| <= s.threshold && Enabled(s, t, a) && (a.Call? ==> s.counter > 1)
    ensures Step(s, t, a).Round() >= 0 && Complete(Step(s, t, a))
  {
    var s' := Step(s, t, a);
    assert s.pcs[t].Inside? ==> WaiterOk(s, s.pcs[t]);
    StepCounts(s, t, a);
    StepWaiters(s, t, a);
  }

  lemma StepCounts(s: State, t: Thread, a: Action)
    requires Enabled(s, t, a) && (a.Call? ==> s.counter != 1)
    ensures var s' := Step(s, t, a);
      forall c :: Waiting(s', c) == Waiting(s, c) - In(s.pcs[t], c) + In(s'.pcs[t], c)
  {
    var s' := Step(s, t, a);
    WaitingMove(s, t, s'.pcs[t]);
    assert forall c :: Waiting(s', c) == Waiting(s.(pcs := s'.pcs), c);
  }

  lemma StepWaiters(s: State, t: Thread, a: Action)
    requires Enabled(s, t, a) && (a.Call? ==> s.counter > 1) && Paced(s) && Waiters(s)
    ensures Waiters(Step(s, t, a))
  {
    var s' := Step(s, t, a);
    forall u | 0 <= u < |s'.pcs| && s'.pcs[u].Inside?
      ensures WaiterOk(s', s'.pcs[u])
    {
      assert s.pcs[u].Inside? ==> WaiterOk(s, s.pcs[u]);
    }
  }

  lemma StepKeepsInv(s: State, t: Thread, a: Action)
    requires Inv(s) && Enabled(s, t, a)
    ensures Inv(Step(s, t, a))
  {
    StepKeepsPace(s, t, a);
    if |s.pcs| <= s.threshold {
      if a.Call? && s.counter == 1 {
        LastCallCompletes(s, t);
      } else {
        OtherStepCompletes(s, t, a);
      }
    }
  }

  // ---------- whole runs ----------

  datatype Move = Move(thread: Thread, action: Action)

  ghost predicate Legal(s: State, schedule: seq<Move>)
    decreases |schedule|
  {
    schedule == [] ||
    (Enabled(s, schedule[0].thread, schedule[0].action) &&
     Legal(Step(s, schedule[0].thread, schedule[0].action), schedule[1..]))
  }

  ghost function Run(s: State, schedule: seq<Move>): (s': State)
    requires Legal(s, schedule)
    decreases |schedule|
  {
    if schedule == [] then s
    else Run(Step(s, schedule[0].thread, schedule[0].action), schedule[1..])
  }

  lemma {:induction false} RunInv(s: State, schedule: seq<Move>)
    requires Inv(s) && Legal(s, schedule)
    ensures Inv(Run(s, schedule)) && Run(s, schedule).threshold == s.threshold
    ensures |Run(s, schedule).pcs| == |s.pcs|
    decreases |schedule|
  {
    if schedule != [] {
      StepKeepsInv(s, schedule[0].thread, schedule[0].action);
      RunInv(Step(s, schedule[0].thread, schedule[0].action), schedule[1..]);
    }
  }

  /** In every run of any number of threads, a call of round k, whether it returns -1 or
      0, returns only when exactly `threshold` calls of round k have been made. */
  lemma ReturnsAfterAllCalls(s: State, schedule: seq<Move>, t: Thread)
    requires Initial(s) && Legal(s, schedule)
    ensures var now := Run(s, schedule);
      && (Enabled(now, t, Call) && Step(now, t, Call).pcs[t].Outside? ==>
            Step(now, t, Call).rounds[now.Round()].calls == s.threshold)
      && (Enabled(now, t, Resume) && Step(now, t, Resume).pcs[t].Outside? ==>
            now.rounds[now.pcs[t].round].calls == s.threshold)
  {
    InitialInv(s);
    RunInv(s, schedule);
  }

  /** Each completed round had `threshold` calls and returned -1 exactly once.  With at
      most `threshold` threads all but the latest have returned every call, and in the
      latest the missing returns are exactly the waiters that still carry its bit. */
  lemma CompletedRounds(s: State, schedule: seq<Move>, k: nat)
    requires Initial(s) && Legal(s, schedule)
    requires k < Run(s, schedule).Round()
    ensures var now := Run(s, schedule);
      && now.rounds[k].calls == s.threshold && now.rounds[k].serial == 1
      && (|s.pcs| <= s.threshold ==>
            now.rounds[k].returned + (if k == now.Round() - 1 then Waiting(now, !now.cycle) else 0) == s.threshold)
  {
    InitialInv(s);
    RunInv(s, schedule);
  }

  /** A waiter of a completed round that would find its own bit again and sleep on. */
  ghost predicate MissesToggle(s: State, t: Thread) {
    t < |s.pcs| && s.pcs[t].Inside? && s.pcs[t].round < s.Round() && s.pcs[t].cycle == s.cycle
  }

  /** No waiter misses its toggle: once its round is complete it is awake, and its next
      step returns. */
  lemma NoMissedToggle(s: State, schedule: seq<Move>, t: Thread)
    requires Initial(s) && |s.pcs| <= s.threshold && Legal(s, schedule)
    ensures var now := Run(s, schedule);
      && !MissesToggle(now, t)
      && (t < |now.pcs| && now.pcs[t].Inside? && now.pcs[t].round < now.Round() ==>
            Enabled(now, t, Resume) && Step(now, t, Resume).pcs[t].Outside?)
  {
    InitialInv(s);
    RunInv(s, schedule);
    var now := Run(s, schedule);
    if t < |now.pcs| && now.pcs[t].Inside? {
      assert WaiterOk(now, now.pcs[t]);
    }
  }

  // ---------- more threads than the threshold ----------

  lemma {:induction false} RunAppend(s: State, a: seq<Move>, b: seq<Move>)
    requires Legal(s, a) && Legal(Run(s, a), b)
    ensures Legal(s, a + b) && Run(s, a + b) == Run(Run(s, a), b)
    decreases |a|
  {
    if a == [] {
      assert a + b == b;
    } else {
      assert (a + b)[0] == a[0] && (a + b)[1..] == a[1..] + b;
      RunAppend(Step(s, a[0].thread, a[0].action), a[1..], b);
    }
  }

  function Moves(i: nat, j: nat, a: Action): (schedule: seq<Move>)
    requires i <= j
    decreases j - i
  {
    if i == j then [] else Moves(i, j - 1, a) + [Move(j - 1, a)]
  }

  lemma RunNext(s: State, schedule: seq<Move>, m: Move)
    requires Legal(s, schedule) && Enabled(Run(s, schedule), m.thread, m.action)
    ensures Legal(s, schedule + [m])
    ensures Run(s, schedule + [m]) == Step(Run(s, schedule), m.thread, m.action)
  {
    var now := Run(s, schedule);
    assert Legal(Step(now, m.thread, m.action), [m][1..]);
    RunAppend(s, schedule, [m]);
  }

  /** Threads i .. j - 1 call while the barrier still waits for more. */
  lemma {:induction false} CallMany(s: State, i: nat, j: nat)
    requires i <= j <= |s.pcs| && |s.rounds| > 0 && s.counter > j - i
    requires forall u :: i <= u < j ==> s.pcs[u] == Outside
    ensures Legal(s, Moves(i, j, Call))
    ensures var now := Run(s, Moves(i, j, Call));
      && now.threshold == s.threshold && now.counter == s.counter - (j - i) && now.cycle == s.cycle
      && |now.rounds| == |s.rounds| && |now.pcs| == |s.pcs|
      && forall u :: 0 <= u < |s.pcs| ==>
           now.pcs[u] == if i <= u < j then Inside(s.cycle, false, s.Round()) else s.pcs[u]
    decreases j - i
  {
    if i < j {
      CallMany(s, i, j - 1);
      RunNext(s, Moves(i, j - 1, Call), Move(j - 1, Call));
    }
  }

  /** Woken threads i .. j - 1 of a completed round return. */
  lemma {:induction false} ResumeMany(s: State, i: nat, j: nat)
    requires i <= j <= |s.pcs| && |s.rounds| > 0
    requires forall u :: i <= u < j ==>
      s.pcs[u].Inside? && s.pcs[u].woken && s.pcs[u].cycle != s.cycle && s.pcs[u].round < |s.rounds|
    ensures Legal(s, Moves(i, j, Resume))
    ensures var now := Run(s, Moves(i, j, Resume));
      && now.threshold == s.threshold && now.counter == s.counter && now.cycle == s.cycle
      && |now.rounds| == |s.rounds| && |now.pcs| == |s.pcs|
      && forall u :: 0 <= u < |s.pcs| ==> now.pcs[u] == if i <= u < j then Outside else s.pcs[u]
    decreases j - i
  {
    if i < j {
      ResumeMany(s, i, j - 1);
      RunNext(s, Moves(i, j - 1, Resume), Move(j - 1, Resume));
    }
  }

  /** One complete round: threads i .. j - 1 wait and thread j completes it. */
  lemma CompleteRound(s: State, i: nat, j: nat) returns (schedule: seq<Move>)
    requires i <= j < |s.pcs| && |s.rounds| > 0 && s.counter == s.threshold == j - i + 1
    requires forall u :: i <= u <= j ==> s.pcs[u] == Outside
    ensures Legal(s, schedule)
    ensures var now := Run(s, schedule);
      && now.threshold == now.counter == s.threshold && now.cycle == !s.cycle
      && |now.rounds| == |s.rounds| + 1 && |now.pcs| == |s.pcs|
      && (forall u :: i <= u < j ==> now.pcs[u] == Inside(s.cycle, true, s.Round()))
      && now.pcs[j] == Outside
      && (forall u :: 0 <= u < |s.pcs| && !(i <= u < j) ==>
            now.pcs[u] == if s.pcs[u].Inside? then s.pcs[u].(woken := true) else s.pcs[u])
  {
    CallMany(s, i, j);
    RunNext(s, Moves(i, j, Call), Move(j, Call));
    schedule := Moves(i, j, Call) + [Move(j, Call)];
  }

  /** With more threads than a threshold of at least two, two rounds can pass while one
      waiter is kept from running: it then finds the bit it went to sleep with. */
  lemma ToggleCanBeMissed(s: State) returns (schedule: seq<Move>)
    requires Initial(s) && |s.pcs| > s.threshold >= 2
    ensures Legal(s, schedule) && MissesToggle(Run(s, schedule), 0)
  {
    var n := s.threshold - 1;
    var first := CompleteRound(s, 0, n);
    var s1 := Run(s, first);
    ResumeMany(s1, 1, n);
    RunAppend(s, first, Moves(1, n, Resume));
    var s2 := Run(s1, Moves(1, n, Resume));
    var second := CompleteRound(s2, 1, n + 1);
    schedule := first + Moves(1, n, Resume) + second;
    RunAppend(s, first + Moves(1, n, Resume), second);
  }

  lemma {:induction false} AloneRun(s: State, schedule: seq<Move>)
    requires s.threshold == s.counter == 1 && |s.rounds| > 0 && Legal(s, schedule)
    requires forall t :: 0 <= t < |s.pcs| ==> s.pcs[t] == Outside
    ensures forall t :: 0 <= t < |Run(s, schedule).pcs| ==> Run(s, schedule).pcs[t] == Outside
    decreases |schedule|
  {
    if schedule != [] {
      AloneRun(Step(s, schedule[0].thread, schedule[0].action), schedule[1..]);
    }
  }

  ghost predicate MissingRun(s: State, schedule: seq<Move>, t: Thread) {
    Legal(s, schedule) && MissesToggle(Run(s, schedule), t)
  }

  /** Exactly when the one-bit cycle is enough: some run misses a toggle if and only if
      there are more threads than the threshold and the threshold is at least two. */
  lemma ToggleMissedIff(s: State)
    requires Initial(s)
    ensures (exists schedule, t :: MissingRun(s, schedule, t)) <==> |s.pcs| > s.threshold >= 2
  {
    if |s.pcs| > s.threshold >= 2 {
      var schedule := ToggleCanBeMissed(s);
      assert MissingRun(s, schedule, 0);
    } else {
      forall schedule, t: Thread | Legal(s, schedule)
        ensures !MissesToggle(Run(s, schedule), t)
      {
        if s.threshold == 1 {
          AloneRun(s, schedule);
        } else {
          NoMissedToggle(s, schedule, t);
        }
      }
    }
  }
}
