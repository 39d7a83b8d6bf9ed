/** What the clock does to the threads of the kernel: when a running thread loses the
    processor, and when a sleep or a timed wait is over.  Every law speaks of the time that
    has passed between two states of a run. */
module SnowTime {
  import opened Basics
  import opened Snow
  import opened SnowSync

  // ---------- the clock ----------

  function Ticks(acts: seq<Action>, i: nat): (n: nat)
    requires i <= |acts|
  {
    if i == 0 then 0 else Ticks(acts, i - 1) + if acts[i - 1].Tick? then 1 else 0
  }

  lemma {:induction false} FireClock(k: Kernel)
    requires forall i :: 0 <= i < |k.timers| ==> k.timers[i].thread < |k.flags|
    ensures Fire(k).time == k.time && Fire(k).timeouts == k.timeouts && Fire(k).current == k.current
    decreases |k.timers|
  {
    if k.timers != [] && k.timers[0].us <= k.time {
      var t := k.timers[0].thread;
      WithoutMembers(k.timers[1..], t);
      FireClock(Wakeup(k.(timers := k.timers[1..]), t));
    }
  }

  lemma StepClock(k: Kernel, a: Action)
    requires Enabled(k, a)
    ensures Step(k, a).time == k.time + if a.Tick? then TICK_US else 0
  {
    if HasPass(a) {
      FireClock(BeforePass(k, a));
    }
  }

  /** A hundred ticks make a second. */
  lemma {:induction false} ClockCountsTicks(run: seq<Kernel>, acts: seq<Action>, i: nat)
    requires Execution(run, acts) && i <= |acts|
    ensures 100 * run[i].time == 1_000_000 * Ticks(acts, i)
  {
    if i > 0 {
      ClockCountsTicks(run, acts, i - 1);
      assert StepAt(run, acts, i - 1);
      StepClock(run[i - 1], acts[i - 1]);
    }
  }

  lemma {:induction false} ClockGrows(run: seq<Kernel>, acts: seq<Action>, i: nat, j: nat)
    requires Execution(run, acts) && i <= j <= |acts|
    ensures run[i].time <= run[j].time
  {
    if i < j {
      ClockGrows(run, acts, i, j - 1);
      assert StepAt(run, acts, j - 1);
      StepClock(run[j - 1], acts[j - 1]);
    }
  }

  // ---------- time slices ----------

  /** No time slice reaches further than one slice from now, and that of the current thread
      is not used up. */
  ghost predicate SlicesOk(k: Kernel) {
    && (forall t :: 0 <= t < |k.timeouts| ==> k.timeouts[t] <= k.time + SCHED_US)
    && (k.current.Thread? && k.current.id < |k.timeouts| ==> k.timeouts[k.current.id] >= k.time)
  }

  /** Firing timers does not change whether the current thread can run. */
  lemma CurrentStays(k: Kernel)
    requires Inv(k) && !CurrentFires(k)
    ensures IsRun(Fire(k), k.current) == IsRun(k, k.current)
  {
    FireFrame(k);
    if k.current.Thread? && k.flags[k.current.id] != Run {
      FireWakesDue(k, k.current.id);
      assert !Due(k, k.current.id);
    }
  }

  /** The current thread has to give the processor away in the pass of step a. */
  predicate Gives(k: Kernel, a: Action) {
    HasPass(a) && (a == Tick || !IsRun(k, k.current) || (a == Yield && k.time > 0))
  }

  lemma PassGives(k: Kernel, a: Action)
    requires Inv(k) && SlicesOk(k) && HasPass(a) && Enabled(k, a)
    ensures MustSwitch(Fire(BeforePass(k, a))) == Gives(k, a)
  {
    BeforePassKeepsInv(k, a);
    FireClock(BeforePass(k, a));
    FireFrame(BeforePass(k, a));
    CurrentStays(BeforePass(k, a));
  }

  lemma StepKeepsSlices(k: Kernel, a: Action)
    requires Inv(k) && Enabled(k, a) && SlicesOk(k)
    ensures SlicesOk(Step(k, a))
  {
    if HasPass(a) {
      PassKeepsSlices(k, a);
    }
  }

  lemma PassKeepsSlices(k: Kernel, a: Action)
    requires HasPass(a) && Enabled(k, a) && SlicesOk(k)
    ensures SlicesOk(Step(k, a))
  {
    FireClock(BeforePass(k, a));
    DispatchKeepsSlices(Fire(BeforePass(k, a)));
  }

  /** A thread that keeps the processor has some of its slice left. */
  lemma DispatchKeepsSlices(k: Kernel)
    requires forall t :: 0 <= t < |k.timeouts| ==> k.timeouts[t] <= k.time + SCHED_US
    ensures SlicesOk(Dispatch(k))
  {
  }

  lemma {:induction false} RunSlices(run: seq<Kernel>, acts: seq<Action>, i: nat)
    requires Execution(run, acts) && i <= |acts|
    ensures SlicesOk(run[i])
  {
    if i > 0 {
      RunSlices(run, acts, i - 1);
      RunInv(run, acts, i - 1);
      assert StepAt(run, acts, i - 1);
      StepKeepsSlices(run[i - 1], acts[i - 1]);
    }
  }

  /** Who gets the processor, in every run in which another thread is ready.  A thread that
      can run loses the processor at every tick and, after the first tick, at every call of
      snow_sched, and never otherwise; the idle thread and one that cannot run lose it at
      the next pass.  The thread that became ready first gets it, for one slice. */
  lemma ProcessorGoesTo(run: seq<Kernel>, acts: seq<Action>, i: nat)
    requires Execution(run, acts) && i < |acts| && run[i].ready != []
    ensures run[i + 1].current == if Gives(run[i], acts[i]) then Thread(run[i].ready[0]) else run[i].current
    ensures Gives(run[i], acts[i]) ==>
      run[i].ready[0] < |run[i + 1].timeouts| && run[i + 1].timeouts[run[i].ready[0]] == run[i + 1].time + SCHED_US
  {
    var k, a := run[i], acts[i];
    RunInv(run, acts, i);
    RunSlices(run, acts, i);
    assert StepAt(run, acts, i);
    if HasPass(a) {
      PassGoesTo(k, a);
    }
  }

  lemma PassGoesTo(k: Kernel, a: Action)
    requires Inv(k) && SlicesOk(k) && HasPass(a) && Enabled(k, a) && k.ready != []
    ensures Step(k, a).current == if Gives(k, a) then Thread(k.ready[0]) else k.current
    ensures Gives(k, a) ==>
      k.ready[0] < |Step(k, a).timeouts| && Step(k, a).timeouts[k.ready[0]] == Step(k, a).time + SCHED_US
  {
    assert k.ready[0] in k.ready;
    PassGives(k, a);
    BeforePassKeepsInv(k, a);
    FireAppends(BeforePass(k, a));
    FireClock(BeforePass(k, a));
    DispatchAdvances(Fire(BeforePass(k, a)), k.ready);
  }

  /** A thread that loses the processor although it can run queues up behind all others. */
  lemma PreemptedGoesLast(run: seq<Kernel>, acts: seq<Action>, i: nat)
    requires Execution(run, acts) && i < |acts| && run[i].ready != []
    requires Gives(run[i], acts[i]) && IsRun(run[i], run[i].current)
    ensures run[i + 1].ready != [] && run[i + 1].ready[|run[i + 1].ready| - 1] == run[i].current.id
  {
    var k, a := run[i], acts[i];
    RunInv(run, acts, i);
    RunSlices(run, acts, i);
    assert StepAt(run, acts, i);
    PassGives(k, a);
    BeforePassKeepsInv(k, a);
    FireAppends(BeforePass(k, a));
    FireClock(BeforePass(k, a));
    CurrentStays(BeforePass(k, a));
  }

  // ---------- how long a sleep lasts ----------

  /** x is the only timer of its thread. */
  lemma DueTimer(k: Kernel, x: Timer)
    requires TimersOk(k.timers, |k.flags|) && x in k.timers
    ensures Due(k, x.thread) <==> x.us <= k.time
  {
    if Due(k, x.thread) {
      var y :| y in k.timers && y.thread == x.thread && y.us <= k.time;
      var i :| 0 <= i < |k.timers| && k.timers[i] == x;
      var j :| 0 <= j < |k.timers| && k.timers[j] == y;
      assert i == j;
    }
  }

  /** A timer stays linked until its thread is woken. */
  lemma {:induction false} FireKeepsTimer(k: Kernel, x: Timer)
    requires Inv(k) && !CurrentFires(k) && x in k.timers
    ensures |Fire(k).flags| == |k.flags| && (Fire(k).flags[x.thread] != Run ==> x in Fire(k).timers)
    decreases |k.timers|
  {
    FireFrame(k);
    if k.timers[0].us <= k.time {
      var t := k.timers[0].thread;
      var k1 := Wakeup(k, t);
      assert k.current != Thread(t);
      FireOne(k);
      WakeupKeepsInv(k, t);
      NoLaterFire(k, k1, t);
      WithoutMembers(k.timers, t);
      if t == x.thread {
        FireFrame(k1);
      } else {
        FireKeepsTimer(k1, x);
      }
    }
  }

  lemma PassKeepsTimer(k: Kernel, a: Action, x: Timer)
    requires Inv(k) && HasPass(a) && Enabled(k, a) && x in k.timers
    ensures |Step(k, a).flags| == |k.flags| && (Step(k, a).flags[x.thread] != Run ==> x in Step(k, a).timers)
  {
    BeforePassKeepsInv(k, a);
    FireKeepsTimer(BeforePass(k, a), x);
  }

  lemma StepKeepsTimer(k: Kernel, a: Action, x: Timer)
    requires Inv(k) && CurrentRuns(k) && Enabled(k, a) && x in k.timers && k.flags[x.thread] != Run
    ensures |Step(k, a).flags| >= |k.flags|
    ensures Step(k, a).flags[x.thread] != Run ==> x in Step(k, a).timers
  {
    match a
    case Usleep(us) => TimerInsertMembers(k.timers, Timer(k.current.id, k.time + us));
    case TryGet =>
      if k.pcs[k.current.id].deadline.At? {
        TimerInsertMembers(k.timers, Timer(k.current.id, k.pcs[k.current.id].deadline.us));
      }
    case Release(o) =>
      if Wakes(k, o) {
        WithoutMembers(k.timers, k.waits[o][0]);
      }
    case Yield | OtherSyscall | Tick => PassKeepsTimer(k, a, x);
    case _ =>
  }

  /** Thread c is asleep in all states from i to j. */
  ghost predicate SleepsFrom(run: seq<Kernel>, i: nat, j: nat, c: nat)
    requires j < |run|
  {
    forall m :: i <= m <= j ==> c < |run[m].flags| && run[m].flags[c] == Sleeping
  }

  lemma {:induction false} SleepTimer(run: seq<Kernel>, acts: seq<Action>, i: nat, j: nat, us: nat, c: nat)
    requires Execution(run, acts) && i < j <= |acts| && acts[i] == Usleep(us) && run[i].current == Thread(c)
    requires SleepsFrom(run, i + 1, j, c)
    ensures Timer(c, run[i].time + us) in run[j].timers
    decreases j
  {
    assert StepAt(run, acts, i);
    if i + 1 < j {
      SleepTimer(run, acts, i, j - 1, us, c);
      assert run[j].flags[c] == run[j - 1].flags[c] == Sleeping;
      SleepGoesOn(run, acts, j - 1, Timer(c, run[i].time + us));
    } else {
      SleepBegins(run[i], us, c);
    }
  }

  lemma SleepGoesOn(run: seq<Kernel>, acts: seq<Action>, j: nat, x: Timer)
    requires Execution(run, acts) && j < |acts| && x in run[j].timers
    requires x.thread < |run[j].flags| && run[j].flags[x.thread] != Run
    requires x.thread < |run[j + 1].flags| && run[j + 1].flags[x.thread] != Run
    ensures x in run[j + 1].timers
  {
    RunInv(run, acts, j);
    assert StepAt(run, acts, j);
    StepKeepsTimer(run[j], acts[j], x);
  }

  lemma SleepBegins(k: Kernel, us: nat, c: nat)
    requires Enabled(k, Usleep(us)) && k.current == Thread(c)
    ensures Timer(c, k.time + us) in Step(k, Usleep(us)).timers
  {
    TimerInsertMembers(k.timers, Timer(c, k.time + us));
  }

  /** snow_usleep(us) lasts until the first pass at which at least us microseconds have gone
      by, and exactly until then. */
  lemma SleepLasts(run: seq<Kernel>, acts: seq<Action>, i: nat, j: nat, us: nat, c: nat)
    requires Execution(run, acts) && i < j < |acts| && acts[i] == Usleep(us) && run[i].current == Thread(c)
    requires SleepsFrom(run, i + 1, j, c)
    ensures c < |run[j + 1].flags|
    ensures run[j + 1].flags[c] == Run <==> HasPass(acts[j]) && run[j + 1].time - run[i].time >= us
  {
    RunInv(run, acts, j);
    assert StepAt(run, acts, j);
    SleepTimer(run, acts, i, j, us, c);
    WokenExactly(run[j], acts[j], c);
    if HasPass(acts[j]) {
      StepClock(run[j], acts[j]);
      DueTimer(BeforePass(run[j], acts[j]), Timer(c, run[i].time + us));
    } else if acts[j].Release? && Wakes(run[j], acts[j].obj) {
      HeadWaits(run[j], acts[j].obj);
    }
  }

  // ---------- how long a timed wait lasts ----------

  /** The timer of a waiting thread is set to its deadline. */
  ghost predicate TimersMatch(k: Kernel)
    requires k.Sized()
  {
    forall x :: x in k.timers && x.thread < |k.flags| && k.flags[x.thread] == Waiting
      ==> InGet(k.pcs[x.thread]) && k.pcs[x.thread].deadline == At(x.us)
  }

  lemma {:induction false} FireRemoves(k: Kernel)
    requires k.Sized() && forall i :: 0 <= i < |k.timers| ==> k.timers[i].thread < |k.flags|
    ensures forall x :: x in Fire(k).timers ==> x in k.timers
    ensures |Fire(k).flags| == |k.flags| && Fire(k).pcs == k.pcs
    ensures forall t :: 0 <= t < |k.flags| ==> Fire(k).flags[t] == k.flags[t] || Fire(k).flags[t] == Run
    decreases |k.timers|
  {
    if k.timers != [] && k.timers[0].us <= k.time {
      var t := k.timers[0].thread;
      WithoutMembers(k.timers[1..], t);
      FireRemoves(Wakeup(k.(timers := k.timers[1..]), t));
    }
  }

  lemma ParkMatches(k: Kernel)
    requires Inv(k) && CurrentRuns(k) && Enabled(k, TryGet) && TimersMatch(k)
    ensures TryGetStep(k).Sized() && TimersMatch(TryGetStep(k))
  {
    var c := k.current.id;
    assert !Timed(k, c);
    HasTimerIn(k.timers, c);
    if k.pcs[c].deadline.At? {
      TimerInsertMembers(k.timers, Timer(c, k.pcs[c].deadline.us));
    }
  }

  lemma ReleaseMatches(k: Kernel, o: nat)
    requires Inv(k) && CurrentRuns(k) && Enabled(k, Release(o)) && TimersMatch(k)
    ensures ReleaseStep(k, o).Sized() && TimersMatch(ReleaseStep(k, o))
  {
    if Wakes(k, o) {
      HeadWaits(k, o);
      WithoutMembers(k.timers, k.waits[o][0]);
    }
  }

  lemma PassMatches(k: Kernel, a: Action)
    requires Inv(k) && HasPass(a) && Enabled(k, a) && TimersMatch(k)
    ensures Step(k, a).Sized() && TimersMatch(Step(k, a))
  {
    BeforePassMatches(k, a);
    BeforePassKeepsInv(k, a);
    FireMatches(BeforePass(k, a));
    DispatchMatches(Fire(BeforePass(k, a)));
  }

  lemma DispatchMatches(k: Kernel)
    requires k.Sized() && TimersMatch(k)
    ensures Dispatch(k).Sized() && TimersMatch(Dispatch(k))
  {
  }

  lemma BeforePassMatches(k: Kernel, a: Action)
    requires k.Sized() && HasPass(a) && Enabled(k, a) && TimersMatch(k)
    ensures BeforePass(k, a).Sized() && TimersMatch(BeforePass(k, a))
  {
  }

  lemma FireMatches(k: Kernel)
    requires Inv(k) && TimersMatch(k)
    ensures Fire(k).Sized() && TimersMatch(Fire(k))
  {
    FireRemoves(k);
    FireFrame(k);
  }

  lemma StepKeepsMatch(k: Kernel, a: Action)
    requires Inv(k) && CurrentRuns(k) && Enabled(k, a) && TimersMatch(k)
    ensures Step(k, a).Sized() && TimersMatch(Step(k, a))
  {
    match a
    case Usleep(us) => TimerInsertMembers(k.timers, Timer(k.current.id, k.time + us));
    case TryGet => ParkMatches(k);
    case Release(o) => ReleaseMatches(k, o);
    case Yield | OtherSyscall | Tick => PassMatches(k, a);
    case _ =>
  }

  lemma {:induction false} RunMatch(run: seq<Kernel>, acts: seq<Action>, i: nat)
    requires Execution(run, acts) && i <= |acts|
    ensures run[i].Sized() && TimersMatch(run[i])
  {
    if i > 0 {
      RunMatch(run, acts, i - 1);
      RunInv(run, acts, i - 1);
      assert StepAt(run, acts, i - 1);
      StepKeepsMatch(run[i - 1], acts[i - 1]);
    }
  }

  /** Thread c is inside one and the same call of wait_get_timeout in all states from i to j. */
  ghost predicate InGetFrom(run: seq<Kernel>, i: nat, j: nat, c: nat)
    requires j < |run|
  {
    forall m :: i <= m <= j ==> c < |run[m].pcs| && InGet(run[m].pcs[c])
  }

  /** Step i begins a get of o with timeout us by thread c, which is still in it in state j. */
  ghost predicate Began(run: seq<Kernel>, acts: seq<Action>, i: nat, j: nat, o: nat, us: nat, c: nat) {
    && Execution(run, acts) && i < j <= |acts|
    && acts[i] == BeginGet(o, us) && run[i].current == Thread(c) && InGetFrom(run, i + 1, j, c)
  }

  lemma StepKeepsGet(k: Kernel, a: Action, c: nat)
    requires Inv(k) && Enabled(k, a) && c < |k.pcs| && InGet(k.pcs[c])
    ensures c < |Step(k, a).pcs|
    ensures var pc := Step(k, a).pcs[c]; InGet(pc) ==> pc.obj == k.pcs[c].obj && pc.deadline == k.pcs[c].deadline
  {
    if HasPass(a) {
      PassKeepsGet(k, a, c);
    }
  }

  lemma PassKeepsGet(k: Kernel, a: Action, c: nat)
    requires Inv(k) && HasPass(a) && Enabled(k, a) && c < |k.pcs| && InGet(k.pcs[c])
    ensures c < |Step(k, a).pcs|
    ensures var pc := Step(k, a).pcs[c]; InGet(pc) && pc.obj == k.pcs[c].obj && pc.deadline == k.pcs[c].deadline
  {
    PassIsFrame(BeforePass(k, a));
  }

  /** The time us has passed since the beginning of the get. */
  predicate Elapsed(start: int, now: int, us: nat) {
    us != FOREVER && now - start >= us
  }

  lemma {:induction false} GetDeadline(run: seq<Kernel>, acts: seq<Action>, i: nat, j: nat, o: nat, us: nat, c: nat, now: Kernel)
    requires Began(run, acts, i, j, o, us, c) && run[i].time <= now.time
    ensures run[j].pcs[c].obj == o && o < |run[j].objects|
    ensures Expired(now, run[j].pcs[c].deadline) <==> Elapsed(run[i].time, now.time, us)
    decreases j
  {
    assert InGet(run[j].pcs[c]);
    RunInv(run, acts, j - 1);
    assert StepAt(run, acts, j - 1);
    if i + 1 < j {
      assert InGet(run[j - 1].pcs[c]);
      GetDeadline(run, acts, i, j - 1, o, us, c, now);
      StepKeepsGet(run[j - 1], acts[j - 1], c);
      StepObject(run[j - 1], acts[j - 1], o);
    }
  }

  /** A release that wakes: any of a semaphore, the last one of a mutex. */
  predicate Frees(x: Object) {
    x.Sem? || x.count == 1
  }

  /** A thread that waits in a get is woken by a release that finds it first on the list, or
      at the first pass at which the timeout has gone by, and by nothing else. */
  lemma WaitLasts(run: seq<Kernel>, acts: seq<Action>, i: nat, j: nat, o: nat, us: nat, c: nat)
    requires Began(run, acts, i, j, o, us, c) && j < |acts|
    requires c < |run[j].flags| && run[j].flags[c] == Waiting
    ensures c < |run[j + 1].flags| && run[j].Sized() && o < |run[j].objects|
    ensures run[j + 1].flags[c] == Run <==>
      || (HasPass(acts[j]) && Elapsed(run[i].time, run[j + 1].time, us))
      || (acts[j] == Release(o) && Frees(run[j].objects[o]) && run[j].waits[o] != [] && run[j].waits[o][0] == c)
  {
    var k, a := run[j], acts[j];
    RunInv(run, acts, j);
    RunMatch(run, acts, j);
    ClockGrows(run, acts, i, j + 1);
    GetDeadline(run, acts, i, j, o, us, c, run[j + 1]);
    assert StepAt(run, acts, j);
    WokenExactly(k, a, c);
    if HasPass(a) {
      StepClock(k, a);
      DueWaiter(k, BeforePass(k, a), c);
    } else if a.Release? && Wakes(k, a.obj) {
      HeadWaits(k, a.obj);
    }
  }

  /** A waiting thread is due when its deadline has passed. */
  lemma DueWaiter(k: Kernel, k': Kernel, c: nat)
    requires Inv(k) && TimersMatch(k) && c < |k.flags| && k.flags[c] == Waiting && k'.timers == k.timers
    ensures InGet(k.pcs[c]) && (Due(k', c) <==> Expired(k', k.pcs[c].deadline))
  {
    assert OnItsList(k, c);
    HasTimerIn(k.timers, c);
    assert HasTimer(k.timers, c) <==> Timed(k, c);
  }

  /** Thread c could take the object: a semaphore that is positive, a mutex that is free or
      its own. */
  predicate CouldTake(x: Object, c: nat) {
    Available(x) > 0 || (x.Mutex? && x.owner == By(c))
  }

  /** Every try of a get has one of three answers.  It takes the object if it can.  If it
      cannot, it answers -1 exactly when the timeout has gone by since the get began, and
      otherwise it waits, last on the list of the object. */
  lemma GetAnswers(run: seq<Kernel>, acts: seq<Action>, i: nat, j: nat, o: nat, us: nat, c: nat)
    requires Began(run, acts, i, j, o, us, c) && j < |acts| && acts[j] == TryGet && run[j].current == Thread(c)
    ensures o < |run[j].objects| == |run[j + 1].objects| && run[j].Sized() && run[j + 1].Sized()
    ensures c < |run[j].pcs| == |run[j + 1].pcs|
    ensures var k, k', can := run[j], run[j + 1], CouldTake(run[j].objects[o], c);
      && (k'.pcs[c] == User <==> can || Elapsed(run[i].time, k.time, us))
      && (k'.objects != k.objects <==> can)
      && (k'.waits == if k'.pcs[c] == User then k.waits else k.waits[o := k.waits[o] + [c]])
      && (k'.flags[c] == if k'.pcs[c] == User then Run else Waiting)
  {
    RunInv(run, acts, j);
    ClockGrows(run, acts, i, j);
    GetDeadline(run, acts, i, j, o, us, c, run[j]);
    assert StepAt(run, acts, j);
    assert ObjectOk(run[j].objects[o]);
  }

  /** When snow_sched returns, a thread that waited in a get tries again, and any other goes
      back to ordinary code; no other thread moves. */
  lemma GoesOnAfterSched(run: seq<Kernel>, acts: seq<Action>, i: nat, c: nat)
    requires Execution(run, acts) && i < |acts| && acts[i] == Yield && run[i].current == Thread(c)
    ensures c < |run[i].pcs|
    ensures run[i + 1].pcs == run[i].pcs[c :=
      if InGet(run[i].pcs[c]) then Getting(run[i].pcs[c].obj, run[i].pcs[c].deadline, run[i].pcs[c].released) else User]
  {
    assert StepAt(run, acts, i);
    PassIsFrame(BeforePass(run[i], Yield));
  }
}
