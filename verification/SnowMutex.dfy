/** Who holds a mutex of snow_os/snow.c, over whole runs. */
module SnowMutex {
  import opened Basics
  import opened Snow
  import opened SnowSync

  /** Successful gets minus releases of o by thread t in the first i steps. */
  function Holds(run: seq<Kernel>, acts: seq<Action>, o: nat, t: nat, i: nat): (n: int)
    requires i <= |acts| < |run|
  {
    if i == 0 then 0
    else
      Holds(run, acts, o, t, i - 1)
      + (if Gets(run[i - 1], acts[i - 1], o, t) then 1 else 0)
      - (if Puts(run[i - 1], acts[i - 1], o, t) then 1 else 0)
  }

  /** What the fields of a mutex say t holds. */
  function Surplus(x: Object, t: nat): (n: int) {
    if x.Mutex? && x.owner == By(t) then x.count else 0
  }

  /** The fields of mutex o tell who holds it: for every thread they say by how many its
      successful locks outnumber its unlocks, and there is an owner exactly when the count
      is positive. */
  ghost predicate Accounted(run: seq<Kernel>, acts: seq<Action>, o: nat, i: nat)
    requires i <= |acts| < |run|
  {
    && o < |run[i].objects|
    && (forall t: nat :: Holds(run, acts, o, t, i) == Surplus(run[i].objects[o], t))
    && OwnerMeansHeld(run[i].objects[o])
  }

  /** A mutex has an owner exactly when its count is positive, and the count is never
      negative. */
  predicate OwnerMeansHeld(x: Object) {
    x.Mutex? && (x.owner != Nobody <==> x.count > 0) && x.count >= 0
  }

  /** The step does not unlock o unless its thread owns it. */
  predicate OwnerUnlocks(k: Kernel, a: Action, o: nat) {
    a == Release(o) ==>
      o < |k.objects| && k.objects[o].Mutex? && k.current.Thread? && k.objects[o].owner == By(k.current.id)
  }

  /** An unlock keeps the account exactly when the thread that unlocks is the owner; every
      other step keeps it. */
  lemma StepAccounted(run: seq<Kernel>, acts: seq<Action>, o: nat, i: nat)
    requires Execution(run, acts) && i < |acts| && Accounted(run, acts, o, i)
    ensures Accounted(run, acts, o, i + 1) <==> OwnerUnlocks(run[i], acts[i], o)
  {
    var k, a := run[i], acts[i];
    assert StepAt(run, acts, i);
    StepObject(k, a, o);
    if a == Release(o) {
      var c := k.current.id;
      assert Holds(run, acts, o, c, i + 1) == Surplus(k.objects[o], c) - 1;
      UnlockSurplus(k.objects[o], c);
      forall t: nat | t != c
        ensures Holds(run, acts, o, t, i + 1) == Surplus(k.objects[o], t)
      {
      }
    } else if k.current.Thread? && Gets(k, a, o, k.current.id) {
      LockSurplus(k.objects[o], k.current.id);
    }
  }

  lemma UnlockSurplus(x: Object, c: nat)
    requires OwnerMeansHeld(x)
    ensures Surplus(Give(x).0, c) == Surplus(x, c) - 1 <==> x.owner == By(c)
    ensures x.owner == By(c) ==> forall t: nat :: t != c ==> Surplus(Give(x).0, t) == Surplus(x, t)
    ensures x.owner == By(c) ==> OwnerMeansHeld(Give(x).0)
  {
  }

  lemma LockSurplus(x: Object, c: nat)
    requires OwnerMeansHeld(x) && Take(x, c).Some?
    ensures OwnerMeansHeld(Take(x, c).value)
    ensures Surplus(Take(x, c).value, c) == Surplus(x, c) + 1
    ensures forall t: nat :: t != c ==> Surplus(Take(x, c).value, t) == Surplus(x, t)
  {
  }

  /** The fields tell who holds a mutex throughout a run if and only if no thread unlocks
      it without owning it. */
  lemma {:induction false} MutexOwnerIff(run: seq<Kernel>, acts: seq<Action>, o: nat, i: nat)
    requires Execution(run, acts) && i <= |acts| && o < |run[0].objects| && run[0].objects[o].Mutex?
    ensures (forall j :: 0 <= j <= i ==> Accounted(run, acts, o, j))
       <==> (forall j :: 0 <= j < i ==> OwnerUnlocks(run[j], acts[j], o))
  {
    if i == 0 {
      assert Accounted(run, acts, o, 0);
    } else {
      MutexOwnerIff(run, acts, o, i - 1);
      if Accounted(run, acts, o, i - 1) {
        StepAccounted(run, acts, o, i - 1);
      }
    }
  }

  /** As long as only owners unlock a mutex, no two threads hold it at once, and its owner
      is the thread that does. */
  lemma MutexExcludes(run: seq<Kernel>, acts: seq<Action>, o: nat, i: nat, t: nat, u: nat)
    requires Execution(run, acts) && i <= |acts| && o < |run[0].objects| && run[0].objects[o].Mutex?
    requires forall j :: 0 <= j < i ==> OwnerUnlocks(run[j], acts[j], o)
    ensures Holds(run, acts, o, t, i) > 0 && Holds(run, acts, o, u, i) > 0 ==> t == u
    ensures o < |run[i].objects| && run[i].objects[o].Mutex?
    ensures Holds(run, acts, o, t, i) > 0 <==> run[i].objects[o].owner == By(t)
  {
    MutexOwnerIff(run, acts, o, i);
    assert Accounted(run, acts, o, i);
  }

  // ---------- an unlock by a thread that does not own the mutex ----------

  /** The run ends in k, where threads 0 and 1 hold mutex 0 by h0 and h1. */
  ghost predicate Ends(run: seq<Kernel>, acts: seq<Action>, k: Kernel, h0: int, h1: int) {
    && Execution(run, acts) && run[|acts|] == k
    && Holds(run, acts, 0, 0, |acts|) == h0 && Holds(run, acts, 0, 1, |acts|) == h1
  }

  function Delta(k: Kernel, a: Action, t: nat): (n: int) {
    (if Gets(k, a, 0, t) then 1 else 0) - (if Puts(k, a, 0, t) then 1 else 0)
  }

  lemma {:induction false} HoldsPrefix(run: seq<Kernel>, acts: seq<Action>, k: Kernel, a: Action, t: nat, i: nat)
    requires i <= |acts| < |run|
    ensures Holds(run + [k], acts + [a], 0, t, i) == Holds(run, acts, 0, t, i)
  {
    if i > 0 {
      HoldsPrefix(run, acts, k, a, t, i - 1);
    }
  }

  lemma Extend(run: seq<Kernel>, acts: seq<Action>, k: Kernel, h0: int, h1: int, a: Action)
    requires Ends(run, acts, k, h0, h1) && Enabled(k, a)
    ensures Ends(run + [Step(k, a)], acts + [a], Step(k, a), h0 + Delta(k, a, 0), h1 + Delta(k, a, 1))
  {
    var longer, more := run + [Step(k, a)], acts + [a];
    forall i | 0 <= i < |more|
      ensures StepAt(longer, more, i)
    {
      assert i < |acts| ==> StepAt(run, acts, i);
    }
    HoldsPrefix(run, acts, Step(k, a), a, 0, |acts|);
    HoldsPrefix(run, acts, Step(k, a), a, 1, |acts|);
  }

  /** A kernel with two runnable threads and one mutex nobody waits for. */
  function Two(ready: seq<nat>, current: Current, timeouts: seq<int>, pc0: Pc, pc1: Pc, x: Object, time: nat): (k: Kernel) {
    Kernel([Run, Run], [pc0, pc1], timeouts, ready, [], [[]], [x], current, time)
  }

  const START := Kernel([], [], [], [], [], [[]], [Mutex(Nobody, 0)], Idle, 0)

  lemma TwoThreads() returns (run: seq<Kernel>, acts: seq<Action>)
    ensures Ends(run, acts, Two([0, 1], Idle, [0, 0], User, User, Mutex(Nobody, 0), 0), 0, 0)
  {
    run, acts := [START], [];
    Extend(run, acts, START, 0, 0, Create);
    var one := Step(START, Create);
    run, acts := run + [one], acts + [Create];
    Extend(run, acts, one, 0, 0, Create);
    run, acts := run + [Step(one, Create)], acts + [Create];
  }

  /** Two threads are created, and thread 0 runs from the first tick on. */
  lemma ThreadZeroRuns() returns (run: seq<Kernel>, acts: seq<Action>)
    ensures Ends(run, acts, Two([1], Thread(0), [TICK_US + SCHED_US, 0], User, User, Mutex(Nobody, 0), TICK_US), 0, 0)
  {
    run, acts := TwoThreads();
    var two := run[|acts|];
    Extend(run, acts, two, 0, 0, Tick);
    run, acts := run + [Step(two, Tick)], acts + [Tick];
  }

  /** A thread that waits for the mutex forever and can have it locks it. */
  lemma Lock(run: seq<Kernel>, acts: seq<Action>, k: Kernel, h0: int, h1: int) returns (run': seq<Kernel>, acts': seq<Action>)
    requires Ends(run, acts, k, h0, h1) && Enabled(k, BeginGet(0, FOREVER))
    requires Take(k.objects[0], k.current.id).Some?
    ensures Ends(run', acts', k.(objects := k.objects[0 := Take(k.objects[0], k.current.id).value]),
                 h0 + (if k.current.id == 0 then 1 else 0), h1 + (if k.current.id == 1 then 1 else 0))
  {
    Extend(run, acts, k, h0, h1, BeginGet(0, FOREVER));
    var k1 := Step(k, BeginGet(0, FOREVER));
    run', acts' := run + [k1], acts + [BeginGet(0, FOREVER)];
    Extend(run', acts', k1, h0, h1, TryGet);
    var k2 := Step(k1, TryGet);
    run', acts' := run' + [k2], acts' + [TryGet];
    assert k2.pcs == k.pcs;
  }

  /** Thread 0 has locked the mutex and yielded to thread 1. */
  lemma ThreadOneRuns() returns (run: seq<Kernel>, acts: seq<Action>)
    ensures Ends(run, acts, Two([0], Thread(1), [0, TICK_US + SCHED_US], User, User, Mutex(By(0), 1), TICK_US), 1, 0)
  {
    run, acts := ThreadZeroRuns();
    run, acts := Lock(run, acts, run[|acts|], 0, 0);
    var k := run[|acts|];
    Extend(run, acts, k, 1, 0, Yield);
    run, acts := run + [Step(k, Yield)], acts + [Yield];
  }

  /** The source lets thread 1 unlock it all the same. */
  lemma ThreadOneUnlocks() returns (run: seq<Kernel>, acts: seq<Action>)
    ensures Ends(run, acts, Two([0], Thread(1), [0, TICK_US + SCHED_US], User, User, Mutex(Nobody, 0), TICK_US), 1, -1)
  {
    run, acts := ThreadOneRuns();
    var k := run[|acts|];
    Extend(run, acts, k, 1, 0, Release(0));
    run, acts := run + [Step(k, Release(0))], acts + [Release(0)];
  }

  /** The condition on unlocks is needed: in a run from the start thread 1 unlocks what
      thread 0 locked, and when it then locks the mutex itself both hold it at once. */
  lemma ForeignUnlock() returns (run: seq<Kernel>, acts: seq<Action>)
    ensures Execution(run, acts) && !Accounted(run, acts, 0, |acts|)
    ensures Holds(run, acts, 0, 0, |acts|) > 0 && Holds(run, acts, 0, 1, |acts|) > 0
  {
    run, acts := ThreadOneUnlocks();
    run, acts := Lock(run, acts, run[|acts|], 1, -1);
    run, acts := Lock(run, acts, run[|acts|], 1, 0);
    assert Surplus(run[|acts|].objects[0], 0) == 0;
  }
}
