/** Semaphores, recursive mutexes, sleeping and ticks of snow_os/snow.c as steps of the
    kernel, and what every run of it keeps. */
module SnowSync {
  import opened Basics
  import opened Snow

  // ---------- the objects ----------

  /** sem_get and mutex_get */
  function Take(x: Object, t: nat): (r: Option<Object>) {
    match x
    case Sem(count) =>
      if count > 0 then Some(Sem(count - 1)) else None
    case Mutex(owner, count) =>
      if owner == Nobody || owner == By(t) then Some(Mutex(By(t), count + 1)) else None
  }

  /** sem_put and mutex_put, with their answer whether a waiter should be woken */
  function Give(x: Object): (r: (Object, bool)) {
    match x
    case Sem(count) => (Sem(count + 1), true)
    case Mutex(owner, count) => if count - 1 == 0 then (Mutex(Nobody, 0), true) else (Mutex(owner, count - 1), false)
  }

  /** How many gets would succeed now. */
  function Available(x: Object): (n: int) {
    match x
    case Sem(count) => count
    case Mutex(owner, _) => if owner == Nobody then 1 else 0
  }

  /** A mutex without owner has no positive count. */
  predicate ObjectOk(x: Object) {
    x.Mutex? && x.owner == Nobody ==> x.count <= 0
  }

  // ---------- the steps ----------

  datatype Action =
    | Usleep(us: nat)
    | BeginGet(obj: nat, us: nat)     // wait_get_timeout up to its label
    | TryGet                          // its section with interrupts disabled
    | Release(obj: nat)               // snow_sem_up or snow_mutex_unlock
    | Yield                           // snow_sched and the pass it causes
    | OtherSyscall                    // a system call that only causes a pass
    | Tick                            // the timer interrupt and its pass
    | Create                          // the new thread becomes ready

  /** Every list node belongs to an existing thread. */
  predicate Named(k: Kernel) {
    && k.Sized()
    && (k.current.Thread? ==> k.current.id < |k.flags|)
    && (forall i :: 0 <= i < |k.ready| ==> k.ready[i] < |k.flags|)
    && (forall i :: 0 <= i < |k.timers| ==> k.timers[i].thread < |k.flags|)
    && (forall o, i :: 0 <= o < |k.waits| && 0 <= i < |k.waits[o]| ==> k.waits[o][i] < |k.flags|)
  }

  predicate Running(k: Kernel) {
    k.Sized() && k.current.Thread? && k.current.id < |k.flags|
  }

  function DeadlineOf(k: Kernel, us: nat): (d: Deadline) {
    if us == 0 then At(0) else if us == FOREVER then Never else At(k.time + us)
  }

  predicate Expired(k: Kernel, d: Deadline) {
    d.At? && d.us <= k.time
  }

  /** The state in which the pass of a step begins. */
  function BeforePass(k: Kernel, a: Action): (k': Kernel)
    requires a.Yield? ==> Running(k)
  {
    match a
    case Yield =>
      var c := k.current.id;
      var pc := match k.pcs[c]
        case Parked(o, d, r) => Getting(o, d, r)
        case Yielding => User
        case pc => pc;
      k.(pcs := k.pcs[c := pc], timeouts := k.timeouts[c := 0])
    case Tick => k.(time := k.time + TICK_US)
    case _ => k
  }

  /** A step with a pass is allowed only when the pass does not fire the timer of the
      thread that is still current. */
  ghost predicate Enabled(k: Kernel, a: Action) {
    && Named(k)
    && match a
       case Usleep(_) => Running(k) && k.pcs[k.current.id] == User
       case BeginGet(o, _) => Running(k) && k.pcs[k.current.id] == User && o < |k.objects|
       case TryGet => Running(k) && k.pcs[k.current.id].Getting? && k.pcs[k.current.id].obj < |k.objects|
       case Release(o) => Running(k) && k.pcs[k.current.id] == User && o < |k.objects|
       case Yield =>
         && Running(k) && !k.pcs[k.current.id].Getting? && !CurrentFires(BeforePass(k, a))
       case OtherSyscall => !CurrentFires(k)
       case Tick => !CurrentFires(BeforePass(k, a))
       case Create => true
  }

  /** wait_get_timeout from its label to where it returns or parks. */
  function TryGetStep(k: Kernel): (k': Kernel)
    requires Running(k) && k.pcs[k.current.id].Getting? && k.pcs[k.current.id].obj < |k.objects|
  {
    var c := k.current.id;
    var Getting(o, d, _) := k.pcs[c];
    var r := Take(k.objects[o], c);
    if r.Some? then k.(objects := k.objects[o := r.value], pcs := k.pcs[c := User])
    else if Expired(k, d) then k.(pcs := k.pcs[c := User])
    else Park(k, c, o, d)
  }

  function Park(k: Kernel, c: nat, o: nat, d: Deadline): (k': Kernel)
    requires k.Sized() && c < |k.flags| && o < |k.waits|
  {
    k.(flags := k.flags[c := Waiting], waits := k.waits[o := k.waits[o] + [c]],
       timers := if d.At? then TimerInsert(k.timers, Timer(c, d.us)) else k.timers,
       pcs := k.pcs[c := Parked(o, d, false)])
  }

  function Mark(pc: Pc): (r: Pc) {
    if InGet(pc) then pc.(released := true) else pc
  }

  /** The first waiter is woken, and the caller then yields. */
  function WakeFirst(k: Kernel, o: nat): (k': Kernel)
    requires Running(k) && o < |k.waits| && k.waits[o] != [] && k.waits[o][0] < |k.flags|
  {
    var t := k.waits[o][0];
    var k2 := Wakeup(k.(waits := k.waits[o := k.waits[o][1..]]), t);
    k2.(pcs := k.pcs[t := Mark(k.pcs[t])][k.current.id := Yielding])
  }

  /** wait_put */
  function ReleaseStep(k: Kernel, o: nat): (k': Kernel)
    requires Running(k) && o < |k.objects|
    requires forall i :: 0 <= i < |k.waits[o]| ==> k.waits[o][i] < |k.flags|
  {
    var (x, wakes) := Give(k.objects[o]);
    var k1 := k.(objects := k.objects[o := x]);
    if wakes && k.waits[o] != [] then WakeFirst(k1, o) else k1
  }

  function UsleepStep(k: Kernel, us: nat): (k': Kernel)
    requires Running(k)
  {
    var c := k.current.id;
    k.(flags := k.flags[c := Sleeping], timers := TimerInsert(k.timers, Timer(c, k.time + us)),
       pcs := k.pcs[c := Yielding])
  }

  function CreateStep(k: Kernel): (k': Kernel) {
    k.(flags := k.flags + [Run], pcs := k.pcs + [User], timeouts := k.timeouts + [0], ready := k.ready + [|k.flags|])
  }

  ghost function Step(k: Kernel, a: Action): (k': Kernel)
    requires Enabled(k, a)
  {
    match a
    case Usleep(us) => UsleepStep(k, us)
    case BeginGet(o, us) => k.(pcs := k.pcs[k.current.id := Getting(o, DeadlineOf(k, us), false)])
    case TryGet => TryGetStep(k)
    case Release(o) => ReleaseStep(k, o)
    case Create => CreateStep(k)
    case _ => Pass(BeforePass(k, a))
  }

  // ---------- every step keeps every thread in one place ----------

  /** A running thread may change its program counter; objects and time slices are free. */
  lemma RunningPc(k: Kernel, k': Kernel, t: nat, pc: Pc)
    requires Inv(k) && t < |k.flags| && k.flags[t] == Run && k'.Sized()
    requires k'.pcs == k.pcs[t := pc] && k'.flags == k.flags && k'.ready == k.ready && k'.timers == k.timers
    requires k'.waits == k.waits && k'.current == k.current
    ensures Inv(k')
  {
    forall o, u | 0 <= o < |k'.waits| && u in k'.waits[o]
      ensures WaitsFor(k', u, o)
    {
      assert WaitsFor(k, u, o);
    }
    forall u | 0 <= u < |k'.flags| && k'.flags[u] == Waiting
      ensures OnItsList(k', u)
    {
      assert OnItsList(k, u);
    }
    forall u | 0 <= u < |k'.flags|
      ensures HasTimer(k'.timers, u) <==> Timed(k', u)
    {
      assert Timed(k', u) == Timed(k, u);
    }
  }

  lemma InvNamed(k: Kernel)
    requires Inv(k)
    ensures Named(k)
  {
    assert forall i :: 0 <= i < |k.ready| ==> k.ready[i] in k.ready;
    forall o, i | 0 <= o < |k.waits| && 0 <= i < |k.waits[o]|
      ensures k.waits[o][i] < |k.flags|
    {
      assert k.waits[o][i] in k.waits[o];
      assert WaitsFor(k, k.waits[o][i], o);
    }
  }

  lemma {:induction false} WithoutBelow(list: seq<nat>, t: nat, n: nat)
    requires forall i :: 0 <= i < |list| ==> list[i] < n
    ensures forall i :: 0 <= i < |Without(list, t)| ==> Without(list, t)[i] < n
  {
    if list != [] {
      WithoutBelow(list[1..], t, n);
    }
  }

  /** A current thread that is not runnable is about to call snow_sched. */
  predicate CurrentRuns(k: Kernel)
    requires k.Sized()
  {
    Running(k) && k.flags[k.current.id] != Run ==> k.pcs[k.current.id].Parked? || k.pcs[k.current.id].Yielding?
  }

  lemma UsleepKeepsInv(k: Kernel, us: nat)
    requires Inv(k) && CurrentRuns(k) && Enabled(k, Usleep(us))
    ensures Inv(UsleepStep(k, us))
  {
    var c := k.current.id;
    var k' := UsleepStep(k, us);
    assert !HasTimer(k.timers, c) by {
      assert !Timed(k, c);
    }
    TimerInsertOk(k.timers, |k.flags|, Timer(c, k.time + us));
    UsleepWaits(k, us);
    forall u | 0 <= u < |k'.flags|
      ensures HasTimer(k'.timers, u) <==> Timed(k', u)
    {
      HasTimerInsert(k.timers, Timer(c, k.time + us), u);
      assert u != c ==> Timed(k', u) == Timed(k, u);
    }
  }

  lemma UsleepWaits(k: Kernel, us: nat)
    requires Inv(k) && CurrentRuns(k) && Enabled(k, Usleep(us))
    ensures WaitsOk(UsleepStep(k, us))
  {
    var k' := UsleepStep(k, us);
    forall o, u | 0 <= o < |k'.waits| && u in k'.waits[o]
      ensures WaitsFor(k', u, o)
    {
      assert WaitsFor(k, u, o);
    }
    forall u | 0 <= u < |k'.flags| && k'.flags[u] == Waiting
      ensures OnItsList(k', u)
    {
      assert OnItsList(k, u);
    }
  }

  lemma ParkWaits(k: Kernel, c: nat, o: nat, d: Deadline)
    requires Inv(k) && k.current == Thread(c) && k.flags[c] == Run && o < |k.waits|
    ensures WaitsOk(Park(k, c, o, d))
  {
    var k' := Park(k, c, o, d);
    assert c !in k.waits[o] by {
      assert !WaitsFor(k, c, o);
    }
    forall p, u | 0 <= p < |k'.waits| && u in k'.waits[p]
      ensures WaitsFor(k', u, p)
    {
      assert u == c ==> p == o by {
        assert p != o && u in k.waits[p] ==> WaitsFor(k, u, p);
      }
      assert u != c ==> WaitsFor(k, u, p);
    }
    forall u | 0 <= u < |k'.flags| && k'.flags[u] == Waiting
      ensures OnItsList(k', u)
    {
      assert u != c ==> OnItsList(k, u);
    }
  }

  lemma ParkTimed(k: Kernel, c: nat, o: nat, d: Deadline)
    requires Inv(k) && k.current == Thread(c) && k.flags[c] == Run && o < |k.waits|
    ensures TimedOk(Park(k, c, o, d))
  {
    var k' := Park(k, c, o, d);
    assert !HasTimer(k.timers, c) by {
      assert !Timed(k, c);
    }
    if d.At? {
      TimerInsertOk(k.timers, |k.flags|, Timer(c, d.us));
    }
    forall u | 0 <= u < |k'.flags|
      ensures HasTimer(k'.timers, u) <==> Timed(k', u)
    {
      if d.At? {
        HasTimerInsert(k.timers, Timer(c, d.us), u);
      }
      assert u != c ==> Timed(k', u) == Timed(k, u);
    }
  }

  lemma ParkKeepsInv(k: Kernel, c: nat, o: nat, d: Deadline)
    requires Inv(k) && k.current == Thread(c) && k.flags[c] == Run && o < |k.waits|
    ensures Inv(Park(k, c, o, d))
  {
    ParkWaits(k, c, o, d);
    ParkTimed(k, c, o, d);
  }

  lemma TryGetKeepsInv(k: Kernel)
    requires Inv(k) && CurrentRuns(k) && Enabled(k, TryGet)
    ensures Inv(TryGetStep(k))
  {
    var c := k.current.id;
    var Getting(o, d, _) := k.pcs[c];
    if Take(k.objects[o], c).Some? || Expired(k, d) {
      RunningPc(k, TryGetStep(k), c, User);
    } else {
      ParkKeepsInv(k, c, o, d);
    }
  }

  /** list_fifo_get takes the head off its list, and the list_remove in snow_wakeup then
      finds it alone. */
  lemma PopThenWake(k: Kernel, o: nat)
    requires k.Sized() && o < |k.waits| && k.waits[o] != [] && k.waits[o][0] < |k.flags| && k.flags[k.waits[o][0]] != Run
    ensures Wakeup(k.(waits := k.waits[o := k.waits[o][1..]]), k.waits[o][0]) == Wakeup(k, k.waits[o][0])
  {
    var t := k.waits[o][0];
    var popped := k.waits[o := k.waits[o][1..]];
    assert WaitsWithout(popped, t) == WaitsWithout(k.waits, t) by {
      forall p | 0 <= p < |k.waits|
        ensures WaitsWithout(popped, t)[p] == WaitsWithout(k.waits, t)[p]
      {
        assert p == o ==> Without(popped[p], t) == Without(k.waits[p], t);
      }
    }
  }

  /** The waiter that a release wakes. */
  ghost predicate Wakes(k: Kernel, o: nat)
    requires k.Sized() && o < |k.objects|
  {
    Give(k.objects[o]).1 && k.waits[o] != []
  }

  lemma HeadWaits(k: Kernel, o: nat)
    requires Inv(k) && o < |k.waits| && k.waits[o] != []
    ensures WaitsFor(k, k.waits[o][0], o)
  {
    assert k.waits[o][0] in k.waits[o];
  }

  lemma ReleaseKeepsInv(k: Kernel, o: nat)
    requires Inv(k) && CurrentRuns(k) && Enabled(k, Release(o))
    ensures Inv(ReleaseStep(k, o))
  {
    var c := k.current.id;
    var k1 := k.(objects := k.objects[o := Give(k.objects[o]).0]);
    RunningPc(k, k1, c, k.pcs[c]);
    if Wakes(k, o) {
      HeadWaits(k, o);
      var t := k.waits[o][0];
      PopThenWake(k1, o);
      var k2 := Wakeup(k1, t);
      WakeupKeepsInv(k1, t);
      var k3 := k2.(pcs := k.pcs[t := Mark(k.pcs[t])]);
      RunningPc(k2, k3, t, Mark(k.pcs[t]));
      RunningPc(k3, ReleaseStep(k, o), c, Yielding);
    }
  }

  lemma CreateWaits(k: Kernel)
    requires Inv(k)
    ensures WaitsOk(CreateStep(k))
  {
    var k' := CreateStep(k);
    forall o, u | 0 <= o < |k'.waits| && u in k'.waits[o]
      ensures WaitsFor(k', u, o)
    {
      assert WaitsFor(k, u, o);
    }
    forall u | 0 <= u < |k'.flags| && k'.flags[u] == Waiting
      ensures OnItsList(k', u)
    {
      assert OnItsList(k, u);
    }
  }

  lemma CreateKeepsInv(k: Kernel)
    requires Inv(k)
    ensures Inv(CreateStep(k))
  {
    var k' := CreateStep(k);
    var n := |k.flags|;
    assert n !in k.ready;
    CreateWaits(k);
    forall u | 0 <= u < |k'.flags|
      ensures HasTimer(k'.timers, u) <==> Timed(k', u)
    {
      assert u < n ==> Timed(k', u) == Timed(k, u);
    }
  }

  /** The call of snow_sched: the program counter moves on, whatever the flag is. */
  lemma YieldPc(k: Kernel)
    requires Inv(k) && Running(k)
    ensures Inv(BeforePass(k, Yield))
  {
    var k' := BeforePass(k, Yield);
    forall o, u | 0 <= o < |k'.waits| && u in k'.waits[o]
      ensures WaitsFor(k', u, o)
    {
      assert WaitsFor(k, u, o);
    }
    forall u | 0 <= u < |k'.flags| && k'.flags[u] == Waiting
      ensures OnItsList(k', u)
    {
      assert OnItsList(k, u);
    }
    forall u | 0 <= u < |k'.flags|
      ensures HasTimer(k'.timers, u) <==> Timed(k', u)
    {
      assert Timed(k, u) <==> HasTimer(k.timers, u);
      assert k.flags[u] == Waiting ==> OnItsList(k, u);
      assert Timed(k', u) == Timed(k, u);
    }
  }

  predicate HasPass(a: Action) {
    a.Yield? || a.OtherSyscall? || a.Tick?
  }

  lemma BeforePassKeepsInv(k: Kernel, a: Action)
    requires Inv(k) && HasPass(a) && (a.Yield? ==> Running(k))
    ensures Inv(BeforePass(k, a))
  {
    if a.Yield? {
      YieldPc(k);
    } else {
      SameWaits(k, BeforePass(k, a));
    }
  }

  lemma StepKeepsPlaces(k: Kernel, a: Action)
    requires Inv(k) && CurrentRuns(k) && Enabled(k, a)
    ensures Inv(Step(k, a))
  {
    match a
    case Usleep(us) => UsleepKeepsInv(k, us);
    case BeginGet(o, us) => RunningPc(k, Step(k, a), k.current.id, Getting(o, DeadlineOf(k, us), false));
    case TryGet => TryGetKeepsInv(k);
    case Release(o) => ReleaseKeepsInv(k, o);
    case Create => CreateKeepsInv(k);
    case _ =>
      BeforePassKeepsInv(k, a);
      PassKeepsInvIff(BeforePass(k, a));
  }

  // ---------- no lost wakeup ----------

  /** t was woken by a release of o and has not tried again yet. */
  predicate WillRetry(pc: Pc, o: nat) {
    InGet(pc) && pc.obj == o && pc.released
  }

  /** The number of threads woken by a release of o that have yet to retry. */
  function Retrying(pcs: seq<Pc>, o: nat): (n: nat) {
    if pcs == [] then 0 else Retrying(pcs[1..], o) + if WillRetry(pcs[0], o) then 1 else 0
  }

  lemma {:induction false} RetryingUpdate(pcs: seq<Pc>, t: nat, pc: Pc, o: nat)
    requires t < |pcs|
    ensures Retrying(pcs[t := pc], o)
      == Retrying(pcs, o) - (if WillRetry(pcs[t], o) then 1 else 0) + if WillRetry(pc, o) then 1 else 0
  {
    if t == 0 {
      assert pcs[t := pc][1..] == pcs[1..];
    } else {
      assert pcs[t := pc][1..] == pcs[1..][t - 1 := pc];
      RetryingUpdate(pcs[1..], t - 1, pc, o);
    }
  }

  lemma {:induction false} RetryingAppend(pcs: seq<Pc>, pc: Pc, o: nat)
    ensures Retrying(pcs + [pc], o) == Retrying(pcs, o) + if WillRetry(pc, o) then 1 else 0
  {
    if pcs == [] {
      assert pcs + [pc] == [pc];
      assert [pc][1..] == [];
    } else {
      assert (pcs + [pc])[1..] == pcs[1..] + [pc];
      RetryingAppend(pcs[1..], pc, o);
    }
  }

  /** While someone waits for an object, no more gets could succeed than there are threads
      that a release woke and that have yet to retry. */
  predicate NoneLost(k: Kernel, o: nat)
    requires k.Sized() && o < |k.objects|
  {
    k.waits[o] != [] ==> Available(k.objects[o]) <= Retrying(k.pcs, o)
  }

  /** Threads that are to retry can run. */
  predicate RetryersRun(k: Kernel)
    requires k.Sized()
  {
    forall t :: 0 <= t < |k.flags| && InGet(k.pcs[t]) && k.pcs[t].released ==> k.flags[t] == Run
  }

  ghost predicate SyncInv(k: Kernel)
    requires k.Sized()
  {
    && CurrentRuns(k) && RetryersRun(k)
    && (forall o :: 0 <= o < |k.objects| ==> ObjectOk(k.objects[o]) && NoneLost(k, o))
  }

  /** k' differs from k as a pass may make it differ. */
  ghost predicate PassFrame(k: Kernel, k': Kernel) {
    && k.Sized() && k'.Sized() && |k'.flags| == |k.flags| && k'.pcs == k.pcs && k'.objects == k.objects
    && (forall t :: 0 <= t < |k.flags| && k.flags[t] == Run ==> k'.flags[t] == Run)
    && (forall o :: 0 <= o < |k.waits| && k.waits[o] == [] ==> k'.waits[o] == [])
  }

  lemma {:induction false} FireFrame(k: Kernel)
    requires k.Sized() && forall i :: 0 <= i < |k.timers| ==> k.timers[i].thread < |k.flags|
    ensures PassFrame(k, Fire(k))
    decreases |k.timers|
  {
    if k.timers != [] && k.timers[0].us <= k.time {
      var t := k.timers[0].thread;
      WithoutMembers(k.timers[1..], t);
      var k1 := Wakeup(k.(timers := k.timers[1..]), t);
      assert PassFrame(k, k1);
      FireFrame(k1);
    }
  }

  lemma PassIsFrame(k: Kernel)
    requires k.Sized() && forall i :: 0 <= i < |k.timers| ==> k.timers[i].thread < |k.flags|
    ensures PassFrame(k, Pass(k))
  {
    FireFrame(k);
  }

  /** After a pass the current thread, if there is one, can run. */
  lemma PassCurrentRuns(k: Kernel)
    requires Inv(k) && !CurrentFires(k)
    ensures Pass(k).Sized() && CurrentRuns(Pass(k))
  {
    FireKeepsInv(k);
    var k1 := Fire(k);
    if MustSwitch(k1) && Runnable(k1) != [] {
      assert Runnable(k1)[0] in Runnable(k1);
    }
  }

  lemma FrameKeepsSync(k: Kernel, k': Kernel)
    requires PassFrame(k, k') && RetryersRun(k) && CurrentRuns(k')
    requires forall o :: 0 <= o < |k.objects| ==> ObjectOk(k.objects[o]) && NoneLost(k, o)
    ensures SyncInv(k')
  {
    forall o | 0 <= o < |k'.objects|
      ensures NoneLost(k', o)
    {
      assert NoneLost(k, o);
    }
  }

  lemma BeforePassSync(k: Kernel, a: Action)
    requires Inv(k) && SyncInv(k) && HasPass(a) && Enabled(k, a)
    ensures RetryersRun(BeforePass(k, a))
    ensures forall o :: 0 <= o < |k.objects| ==> NoneLost(BeforePass(k, a), o)
  {
    var k' := BeforePass(k, a);
    forall o | 0 <= o < |k.objects|
      ensures NoneLost(k', o)
    {
      assert NoneLost(k, o);
      if a.Yield? {
        RetryingUpdate(k.pcs, k.current.id, k'.pcs[k.current.id], o);
      }
    }
  }

  lemma PassSync(k: Kernel, a: Action)
    requires Inv(k) && SyncInv(k) && HasPass(a) && Enabled(k, a)
    ensures Step(k, a).Sized() && SyncInv(Step(k, a))
  {
    var k1 := BeforePass(k, a);
    BeforePassKeepsInv(k, a);
    BeforePassSync(k, a);
    PassIsFrame(k1);
    PassCurrentRuns(k1);
    FrameKeepsSync(k1, Pass(k1));
  }

  /** A thread that is not waiting to retry changes its program counter to one that is not
      either; the objects stay. */
  lemma QuietSync(k: Kernel, k': Kernel, c: nat, pc: Pc)
    requires k.Sized() && SyncInv(k) && k'.Sized() && c < |k.flags| && k'.objects == k.objects && k'.waits == k.waits
    requires k'.pcs == k.pcs[c := pc] && k'.current == k.current == Thread(c)
    requires (InGet(pc) ==> !pc.released) && !InGet(k.pcs[c])
    requires forall t :: 0 <= t < |k.flags| && t != c ==> k'.flags[t] == k.flags[t]
    requires k'.flags[c] == Run || pc.Yielding?
    ensures SyncInv(k')
  {
    forall o | 0 <= o < |k'.objects|
      ensures NoneLost(k', o)
    {
      assert NoneLost(k, o);
      RetryingUpdate(k.pcs, c, pc, o);
    }
  }

  lemma CreateSync(k: Kernel)
    requires Inv(k) && SyncInv(k)
    ensures CreateStep(k).Sized() && SyncInv(CreateStep(k))
  {
    var k' := CreateStep(k);
    forall o | 0 <= o < |k'.objects|
      ensures NoneLost(k', o)
    {
      assert NoneLost(k, o);
      RetryingAppend(k.pcs, User, o);
    }
  }

  lemma TakeOk(x: Object, t: nat)
    requires ObjectOk(x)
    ensures Take(x, t).Some? ==> ObjectOk(Take(x, t).value)
    ensures Take(x, t).Some? ==> Available(Take(x, t).value) <= Available(x)
    ensures Take(x, t).Some? ==> Available(Take(x, t).value) == 0 || Available(Take(x, t).value) == Available(x) - 1
    ensures Take(x, t).None? ==> Available(x) <= 0
  {
  }

  lemma GiveOk(x: Object)
    requires ObjectOk(x)
    ensures ObjectOk(Give(x).0)
    ensures Available(Give(x).0) == Available(x) + if Give(x).1 then 1 else 0
  {
  }

  lemma TryGetObjects(k: Kernel, p: nat)
    requires Inv(k) && SyncInv(k) && Enabled(k, TryGet) && p < |k.objects|
    ensures TryGetStep(k).Sized() && ObjectOk(TryGetStep(k).objects[p]) && NoneLost(TryGetStep(k), p)
  {
    var c := k.current.id;
    var k' := TryGetStep(k);
    assert NoneLost(k, p) && ObjectOk(k.objects[p]);
    TakeOk(k.objects[k.pcs[c].obj], c);
    RetryingUpdate(k.pcs, c, k'.pcs[c], p);
  }

  lemma TryGetSync(k: Kernel)
    requires Inv(k) && SyncInv(k) && Enabled(k, TryGet)
    ensures TryGetStep(k).Sized() && SyncInv(TryGetStep(k))
  {
    forall p | 0 <= p < |k.objects|
      ensures ObjectOk(TryGetStep(k).objects[p]) && NoneLost(TryGetStep(k), p)
    {
      TryGetObjects(k, p);
    }
  }

  lemma ReleaseObjects(k: Kernel, o: nat, p: nat)
    requires Inv(k) && SyncInv(k) && Enabled(k, Release(o)) && p < |k.objects|
    ensures ReleaseStep(k, o).Sized() && ObjectOk(ReleaseStep(k, o).objects[p]) && NoneLost(ReleaseStep(k, o), p)
  {
    var c := k.current.id;
    assert NoneLost(k, p) && ObjectOk(k.objects[p]) && ObjectOk(k.objects[o]);
    GiveOk(k.objects[o]);
    if Wakes(k, o) {
      HeadWaits(k, o);
      var t := k.waits[o][0];
      RetryingUpdate(k.pcs, t, Mark(k.pcs[t]), p);
      RetryingUpdate(k.pcs[t := Mark(k.pcs[t])], c, Yielding, p);
    }
  }

  lemma ReleaseSync(k: Kernel, o: nat)
    requires Inv(k) && SyncInv(k) && Enabled(k, Release(o))
    ensures ReleaseStep(k, o).Sized() && SyncInv(ReleaseStep(k, o))
  {
    forall p | 0 <= p < |k.objects|
      ensures ObjectOk(ReleaseStep(k, o).objects[p]) && NoneLost(ReleaseStep(k, o), p)
    {
      ReleaseObjects(k, o, p);
    }
    if Wakes(k, o) {
      HeadWaits(k, o);
    }
    assert ReleaseStep(k, o).Sized();
  }

  lemma StepKeepsSync(k: Kernel, a: Action)
    requires Inv(k) && SyncInv(k) && Enabled(k, a)
    ensures Step(k, a).Sized() && SyncInv(Step(k, a))
  {
    match a
    case Usleep(us) => QuietSync(k, Step(k, a), k.current.id, Yielding);
    case BeginGet(o, us) => QuietSync(k, Step(k, a), k.current.id, Getting(o, DeadlineOf(k, us), false));
    case TryGet => TryGetSync(k);
    case Release(o) => ReleaseSync(k, o);
    case Create => CreateSync(k);
    case _ => PassSync(k, a);
  }

  // ---------- whole runs ----------

  predicate Fresh(x: Object) {
    x.Mutex? ==> x.owner == Nobody && x.count == 0
  }

  /** snow_start: only the idle thread, and objects as their init functions leave them. */
  ghost predicate Init(k: Kernel) {
    && k.flags == [] && k.pcs == [] && k.timeouts == [] && k.ready == [] && k.timers == []
    && k.current == Idle && k.time == 0
    && |k.waits| == |k.objects|
    && (forall o :: 0 <= o < |k.objects| ==> Fresh(k.objects[o]) && k.waits[o] == [])
  }

  ghost predicate Execution(run: seq<Kernel>, acts: seq<Action>) {
    && |run| == |acts| + 1
    && Init(run[0])
    && (forall i :: 0 <= i < |acts| ==> StepAt(run, acts, i))
  }

  ghost predicate StepAt(run: seq<Kernel>, acts: seq<Action>, i: nat)
    requires i < |acts| < |run|
  {
    Enabled(run[i], acts[i]) && run[i + 1] == Step(run[i], acts[i])
  }

  lemma {:induction false} RunInv(run: seq<Kernel>, acts: seq<Action>, i: nat)
    requires Execution(run, acts) && i < |run|
    ensures Inv(run[i]) && SyncInv(run[i])
  {
    if i > 0 {
      RunInv(run, acts, i - 1);
      assert StepAt(run, acts, i - 1);
      StepKeepsPlaces(run[i - 1], acts[i - 1]);
      StepKeepsSync(run[i - 1], acts[i - 1]);
    }
  }

  /** The step of thread t is a get of o that succeeds. */
  predicate Gets(k: Kernel, a: Action, o: nat, t: nat) {
    && Running(k) && k.current == Thread(t) && a == TryGet && o < |k.objects|
    && k.pcs[t].Getting? && k.pcs[t].obj == o && Take(k.objects[o], t).Some?
  }

  /** The step of thread t is a release of o. */
  predicate Puts(k: Kernel, a: Action, o: nat, t: nat) {
    k.current == Thread(t) && a == Release(o)
  }

  /** Releases of o minus successful gets of o in the first i steps, by any thread. */
  function Balance(run: seq<Kernel>, acts: seq<Action>, o: nat, i: nat): (n: int)
    requires i <= |acts| < |run|
  {
    if i == 0 then 0
    else
      var k, a := run[i - 1], acts[i - 1];
      Balance(run, acts, o, i - 1)
      + (if k.current.Thread? && Puts(k, a, o, k.current.id) then 1 else 0)
      - (if k.current.Thread? && Gets(k, a, o, k.current.id) then 1 else 0)
  }

  /** Only a successful get and a release change an object. */
  lemma StepObject(k: Kernel, a: Action, o: nat)
    requires Enabled(k, a) && o < |k.objects|
    ensures |Step(k, a).objects| == |k.objects|
    ensures Step(k, a).objects[o] ==
      if k.current.Thread? && Gets(k, a, o, k.current.id) then Take(k.objects[o], k.current.id).value
      else if k.current.Thread? && Puts(k, a, o, k.current.id) then Give(k.objects[o]).0
      else k.objects[o]
  {
    if HasPass(a) {
      PassObjects(k, a);
    }
  }

  lemma PassObjects(k: Kernel, a: Action)
    requires Enabled(k, a) && HasPass(a)
    ensures Step(k, a).objects == k.objects
  {
    PassIsFrame(BeforePass(k, a));
  }

  lemma {:induction false} SameObjects(run: seq<Kernel>, acts: seq<Action>, o: nat, i: nat)
    requires Execution(run, acts) && i <= |acts| && o < |run[0].objects|
    ensures |run[i].objects| == |run[0].objects| && (run[i].objects[o].Sem? <==> run[0].objects[o].Sem?)
  {
    if i > 0 {
      SameObjects(run, acts, o, i - 1);
      assert StepAt(run, acts, i - 1);
      StepObject(run[i - 1], acts[i - 1], o);
    }
  }

  /** In every state of every run, a semaphore's count is its initial value plus ups minus
      successful downs, and it is never negative unless it starts so; then it never goes
      below where it started. */
  lemma {:induction false} SemaphoreCount(run: seq<Kernel>, acts: seq<Action>, o: nat, i: nat)
    requires Execution(run, acts) && i <= |acts| && o < |run[0].objects| && run[0].objects[o].Sem?
    ensures |run[i].objects| == |run[0].objects| && run[i].objects[o].Sem?
    ensures run[i].objects[o].count == run[0].objects[o].count + Balance(run, acts, o, i)
    ensures var start := run[0].objects[o].count; run[i].objects[o].count >= if start < 0 then start else 0
  {
    SameObjects(run, acts, o, i);
    RunInv(run, acts, i);
    assert ObjectOk(run[i].objects[o]);
    if i > 0 {
      SemaphoreCount(run, acts, o, i - 1);
      assert StepAt(run, acts, i - 1);
      StepObject(run[i - 1], acts[i - 1], o);
    }
  }

  /** No lost wakeup: while a thread is queued for an object that could be taken, at least
      as many threads as could take it have been woken by a release and have yet to retry,
      and each of them is current or ready. */
  lemma NoLostWakeup(run: seq<Kernel>, acts: seq<Action>, o: nat, i: nat)
    requires Execution(run, acts) && i <= |acts| && o < |run[0].objects|
    ensures run[i].Sized() && |run[i].objects| == |run[0].objects|
    ensures run[i].waits[o] != [] ==> Retrying(run[i].pcs, o) >= Available(run[i].objects[o])
    ensures forall t :: (0 <= t < |run[i].pcs| && WillRetry(run[i].pcs[t], o) ==>
                          run[i].current == Thread(t) || t in run[i].ready)
  {
    SameObjects(run, acts, o, i);
    RunInv(run, acts, i);
    assert NoneLost(run[i], o);
  }

  // ---------- one place for every thread ----------

  ghost predicate OnWaitList(k: Kernel, t: nat) {
    exists o :: 0 <= o < |k.waits| && t in k.waits[o]
  }

  ghost predicate Asleep(k: Kernel, t: nat) {
    t < |k.flags| && k.flags[t] == Sleeping && HasTimer(k.timers, t)
  }

  /** In every state of every run, a thread is exactly one of: runnable and current,
      runnable and on the ready list, on a wait list, or asleep with a linked timer; it is
      on at most one wait list, and no list holds it twice. */
  lemma OnePlace(run: seq<Kernel>, acts: seq<Action>, i: nat, t: nat)
    requires Execution(run, acts) && i < |run| && t < |run[i].flags|
    ensures var k := run[i];
      && (if k.flags[t] == Run && k.current == Thread(t) then 1 else 0) + (if t in k.ready then 1 else 0)
         + (if OnWaitList(k, t) then 1 else 0) + (if Asleep(k, t) then 1 else 0) == 1
      && (forall o, p :: 0 <= o < |k.waits| && 0 <= p < |k.waits| && t in k.waits[o] && t in k.waits[p] ==> o == p)
      && Distinct(k.ready) && (forall o :: 0 <= o < |k.waits| ==> Distinct(k.waits[o]))
      && TimersOk(k.timers, |k.flags|)
  {
    RunInv(run, acts, i);
    var k := run[i];
    assert k.flags[t] == Waiting ==> OnItsList(k, t);
    assert OnWaitList(k, t) ==> k.flags[t] == Waiting by {
      if OnWaitList(k, t) {
        var o :| 0 <= o < |k.waits| && t in k.waits[o];
        assert WaitsFor(k, t, o);
      }
    }
    forall o, p | 0 <= o < |k.waits| && 0 <= p < |k.waits| && t in k.waits[o] && t in k.waits[p]
      ensures o == p
    {
      assert WaitsFor(k, t, o) && WaitsFor(k, t, p);
    }
  }

  // ---------- round robin ----------

  lemma {:induction false} WithoutAbsent(list: seq<nat>, t: nat)
    requires t !in list
    ensures Without(list, t) == list
  {
    if list != [] {
      WithoutAbsent(list[1..], t);
    }
  }

  /** Threads woken by a pass go behind those already ready. */
  lemma {:induction false} FireAppends(k: Kernel)
    requires Inv(k) && !CurrentFires(k)
    ensures k.ready <= Fire(k).ready
    decreases |k.timers|
  {
    if k.timers != [] && k.timers[0].us <= k.time {
      var t := k.timers[0].thread;
      var k1 := Wakeup(k, t);
      assert k.current != Thread(t);
      assert HasTimer(k.timers, t) && Timed(k, t);
      WithoutAbsent(k.ready, t);
      FireOne(k);
      WakeupKeepsInv(k, t);
      WithoutMembers(k.timers[1..], t);
      NoLaterFire(k, k1, t);
      FireAppends(k1);
    }
  }

  /** The step is a pass that gives the processor away. */
  ghost predicate Switches(k: Kernel, a: Action) {
    Enabled(k, a) && HasPass(a) && MustSwitch(Fire(BeforePass(k, a)))
  }

  /** A switch runs the head of the ready list and moves everyone else one place forward;
      other steps leave the places of ready threads alone. */
  lemma ReadyAdvances(k: Kernel, a: Action)
    requires Inv(k) && CurrentRuns(k) && Enabled(k, a)
    ensures var k' := Step(k, a);
      if Switches(k, a) && k.ready != [] then k'.current == Thread(k.ready[0]) && k.ready[1..] <= k'.ready
      else k.ready <= k'.ready
  {
    if HasPass(a) {
      PassAdvances(k, a);
    } else if a.Release? && Wakes(k, a.obj) {
      HeadWaits(k, a.obj);
      WithoutAbsent(k.ready, k.waits[a.obj][0]);
    }
  }

  lemma PassAdvances(k: Kernel, a: Action)
    requires Inv(k) && HasPass(a) && Enabled(k, a)
    ensures var k' := Pass(BeforePass(k, a));
      if Switches(k, a) && k.ready != [] then k'.current == Thread(k.ready[0]) && k.ready[1..] <= k'.ready
      else k.ready <= k'.ready
  {
    BeforePassKeepsInv(k, a);
    FireAppends(BeforePass(k, a));
    DispatchAdvances(Fire(BeforePass(k, a)), k.ready);
  }

  lemma DispatchAdvances(k: Kernel, ready: seq<nat>)
    requires ready <= k.ready
    ensures var k' := Dispatch(k);
      if MustSwitch(k) && ready != [] then k'.current == Thread(ready[0]) && ready[1..] <= k'.ready
      else ready <= k'.ready
  {
    assert ready <= Runnable(k);
  }

  /** In a sequence of queues, every true flag takes the head of a non-empty queue away,
      and otherwise queues only grow at the end. */
  ghost predicate Advancing(queues: seq<seq<nat>>, taken: seq<bool>) {
    && |queues| == |taken| + 1
    && (forall j :: 0 <= j < |taken| ==> AdvancesAt(queues, taken, j))
  }

  ghost predicate AdvancesAt(queues: seq<seq<nat>>, taken: seq<bool>, j: nat)
    requires j < |taken| < |queues|
  {
    Advances(queues[j], taken[j], queues[j + 1])
  }

  ghost predicate Advances(q: seq<nat>, taken: bool, q': seq<nat>) {
    if taken && q != [] then q[1..] <= q' else q <= q'
  }

  function Trues(flags: seq<bool>, i: nat, j: nat): (n: nat)
    requires i <= j <= |flags|
  {
    if i == j then 0 else Trues(flags, i, j - 1) + if flags[j - 1] then 1 else 0
  }

  lemma {:induction false} KeepsPlace(queues: seq<seq<nat>>, taken: seq<bool>, i: nat, j: nat, n: nat)
    requires Advancing(queues, taken) && i <= j <= |taken| && n < |queues[i]| && Trues(taken, i, j) <= n
    ensures var m := n - Trues(taken, i, j); m < |queues[j]| && queues[j][m] == queues[i][n]
  {
    if i < j {
      KeepsPlace(queues, taken, i, j - 1, n);
      var m := n - Trues(taken, i, j - 1);
      var q := queues[j - 1];
      assert AdvancesAt(queues, taken, j - 1);
      assert taken[j - 1] ==> q[1..][m - 1] == q[m];
    }
  }

  ghost function Readies(run: seq<Kernel>): (queues: seq<seq<nat>>)
    ensures |queues| == |run| && forall i :: 0 <= i < |run| ==> queues[i] == run[i].ready
  {
    seq(|run|, i requires 0 <= i < |run| => run[i].ready)
  }

  /** Which steps are switches. */
  ghost function SwitchFlags(run: seq<Kernel>, acts: seq<Action>): (flags: seq<bool>)
    requires |acts| < |run|
    ensures |flags| == |acts| && forall i :: 0 <= i < |acts| ==> flags[i] == Switches(run[i], acts[i])
  {
    seq(|acts|, i requires 0 <= i < |acts| => Switches(run[i], acts[i]))
  }

  /** The number of switches in the steps from i to j. */
  ghost function SwitchCount(run: seq<Kernel>, acts: seq<Action>, i: nat, j: nat): (n: nat)
    requires i <= j <= |acts| < |run|
  {
    Trues(SwitchFlags(run, acts), i, j)
  }

  lemma StepAdvances(k: Kernel, a: Action)
    requires Inv(k) && CurrentRuns(k) && Enabled(k, a)
    ensures Advances(k.ready, Switches(k, a), Step(k, a).ready)
    ensures Switches(k, a) && k.ready != [] ==> Step(k, a).current == Thread(k.ready[0])
  {
    ReadyAdvances(k, a);
  }

  lemma RunAdvances(run: seq<Kernel>, acts: seq<Action>)
    requires Execution(run, acts)
    ensures Advancing(Readies(run), SwitchFlags(run, acts))
  {
    var queues, flags := Readies(run), SwitchFlags(run, acts);
    forall j | 0 <= j < |acts|
      ensures AdvancesAt(queues, flags, j)
    {
      RunInv(run, acts, j);
      assert StepAt(run, acts, j);
      StepAdvances(run[j], acts[j]);
    }
  }

  lemma KeepsReadyPlace(run: seq<Kernel>, acts: seq<Action>, i: nat, j: nat, n: nat, gone: nat)
    requires Execution(run, acts) && i <= j <= |acts| && n < |run[i].ready|
    requires gone == SwitchCount(run, acts, i, j) && gone <= n
    ensures n - gone < |run[j].ready| && run[j].ready[n - gone] == run[i].ready[n]
  {
    RunAdvances(run, acts);
    KeepsPlace(Readies(run), SwitchFlags(run, acts), i, j, n);
  }

  /** Round robin over whole runs: a thread with n threads before it on the ready list keeps
      its turn through the next n switches, one place forward at each. */
  lemma KeepsItsTurn(run: seq<Kernel>, acts: seq<Action>, i: nat, j: nat, n: nat)
    requires Execution(run, acts) && i <= j <= |acts| && n < |run[i].ready|
    requires SwitchCount(run, acts, i, j) <= n
    ensures var m := n - SwitchCount(run, acts, i, j);
      m < |run[j].ready| && run[j].ready[m] == run[i].ready[n]
  {
    KeepsReadyPlace(run, acts, i, j, n, SwitchCount(run, acts, i, j));
  }

  /** And it is the one that runs at the switch after them. */
  lemma RunsAtItsTurn(run: seq<Kernel>, acts: seq<Action>, i: nat, j: nat, n: nat)
    requires Execution(run, acts) && i <= j < |acts| && n < |run[i].ready|
    requires SwitchCount(run, acts, i, j) == n && Switches(run[j], acts[j])
    ensures run[j + 1].current == Thread(run[i].ready[n])
  {
    KeepsItsTurn(run, acts, i, j, n);
    RunInv(run, acts, j);
    assert StepAt(run, acts, j);
    StepAdvances(run[j], acts[j]);
  }

  // ---------- when a sleep is too short ----------

  lemma SleeperFires(k: Kernel, us: nat, k': Kernel)
    requires Inv(k) && CurrentRuns(k) && Enabled(k, Usleep(us))
    requires k'.timers == UsleepStep(k, us).timers && k'.current == k.current
    ensures CurrentFires(k') <==> k.time + us <= k'.time
  {
    var x := Timer(k.current.id, k.time + us);
    TimerInsertMembers(k.timers, x);
    assert !Timed(k, k.current.id);
    HasTimerIn(k.timers, k.current.id);
    assert x in k'.timers;
  }

  /** snow_usleep reaches the excluded pass exactly when it is asked to sleep 0, or when a
      tick comes before its call of snow_sched and the sleep is no longer than that tick. */
  lemma SleepTooShort(k: Kernel, us: nat)
    requires Inv(k) && CurrentRuns(k) && Enabled(k, Usleep(us))
    ensures !Enabled(UsleepStep(k, us), Yield) <==> us == 0
    ensures !Enabled(UsleepStep(k, us), Tick) <==> us <= TICK_US
  {
    var k1 := UsleepStep(k, us);
    SleeperFires(k, us, BeforePass(k1, Yield));
    SleeperFires(k, us, BeforePass(k1, Tick));
    UsleepKeepsInv(k, us);
    InvNamed(k1);
  }

  /** A timed wait that parks reaches it exactly when a tick comes before its call of
      snow_sched and its deadline is no later than that tick. */
  lemma WaitTooShort(k: Kernel)
    requires Inv(k) && CurrentRuns(k) && Enabled(k, TryGet) && k.pcs[k.current.id].deadline.At?
    requires TryGetStep(k).pcs[k.current.id].Parked?
    ensures Enabled(TryGetStep(k), Yield)
    ensures !Enabled(TryGetStep(k), Tick) <==> k.pcs[k.current.id].deadline.us <= k.time + TICK_US
  {
    var k1 := TryGetStep(k);
    ParkedFires(k, BeforePass(k1, Yield));
    ParkedFires(k, BeforePass(k1, Tick));
    TryGetKeepsInv(k);
    InvNamed(k1);
  }

  lemma ParkedFires(k: Kernel, k': Kernel)
    requires Inv(k) && CurrentRuns(k) && Enabled(k, TryGet) && k.pcs[k.current.id].deadline.At?
    requires TryGetStep(k).pcs[k.current.id].Parked?
    requires k'.timers == TryGetStep(k).timers && k'.current == k.current
    ensures CurrentFires(k') <==> k.pcs[k.current.id].deadline.us <= k'.time
  {
    var x := Timer(k.current.id, k.pcs[k.current.id].deadline.us);
    TimerInsertMembers(k.timers, x);
    assert !Timed(k, k.current.id);
    HasTimerIn(k.timers, k.current.id);
    assert x in k'.timers;
  }

  // ---------- who wakes, and why ----------

  /** t has a linked timer that has expired. */
  ghost predicate Due(k: Kernel, t: nat) {
    exists x :: x in k.timers && x.thread == t && x.us <= k.time
  }

  /** A pass wakes exactly the threads whose timers have expired. */
  lemma {:induction false} FireWakesDue(k: Kernel, t: nat)
    requires Inv(k) && !CurrentFires(k) && t < |k.flags| && k.flags[t] != Run
    ensures |Fire(k).flags| == |k.flags| && (Fire(k).flags[t] == Run <==> Due(k, t))
    decreases |k.timers|
  {
    if k.timers != [] && k.timers[0].us <= k.time {
      var u := k.timers[0].thread;
      var k1 := Wakeup(k, u);
      assert k.current != Thread(u);
      FireOne(k);
      WakeupKeepsInv(k, u);
      NoLaterFire(k, k1, u);
      WithoutMembers(k.timers[1..], u);
      if t == u {
        assert k.timers[0] in k.timers;
        FireFrame(k1);
      } else {
        WithoutMembers(k.timers, u);
        assert Due(k1, t) == Due(k, t);
        FireWakesDue(k1, t);
      }
    }
  }

  lemma PassWakes(k: Kernel, a: Action, t: nat)
    requires Inv(k) && HasPass(a) && Enabled(k, a) && t < |k.flags| && k.flags[t] != Run
    ensures |Step(k, a).flags| == |k.flags| && (Step(k, a).flags[t] == Run <==> Due(BeforePass(k, a), t))
  {
    BeforePassKeepsInv(k, a);
    FireWakesDue(BeforePass(k, a), t);
  }

  lemma ReleaseWakes(k: Kernel, o: nat, t: nat)
    requires Inv(k) && Enabled(k, Release(o)) && t < |k.flags| && k.flags[t] != Run
    ensures |ReleaseStep(k, o).flags| == |k.flags|
    ensures ReleaseStep(k, o).flags[t] == Run <==> Wakes(k, o) && t == k.waits[o][0]
  {
    if Wakes(k, o) {
      HeadWaits(k, o);
    }
  }

  /** A thread that is asleep or waiting becomes runnable exactly when a pass finds its
      timer expired or a release finds it at the head of the wait list. */
  lemma WokenExactly(k: Kernel, a: Action, t: nat)
    requires Inv(k) && CurrentRuns(k) && Enabled(k, a) && t < |k.flags| && k.flags[t] != Run
    ensures |Step(k, a).flags| >= |k.flags|
    ensures Step(k, a).flags[t] == Run <==>
      || (HasPass(a) && Due(BeforePass(k, a), t))
      || (a.Release? && Wakes(k, a.obj) && t == k.waits[a.obj][0])
  {
    if HasPass(a) {
      PassWakes(k, a, t);
    } else if a.Release? {
      ReleaseWakes(k, a.obj, t);
    }
  }

  /** A release takes the first waiter off its list, puts it at the end of the ready list,
      and moves nobody else. */
  lemma ReleaseMovesFirst(k: Kernel, o: nat)
    requires Inv(k) && Enabled(k, Release(o)) && Wakes(k, o)
    ensures var k' := Step(k, Release(o));
      && k'.ready == k.ready + [k.waits[o][0]]
      && k'.waits == k.waits[o := k.waits[o][1..]]
  {
    HeadWaits(k, o);
    var t := k.waits[o][0];
    var k' := Step(k, Release(o));
    WithoutAbsent(k.ready, t);
    forall p | 0 <= p < |k.waits|
      ensures k'.waits[p] == k.waits[o := k.waits[o][1..]][p]
    {
      if p == o {
        PopHead(k.waits[o]);
        WithoutAbsent(k.waits[o][1..], t);
      } else {
        assert t !in k.waits[p] by {
          assert !WaitsFor(k, t, p);
        }
        WithoutAbsent(k.waits[p], t);
      }
    }
  }
}
