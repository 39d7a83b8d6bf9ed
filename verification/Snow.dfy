/** The kernel of snow_os/snow.c: ready, wait and timer lists, the round-robin scheduler,
    and the wait/wake core that its semaphores and recursive mutexes share.

    Each function below is one section with interrupts disabled, or one scheduling pass.
    Threads are named by their index; the idle thread is separate.  Lists are sequences,
    head first. */
module Snow {
  import opened Basics

  datatype Flag = Run | Sleeping | Waiting

  /** The wakeup timer of a thread, when it is linked. */
  datatype Timer = Timer(thread: nat, us: int)

  datatype Deadline = Never | At(us: int)

  datatype Pc =
    | User                                                     // ordinary code
    | Getting(obj: nat, deadline: Deadline, released: bool)    // wait_get_timeout, about to try
    | Parked(obj: nat, deadline: Deadline, released: bool)     // on the wait list, about to call snow_sched
    | Yielding                                                 // about to call snow_sched

  datatype Owner = Nobody | By(thread: nat)

  datatype Object =
    | Sem(count: int)
    | Mutex(owner: Owner, count: int)

  datatype Current = Idle | Thread(id: nat)

  /** `released` in a Pc is history: the thread was woken by a release. */
  datatype Kernel = Kernel(
    flags: seq<Flag>, pcs: seq<Pc>, timeouts: seq<int>,
    ready: seq<nat>, timers: seq<Timer>, waits: seq<seq<nat>>,
    objects: seq<Object>, current: Current, time: nat)
  {
    predicate Sized() {
      |flags| == |pcs| == |timeouts| && |objects| == |waits|
    }
  }

  const TICK_US := 10000        // 1000000 / SNOW_HZ
  const SCHED_US := 1000        // SNOW_THREAD_SCHED_US
  const FOREVER := 0xffff_ffff  // -1 as an unsigned int

  // ---------- lists ----------

  /** list_remove of a thread's node from the list it may be on. */
  function Without(list: seq<nat>, t: nat): (r: seq<nat>) {
    if list == [] then []
    else if list[0] == t then Without(list[1..], t)
    else [list[0]] + Without(list[1..], t)
  }

  function TimersWithout(timers: seq<Timer>, t: nat): (r: seq<Timer>)
    ensures |r| <= |timers|
  {
    if timers == [] then []
    else if timers[0].thread == t then TimersWithout(timers[1..], t)
    else [timers[0]] + TimersWithout(timers[1..], t)
  }

  function WaitsWithout(waits: seq<seq<nat>>, t: nat): (r: seq<seq<nat>>)
    ensures |r| == |waits|
  {
    seq(|waits|, o requires 0 <= o < |waits| => Without(waits[o], t))
  }

  /** snow_timer_add: behind every earlier timer, before the first not earlier one. */
  function TimerInsert(timers: seq<Timer>, x: Timer): (r: seq<Timer>)
    ensures |r| == |timers| + 1
  {
    if timers == [] || x.us <= timers[0].us then [x] + timers
    else [timers[0]] + TimerInsert(timers[1..], x)
  }

  // ---------- waking, sleeping, scheduling ----------

  /** snow_wakeup */
  function Wakeup(k: Kernel, t: nat): (k': Kernel)
    requires t < |k.flags|
    ensures |k'.timers| <= |k.timers|
  {
    var k1 :=
      if k.flags[t] != Run then
        k.(flags := k.flags[t := Run], waits := WaitsWithout(k.waits, t), ready := Without(k.ready, t) + [t])
      else k;
    k1.(timers := TimersWithout(k.timers, t))
  }

  /** The timer loop of __snow_sched: expired timers fire from the front. */
  function Fire(k: Kernel): (k': Kernel)
    requires forall i :: 0 <= i < |k.timers| ==> k.timers[i].thread < |k.flags|
    decreases |k.timers|
  {
    if k.timers == [] || k.timers[0].us > k.time then k
    else
      var t := k.timers[0].thread;
      var k1 := Wakeup(k.(timers := k.timers[1..]), t);
      WithoutMembers(k.timers[1..], t);
      Fire(k1)
  }

  lemma {:induction false} WithoutMembers(timers: seq<Timer>, t: nat)
    ensures forall x :: x in TimersWithout(timers, t) <==> x in timers && x.thread != t
  {
    if timers != [] {
      WithoutMembers(timers[1..], t);
      assert timers == [timers[0]] + timers[1..];
    }
  }

  predicate IsRun(k: Kernel, c: Current) {
    c.Thread? && c.id < |k.flags| && k.flags[c.id] == Run
  }

  /** The current thread gives up the processor. */
  predicate MustSwitch(k: Kernel) {
    k.current == Idle || !IsRun(k, k.current)
    || (k.current.id < |k.timeouts| && k.timeouts[k.current.id] < k.time)
  }

  /** The second half of __snow_sched: the head of the ready list runs next. */
  function Dispatch(k: Kernel): (k': Kernel) {
    if !MustSwitch(k) then k
    else
      var ready := Runnable(k);
      if ready == [] then k.(ready := ready, current := Idle)
      else
        var t := ready[0];
        k.(ready := ready[1..], current := Thread(t),
           timeouts := if t < |k.timeouts| then k.timeouts[t := k.time + SCHED_US] else k.timeouts)
  }

  /** __snow_sched */
  function Pass(k: Kernel): (k': Kernel)
    requires forall i :: 0 <= i < |k.timers| ==> k.timers[i].thread < |k.flags|
  {
    Dispatch(Fire(k))
  }

  // ---------- well-formed lists: what every step keeps ----------

  ghost predicate HasTimer(timers: seq<Timer>, t: nat) {
    exists i :: 0 <= i < |timers| && timers[i].thread == t
  }

  /** timer_list is sorted by time and has at most one timer per thread. */
  ghost predicate TimersOk(timers: seq<Timer>, n: nat) {
    && (forall i :: 0 <= i < |timers| ==> timers[i].thread < n)
    && (forall i, j :: 0 <= i < j < |timers| ==> timers[i].us <= timers[j].us && timers[i].thread != timers[j].thread)
  }

  /** Inside wait_get_timeout. */
  predicate InGet(pc: Pc) {
    pc.Getting? || pc.Parked?
  }

  predicate WaitsFor(k: Kernel, t: nat, o: nat)
    requires k.Sized()
  {
    t < |k.flags| && k.flags[t] == Waiting && InGet(k.pcs[t]) && k.pcs[t].obj == o
  }

  /** A timer is linked exactly for sleepers and for waiters with a deadline. */
  predicate Timed(k: Kernel, t: nat)
    requires k.Sized() && t < |k.flags|
  {
    || k.flags[t] == Sleeping
    || (k.flags[t] == Waiting && InGet(k.pcs[t]) && k.pcs[t].deadline.At?)
  }

  ghost predicate ReadyOk(k: Kernel)
    requires k.Sized()
  {
    && Distinct(k.ready)
    && (forall t :: t in k.ready ==> t < |k.flags|)
    && (forall t :: 0 <= t < |k.flags| ==> (t in k.ready <==> k.flags[t] == Run && k.current != Thread(t)))
  }

  ghost predicate WaitsOk(k: Kernel)
    requires k.Sized()
  {
    && (forall o :: 0 <= o < |k.waits| ==> Distinct(k.waits[o]))
    && (forall o, t :: 0 <= o < |k.waits| && t in k.waits[o] ==> WaitsFor(k, t, o))
    && (forall t :: 0 <= t < |k.flags| && k.flags[t] == Waiting ==> OnItsList(k, t))
  }

  ghost predicate OnItsList(k: Kernel, t: nat)
    requires k.Sized() && t < |k.flags|
  {
    InGet(k.pcs[t]) && k.pcs[t].obj < |k.waits| && t in k.waits[k.pcs[t].obj]
  }

  ghost predicate TimedOk(k: Kernel)
    requires k.Sized()
  {
    && TimersOk(k.timers, |k.flags|)
    && (forall t :: 0 <= t < |k.flags| ==> (HasTimer(k.timers, t) <==> Timed(k, t)))
  }

  ghost predicate CurrentOk(k: Kernel) {
    k.current.Thread? ==> k.current.id < |k.flags|
  }

  /** Every thread is in exactly one place: current, on the ready list, on one wait list,
      or asleep with a linked timer. */
  ghost predicate Inv(k: Kernel) {
    k.Sized() && CurrentOk(k) && ReadyOk(k) && WaitsOk(k) && TimedOk(k)
  }

  // ---------- list lemmas ----------

  lemma {:induction false} WithoutOk(list: seq<nat>, t: nat)
    requires Distinct(list)
    ensures Distinct(Without(list, t))
    ensures forall x :: x in Without(list, t) <==> x in list && x != t
  {
    if list != [] {
      assert list == [list[0]] + list[1..];
      var rest := Without(list[1..], t);
      WithoutOk(list[1..], t);
      forall j | 0 <= j < |rest|
        ensures rest[j] != list[0]
      {
        assert rest[j] in rest;
      }
    }
  }

  lemma {:induction false} TimersWithoutOk(timers: seq<Timer>, n: nat, t: nat)
    requires TimersOk(timers, n)
    ensures TimersOk(TimersWithout(timers, t), n)
    ensures forall x :: x in TimersWithout(timers, t) <==> x in timers && x.thread != t
  {
    if timers != [] {
      var x, rest := timers[0], timers[1..];
      assert timers == [x] + rest;
      TailTimersOk(timers, n);
      TimersWithoutOk(rest, n, t);
      PrependTimersOk(x, TimersWithout(rest, t), n);
    }
  }

  lemma TailTimersOk(timers: seq<Timer>, n: nat)
    requires timers != [] && TimersOk(timers, n)
    ensures TimersOk(timers[1..], n)
    ensures forall y :: y in timers[1..] ==> timers[0].us <= y.us && timers[0].thread != y.thread
  {
  }

  lemma PrependTimersOk(x: Timer, rest: seq<Timer>, n: nat)
    requires x.thread < n && TimersOk(rest, n)
    requires forall y :: y in rest ==> x.us <= y.us && x.thread != y.thread
    ensures TimersOk([x] + rest, n)
  {
  }

  lemma HasTimerIn(timers: seq<Timer>, u: nat)
    ensures HasTimer(timers, u) <==> exists x :: x in timers && x.thread == u
  {
    if HasTimer(timers, u) {
      var i :| 0 <= i < |timers| && timers[i].thread == u;
      assert timers[i] in timers;
    }
  }

  lemma HasTimerWithout(timers: seq<Timer>, n: nat, t: nat, u: nat)
    requires TimersOk(timers, n)
    ensures HasTimer(TimersWithout(timers, t), u) <==> HasTimer(timers, u) && u != t
  {
    TimersWithoutOk(timers, n, t);
    HasTimerIn(timers, u);
    HasTimerIn(TimersWithout(timers, t), u);
  }

  lemma {:induction false} TimerInsertMembers(timers: seq<Timer>, x: Timer)
    ensures forall y :: y in TimerInsert(timers, x) <==> y in timers || y == x
  {
    if timers != [] && x.us > timers[0].us {
      assert timers == [timers[0]] + timers[1..];
      TimerInsertMembers(timers[1..], x);
    }
  }

  lemma {:induction false} TimerInsertOk(timers: seq<Timer>, n: nat, x: Timer)
    requires TimersOk(timers, n) && x.thread < n && !HasTimer(timers, x.thread)
    ensures TimersOk(TimerInsert(timers, x), n)
  {
    if timers != [] && x.us > timers[0].us {
      var rest := TimerInsert(timers[1..], x);
      assert !HasTimer(timers[1..], x.thread) by {
        assert forall i :: 0 <= i < |timers[1..]| ==> timers[1..][i] == timers[i + 1];
      }
      TimerInsertOk(timers[1..], n, x);
      TimerInsertMembers(timers[1..], x);
      assert forall y :: y in rest ==> timers[0].us <= y.us && timers[0].thread != y.thread;
      TimerPrepend(timers[0], rest, n);
    }
  }

  lemma TimerPrepend(x: Timer, rest: seq<Timer>, n: nat)
    requires TimersOk(rest, n) && x.thread < n && forall y :: y in rest ==> x.us <= y.us && x.thread != y.thread
    ensures TimersOk([x] + rest, n)
  {
    assert forall j :: 0 <= j < |rest| ==> rest[j] in rest;
  }

  lemma HasTimerInsert(timers: seq<Timer>, x: Timer, u: nat)
    ensures HasTimer(TimerInsert(timers, x), u) <==> HasTimer(timers, u) || u == x.thread
  {
    TimerInsertMembers(timers, x);
    HasTimerIn(timers, u);
    HasTimerIn(TimerInsert(timers, x), u);
    assert x in TimerInsert(timers, x);
  }

  // ---------- snow_wakeup keeps every thread in one place ----------

  lemma WakeReady(k: Kernel, t: nat)
    requires Inv(k) && t < |k.flags| && k.flags[t] != Run && k.current != Thread(t)
    ensures Wakeup(k, t).Sized() && ReadyOk(Wakeup(k, t))
  {
    WithoutOk(k.ready, t);
    var k' := Wakeup(k, t);
    assert k'.ready[|k'.ready| - 1] == t;
  }

  lemma WakeWaits(k: Kernel, t: nat)
    requires Inv(k) && t < |k.flags| && k.flags[t] != Run
    ensures Wakeup(k, t).Sized() && WaitsOk(Wakeup(k, t))
  {
    var k' := Wakeup(k, t);
    forall o | 0 <= o < |k.waits|
      ensures Distinct(k'.waits[o])
      ensures forall u :: u in k'.waits[o] <==> u in k.waits[o] && u != t
    {
      WithoutOk(k.waits[o], t);
    }
    forall o, u | 0 <= o < |k'.waits| && u in k'.waits[o]
      ensures WaitsFor(k', u, o)
    {
      assert WaitsFor(k, u, o);
    }
    forall u | 0 <= u < |k'.flags| && k'.flags[u] == Waiting
      ensures OnItsList(k', u)
    {
      assert OnItsList(k, u);
    }
  }

  lemma WakeTimed(k: Kernel, t: nat)
    requires Inv(k) && t < |k.flags|
    ensures Wakeup(k, t).Sized() && TimedOk(Wakeup(k, t))
  {
    var k' := Wakeup(k, t);
    TimersWithoutOk(k.timers, |k.flags|, t);
    forall u | 0 <= u < |k'.flags|
      ensures HasTimer(k'.timers, u) <==> Timed(k', u)
    {
      HasTimerWithout(k.timers, |k.flags|, t, u);
    }
  }

  lemma WakeupKeepsInv(k: Kernel, t: nat)
    requires Inv(k) && t < |k.flags| && k.current != Thread(t)
    ensures Inv(Wakeup(k, t))
  {
    WakeTimed(k, t);
    if k.flags[t] != Run {
      WakeReady(k, t);
      WakeWaits(k, t);
    }
  }

  // ---------- the scheduling pass ----------

  /** The wakeup timer of the thread that is still current has expired. */
  ghost predicate CurrentFires(k: Kernel) {
    exists i :: 0 <= i < |k.timers| && k.timers[i].us <= k.time && k.current == Thread(k.timers[i].thread)
  }

  /** Firing the first timer is waking its thread. */
  lemma FireOne(k: Kernel)
    requires Inv(k) && k.timers != []
    ensures Wakeup(k.(timers := k.timers[1..]), k.timers[0].thread) == Wakeup(k, k.timers[0].thread)
  {
  }

  lemma {:induction false} FireKeepsInv(k: Kernel)
    requires Inv(k) && !CurrentFires(k)
    ensures Inv(Fire(k)) && Fire(k).current == k.current && Fire(k).time == k.time
    ensures |Fire(k).flags| == |k.flags|
    ensures forall i :: 0 <= i < |Fire(k).timers| ==> Fire(k).timers[i].us > k.time
    decreases |k.timers|
  {
    if k.timers != [] && k.timers[0].us <= k.time {
      var t := k.timers[0].thread;
      var k1 := Wakeup(k, t);
      assert k.current != Thread(t);
      FireOne(k);
      WakeupKeepsInv(k, t);
      WithoutMembers(k.timers[1..], t);
      NoLaterFire(k, k1, t);
      FireKeepsInv(k1);
    }
  }

  lemma NoLaterFire(k: Kernel, k1: Kernel, t: nat)
    requires !CurrentFires(k) && k1.current == k.current && k1.time == k.time
    requires k1.timers == TimersWithout(k.timers, t)
    ensures !CurrentFires(k1)
  {
    WithoutMembers(k.timers, t);
    forall i | 0 <= i < |k1.timers|
      ensures !(k1.timers[i].us <= k1.time && k1.current == Thread(k1.timers[i].thread))
    {
      assert k1.timers[i] in k1.timers;
      var j :| 0 <= j < |k.timers| && k.timers[j] == k1.timers[i];
    }
  }

  lemma PopHead(list: seq<nat>)
    requires Distinct(list) && list != []
    ensures Distinct(list[1..]) && forall x :: x in list[1..] <==> x in list && x != list[0]
  {
    assert list == [list[0]] + list[1..];
  }

  /** The list of all runnable threads, with a preempted current one at its end. */
  function Runnable(k: Kernel): (list: seq<nat>) {
    if IsRun(k, k.current) then k.ready + [k.current.id] else k.ready
  }

  lemma DispatchReady(k: Kernel)
    requires Inv(k) && MustSwitch(k)
    ensures ReadyOk(Dispatch(k)) && CurrentOk(Dispatch(k))
  {
    if Runnable(k) != [] {
      PopHead(Runnable(k));
      assert Runnable(k)[0] in Runnable(k);
    }
  }

  lemma DispatchKeepsInv(k: Kernel)
    requires Inv(k)
    ensures Inv(Dispatch(k))
  {
    if MustSwitch(k) {
      DispatchReady(k);
      SameWaits(k, Dispatch(k));
    }
  }

  /** Waits and timers do not depend on who is current or ready. */
  lemma SameWaits(k: Kernel, k': Kernel)
    requires Inv(k) && k'.Sized() && k'.flags == k.flags && k'.pcs == k.pcs && k'.waits == k.waits && k'.timers == k.timers
    ensures WaitsOk(k') && TimedOk(k')
  {
    forall o, t | 0 <= o < |k'.waits| && t in k'.waits[o]
      ensures WaitsFor(k', t, o)
    {
      assert WaitsFor(k, t, o);
    }
    forall t | 0 <= t < |k'.flags| && k'.flags[t] == Waiting
      ensures OnItsList(k', t)
    {
      assert OnItsList(k, t);
    }
    forall t | 0 <= t < |k'.flags|
      ensures HasTimer(k'.timers, t) <==> Timed(k', t)
    {
      assert Timed(k', t) == Timed(k, t);
    }
  }

  /** The current thread is on the ready list although it is running: what a pass leaves
      when it fires the timer of the current thread. */
  predicate Doubled(k: Kernel, c: nat) {
    c < |k.flags| && k.flags[c] == Run && c in k.ready && k.current == Thread(c)
  }

  lemma {:induction false} WithoutKeeps(list: seq<nat>, t: nat, c: nat)
    requires c in list && c != t
    ensures c in Without(list, t)
  {
    if list[0] != c {
      WithoutKeeps(list[1..], t, c);
    }
  }

  lemma {:induction false} FireKeepsDoubled(k: Kernel, c: nat)
    requires Doubled(k, c) && forall i :: 0 <= i < |k.timers| ==> k.timers[i].thread < |k.flags|
    ensures Doubled(Fire(k), c)
    decreases |k.timers|
  {
    if k.timers != [] && k.timers[0].us <= k.time {
      var t := k.timers[0].thread;
      WithoutMembers(k.timers[1..], t);
      if t != c {
        WithoutKeeps(k.ready, t, c);
      }
      FireKeepsDoubled(Wakeup(k.(timers := k.timers[1..]), t), c);
    }
  }

  lemma {:induction false} FireDoubles(k: Kernel, c: nat)
    requires Inv(k) && CurrentFires(k) && k.current == Thread(c)
    ensures Doubled(Fire(k), c)
    decreases |k.timers|
  {
    var i :| 0 <= i < |k.timers| && k.timers[i].us <= k.time && k.current == Thread(k.timers[i].thread);
    assert HasTimer(k.timers, c) && Timed(k, c);
    var t := k.timers[0].thread;
    var k1 := Wakeup(k, t);
    assert i > 0 ==> k.timers[0].us <= k.timers[i].us;
    FireUnfolds(k);
    if i == 0 {
      WokenTwice(k, c);
      FireKeepsDoubled(k1, c);
    } else {
      WakeupKeepsInv(k, t);
      StillFires(k, k1, i);
      FireDoubles(k1, c);
    }
  }

  lemma FireUnfolds(k: Kernel)
    requires Inv(k) && k.timers != [] && k.timers[0].us <= k.time
    ensures var k1 := Wakeup(k, k.timers[0].thread);
      && |k1.timers| < |k.timers|
      && (forall i :: 0 <= i < |k1.timers| ==> k1.timers[i].thread < |k1.flags|)
      && Fire(k) == Fire(k1)
  {
    FireOne(k);
    WithoutMembers(k.timers[1..], k.timers[0].thread);
  }

  lemma WokenTwice(k: Kernel, c: nat)
    requires Inv(k) && k.current == Thread(c) && Timed(k, c)
    ensures Doubled(Wakeup(k, c), c)
  {
    var ready := Wakeup(k, c).ready;
    assert ready[|ready| - 1] == c;
  }

  lemma StillFires(k: Kernel, k1: Kernel, i: nat)
    requires Inv(k) && 0 < i < |k.timers| && k.timers[i].us <= k.time && k.current == Thread(k.timers[i].thread)
    requires k1.current == k.current && k1.time == k.time
    requires k1.timers == TimersWithout(k.timers, k.timers[0].thread)
    ensures CurrentFires(k1)
  {
    WithoutMembers(k.timers, k.timers[0].thread);
    assert k.timers[i] in k1.timers;
    var j :| 0 <= j < |k1.timers| && k1.timers[j] == k.timers[i];
  }

  lemma DispatchDoubled(k: Kernel, c: nat)
    requires Doubled(k, c)
    ensures !Inv(Dispatch(k))
  {
    var k' := Dispatch(k);
    if MustSwitch(k) {
      var i :| 0 <= i < |k.ready| && k.ready[i] == c;
      var ready := k.ready + [c];
      if i == 0 {
        assert ready[1..][|ready| - 2] == c;
        assert c in k'.ready && k'.current == Thread(c);
      } else {
        assert k'.ready[i - 1] == c && k'.ready[|k.ready| - 1] == c;
        assert !Distinct(k'.ready);
      }
    }
  }

  /** A pass keeps every thread in one place if and only if it does not fire the wakeup
      timer of the thread that is still current. */
  lemma PassKeepsInvIff(k: Kernel)
    requires Inv(k)
    ensures Inv(Pass(k)) <==> !CurrentFires(k)
  {
    if CurrentFires(k) {
      FireDoubles(k, k.current.id);
      DispatchDoubled(Fire(k), k.current.id);
    } else {
      FireKeepsInv(k);
      DispatchKeepsInv(Fire(k));
    }
  }

  /** Round robin: a thread that must give way goes to the end of the ready list, and the
      thread at its head, the one that became ready first, runs; the idle thread runs
      only when no thread is ready. */
  lemma DispatchIsFifo(k: Kernel)
    requires Inv(k) && MustSwitch(k)
    ensures var k' := Dispatch(k);
      && (k.ready != [] ==> k'.current == Thread(k.ready[0]))
      && (k.ready == [] ==> k'.current == if IsRun(k, k.current) then k.current else Idle)
      && (k'.current == Idle <==> forall t :: 0 <= t < |k.flags| ==> k.flags[t] != Run)
      && (k'.current.Thread? ==> k'.ready == (k.ready + (if IsRun(k, k.current) then [k.current.id] else []))[1..])
  {
    assert Runnable(k) == k.ready + (if IsRun(k, k.current) then [k.current.id] else []);
    if Runnable(k) != [] {
      assert Runnable(k)[0] in Runnable(k);
    }
  }
}
