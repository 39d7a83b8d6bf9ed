/** The kernel of snow_os/snow.c as it changes its memory step by step, proved against
    the functions of Snow and SnowSync.

    The lists are linked nodes.  The layout, with the sequences that the functions speak
    of, is ghost: Valid says that the links spell them and that every node is in exactly
    one ring.  Program counters are ghost too. */
module SnowProgram {
  import opened Basics
  import opened Snow
  import opened SnowSync
  import SnowTime
  import opened SnowList
  import opened SnowLinks

  class Machine {
    const sched: Node            // sched_list
    const timerList: Node        // timer_list
    const heads: seq<Node>       // the lists of semaphores and mutexes
    var links: seq<Node>         // each thread's list
    var timerLinks: seq<Node>    // each thread's wakeup_timer.list
    var expiry: seq<int>         // each thread's wakeup_timer.us
    var flags: seq<Flag>
    var timeouts: seq<int>
    var objects: seq<Object>
    var current: Current
    var time: nat                // sys_time_us
    ghost var pcs: seq<Pc>
    ghost var at: Layout
    ghost var repr: set<Node>    // all nodes

    ghost function State(): (k: Kernel)
      reads this
    {
      Kernel(flags, pcs, timeouts, at.ready, TimersOf(at.timers, expiry), at.waits, objects, current, time)
    }

    ghost predicate Sizes()
      reads this
    {
      && |flags| == |pcs| == |timeouts| == |links| == |timerLinks| == |expiry|
      && |objects| == |heads| == |at.waits|
      && (forall i :: 0 <= i < |at.timers| ==> at.timers[i] < |links|)
      && (forall i :: 0 <= i < |at.ready| ==> at.ready[i] < |links|)
      && (current.Thread? ==> current.id < |flags|)
    }

    /** The layout is about this kernel's nodes. */
    ghost predicate Placed()
      reads this
    {
      && at.sched == sched && at.timerList == timerList && at.heads == heads
      && at.links == links && at.timerLinks == timerLinks && at.nodes == repr
    }

    /** Every node is in exactly one ring, and the rings spell ready, timers and waits. */
    ghost predicate Valid()
      reads this, repr
    {
      Sizes() && Placed() && at.Linked(MemoryOf(repr))
    }

    /** snow_start, with the objects that init functions made */
    constructor (objects: seq<Object>)
      requires forall o :: 0 <= o < |objects| ==> Fresh(objects[o])
      ensures Valid() && Init(State()) && State().objects == objects && fresh(repr)
    {
      var s, t, hs, l := MakeLists(|objects|);
      sched, timerList, heads, at, repr := s, t, hs, l, l.nodes;
      links, timerLinks, expiry := [], [], [];
      flags, timeouts, pcs := [], [], [];
      this.objects := objects;
      current := Idle;
      time := 0;
    }

    /** list_remove of thread t's node, whichever list it is on */
    method Unlink(t: nat)
      requires Valid() && t < |links|
      modifies this`at, repr
      ensures Valid() && at == Unlinked(old(at), t)
    {
      WithoutBelow(at.ready, t, |links|);
      UnlinkThread(links[t], repr, at, t);
      ghost var m := MemoryOf(repr);
      at := Unlinked(at, t);
      assert MemoryOf(repr) == m;
    }

    /** list_remove of thread t's timer */
    method UnlinkWakeup(t: nat)
      requires Valid() && t < |links|
      modifies this`at, repr
      ensures Valid() && at == old(at).(timers := Without(old(at.timers), t))
    {
      WithoutBelow(at.timers, t, |links|);
      UnlinkTimer(timerLinks[t], repr, at, t);
      ghost var m := MemoryOf(repr);
      at := at.(timers := Without(at.timers, t));
      assert MemoryOf(repr) == m;
    }

    /** list_fifo_put of a thread on sched_list, which breaks the list if the thread is on
        it already */
    method MakeReady(t: nat)
      requires Valid() && t < |links| && !at.Waits(t)
      modifies this`at, repr
      ensures t !in old(at.ready) ==> Valid() && at == old(at).(ready := old(at.ready) + [t])
      ensures t in old(at.ready) ==> at == old(at) && Twice(at)
    {
      PutReady(links[t], sched, repr, at, t);
      ghost var m := MemoryOf(repr);
      if t !in at.ready {
        at := at.(ready := at.ready + [t]);
        assert MemoryOf(repr) == m;
      }
    }

    /** The first part of snow_wakeup: from whichever list it is on, t goes to the end of
        sched_list. */
    method Rouse(t: nat)
      requires Valid() && t < |flags|
      modifies this`flags, this`at, repr
      ensures Valid() && flags == old(flags)[t := Run]
      ensures at == Unlinked(old(at), t).(ready := Without(old(at.ready), t) + [t])
    {
      Unlink(t);
      UnlinkedLoose(old(at), t);
      MakeReady(t);
      ghost var m := MemoryOf(repr);
      flags := flags[t := Run];
      assert MemoryOf(repr) == m;
    }

    /** snow_wakeup */
    method Wake(t: nat)
      requires Valid() && t < |flags|
      modifies this`flags, this`at, repr
      ensures Valid() && State() == Wakeup(old(State()), t)
    {
      if flags[t] != Run {
        Rouse(t);
      }
      TimersOfWithout(at.timers, t, expiry);
      UnlinkWakeup(t);
    }

    // ---------- timers ----------

    /** snow_timer_add behind the i-th node of timer_list */
    method LinkTimer(t: nat, s: Node, ghost i: nat)
      requires Valid() && t < |links| && t !in at.timers && i <= |at.timers|
      requires s == if i == 0 then timerList else timerLinks[at.timers[i - 1]]
      modifies this`at, repr
      ensures Valid() && at == old(at).(timers := old(at.timers)[..i] + [t] + old(at.timers)[i..])
    {
      InsertTimer(timerLinks[t], s, s.next, repr, at, t, i);
      ghost var m := MemoryOf(repr);
      at := at.(timers := at.timers[..i] + [t] + at.timers[i..]);
      assert MemoryOf(repr) == m;
    }

    /** The walk of snow_timer_add */
    method FindPlace(x: int) returns (s: Node, ghost i: nat)
      requires Valid()
      ensures i <= |at.timers| && s == if i == 0 then timerList else timerLinks[at.timers[i - 1]]
      ensures (forall j :: 0 <= j < i ==> expiry[at.timers[j]] < x) && (i < |at.timers| ==> x <= expiry[at.timers[i]])
    {
      Open(at, MemoryOf(repr));
      TimersRing(at, repr);
      s, i := WalkTimers(timerList, at.RingOf(OnTimers), at.timers, expiry, x);
    }

    /** The time of a timer that is not linked */
    method SetExpiry(t: nat, us: int)
      requires Valid() && t < |links| && t !in at.timers
      modifies this`expiry
      ensures Valid() && State() == old(State()) && expiry == old(expiry)[t := us]
    {
      ghost var m := MemoryOf(repr);
      ExpiryKept(at.timers, t, expiry, expiry[t := us]);
      expiry := expiry[t := us];
      assert MemoryOf(repr) == m;
    }

    /** snow_timer_add; the insertion into an empty list is the same. */
    method TimerAdd(t: nat, us: nat)
      requires Valid() && t < |links| && t !in at.timers
      modifies this`expiry, this`at, repr
      ensures Valid() && at == old(at).(timers := at.timers)
      ensures State() == old(State()).(timers := TimerInsert(old(State().timers), Timer(t, time + us)))
    {
      SetExpiry(t, time + us);
      PlaceTimer(t);
    }

    method PlaceTimer(t: nat)
      requires Valid() && t < |links| && t !in at.timers
      modifies this`at, repr
      ensures Valid() && at == old(at).(timers := at.timers)
      ensures TimersOf(at.timers, expiry) == TimerInsert(TimersOf(old(at.timers), expiry), Timer(t, expiry[t]))
    {
      var s, i := FindPlace(expiry[t]);
      TimersOfInsert(at.timers, t, expiry, i);
      LinkTimer(t, s, i);
    }

    /** The thread of the first timer of timer_list */
    method FirstTimer() returns (t: Option<nat>)
      requires Valid()
      ensures t == if at.timers == [] then None else Some(at.timers[0])
    {
      Open(at, MemoryOf(repr));
      TimersRing(at, repr);
      var empty := ListEmpty(timerList, at.RingOf(OnTimers));
      if empty {
        return None;
      }
      t := Some(timerList.next.id.thread);
    }

    /** One round of the loop that fires timers */
    method FireFirst(t: nat)
      requires Valid() && at.timers != [] && at.timers[0] == t && expiry[t] <= time
      modifies this`flags, this`at, repr
      ensures Valid() && |at.timers| < |old(at.timers)| && Fire(State()) == Fire(old(State()))
    {
      FirstGone(at, repr);
      TimersOfWithout(at.timers, t, expiry);
      TimersOfTail(at.timers, expiry);
      UnlinkWakeup(t);
      Wake(t);
    }

    /** The loop of __snow_sched that fires expired timers */
    method FireTimers()
      requires Valid()
      modifies this`flags, this`at, repr
      ensures Valid() && State() == Fire(old(State()))
    {
      var t := FirstTimer();
      while t.Some? && expiry[t.value] <= time
        invariant Valid() && t == if at.timers == [] then None else Some(at.timers[0])
        invariant Fire(State()) == Fire(old(State()))
        decreases |at.timers|
      {
        FireFirst(t.value);
        t := FirstTimer();
      }
    }

    // ---------- scheduling ----------

    /** list_fifo_get of sched_list; `twice` when a thread has been put there again. */
    method TakeReady(ghost twice: bool) returns (t: Option<nat>)
      requires if twice then Sizes() && Placed() && Twice(at) else Valid()
      modifies this`at, repr
      ensures t == if old(at.ready) == [] then None else Some(old(at.ready[0]))
      ensures if twice then Sizes() && Corrupt(at) && at == old(at)
        else Valid() && at == old(at).(ready := if old(at.ready) == [] then [] else old(at.ready)[1..])
    {
      t := GetReady(sched, repr, at, twice);
      ghost var m := MemoryOf(repr);
      if !twice && at.ready != [] {
        at := at.(ready := at.ready[1..]);
        assert MemoryOf(repr) == m;
      }
    }

    /** The rest of __snow_sched.  If the current thread must give way, can run, and is on
        sched_list already, it is put there twice, and the list is lost. */
    method Switch()
      requires Valid() && (IsRun(State(), current) ==> !at.Waits(current.id))
      modifies this`at, this`current, this`timeouts, repr
      ensures var k := old(State());
        if MustSwitch(k) && IsRun(k, k.current) && k.current.id in k.ready then Corrupt(at) && at == old(at)
        else Valid() && State() == Dispatch(k)
    {
      if current == Idle || flags[current.id] != Run || timeouts[current.id] < time {
        GiveWay();
      }
    }

    method GiveWay()
      requires Valid() && MustSwitch(State()) && (IsRun(State(), current) ==> !at.Waits(current.id))
      modifies this`at, this`current, this`timeouts, repr
      ensures var k := old(State());
        if IsRun(k, k.current) && k.current.id in k.ready then Corrupt(at) && at == old(at)
        else Valid() && State() == Dispatch(k)
    {
      ghost var twice := IsRun(State(), current) && current.id in at.ready;
      if current != Idle && flags[current.id] == Run {
        MakeReady(current.id);
      }
      var t := TakeReady(twice);
      StartThread(t);
    }

    /** The new current thread and its time slice */
    method StartThread(t: Option<nat>)
      requires Sizes() && (t.Some? ==> t.value < |timeouts|)
      modifies this`current, this`timeouts
      ensures old(Valid()) ==> Valid()
      ensures current == (if t.Some? then Thread(t.value) else Idle)
      ensures timeouts == if t.Some? then old(timeouts)[t.value := time + SCHED_US] else old(timeouts)
    {
      ghost var m := MemoryOf(repr);
      if t.Some? {
        current := Thread(t.value);
        timeouts := timeouts[t.value := time + SCHED_US];
      } else {
        current := Idle;
      }
      assert MemoryOf(repr) == m;
    }

    /** __snow_sched.  It leaves every node in one ring and every thread in one place
        exactly when it does not fire the wakeup timer of the thread that is still current;
        if it does, that thread stays on sched_list while it runs or is put there twice. */
    method Sched()
      requires Valid() && Inv(State())
      modifies this`flags, this`at, this`current, this`timeouts, repr
      ensures Valid() && Inv(State()) <==> !CurrentFires(old(State()))
      ensures !CurrentFires(old(State())) ==> State() == Pass(old(State()))
      ensures CurrentFires(old(State())) && MustSwitch(Fire(old(State()))) ==> Corrupt(at)
    {
      ghost var k := State();
      PassOutcome(k);
      FireTimers();
      NotWaiting(at, repr, State());
      Switch();
      if Corrupt(at) {
        CorruptFitsNothing(at, at);
      }
    }

    /** __snow_tick_handler, then the pass */
    method TickHandler()
      requires Valid() && Inv(State())
      modifies this`time, this`flags, this`at, this`current, this`timeouts, repr
      ensures Valid() && Inv(State()) <==> !CurrentFires(BeforePass(old(State()), Tick))
      ensures Enabled(old(State()), Tick) ==> State() == Step(old(State()), Tick)
    {
      BeforePassKeepsInv(State(), Tick);
      CountTime();
      Sched();
    }

    method CountTime()
      requires Valid()
      modifies this`time
      ensures Valid() && State() == BeforePass(old(State()), Tick)
    {
      ghost var m := MemoryOf(repr);
      time := time + TICK_US;
      assert MemoryOf(repr) == m;
    }

    /** snow_sched: the system call sets the time slice to 0, then the pass */
    method SchedCall()
      requires Valid() && Inv(State()) && current.Thread?
      modifies this`pcs, this`flags, this`at, this`current, this`timeouts, repr
      ensures Valid() && Inv(State()) <==> !CurrentFires(BeforePass(old(State()), Yield))
      ensures Enabled(old(State()), Yield) ==> State() == Step(old(State()), Yield)
    {
      BeforePassKeepsInv(State(), Yield);
      GiveUpSlice();
      Sched();
    }

    method GiveUpSlice()
      requires Valid() && current.Thread?
      modifies this`pcs, this`timeouts
      ensures Valid() && State() == BeforePass(old(State()), Yield)
    {
      ghost var m := MemoryOf(repr);
      pcs := BeforePass(State(), Yield).pcs;
      timeouts := timeouts[current.id := 0];
      assert MemoryOf(repr) == m;
    }

    /** snow_usleep up to snow_sched; the idle thread cannot sleep */
    method Sleep(us: nat)
      requires Valid() && Inv(State()) && CurrentRuns(State())
      requires current == Idle || Enabled(State(), Usleep(us))
      modifies this`flags, this`expiry, this`at, this`pcs, repr
      ensures Valid()
      ensures State() == if current == Idle then old(State()) else Step(old(State()), Usleep(us))
    {
      if current == Idle {
        return;
      }
      NoTimer(State(), current.id, at.timers, expiry);
      TimerAdd(current.id, us);
      MarkCurrent(Sleeping, Yielding);
    }

    /** The flag of the current thread, and where it is */
    method MarkCurrent(flag: Flag, ghost pc: Pc)
      requires Valid() && current.Thread?
      modifies this`flags, this`pcs
      ensures Valid() && flags == old(flags)[current.id := flag] && pcs == old(pcs)[current.id := pc]
    {
      ghost var m := MemoryOf(repr);
      flags := flags[current.id := flag];
      pcs := pcs[current.id := pc];
      assert MemoryOf(repr) == m;
    }

    // ---------- semaphores and mutexes ----------

    /** sem_get or mutex_get */
    method Get(o: nat) returns (got: bool)
      requires current.Thread? && o < |objects|
      modifies this`objects
      ensures old(Valid()) ==> Valid()
      ensures got <==> Take(old(objects)[o], current.id).Some?
      ensures objects == if got then old(objects)[o := Take(old(objects)[o], current.id).value] else old(objects)
    {
      ghost var m := MemoryOf(repr);
      match objects[o] {
        case Sem(count) =>
          got := count > 0;
          if got {
            objects := objects[o := Sem(count - 1)];
          }
        case Mutex(thread, count) =>
          var owner := thread;
          if owner == Nobody {
            owner := By(current.id);
          }
          got := owner == By(current.id);
          if got {
            objects := objects[o := Mutex(owner, count + 1)];
          }
      }
      assert MemoryOf(repr) == m;
    }

    /** sem_put or mutex_put, by whichever thread */
    method Put(o: nat) returns (wake: bool)
      requires o < |objects|
      modifies this`objects
      ensures old(Valid()) ==> Valid()
      ensures objects == old(objects)[o := Give(old(objects)[o]).0] && wake == Give(old(objects)[o]).1
    {
      ghost var m := MemoryOf(repr);
      match objects[o] {
        case Sem(count) =>
          objects := objects[o := Sem(count + 1)];
          wake := true;
        case Mutex(thread, count) =>
          objects := objects[o := Mutex(thread, count - 1)];
          wake := count - 1 == 0;
          if wake {
            objects := objects[o := Mutex(Nobody, 0)];
          }
      }
      assert MemoryOf(repr) == m;
    }

    /** wait_get_timeout up to its label */
    method BeginWait(o: nat, us: nat) returns (deadline: Deadline)
      requires Valid() && Enabled(State(), BeginGet(o, us))
      modifies this`pcs
      ensures Valid() && State() == Step(old(State()), BeginGet(o, us))
      ensures pcs[current.id] == Getting(o, deadline, false)
      ensures forall later :: later >= time ==>
        (SnowTime.Elapsed(time, later, us) <==> deadline.At? && deadline.us <= later)
    {
      if us == 0 {
        deadline := At(0);
      } else if us == FOREVER {
        deadline := Never;
      } else {
        deadline := At(time + us);
      }
      ghost var m := MemoryOf(repr);
      pcs := pcs[current.id := Getting(o, deadline, false)];
      assert MemoryOf(repr) == m;
    }

    /** list_fifo_put of a thread that is on no list */
    method JoinWait(o: nat, t: nat)
      requires Valid() && o < |heads| && at.IsSlot(Loose(t))
      modifies this`at, repr
      ensures Valid() && at == old(at).(waits := old(at.waits)[o := old(at.waits[o]) + [t]])
    {
      PutWait(links[t], heads[o], repr, at, o, t);
      ghost var m := MemoryOf(repr);
      at := at.(waits := at.waits[o := at.waits[o] + [t]]);
      assert MemoryOf(repr) == m;
    }

    /** list_fifo_get of a wait list */
    method LeaveWait(o: nat) returns (t: nat)
      requires Valid() && o < |heads| && at.waits[o] != []
      modifies this`at, repr
      ensures Valid() && t == old(at.waits[o][0]) && at == old(at).(waits := old(at.waits)[o := old(at.waits[o])[1..]])
    {
      t := GetWait(heads[o], repr, at, o);
      ghost var m := MemoryOf(repr);
      at := at.(waits := at.waits[o := at.waits[o][1..]]);
      assert MemoryOf(repr) == m;
    }

    /** wait_get_timeout from its label to its return, or to snow_sched when it parks */
    method TryToGet(o: nat, deadline: Deadline) returns (returned: bool, ret: int)
      requires Valid() && Inv(State()) && CurrentRuns(State()) && Enabled(State(), TryGet)
      requires pcs[current.id].obj == o && pcs[current.id].deadline == deadline
      modifies this`objects, this`flags, this`expiry, this`at, this`pcs, repr
      ensures Valid() && State() == Step(old(State()), TryGet)
      ensures returned <==> pcs[current.id] == User
      ensures returned ==> ret == if Gets(old(State()), TryGet, o, current.id) then 0 else -1
      ensures !returned ==> at.waits[o] == old(at.waits[o]) + [current.id]
    {
      IsLoose(at, repr, State());
      NoTimer(State(), current.id, at.timers, expiry);
      returned, ret := TakeOrExpire(o, deadline);
      if !returned {
        ParkCurrent(o, deadline);
      }
    }

    /** The part of wait_get_timeout before the caller is queued */
    method TakeOrExpire(o: nat, deadline: Deadline) returns (returned: bool, ret: int)
      requires Valid() && CurrentRuns(State()) && Enabled(State(), TryGet)
      requires pcs[current.id].obj == o && pcs[current.id].deadline == deadline
      modifies this`objects, this`flags, this`pcs
      ensures Valid() && returned == (Take(old(objects)[o], current.id).Some? || Expires(deadline))
      ensures State() == if returned then Step(old(State()), TryGet) else old(State())
      ensures returned ==> ret == if Take(old(objects)[o], current.id).Some? then 0 else -1
    {
      var got := Get(o);
      returned := got || Expires(deadline);
      ret := if got then 0 else -1;
      if returned {
        MarkCurrent(flags[current.id], User);
      }
    }

    /** The part of wait_get_timeout that queues the caller */
    method ParkCurrent(o: nat, deadline: Deadline)
      requires Valid() && current.Thread? && o < |heads| && !Expires(deadline)
      requires at.IsSlot(Loose(current.id)) && current.id !in at.timers
      modifies this`flags, this`expiry, this`at, this`pcs, repr
      ensures Valid() && State() == Park(old(State()), current.id, o, deadline)
    {
      JoinWait(o, current.id);
      if deadline.At? {
        TimerAdd(current.id, deadline.us - time);
      }
      MarkCurrent(Waiting, Parked(o, deadline, false));
    }

    predicate Expires(deadline: Deadline)
      reads this
    {
      deadline.At? && deadline.us <= time
    }

    /** wait_put, called by snow_sem_up and snow_mutex_unlock, up to snow_sched */
    method WaitPut(o: nat) returns (ret: bool)
      requires Valid() && Enabled(State(), Release(o))
      modifies this`objects, this`flags, this`at, this`pcs, repr
      ensures Valid() && State() == Step(old(State()), Release(o))
      ensures ret <==> Wakes(old(State()), o)
    {
      var put := Put(o);
      if !put {
        return false;
      }
      ret := WakeWaiter(o);
    }

    /** The first waiter, if there is one, is woken. */
    method WakeWaiter(o: nat) returns (ret: bool)
      requires Valid() && o < |objects| && current.Thread? && Named(State())
      modifies this`flags, this`at, this`pcs, repr
      ensures Valid() && (ret <==> old(at.waits[o]) != [])
      ensures State() == if old(at.waits[o]) == [] then old(State()) else WakeFirst(old(State()), o)
    {
      var empty := NoWaiter(o);
      if empty {
        return false;
      }
      var t := LeaveWait(o);
      Wake(t);
      NoteWoken(t);
      ret := true;
    }

    ghost method NoteWoken(t: nat)
      requires Valid() && t < |pcs| && current.Thread?
      modifies this`pcs
      ensures Valid() && State() == old(State()).(pcs := old(pcs)[t := Mark(old(pcs)[t])][current.id := Yielding])
    {
      var m := MemoryOf(repr);
      pcs := pcs[t := Mark(pcs[t])][current.id := Yielding];
      assert MemoryOf(repr) == m;
    }

    /** list_empty of a wait list */
    method NoWaiter(o: nat) returns (empty: bool)
      requires Valid() && o < |objects|
      ensures empty <==> at.waits[o] == []
    {
      Open(at, MemoryOf(repr));
      RingInside(at, OnWait(o));
      RingInMemory(repr, at.RingOf(OnWait(o)));
      empty := ListEmpty(heads[o], at.RingOf(OnWait(o)));
    }

    // ---------- threads ----------

    /** The end of snow_thread_create: a new thread, whose nodes are on no list, is put on
        sched_list. */
    method Create()
      requires Valid()
      modifies this, repr
      ensures Valid() && fresh(repr - old(repr))
      ensures State() == CreateStep(old(State()))
    {
      var t := |flags|;
      AddThread();
      MakeReady(t);
    }

    method AddThread()
      requires Valid()
      modifies this`links, this`timerLinks, this`expiry, this`flags, this`timeouts, this`pcs, this`at, this`repr
      ensures Valid() && fresh(repr - old(repr))
      ensures |links| == old(|flags|) + 1 && old(|flags|) !in at.ready && !at.Waits(old(|flags|))
      ensures var k := old(State());
        State() == k.(flags := k.flags + [Run], pcs := k.pcs + [User], timeouts := k.timeouts + [0])
    {
      var node, timer, l := NewNodes(|flags|, at, repr);
      Attach(node, timer, l);
    }

    method Attach(node: Node, timer: Node, ghost l: Layout)
      requires Valid() && l.Linked(MemoryOf(l.nodes)) && HasNew(at, node, timer, l)
      modifies this`links, this`timerLinks, this`expiry, this`flags, this`timeouts, this`pcs, this`at, this`repr
      ensures Valid() && at == l && repr == l.nodes && |links| == old(|flags|) + 1
      ensures var k := old(State());
        State() == k.(flags := k.flags + [Run], pcs := k.pcs + [User], timeouts := k.timeouts + [0])
    {
      AddNodes(node, timer, l);
      AddFields();
    }

    /** The nodes of the new thread */
    method AddNodes(node: Node, timer: Node, ghost l: Layout)
      requires Valid() && l.Linked(MemoryOf(l.nodes)) && HasNew(at, node, timer, l)
      modifies this`links, this`timerLinks, this`at, this`repr
      ensures Growing() && State() == old(State()) && at == l && repr == l.nodes
    {
      ghost var m := MemoryOf(l.nodes);
      links := links + [node];
      timerLinks := timerLinks + [timer];
      at := l;
      repr := l.nodes;
      assert MemoryOf(l.nodes) == m;
    }

    /** Valid, but the last thread has only its nodes. */
    ghost predicate Growing()
      reads this, repr
    {
      && |flags| == |pcs| == |timeouts| == |expiry| && |links| == |timerLinks| == |flags| + 1
      && |objects| == |heads| == |at.waits|
      && (forall i :: 0 <= i < |at.timers| ==> at.timers[i] < |flags|)
      && (forall i :: 0 <= i < |at.ready| ==> at.ready[i] < |flags|)
      && (current.Thread? ==> current.id < |flags|)
      && Placed() && at.Linked(MemoryOf(repr))
    }

    method AddFields()
      requires Growing()
      modifies this`expiry, this`flags, this`timeouts, this`pcs
      ensures Valid()
      ensures var k := old(State());
        State() == k.(flags := k.flags + [Run], pcs := k.pcs + [User], timeouts := k.timeouts + [0])
    {
      ghost var m := MemoryOf(repr);
      GrownExpiry(at.timers, expiry);
      expiry, flags := expiry + [0], flags + [Run];
      timeouts, pcs := timeouts + [0], pcs + [User];
      assert MemoryOf(repr) == m;
    }
  }

  lemma GrownExpiry(threads: seq<nat>, expiry: seq<int>)
    requires forall i :: 0 <= i < |threads| ==> threads[i] < |expiry|
    ensures TimersOf(threads, expiry + [0]) == TimersOf(threads, expiry)
  {
  }

  /** A thread that can run has no linked timer. */
  lemma NoTimer(k: Kernel, c: nat, threads: seq<nat>, expiry: seq<int>)
    requires Inv(k) && c < |k.flags| && k.flags[c] == Run && k.timers == TimersOf(threads, expiry)
    ensures c !in threads
  {
    assert !Timed(k, c) && !HasTimer(k.timers, c);
    forall i | 0 <= i < |threads|
      ensures threads[i] != c
    {
      assert k.timers[i].thread == threads[i];
    }
  }

  /** A current thread that can run is on no list. */
  lemma IsLoose(l: Layout, nodes: set<Node>, k: Kernel)
    requires l.Linked(MemoryOf(nodes)) && l.ready == k.ready && l.waits == k.waits && |l.links| == |k.flags|
    requires Inv(k) && IsRun(k, k.current)
    ensures l.IsSlot(Loose(k.current.id))
  {
    NotWaiting(l, nodes, k);
  }

  /** The current thread, if it can run, is on no wait list. */
  lemma NotWaiting(l: Layout, nodes: set<Node>, k: Kernel)
    requires l.Linked(MemoryOf(nodes)) && l.ready == k.ready && l.waits == k.waits
    requires Inv(k) || (k.current.Thread? && Doubled(k, k.current.id))
    ensures IsRun(k, k.current) ==> !l.Waits(k.current.id)
  {
    Open(l, MemoryOf(nodes));
    if Inv(k) && IsRun(k, k.current) {
      forall o | 0 <= o < |k.waits|
        ensures k.current.id !in k.waits[o]
      {
        assert k.current.id in k.waits[o] ==> WaitsFor(k, k.current.id, o);
      }
    }
  }

  /** What a pass from a state with every thread in one place comes to. */
  lemma PassOutcome(k: Kernel)
    requires Inv(k)
    ensures if CurrentFires(k) then k.current.Thread? && Doubled(Fire(k), k.current.id) && !Inv(Dispatch(Fire(k)))
            else Inv(Fire(k)) && Inv(Dispatch(Fire(k)))
    ensures !CurrentFires(k) ==> !(IsRun(Fire(k), Fire(k).current) && Fire(k).current.id in Fire(k).ready)
  {
    if CurrentFires(k) {
      FireDoubles(k, k.current.id);
      DispatchDoubled(Fire(k), k.current.id);
    } else {
      FireKeepsInv(k);
      DispatchKeepsInv(Fire(k));
    }
  }

  /** Removing the first timer leaves the tail. */
  lemma FirstGone(l: Layout, nodes: set<Node>)
    requires l.Linked(MemoryOf(nodes)) && l.nodes == nodes && l.timers != []
    ensures Without(l.timers, l.timers[0]) == l.timers[1..]
  {
    Open(l, MemoryOf(nodes));
    AllDiffer(MemoryOf(nodes), l.RingOf(OnTimers));
    DistinctThreads(l.timerList, l.timerLinks, l.timers);
    WithoutAt(l.timers, 0);
  }

  lemma TimersRing(l: Layout, nodes: set<Node>)
    requires l.InPlace(MemoryOf(nodes)) && l.nodes == nodes
    ensures IsRing(l.RingOf(OnTimers))
    ensures l.RingOf(OnTimers) == Ring(l.timerList, l.timerLinks, l.timers)
    ensures forall j :: 0 <= j < |l.timers| ==> l.RingOf(OnTimers)[j + 1].id == TimerLink(l.timers[j])
  {
    RingInside(l, OnTimers);
    RingInMemory(nodes, l.RingOf(OnTimers));
  }

  /** Behind every timer earlier than x */
  method WalkTimers(timerList: Node, ghost ring: seq<Node>, ghost threads: seq<nat>, expiry: seq<int>, x: int)
    returns (s: Node, ghost i: nat)
    requires IsRing(ring) && ring[0] == timerList && |ring| == |threads| + 1
    requires forall j :: 0 <= j < |threads| ==> ring[j + 1].id == TimerLink(threads[j]) && threads[j] < |expiry|
    ensures i <= |threads| && s == ring[i]
    ensures (forall j :: 0 <= j < i ==> expiry[threads[j]] < x) && (i < |threads| ==> x <= expiry[threads[i]])
  {
    s, i := timerList, 0;
    var l := timerList.next;
    while l != timerList && x > expiry[l.id.thread]
      invariant i <= |threads| && s == ring[i] && l == (if i < |threads| then ring[i + 1] else timerList)
      invariant l != timerList ==> i < |threads| && l.id == TimerLink(threads[i])
      invariant forall j :: 0 <= j < i ==> expiry[threads[j]] < x
      decreases |threads| - i
    {
      s := l;
      l := l.next;
      i := i + 1;
    }
  }

  /** The timers of a list of threads */
  function TimersOf(threads: seq<nat>, expiry: seq<int>): (timers: seq<Timer>)
    ensures |timers| == |threads| && forall i :: 0 <= i < |timers| ==> timers[i].thread == threads[i]
    ensures forall i :: 0 <= i < |timers| && threads[i] < |expiry| ==> timers[i].us == expiry[threads[i]]
  {
    seq(|threads|, i requires 0 <= i < |threads| => Timer(threads[i], if threads[i] < |expiry| then expiry[threads[i]] else 0))
  }

  lemma ExpiryKept(threads: seq<nat>, t: nat, expiry: seq<int>, expiry': seq<int>)
    requires t !in threads && |expiry'| == |expiry|
    requires forall u :: 0 <= u < |expiry| && u != t ==> expiry'[u] == expiry[u]
    ensures TimersOf(threads, expiry') == TimersOf(threads, expiry)
  {
    assert forall i :: 0 <= i < |threads| ==> threads[i] in threads;
  }

  lemma {:induction false} TimersOfWithout(threads: seq<nat>, t: nat, expiry: seq<int>)
    ensures TimersOf(Without(threads, t), expiry) == TimersWithout(TimersOf(threads, expiry), t)
  {
    if threads != [] {
      TimersOfWithout(threads[1..], t, expiry);
      TimersOfTail(threads, expiry);
    }
  }

  lemma TimersOfTail(threads: seq<nat>, expiry: seq<int>)
    requires threads != []
    ensures TimersOf(threads, expiry)[1..] == TimersOf(threads[1..], expiry)
  {
  }

  lemma TimersOfInsert(threads: seq<nat>, t: nat, expiry: seq<int>, i: nat)
    requires t < |expiry| && i <= |threads| && forall j :: 0 <= j < |threads| ==> threads[j] < |expiry|
    requires (forall j :: 0 <= j < i ==> expiry[threads[j]] < expiry[t]) && (i < |threads| ==> expiry[t] <= expiry[threads[i]])
    ensures TimersOf(threads[..i] + [t] + threads[i..], expiry) == TimerInsert(TimersOf(threads, expiry), Timer(t, expiry[t]))
  {
    TimerInsertAt(TimersOf(threads, expiry), Timer(t, expiry[t]), i);
  }
}
