/** The work queue of posix_multithread/programs_src/workq.c.  A step is one critical
    section.  Items are named by the order in which workq_add accepted them.  `idle` is
    never changed by the source, so its tests are always false and no step signals an
    idle server: a sleeping server comes back by its timeout or spuriously. */
module WorkQueue {
  import opened Counting

  type Item = nat

  datatype Server =
    | Created                                  // not yet past its first lock
    | Waiting(woken: bool)                     // inside pthread_cond_timedwait
    | Running(item: Item, timedOut: bool)      // the engine runs, mutex released
    | Exited

  datatype Client =
    | Calm
    | Adding                                   // workq_add has passed its validity test

  datatype Destroyer = NotCalled | DestroyWait(woken: bool) | Returned

  /** `accepted`, `started` and `executed` are history: how many items were accepted and
      dequeued, and which ones the engine has finished, in order. */
  datatype State = State(
    valid: bool, quit: bool, parallelism: int, counter: int,
    queue: seq<Item>, servers: seq<Server>, clients: seq<Client>, destroyer: Destroyer,
    accepted: nat, started: nat, executed: seq<Item>)

  predicate Initial(s: State) {
    && s.valid && !s.quit && s.parallelism >= 1 && s.counter == 0
    && s.queue == [] && s.servers == [] && s.destroyer == NotCalled
    && (forall c :: 0 <= c < |s.clients| ==> s.clients[c] == Calm)
    && s.accepted == 0 && s.started == 0 && s.executed == []
  }

  // ---------- workq_server ----------

  /** counter-- and, when asked to quit and last, the broadcast that wakes the destroyer. */
  function Leave(s: State, t: nat): (s': State)
    requires t < |s.servers|
  {
    var s1 := s.(counter := s.counter - 1, servers := s.servers[t := Exited]);
    if s.quit && s1.counter == 0 && s1.destroyer.DestroyWait?
    then s1.(destroyer := DestroyWait(true)) else s1
  }

  /** After the wait loop: take an item, or leave. */
  function Serve(s: State, t: nat, timedOut: bool): (s': State)
    requires t < |s.servers|
  {
    if s.queue != [] then
      s.(queue := s.queue[1..], servers := s.servers[t := Running(s.queue[0], timedOut)], started := s.started + 1)
    else if s.quit || timedOut then Leave(s, t)
    else s
  }

  /** The top of the server's loop. */
  function Loop(s: State, t: nat): (s': State)
    requires t < |s.servers|
  {
    if s.queue == [] && !s.quit then s.(servers := s.servers[t := Waiting(false)]) else Serve(s, t, false)
  }

  /** The engine has returned; the server takes the mutex again. */
  function EngineDone(s: State, t: nat): (s': State)
    requires t < |s.servers| && s.servers[t].Running?
  {
    var s1 := s.(executed := s.executed + [s.servers[t].item]);
    if s.queue == [] && (s.quit || s.servers[t].timedOut) then Leave(s1, t) else Loop(s1, t)
  }

  // ---------- workq_add and workq_destroy ----------

  function Enqueue(s: State, c: nat): (s': State)
    requires c < |s.clients|
  {
    var s1 := s.(queue := s.queue + [s.accepted], accepted := s.accepted + 1, clients := s.clients[c := Calm]);
    if s.counter < s.parallelism then s1.(servers := s.servers + [Created], counter := s.counter + 1) else s1
  }

  function BeginDestroy(s: State): (s': State) {
    if s.counter > 0 then s.(valid := false, quit := true, destroyer := DestroyWait(false))
    else s.(valid := false, destroyer := Returned)
  }

  datatype Action =
    | Begin(t: nat) | Retest(t: nat) | Timeout(t: nat) | Done(t: nat)
    | CheckValid(c: nat) | Add(c: nat)
    | Destroy | DestroyRetest
    | Spurious(t: nat) | SpuriousDestroyer

  /** An add that has passed its validity test goes on whatever workq_destroy does. */
  predicate Enabled(s: State, a: Action) {
    match a
    case Begin(t) => t < |s.servers| && s.servers[t] == Created
    case Retest(t) => t < |s.servers| && s.servers[t] == Waiting(true)
    case Timeout(t) => t < |s.servers| && s.servers[t].Waiting?
    case Done(t) => t < |s.servers| && s.servers[t].Running?
    case CheckValid(c) => c < |s.clients| && s.clients[c] == Calm
    case Add(c) => c < |s.clients| && s.clients[c] == Adding
    case Destroy => s.valid && s.destroyer == NotCalled
    case DestroyRetest => s.destroyer == DestroyWait(true)
    case Spurious(t) => t < |s.servers| && s.servers[t] == Waiting(false)
    case SpuriousDestroyer => s.destroyer == DestroyWait(false)
  }

  /** No client is between its validity test and its critical section in workq_add. */
  predicate NoAdd(s: State) {
    forall c :: 0 <= c < |s.clients| ==> s.clients[c] == Calm
  }

  function Step(s: State, a: Action): (s': State)
    requires Enabled(s, a)
  {
    match a
    case Begin(t) => Loop(s, t)
    case Retest(t) => Loop(s, t)
    case Timeout(t) => Serve(s, t, true)
    case Done(t) => EngineDone(s, t)
    case CheckValid(c) => if s.valid then s.(clients := s.clients[c := Adding]) else s   // EINVAL
    case Add(c) => Enqueue(s, c)
    case Destroy => BeginDestroy(s)
    case DestroyRetest =>
      s.(destroyer := if s.counter > 0 then DestroyWait(false) else Returned)
    case Spurious(t) => s.(servers := s.servers[t := Waiting(true)])
    case SpuriousDestroyer => s.(destroyer := DestroyWait(true))
  }

  // ---------- the invariant ----------

  predicate Live(v: Server) { !v.Exited? }

  /** `counter` is the number of live servers, within bounds, and a queue with items has
      a live server. */
  ghost predicate ServersOk(s: State) {
    && s.counter == Count(s.servers, Live) <= s.parallelism
    && s.parallelism >= 1
    && (s.queue != [] ==> s.counter > 0)
  }

  /** The queue is exactly the items accepted and not started, in that order. */
  ghost predicate Fifo(s: State) {
    && s.accepted == s.started + |s.queue|
    && (forall i :: 0 <= i < |s.queue| ==> s.queue[i] == s.started + i)
  }

  /** Every started item runs on one server or has run once. */
  ghost predicate OnceOnly(s: State) {
    && (forall t, u :: 0 <= t < u < |s.servers| && s.servers[t].Running? && s.servers[u].Running? ==>
          s.servers[t].item != s.servers[u].item)
    && (forall t :: 0 <= t < |s.servers| && s.servers[t].Running? ==>
          s.servers[t].item < s.started && s.servers[t].item !in s.executed)
    && (forall i, j :: 0 <= i < j < |s.executed| ==> s.executed[i] != s.executed[j])
    && (forall x :: x in s.executed ==> x < s.started)
    && (forall x: Item :: x < s.started ==> x in s.executed || RunsSomewhere(s, x))
  }

  ghost predicate RunsSomewhere(s: State, x: Item) {
    exists t :: 0 <= t < |s.servers| && s.servers[t].Running? && s.servers[t].item == x
  }

  ghost predicate DestroyOk(s: State) {
    && (s.destroyer == NotCalled <==> s.valid)
    && (s.quit ==> !s.valid)
    && (s.destroyer == DestroyWait(false) ==> s.counter > 0)
    && (s.destroyer.DestroyWait? ==> s.quit)
  }

  ghost predicate Inv(s: State) {
    ServersOk(s) && Fifo(s) && OnceOnly(s) && DestroyOk(s)
  }

  lemma LiveServer(s: State, t: nat)
    requires Inv(s) && t < |s.servers| && Live(s.servers[t])
    ensures s.counter > 0
  {
    CountZero(s.servers, Live);
  }

  /** Parking, waking or exiting a server that runs no item. */
  lemma MoveIdle(s: State, s': State, t: nat, v: Server)
    requires Inv(s) && t < |s.servers| && !s.servers[t].Running? && !v.Running? && Live(s.servers[t])
    requires s'.servers == s.servers[t := v] && s'.executed == s.executed && s'.started == s.started
    ensures OnceOnly(s') && Count(s'.servers, Live) == s.counter - (if Live(v) then 0 else 1)
  {
    CountUpdate(s.servers, t, v, Live);
    forall x: Item | x < s'.started
      ensures x in s'.executed || RunsSomewhere(s', x)
    {
      if x !in s.executed {
        var u :| 0 <= u < |s.servers| && s.servers[u].Running? && s.servers[u].item == x;
        assert s'.servers[u].Running? && s'.servers[u].item == x;
      }
    }
  }

  lemma TakeItem(s: State, t: nat, timedOut: bool)
    requires Inv(s) && t < |s.servers| && !s.servers[t].Running? && Live(s.servers[t]) && s.queue != []
    ensures Inv(Serve(s, t, timedOut))
  {
    var s' := Serve(s, t, timedOut);
    CountUpdate(s.servers, t, s'.servers[t], Live);
    LiveServer(s, t);
    forall x: Item | x < s'.started
      ensures x in s'.executed || RunsSomewhere(s', x)
    {
      if x == s.started {
        assert s'.servers[t].Running? && s'.servers[t].item == x;
      } else if x !in s.executed {
        var u :| 0 <= u < |s.servers| && s.servers[u].Running? && s.servers[u].item == x;
        assert s'.servers[u].Running? && s'.servers[u].item == x;
      }
    }
  }

  lemma ServeKeepsInv(s: State, t: nat, timedOut: bool)
    requires Inv(s) && t < |s.servers| && !s.servers[t].Running? && Live(s.servers[t])
    ensures Inv(Serve(s, t, timedOut))
  {
    if s.queue != [] {
      TakeItem(s, t, timedOut);
    } else if s.quit || timedOut {
      LiveServer(s, t);
      MoveIdle(s, Leave(s, t), t, Exited);
    }
  }

  lemma LoopKeepsInv(s: State, t: nat)
    requires Inv(s) && t < |s.servers| && !s.servers[t].Running? && Live(s.servers[t])
    ensures Inv(Loop(s, t))
  {
    if s.queue == [] && !s.quit {
      MoveIdle(s, Loop(s, t), t, Waiting(false));
    } else {
      ServeKeepsInv(s, t, false);
    }
  }

  /** The state in which the engine has returned and the server is between two items:
      as if it had just been created. */
  lemma ItemDone(s: State, t: nat) returns (s1: State)
    requires Inv(s) && t < |s.servers| && s.servers[t].Running?
    ensures s1 == s.(executed := s.executed + [s.servers[t].item], servers := s.servers[t := Created])
    ensures Inv(s1)
  {
    s1 := s.(executed := s.executed + [s.servers[t].item], servers := s.servers[t := Created]);
    CountUpdate(s.servers, t, Created, Live);
    assert s.servers[t].item in s1.executed by { assert s1.executed[|s.executed|] == s.servers[t].item; }
    forall x: Item | x < s1.started
      ensures x in s1.executed || RunsSomewhere(s1, x)
    {
      if x in s.executed {
        assert x in s1.executed;
      } else if x != s.servers[t].item {
        var u :| 0 <= u < |s.servers| && s.servers[u].Running? && s.servers[u].item == x;
        assert s1.servers[u].Running? && s1.servers[u].item == x;
      }
    }
  }

  lemma EngineDoneKeepsInv(s: State, t: nat)
    requires Inv(s) && t < |s.servers| && s.servers[t].Running?
    ensures Inv(EngineDone(s, t))
  {
    var s1 := ItemDone(s, t);
    if s.queue == [] && (s.quit || s.servers[t].timedOut) {
      LiveServer(s1, t);
      MoveIdle(s1, Leave(s1, t), t, Exited);
      assert s1.servers[t := Exited] == s.servers[t := Exited];
      assert EngineDone(s, t) == Leave(s1, t);
    } else {
      LoopKeepsInv(s1, t);
      DoneThenLoop(s, s1, t);
    }
  }

  lemma DoneThenLoop(s: State, s1: State, t: nat)
    requires t < |s.servers| && s.servers[t].Running? && !(s.queue == [] && (s.quit || s.servers[t].timedOut))
    requires s1 == s.(executed := s.executed + [s.servers[t].item], servers := s.servers[t := Created])
    ensures EngineDone(s, t) == Loop(s1, t)
  {
    assert forall v {:trigger s.servers[t := v]} :: s1.servers[t := v] == s.servers[t := v];
  }

  lemma AddKeepsInv(s: State, c: nat)
    requires Inv(s) && Enabled(s, Add(c))
    ensures Inv(Enqueue(s, c))
  {
    AddServes(s, c);
    AddStartsNothing(s, c);
  }

  lemma AddServes(s: State, c: nat)
    requires ServersOk(s) && Fifo(s) && DestroyOk(s) && c < |s.clients|
    ensures ServersOk(Enqueue(s, c)) && Fifo(Enqueue(s, c)) && DestroyOk(Enqueue(s, c))
  {
    CountAppend(s.servers, Created, Live);
  }

  lemma AddStartsNothing(s: State, c: nat)
    requires OnceOnly(s) && c < |s.clients|
    ensures OnceOnly(Enqueue(s, c))
  {
    var s' := Enqueue(s, c);
    forall x: Item | x < s'.started
      ensures x in s'.executed || RunsSomewhere(s', x)
    {
      if x !in s.executed {
        var u :| 0 <= u < |s.servers| && s.servers[u].Running? && s.servers[u].item == x;
        assert s'.servers[u].Running? && s'.servers[u].item == x;
      }
    }
  }

  /** Steps that touch neither a server, nor the queue, nor the executed items. */
  lemma QuietKeepsInv(s: State, a: Action)
    requires Inv(s) && Enabled(s, a)
    requires a.CheckValid? || a.Destroy? || a.DestroyRetest? || a.SpuriousDestroyer?
    ensures Inv(Step(s, a))
  {
    var s' := Step(s, a);
    forall x: Item | x < s'.started
      ensures x in s'.executed || RunsSomewhere(s', x)
    {
      if x !in s.executed {
        var u :| 0 <= u < |s.servers| && s.servers[u].Running? && s.servers[u].item == x;
        assert s'.servers[u].Running? && s'.servers[u].item == x;
      }
    }
  }

  lemma StepKeepsInv(s: State, a: Action)
    requires Inv(s) && Enabled(s, a)
    ensures Inv(Step(s, a))
  {
    match a
    case Begin(t) => LoopKeepsInv(s, t);
    case Retest(t) => LoopKeepsInv(s, t);
    case Timeout(t) => ServeKeepsInv(s, t, true);
    case Done(t) => EngineDoneKeepsInv(s, t);
    case Add(c) => AddKeepsInv(s, c);
    case Spurious(t) => MoveIdle(s, Step(s, a), t, Waiting(true));
    case _ => QuietKeepsInv(s, a);
  }

  // ---------- whole runs ----------

  ghost predicate StepsTo(s: State, s': State) {
    exists a :: Enabled(s, a) && s' == Step(s, a)
  }

  ghost predicate IsRun(run: seq<State>) {
    && |run| > 0 && Initial(run[0])
    && forall i :: 0 <= i < |run| - 1 ==> StepsTo(run[i], run[i + 1])
  }

  lemma {:induction false} RunInv(run: seq<State>, i: nat)
    requires IsRun(run) && i < |run|
    ensures Inv(run[i])
  {
    if i == 0 {
    } else {
      RunInv(run, i - 1);
      assert StepsTo(run[i - 1], run[i]);
      var a :| Enabled(run[i - 1], a) && run[i] == Step(run[i - 1], a);
      StepKeepsInv(run[i - 1], a);
    }
  }

  /** `counter` is the number of live servers and at most `parallelism`, a non-empty
      queue has a live server, and the destroyer never sleeps once they are all gone. */
  lemma ServersAreCounted(run: seq<State>, i: nat)
    requires IsRun(run) && i < |run|
    ensures var s := run[i];
      && s.counter == Count(s.servers, Live) <= s.parallelism
      && (s.queue != [] ==> exists t :: 0 <= t < |s.servers| && Live(s.servers[t]))
      && (s.destroyer == DestroyWait(false) ==> exists t :: 0 <= t < |s.servers| && Live(s.servers[t]))
  {
    RunInv(run, i);
    CountZero(run[i].servers, Live);
  }

  /** An add starts exactly one server while fewer than `parallelism` are alive, and none
      otherwise. */
  lemma AddStartsServer(run: seq<State>, i: nat, c: nat)
    requires IsRun(run) && i < |run| && Enabled(run[i], Add(c))
    ensures var s, s' := run[i], Step(run[i], Add(c));
      && s'.accepted == s.accepted + 1 && s'.clients == s.clients[c := Calm]
      && Count(s'.servers, Live) == Count(s.servers, Live) + (if Count(s.servers, Live) < s.parallelism then 1 else 0)
      && s.servers <= s'.servers && s'.queue == s.queue + [s.accepted]
  {
    RunInv(run, i);
    CountAppend(run[i].servers, Created, Live);
  }

  /** The steps of server t. */
  predicate Serves(a: Action, t: nat) {
    a == Begin(t) || a == Retest(t) || a == Timeout(t) || a == Done(t)
  }

  /** Server t has waited for as long as it is allowed. */
  predicate TimedOut(s: State, a: Action, t: nat)
    requires t < |s.servers|
  {
    a.Timeout? || (a.Done? && s.servers[t].Running? && s.servers[t].timedOut)
  }

  /** Whenever a server holds the mutex it takes the first item if there is one.  If there
      is none it leaves when it was asked to quit or has waited for long enough, and waits
      otherwise.  The last one to leave wakes the caller of workq_destroy. */
  lemma ServerChoices(run: seq<State>, i: nat, a: Action, t: nat)
    requires IsRun(run) && i < |run| && Enabled(run[i], a) && Serves(a, t)
    ensures var s, s' := run[i], Step(run[i], a);
      && t < |s.servers| == |s'.servers|
      && (forall u :: 0 <= u < |s.servers| && u != t ==> s'.servers[u] == s.servers[u])
      && s'.queue == (if s.queue == [] then [] else s.queue[1..])
      && s'.servers[t] == (
           if s.queue != [] then Running(s.queue[0], a.Timeout?)
           else if s.quit || TimedOut(s, a, t) then Exited else Waiting(false))
      && (s.destroyer.DestroyWait? && Count(s'.servers, Live) == 0 ==> s'.destroyer == DestroyWait(true))
  {
    RunInv(run, i);
    StepKeepsInv(run[i], a);
  }

  /** Nobody is stuck.  While there are items some server can take the first one, a live
      server that sleeps can always time out, and the caller of workq_destroy can return
      once the servers are gone. */
  lemma SomeoneCanServe(run: seq<State>, i: nat)
    requires IsRun(run) && i < |run|
    ensures run[i].queue != [] ==> exists a, t :: Serves(a, t) && Enabled(run[i], a)
    ensures forall t :: 0 <= t < |run[i].servers| && Live(run[i].servers[t]) ==> CanGoOn(run[i], t)
    ensures run[i].destroyer.DestroyWait? && run[i].counter == 0 ==>
      Enabled(run[i], DestroyRetest) && Step(run[i], DestroyRetest).destroyer == Returned
  {
    RunInv(run, i);
    var s := run[i];
    CountZero(s.servers, Live);
    forall t | 0 <= t < |s.servers| && Live(s.servers[t])
      ensures CanGoOn(s, t)
    {
      var a := if s.servers[t].Created? then Begin(t) else if s.servers[t].Running? then Done(t) else Timeout(t);
      assert Serves(a, t) && Enabled(s, a);
    }
  }

  ghost predicate CanGoOn(s: State, t: nat) {
    exists a :: Serves(a, t) && Enabled(s, a)
  }

  /** Items leave the queue in the order in which they were accepted. */
  lemma ItemsLeaveInOrder(run: seq<State>, i: nat, a: Action)
    requires IsRun(run) && i < |run| && Enabled(run[i], a) && Step(run[i], a).started > run[i].started
    ensures var s, s' := run[i], Step(run[i], a);
      && s'.started == s.started + 1 && s.queue != [] && s.queue[0] == s.started && s'.queue == s.queue[1..]
      && exists t :: 0 <= t < |s'.servers| && s'.servers[t].Running? && s'.servers[t].item == s.started
  {
    RunInv(run, i);
    var s, s' := run[i], Step(run[i], a);
    var t := if a.Begin? || a.Retest? || a.Timeout? || a.Done? then a.t else 0;
    assert s'.servers[t].Running? && s'.servers[t].item == s.queue[0];
  }

  /** The step in which workq_destroy returns 0. */
  ghost predicate Returns(s: State, s': State) {
    StepsTo(s, s') && s.destroyer != Returned && s'.destroyer == Returned
  }

  /** Every accepted item has run, and no item has run twice. */
  ghost predicate AllRan(s: State) {
    && (forall x: Item :: x < s.accepted <==> x in s.executed)
    && (forall j, k :: 0 <= j < k < |s.executed| ==> s.executed[j] != s.executed[k])
  }

  /** When workq_destroy returns 0, no server is left and every item accepted so far has
      run exactly once, whatever adds are under way. */
  lemma DestroyedMeansAllRan(run: seq<State>, i: nat)
    requires IsRun(run) && i + 1 < |run| && Returns(run[i], run[i + 1])
    ensures var s := run[i + 1];
      && s.queue == [] && s.counter == 0 && !s.valid && AllRan(s)
      && (forall t :: 0 <= t < |s.servers| ==> s.servers[t] == Exited)
      && ((exists c :: Enabled(s, Add(c))) <==> !NoAdd(s))
  {
    RunInv(run, i + 1);
    ReturnedEmpty(run[i], run[i + 1]);
    NoServersLeft(run[i + 1]);
    AddsUnderWay(run[i + 1]);
  }

  lemma ReturnedEmpty(s: State, s': State)
    requires Inv(s') && Returns(s, s')
    ensures s'.counter == 0 && !s'.valid
  {
  }

  lemma NoServersLeft(s: State)
    requires Inv(s) && s.counter == 0
    ensures s.queue == [] && AllRan(s) && forall t :: 0 <= t < |s.servers| ==> s.servers[t] == Exited
  {
    CountZero(s.servers, Live);
    assert forall t :: 0 <= t < |s.servers| ==> !Live(s.servers[t]);
  }

  lemma AddsUnderWay(s: State)
    ensures (exists c :: Enabled(s, Add(c))) <==> !NoAdd(s)
  {
    if !NoAdd(s) {
      var c :| 0 <= c < |s.clients| && s.clients[c] != Calm;
      assert Enabled(s, Add(c));
    }
  }

  /** Nothing is left to happen once the servers are gone and no add is under way. */
  lemma {:induction false} NothingMore(run: seq<State>, i: nat, j: nat)
    requires IsRun(run) && i <= j < |run|
    requires run[i].destroyer == Returned && !run[i].valid && NoAdd(run[i])
    requires forall t :: 0 <= t < |run[i].servers| ==> run[i].servers[t] == Exited
    ensures run[j] == run[i]
  {
    if i < j {
      NothingMore(run, i, j - 1);
      assert StepsTo(run[j - 1], run[j]);
    }
  }

  /** The items accepted up to any later moment have all run exactly once if and only if
      no add is under way when workq_destroy returns. */
  lemma AllRanForeverIff(run: seq<State>)
    requires IsRun(run) && |run| >= 2 && Returns(run[|run| - 2], run[|run| - 1])
    ensures NoAdd(run[|run| - 1]) <==>
      forall more: seq<State> :: IsRun(run + more) ==> AllRan((run + more)[|run + more| - 1])
  {
    var n := |run| - 1;
    DestroyedMeansAllRan(run, n - 1);
    if NoAdd(run[n]) {
      forall more: seq<State> | IsRun(run + more)
        ensures AllRan((run + more)[|run + more| - 1])
      {
        assert (run + more)[n] == run[n];
        NothingMore(run + more, n, |run + more| - 1);
      }
    } else {
      var c :| 0 <= c < |run[n].clients| && run[n].clients[c] != Calm;
      var late := LateAdd(run, c);
      assert IsRun(run + [late]) && !AllRan((run + [late])[|run + [late]| - 1]);
    }
  }

  /** An add that is under way at the return puts an item into the destroyed queue. */
  lemma LateAdd(run: seq<State>, c: nat) returns (late: State)
    requires IsRun(run) && run[|run| - 1].destroyer == Returned
    requires c < |run[|run| - 1].clients| && run[|run| - 1].clients[c] == Adding
    ensures IsRun(run + [late]) && late.destroyer == Returned
    ensures late.accepted - 1 in late.queue && late.accepted - 1 !in late.executed && !AllRan(late)
  {
    var s := run[|run| - 1];
    RunInv(run, |run| - 1);
    late := Step(s, Add(c));
    assert late.queue[|s.queue|] == s.accepted;
    RunAppend(run, Add(c));
    assert s.accepted < late.accepted && s.accepted !in late.executed;
  }

  lemma RunAppend(run: seq<State>, a: Action)
    requires IsRun(run) && Enabled(run[|run| - 1], a)
    ensures IsRun(run + [Step(run[|run| - 1], a)])
  {
    var longer := run + [Step(run[|run| - 1], a)];
    forall i | 0 <= i < |longer| - 1
      ensures StepsTo(longer[i], longer[i + 1])
    {
      assert i < |run| - 1 ==> StepsTo(run[i], run[i + 1]);
    }
  }

  /** Such a run exists from every initial state with a client: the add passes its test,
      the destroy returns at once, and the item it did not wait for is queued. */
  lemma LostAddRun(s: State) returns (run: seq<State>)
    requires Initial(s) && |s.clients| > 0
    ensures IsRun(run) && run[0] == s && |run| == 4
    ensures Returns(run[1], run[2]) && AllRan(run[2]) && !NoAdd(run[2])
    ensures run[3].destroyer == Returned && run[3].accepted == 1 && run[3].queue == [0] && !AllRan(run[3])
  {
    run := [s];
    RunAppend(run, CheckValid(0));
    run := run + [Step(s, CheckValid(0))];
    var s1 := run[1];
    assert s1 == s.(clients := s.clients[0 := Adding]);
    RunAppend(run, Destroy);
    run := run + [Step(s1, Destroy)];
    var s2 := run[2];
    assert s2.destroyer == Returned && s2.clients[0] == Adding;
    assert Returns(s1, s2);
    RunAppend(run, Add(0));
    run := run + [Step(s2, Add(0))];
    assert !AllRan(run[3]) by {
      assert 0 < run[3].accepted && 0 !in run[3].executed;
    }
  }
}
