/** The MCS queue lock of kernel_practice.c under sequential consistency.

    Every load, store, xchg and cmpxchg is one atomic step.  There are any number of
    threads, named by their index; each owns one node, which it uses again for every
    acquisition.  The program of a thread is deterministic, so a run is fixed by
    its schedule: the sequence of threads that take the next step. */
module McsLock {

  type Thread = nat

  datatype Pointer = Null | To(thread: Thread)

  datatype Node = Node(next: Pointer, locked: bool)

  /** The instruction a thread executes next; registers are parameters. */
  datatype Pc =
    | Idle                      // outside; its next step enters spin_lock
    | ClearNext                 // node->next = NULL
    | ClearLocked               // node->locked = 0
    | Xchg                      // prev = xchg(lock, node)
    | Link(prev: Thread)        // prev->next = node
    | Spin                      // while (!node->locked)
    | Critical                  // spin_lock has returned; its next step enters spin_unlock
    | LoadNext                  // next = node->next
    | CmpXchg                   // cmpxchg(lock, node, NULL)
    | SpinNext                  // while (!(next = node->next))
    | Handoff(next: Thread)     // next->locked = 1

  /** The shared memory and program counters, with four history variables:
      `tickets` is the order of the xchg calls, `entered` the order in which
      spin_lock returned, `left` the number of completed releases, and `ticket`
      gives each thread the place of its last xchg in `tickets`. */
  datatype State = State(
    lock: Pointer,
    nodes: seq<Node>,
    pcs: seq<Pc>,
    tickets: seq<Thread>,
    entered: seq<Thread>,
    left: nat,
    ticket: seq<nat>)
  {
    predicate WellTyped() {
      && |nodes| == |pcs| == |ticket|
      && (forall t :: 0 <= t < |pcs| && pcs[t].Link? ==> pcs[t].prev < |pcs|)
      && (forall t :: 0 <= t < |pcs| && pcs[t].Handoff? ==> pcs[t].next < |pcs|)
    }
  }

  predicate Initial(s: State) {
    && s.lock == Null
    && |s.nodes| == |s.pcs| == |s.ticket|
    && (forall t :: 0 <= t < |s.pcs| ==> s.pcs[t] == Idle)
    && s.tickets == [] && s.entered == [] && s.left == 0
  }

  /** One atomic step of thread t. */
  function Step(s: State, t: Thread): (s': State)
    requires s.WellTyped() && t < |s.pcs|
  {
    var node := s.nodes[t];
    match s.pcs[t]
    case Idle => s.(pcs := s.pcs[t := ClearNext])
    case ClearNext =>
      s.(nodes := s.nodes[t := node.(next := Null)], pcs := s.pcs[t := ClearLocked])
    case ClearLocked =>
      s.(nodes := s.nodes[t := node.(locked := false)], pcs := s.pcs[t := Xchg])
    case Xchg =>
      var s1 := s.(lock := To(t), tickets := s.tickets + [t], ticket := s.ticket[t := |s.tickets|]);
      if s.lock == Null then
        s1.(pcs := s.pcs[t := Critical], entered := s.entered + [t])
      else
        s1.(pcs := s.pcs[t := Link(s.lock.thread)])
    case Link(prev) =>
      s.(nodes := s.nodes[prev := s.nodes[prev].(next := To(t))], pcs := s.pcs[t := Spin])
    case Spin =>
      if node.locked then s.(pcs := s.pcs[t := Critical], entered := s.entered + [t]) else s
    case Critical => s.(pcs := s.pcs[t := LoadNext])
    case LoadNext =>
      s.(pcs := s.pcs[t := if node.next == Null then CmpXchg else Handoff(node.next.thread)])
    case CmpXchg =>
      if s.lock == To(t) then
        s.(lock := Null, pcs := s.pcs[t := Idle], left := s.left + 1)
      else
        s.(pcs := s.pcs[t := SpinNext])
    case SpinNext =>
      if node.next == Null then s else s.(pcs := s.pcs[t := Handoff(node.next.thread)])
    case Handoff(next) =>
      s.(nodes := s.nodes[next := s.nodes[next].(locked := true)],
         pcs := s.pcs[t := Idle], left := s.left + 1)
  }

  predicate Queued(pc: Pc) {
    pc.Link? || pc.Spin? || Holding(pc)
  }

  /** From the return of spin_lock to the instruction that gives the lock away. */
  predicate Holding(pc: Pc) {
    pc.Critical? || pc.LoadNext? || pc.CmpXchg? || pc.SpinNext? || pc.Handoff?
  }

  // ---------- the inductive invariant ----------

  /** The queue is tickets[left..]; its last thread is the one `lock` points to. */
  ghost predicate Shape(s: State) {
    && s.WellTyped()
    && s.left <= |s.tickets|
    && (forall k :: s.left <= k < |s.tickets| ==> InQueue(s, s.tickets[k]) && s.ticket[s.tickets[k]] == k)
    && (forall t :: InQueue(s, t) ==> s.left <= s.ticket[t] < |s.tickets| && s.tickets[s.ticket[t]] == t)
    && s.lock == (if s.left == |s.tickets| then Null else To(s.tickets[|s.tickets| - 1]))
  }

  predicate InQueue(s: State, t: int) {
    0 <= t < |s.pcs| && Queued(s.pcs[t])
  }

  /** What is known of a thread t that is not the head of the queue. */
  ghost predicate Waiter(s: State, t: int)
    requires Shape(s) && InQueue(s, t) && s.left < s.ticket[t]
  {
    var before := s.tickets[s.ticket[t] - 1];
    && (s.pcs[t] == Spin || s.pcs[t] == Link(before))
    && !s.nodes[t].locked
    && s.nodes[before].next == (if s.pcs[t] == Spin then To(t) else Null)
  }

  /** What is known of the head of the queue. */
  ghost predicate Head(s: State, t: int)
    requires Shape(s) && InQueue(s, t)
  {
    && !s.pcs[t].Link?
    && (s.pcs[t].Spin? ==> s.nodes[t].locked)
    && (s.pcs[t].SpinNext? ==> |s.tickets| >= s.left + 2)
    && (s.pcs[t].Handoff? ==>
          |s.tickets| >= s.left + 2 && s.pcs[t].next == s.tickets[s.left + 1] && s.pcs[s.pcs[t].next].Spin?)
  }

  ghost predicate Linked(s: State)
    requires Shape(s)
  {
    && (forall t {:trigger Waiter(s, t)} :: InQueue(s, t) && s.ticket[t] > s.left ==> Waiter(s, t))
    && (s.left < |s.tickets| ==> Head(s, s.tickets[s.left]))
    && (s.lock.To? ==> s.nodes[s.lock.thread].next == Null)
  }

  ghost predicate Fresh(s: State)
    requires s.WellTyped()
  {
    && (forall t :: 0 <= t < |s.pcs| && (s.pcs[t].ClearLocked? || s.pcs[t].Xchg?) ==> s.nodes[t].next == Null)
    && (forall t :: 0 <= t < |s.pcs| && s.pcs[t].Xchg? ==> !s.nodes[t].locked)
  }

  ghost predicate History(s: State)
    requires Shape(s)
  {
    var owned := s.left < |s.tickets| && Holding(s.pcs[s.tickets[s.left]]);
    s.entered == s.tickets[..if owned then s.left + 1 else s.left]
  }

  ghost predicate Inv(s: State) {
    Shape(s) && Linked(s) && Fresh(s) && History(s)
  }

  lemma InitialInv(s: State)
    requires Initial(s)
    ensures Inv(s)
  {
  }

  /** The places in the queue a thread can be at, by its program counter. */
  lemma Place(s: State, t: Thread)
    requires Inv(s) && InQueue(s, t)
    ensures Holding(s.pcs[t]) || s.nodes[t].locked ==> s.ticket[t] == s.left
    ensures s.pcs[t].Link? ==> s.ticket[t] > s.left && s.pcs[t].prev == s.tickets[s.ticket[t] - 1]
  {
    if s.ticket[t] > s.left {
      assert Waiter(s, t);
    }
  }

  // Each part of the invariant is kept by every instruction.

  /** The queue does not change while its threads stay in it. */
  lemma ShapeSame(s: State, s': State)
    requires Shape(s) && s'.WellTyped() && |s'.pcs| == |s.pcs|
    requires s'.tickets == s.tickets && s'.left == s.left && s'.ticket == s.ticket && s'.lock == s.lock
    requires forall u :: 0 <= u < |s.pcs| ==> (Queued(s'.pcs[u]) <==> Queued(s.pcs[u]))
    ensures Shape(s')
  {
  }

  lemma ShapeLocal(s: State, t: Thread)
    requires Inv(s) && t < |s.pcs| && !Queued(s.pcs[t]) && !s.pcs[t].Xchg?
    ensures Shape(Step(s, t))
  {
    ShapeSame(s, Step(s, t));
  }

  lemma ShapeXchg(s: State, t: Thread)
    requires Inv(s) && t < |s.pcs| && s.pcs[t].Xchg?
    ensures Shape(Step(s, t))
  {
  }

  lemma ShapeWaiting(s: State, t: Thread)
    requires Inv(s) && t < |s.pcs| && (s.pcs[t].Link? || s.pcs[t].Spin?)
    ensures Shape(Step(s, t))
  {
    ShapeSame(s, Step(s, t));
  }

  lemma ShapeReading(s: State, t: Thread)
    requires Inv(s) && t < |s.pcs| && (s.pcs[t].Critical? || s.pcs[t].LoadNext? || s.pcs[t].SpinNext?)
    ensures Shape(Step(s, t))
  {
    Place(s, t);
    if |s.tickets| > s.left + 1 {
      assert Waiter(s, s.tickets[s.left + 1]);
    }
    ShapeSame(s, Step(s, t));
  }

  lemma ShapeReleasing(s: State, t: Thread)
    requires Inv(s) && t < |s.pcs| && (s.pcs[t].CmpXchg? || s.pcs[t].Handoff?)
    ensures Shape(Step(s, t))
  {
    Place(s, t);
  }

  lemma ShapeStep(s: State, t: Thread)
    requires Inv(s) && t < |s.pcs|
    ensures Shape(Step(s, t))
  {
    match s.pcs[t]
    case Xchg => ShapeXchg(s, t);
    case Link(_) | Spin => ShapeWaiting(s, t);
    case Critical | LoadNext | SpinNext => ShapeReading(s, t);
    case CmpXchg | Handoff(_) => ShapeReleasing(s, t);
    case _ => ShapeLocal(s, t);
  }

  lemma WaiterJoins(s: State, t: Thread, u: int)
    requires Inv(s) && t < |s.pcs| && s.pcs[t].Xchg? && Shape(Step(s, t))
    requires InQueue(Step(s, t), u) && Step(s, t).ticket[u] > Step(s, t).left
    ensures Waiter(Step(s, t), u)
  {
    if u != t {
      assert Waiter(s, u);
    }
  }

  lemma WaiterOutside(s: State, t: Thread, u: int)
    requires Inv(s) && t < |s.pcs| && !Queued(s.pcs[t]) && !s.pcs[t].Xchg? && Shape(Step(s, t))
    requires InQueue(Step(s, t), u) && Step(s, t).ticket[u] > Step(s, t).left
    ensures Waiter(Step(s, t), u)
  {
    assert Waiter(s, u);
  }

  lemma WaiterWaiting(s: State, t: Thread, u: int)
    requires Inv(s) && t < |s.pcs| && (s.pcs[t].Link? || s.pcs[t].Spin?) && Shape(Step(s, t))
    requires InQueue(Step(s, t), u) && Step(s, t).ticket[u] > Step(s, t).left
    ensures Waiter(Step(s, t), u)
  {
    assert Waiter(s, u);
    Place(s, t);
  }

  lemma WaiterHolding(s: State, t: Thread, u: int)
    requires Inv(s) && t < |s.pcs| && Holding(s.pcs[t]) && Shape(Step(s, t))
    requires InQueue(Step(s, t), u) && Step(s, t).ticket[u] > Step(s, t).left
    ensures Waiter(Step(s, t), u)
  {
    Place(s, t);
    assert Waiter(s, u);
  }

  lemma HeadJoins(s: State, t: Thread)
    requires Inv(s) && t < |s.pcs| && s.pcs[t].Xchg? && Shape(Step(s, t))
    ensures var s' := Step(s, t); s'.left < |s'.tickets| ==> Head(s', s'.tickets[s'.left])
  {
  }

  lemma HeadOutside(s: State, t: Thread)
    requires Inv(s) && t < |s.pcs| && !Queued(s.pcs[t]) && !s.pcs[t].Xchg? && Shape(Step(s, t))
    ensures var s' := Step(s, t); s'.left < |s'.tickets| ==> Head(s', s'.tickets[s'.left])
  {
  }

  lemma HeadWaiting(s: State, t: Thread)
    requires Inv(s) && t < |s.pcs| && (s.pcs[t].Link? || s.pcs[t].Spin?) && Shape(Step(s, t))
    ensures var s' := Step(s, t); s'.left < |s'.tickets| ==> Head(s', s'.tickets[s'.left])
  {
    Place(s, t);
  }

  lemma HeadReleasing(s: State, t: Thread)
    requires Inv(s) && t < |s.pcs| && (s.pcs[t].CmpXchg? || s.pcs[t].Handoff?) && Shape(Step(s, t))
    ensures var s' := Step(s, t); s'.left < |s'.tickets| ==> Head(s', s'.tickets[s'.left])
  {
    Place(s, t);
    if |s.tickets| > s.left + 1 {
      assert Waiter(s, s.tickets[s.left + 1]);
    }
  }

  lemma HeadReading(s: State, t: Thread)
    requires Inv(s) && t < |s.pcs| && (s.pcs[t].Critical? || s.pcs[t].LoadNext? || s.pcs[t].SpinNext?)
    requires Shape(Step(s, t))
    ensures var s' := Step(s, t); s'.left < |s'.tickets| ==> Head(s', s'.tickets[s'.left])
  {
    Place(s, t);
    if |s.tickets| > s.left + 1 {
      assert Waiter(s, s.tickets[s.left + 1]);
    }
  }

  lemma LastStep(s: State, t: Thread)
    requires Inv(s) && t < |s.pcs| && Shape(Step(s, t))
    ensures var s' := Step(s, t); s'.lock.To? ==> s'.nodes[s'.lock.thread].next == Null
  {
    if InQueue(s, t) {
      Place(s, t);
    }
  }

  lemma LinkedStep(s: State, t: Thread)
    requires Inv(s) && t < |s.pcs| && Shape(Step(s, t))
    ensures Linked(Step(s, t))
  {
    var s' := Step(s, t);
    forall u | InQueue(s', u) && s'.ticket[u] > s'.left
      ensures Waiter(s', u)
    {
      if s.pcs[t].Xchg? { WaiterJoins(s, t, u); }
      else if !Queued(s.pcs[t]) { WaiterOutside(s, t, u); }
      else if Holding(s.pcs[t]) { WaiterHolding(s, t, u); }
      else { WaiterWaiting(s, t, u); }
    }
    if s.pcs[t].Xchg? { HeadJoins(s, t); }
    else if !Queued(s.pcs[t]) { HeadOutside(s, t); }
    else if s.pcs[t].CmpXchg? || s.pcs[t].Handoff? { HeadReleasing(s, t); }
    else if Holding(s.pcs[t]) { HeadReading(s, t); }
    else { HeadWaiting(s, t); }
    LastStep(s, t);
  }

  lemma FreshOutside(s: State, t: Thread)
    requires Inv(s) && t < |s.pcs| && !Queued(s.pcs[t]) && Shape(Step(s, t))
    ensures Fresh(Step(s, t))
  {
  }

  lemma FreshWaiting(s: State, t: Thread)
    requires Inv(s) && t < |s.pcs| && (s.pcs[t].Link? || s.pcs[t].Spin?) && Shape(Step(s, t))
    ensures Fresh(Step(s, t))
  {
    Place(s, t);
    assert s.pcs[t].Link? ==> InQueue(s, s.pcs[t].prev);
  }

  lemma FreshHolding(s: State, t: Thread)
    requires Inv(s) && t < |s.pcs| && Holding(s.pcs[t]) && Shape(Step(s, t))
    ensures Fresh(Step(s, t))
  {
    Place(s, t);
  }

  lemma HistoryOutside(s: State, t: Thread)
    requires Inv(s) && t < |s.pcs| && !Queued(s.pcs[t]) && Shape(Step(s, t))
    ensures History(Step(s, t))
  {
  }

  lemma HistoryWaiting(s: State, t: Thread)
    requires Inv(s) && t < |s.pcs| && (s.pcs[t].Link? || s.pcs[t].Spin?) && Shape(Step(s, t))
    ensures History(Step(s, t))
  {
    Place(s, t);
  }

  lemma HistoryHolding(s: State, t: Thread)
    requires Inv(s) && t < |s.pcs| && Holding(s.pcs[t]) && Shape(Step(s, t))
    ensures History(Step(s, t))
  {
    Place(s, t);
    if |s.tickets| > s.left + 1 {
      assert Waiter(s, s.tickets[s.left + 1]);
    }
  }

  lemma StepKeepsInv(s: State, t: Thread)
    requires Inv(s) && t < |s.pcs|
    ensures Inv(Step(s, t)) && |Step(s, t).pcs| == |s.pcs|
  {
    ShapeStep(s, t);
    LinkedStep(s, t);
    if Holding(s.pcs[t]) {
      FreshHolding(s, t);
      HistoryHolding(s, t);
    } else if Queued(s.pcs[t]) {
      FreshWaiting(s, t);
      HistoryWaiting(s, t);
    } else {
      FreshOutside(s, t);
      HistoryOutside(s, t);
    }
  }

  // ---------- whole runs ----------

  /** A run: every state follows from the one before by a step of some thread. */
  ghost predicate IsRun(run: seq<State>) {
    && |run| > 0
    && Initial(run[0])
    && (forall i :: 0 <= i < |run| - 1 ==> StepsTo(run[i], run[i + 1]))
  }

  ghost predicate StepsTo(s: State, s': State) {
    s.WellTyped() && exists t :: 0 <= t < |s.pcs| && s' == Step(s, t)
  }

  lemma {:induction false} RunInv(run: seq<State>, i: nat)
    requires IsRun(run) && i < |run|
    ensures Inv(run[i])
  {
    if i == 0 {
      InitialInv(run[0]);
    } else {
      RunInv(run, i - 1);
      assert StepsTo(run[i - 1], run[i]);
      var t :| 0 <= t < |run[i - 1].pcs| && run[i] == Step(run[i - 1], t);
      StepKeepsInv(run[i - 1], t);
    }
  }

  /** In every interleaving at most one thread holds the lock. */
  lemma MutualExclusion(run: seq<State>, i: nat, t: Thread, u: Thread)
    requires IsRun(run) && i < |run| && t < |run[i].pcs| && u < |run[i].pcs|
    requires Holding(run[i].pcs[t]) && Holding(run[i].pcs[u])
    ensures t == u
  {
    RunInv(run, i);
    Place(run[i], t);
    Place(run[i], u);
  }

  /** Ownership passes in exactly the order of the xchg calls: the order of entry is
      a prefix of it, and the owner is the last one that entered. */
  lemma FifoOrder(run: seq<State>, i: nat)
    requires IsRun(run) && i < |run|
    ensures var s := run[i];
      && s.entered <= s.tickets
      && s.left <= |s.entered| <= s.left + 1
      && (forall t :: 0 <= t < |s.pcs| ==>
            (Holding(s.pcs[t]) <==> |s.entered| == s.left + 1 && s.entered[s.left] == t))
  {
    RunInv(run, i);
    var s := run[i];
    forall t | 0 <= t < |s.pcs|
      ensures Holding(s.pcs[t]) <==> |s.entered| == s.left + 1 && s.entered[s.left] == t
    {
      if InQueue(s, t) {
        Place(s, t);
      }
    }
  }

  /** A releaser that loses the cmpxchg has a successor, and that successor has
      linked itself or does so with its very next step. */
  lemma LosingReleaserHasSuccessor(run: seq<State>, i: nat, t: Thread) returns (u: Thread)
    requires IsRun(run) && i < |run| && t < |run[i].pcs| && run[i].pcs[t] == SpinNext
    ensures var s := run[i];
      && s.left + 1 < |s.tickets| && s.tickets[s.left] == t && s.tickets[s.left + 1] == u
      && u < |s.pcs| && u != t && Inv(s)
      && (s.nodes[t].next == To(u) || (s.pcs[u] == Link(t) && Step(s, u).nodes[t].next == To(u)))
  {
    RunInv(run, i);
    Place(run[i], t);
    u := run[i].tickets[run[i].left + 1];
    assert Waiter(run[i], u);
  }

  /** No deadlock: while any thread is queued, the head of the queue or the thread
      behind it has a step that moves it on; neither can be stuck spinning together. */
  lemma Progress(run: seq<State>, i: nat) returns (t: Thread)
    requires IsRun(run) && i < |run| && run[i].left < |run[i].tickets|
    ensures Inv(run[i]) && t < |run[i].pcs|
    ensures run[i].tickets[run[i].left] == t
         || (run[i].left + 1 < |run[i].tickets| && run[i].tickets[run[i].left + 1] == t)
    ensures Step(run[i], t).pcs[t] != run[i].pcs[t]
  {
    RunInv(run, i);
    var s := run[i];
    t := s.tickets[s.left];
    assert InQueue(s, t);
    if s.pcs[t] == SpinNext && s.nodes[t].next == Null {
      t := s.tickets[s.left + 1];
      assert Waiter(s, t);
    }
  }

  /** A thread that calls spin_lock is last in the queue after four steps of its own, which
      no other thread can hold up or undo. */
  lemma JoinsQueue(s: State, t: Thread)
    requires s.WellTyped() && t < |s.pcs| && s.pcs[t] == Idle
    ensures var s1 := Step(s, t);
      && s1.WellTyped() && s1.pcs[t] == ClearNext && Step(s1, t).WellTyped()
      && var s3 := Step(Step(s1, t), t);
      && s3.WellTyped() && s3.pcs[t] == Xchg
      && Step(s3, t).tickets == s.tickets + [t] && Step(s3, t).lock == To(t) && Queued(Step(s3, t).pcs[t])
  {
  }

  lemma OthersStay(s: State, t: Thread, u: Thread)
    requires s.WellTyped() && t < |s.pcs| && u < |s.pcs| && u != t
    ensures Step(s, t).pcs[u] == s.pcs[u] && s.tickets <= Step(s, t).tickets
  {
  }
}
