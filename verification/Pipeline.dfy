/** The pipeline of posix_multithread/programs_src/pipe.c.

    Stage i has a cell (data, data_ready) and, except for the last one, a thread.  The
    thread of a stage keeps its stage's mutex except while it waits for data, so a cell
    can be filled only while its thread waits (or has not started).  Any number of
    client threads call pipe_start and pipe_result.  A step is what a thread does
    between two points where it takes, releases or waits for a mutex. */
module Pipeline {
  import opened Basics
  import opened Counting

  datatype Cell = Cell(ready: bool, data: int)

  /** Where the thread of a stage is. */
  datatype Pc =
    | Start                        // before its first lock
    | AvailWait(woken: bool)       // waiting for data, mutex released
    | Sending                      // holds its mutex, about to lock the next stage
    | ReadyWait(woken: bool)       // holds its mutex, waits until the next stage is empty
    | Finishing                    // has sent, still has to mark its own stage empty

  datatype Client =
    | Idle
    | Send(value: int)                       // in pipe_start, `active` already incremented
    | SendWait(value: int, woken: bool)      // waits until the head is empty
    | Take                                   // in pipe_result, `active` already decremented
    | TakeWait(woken: bool)                  // waits until the tail is full

  /** `accepted` and `results` are history: the values put into the head stage and the
      values handed out by pipe_result, in order. */
  datatype State = State(
    cells: seq<Cell>, pcs: seq<Pc>, clients: seq<Client>, active: int,
    accepted: seq<int>, results: seq<int>)

  predicate WellTyped(s: State) {
    |s.cells| == |s.pcs| + 1
  }

  predicate Initial(s: State) {
    && WellTyped(s) && s.active == 0 && s.accepted == [] && s.results == []
    && (forall i :: 0 <= i < |s.cells| ==> !s.cells[i].ready)
    && (forall i :: 0 <= i < |s.pcs| ==> s.pcs[i] == Start)
    && (forall c :: 0 <= c < |s.clients| ==> s.clients[c] == Idle)
  }

  /** Nobody holds the mutex of stage i. */
  predicate MutexFree(s: State, i: nat)
    requires i <= |s.pcs|
  {
    i == |s.pcs| || s.pcs[i].Start? || s.pcs[i].AvailWait?
  }

  // ---------- signals ----------

  /** Signal `avail` of stage i: its thread wakes, or at the tail at least one client. */
  ghost predicate SignalAvail(s: State, s': State, i: nat)
    requires i <= |s.pcs|
  {
    if i < |s.pcs| then
      && s'.clients == s.clients
      && s'.pcs == if s.pcs[i] == AvailWait(false) then s.pcs[i := AvailWait(true)] else s.pcs
    else s'.pcs == s.pcs && WakeTakers(s.clients, s'.clients)
  }

  /** Signal `ready` of stage i: the thread before it wakes, or at the head at least one
      client. */
  ghost predicate SignalReady(s: State, s': State, i: nat)
    requires i <= |s.pcs|
  {
    if i > 0 then
      && s'.clients == s.clients
      && s'.pcs == if s.pcs[i - 1] == ReadyWait(false) then s.pcs[i - 1 := ReadyWait(true)] else s.pcs
    else s'.pcs == s.pcs && WakeSenders(s.clients, s'.clients)
  }

  ghost predicate WakeTakers(cs: seq<Client>, cs': seq<Client>) {
    && |cs'| == |cs|
    && (forall c :: 0 <= c < |cs| ==>
          cs'[c] == cs[c] || (cs[c] == TakeWait(false) && cs'[c] == TakeWait(true)))
    && ((exists c :: 0 <= c < |cs| && cs[c] == TakeWait(false)) ==>
          exists c :: 0 <= c < |cs| && cs[c] == TakeWait(false) && cs'[c] == TakeWait(true))
  }

  ghost predicate WakeSenders(cs: seq<Client>, cs': seq<Client>) {
    && |cs'| == |cs|
    && (forall c :: 0 <= c < |cs| ==>
          cs'[c] == cs[c] || (cs[c].SendWait? && !cs[c].woken && cs'[c] == cs[c].(woken := true)))
    && ((exists c :: 0 <= c < |cs| && AsleepSender(cs[c])) ==>
          exists c :: 0 <= c < |cs| && AsleepSender(cs[c]) && cs'[c] == cs[c].(woken := true))
  }

  predicate AsleepSender(c: Client) {
    c.SendWait? && !c.woken
  }

  // ---------- steps of the stage threads ----------

  datatype Action = Wake | Forward | Finish

  predicate Enabled(s: State, i: nat, a: Action) {
    && WellTyped(s) && i < |s.pcs|
    && match a
       case Wake => s.pcs[i] == Start || s.pcs[i] == AvailWait(true)
       case Forward => (s.pcs[i] == Sending || s.pcs[i] == ReadyWait(true)) && MutexFree(s, i + 1)
       case Finish => s.pcs[i] == Finishing
  }

  ghost predicate StageStep(s: State, s': State, i: nat, a: Action)
    requires Enabled(s, i, a)
  {
    match a
    case Wake =>
      s' == s.(pcs := s.pcs[i := if s.cells[i].ready then Sending else AvailWait(false)])
    case Forward =>
      if s.cells[i + 1].ready then s' == s.(pcs := s.pcs[i := ReadyWait(false)])
      else
        var mid := s.(cells := s.cells[i + 1 := Cell(true, s.cells[i].data + 1)], pcs := s.pcs[i := Finishing]);
        s' == mid.(pcs := s'.pcs, clients := s'.clients) && SignalAvail(mid, s', i + 1)
    case Finish =>
      var mid := s.(cells := s.cells[i := s.cells[i].(ready := false)], pcs := s.pcs[i := AvailWait(false)]);
      s' == mid.(pcs := s'.pcs, clients := s'.clients) && SignalReady(mid, s', i)
  }

  // ---------- steps of the clients ----------

  datatype Call = Begin(value: int) | Put | BeginResult | Get

  predicate ClientEnabled(s: State, c: nat, a: Call) {
    && WellTyped(s) && c < |s.clients|
    && match a
       case Begin(_) => s.clients[c].Idle?
       case Put => (s.clients[c].Send? || (s.clients[c].SendWait? && s.clients[c].woken)) && MutexFree(s, 0)
       case BeginResult => s.clients[c].Idle?
       case Get => s.clients[c] == Take || s.clients[c] == TakeWait(true)
  }

  ghost predicate ClientStep(s: State, s': State, c: nat, a: Call)
    requires ClientEnabled(s, c, a)
  {
    var n := |s.pcs|;
    match a
    case Begin(v) => s' == s.(active := s.active + 1, clients := s.clients[c := Send(v)])
    case Put =>
      var v := s.clients[c].value;
      if s.cells[0].ready then s' == s.(clients := s.clients[c := SendWait(v, false)])
      else
        var mid := s.(cells := s.cells[0 := Cell(true, v)], clients := s.clients[c := Idle],
                      accepted := s.accepted + [v]);
        s' == mid.(pcs := s'.pcs, clients := s'.clients) && SignalAvail(mid, s', 0)
    case BeginResult =>
      // with nothing active pipe_result returns 0 at once
      s' == if s.active <= 0 then s else s.(active := s.active - 1, clients := s.clients[c := Take])
    case Get =>
      if !s.cells[n].ready then s' == s.(clients := s.clients[c := TakeWait(false)])
      else
        var mid := s.(cells := s.cells[n := s.cells[n].(ready := false)], clients := s.clients[c := Idle],
                      results := s.results + [s.cells[n].data]);
        s' == mid.(pcs := s'.pcs, clients := s'.clients) && SignalReady(mid, s', n)
  }

  /** A wakeup without a signal. */
  ghost predicate Spurious(s: State, s': State) {
    || (exists i :: 0 <= i < |s.pcs| && s.pcs[i] == AvailWait(false) && s' == s.(pcs := s.pcs[i := AvailWait(true)]))
    || (exists i :: 0 <= i < |s.pcs| && s.pcs[i] == ReadyWait(false) && s' == s.(pcs := s.pcs[i := ReadyWait(true)]))
    || (exists c :: 0 <= c < |s.clients| && (s.clients[c] == TakeWait(false) || AsleepSender(s.clients[c]))
          && s' == s.(clients := s.clients[c := s.clients[c].(woken := true)]))
  }

  // ---------- nothing is lost, duplicated or reordered ----------

  /** Cell i holds an item that has not been passed on yet. */
  predicate Holds(s: State, i: nat)
    requires WellTyped(s) && i <= |s.pcs|
  {
    s.cells[i].ready && (i < |s.pcs| ==> !s.pcs[i].Finishing?)
  }

  /** The values that entered and are still in cells i and later, oldest first; each
      stage passed has added one. */
  function Flight(s: State, i: nat): (xs: seq<int>)
    requires WellTyped(s) && i <= |s.cells|
    decreases |s.cells| - i
  {
    if i == |s.cells| then []
    else Flight(s, i + 1) + (if Holds(s, i) then [s.cells[i].data - i] else [])
  }

  /** The values that entered and came out. */
  function Originals(results: seq<int>, n: nat): (xs: seq<int>)
    ensures |xs| == |results|
  {
    seq(|results|, j requires 0 <= j < |results| => results[j] - n)
  }

  ghost predicate Conserved(s: State)
    requires WellTyped(s)
  {
    s.accepted == Originals(s.results, |s.pcs|) + Flight(s, 0)
  }

  lemma {:induction false} FlightSame(s: State, s': State, i: nat)
    requires WellTyped(s) && WellTyped(s') && |s.pcs| == |s'.pcs| && i <= |s.cells|
    requires forall j :: i <= j < |s.cells| ==>
      Holds(s, j) == Holds(s', j) && (Holds(s, j) ==> s.cells[j].data == s'.cells[j].data)
    ensures Flight(s, i) == Flight(s', i)
    decreases |s.cells| - i
  {
    if i < |s.cells| {
      FlightSame(s, s', i + 1);
    }
  }

  /** An item moves from cell k to the empty cell k + 1. */
  lemma {:induction false} FlightMoves(s: State, s': State, k: nat, i: nat)
    requires WellTyped(s) && WellTyped(s') && |s.pcs| == |s'.pcs| && i <= k < |s.pcs|
    requires Holds(s, k) && !Holds(s, k + 1) && !Holds(s', k) && Holds(s', k + 1)
    requires s'.cells[k + 1].data == s.cells[k].data + 1
    requires forall j :: 0 <= j < |s.cells| && j != k && j != k + 1 ==>
      Holds(s, j) == Holds(s', j) && (Holds(s, j) ==> s.cells[j].data == s'.cells[j].data)
    ensures Flight(s, i) == Flight(s', i)
    decreases k - i
  {
    if i < k {
      FlightMoves(s, s', k, i + 1);
    } else {
      FlightSame(s, s', k + 2);
      var xs, d := Flight(s, k + 2), s.cells[k].data - k;
      assert Flight(s, k + 1) == xs + [];
      assert Flight(s, k) == xs + [] + [d];
      assert Flight(s', k + 1) == xs + [d];
      assert Flight(s', k) == xs + [d] + [];
    }
  }

  /** The item in the tail leaves. */
  lemma {:induction false} FlightTaken(s: State, s': State, i: nat)
    requires WellTyped(s) && WellTyped(s') && |s.pcs| == |s'.pcs| && i <= |s.pcs|
    requires Holds(s, |s.pcs|) && !Holds(s', |s.pcs|)
    requires forall j :: 0 <= j < |s.pcs| ==>
      Holds(s, j) == Holds(s', j) && (Holds(s, j) ==> s.cells[j].data == s'.cells[j].data)
    ensures Flight(s, i) == [s.cells[|s.pcs|].data - |s.pcs|] + Flight(s', i)
    decreases |s.pcs| - i
  {
    var d := s.cells[|s.pcs|].data - |s.pcs|;
    if i < |s.pcs| {
      FlightTaken(s, s', i + 1);
      var last := if Holds(s, i) then [s.cells[i].data - i] else [];
      assert [d] + Flight(s', i + 1) + last == [d] + (Flight(s', i + 1) + last);
    } else {
      assert Flight(s, i + 1) == [] && Flight(s', i + 1) == [];
      assert Flight(s, i) == [] + [d] && Flight(s', i) == [] + [];
    }
  }

  // ---------- the invariant ----------

  /** A thread that is sending has an item; a thread whose cell is full is not asleep; and
      it sleeps on the next stage only while that is full. */
  ghost predicate ThreadOk(s: State, i: nat)
    requires WellTyped(s) && i < |s.pcs|
  {
    && (s.pcs[i].Sending? || s.pcs[i].ReadyWait? || s.pcs[i].Finishing? ==> s.cells[i].ready)
    && (s.cells[i].ready ==> s.pcs[i] != AvailWait(false))
    && (s.pcs[i] == ReadyWait(false) ==> s.cells[i + 1].ready)
  }

  ghost predicate Threads(s: State)
    requires WellTyped(s)
  {
    forall i :: 0 <= i < |s.pcs| ==> ThreadOk(s, i)
  }

  predicate IsSender(c: Client) { c.Send? || c.SendWait? }
  predicate IsTaker(c: Client) { c.Take? || c.TakeWait? }

  /** A full tail with a sleeping taker has a woken one; an empty head with a sleeping
      sender has a woken one. */
  ghost predicate ClientsOk(s: State)
    requires WellTyped(s)
  {
    && (s.cells[|s.pcs|].ready && (exists c :: 0 <= c < |s.clients| && s.clients[c] == TakeWait(false)) ==>
          exists c :: 0 <= c < |s.clients| && s.clients[c] == TakeWait(true))
    && (!s.cells[0].ready && (exists c :: 0 <= c < |s.clients| && AsleepSender(s.clients[c])) ==>
          exists c :: 0 <= c < |s.clients| && s.clients[c].SendWait? && s.clients[c].woken)
  }

  /** `active` is what is in the pipe or on its way into it and not yet claimed. */
  ghost predicate ActiveOk(s: State)
    requires WellTyped(s)
  {
    0 <= s.active == |Flight(s, 0)| + Count(s.clients, IsSender) - Count(s.clients, IsTaker)
  }

  ghost predicate Inv(s: State) {
    WellTyped(s) && Threads(s) && ClientsOk(s) && Conserved(s) && ActiveOk(s)
  }

  ghost predicate StepsTo(s: State, s': State) {
    || (exists i, a :: Enabled(s, i, a) && StageStep(s, s', i, a))
    || (exists c, a :: ClientEnabled(s, c, a) && ClientStep(s, s', c, a))
    || Spurious(s, s')
  }

  lemma InitialInv(s: State)
    requires Initial(s)
    ensures Inv(s)
  {
    EmptyFlight(s, 0);
    CountZero(s.clients, IsSender);
    CountZero(s.clients, IsTaker);
  }

  lemma {:induction false} EmptyFlight(s: State, i: nat)
    requires WellTyped(s) && i <= |s.cells| && forall j :: 0 <= j < |s.cells| ==> !s.cells[j].ready
    ensures Flight(s, i) == []
    decreases |s.cells| - i
  {
    if i < |s.cells| {
      EmptyFlight(s, i + 1);
    }
  }

  // ---------- stage steps ----------

  lemma StageFlight(s: State, s': State, i: nat, a: Action)
    requires Inv(s) && Enabled(s, i, a) && StageStep(s, s', i, a)
    ensures WellTyped(s') && |s'.pcs| == |s.pcs| && Flight(s', 0) == Flight(s, 0)
  {
    assert ThreadOk(s, i);
    if a.Forward? && !s.cells[i + 1].ready {
      FlightMoves(s, s', i, 0);
    } else {
      FlightSame(s, s', 0);
    }
  }

  lemma WakeThreads(s: State, s': State, i: nat)
    requires Inv(s) && Enabled(s, i, Wake) && StageStep(s, s', i, Wake)
    ensures Threads(s')
  {
    forall j | 0 <= j < |s'.pcs|
      ensures ThreadOk(s', j)
    {
      assert ThreadOk(s, j);
    }
  }

  lemma ForwardThreads(s: State, s': State, i: nat)
    requires Inv(s) && Enabled(s, i, Forward) && StageStep(s, s', i, Forward)
    ensures Threads(s')
  {
    forall j | 0 <= j < |s'.pcs|
      ensures ThreadOk(s', j)
    {
      assert ThreadOk(s, j);
    }
  }

  lemma FinishThreads(s: State, s': State, i: nat)
    requires Inv(s) && Enabled(s, i, Finish) && StageStep(s, s', i, Finish)
    ensures Threads(s')
  {
    forall j | 0 <= j < |s'.pcs|
      ensures ThreadOk(s', j)
    {
      assert ThreadOk(s, j);
    }
  }

  lemma StageClients(s: State, s': State, i: nat, a: Action)
    requires Inv(s) && Enabled(s, i, a) && StageStep(s, s', i, a)
    ensures ClientsOk(s')
  {
  }

  lemma StageActive(s: State, s': State, i: nat, a: Action)
    requires Inv(s) && Enabled(s, i, a) && StageStep(s, s', i, a)
    ensures Count(s'.clients, IsSender) == Count(s.clients, IsSender)
    ensures Count(s'.clients, IsTaker) == Count(s.clients, IsTaker)
  {
    CountSame(s'.clients, s.clients, IsSender);
    CountSame(s'.clients, s.clients, IsTaker);
  }

  lemma StageKeepsInv(s: State, s': State, i: nat, a: Action)
    requires Inv(s) && Enabled(s, i, a) && StageStep(s, s', i, a)
    ensures Inv(s') && |s'.pcs| == |s.pcs|
  {
    StageFlight(s, s', i, a);
    match a {
      case Wake => WakeThreads(s, s', i);
      case Forward => ForwardThreads(s, s', i);
      case Finish => FinishThreads(s, s', i);
    }
    StageClients(s, s', i, a);
    StageActive(s, s', i, a);
  }

  // ---------- client steps ----------

  lemma PutFlight(s: State, s': State, c: nat)
    requires Inv(s) && ClientEnabled(s, c, Put) && ClientStep(s, s', c, Put)
    ensures WellTyped(s') && |s'.pcs| == |s.pcs|
    ensures if s.cells[0].ready then Flight(s', 0) == Flight(s, 0) && s'.accepted == s.accepted
            else Flight(s', 0) == Flight(s, 0) + [s.clients[c].value]
  {
    if s.cells[0].ready {
      FlightSame(s, s', 0);
    } else {
      FlightSame(s, s', 1);
    }
  }

  lemma GetFlight(s: State, s': State, c: nat)
    requires Inv(s) && ClientEnabled(s, c, Get) && ClientStep(s, s', c, Get)
    ensures WellTyped(s') && |s'.pcs| == |s.pcs|
    ensures var n := |s.pcs|;
      if s.cells[n].ready then Flight(s, 0) == [s.cells[n].data - n] + Flight(s', 0)
      else Flight(s', 0) == Flight(s, 0)
  {
    if s.cells[|s.pcs|].ready {
      FlightTaken(s, s', 0);
    } else {
      FlightSame(s, s', 0);
    }
  }

  lemma ClientThreads(s: State, s': State, c: nat, a: Call)
    requires Inv(s) && ClientEnabled(s, c, a) && ClientStep(s, s', c, a) && WellTyped(s')
    ensures Threads(s')
  {
    forall j | 0 <= j < |s'.pcs|
      ensures ThreadOk(s', j)
    {
      assert ThreadOk(s, j);
    }
  }

  lemma BeginClients(s: State, s': State, c: nat, a: Call)
    requires Inv(s) && (a.Begin? || a.BeginResult?) && ClientEnabled(s, c, a) && ClientStep(s, s', c, a)
    ensures ClientsOk(s')
  {
    forall d | 0 <= d < |s.clients| && (s.clients[d].TakeWait? || s.clients[d].SendWait?)
      ensures s'.clients[d] == s.clients[d]
    {
    }
  }

  lemma PutClients(s: State, s': State, c: nat)
    requires Inv(s) && ClientEnabled(s, c, Put) && ClientStep(s, s', c, Put) && WellTyped(s')
    ensures ClientsOk(s')
  {
    forall d | 0 <= d < |s.clients| && s.clients[d].TakeWait?
      ensures s'.clients[d].TakeWait? && (s.clients[d].woken ==> s'.clients[d].woken)
    {
    }
  }

  lemma GetClients(s: State, s': State, c: nat)
    requires Inv(s) && ClientEnabled(s, c, Get) && ClientStep(s, s', c, Get) && WellTyped(s')
    ensures ClientsOk(s')
  {
    forall d | 0 <= d < |s.clients| && s.clients[d].SendWait?
      ensures s'.clients[d].SendWait? && (s.clients[d].woken ==> s'.clients[d].woken)
    {
    }
  }

  /** The counts of senders and takers after client c has become `now`, whoever else was
      woken. */
  lemma ClientCounts(cs: seq<Client>, cs': seq<Client>, c: nat, now: Client)
    requires c < |cs| == |cs'|
    requires forall d :: 0 <= d < |cs| ==>
      IsSender(cs'[d]) == IsSender(cs[c := now][d]) && IsTaker(cs'[d]) == IsTaker(cs[c := now][d])
    ensures Count(cs', IsSender) == Count(cs, IsSender) - Bit(IsSender(cs[c])) + Bit(IsSender(now))
    ensures Count(cs', IsTaker) == Count(cs, IsTaker) - Bit(IsTaker(cs[c])) + Bit(IsTaker(now))
  {
    CountUpdate(cs, c, now, IsSender);
    CountUpdate(cs, c, now, IsTaker);
    CountSame(cs', cs[c := now], IsSender);
    CountSame(cs', cs[c := now], IsTaker);
  }

  lemma PutKeepsInv(s: State, s': State, c: nat)
    requires Inv(s) && ClientEnabled(s, c, Put) && ClientStep(s, s', c, Put)
    ensures Inv(s') && |s'.pcs| == |s.pcs|
  {
    PutFlight(s, s', c);
    ClientThreads(s, s', c, Put);
    PutClients(s, s', c);
    var v := s.clients[c].value;
    ClientCounts(s.clients, s'.clients, c, if s.cells[0].ready then SendWait(v, false) else Idle);
    if !s.cells[0].ready {
      assert Originals(s.results, |s.pcs|) + Flight(s, 0) + [v] == Originals(s.results, |s.pcs|) + (Flight(s, 0) + [v]);
    }
  }

  lemma GetKeepsInv(s: State, s': State, c: nat)
    requires Inv(s) && ClientEnabled(s, c, Get) && ClientStep(s, s', c, Get)
    ensures Inv(s') && |s'.pcs| == |s.pcs|
  {
    var n := |s.pcs|;
    GetFlight(s, s', c);
    ClientThreads(s, s', c, Get);
    GetClients(s, s', c);
    ClientCounts(s.clients, s'.clients, c, if s.cells[n].ready then Idle else TakeWait(false));
    if s.cells[n].ready {
      var d := s.cells[n].data;
      assert Originals(s.results + [d], n) == Originals(s.results, n) + [d - n];
      assert Originals(s.results, n) + ([d - n] + Flight(s', 0)) == Originals(s.results, n) + [d - n] + Flight(s', 0);
    }
  }

  lemma BeginKeepsInv(s: State, s': State, c: nat, a: Call)
    requires Inv(s) && (a.Begin? || a.BeginResult?) && ClientEnabled(s, c, a) && ClientStep(s, s', c, a)
    ensures Inv(s') && |s'.pcs| == |s.pcs|
  {
    if s' != s {
      FlightSame(s, s', 0);
      ClientThreads(s, s', c, a);
      BeginClients(s, s', c, a);
      ClientCounts(s.clients, s'.clients, c, s'.clients[c]);
    }
  }

  lemma SpuriousKeepsInv(s: State, s': State)
    requires Inv(s) && Spurious(s, s')
    ensures Inv(s') && |s'.pcs| == |s.pcs|
  {
    FlightSame(s, s', 0);
    CountSame(s'.clients, s.clients, IsSender);
    CountSame(s'.clients, s.clients, IsTaker);
    SpuriousThreads(s, s');
    SpuriousClients(s, s');
  }

  lemma SpuriousThreads(s: State, s': State)
    requires WellTyped(s) && Threads(s) && Spurious(s, s')
    ensures Threads(s')
  {
    forall j | 0 <= j < |s'.pcs|
      ensures ThreadOk(s', j)
    {
      assert ThreadOk(s, j);
    }
  }

  lemma SpuriousClients(s: State, s': State)
    requires WellTyped(s) && ClientsOk(s) && Spurious(s, s')
    ensures ClientsOk(s')
  {
    forall c | 0 <= c < |s.clients|
      ensures s.clients[c] == TakeWait(true) ==> s'.clients[c] == TakeWait(true)
      ensures s.clients[c].SendWait? && s.clients[c].woken ==> s'.clients[c] == s.clients[c]
    {
    }
  }

  lemma StepKeepsInv(s: State, s': State)
    requires Inv(s) && StepsTo(s, s')
    ensures Inv(s') && |s'.pcs| == |s.pcs|
  {
    if i, a :| Enabled(s, i, a) && StageStep(s, s', i, a) {
      StageKeepsInv(s, s', i, a);
    } else if c, a :| ClientEnabled(s, c, a) && ClientStep(s, s', c, a) {
      match a
      case Put => PutKeepsInv(s, s', c);
      case Get => GetKeepsInv(s, s', c);
      case _ => BeginKeepsInv(s, s', c, a);
    } else {
      SpuriousKeepsInv(s, s');
    }
  }

  // ---------- whole runs ----------

  ghost predicate IsRun(run: seq<State>) {
    && |run| > 0 && Initial(run[0])
    && forall i :: 0 <= i < |run| - 1 ==> StepsTo(run[i], run[i + 1])
  }

  lemma {:induction false} RunInv(run: seq<State>, i: nat)
    requires IsRun(run) && i < |run|
    ensures Inv(run[i]) && |run[i].pcs| == |run[0].pcs|
  {
    if i == 0 {
      InitialInv(run[0]);
    } else {
      RunInv(run, i - 1);
      assert StepsTo(run[i - 1], run[i]);
      StepKeepsInv(run[i - 1], run[i]);
    }
  }

  /** In every run the n-th value taken is the n-th value accepted plus the number of
      stages, and what has been accepted but not taken is still in the pipe. */
  lemma InOrderNothingLost(run: seq<State>, i: nat, j: nat)
    requires IsRun(run) && i < |run| && j < |run[i].results|
    ensures WellTyped(run[i]) && |run[i].accepted| == |run[i].results| + |Flight(run[i], 0)|
    ensures run[i].results[j] == run[i].accepted[j] + |run[0].pcs|
  {
    RunInv(run, i);
    assert Originals(run[i].results, |run[i].pcs|)[j] == run[i].results[j] - |run[i].pcs|;
  }

  // ---------- nobody is stuck ----------

  /** A signal to clients can wake exactly one of those that sleep, if there is one. */
  lemma WakeOneTaker(cs: seq<Client>) returns (cs': seq<Client>)
    ensures WakeTakers(cs, cs')
    ensures cs' == cs || exists c :: 0 <= c < |cs| && cs[c] == TakeWait(false) && cs' == cs[c := TakeWait(true)]
  {
    cs' := cs;
    if c :| 0 <= c < |cs| && cs[c] == TakeWait(false) {
      cs' := cs[c := TakeWait(true)];
      assert cs[c] == TakeWait(false) && cs'[c] == TakeWait(true);
    }
  }

  lemma WakeOneSender(cs: seq<Client>) returns (cs': seq<Client>)
    ensures WakeSenders(cs, cs')
    ensures cs' == cs || exists c :: 0 <= c < |cs| && AsleepSender(cs[c]) && cs' == cs[c := cs[c].(woken := true)]
  {
    cs' := cs;
    if c :| 0 <= c < |cs| && AsleepSender(cs[c]) {
      cs' := cs[c := cs[c].(woken := true)];
      assert AsleepSender(cs[c]) && cs'[c] == cs[c].(woken := true);
    }
  }

  lemma SendAvail(s: State, i: nat) returns (s': State)
    requires i <= |s.pcs|
    ensures SignalAvail(s, s', i) && s' == s.(pcs := s'.pcs, clients := s'.clients)
    ensures forall j :: 0 <= j < |s.pcs| && j != i ==> |s'.pcs| == |s.pcs| && s'.pcs[j] == s.pcs[j]
  {
    if i < |s.pcs| {
      s' := if s.pcs[i] == AvailWait(false) then s.(pcs := s.pcs[i := AvailWait(true)]) else s;
    } else {
      var cs := WakeOneTaker(s.clients);
      s' := s.(clients := cs);
    }
  }

  lemma SendReady(s: State, i: nat) returns (s': State)
    requires i <= |s.pcs|
    ensures SignalReady(s, s', i) && s' == s.(pcs := s'.pcs, clients := s'.clients)
    ensures forall j :: 0 <= j < |s.pcs| && j + 1 != i ==> |s'.pcs| == |s.pcs| && s'.pcs[j] == s.pcs[j]
  {
    if i > 0 {
      s' := if s.pcs[i - 1] == ReadyWait(false) then s.(pcs := s.pcs[i - 1 := ReadyWait(true)]) else s;
    } else {
      var cs := WakeOneSender(s.clients);
      s' := s.(clients := cs);
    }
  }

  /** The thread of stage i can take a step that moves it on, not just back to waiting. */
  ghost predicate CanAdvance(s: State, i: nat) {
    exists s', a :: Enabled(s, i, a) && StageStep(s, s', i, a) && |s'.pcs| == |s.pcs|
      && s'.pcs[i] == match a case Wake => Sending case Forward => Finishing case Finish => AvailWait(false)
  }

  lemma Advances(s: State, i: nat)
    requires WellTyped(s) && i < |s.pcs|
    requires || (Enabled(s, i, Wake) && s.cells[i].ready)
             || (Enabled(s, i, Forward) && !s.cells[i + 1].ready)
             || Enabled(s, i, Finish)
    ensures CanAdvance(s, i)
  {
    if Enabled(s, i, Wake) {
      assert StageStep(s, s.(pcs := s.pcs[i := Sending]), i, Wake);
    } else if Enabled(s, i, Forward) {
      var mid := s.(cells := s.cells[i + 1 := Cell(true, s.cells[i].data + 1)], pcs := s.pcs[i := Finishing]);
      var s' := SendAvail(mid, i + 1);
      assert StageStep(s, s', i, Forward);
    } else {
      var mid := s.(cells := s.cells[i := s.cells[i].(ready := false)], pcs := s.pcs[i := AvailWait(false)]);
      var s' := SendReady(mid, i);
      assert StageStep(s, s', i, Finish);
    }
  }

  /** A client that may go on and finds what it waits for can finish its call. */
  lemma ClientsFinish(s: State, c: nat) returns (s': State)
    requires WellTyped(s) && c < |s.clients|
    requires (ClientEnabled(s, c, Put) && !s.cells[0].ready) || (ClientEnabled(s, c, Get) && s.cells[|s.pcs|].ready)
    ensures |s'.clients| == |s.clients| && s'.clients[c] == Idle
    ensures ClientStep(s, s', c, if ClientEnabled(s, c, Put) then Put else Get)
  {
    if ClientEnabled(s, c, Put) {
      var v := s.clients[c].value;
      s' := SendAvail(s.(cells := s.cells[0 := Cell(true, v)], clients := s.clients[c := Idle],
                        accepted := s.accepted + [v]), 0);
    } else {
      var n := |s.pcs|;
      s' := SendReady(s.(cells := s.cells[n := s.cells[n].(ready := false)], clients := s.clients[c := Idle],
                        results := s.results + [s.cells[n].data]), n);
    }
  }

  lemma {:induction false} LastFull(s: State, i: nat) returns (k: nat)
    requires WellTyped(s) && i < |s.pcs| && s.cells[i].ready
    ensures i <= k < |s.pcs| && s.cells[k].ready
    ensures forall j :: k < j < |s.pcs| ==> !s.cells[j].ready
    decreases |s.pcs| - i
  {
    if j :| i < j < |s.pcs| && s.cells[j].ready {
      k := LastFull(s, j);
    } else {
      k := i;
    }
  }

  /** No deadlock: while some item is short of an empty tail, some stage thread can
      advance. */
  lemma ItemsKeepMoving(run: seq<State>, i: nat, k: nat) returns (j: nat)
    requires IsRun(run) && i < |run|
    requires WellTyped(run[i]) && k < |run[i].pcs| && run[i].cells[k].ready && !run[i].cells[|run[i].pcs|].ready
    ensures CanAdvance(run[i], j)
  {
    RunInv(run, i);
    var s := run[i];
    j := LastFull(s, k);
    assert ThreadOk(s, j);
    if j + 1 < |s.pcs| {
      assert ThreadOk(s, j + 1);
    }
    Advances(s, j);
  }

  /** A client inside pipe_result is owed an item: there are at least as many items in
      the pipe or being put in as there are such clients. */
  lemma TakersAreOwed(run: seq<State>, i: nat)
    requires IsRun(run) && i < |run|
    ensures WellTyped(run[i])
    ensures Count(run[i].clients, IsTaker) <= |Flight(run[i], 0)| + Count(run[i].clients, IsSender)
    ensures ClientsOk(run[i])
  {
    RunInv(run, i);
  }

  /** pipe_result answers that there is nothing exactly when every item in the pipe and on
      its way into it is owed to a client already; otherwise the caller is owed one too. */
  lemma ResultAnswers(run: seq<State>, i: nat, s': State, c: nat)
    requires IsRun(run) && i < |run|
    requires ClientEnabled(run[i], c, BeginResult) && ClientStep(run[i], s', c, BeginResult)
    ensures var s := run[i];
      var nothing := Count(s.clients, IsTaker) == |Flight(s, 0)| + Count(s.clients, IsSender);
      && s'.clients == (if nothing then s.clients else s.clients[c := Take])
      && s'.cells == s.cells && s'.pcs == s.pcs && s'.accepted == s.accepted && s'.results == s.results
  {
    RunInv(run, i);
  }
}
