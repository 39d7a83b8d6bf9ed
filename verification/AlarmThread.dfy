/** The alarm program of posix_multithread/programs_src/alarm_cond.c: the main thread
    inserts alarms into a sorted list, and the alarm thread holds the earliest one until
    it expires or an earlier one arrives. */
module AlarmThread {
  import opened Basics

  /** `id` tells alarms apart; the message plays no part. */
  datatype Alarm = Alarm(id: nat, time: int)

  // ---------- the sorted list ----------

  ghost predicate Sorted(list: seq<Alarm>) {
    forall i, j :: 0 <= i < j < |list| ==> list[i].time <= list[j].time
  }

  /** The new alarm goes before the first one that is not earlier. */
  function Insert(list: seq<Alarm>, a: Alarm): (r: seq<Alarm>) {
    if list == [] || list[0].time >= a.time then [a] + list
    else [list[0]] + Insert(list[1..], a)
  }

  lemma {:induction false} InsertCounts(list: seq<Alarm>, a: Alarm, x: Alarm)
    ensures multiset(Insert(list, a))[x] == multiset(list)[x] + Bit(x == a)
  {
    if list == [] || list[0].time >= a.time {
    } else {
      InsertCounts(list[1..], a, x);
      assert list == [list[0]] + list[1..];
    }
  }

  lemma {:induction false} InsertMember(list: seq<Alarm>, a: Alarm, i: nat)
    requires i < |Insert(list, a)|
    ensures Insert(list, a)[i] == a || Insert(list, a)[i] in list
  {
    if list == [] || list[0].time >= a.time {
    } else if i > 0 {
      InsertMember(list[1..], a, i - 1);
    }
  }

  lemma {:induction false} InsertSorted(list: seq<Alarm>, a: Alarm)
    requires Sorted(list)
    ensures Sorted(Insert(list, a))
    ensures Insert(list, a)[0].time == if list == [] || list[0].time >= a.time then a.time else list[0].time
  {
    if list == [] || list[0].time >= a.time {
    } else {
      var rest := Insert(list[1..], a);
      InsertSorted(list[1..], a);
      forall j | 0 <= j < |rest|
        ensures list[0].time <= rest[j].time
      {
        InsertMember(list[1..], a, j);
      }
    }
  }

  // ---------- the two threads ----------

  datatype Pc =
    | Begin                                   // before its first lock
    | Top                                     // at the top of its loop, mutex held
    | EmptyWait(woken: bool)                  // waits for any alarm
    | TimedWait(alarm: Alarm, woken: bool)    // waits until the alarm it holds expires

  /** An alarm and the time at which it was printed. */
  datatype Print = Print(alarm: Alarm, at: int)

  /** `accepted` and `printed` are history. */
  datatype State = State(
    now: int, list: seq<Alarm>, currentAlarm: int, pc: Pc,
    accepted: seq<Alarm>, printed: seq<Print>)

  predicate Initial(s: State) {
    s.list == [] && s.currentAlarm == 0 && s.pc == Begin && s.accepted == [] && s.printed == []
  }

  /** pthread_cond_signal on alarm_cond, whose only waiter is the alarm thread. */
  function Signalled(pc: Pc): (r: Pc) {
    match pc
    case EmptyWait(_) => EmptyWait(true)
    case TimedWait(a, _) => TimedWait(a, true)
    case _ => pc
  }

  /** alarm_insert */
  function AlarmInsert(s: State, a: Alarm): (s': State) {
    var s1 := s.(list := Insert(s.list, a));
    if s.currentAlarm == 0 || a.time < s.currentAlarm
    then s1.(currentAlarm := a.time, pc := Signalled(s.pc)) else s1
  }

  function PrintAlarm(s: State, a: Alarm): (s': State) {
    s.(printed := s.printed + [Print(a, s.now)], pc := Top)
  }

  /** The alarm thread takes the first alarm and waits for it or prints it. */
  function TakeFirst(s: State): (s': State)
    requires s.list != []
  {
    var a := s.list[0];
    var s1 := s.(list := s.list[1..]);
    if a.time > s.now then s1.(currentAlarm := a.time, pc := TimedWait(a, false)) else PrintAlarm(s1, a)
  }

  datatype Action = Lock | Next | EmptyRetest | TimedRetest | Timeout | Add(seconds: int) | Clock(now: int) | Spurious

  predicate MutexFree(s: State) {
    !s.pc.Top?
  }

  predicate Enabled(s: State, a: Action) {
    match a
    case Lock => s.pc == Begin
    case Next => s.pc == Top
    case EmptyRetest => s.pc == EmptyWait(true)
    case TimedRetest => s.pc.TimedWait? && s.pc.woken
    case Timeout => s.pc.TimedWait? && s.now >= s.pc.alarm.time
    case Add(seconds) => MutexFree(s) && s.now + seconds > 0
    case Clock(now) => now >= s.now
    case Spurious => s.pc.EmptyWait? || s.pc.TimedWait?
  }

  function Step(s: State, a: Action): (s': State)
    requires Enabled(s, a)
  {
    match a
    case Lock => s.(pc := Top)
    case Next =>
      var s1 := s.(currentAlarm := 0);
      if s.list == [] then s1.(pc := EmptyWait(false)) else TakeFirst(s1)
    case EmptyRetest =>
      if s.list == [] then s.(pc := EmptyWait(false)) else TakeFirst(s)
    case TimedRetest =>
      if s.currentAlarm == s.pc.alarm.time then s.(pc := TimedWait(s.pc.alarm, false))
      else AlarmInsert(s.(pc := Top), s.pc.alarm)
    case Timeout => PrintAlarm(s, s.pc.alarm)
    case Add(seconds) =>
      var a := Alarm(|s.accepted|, s.now + seconds);
      AlarmInsert(s.(accepted := s.accepted + [a]), a)
    case Clock(now) => s.(now := now)
    case Spurious => s.(pc := Signalled(s.pc))
  }

  // ---------- the invariant ----------

  function Alarms(ps: seq<Print>): (r: seq<Alarm>)
    ensures |r| == |ps|
  {
    seq(|ps|, i requires 0 <= i < |ps| => ps[i].alarm)
  }

  /** How often alarm x is queued, held or printed. */
  ghost function Total(s: State, x: Alarm): (n: int) {
    multiset(s.list)[x] + Bit(s.pc.TimedWait? && s.pc.alarm == x) + multiset(Alarms(s.printed))[x]
  }

  /** Alarms are numbered as they are accepted. */
  ghost predicate Numbered(s: State) {
    && (forall i :: 0 <= i < |s.accepted| ==> s.accepted[i].id == i && s.accepted[i].time > 0)
  }

  ghost predicate NeverEarly(s: State) {
    forall i :: 0 <= i < |s.printed| ==> s.printed[i].alarm.time <= s.printed[i].at <= s.now
  }

  /** current_alarm is what the alarm thread has to wake up for, and it is not asleep when
      that is not what it waits for. */
  ghost predicate CurrentOk(s: State) {
    match s.pc
    case EmptyWait(woken) =>
      && s.currentAlarm == (if s.list == [] then 0 else s.list[0].time)
      && (!woken ==> s.list == [])
    case TimedWait(a, woken) =>
      && s.currentAlarm == (if s.list == [] || a.time <= s.list[0].time then a.time else s.list[0].time)
      && (!woken ==> s.currentAlarm == a.time)
    case _ => true
  }

  ghost predicate Positive(s: State) {
    && (forall i :: 0 <= i < |s.list| ==> s.list[i].time > 0)
    && (s.pc.TimedWait? ==> s.pc.alarm.time > 0)
  }

  ghost predicate Inv(s: State) {
    Sorted(s.list) && Positive(s) && Numbered(s) && NeverEarly(s) && CurrentOk(s)
  }

  lemma InitialInv(s: State)
    requires Initial(s)
    ensures Inv(s) && forall x :: Total(s, x) == 0
  {
    assert Alarms(s.printed) == [];
  }

  lemma InsertPositive(list: seq<Alarm>, a: Alarm)
    requires a.time > 0 && forall i :: 0 <= i < |list| ==> list[i].time > 0
    ensures forall i :: 0 <= i < |Insert(list, a)| ==> Insert(list, a)[i].time > 0
  {
    forall i | 0 <= i < |Insert(list, a)|
      ensures Insert(list, a)[i].time > 0
    {
      InsertMember(list, a, i);
    }
  }

  lemma InsertCurrent(s: State, a: Alarm)
    requires Sorted(s.list) && Positive(s) && CurrentOk(s) && a.time > 0
    ensures CurrentOk(AlarmInsert(s, a)) && Sorted(AlarmInsert(s, a).list) && Positive(AlarmInsert(s, a))
  {
    InsertSorted(s.list, a);
    InsertPositive(s.list, a);
  }

  lemma AddKeepsInv(s: State, seconds: int)
    requires Inv(s) && Enabled(s, Add(seconds))
    ensures Inv(Step(s, Add(seconds)))
  {
    var a := Alarm(|s.accepted|, s.now + seconds);
    InsertCurrent(s.(accepted := s.accepted + [a]), a);
  }

  lemma StepKeepsInv(s: State, a: Action)
    requires Inv(s) && Enabled(s, a)
    ensures Inv(Step(s, a))
  {
    match a
    case TimedRetest => InsertCurrent(s.(pc := Top), s.pc.alarm);
    case Add(seconds) => AddKeepsInv(s, seconds);
    case Next => NextKeepsInv(s, s.(currentAlarm := 0));
    case EmptyRetest => NextKeepsInv(s, s);
    case _ =>
  }

  /** The alarm thread looks at the list: it waits, or takes the first alarm. */
  lemma NextKeepsInv(s: State, s1: State)
    requires Inv(s) && (s1 == s.(currentAlarm := 0) || s1 == s)
    requires s.list == [] ==> s1.currentAlarm == 0
    ensures s.list == [] ==> Inv(s1.(pc := EmptyWait(false)))
    ensures s.list != [] ==> Inv(TakeFirst(s1))
  {
  }

  // ---------- conservation ----------

  lemma PrintedNext(ps: seq<Print>, p: Print, x: Alarm)
    ensures multiset(Alarms(ps + [p]))[x] == multiset(Alarms(ps))[x] + Bit(x == p.alarm)
  {
    assert Alarms(ps + [p]) == Alarms(ps) + [p.alarm];
  }

  lemma TakeFirstTotal(s: State, x: Alarm)
    requires s.list != [] && !s.pc.TimedWait?
    ensures Total(TakeFirst(s), x) == Total(s, x)
  {
    assert s.list == [s.list[0]] + s.list[1..];
    PrintedNext(s.printed, Print(s.list[0], s.now), x);
  }

  lemma InsertTotal(s: State, a: Alarm, x: Alarm)
    ensures Total(AlarmInsert(s, a), x) == Total(s, x) + Bit(x == a)
  {
    InsertCounts(s.list, a, x);
  }

  lemma TimeoutTotal(s: State, x: Alarm)
    requires s.pc.TimedWait?
    ensures Total(PrintAlarm(s, s.pc.alarm), x) == Total(s, x)
  {
    PrintedNext(s.printed, Print(s.pc.alarm, s.now), x);
  }

  lemma RequeueTotal(s: State, x: Alarm)
    requires s.pc.TimedWait?
    ensures Total(AlarmInsert(s.(pc := Top), s.pc.alarm), x) == Total(s, x)
  {
    InsertTotal(s.(pc := Top), s.pc.alarm, x);
  }

  lemma AddTotal(s: State, y: Alarm, x: Alarm)
    ensures var s' := AlarmInsert(s.(accepted := s.accepted + [y]), y);
      Total(s', x) - Total(s, x) == multiset(s'.accepted)[x] - multiset(s.accepted)[x]
  {
    InsertTotal(s.(accepted := s.accepted + [y]), y, x);
    AppendCount(s.accepted, y, x);
  }

  lemma AppendCount(s: seq<Alarm>, a: Alarm, x: Alarm)
    ensures multiset(s + [a])[x] == multiset(s)[x] + Bit(x == a)
  {
  }

  lemma OtherTotal(s: State, a: Action, x: Alarm)
    requires Enabled(s, a) && !a.Add?
    ensures Total(Step(s, a), x) == Total(s, x) && Step(s, a).accepted == s.accepted
  {
    match a {
      case Next => if s.list != [] { TakeFirstTotal(s.(currentAlarm := 0), x); }
      case EmptyRetest => if s.list != [] { TakeFirstTotal(s, x); }
      case TimedRetest => RequeueTotal(s, x);
      case Timeout => TimeoutTotal(s, x);
      case _ =>
    }
  }

  /** No step loses or duplicates an alarm: what is queued, held or printed changes
      exactly as what is accepted. */
  lemma StepTotal(s: State, a: Action, x: Alarm)
    requires Enabled(s, a)
    ensures Total(Step(s, a), x) - Total(s, x)
         == multiset(Step(s, a).accepted)[x] - multiset(s.accepted)[x]
  {
    if a.Add? {
      AddTotal(s, Alarm(|s.accepted|, s.now + a.seconds), x);
    } else {
      OtherTotal(s, a, x);
    }
  }

  // ---------- whole runs ----------

  ghost predicate StepsTo(s: State, s': State) {
    exists a :: Enabled(s, a) && s' == Step(s, a)
  }

  ghost predicate IsRun(run: seq<State>) {
    && |run| > 0 && Initial(run[0])
    && forall i :: 0 <= i < |run| - 1 ==> StepsTo(run[i], run[i + 1])
  }

  lemma {:induction false} RunInv(run: seq<State>, i: nat)
    requires IsRun(run) && i < |run|
    ensures Inv(run[i])
  {
    if i == 0 {
      InitialInv(run[0]);
    } else {
      RunInv(run, i - 1);
      assert StepsTo(run[i - 1], run[i]);
      var a :| Enabled(run[i - 1], a) && run[i] == Step(run[i - 1], a);
      StepKeepsInv(run[i - 1], a);
    }
  }

  lemma {:induction false} RunTotal(run: seq<State>, i: nat, x: Alarm)
    requires IsRun(run) && i < |run|
    ensures Total(run[i], x) == multiset(run[i].accepted)[x]
  {
    if i == 0 {
      InitialInv(run[0]);
    } else {
      RunTotal(run, i - 1, x);
      assert StepsTo(run[i - 1], run[i]);
      var a :| Enabled(run[i - 1], a) && run[i] == Step(run[i - 1], a);
      StepTotal(run[i - 1], a, x);
    }
  }

  /** Nothing is lost: the held alarm, the sorted list and the printed alarms are exactly
      the accepted ones. */
  lemma AlarmsAreConserved(run: seq<State>, i: nat)
    requires IsRun(run) && i < |run|
    ensures var s := run[i];
      && Sorted(s.list)
      && multiset(s.list) + (if s.pc.TimedWait? then multiset{s.pc.alarm} else multiset{}) + multiset(Alarms(s.printed))
         == multiset(s.accepted)
  {
    RunInv(run, i);
    forall x
      ensures Total(run[i], x) == multiset(run[i].accepted)[x]
    {
      RunTotal(run, i, x);
    }
  }

  /** An alarm is printed at most once, never before its time. */
  lemma PrintedOnceNotEarly(run: seq<State>, i: nat, j: nat, k: nat)
    requires IsRun(run) && i < |run| && j < |run[i].printed| && k < |run[i].printed|
    ensures var ps := run[i].printed;
      && (ps[j].alarm == ps[k].alarm ==> j == k)
      && ps[j].alarm.time <= ps[j].at
  {
    RunInv(run, i);
    var s := run[i];
    if j != k && s.printed[j].alarm == s.printed[k].alarm {
      var x := s.printed[j].alarm;
      var all := Alarms(s.printed);
      RunTotal(run, i, x);
      OccursTwice(all, if j < k then j else k, if j < k then k else j);
      OccursOnce(s.accepted, x);
    }
  }

  lemma OccursTwice(s: seq<Alarm>, j: nat, k: nat)
    requires j < k < |s| && s[j] == s[k]
    ensures multiset(s)[s[j]] >= 2
  {
    assert s == s[..k] + [s[k]] + s[k + 1..];
    assert s[..k][j] == s[j];
    assert multiset(s[..k])[s[j]] >= 1;
  }

  lemma {:induction false} OccursOnce(s: seq<Alarm>, x: Alarm)
    requires forall i :: 0 <= i < |s| ==> s[i].id == i
    ensures multiset(s)[x] <= 1
  {
    if s != [] {
      var n := |s| - 1;
      assert s == s[..n] + [s[n]];
      OccursOnce(s[..n], x);
      if s[n] == x {
        assert x !in s[..n];
      }
    }
  }

  /** While the thread waits on alarm a with current_alarm == a->time, no queued alarm is
      earlier; and while it sleeps, that is what it does. */
  lemma WaitsForEarliest(run: seq<State>, i: nat)
    requires IsRun(run) && i < |run|
    ensures var s := run[i];
      && (s.pc.TimedWait? && s.currentAlarm == s.pc.alarm.time ==>
            forall j :: 0 <= j < |s.list| ==> s.pc.alarm.time <= s.list[j].time)
      && (s.pc.TimedWait? && !s.pc.woken ==> s.currentAlarm == s.pc.alarm.time)
      && (s.pc.EmptyWait? && !s.pc.woken ==> s.list == [])
  {
    RunInv(run, i);
  }

  /** The k-th alarm was accepted in one step of the run, and its time is the time of that
      step plus the seconds asked for. */
  lemma {:induction false} AcceptedFor(run: seq<State>, j: nat, k: nat) returns (i: nat, seconds: int)
    requires IsRun(run) && j < |run| && k < |run[j].accepted|
    ensures i < j && |run[i].accepted| == k && Enabled(run[i], Add(seconds)) && run[i + 1] == Step(run[i], Add(seconds))
    ensures run[j].accepted[k] == Alarm(k, run[i].now + seconds)
  {
    if j > 0 {
      assert StepsTo(run[j - 1], run[j]);
      var a :| Enabled(run[j - 1], a) && run[j] == Step(run[j - 1], a);
      if k < |run[j - 1].accepted| {
        i, seconds := AcceptedFor(run, j - 1, k);
      } else {
        i, seconds := j - 1, a.seconds;
      }
    }
  }

  /** When the alarm thread looks at the list it takes the earliest alarm: it prints it at
      once if its time has come, and otherwise waits for it. */
  lemma TakesEarliest(run: seq<State>, i: nat, a: Action)
    requires IsRun(run) && i < |run| && Enabled(run[i], a) && (a.Next? || a.EmptyRetest?) && run[i].list != []
    ensures var s, s', x := run[i], Step(run[i], a), run[i].list[0];
      && (forall j :: 0 <= j < |s.list| ==> x.time <= s.list[j].time)
      && s'.list == s.list[1..]
      && (if x.time <= s.now then s'.pc == Top && s'.printed == s.printed + [Print(x, s.now)]
          else s'.pc == TimedWait(x, false) && s'.printed == s.printed)
  {
    RunInv(run, i);
  }

  /** The alarm thread is stuck only where it should be: asleep with nothing queued, or
      asleep until the earliest alarm is due.  A held alarm that is due can be printed. */
  lemma StuckOnlyAsleep(run: seq<State>, i: nat)
    requires IsRun(run) && i < |run|
    ensures var s := run[i];
      var stuck := forall a :: Enabled(s, a) ==> a.Add? || a.Clock? || a.Spurious?;
      stuck ==>
        || (s.pc.EmptyWait? && s.list == [])
        || (s.pc.TimedWait? && s.now < s.pc.alarm.time && forall j :: 0 <= j < |s.list| ==> s.now < s.list[j].time)
    ensures var s := run[i];
      s.pc.TimedWait? && s.pc.alarm.time <= s.now ==>
        Enabled(s, Timeout) && Step(s, Timeout).printed == s.printed + [Print(s.pc.alarm, s.now)]
  {
    RunInv(run, i);
    var s := run[i];
    var step := match s.pc
      case Begin => Lock
      case Top => Next
      case EmptyWait(_) => EmptyRetest
      case TimedWait(_, woken) => if woken then TimedRetest else Timeout;
    if !Enabled(s, step) {
      WaitsForEarliest(run, i);
    }
  }
}
