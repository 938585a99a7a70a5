/** The compile worker around its lease reaper: one recovery at startup, the reaper beside
    the consume loop, and the drain after it. Every interleaving is a schedule. */
module Worker {
  import opened Wrappers

  /** The reaper sleeps in its select, has entered its select with the token already cancelled,
      recovers, or has ended. */
  datatype Reaper = NotSpawned | Sleeping(elapsed: bool) | CancelReady | Recovering(draining: bool) | Finished(ok: bool)

  datatype Phase = Starting | Consuming(busy: bool) | Joining | Ended

  datatype Event =
    | StartupRecovery(ok: bool)
    | TaskStarted
    | TaskEnded
    | LoopLeft
    | RecoveryStarted(draining: bool)
    | RecoveryEnded(draining: bool, ok: bool)
    | WorkerEnded

  /** The worker cancels the reaper when its consume loop has ended, so the phase tells
      whether the reaper's token is cancelled. */
  datatype State = State(phase: Phase, reaper: Reaper, log: seq<Event>)

  datatype Action =
    | Startup(ok: bool)
    | TakeTask
    | FinishTask
    | LeaveLoop
    | TimerElapses
    | PollTimer
    | PollCancel
    | RecoveryReturns(ok: bool)
    | JoinReturns

  const INITIAL := State(Starting, NotSpawned, [])

  predicate Cancelled(phase: Phase) { phase.Joining? || phase.Ended? }

  predicate Enabled(s: State, a: Action) {
    match a
    case Startup(_) => s.phase.Starting?
    case TakeTask => s.phase == Consuming(false)
    case FinishTask => s.phase == Consuming(true)
    case LeaveLoop => s.phase == Consuming(false)
    case TimerElapses => s.reaper == Sleeping(false)
    case PollTimer => s.reaper == Sleeping(true)
    case PollCancel => s.reaper.CancelReady? || (s.reaper.Sleeping? && Cancelled(s.phase))
    case RecoveryReturns(_) => s.reaper.Recovering?
    case JoinReturns => s.phase.Joining? && s.reaper.Finished?
  }

  /** A failed recovery ends the reaper with its error, the drain ends it cleanly, and after
      any other recovery the select is entered again: its interval is positive, so only a
      cancellation can be ready there at once. */
  function AfterRecovery(draining: bool, ok: bool, cancelled: bool): Reaper {
    if !ok then Finished(false)
    else if draining then Finished(true)
    else if cancelled then CancelReady
    else Sleeping(false)
  }

  /** What an action appends to the log. */
  function Logged(s: State, a: Action): seq<Event>
    requires Enabled(s, a)
  {
    match a
    case Startup(ok) => [StartupRecovery(ok)]
    case TakeTask => [TaskStarted]
    case FinishTask => [TaskEnded]
    case LeaveLoop => [LoopLeft]
    case TimerElapses => []
    case PollTimer => [RecoveryStarted(false)]
    case PollCancel => [RecoveryStarted(true)]
    case RecoveryReturns(ok) => [RecoveryEnded(s.reaper.draining, ok)]
    case JoinReturns => [WorkerEnded]
  }

  function Moved(s: State, a: Action): (Phase, Reaper)
    requires Enabled(s, a)
  {
    match a
    case Startup(_) => (Consuming(false), Sleeping(false))
    case TakeTask => (Consuming(true), s.reaper)
    case FinishTask => (Consuming(false), s.reaper)
    case LeaveLoop => (Joining, s.reaper)
    case TimerElapses => (s.phase, Sleeping(true))
    case PollTimer => (s.phase, Recovering(false))
    case PollCancel => (s.phase, Recovering(true))
    case RecoveryReturns(ok) => (s.phase, AfterRecovery(s.reaper.draining, ok, Cancelled(s.phase)))
    case JoinReturns => (Ended, s.reaper)
  }

  function Step(s: State, a: Action): State
    requires Enabled(s, a)
  {
    State(Moved(s, a).0, Moved(s, a).1, s.log + Logged(s, a))
  }

  /** The state a schedule leads to, if every one of its actions was enabled in its turn. */
  function Run(schedule: seq<Action>): Option<State> {
    if schedule == [] then Some(INITIAL)
    else
      var before, a := Run(schedule[..|schedule| - 1]), schedule[|schedule| - 1];
      if before.Some? && Enabled(before.value, a) then Some(Step(before.value, a)) else None
  }

  // ----- What a log says -----

  predicate IsTask(e: Event) { e.TaskStarted? || e.TaskEnded? }

  predicate IsRecovery(e: Event) { e.RecoveryStarted? || e.RecoveryEnded? }

  /** No recovery starts after the drain has. */
  ghost predicate DrainIsLast(log: seq<Event>) {
    forall i, j :: 0 <= i < j < |log| && log[i] == RecoveryStarted(true) ==> !log[j].RecoveryStarted?
  }

  /** The startup recovery comes first, tasks come before the loop is left, the loop is left
      before the drain starts, and the worker's end is the end. */
  ghost predicate OrderedLog(log: seq<Event>) {
    && (log != [] ==> log[0].StartupRecovery?)
    && (forall j :: 0 < j < |log| ==> !log[j].StartupRecovery?)
    && (forall i, j :: 0 <= i < j < |log| && log[i].LoopLeft? ==> !IsTask(log[j]) && !log[j].LoopLeft?)
    && (forall i, j :: 0 <= i < j < |log| && log[i] == RecoveryStarted(true) ==> !log[j].LoopLeft? && !IsTask(log[j]))
    && DrainIsLast(log)
    && (forall i, j :: 0 <= i < j < |log| && FailedRecovery(log[i]) ==> !IsRecovery(log[j]))
    && (forall i :: 0 <= i < |log| - 1 ==> !log[i].WorkerEnded?)
  }

  predicate FailedRecovery(e: Event) { e.RecoveryEnded? && !e.ok }

  predicate Failed(log: seq<Event>) { RecoveryEnded(false, false) in log || RecoveryEnded(true, false) in log }

  /** Recoveries of one kind that were started. */
  function Starts(log: seq<Event>, draining: bool): nat {
    if log == [] then 0
    else Starts(log[..|log| - 1], draining) + if log[|log| - 1] == RecoveryStarted(draining) then 1 else 0
  }

  /** Periodic recoveries that started after the loop was left. */
  function LateTicks(log: seq<Event>): nat {
    if log == [] then 0
    else
      var front, last := log[..|log| - 1], log[|log| - 1];
      LateTicks(front) + if last == RecoveryStarted(false) && LoopLeft in front then 1 else 0
  }

  datatype Facts = Facts(
    empty: bool, loopLeft: bool, drainStarted: bool, drainDone: bool, drainFailed: bool, tickFailed: bool, ended: bool,
    drains: nat, lateTicks: nat)

  ghost function FactsOf(log: seq<Event>): Facts {
    Facts(log == [], LoopLeft in log, RecoveryStarted(true) in log, RecoveryEnded(true, true) in log,
          RecoveryEnded(true, false) in log, RecoveryEnded(false, false) in log, WorkerEnded in log,
          Starts(log, true), LateTicks(log))
  }

  function PushFact(f: Facts, e: Event): Facts {
    Facts(false, f.loopLeft || e.LoopLeft?, f.drainStarted || e == RecoveryStarted(true),
          f.drainDone || e == RecoveryEnded(true, true), f.drainFailed || e == RecoveryEnded(true, false),
          f.tickFailed || e == RecoveryEnded(false, false), f.ended || e.WorkerEnded?,
          f.drains + (if e == RecoveryStarted(true) then 1 else 0),
          f.lateTicks + (if e == RecoveryStarted(false) && f.loopLeft then 1 else 0))
  }

  lemma PushEvent(log: seq<Event>, e: Event)
    ensures FactsOf(log + [e]) == PushFact(FactsOf(log), e)
  {
    assert (log + [e])[..|log|] == log;
    assert e in log + [e];
    assert forall x :: x in log + [e] <==> x in log || x == e;
  }

  /** An event may follow a log when nothing that must come last has come. */
  predicate MayFollow(f: Facts, e: Event) {
    && f.empty == e.StartupRecovery?
    && (IsTask(e) || e.LoopLeft? ==> !f.loopLeft && !f.drainStarted)
    && (e.RecoveryStarted? ==> !f.drainStarted)
    && (IsRecovery(e) ==> !f.drainFailed && !f.tickFailed)
    && !f.ended
  }

  lemma OrderedPush(log: seq<Event>, e: Event)
    requires OrderedLog(log) && MayFollow(FactsOf(log), e)
    ensures OrderedLog(log + [e])
  {
  }

  // ----- The invariant -----

  predicate Coherent(phase: Phase, reaper: Reaper, f: Facts) {
    && f.empty == phase.Starting? == reaper.NotSpawned?
    && f.loopLeft == Cancelled(phase)
    && f.ended == phase.Ended?
    && (f.ended ==> reaper.Finished?)
    && (reaper == Finished(false) <==> f.tickFailed || f.drainFailed)
    && (reaper == Finished(true) <==> f.drainDone)
    && (reaper == Finished(true) || reaper == Recovering(true) || f.drainFailed ==> f.drainStarted)
    && (f.tickFailed ==> !f.drainStarted)
    && (f.drainStarted ==> f.loopLeft && (reaper.Finished? || reaper == Recovering(true)))
    && f.drains == (if f.drainStarted then 1 else 0)
    && (reaper.CancelReady? ==> f.loopLeft)
    && f.lateTicks <= (if reaper.Sleeping? || !f.loopLeft then 0 else 1)
  }

  ghost predicate Inv(s: State) { OrderedLog(s.log) && Coherent(s.phase, s.reaper, FactsOf(s.log)) }

  lemma StepIsCoherent(s: State, a: Action, f: Facts)
    requires Coherent(s.phase, s.reaper, f) && Enabled(s, a)
    ensures var events, g := Logged(s, a), if Logged(s, a) == [] then f else PushFact(f, Logged(s, a)[0]);
            && Coherent(Moved(s, a).0, Moved(s, a).1, g)
            && (events == [] || (|events| == 1 && MayFollow(f, events[0])))
  {
  }

  lemma StepKeepsInv(s: State, a: Action)
    requires Inv(s) && Enabled(s, a)
    ensures Inv(Step(s, a))
  {
    StepIsCoherent(s, a, FactsOf(s.log));
    if Logged(s, a) == [] {
      assert s.log + [] == s.log;
    } else {
      var e := Logged(s, a)[0];
      assert Logged(s, a) == [e];
      PushEvent(s.log, e);
      OrderedPush(s.log, e);
    }
  }

  lemma {:induction false} RunsKeepInv(schedule: seq<Action>, s: State)
    requires Run(schedule) == Some(s)
    ensures Inv(s)
  {
    if schedule != [] {
      var front, a := schedule[..|schedule| - 1], schedule[|schedule| - 1];
      RunsKeepInv(front, Run(front).value);
      StepKeepsInv(Run(front).value, a);
    }
  }

  // ----- The guarantees -----

  /** In every interleaving: the startup recovery precedes everything, all task processing
      precedes the drain, nothing is recovered after a failure or after the drain has
      started, nothing happens after the worker has ended, and at most one periodic recovery
      slips in once the loop was left. */
  lemma WorkerIsOrdered(schedule: seq<Action>, s: State)
    requires Run(schedule) == Some(s)
    ensures OrderedLog(s.log)
    ensures LateTicks(s.log) <= 1
    ensures s.phase.Ended? ==> s.reaper.Finished?
  {
    RunsKeepInv(schedule, s);
  }

  /** The same event by event: what may not come later than what. */
  lemma EventsKeepOrder(schedule: seq<Action>, s: State, i: nat, j: nat)
    requires Run(schedule) == Some(s) && i < j < |s.log|
    ensures s.log[0].StartupRecovery? && !s.log[j].StartupRecovery? && !s.log[i].WorkerEnded?
    ensures s.log[i].LoopLeft? ==> !s.log[j].TaskStarted? && !s.log[j].TaskEnded? && !s.log[j].LoopLeft?
    ensures s.log[i] == RecoveryStarted(true) ==>
              && !s.log[j].TaskStarted? && !s.log[j].TaskEnded? && !s.log[j].LoopLeft?
              && !s.log[j].RecoveryStarted?
    ensures s.log[i].RecoveryEnded? && !s.log[i].ok ==> !s.log[j].RecoveryStarted? && !s.log[j].RecoveryEnded?
  {
    RunsKeepInv(schedule, s);
  }

  lemma RunPush(schedule: seq<Action>, a: Action, s: State)
    requires Run(schedule) == Some(s) && Enabled(s, a)
    ensures Run(schedule + [a]) == Some(Step(s, a))
  {
    assert (schedule + [a])[..|schedule|] == schedule;
  }

  /** The log of a startup and `n` tasks, with one recovery during each. */
  ghost predicate RecoveredDuringTasks(log: seq<Event>, n: nat) {
    && |log| == 4 * n + 1 && log[0] == StartupRecovery(true)
    && forall i :: 0 <= i < n ==>
         && log[4 * i + 1] == TaskStarted && log[4 * i + 2] == RecoveryStarted(false)
         && log[4 * i + 3] == RecoveryEnded(false, true) && log[4 * i + 4] == TaskEnded
  }

  /** The worker can go on processing tasks for ever, with the reaper recovering meanwhile, and
      it can leave its loop between any two tasks. */
  lemma {:induction false} WorkGoesOn(n: nat) returns (schedule: seq<Action>, s: State)
    ensures Run(schedule) == Some(s) && s.phase == Consuming(false) && s.reaper == Sleeping(false)
    ensures RecoveredDuringTasks(s.log, n) && Enabled(s, LeaveLoop)
  {
    if n == 0 {
      schedule, s := [Startup(true)], Step(INITIAL, Startup(true));
      RunPush([], Startup(true), INITIAL);
      assert [] + [Startup(true)] == [Startup(true)];
    } else {
      schedule, s := WorkGoesOn(n - 1);
      schedule, s := WorkOnce(schedule, s);
    }
  }

  lemma WorkOnce(before: seq<Action>, p: State) returns (schedule: seq<Action>, s: State)
    requires Run(before) == Some(p) && p.phase == Consuming(false) && p.reaper == Sleeping(false)
    ensures Run(schedule) == Some(s) && s.phase == Consuming(false) && s.reaper == Sleeping(false)
    ensures s.log == p.log + [TaskStarted, RecoveryStarted(false), RecoveryEnded(false, true), TaskEnded]
  {
    var busy := Step(p, TakeTask);
    RunPush(before, TakeTask, p);
    schedule, s := RecoverOnce(before + [TakeTask], busy);
    RunPush(schedule, FinishTask, s);
    schedule, s := schedule + [FinishTask], Step(s, FinishTask);
  }

  lemma RecoverOnce(before: seq<Action>, p: State) returns (schedule: seq<Action>, s: State)
    requires Run(before) == Some(p) && p.phase.Consuming? && p.reaper == Sleeping(false)
    ensures Run(schedule) == Some(s) && s.phase == p.phase && s.reaper == Sleeping(false)
    ensures s.log == p.log + [RecoveryStarted(false), RecoveryEnded(false, true)]
  {
    var elapsed := Step(p, TimerElapses);
    RunPush(before, TimerElapses, p);
    var recovering := Step(elapsed, PollTimer);
    RunPush(before + [TimerElapses], PollTimer, elapsed);
    s := Step(recovering, RecoveryReturns(true));
    RunPush(before + [TimerElapses] + [PollTimer], RecoveryReturns(true), recovering);
    schedule := before + [TimerElapses] + [PollTimer] + [RecoveryReturns(true)];
  }

  /** The periodic recoveries that a schedule starts. */
  function Ticks(schedule: seq<Action>): nat {
    if schedule == [] then 0
    else Ticks(schedule[..|schedule| - 1]) + if schedule[|schedule| - 1].PollTimer? then 1 else 0
  }

  lemma StartsPush(log: seq<Event>, e: Event, draining: bool)
    ensures Starts(log + [e], draining) == Starts(log, draining) + if e == RecoveryStarted(draining) then 1 else 0
  {
    assert (log + [e])[..|log|] == log;
  }

  /** The log holds one periodic recovery per tick of the schedule, and a drain exactly when
      the schedule polls the cancellation. */
  lemma LogFollowsSchedule(schedule: seq<Action>, s: State)
    requires Run(schedule) == Some(s)
    ensures Starts(s.log, false) == Ticks(schedule)
    ensures RecoveryStarted(true) in s.log <==> PollCancel in schedule
  {
    TicksAreLogged(schedule, s);
    CancelIsLogged(schedule, s);
  }

  lemma {:induction false} TicksAreLogged(schedule: seq<Action>, s: State)
    requires Run(schedule) == Some(s)
    ensures Starts(s.log, false) == Ticks(schedule)
  {
    if schedule != [] {
      var front, a := schedule[..|schedule| - 1], schedule[|schedule| - 1];
      TicksAreLogged(front, Run(front).value);
      StepLogs(Run(front).value, a);
    }
  }

  lemma {:induction false} CancelIsLogged(schedule: seq<Action>, s: State)
    requires Run(schedule) == Some(s)
    ensures RecoveryStarted(true) in s.log <==> PollCancel in schedule
  {
    if schedule != [] {
      var front, a := schedule[..|schedule| - 1], schedule[|schedule| - 1];
      CancelIsLogged(front, Run(front).value);
      StepLogs(Run(front).value, a);
      LastIn(schedule, PollCancel);
    }
  }

  lemma LastIn<T>(s: seq<T>, x: T)
    requires s != []
    ensures x in s <==> x in s[..|s| - 1] || x == s[|s| - 1]
  {
    assert s == s[..|s| - 1] + [s[|s| - 1]];
  }

  lemma StepLogs(p: State, a: Action)
    requires Enabled(p, a)
    ensures Starts(Step(p, a).log, false) == Starts(p.log, false) + if a.PollTimer? then 1 else 0
    ensures RecoveryStarted(true) in Step(p, a).log <==> RecoveryStarted(true) in p.log || a.PollCancel?
  {
    if Logged(p, a) == [] {
      assert Step(p, a).log == p.log;
    } else {
      assert Logged(p, a) == [Logged(p, a)[0]];
      StartsPush(p.log, Logged(p, a)[0], false);
    }
  }

  /** A reaper that ends cleanly has recovered once per tick and once more, the drain, which
      came last and succeeded; no recovery failed. */
  lemma CleanEnd(schedule: seq<Action>, s: State)
    requires Run(schedule) == Some(s)
    ensures s.reaper == Finished(true) <==> RecoveryEnded(true, true) in s.log
    ensures s.reaper == Finished(true) ==>
              Starts(s.log, false) + Starts(s.log, true) == Ticks(schedule) + 1 && Starts(s.log, true) == 1
    ensures s.reaper == Finished(true) ==> DrainIsLast(s.log) && !Failed(s.log)
  {
    RunsKeepInv(schedule, s);
    LogFollowsSchedule(schedule, s);
  }

  /** A reaper that ends with an error drained exactly when the drain is the recovery that
      failed, that is, when its cancellation was polled; it drained not at all exactly when a
      periodic recovery failed. It ends so exactly when one of the two failed, never both. */
  lemma ErrorEnd(schedule: seq<Action>, s: State)
    requires Run(schedule) == Some(s)
    ensures s.reaper == Finished(false) <==> Failed(s.log)
    ensures s.reaper == Finished(false) ==>
              && (RecoveryStarted(true) in s.log <==> RecoveryEnded(true, false) in s.log)
              && (RecoveryStarted(true) !in s.log <==> RecoveryEnded(false, false) in s.log)
              && (RecoveryStarted(true) in s.log <==> PollCancel in schedule)
              && Starts(s.log, false) + Starts(s.log, true) == Ticks(schedule) + if PollCancel in schedule then 1 else 0
  {
    RunsKeepInv(schedule, s);
    LogFollowsSchedule(schedule, s);
  }

  /** An error does not rule out a drain: the drain itself may be what fails. */
  lemma DrainMayFail()
    ensures var s := Run([Startup(true), LeaveLoop, PollCancel, RecoveryReturns(false)]);
            s.Some? && s.value.reaper == Finished(false) && Starts(s.value.log, true) == 1
  {
    var schedule := [Startup(true), LeaveLoop, PollCancel, RecoveryReturns(false)];
    var log := [StartupRecovery(true), LoopLeft, RecoveryStarted(true), RecoveryEnded(true, false)];
    RunStep(schedule, 0, INITIAL, State(Consuming(false), Sleeping(false), log[..1]));
    RunStep(schedule, 1, State(Consuming(false), Sleeping(false), log[..1]), State(Joining, Sleeping(false), log[..2]));
    RunStep(schedule, 2, State(Joining, Sleeping(false), log[..2]), State(Joining, Recovering(true), log[..3]));
    RunStep(schedule, 3, State(Joining, Recovering(true), log[..3]), State(Joining, Finished(false), log[..4]));
    assert schedule[..4] == schedule;
    var s := Run(schedule).value;
    RunsKeepInv(schedule, s);
    assert log[..4][2] == RecoveryStarted(true);
    assert FactsOf(s.log).drainStarted;
  }

  lemma RunStep(schedule: seq<Action>, i: nat, p: State, t: State)
    requires i < |schedule| && Run(schedule[..i]) == Some(p)
    requires Enabled(p, schedule[i]) && t == Step(p, schedule[i])
    ensures Run(schedule[..i + 1]) == Some(t)
  {
    assert schedule[..i + 1][..i] == schedule[..i];
  }

  function Remaining(s: State): nat {
    match s.phase
    case Starting => 8
    case Consuming(_) => 7
    case Joining => (match s.reaper
                     case NotSpawned => 0
                     case Sleeping(elapsed) => if elapsed then 5 else 6
                     case CancelReady => 3
                     case Recovering(draining) => if draining then 2 else 4
                     case Finished(_) => 1)
    case Ended => 0
  }

  /** A shutdown never hangs: once the loop was left the worker is never stuck before its end,
      and every action brings that closer, whatever the scheduler picks. */
  lemma ShutdownTerminates(schedule: seq<Action>, s: State)
    requires Run(schedule) == Some(s) && Cancelled(s.phase)
    ensures !s.phase.Ended? ==> exists a :: Enabled(s, a)
    ensures forall a :: Enabled(s, a) ==> Cancelled(Step(s, a).phase) && Remaining(Step(s, a)) < Remaining(s) <= 6
  {
    RunsKeepInv(schedule, s);
    CoherentTerminates(s, FactsOf(s.log));
  }

  lemma CoherentTerminates(s: State, f: Facts)
    requires Coherent(s.phase, s.reaper, f) && Cancelled(s.phase)
    ensures !s.phase.Ended? ==> exists a :: Enabled(s, a)
    ensures forall a :: Enabled(s, a) ==> Cancelled(Step(s, a).phase) && Remaining(Step(s, a)) < Remaining(s) <= 6
  {
    if s.phase.Joining? {
      if s.reaper.Finished? {
        assert Enabled(s, JoinReturns);
      } else if s.reaper.Recovering? {
        assert Enabled(s, RecoveryReturns(true));
      } else {
        assert Enabled(s, PollCancel);
      }
    }
  }
}
