/** The periodic lease runners. Each loop is a method over what its select delivers, one
    wake after another; the heartbeat is also a state machine that interleaves the runner
    with the executor that starts, stops and joins it. */
module Lease {
  import opened Wrappers

  // ----- The loops -----

  /** What one round of the reaper's select delivers, and how the recovery it causes ends. */
  datatype Wake = Cancelled(recovered: bool) | Elapsed(recovered: bool)

  datatype End = StillRunning | EndedOk | EndedErr

  ghost predicate KeepsReaping(wakes: seq<Wake>, n: nat) {
    n <= |wakes| && forall i :: 0 <= i < n ==> wakes[i] == Elapsed(true)
  }

  /** One recovery per wake; the loop ends with the first wake that is not a successful
      tick. Whatever that wake is decides everything: the run drained exactly when it is a
      cancellation, and failed exactly when its recovery did. */
  method ReapUntilCancelled(wakes: seq<Wake>) returns (recoveries: nat, drained: bool, end: End)
    ensures recoveries <= |wakes|
    ensures end == StillRunning <==> KeepsReaping(wakes, |wakes|)
    ensures end == StillRunning ==> recoveries == |wakes| && !drained
    ensures end != StillRunning ==> recoveries > 0 && KeepsReaping(wakes, recoveries - 1)
    ensures end != StillRunning ==>
              var last := wakes[recoveries - 1];
              && last != Elapsed(true)
              && (drained <==> last.Cancelled?)
              && (end == EndedErr <==> !last.recovered)
  {
    recoveries, drained := 0, false;
    while recoveries < |wakes|
      invariant KeepsReaping(wakes, recoveries) && !drained
    {
      var wake := wakes[recoveries];
      recoveries := recoveries + 1;
      drained := wake.Cancelled?;
      if !wake.recovered {
        return recoveries, drained, EndedErr;
      }
      if wake.Cancelled? {
        return recoveries, drained, EndedOk;
      }
    }
    return recoveries, drained, StillRunning;
  }

  datatype Outcome = Renewed | Stale | Fault

  datatype BeatWake = Stop | Beat(outcome: Outcome)

  ghost predicate KeepsBeating(wakes: seq<BeatWake>, n: nat) {
    n <= |wakes| && forall i :: 0 <= i < n ==> wakes[i] == Beat(Renewed)
  }

  /** The loop renews until it is cancelled, finds the lease stale or meets a fault. */
  method BeatUntilCancelled(wakes: seq<BeatWake>) returns (beats: nat, end: End)
    ensures end == StillRunning ==> KeepsBeating(wakes, |wakes|) && beats == |wakes|
    ensures end == EndedErr ==> 0 < beats <= |wakes| && KeepsBeating(wakes, beats - 1) && wakes[beats - 1] == Beat(Fault)
    ensures end == EndedOk ==>
              || (beats < |wakes| && KeepsBeating(wakes, beats) && wakes[beats] == Stop)
              || (0 < beats <= |wakes| && KeepsBeating(wakes, beats - 1) && wakes[beats - 1] == Beat(Stale))
  {
    beats := 0;
    while beats < |wakes|
      invariant KeepsBeating(wakes, beats)
    {
      var wake := wakes[beats];
      if wake.Stop? {
        return beats, EndedOk;
      }
      beats := beats + 1;
      if wake.outcome == Fault {
        return beats, EndedErr;
      }
      if wake.outcome == Stale {
        return beats, EndedOk;
      }
    }
    return beats, StillRunning;
  }

  /** Half the lease, at least a second: a live runner renews a lease of two seconds or more
      at least twice before it runs out, and its interval is never zero. */
  function HeartbeatInterval(leaseSeconds: nat): (r: nat)
    ensures r > 0
    ensures leaseSeconds >= 2 ==> 2 * r <= leaseSeconds < 2 * (r + 1)
    ensures leaseSeconds < 2 ==> r == 1
  {
    var half := leaseSeconds / 2;
    if half > 1 then half else 1
  }

  // ----- The heartbeat and its executor -----

  datatype Runner = Sleeping(elapsed: bool) | Beating | Finished(ok: bool)

  datatype Executor = Calling | Joining | Joined | Finalized

  datatype Event = BeatStarted | BeatEnded(outcome: Outcome) | StopCalled | StopReturned | PublishedOrFailed

  datatype State = State(runner: Runner, executor: Executor, cancelled: bool, log: seq<Event>)

  datatype Action = TimerElapses | PollTimer | PollCancel | BeatReturns(outcome: Outcome) | CallStop | JoinReturns | Finalize

  const SPAWNED := State(Sleeping(false), Calling, false, [])

  predicate Enabled(s: State, a: Action) {
    match a
    case TimerElapses => s.runner == Sleeping(false)
    case PollTimer => s.runner == Sleeping(true)
    case PollCancel => s.runner.Sleeping? && s.cancelled
    case BeatReturns(_) => s.runner.Beating?
    case CallStop => s.executor.Calling?
    case JoinReturns => s.executor.Joining? && s.runner.Finished?
    case Finalize => s.executor.Joined?
  }

  /** After a renewal the loop enters its select again. The interval is positive, so only a
      cancellation can be ready there at once. */
  function AfterBeat(outcome: Outcome, cancelled: bool): Runner {
    match outcome
    case Renewed => if cancelled then Finished(true) else Sleeping(false)
    case Stale => Finished(true)
    case Fault => Finished(false)
  }

  function Step(s: State, a: Action): State {
    match a
    case TimerElapses => s.(runner := Sleeping(true))
    case PollTimer => s.(runner := Beating, log := s.log + [BeatStarted])
    case PollCancel => s.(runner := Finished(true))
    case BeatReturns(o) => s.(runner := AfterBeat(o, s.cancelled), log := s.log + [BeatEnded(o)])
    case CallStop => s.(executor := Joining, cancelled := true, log := s.log + [StopCalled])
    case JoinReturns => s.(executor := Joined, log := s.log + [StopReturned])
    case Finalize => s.(executor := Finalized, log := s.log + [PublishedOrFailed])
  }

  /** The state a schedule leads to, if every one of its actions was enabled in its turn. */
  function Run(schedule: seq<Action>): Option<State> {
    if schedule == [] then Some(SPAWNED)
    else
      var before, a := Run(schedule[..|schedule| - 1]), schedule[|schedule| - 1];
      if before.Some? && Enabled(before.value, a) then Some(Step(before.value, a)) else None
  }

  predicate LosesLease(e: Event) { e == BeatEnded(Stale) || e == BeatEnded(Fault) }

  predicate IsBeat(e: Event) { e.BeatStarted? || e.BeatEnded? }

  /** The safety of a log: no beat once stop has returned, none started once the lease was
      lost or a beat failed, and the task is finalized only after stop has returned. */
  ghost predicate SafeLog(log: seq<Event>) {
    && (forall i, j :: 0 <= i < j < |log| && log[i] == StopReturned ==> !IsBeat(log[j]))
    && (forall i, j :: 0 <= i < j < |log| && LosesLease(log[i]) ==> log[j] != BeatStarted)
    && (forall j :: 0 <= j < |log| && log[j] == PublishedOrFailed ==> StopReturned in log[..j])
  }

  ghost predicate Lost(log: seq<Event>) { exists e :: e in log && LosesLease(e) }

  function BeatsAfterStop(log: seq<Event>): nat {
    if log == [] then 0
    else
      var front, last := log[..|log| - 1], log[|log| - 1];
      BeatsAfterStop(front) + if last == BeatStarted && StopCalled in front then 1 else 0
  }

  function InFlight(log: seq<Event>): int {
    if log == [] then 0
    else
      var last := log[|log| - 1];
      InFlight(log[..|log| - 1]) + (if last.BeatStarted? then 1 else if last.BeatEnded? then -1 else 0)
  }

  /** What of a log the runner and the executor must agree with. */
  datatype Facts = Facts(stopCalled: bool, stopReturned: bool, lost: bool, beatsAfterStop: nat, inFlight: int)

  ghost function FactsOf(log: seq<Event>): Facts {
    Facts(StopCalled in log, StopReturned in log, Lost(log), BeatsAfterStop(log), InFlight(log))
  }

  function PushFact(f: Facts, e: Event): Facts {
    Facts(f.stopCalled || e.StopCalled?, f.stopReturned || e.StopReturned?, f.lost || LosesLease(e),
          f.beatsAfterStop + (if e.BeatStarted? && f.stopCalled then 1 else 0),
          f.inFlight + (if e.BeatStarted? then 1 else if e.BeatEnded? then -1 else 0))
  }

  predicate Coherent(runner: Runner, executor: Executor, cancelled: bool, f: Facts) {
    && cancelled == f.stopCalled == !executor.Calling?
    && f.stopReturned == (executor.Joined? || executor.Finalized?)
    && (f.stopReturned || f.lost ==> runner.Finished?)
    && f.beatsAfterStop <= (if runner.Sleeping? || !cancelled then 0 else 1)
    && f.inFlight == (if runner.Beating? then 1 else 0)
  }

  ghost predicate Inv(s: State) {
    SafeLog(s.log) && Coherent(s.runner, s.executor, s.cancelled, FactsOf(s.log))
  }

  lemma PushEvent(log: seq<Event>, e: Event)
    ensures FactsOf(log + [e]) == PushFact(FactsOf(log), e)
  {
    assert (log + [e])[..|log|] == log;
    assert e in log + [e];
    assert forall x :: x in log + [e] <==> x in log || x == e;
  }

  lemma SafePush(log: seq<Event>, e: Event)
    requires SafeLog(log)
    requires IsBeat(e) ==> StopReturned !in log
    requires e == BeatStarted ==> !Lost(log)
    requires e == PublishedOrFailed ==> StopReturned in log
    ensures SafeLog(log + [e])
  {
    assert (log + [e])[..|log|] == log;
    forall j | 0 <= j < |log + [e]| && (log + [e])[j] == PublishedOrFailed
      ensures StopReturned in (log + [e])[..j]
    {
      assert (log + [e])[..j] == log[..j];
    }
  }

  /** What a step appends to the log. */
  function Logged(a: Action): seq<Event> {
    match a
    case TimerElapses => []
    case PollTimer => [BeatStarted]
    case PollCancel => []
    case BeatReturns(o) => [BeatEnded(o)]
    case CallStop => [StopCalled]
    case JoinReturns => [StopReturned]
    case Finalize => [PublishedOrFailed]
  }

  lemma StepIsCoherent(s: State, a: Action, f: Facts)
    requires Coherent(s.runner, s.executor, s.cancelled, f) && Enabled(s, a)
    ensures var t := Step(s, a);
            t.log == s.log + Logged(a)
            && Coherent(t.runner, t.executor, t.cancelled, if Logged(a) == [] then f else PushFact(f, Logged(a)[0]))
  {
  }

  lemma StepKeepsInv(s: State, a: Action)
    requires Inv(s) && Enabled(s, a)
    ensures Inv(Step(s, a))
  {
    StepIsCoherent(s, a, FactsOf(s.log));
    if Logged(a) == [] {
      assert s.log + [] == s.log;
    } else {
      var e := Logged(a)[0];
      PushEvent(s.log, e);
      SafePush(s.log, e);
    }
  }

  lemma {:induction false} RunsKeepInv(schedule: seq<Action>, s: State)
    requires Run(schedule) == Some(s)
    ensures Inv(s)
  {
    if schedule != [] {
      var front, a := schedule[..|schedule| - 1], schedule[|schedule| - 1];
      RunsKeepInv(front, Run(front).value);
      StepKeepsInv(Run(front).value, a);
    }
  }

  /** In every interleaving: at most one beat is in flight; none starts after a stale or
      failed one; none runs once stop has returned, and only then is the task finalized; a
      stop that races the timer costs at most one more renewal. */
  lemma HeartbeatIsSafe(schedule: seq<Action>, s: State)
    requires Run(schedule) == Some(s)
    ensures SafeLog(s.log)
    ensures BeatsAfterStop(s.log) <= 1
    ensures 0 <= InFlight(s.log) <= 1
    ensures StopReturned in s.log ==> InFlight(s.log) == 0
  {
    RunsKeepInv(schedule, s);
  }

  /** The same event by event: what may not come later than what. */
  lemma BeatsKeepOrder(schedule: seq<Action>, s: State, i: nat, j: nat)
    requires Run(schedule) == Some(s) && i < j < |s.log|
    ensures s.log[i] == StopReturned ==> s.log[j] != BeatStarted && !s.log[j].BeatEnded?
    ensures s.log[i] == BeatEnded(Stale) || s.log[i] == BeatEnded(Fault) ==> s.log[j] != BeatStarted
    ensures s.log[i] == PublishedOrFailed ==> s.log[j] != StopReturned
  {
    RunsKeepInv(schedule, s);
    var log := s.log;
    if log[i] == PublishedOrFailed {
      StopReturnsOnce(schedule, s, i, j);
    }
  }

  lemma {:induction false} StopReturnsOnce(schedule: seq<Action>, s: State, i: nat, j: nat)
    requires Run(schedule) == Some(s) && i < j < |s.log| && s.log[i] == PublishedOrFailed
    ensures s.log[j] != StopReturned
  {
    var front, a := schedule[..|schedule| - 1], schedule[|schedule| - 1];
    var before := Run(front).value;
    RunsKeepInv(front, before);
    StepIsCoherent(before, a, FactsOf(before.log));
    if j < |before.log| {
      StopReturnsOnce(front, before, i, j);
    } else {
      assert before.log[..i] + [before.log[i]] <= before.log;
      assert StopReturned in before.log[..i];
    }
  }

  /** The runner has ended badly exactly when a beat met a fault, and well only after a stop
      or on a stale lease. */
  lemma {:induction false} EndsAsLogged(schedule: seq<Action>, s: State)
    requires Run(schedule) == Some(s)
    ensures s.runner == Finished(false) <==> BeatEnded(Fault) in s.log
    ensures s.runner == Finished(true) ==> BeatEnded(Stale) in s.log || s.cancelled
  {
    if schedule != [] {
      var front, a := schedule[..|schedule| - 1], schedule[|schedule| - 1];
      EndsAsLogged(front, Run(front).value);
      EndsStep(Run(front).value, a);
    }
  }

  lemma EndsStep(s: State, a: Action)
    requires Enabled(s, a)
    requires s.runner == Finished(false) <==> BeatEnded(Fault) in s.log
    requires s.runner == Finished(true) ==> BeatEnded(Stale) in s.log || s.cancelled
    ensures var t := Step(s, a);
            && (t.runner == Finished(false) <==> BeatEnded(Fault) in t.log)
            && (t.runner == Finished(true) ==> BeatEnded(Stale) in t.log || t.cancelled)
  {
    if Logged(a) != [] {
      PushHolds(s.log, Logged(a)[0], BeatEnded(Fault));
      PushHolds(s.log, Logged(a)[0], BeatEnded(Stale));
    }
  }

  lemma PushHolds(log: seq<Event>, e: Event, x: Event)
    ensures x in log + [e] <==> x in log || x == e
  {
  }

  lemma RunPush(schedule: seq<Action>, a: Action, s: State)
    requires Run(schedule) == Some(s) && Enabled(s, a)
    ensures Run(schedule + [a]) == Some(Step(s, a))
  {
    assert (schedule + [a])[..|schedule|] == schedule;
  }

  ghost predicate RenewedOnly(log: seq<Event>, n: nat) {
    |log| == 2 * n && forall i :: 0 <= i < n ==> log[2 * i] == BeatStarted && log[2 * i + 1] == BeatEnded(Renewed)
  }

  /** A sleeping runner that is not stopped can beat, and the beat can end in any way. */
  lemma BeatOnce(before: seq<Action>, p: State, o: Outcome) returns (schedule: seq<Action>, s: State)
    requires Run(before) == Some(p) && p.runner == Sleeping(false) && !p.cancelled
    ensures Run(schedule) == Some(s) && s.executor == p.executor && !s.cancelled
    ensures s.runner == if o == Renewed then Sleeping(false) else Finished(o == Stale)
    ensures s.log == p.log + [BeatStarted] + [BeatEnded(o)]
  {
    var elapsed := Step(p, TimerElapses);
    RunPush(before, TimerElapses, p);
    var beating := Step(elapsed, PollTimer);
    RunPush(before + [TimerElapses], PollTimer, elapsed);
    s := Step(beating, BeatReturns(o));
    RunPush(before + [TimerElapses] + [PollTimer], BeatReturns(o), beating);
    schedule := before + [TimerElapses] + [PollTimer] + [BeatReturns(o)];
  }

  /** Unless it is stopped a runner can go on renewing for ever, and it can be stopped at any
      time. */
  lemma {:induction false} RenewalsGoOn(n: nat) returns (schedule: seq<Action>, s: State)
    ensures Run(schedule) == Some(s) && s.runner == Sleeping(false) && s.executor == Calling && !s.cancelled
    ensures RenewedOnly(s.log, n) && Enabled(s, CallStop)
  {
    if n == 0 {
      schedule, s := [], SPAWNED;
    } else {
      schedule, s := RenewalsGoOn(n - 1);
      schedule, s := BeatOnce(schedule, s, Renewed);
    }
  }

  /** How many actions are left once stop was called. */
  function Remaining(s: State): nat {
    match s.executor
    case Calling => 6
    case Joining => (match s.runner
                     case Sleeping(elapsed) => if elapsed then 4 else 5
                     case Beating => 3
                     case Finished(_) => 2)
    case Joined => 1
    case Finalized => 0
  }

  /** A stop never hangs: once it was called the system is never stuck before the task is
      finalized, and every action brings that closer, whatever the scheduler picks. */
  lemma StopTerminates(schedule: seq<Action>, s: State)
    requires Run(schedule) == Some(s) && s.cancelled
    ensures !s.executor.Finalized? ==> exists a :: Enabled(s, a)
    ensures forall a :: Enabled(s, a) ==> Step(s, a).cancelled && Remaining(Step(s, a)) < Remaining(s) <= 5
  {
    RunsKeepInv(schedule, s);
    if s.executor.Joined? {
      assert Enabled(s, Finalize);
    } else if s.executor.Joining? {
      if s.runner.Finished? {
        assert Enabled(s, JoinReturns);
      } else if s.runner.Beating? {
        assert Enabled(s, BeatReturns(Renewed));
      } else {
        assert Enabled(s, PollCancel);
      }
    }
  }
}
