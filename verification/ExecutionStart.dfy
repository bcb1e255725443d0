/** When execution counts as started, and that reports say so. */
module ExecutionStart {
  import opened Common
  import opened ToolTiming
  import opened ToolRuntime

  /** The task came through the gate. */
  predicate Entered(t: Task) {
    match t
    case InHandler => true
    case Leaving(_) => true
    case Left(_) => true
    case Reported(_) => true
    case Ended(end) => end.Value? || end.Fatal?
    case _ => false
  }

  predicate Outside(t: Task) {
    match t
    case Spawned => true
    case AwaitReady => true
    case Queued => true
    case Granted => true
    case Ended(end) => end.Refused?
    case _ => false
  }

  /** The start of execution is recorded for direct calls, when they come through
      the gate and not before; and the report of a call that returned says so. */
  predicate Recorded(c: Call, now: nat) {
    var start := c.guard.executionStartedAt;
    && (start.Some? ==> c.direct && start.value <= now)
    && (c.direct && Entered(c.task) ==> start.Some?)
    && (Outside(c.task) ==> start.None?)
    && (c.outer.Reporting? && start.Some? ==> start.value <= c.outer.at)
    && (c.outer.Returned? ==> forall i :: 0 <= i < |c.reports| ==> c.reports[i].executionStarted == start.Some?)
  }

  lemma TaskMoveRecords(c: Call, move: Move, now: nat)
    requires IsTaskMove(move) && MayMove(c, move) && Recorded(c, now) && CountInvariant(c)
    ensures Recorded(TaskMoved(c, move, now), now)
  {
    match move
    case Poll | Suspend | Enqueue | Grant | ReachTerminal =>
    case Enter => assert !Answering(c.outer);
    case Admit | HandlerReturns(_) =>
    case DropGate | ReportReady | Complete | PanicNow | TakeAbort =>
  }

  lemma OuterMoveRecords(c: Call, move: Move, now: nat)
    requires !IsTaskMove(move) && MayMove(c, move) && Recorded(c, now) && TimingInvariant(c, now)
    ensures Recorded(OuterMoved(c, move, now), now)
  {
    if move.FinishTiming? {
      FinishRecords(c, now);
    } else if move.DropReport? {
      OuterLeavesTask(c, move, now);
    } else {
      OuterLeavesTask(c, move, now);
      OuterLeavesTiming(c, move, now);
      OuterStays(c, move, now);
      hide OuterMoved;
    }
  }

  lemma OuterStays(c: Call, move: Move, now: nat)
    requires !IsTaskMove(move) && MayMove(c, move) && !move.FinishTiming? && !move.DropReport?
    ensures var d := OuterMoved(c, move, now); d.outer.Returned? ==> d.outer == c.outer
  {
    hide JoinTask;
    match move
    case CancelToken =>
    case SeeCancel | LoadFlag | LoadFinished | RequestAbort =>
    case Join =>
    case Notified | ReadClock =>
    case DropOuter | DropAbort =>
  }

  lemma FinishRecords(c: Call, now: nat)
    requires c.outer.Reporting? && Recorded(c, now) && TimingInvariant(c, now)
    ensures Recorded(OuterMoved(c, FinishTiming, now), now)
  {
    hide AddsUp, Measured;
    assert c.direct ==> c.reports == [];
    assert c.guard.startedAt.None? ==> c.reports + Reports(c.guard, c.outer.at) == c.reports;
  }

  ghost predicate AllRecorded(s: State) {
    forall id :: id in s.calls ==> Recorded(s.calls[id], s.now)
  }

  lemma StepRecords(s: State, step: Step)
    requires Invariant(s) && AllRecorded(s) && Enabled(s, step)
    ensures AllRecorded(Do(s, step))
  {
    match step
    case Start(id, parallel, direct, admission) =>
      assert Recorded(NewCall(parallel, direct, admission, s.now), s.now);
      hide Recorded, NewCall;
    case Tick =>
      forall id | id in s.calls ensures Recorded(s.calls[id], s.now + 1) { LaterRecorded(s.calls[id], s.now); }
    case Act(id, move) =>
      var c := s.calls[id];
      assert CallInvariant(c, s.now);
      hide Recorded, TaskMoved, OuterMoved, MayMove, GateInvariant;
      if IsTaskMove(move) { TaskMoveRecords(c, move, s.now); } else { OuterMoveRecords(c, move, s.now); }
  }

  lemma LaterRecorded(c: Call, now: nat)
    requires Recorded(c, now)
    ensures Recorded(c, now + 1)
  {
  }

  lemma {:induction false} RunRecords(s: State, steps: seq<Step>)
    requires Invariant(s) && AllRecorded(s) && Run(s, steps)
    ensures AllRecorded(After(s, steps))
    decreases |steps|
  {
    hide Invariant, AllRecorded, Enabled, Do;
    if steps != [] {
      StepKeeps(s, steps[0]);
      StepRecords(s, steps[0]);
      RunRecords(Do(s, steps[0]), steps[1..]);
    }
  }

  /** In every interleaving the report of a direct call that returned says that
      execution started if its handler ended with a result or fatally, and that it
      did not if the call was turned away. */
  lemma ReportsTellStart(steps: seq<Step>, id: nat)
    requires Run(INITIAL, steps) && id in After(INITIAL, steps).calls
    requires var c := After(INITIAL, steps).calls[id]; c.direct && c.outer.Returned?
    ensures var c := After(INITIAL, steps).calls[id];
            && |c.reports| == 1 && c.task.Ended?
            && (c.task.end.Value? || c.task.end.Fatal? ==> c.reports[0].executionStarted)
            && (c.task.end.Refused? ==> !c.reports[0].executionStarted)
  {
    RunKeeps(INITIAL, steps);
    RunRecords(INITIAL, steps);
    var c := After(INITIAL, steps).calls[id];
    hide Run, After;
    assert CallInvariant(c, After(INITIAL, steps).now) && Recorded(c, After(INITIAL, steps).now);
  }
}
