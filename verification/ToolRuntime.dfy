/** Tool calls that share one gate. Each call is a spawned task and an outer
    future that waits for it; both move in small steps that interleave freely
    with those of every other call. A task runs only while it is polled. An abort
    ends a suspended task instead of its next poll, and a polled one when it
    comes to suspend; a poll that completes wins. */
module ToolRuntime {
  import opened Common
  import opened ToolTiming

  /** How a task ended: turned away before admission, with a result, with a
      fatal error, by a panic, or cancelled. */
  datatype End = Refused(fatal: bool) | Value | Fatal | Panic | Cancelled

  /** Where a task stands. `Granted` holds the gate and has not gone on; from
      `Leaving` on the task does not suspend any more. */
  datatype Task =
    | Spawned
    | AwaitReady
    | Queued
    | Granted
    | InHandler
    | Leaving(fatal: bool)
    | Left(fatal: bool)
    | Reported(fatal: bool)
    | Ended(end: End)

  datatype Answer = Plain | FatalAnswer | AbortedAnswer

  /** Where the outer future stands. The steps from `SawCancel` to `MustAbort`
      run without waiting: flag load, `is_finished`, `abort`. So do those from
      `Finishing` on, and those of a drop: the clock is read, then the start of
      execution, and a drop aborts the task last. */
  datatype Outer =
    | Selecting
    | SawCancel
    | FlagClear
    | MustAbort
    | AwaitAborted
    | AwaitResult
    | Notifying
    | Finishing(answer: Answer)
    | Reporting(answer: Answer, at: nat)
    | Returned(answer: Answer)
    | Dropping(notified: bool, at: nat)
    | Releasing(notified: bool)
    | Dropped(notified: bool)

  datatype Admission = Admitted | TurnedAway(fatal: bool)

  /** `polling` tells a task that runs from one that is suspended. `sawTerminal`
      and `sawFinished` record what the two loads of the cancellation branch
      returned; `ready` counts `result_ready` events. */
  datatype Call = Call(
    parallel: bool, direct: bool, admission: Admission,
    task: Task, polling: bool, outer: Outer,
    terminal: bool, cancelled: bool, abortRequested: bool,
    sawTerminal: Option<bool>, sawFinished: Option<bool>,
    ready: nat, guard: Guard, reports: seq<Report>)

  /** `queue` is the gate's waiting line, first come first served. */
  datatype State = State(calls: map<nat, Call>, queue: seq<nat>, now: nat)

  datatype Move =
    // the task
    | Poll
    | Suspend
    | Admit
    | Enqueue
    | Grant
    | Enter
    | ReachTerminal
    | HandlerReturns(fatal: bool)
    | DropGate
    | ReportReady
    | Complete
    | PanicNow
    | TakeAbort
    // the outer future
    | CancelToken
    | SeeCancel
    | LoadFlag
    | LoadFinished
    | RequestAbort
    | Join
    | Notified
    | ReadClock
    | FinishTiming
    | DropOuter
    | DropReport
    | DropAbort

  datatype Step = Start(id: nat, parallel: bool, direct: bool, admission: Admission) | Tick | Act(id: nat, move: Move)

  /** Where a task can be suspended: before its first poll and at await points. */
  predicate Waiting(t: Task) {
    t.Spawned? || t.AwaitReady? || t.Queued? || t.Granted? || t.InHandler?
  }

  predicate Holding(c: Call) {
    c.task.Granted? || c.task.InHandler? || c.task.Leaving?
  }

  /** The outer future waits, so it may be dropped. */
  predicate OuterWaits(o: Outer) {
    o.Selecting? || o.AwaitAborted? || o.AwaitResult? || o.Notifying?
  }

  /** The gate admits a writer alone and readers together. */
  predicate GateAdmits(s: State, id: nat)
    requires id in s.calls
  {
    forall other :: other in s.calls && Holding(s.calls[other]) ==> s.calls[id].parallel && s.calls[other].parallel
  }

  /** The enabling condition of a move as far as the call itself goes. */
  predicate MayMove(c: Call, move: Move) {
    match move
    case Poll => !c.polling && !c.task.Ended? && !c.abortRequested
    case Suspend => c.polling && (c.task.AwaitReady? || c.task.Queued? || c.task.Granted? || c.task.InHandler?)
    case Admit => c.polling && c.task.Spawned?
    case Enqueue => c.polling && c.task.AwaitReady?
    case Grant => c.task.Queued?
    case Enter => c.polling && c.task.Granted?
    case ReachTerminal => c.polling && c.task.InHandler? && !c.terminal
    case HandlerReturns(_) => c.polling && c.task.InHandler?
    case DropGate => c.task.Leaving?
    case ReportReady => c.task.Left?
    case Complete => c.task.Reported?
    case PanicNow => c.polling && (c.task.AwaitReady? || c.task.InHandler?)
    case TakeAbort => c.abortRequested && !c.polling && Waiting(c.task)
    case CancelToken => true
    case SeeCancel => c.outer.Selecting? && c.cancelled
    case LoadFlag => c.outer.SawCancel?
    case LoadFinished => c.outer.FlagClear?
    case RequestAbort => c.outer.MustAbort?
    case Join => (c.outer.Selecting? || c.outer.AwaitResult? || c.outer.AwaitAborted?) && c.task.Ended?
    case Notified => c.outer.Notifying?
    case ReadClock => c.outer.Finishing?
    case FinishTiming => c.outer.Reporting?
    case DropOuter => OuterWaits(c.outer)
    case DropReport => c.outer.Dropping?
    case DropAbort => c.outer.Releasing?
  }

  predicate Enabled(s: State, step: Step) {
    match step
    case Start(id, _, _, _) => id !in s.calls
    case Tick => true
    case Act(id, move) =>
      id in s.calls && MayMove(s.calls[id], move) &&
      (move.Grant? ==> s.queue != [] && s.queue[0] == id && GateAdmits(s, id))
  }

  function Without(queue: seq<nat>, id: nat): seq<nat> {
    if queue == [] then []
    else if queue[0] == id then Without(queue[1..], id)
    else [queue[0]] + Without(queue[1..], id)
  }

  /** The outer future does not move the task, nor take back an abort. */
  predicate TaskUntouched(c: Call, d: Call) {
    && d.task == c.task && d.polling == c.polling && d.parallel == c.parallel && d.terminal == c.terminal
    && (c.abortRequested ==> d.abortRequested)
  }

  /** The rest of `finish`, with the clock read at `at`. */
  function FinishGuard(c: Call, at: nat): (r: Call)
    ensures r.outer == c.outer && TaskUntouched(c, r)
  {
    c.(guard := Finished(c.guard), reports := c.reports + Reports(c.guard, at))
  }

  /** What the outer future does with a finished task. A panic or a cancellation
      seen outside the abort branch returns early, and the drop of the guard does
      what `finish` would have done. */
  function JoinTask(c: Call, end: End): (r: Call)
    ensures TaskUntouched(c, r) && (r.outer.Finishing? || r.outer.Notifying?)
    ensures r.direct == c.direct && r.guard == c.guard && r.reports == c.reports
  {
    match end
    case Value => c.(outer := Finishing(Plain))
    case Refused(fatal) => c.(outer := Finishing(if fatal then FatalAnswer else Plain))
    case Fatal => c.(outer := Finishing(FatalAnswer))
    case Panic => c.(outer := Finishing(FatalAnswer))
    case Cancelled =>
      if c.outer.AwaitAborted? then c.(outer := Notifying, ready := c.ready + 1)
      else c.(outer := Finishing(FatalAnswer))
  }

  predicate IsTaskMove(move: Move) {
    move.Grant? || IsOwnMove(move)
  }

  /** Everything that happens to a task but the grant, which the gate makes. */
  predicate IsOwnMove(move: Move) {
    move.Poll? || move.Suspend? || move.Admit? || move.Enqueue? || move.Enter? || move.ReachTerminal? ||
    move.HandlerReturns? || move.DropGate? || move.ReportReady? || move.Complete? || move.PanicNow? || move.TakeAbort?
  }

  function EndTask(c: Call, end: End): Call {
    c.(task := Ended(end), polling := false)
  }

  function TaskMoved(c: Call, move: Move, now: nat): Call
    requires IsTaskMove(move) && MayMove(c, move)
  {
    match move
    case Poll => c.(polling := true)
    case Suspend => c.(polling := false)
    case Admit => if c.admission.Admitted? then c.(task := AwaitReady) else EndTask(c, Refused(c.admission.fatal))
    case Enqueue => c.(task := Queued)
    case Grant => c.(task := Granted)
    case Enter =>
      var entered := c.(task := InHandler);
      if c.direct && c.guard.executionStartedAt.None? then entered.(guard := c.guard.(executionStartedAt := Some(now)))
      else entered
    case ReachTerminal => c.(terminal := true)
    case HandlerReturns(fatal) => c.(task := Leaving(fatal))
    case DropGate => c.(task := Left(c.task.fatal))
    case ReportReady => c.(task := Reported(c.task.fatal), ready := if c.task.fatal then c.ready else c.ready + 1)
    case Complete => EndTask(c, if c.task.fatal then Fatal else Value)
    case PanicNow => EndTask(c, Panic)
    case TakeAbort => EndTask(c, Cancelled)
  }

  function OuterMoved(c: Call, move: Move, now: nat): Call
    requires !IsTaskMove(move) && MayMove(c, move)
  {
    match move
    case CancelToken => c.(cancelled := true)
    case SeeCancel => c.(outer := SawCancel)
    case LoadFlag => c.(sawTerminal := Some(c.terminal), outer := if c.terminal then AwaitResult else FlagClear)
    case LoadFinished =>
      c.(sawFinished := Some(c.task.Ended?), outer := if c.task.Ended? then AwaitResult else MustAbort)
    case RequestAbort => c.(abortRequested := true, outer := AwaitAborted)
    case Join => JoinTask(c, c.task.end)
    case Notified => c.(outer := Finishing(AbortedAnswer))
    case ReadClock => c.(outer := Reporting(c.outer.answer, now))
    case FinishTiming => FinishGuard(c.(outer := Returned(c.outer.answer)), c.outer.at)
    case DropOuter => c.(outer := Dropping(c.outer.Notifying?, now))
    case DropReport => FinishGuard(c.(outer := Releasing(c.outer.notified)), c.outer.at)
    case DropAbort => c.(outer := Dropped(c.outer.notified), abortRequested := true)
  }

  /** The part of a move that happens to the call itself. */
  function Moved(c: Call, move: Move, now: nat): Call
    requires MayMove(c, move)
  {
    if IsTaskMove(move) then TaskMoved(c, move, now) else OuterMoved(c, move, now)
  }

  function NewCall(parallel: bool, direct: bool, admission: Admission, now: nat): Call {
    Call(parallel, direct, admission, Spawned, false, Selecting, false, false, false, None, None, 0,
         Guard(if direct then Some(now) else None, None), [])
  }

  function Do(s: State, step: Step): State
    requires Enabled(s, step)
  {
    match step
    case Start(id, parallel, direct, admission) =>
      s.(calls := s.calls[id := NewCall(parallel, direct, admission, s.now)])
    case Tick => s.(now := s.now + 1)
    case Act(id, move) =>
      State(s.calls[id := Moved(s.calls[id], move, s.now)],
            if move.Enqueue? then s.queue + [id]
            else if move.Grant? || move.TakeAbort? then Without(s.queue, id)
            else s.queue,
            s.now)
  }

  const INITIAL := State(map[], [], 0)

  /** A run: every step is enabled where it is taken. */
  ghost predicate Run(s: State, steps: seq<Step>)
    decreases |steps|
  {
    steps == [] || (Enabled(s, steps[0]) && Run(Do(s, steps[0]), steps[1..]))
  }

  ghost function After(s: State, steps: seq<Step>): State
    requires Run(s, steps)
    decreases |steps|
  {
    if steps == [] then s else After(Do(s, steps[0]), steps[1..])
  }

  // ---- one call -------------------------------------------------------------

  predicate TaskReported(t: Task) {
    t == Reported(false) || t == Ended(Value)
  }

  predicate AbortReported(o: Outer) {
    match o
    case Notifying => true
    case Finishing(answer) => answer.AbortedAnswer?
    case Reporting(answer, _) => answer.AbortedAnswer?
    case Returned(answer) => answer.AbortedAnswer?
    case Dropping(notified, _) => notified
    case Releasing(notified) => notified
    case Dropped(notified) => notified
    case _ => false
  }

  predicate Answering(o: Outer) {
    o.Finishing? || o.Reporting? || o.Returned?
  }

  /** The answer of a call is the one its task's end calls for. */
  predicate AnswerFits(answer: Answer, t: Task) {
    t.Ended? &&
    match answer
    case Plain => t.end == Value || t.end == Refused(false)
    case FatalAnswer => t.end == Fatal || t.end == Panic || t.end == Refused(true)
    case AbortedAnswer => t.end == Cancelled
  }

  predicate CallInvariant(c: Call, now: nat) {
    && CountInvariant(c) && AbortInvariant(c) && TimingInvariant(c, now)
  }

  predicate CountInvariant(c: Call) {
    && c.ready == (if TaskReported(c.task) then 1 else 0) + (if AbortReported(c.outer) then 1 else 0)
    && (AbortReported(c.outer) ==> c.task == Ended(Cancelled))
    && (Answering(c.outer) ==> AnswerFits(c.outer.answer, c.task))
    && (c.task.Ended? && c.task.end.Refused? <==>
          c.admission.TurnedAway? && !c.task.Spawned? && !(c.task.Ended? && c.task.end.Cancelled?))
    && (c.task.Ended? && c.task.end.Refused? ==> c.task.end.fatal == c.admission.fatal)
  }

  predicate AbortInvariant(c: Call) {
    && (c.task == Ended(Cancelled) ==> c.abortRequested)
    && (c.outer.Dropped? ==> c.abortRequested)
    && (c.outer.AwaitAborted? ==> c.abortRequested)
    && (c.task.Leaving? || c.task.Left? || c.task.Reported? ==> c.polling)
    && (c.task.Ended? ==> !c.polling)
    && (c.abortRequested ==>
          !c.outer.Selecting? && !c.outer.SawCancel? && !c.outer.FlagClear? && !c.outer.MustAbort? &&
          !c.outer.AwaitResult?)
    && (c.outer.FlagClear? ==> c.sawTerminal == Some(false))
    && (c.outer.MustAbort? || c.outer.AwaitAborted? || AbortReported(c.outer) ==>
          c.sawTerminal == Some(false) && c.sawFinished == Some(false))
  }

  /** The guard has been finished. */
  predicate Done(o: Outer) {
    o.Returned? || o.Releasing? || o.Dropped?
  }

  /** One report once a direct call is done, none before, none of code mode. */
  predicate Timing(direct: bool, done: bool, guard: Guard, reports: seq<Report>, now: nat) {
    && (!direct ==> guard.startedAt.None? && reports == [])
    && (direct ==> (guard.startedAt.None? <==> done) && |reports| == if done then 1 else 0)
    && (guard.startedAt.Some? ==> guard.startedAt.value <= now)
    && (guard.startedAt.Some? && guard.executionStartedAt.Some? ==>
          guard.startedAt.value <= guard.executionStartedAt.value)
    && (forall i :: 0 <= i < |reports| ==> AddsUp(reports[i]))
  }

  /** A clock reading that is yet to be reported is none from before the start. */
  predicate ClockRead(o: Outer, guard: Guard) {
    (o.Reporting? || o.Dropping?) && guard.startedAt.Some? ==> guard.startedAt.value <= o.at
  }

  predicate TimingInvariant(c: Call, now: nat) {
    Timing(c.direct, Done(c.outer), c.guard, c.reports, now) && ClockRead(c.outer, c.guard)
  }

  lemma TaskMoveKeeps(c: Call, move: Move, now: nat)
    requires IsTaskMove(move) && MayMove(c, move) && CountInvariant(c) && AbortInvariant(c)
    ensures CountInvariant(TaskMoved(c, move, now)) && AbortInvariant(TaskMoved(c, move, now))
  {
    TaskMoveKeepsCount(c, move, now);
    TaskMoveKeepsAbort(c, move, now);
    hide CountInvariant, AbortInvariant, TaskMoved, MayMove;
  }

  lemma TaskMoveKeepsCount(c: Call, move: Move, now: nat)
    requires IsTaskMove(move) && MayMove(c, move) && CountInvariant(c)
    ensures CountInvariant(TaskMoved(c, move, now))
  {
    match move
    case Poll | Suspend | Enqueue | Grant | Enter | ReachTerminal =>
    case Admit | HandlerReturns(_) =>
    case DropGate | ReportReady | Complete | PanicNow | TakeAbort =>
  }

  lemma TaskMoveKeepsAbort(c: Call, move: Move, now: nat)
    requires IsTaskMove(move) && MayMove(c, move) && AbortInvariant(c) && CountInvariant(c)
    ensures AbortInvariant(TaskMoved(c, move, now))
  {
    match move
    case Poll | Suspend | Enqueue | Grant | Enter | ReachTerminal =>
    case Admit | HandlerReturns(_) =>
    case DropGate | ReportReady | Complete | PanicNow | TakeAbort =>
  }

  /** Finishing the guard touches nothing but the timing. */
  lemma FinishFrame(c: Call, at: nat)
    requires CountInvariant(c) && AbortInvariant(c)
    ensures CountInvariant(FinishGuard(c, at)) && AbortInvariant(FinishGuard(c, at))
  {
    hide Reports;
  }

  lemma JoinKeeps(c: Call)
    requires MayMove(c, Join) && CountInvariant(c) && AbortInvariant(c)
    ensures CountInvariant(JoinTask(c, c.task.end)) && AbortInvariant(JoinTask(c, c.task.end))
  {
    match c.task.end
    case Value | Refused(_) | Fatal =>
    case Panic | Cancelled =>
  }

  lemma OuterMoveKeeps(c: Call, move: Move, now: nat)
    requires !IsTaskMove(move) && MayMove(c, move) && CountInvariant(c) && AbortInvariant(c)
    ensures CountInvariant(OuterMoved(c, move, now)) && AbortInvariant(OuterMoved(c, move, now))
  {
    hide FinishGuard, JoinTask;
    match move
    case Join => JoinKeeps(c);
    case FinishTiming => FinishFrame(c.(outer := Returned(c.outer.answer)), c.outer.at);
    case DropReport => FinishFrame(c.(outer := Releasing(c.outer.notified)), c.outer.at);
    case CancelToken | SeeCancel | LoadFlag | LoadFinished | RequestAbort | Notified =>
    case ReadClock | DropOuter | DropAbort =>
  }

  lemma TimingFinishes(direct: bool, guard: Guard, reports: seq<Report>, at: nat, now: nat)
    requires Timing(direct, false, guard, reports, now) && (guard.startedAt.Some? ==> guard.startedAt.value <= at)
    ensures Timing(direct, true, Finished(guard), reports + Reports(guard, at), now)
  {
    hide AddsUp, ReportAt;
    if guard.startedAt.Some? { ReportsAddUp(guard.startedAt.value, guard.executionStartedAt, at); }
  }

  lemma TimingEnters(direct: bool, done: bool, guard: Guard, reports: seq<Report>, now: nat)
    requires Timing(direct, done, guard, reports, now)
    ensures Timing(direct, done, guard.(executionStartedAt := Some(now)), reports, now)
  {
    hide AddsUp;
  }

  lemma TimingSame(c: Call, d: Call, now: nat)
    requires TimingInvariant(c, now) && d.direct == c.direct && d.guard == c.guard && d.reports == c.reports
    requires Done(d.outer) == Done(c.outer)
    requires d.outer == c.outer || ((d.outer.Reporting? || d.outer.Dropping?) ==> d.outer.at == now)
    ensures TimingInvariant(d, now)
  {
  }

  lemma TaskMoveKeepsTiming(c: Call, move: Move, now: nat)
    requires IsTaskMove(move) && TimingInvariant(c, now) && MayMove(c, move)
    ensures TimingInvariant(TaskMoved(c, move, now), now)
  {
    if move.Enter? {
      hide Timing;
      TimingEnters(c.direct, Done(c.outer), c.guard, c.reports, now);
    } else {
      TaskLeavesTiming(c, move, now);
      TimingSame(c, TaskMoved(c, move, now), now);
    }
  }

  lemma TaskLeavesTiming(c: Call, move: Move, now: nat)
    requires IsTaskMove(move) && MayMove(c, move) && !move.Enter?
    ensures var d := TaskMoved(c, move, now);
            d.direct == c.direct && d.guard == c.guard && d.reports == c.reports && d.outer == c.outer
  {
    match move
    case Poll | Suspend | Admit | Enqueue | Grant | ReachTerminal | HandlerReturns(_) =>
    case DropGate | ReportReady | Complete | PanicNow | TakeAbort =>
  }

  lemma OuterMoveKeepsTiming(c: Call, move: Move, now: nat)
    requires !IsTaskMove(move) && TimingInvariant(c, now) && MayMove(c, move)
    ensures TimingInvariant(OuterMoved(c, move, now), now)
  {
    if move.FinishTiming? || move.DropReport? {
      hide Timing, Reports, Finished;
      TimingFinishes(c.direct, c.guard, c.reports, c.outer.at, now);
    } else {
      OuterLeavesTiming(c, move, now);
      TimingSame(c, OuterMoved(c, move, now), now);
    }
  }

  lemma OuterLeavesTiming(c: Call, move: Move, now: nat)
    requires !IsTaskMove(move) && MayMove(c, move) && !move.FinishTiming? && !move.DropReport?
    ensures var d := OuterMoved(c, move, now);
            && d.direct == c.direct && d.guard == c.guard && d.reports == c.reports
            && Done(d.outer) == Done(c.outer)
            && (d.outer == c.outer || ((d.outer.Reporting? || d.outer.Dropping?) ==> d.outer.at == now))
  {
    hide JoinTask;
    match move
    case CancelToken =>
    case SeeCancel | LoadFlag | LoadFinished | RequestAbort =>
    case Join =>
    case Notified | ReadClock =>
    case DropOuter | DropAbort =>
  }

  // ---- the gate -------------------------------------------------------------

  ghost predicate GateInvariant(s: State) {
    && (forall i, j :: i in s.calls && j in s.calls && i != j && Holding(s.calls[i]) && Holding(s.calls[j]) ==>
          s.calls[i].parallel && s.calls[j].parallel)
    && (forall id :: id in s.queue <==> id in s.calls && s.calls[id].task.Queued?)
    && (forall i, j :: 0 <= i < j < |s.queue| ==> s.queue[i] != s.queue[j])
  }

  ghost predicate Invariant(s: State) {
    GateInvariant(s) && forall id :: id in s.calls ==> CallInvariant(s.calls[id], s.now)
  }

  lemma {:induction false} WithoutMeans(queue: seq<nat>, id: nat)
    requires forall i, j :: 0 <= i < j < |queue| ==> queue[i] != queue[j]
    ensures var r := Without(queue, id);
            (forall x :: x in r <==> x in queue && x != id) &&
            (forall i, j :: 0 <= i < j < |r| ==> r[i] != r[j])
  {
    if queue != [] {
      var r, tail := Without(queue, id), Without(queue[1..], id);
      WithoutMeans(queue[1..], id);
      assert forall x :: x in queue <==> x == queue[0] || x in queue[1..];
      assert queue[0] !in queue[1..];
      if queue[0] != id {
        assert r == [queue[0]] + tail;
        assert forall i :: 0 <= i < |tail| ==> tail[i] in tail && r[i + 1] == tail[i];
      }
    }
  }

  /** What the gate sees of a move. */
  lemma MoveAndGate(c: Call, move: Move, now: nat)
    requires MayMove(c, move)
    ensures var d := Moved(c, move, now);
            && d.parallel == c.parallel
            && (Holding(d) ==> Holding(c) || move.Grant?)
            && (d.task.Queued? <==> move.Enqueue? || (c.task.Queued? && !move.Grant? && !move.TakeAbort?))
            && (move.Enqueue? ==> !c.task.Queued?)
  {
    hide OuterMoved;
    if !IsTaskMove(move) { OuterLeavesTask(c, move, now); }
  }

  lemma OuterLeavesTask(c: Call, move: Move, now: nat)
    requires !IsTaskMove(move) && MayMove(c, move)
    ensures TaskUntouched(c, OuterMoved(c, move, now))
  {
    hide FinishGuard, JoinTask;
    match move
    case CancelToken => assert TaskUntouched(c, c.(cancelled := true));
    case SeeCancel | LoadFlag | LoadFinished | RequestAbort =>
    case Join | Notified =>
    case ReadClock | FinishTiming =>
    case DropOuter | DropReport | DropAbort =>
  }

  lemma ActKeepsGate(s: State, id: nat, move: Move)
    requires GateInvariant(s) && Enabled(s, Act(id, move))
    ensures GateInvariant(Do(s, Act(id, move)))
  {
    hide TaskMoved, OuterMoved, MayMove, Without;
    WithoutMeans(s.queue, id);
    MoveAndGate(s.calls[id], move, s.now);
  }

  lemma StepKeeps(s: State, step: Step)
    requires Invariant(s) && Enabled(s, step)
    ensures Invariant(Do(s, step))
  {
    hide CountInvariant, AbortInvariant, TimingInvariant, TaskMoved, OuterMoved, MayMove;
    match step
    case Start(id, parallel, direct, admission) => NewCallIsFine(parallel, direct, admission, s.now);
    case Tick =>
      forall id | id in s.calls ensures CallInvariant(s.calls[id], s.now + 1) { TimePasses(s.calls[id], s.now); }
    case Act(id, move) =>
      ActKeepsGate(s, id, move);
      var c := s.calls[id];
      if IsTaskMove(move) {
        TaskMoveKeeps(c, move, s.now);
        TaskMoveKeepsTiming(c, move, s.now);
      } else {
        OuterMoveKeeps(c, move, s.now);
        OuterMoveKeepsTiming(c, move, s.now);
      }
  }

  lemma NewCallIsFine(parallel: bool, direct: bool, admission: Admission, now: nat)
    ensures CallInvariant(NewCall(parallel, direct, admission, now), now)
  {
  }

  lemma TimePasses(c: Call, now: nat)
    requires CallInvariant(c, now)
    ensures CallInvariant(c, now + 1)
  {
  }

  /** The invariant holds in every state that any interleaving reaches. */
  lemma {:induction false} RunKeeps(s: State, steps: seq<Step>)
    requires Invariant(s) && Run(s, steps)
    ensures Invariant(After(s, steps))
    decreases |steps|
  {
    hide Invariant, Enabled;
    if steps != [] {
      StepKeeps(s, steps[0]);
      RunKeeps(Do(s, steps[0]), steps[1..]);
    }
  }

  // ---- what it comes to -----------------------------------------------------

  /** In every interleaving: a call reports readiness at most once, dropped or
      not, namely when its task ended with a result or its abort was announced; an
      answered call reported exactly once if it was aborted or passed admission and ended
      non-fatally, and never if it ended fatally; and an aborted answer means the
      check saw neither the terminal flag nor a finished task. */
  lemma ReadyExactlyOnce(steps: seq<Step>, id: nat)
    requires Run(INITIAL, steps) && id in After(INITIAL, steps).calls
    ensures var c := After(INITIAL, steps).calls[id];
            && c.ready <= 1
            && (c.task == Ended(Value) || AbortReported(c.outer) ==> c.ready == 1)
            && (c.task.Ended? && !c.task.end.Value? && !AbortReported(c.outer) ==> c.ready == 0)
            && (c.outer.Returned? ==>
                  (c.ready == 1 <==>
                   c.outer.answer == AbortedAnswer || (c.admission.Admitted? && c.outer.answer != FatalAnswer)))
            && (c.outer == Returned(AbortedAnswer) ==>
                  c.sawTerminal == Some(false) && c.sawFinished == Some(false) && c.task == Ended(Cancelled))
  {
    RunKeeps(INITIAL, steps);
  }

  /** Each direct call makes exactly one timing report by the time it returned or
      was dropped, each code-mode call none, and every report adds up. */
  lemma OneTimingReport(steps: seq<Step>, id: nat)
    requires Run(INITIAL, steps) && id in After(INITIAL, steps).calls
    ensures var c := After(INITIAL, steps).calls[id];
            && |c.reports| == (if c.direct && Done(c.outer) then 1 else 0)
            && forall i :: 0 <= i < |c.reports| ==> AddsUp(c.reports[i])
  {
    RunKeeps(INITIAL, steps);
  }

  /** In every interleaving, two calls are in their handler sections together
      only if both support parallel execution. */
  lemma GateIsSafe(steps: seq<Step>, i: nat, j: nat)
    requires Run(INITIAL, steps) && i != j
    requires var s := After(INITIAL, steps);
             i in s.calls && j in s.calls && s.calls[i].task.InHandler? && s.calls[j].task.InHandler?
    ensures var s := After(INITIAL, steps); s.calls[i].parallel && s.calls[j].parallel
  {
    RunKeeps(INITIAL, steps);
  }

  /** Whenever nobody holds the gate and calls wait for it, the first in line can
      be admitted. */
  lemma FreeGateAdmits(steps: seq<Step>, id: nat)
    requires Run(INITIAL, steps)
    requires var s := After(INITIAL, steps);
             id in s.calls && s.calls[id].task.Queued? && forall k :: k in s.calls ==> !Holding(s.calls[k])
    ensures var s := After(INITIAL, steps); s.queue != [] && Enabled(s, Act(s.queue[0], Grant))
  {
    RunKeeps(INITIAL, steps);
    var s := After(INITIAL, steps);
    assert id in s.queue;
    assert s.queue[0] in s.queue;
  }

  // ---- progress -------------------------------------------------------------

  /** How far a task has to go. */
  function Stage(t: Task): nat {
    match t
    case Spawned => 8
    case AwaitReady => 7
    case Queued => 6
    case Granted => 5
    case InHandler => 4
    case Leaving(_) => 3
    case Left(_) => 2
    case Reported(_) => 1
    case Ended(_) => 0
  }

  /** The next thing a polled task that is not in line can do. */
  function NextMove(t: Task): Move
    requires !t.Ended? && !t.Queued?
  {
    match t
    case Spawned => Admit
    case AwaitReady => Enqueue
    case Granted => Enter
    case InHandler => HandlerReturns(false)
    case Leaving(_) => DropGate
    case Left(_) => ReportReady
    case Reported(_) => Complete
  }

  /** What brings a call on: a poll if it is suspended, and a step. */
  function Advance(id: nat, c: Call): seq<Step>
    requires !c.task.Ended?
  {
    if c.task.Queued? then [Act(id, Grant)]
    else if c.polling then [Act(id, NextMove(c.task))]
    else if c.abortRequested then [Act(id, TakeAbort)]
    else [Act(id, Poll), Act(id, NextMove(c.task))]
  }

  ghost predicate Advances(s: State, id: nat)
    requires id in s.calls && !s.calls[id].task.Ended?
  {
    var steps := Advance(id, s.calls[id]);
    Run(s, steps) && id in After(s, steps).calls &&
    Stage(After(s, steps).calls[id].task) < Stage(s.calls[id].task)
  }

  lemma OneStep(s: State, step: Step)
    requires Enabled(s, step)
    ensures Run(s, [step]) && After(s, [step]) == Do(s, step)
  {
    hide Enabled, Do;
    assert [step][1..] == [];
  }

  lemma TwoSteps(s: State, one: Step, two: Step)
    requires Enabled(s, one) && Enabled(Do(s, one), two)
    ensures Run(s, [one, two]) && After(s, [one, two]) == Do(Do(s, one), two)
  {
    hide Enabled, Do;
    assert [one, two][1..] == [two];
    OneStep(Do(s, one), two);
  }

  lemma FreeTaskAdvances(s: State, id: nat)
    requires id in s.calls && AbortInvariant(s.calls[id])
    requires !s.calls[id].task.Ended? && !s.calls[id].task.Queued?
    ensures Advances(s, id)
  {
    var c := s.calls[id];
    if c.polling {
      NextMoveLowers(c, s.now);
      hide AbortInvariant, MayMove, Moved, NextMove, Stage, Run, After;
      OneStep(s, Act(id, NextMove(c.task)));
    } else if c.abortRequested {
      hide Run, After;
      OneStep(s, Act(id, TakeAbort));
    } else {
      PolledAdvances(s, id);
    }
  }

  lemma NextMoveLowers(c: Call, now: nat)
    requires c.polling && !c.task.Ended? && !c.task.Queued?
    ensures MayMove(c, NextMove(c.task)) && !NextMove(c.task).Grant?
    ensures Stage(Moved(c, NextMove(c.task), now).task) < Stage(c.task)
  {
  }

  lemma PolledAdvances(s: State, id: nat)
    requires id in s.calls && !s.calls[id].task.Ended? && !s.calls[id].task.Queued?
    requires !s.calls[id].polling && !s.calls[id].abortRequested
    ensures Advances(s, id)
  {
    var c := s.calls[id];
    var d := Moved(c, Poll, s.now);
    assert MayMove(c, Poll) && d == c.(polling := true);
    NextMoveLowers(d, s.now);
    hide MayMove, Moved, NextMove, Stage, Run, After;
    TwoSteps(s, Act(id, Poll), Act(id, NextMove(c.task)));
  }

  /** No interleaving deadlocks: while any task has not ended, some task can be
      brought on. */
  lemma SomeTaskCanMove(steps: seq<Step>, id: nat)
    requires Run(INITIAL, steps)
    requires var s := After(INITIAL, steps); id in s.calls && !s.calls[id].task.Ended?
    ensures var s := After(INITIAL, steps);
            exists k :: k in s.calls && !s.calls[k].task.Ended? && Advances(s, k)
  {
    var s := After(INITIAL, steps);
    RunKeeps(INITIAL, steps);
    if !s.calls[id].task.Queued? {
      FreeTaskAdvances(s, id);
    } else if k :| k in s.calls && Holding(s.calls[k]) {
      FreeTaskAdvances(s, k);
    } else {
      FreeGateAdmits(steps, id);
      var head := s.queue[0];
      assert head in s.queue;
      OneStep(s, Act(head, Grant));
      assert Advances(s, head);
    }
  }

  // ---- aborts ---------------------------------------------------------------

  /** What bounds the moves of an aborted task, which is not polled again. */
  function Rank(c: Call): nat {
    2 * Stage(c.task) + (if c.polling then 1 else 0) + (if c.terminal then 0 else 1)
  }

  /** How often the task of a call moves by itself in a run. */
  function OwnMoves(id: nat, steps: seq<Step>): nat {
    if steps == [] then 0
    else
      var step := steps[0];
      (if step.Act? && step.id == id && IsOwnMove(step.move) then 1 else 0) + OwnMoves(id, steps[1..])
  }

  /** Aborted and not running. */
  predicate Struck(c: Call) {
    c.abortRequested && !c.polling && Waiting(c.task)
  }

  /** Every own move of an aborted task lowers its rank, and nothing raises it. */
  lemma AbortedMoveFalls(c: Call, move: Move, now: nat)
    requires MayMove(c, move) && c.abortRequested
    ensures var d := Moved(c, move, now);
            d.abortRequested && Rank(d) + (if IsOwnMove(move) then 1 else 0) <= Rank(c)
  {
    hide OuterMoved;
    if !IsTaskMove(move) {
      OuterLeavesTask(c, move, now);
    } else {
      match move
      case Poll | Suspend | Admit | Enqueue | Grant | Enter | ReachTerminal | HandlerReturns(_) =>
      case DropGate | ReportReady | Complete | PanicNow | TakeAbort =>
    }
  }

  /** The only own move of a struck task is to end; the gate may still grant. */
  lemma StruckMoves(c: Call, move: Move, now: nat)
    requires MayMove(c, move) && Struck(c)
    ensures var d := Moved(c, move, now);
            && (IsOwnMove(move) ==> move == TakeAbort && d.task == Ended(Cancelled))
            && (!IsOwnMove(move) ==> Struck(d) && (d.task == c.task || (c.task.Queued? && d.task.Granted?)))
  {
    hide OuterMoved;
    if !IsTaskMove(move) { OuterLeavesTask(c, move, now); }
  }

  lemma EndedStays(c: Call, move: Move, now: nat)
    requires MayMove(c, move) && c.task.Ended?
    ensures !IsTaskMove(move) ==> Moved(c, move, now).task == c.task
    ensures IsTaskMove(move) ==> c.polling && move.Suspend?
  {
    hide OuterMoved;
    if !IsTaskMove(move) { OuterLeavesTask(c, move, now); }
  }

  /** A task aborted while it is suspended never runs again: whatever happens, it
      stays where it is, but for a grant, until it is cancelled; and that is its
      very next move. */
  lemma {:induction false} StruckNeverRuns(s: State, id: nat, steps: seq<Step>)
    requires Invariant(s) && Run(s, steps) && id in s.calls && Struck(s.calls[id])
    ensures var c, t := s.calls[id], After(s, steps);
            && id in t.calls
            && (if OwnMoves(id, steps) == 0
                then Struck(t.calls[id]) &&
                     (t.calls[id].task == c.task || (c.task.Queued? && t.calls[id].task.Granted?))
                else t.calls[id].task == Ended(Cancelled))
    decreases |steps|
  {
    hide Invariant, Enabled, MayMove, Moved, Struck;
    if steps != [] {
      var step, tail := steps[0], steps[1..];
      var next := Do(s, step);
      StepKeeps(s, step);
      StruckStep(s, id, step);
      if step.Act? && step.id == id && IsOwnMove(step.move) {
        CancelledStays(next, id, tail);
      } else {
        StruckNeverRuns(next, id, tail);
      }
    }
  }

  lemma StruckStep(s: State, id: nat, step: Step)
    requires Enabled(s, step) && id in s.calls && Struck(s.calls[id])
    ensures var c, t := s.calls[id], Do(s, step);
            && id in t.calls
            && (if step.Act? && step.id == id && IsOwnMove(step.move) then t.calls[id].task == Ended(Cancelled)
                else Struck(t.calls[id]) &&
                     (t.calls[id].task == c.task || (c.task.Queued? && t.calls[id].task.Granted?)))
  {
    hide Moved, Struck, MayMove;
    if step.Act? && step.id == id { StruckMoves(s.calls[id], step.move, s.now); }
  }

  lemma {:induction false} CancelledStays(s: State, id: nat, steps: seq<Step>)
    requires Invariant(s) && Run(s, steps) && id in s.calls && s.calls[id].task == Ended(Cancelled)
    ensures id in After(s, steps).calls && After(s, steps).calls[id].task == Ended(Cancelled)
    decreases |steps|
  {
    if steps != [] {
      var step := steps[0];
      StepKeeps(s, step);
      EndedIsQuiet(s, id);
      if step.Act? && step.id == id { EndedStays(s.calls[id], step.move, s.now); }
      hide Invariant, MayMove, Moved;
      CancelledStays(Do(s, step), id, steps[1..]);
    }
  }

  lemma EndedIsQuiet(s: State, id: nat)
    requires Invariant(s) && id in s.calls && s.calls[id].task.Ended?
    ensures !s.calls[id].polling
  {
  }

  /** In every run, a call aborted while it is suspended in line never enters its
      handler, and its next own move leaves it neither holding nor in line. */
  lemma AbortedInLineNeverEnters(steps: seq<Step>, id: nat, more: seq<Step>)
    requires Run(INITIAL, steps)
    requires var s := After(INITIAL, steps);
             id in s.calls && s.calls[id].task.Queued? && Struck(s.calls[id]) && Run(s, more)
    ensures var t := After(After(INITIAL, steps), more);
            && id in t.calls && !t.calls[id].task.InHandler?
            && (OwnMoves(id, more) > 0 ==> !Holding(t.calls[id]) && id !in t.queue)
  {
    var s := After(INITIAL, steps);
    RunKeeps(INITIAL, steps);
    RunKeeps(s, more);
    StruckNeverRuns(s, id, more);
  }

  lemma {:induction false} AbortedRankFalls(s: State, id: nat, steps: seq<Step>)
    requires Run(s, steps) && id in s.calls && s.calls[id].abortRequested
    ensures var t := After(s, steps);
            id in t.calls && t.calls[id].abortRequested && OwnMoves(id, steps) + Rank(t.calls[id]) <= Rank(s.calls[id])
    decreases |steps|
  {
    if steps != [] {
      var step := steps[0];
      if step.Act? && step.id == id { AbortedMoveFalls(s.calls[id], step.move, s.now); }
      hide MayMove, Moved, Rank;
      AbortedRankFalls(Do(s, step), id, steps[1..]);
    }
  }

  /** What an aborted task that has not ended can always do. */
  function LastMove(c: Call): Move
    requires !c.task.Ended?
  {
    if !c.polling then TakeAbort else if c.task.Queued? then Suspend else NextMove(c.task)
  }

  /** An abort always frees the gate. In every continuation of every run, an
      aborted call makes at most as many own moves as its rank, which is at most
      18; as long as its task has not ended it has one to make; and once it has
      ended it neither holds the gate nor stands in line. So does the task of a
      dropped call, which is aborted. */
  lemma AbortFreesGate(steps: seq<Step>, id: nat, more: seq<Step>)
    requires Run(INITIAL, steps)
    requires var s := After(INITIAL, steps);
             id in s.calls && (s.calls[id].abortRequested || s.calls[id].outer.Dropped?) && Run(s, more)
    ensures var s := After(INITIAL, steps);
            var t := After(s, more);
            && id in t.calls && OwnMoves(id, more) <= Rank(s.calls[id]) <= 18
            && (if t.calls[id].task.Ended? then !Holding(t.calls[id]) && id !in t.queue
                else IsOwnMove(LastMove(t.calls[id])) && Enabled(t, Act(id, LastMove(t.calls[id]))))
  {
    var s := After(INITIAL, steps);
    RunKeeps(INITIAL, steps);
    RunKeeps(s, more);
    AbortedRankFalls(s, id, more);
    hide Rank, After, Run;
    RankIsSmall(s.calls[id]);
    AbortedCanMove(After(s, more), id);
  }

  /** A call that waits for its abort, or was dropped, has requested it. */
  lemma AbortIsRequested(steps: seq<Step>, id: nat)
    requires Run(INITIAL, steps) && id in After(INITIAL, steps).calls
    ensures var c := After(INITIAL, steps).calls[id];
            c.outer.AwaitAborted? || c.outer.Dropped? ==> c.abortRequested
  {
    RunKeeps(INITIAL, steps);
  }

  lemma RankIsSmall(c: Call)
    ensures Rank(c) <= 18
  {
  }

  lemma AbortedCanMove(t: State, id: nat)
    requires Invariant(t) && id in t.calls && t.calls[id].abortRequested
    ensures if t.calls[id].task.Ended? then !Holding(t.calls[id]) && id !in t.queue
            else IsOwnMove(LastMove(t.calls[id])) && Enabled(t, Act(id, LastMove(t.calls[id])))
  {
  }

  /** An answered call has let go of the gate. */
  lemma AnsweredCallsHoldNothing(steps: seq<Step>, id: nat)
    requires Run(INITIAL, steps)
    requires var s := After(INITIAL, steps); id in s.calls && s.calls[id].outer.Returned?
    ensures var s := After(INITIAL, steps); s.calls[id].task.Ended? && !Holding(s.calls[id]) && id !in s.queue
  {
    RunKeeps(INITIAL, steps);
  }

  lemma {:induction false} Extended(s: State, steps: seq<Step>, step: Step)
    requires Run(s, steps) && Enabled(After(s, steps), step)
    ensures Run(s, steps + [step]) && After(s, steps + [step]) == Do(After(s, steps), step)
    decreases |steps|
  {
    hide Enabled, Do;
    var all := steps + [step];
    if steps == [] {
      assert all == [step] && all[1..] == [];
    } else {
      assert all[0] == steps[0] && all[1..] == steps[1..] + [step];
      Extended(Do(s, steps[0]), steps[1..], step);
    }
  }

  /** A runtime with a single call. */
  function Alone(c: Call, now: nat): State {
    State(map[0 := c], if c.task.Queued? then [0] else [], now)
  }

  ghost predicate Leads(steps: seq<Step>, c: Call, now: nat) {
    Run(INITIAL, steps) && After(INITIAL, steps) == Alone(c, now)
  }

  lemma AloneIsAdmitted(c: Call, move: Move, now: nat)
    requires MayMove(c, move)
    ensures Enabled(Alone(c, now), Act(0, move))
  {
  }

  lemma AloneMoves(steps: seq<Step>, c: Call, move: Move, now: nat) returns (longer: seq<Step>, d: Call)
    requires Leads(steps, c, now) && MayMove(c, move)
    ensures Leads(longer, d, now) && d == Moved(c, move, now)
  {
    AloneIsAdmitted(c, move, now);
    MoveAndGate(c, move, now);
    hide Moved, Run, After, MayMove;
    longer, d := steps + [Act(0, move)], Moved(c, move, now);
    Extended(INITIAL, steps, Act(0, move));
    assert Alone(c, now).calls[0 := d] == map[0 := d];
    assert [0][1..] == [] && [] + [0] == [0];
    assert Without([0], 0) == [] && Without([], 0) == [];
    assert Do(Alone(c, now), Act(0, move)).queue == Alone(d, now).queue;
  }

  lemma TimeMoves(steps: seq<Step>, c: Call, now: nat) returns (longer: seq<Step>)
    requires Leads(steps, c, now)
    ensures Leads(longer, c, now + 1)
  {
    hide Run, After;
    longer := steps + [Tick];
    Extended(INITIAL, steps, Tick);
  }

  lemma GetsTheGate(direct: bool) returns (steps: seq<Step>, c: Call)
    ensures Leads(steps, c, 0) && c == NewCall(true, direct, Admitted, 0).(task := Granted, polling := true)
  {
    c, steps := NewCall(true, direct, Admitted, 0), [Start(0, true, direct, Admitted)];
    assert INITIAL.calls[0 := c] == map[0 := c];
    OneStep(INITIAL, steps[0]);
    assert Leads(steps, c, 0);
    hide Leads;
    steps, c := AloneMoves(steps, c, Poll, 0);
    steps, c := AloneMoves(steps, c, Admit, 0);
    steps, c := AloneMoves(steps, c, Enqueue, 0);
    steps, c := AloneMoves(steps, c, Grant, 0);
  }

  lemma PassesCheck(before: seq<Step>, b: Call) returns (steps: seq<Step>, c: Call)
    requires Leads(before, b, 0) && b.task.InHandler? && b.outer.Selecting? && !b.terminal
    ensures Leads(steps, c, 0)
    ensures c == b.(cancelled := true, outer := MustAbort, sawTerminal := Some(false), sawFinished := Some(false))
  {
    hide Leads;
    steps, c := AloneMoves(before, b, CancelToken, 0);
    steps, c := AloneMoves(steps, c, SeeCancel, 0);
    steps, c := AloneMoves(steps, c, LoadFlag, 0);
    steps, c := AloneMoves(steps, c, LoadFinished, 0);
  }

  lemma TaskFinishes(before: seq<Step>, b: Call) returns (steps: seq<Step>, c: Call)
    requires Leads(before, b, 0) && b.task.InHandler? && b.polling && !b.terminal && b.ready == 0
    ensures Leads(steps, c, 0) && c == b.(terminal := true, task := Ended(Value), polling := false, ready := 1)
  {
    hide Leads;
    steps, c := AloneMoves(before, b, ReachTerminal, 0);
    steps, c := AloneMoves(steps, c, HandlerReturns(false), 0);
    steps, c := AloneMoves(steps, c, DropGate, 0);
    steps, c := AloneMoves(steps, c, ReportReady, 0);
    steps, c := AloneMoves(steps, c, Complete, 0);
  }

  /** The abort can lose the race: a task that is being polled may reach its
      terminal point and end with a result after the check saw neither, and then
      that result is the answer, announced once. */
  lemma AbortCanLose()
    ensures exists steps, c :: Leads(steps, c, 0) &&
              c.abortRequested && c.terminal && c.sawTerminal == Some(false) && c.sawFinished == Some(false) &&
              c.outer == Returned(Plain) && c.ready == 1
  {
    hide Leads;
    var steps, c := GetsTheGate(false);
    steps, c := AloneMoves(steps, c, Enter, 0);
    steps, c := PassesCheck(steps, c);
    steps, c := TaskFinishes(steps, c);
    steps, c := AloneMoves(steps, c, RequestAbort, 0);
    steps, c := AloneMoves(steps, c, Join, 0);
    steps, c := AloneMoves(steps, c, ReadClock, 0);
    steps, c := AloneMoves(steps, c, FinishTiming, 0);
    assert Leads(steps, c, 0) && c.outer == Returned(Plain);
  }

  /** Execution may start between the two reads of a drop's report, which then
      says that it did not start. */
  lemma LateStartIsLeftOut()
    ensures exists steps, c :: Leads(steps, c, 1) &&
              c.guard.executionStartedAt == Some(1) && |c.reports| == 1 && !c.reports[0].executionStarted
  {
    hide Leads;
    var steps, c := GetsTheGate(true);
    steps, c := AloneMoves(steps, c, DropOuter, 0);
    steps := TimeMoves(steps, c, 0);
    steps, c := AloneMoves(steps, c, Enter, 1);
    steps, c := AloneMoves(steps, c, DropReport, 1);
    assert Leads(steps, c, 1) && c.guard.executionStartedAt == Some(1);
  }
}
