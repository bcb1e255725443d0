/** Who gets the gate: calls that may run in parallel do, and in the order in
    which they came. */
module GateSharing {
  import opened Common
  import opened ToolTiming
  import opened ToolRuntime

  /** In every reachable state the gate is granted exactly to the first in line, if
      nobody holds it, or if the first in line and all holders run in parallel. */
  lemma GrantsExactly(steps: seq<Step>, id: nat)
    requires Run(INITIAL, steps)
    ensures var s := After(INITIAL, steps);
            Enabled(s, Act(id, Grant)) <==>
            && s.queue != [] && s.queue[0] == id
            && ((forall k :: k in s.calls ==> !Holding(s.calls[k])) ||
                (id in s.calls && s.calls[id].parallel &&
                 forall k :: k in s.calls && Holding(s.calls[k]) ==> s.calls[k].parallel))
  {
    RunKeeps(INITIAL, steps);
    var s := After(INITIAL, steps);
    if s.queue != [] { assert s.queue[0] in s.queue; }
  }

  // ---- together -------------------------------------------------------------

  /** `n` parallel calls are in their handlers and nobody is in line. */
  ghost predicate Together(s: State, n: nat) {
    && s.queue == [] && (forall k :: k in s.calls <==> 0 <= k < n)
    && (forall k :: k in s.calls ==> s.calls[k].parallel && s.calls[k].task.InHandler?)
  }

  /** The call `id` at `c`, with everyone else as in `s`. */
  function With(s: State, id: nat, c: Call): State {
    State(s.calls[id := c], if c.task.Queued? then [id] else [], s.now)
  }

  lemma JoinerMoves(s: State, id: nat, c: Call, move: Move)
    requires s.queue == [] && id !in s.calls && c.parallel && MayMove(c, move)
    requires forall k :: k in s.calls ==> s.calls[k].parallel
    ensures Enabled(With(s, id, c), Act(id, move))
    ensures Do(With(s, id, c), Act(id, move)) == With(s, id, Moved(c, move, s.now))
  {
    var d := Moved(c, move, s.now);
    MoveAndGate(c, move, s.now);
    hide Moved, MayMove;
    assert s.calls[id := c][id := d] == s.calls[id := d];
    assert [id][1..] == [] && [] + [id] == [id];
    assert Without([id], id) == [] && Without([], id) == [];
  }

  lemma JoinerEntersLine(s: State, id: nat) returns (steps: seq<Step>)
    requires s.queue == [] && id !in s.calls && forall k :: k in s.calls ==> s.calls[k].parallel
    ensures Run(s, steps)
    ensures After(s, steps) == With(s, id, NewCall(true, false, Admitted, s.now).(task := Queued, polling := true))
  {
    var c := NewCall(true, false, Admitted, s.now);
    steps := [Start(id, true, false, Admitted)];
    OneStep(s, steps[0]);
    hide Run, After, Enabled, Do;
    assert After(s, steps) == With(s, id, c);
    c, steps := JoinerSteps(s, steps, id, c, Poll);
    c, steps := JoinerSteps(s, steps, id, c, Admit);
    c, steps := JoinerSteps(s, steps, id, c, Enqueue);
  }

  lemma JoinerSteps(s: State, steps: seq<Step>, id: nat, c: Call, move: Move) returns (d: Call, longer: seq<Step>)
    requires s.queue == [] && id !in s.calls && c.parallel && MayMove(c, move)
    requires forall k :: k in s.calls ==> s.calls[k].parallel
    requires Run(s, steps) && After(s, steps) == With(s, id, c)
    ensures d == Moved(c, move, s.now) && Run(s, longer) && After(s, longer) == With(s, id, d)
  {
    hide Run, After, Enabled, Do, Moved, MayMove;
    d, longer := Moved(c, move, s.now), steps + [Act(id, move)];
    JoinerMoves(s, id, c, move);
    Extended(s, steps, Act(id, move));
  }

  lemma OneMoreJoins(s: State, n: nat) returns (steps: seq<Step>)
    requires Together(s, n)
    ensures Run(s, steps) && Together(After(s, steps), n + 1)
  {
    var c := NewCall(true, false, Admitted, s.now).(task := Queued, polling := true);
    steps := JoinerEntersLine(s, n);
    hide Run, After;
    c, steps := JoinerSteps(s, steps, n, c, Grant);
    c, steps := JoinerSteps(s, steps, n, c, Enter);
  }

  lemma {:induction false} RunJoins(s: State, one: seq<Step>, two: seq<Step>)
    requires Run(s, one) && Run(After(s, one), two)
    ensures Run(s, one + two) && After(s, one + two) == After(After(s, one), two)
    decreases |one|
  {
    hide Enabled, Do;
    if one == [] {
      assert one + two == two;
    } else {
      assert (one + two)[0] == one[0] && (one + two)[1..] == one[1..] + two;
      RunJoins(Do(s, one[0]), one[1..], two);
    }
  }

  /** Parallel calls do run together: for every `n` some run has `n` of them in
      their handlers at once. */
  lemma {:induction false} ManyTogether(n: nat) returns (steps: seq<Step>)
    ensures Run(INITIAL, steps) && Together(After(INITIAL, steps), n)
  {
    if n == 0 {
      steps := [];
    } else {
      var before := ManyTogether(n - 1);
      hide Run, After, Together;
      var more := OneMoreJoins(After(INITIAL, before), n - 1);
      steps := before + more;
      RunJoins(INITIAL, before, more);
    }
  }

  // ---- in order -------------------------------------------------------------

  /** `i` stands before `j` in a line. */
  ghost predicate Ahead(queue: seq<nat>, i: nat, j: nat) {
    exists m, n :: 0 <= m < n < |queue| && queue[m] == i && queue[n] == j
  }

  /** Whoever joins stands behind everyone who waits. */
  lemma JoinersGoLast(s: State, id: nat, other: nat)
    requires Enabled(s, Act(id, Enqueue)) && other in s.queue
    ensures Ahead(Do(s, Act(id, Enqueue)).queue, other, id)
  {
    var m :| 0 <= m < |s.queue| && s.queue[m] == other;
    var queue := s.queue + [id];
    assert queue[m] == other && queue[|s.queue|] == id;
  }

  lemma {:induction false} AheadWithout(queue: seq<nat>, id: nat, i: nat, j: nat)
    requires Ahead(queue, i, j) && id != i && id != j
    ensures Ahead(Without(queue, id), i, j)
  {
    var m, n :| 0 <= m < n < |queue| && queue[m] == i && queue[n] == j;
    var tail := queue[1..];
    var rest := Without(tail, id);
    if m > 0 {
      assert tail[m - 1] == i && tail[n - 1] == j;
      AheadWithout(tail, id, i, j);
      var a, b :| 0 <= a < b < |rest| && rest[a] == i && rest[b] == j;
      var r := Without(queue, id);
      assert r == rest || r == [queue[0]] + rest;
      if r != rest { assert r[a + 1] == i && r[b + 1] == j; }
    } else {
      assert tail[n - 1] == j;
      KeptWithout(tail, id, j);
      var b :| 0 <= b < |rest| && rest[b] == j;
      assert ([i] + rest)[0] == i && ([i] + rest)[b + 1] == j;
    }
  }

  lemma {:induction false} KeptWithout(queue: seq<nat>, id: nat, j: nat)
    requires j in queue && j != id
    ensures j in Without(queue, id)
  {
    if queue[0] != j { KeptWithout(queue[1..], id, j); }
  }

  /** What becomes of `j` while `i`, ahead of it, still waits. */
  ghost predicate StillBehind(s: State, i: nat, j: nat) {
    j in s.calls && (Ahead(s.queue, i, j) || s.calls[j].task == Ended(Cancelled))
  }

  lemma StepKeepsOrder(s: State, step: Step, i: nat, j: nat)
    requires Invariant(s) && Enabled(s, step) && i != j && StillBehind(s, i, j) && i in s.queue
    ensures i in Do(s, step).queue ==> StillBehind(Do(s, step), i, j)
  {
    var t := Do(s, step);
    if step.Act? && i in t.queue {
      var id, move := step.id, step.move;
      LeavingTheLine(s, id, move, i, j);
      if s.calls[j].task == Ended(Cancelled) {
        if id == j { EndedIsQuiet(s, j); EndedStays(s.calls[j], move, s.now); }
      } else if move.Enqueue? {
        var m, n :| 0 <= m < n < |s.queue| && s.queue[m] == i && s.queue[n] == j;
        assert t.queue[m] == i && t.queue[n] == j;
      } else if (move.Grant? || move.TakeAbort?) && id != i && id != j {
        AheadWithout(s.queue, id, i, j);
      }
    }
  }

  /** `j` cannot be granted before `i`, and `i` is gone if it leaves itself. */
  lemma LeavingTheLine(s: State, id: nat, move: Move, i: nat, j: nat)
    requires Invariant(s) && Enabled(s, Act(id, move)) && i in s.queue
    ensures move.Grant? && Ahead(s.queue, i, j) ==> id != j
    ensures (move.Grant? || move.TakeAbort?) && id == i ==> i !in Do(s, Act(id, move)).queue
    ensures move.TakeAbort? && id == j ==> Do(s, Act(id, move)).calls[j].task == Ended(Cancelled)
  {
    WithoutMeans(s.queue, id);
    if move.Grant? && Ahead(s.queue, i, j) {
      var m, n :| 0 <= m < n < |s.queue| && s.queue[m] == i && s.queue[n] == j;
      assert s.queue[0] != s.queue[n];
    }
  }

  lemma StageFalls(c: Call, move: Move, now: nat)
    requires MayMove(c, move)
    ensures Stage(Moved(c, move, now).task) <= Stage(c.task)
  {
    hide OuterMoved;
    if !IsTaskMove(move) {
      OuterLeavesTask(c, move, now);
    } else {
      match move
      case Poll | Suspend | Admit | Enqueue | Grant | Enter | ReachTerminal | HandlerReturns(_) =>
      case DropGate | ReportReady | Complete | PanicNow | TakeAbort =>
    }
  }

  /** Whoever has left the line does not come back. */
  lemma {:induction false} NeverBack(s: State, steps: seq<Step>, id: nat)
    requires Invariant(s) && Run(s, steps) && id in s.calls && Stage(s.calls[id].task) < 6
    ensures id !in After(s, steps).queue
    decreases |steps|
  {
    if steps != [] {
      var step := steps[0];
      StepKeeps(s, step);
      if step.Act? && step.id == id { StageFalls(s.calls[id], step.move, s.now); }
      hide Invariant, MayMove, Moved, Stage;
      NeverBack(Do(s, step), steps[1..], id);
    }
  }

  lemma LeaversAreOn(s: State, step: Step, id: nat)
    requires Invariant(s) && Enabled(s, step) && id in s.queue && id !in Do(s, step).queue
    ensures id in Do(s, step).calls && Stage(Do(s, step).calls[id].task) < 6
  {
    StepKeeps(s, step);
    if step.Act? && step.id == id { StageFalls(s.calls[id], step.move, s.now); }
    var t := Do(s, step);
    hide Moved, MayMove;
    assert s.calls[id].task.Queued? && !t.calls[id].task.Queued?;
  }

  /** First come, first served: as long as a call waits, nobody behind it in line
      gets the gate; they wait too or have been cancelled. */
  lemma {:induction false} FirstComeFirstServed(s: State, steps: seq<Step>, i: nat, j: nat)
    requires Invariant(s) && Run(s, steps) && i != j && i in s.queue && StillBehind(s, i, j)
    requires i in After(s, steps).queue
    ensures StillBehind(After(s, steps), i, j)
    decreases |steps|
  {
    hide Invariant, Enabled, StillBehind, Do;
    if steps != [] {
      var step, next := steps[0], Do(s, steps[0]);
      StepKeeps(s, step);
      if i in next.queue {
        StepKeepsOrder(s, step, i, j);
        FirstComeFirstServed(next, steps[1..], i, j);
      } else {
        LeaversAreOn(s, step, i);
        NeverBack(next, steps[1..], i);
      }
    }
  }

  /** Over whole runs: a call that waits is served before every call behind it. */
  lemma ServedInOrder(steps: seq<Step>, more: seq<Step>, i: nat, j: nat)
    requires Run(INITIAL, steps) && i != j
    requires var s := After(INITIAL, steps); Ahead(s.queue, i, j) && Run(s, more) && i in After(s, more).queue
    ensures var t := After(After(INITIAL, steps), more);
            j in t.calls && !Holding(t.calls[j]) && !t.calls[j].task.InHandler?
  {
    var s := After(INITIAL, steps);
    RunKeeps(INITIAL, steps);
    RunKeeps(s, more);
    var m, n :| 0 <= m < n < |s.queue| && s.queue[m] == i && s.queue[n] == j;
    assert i in s.queue && j in s.queue;
    FirstComeFirstServed(s, more, i, j);
    var t := After(s, more);
    assert Ahead(t.queue, i, j) ==> j in t.queue;
  }
}
