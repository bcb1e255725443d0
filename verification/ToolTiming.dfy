/** The timing guard of a tool call: one report, whether the call returns or its
    future is dropped. Instants are nanoseconds of a monotone clock. */
module ToolTiming {
  import opened Common

  const U64_MAX: nat := 0xFFFF_FFFF_FFFF_FFFF

  /** `startedAt` is taken by the first report. `executionStartedAt` is shared
      with the task, which sets it at most once. */
  datatype Guard = Guard(startedAt: Option<nat>, executionStartedAt: Option<nat>)

  datatype Durations = Durations(dispatch: nat, handler: nat, total: nat)

  /** The durations are left out when one does not fit in 64 bits. */
  datatype Report = Report(executionStarted: bool, durations: Option<Durations>)

  /** `duration_since`, which never goes below zero. */
  function Since(later: nat, earlier: nat): nat {
    if earlier <= later then later - earlier else 0
  }

  function Millis(nanos: nat): nat {
    nanos / 1_000_000
  }

  /** Whole milliseconds of nanoseconds, rounded down. */
  lemma MillisMeans(nanos: nat)
    ensures 1_000_000 * Millis(nanos) <= nanos < 1_000_000 * Millis(nanos) + 1_000_000
  {
  }

  function Measured(started: nat, execution: Option<nat>, now: nat): Durations {
    match execution
    case None => Durations(Millis(Since(now, started)), 0, Millis(Since(now, started)))
    case Some(start) =>
      Durations(Millis(Since(start, started)), Millis(Since(now, start)), Millis(Since(now, started)))
  }

  function ReportAt(started: nat, execution: Option<nat>, now: nat): Report {
    var seen := if execution.Some? && execution.value <= now then execution else None;
    var d := Measured(started, seen, now);
    var fits := d.dispatch <= U64_MAX && d.handler <= U64_MAX && d.total <= U64_MAX;
    Report(seen.Some?, if fits then Some(d) else None)
  }

  function Finished(g: Guard): Guard {
    g.(startedAt := None)
  }

  /** The reports one `finish` adds. */
  function Reports(g: Guard, now: nat): seq<Report> {
    if g.startedAt.None? then [] else [ReportAt(g.startedAt.value, g.executionStartedAt, now)]
  }

  /** The handler time that the first `finish` hands back, if it fits. */
  function HandlerTime(g: Guard, now: nat): Option<nat> {
    if g.startedAt.None? then None
    else
      var start := g.executionStartedAt;
      var ms := if start.Some? && start.value <= now then Millis(now - start.value) else 0;
      if ms <= U64_MAX then Some(ms) else None
  }

  /** What a report says: the parts add up to the total, up to the one
      millisecond that rounding down can lose. */
  predicate AddsUp(r: Report) {
    r.durations.Some? ==>
      var d := r.durations.value;
      if r.executionStarted then d.dispatch + d.handler <= d.total <= d.dispatch + d.handler + 1
      else d.dispatch == d.total && d.handler == 0
  }

  lemma MillisAdd(a: nat, b: nat)
    ensures Millis(a) + Millis(b) <= Millis(a + b) <= Millis(a) + Millis(b) + 1
  {
    var c := 1_000_000;
    assert a == c * (a / c) + a % c && b == c * (b / c) + b % c && a + b == c * ((a + b) / c) + (a + b) % c;
  }

  /** Whatever the clock read, a report adds up; and it has durations exactly
      when the total fits in 64 bits. */
  lemma ReportsAddUp(started: nat, execution: Option<nat>, now: nat)
    requires started <= now && (execution.Some? ==> started <= execution.value)
    ensures AddsUp(ReportAt(started, execution, now))
    ensures ReportAt(started, execution, now).durations.Some? <==> Millis(now - started) <= U64_MAX
  {
    if execution.Some? && execution.value <= now {
      MillisAdd(execution.value - started, now - execution.value);
      assert (execution.value - started) + (now - execution.value) == now - started;
    }
  }

  /** The time handed back is the handler time of the report made with it. */
  lemma HandlerTimeIsReported(g: Guard, now: nat)
    ensures HandlerTime(g, now).Some? ==> g.startedAt.Some?
    ensures forall i :: 0 <= i < |Reports(g, now)| && Reports(g, now)[i].durations.Some? ==>
              HandlerTime(g, now) == Some(Reports(g, now)[i].durations.value.handler)
  {
  }

  /** The guard as the runtime holds it. */
  class TimingGuard {
    var guard: Guard
    var log: seq<Report>

    constructor (now: nat)
      ensures guard == Guard(Some(now), None) && log == []
    {
      guard, log := Guard(Some(now), None), [];
    }

    /** Admission through the gate; only the first instant is kept. */
    method ExecutionStarts(now: nat)
      modifies this
      ensures log == old(log) && guard.startedAt == old(guard.startedAt)
      ensures guard.executionStartedAt ==
              if old(guard.executionStartedAt).Some? then old(guard.executionStartedAt) else Some(now)
    {
      if guard.executionStartedAt.None? { guard := guard.(executionStartedAt := Some(now)); }
    }

    method Finish(now: nat) returns (handler: Option<nat>)
      modifies this
      ensures guard == Finished(old(guard)) && log == old(log) + Reports(old(guard), now)
      ensures handler == HandlerTime(old(guard), now)
    {
      if guard.startedAt.None? {
        assert log + [] == log;
        return None;
      }
      var report := ReportAt(guard.startedAt.value, guard.executionStartedAt, now);
      var start := guard.executionStartedAt;
      var ms := if start.Some? && start.value <= now then Millis(Since(now, start.value)) else 0;
      log, guard := log + [report], Finished(guard);
      handler := if ms <= U64_MAX then Some(ms) else None;
    }

    /** Dropping the guard finishes it once more, which reports nothing new. */
    method Drop(now: nat)
      modifies this
      ensures guard == Finished(old(guard)) && log == old(log) + Reports(old(guard), now)
      ensures old(guard.startedAt).None? ==> log == old(log)
    {
      var handler := Finish(now);
    }
  }

  /** However often a guard is finished, it reports exactly once. */
  function ReportsOver(g: Guard, instants: seq<nat>): seq<Report>
    decreases |instants|
  {
    if instants == [] then [] else Reports(g, instants[0]) + ReportsOver(Finished(g), instants[1..])
  }

  lemma {:induction false} OneReport(g: Guard, instants: seq<nat>)
    ensures g.startedAt.None? ==> ReportsOver(g, instants) == []
    ensures g.startedAt.Some? && instants != [] ==>
            ReportsOver(g, instants) == [ReportAt(g.startedAt.value, g.executionStartedAt, instants[0])]
    decreases |instants|
  {
    if instants != [] { OneReport(Finished(g), instants[1..]); }
  }
}
