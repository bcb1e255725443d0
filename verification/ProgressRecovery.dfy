/** Recovering step results from a progress log after a deadline or an early
    exit. */
module ProgressRecovery {
  import opened Common

  /** A log line that is a JSON object. Step events count only with an integer
      index; `errorKind` is `Some` only when it is a well-formed kind. */
  datatype Event =
    | StepStarted(index: int, action: string)
    | StepFinished(index: int, action: string, status: string, elapsed: Option<int>, errorKind: Option<string>)
    | BatchStarted
    | OtherEvent

  datatype Row = Row(
    index: Option<int>, action: string, status: string, elapsed: Option<int>, errorKind: Option<string>)

  const INTERRUPTED := "interrupted"
  const ERROR := "error"

  function FinishedRow(index: int, e: Event): Row
    requires e.StepFinished?
  {
    var kind := if e.errorKind.Some? then e.errorKind.value else "batch_step_error";
    Row(Some(index), e.action, e.status, e.elapsed, if e.status == ERROR then Some(kind) else None)
  }

  function InterruptedRow(index: int, e: Event, kind: string): Row
    requires e.StepStarted?
  {
    Row(Some(index), e.action, INTERRUPTED, None, Some(kind))
  }

  function SetupRow(kind: string): Row {
    Row(None, "batch_setup", INTERRUPTED, None, Some(kind))
  }

  /** The last event of each kind for an index, as a dictionary keeps it. */
  function LastStart(events: seq<Event>, index: int): Option<Event> {
    if events == [] then None
    else
      var e := events[|events| - 1];
      if e.StepStarted? && e.index == index then Some(e) else LastStart(events[..|events| - 1], index)
  }

  function LastFinish(events: seq<Event>, index: int): Option<Event> {
    if events == [] then None
    else
      var e := events[|events| - 1];
      if e.StepFinished? && e.index == index then Some(e) else LastFinish(events[..|events| - 1], index)
  }

  lemma {:induction false} LastMeans(events: seq<Event>, index: int)
    ensures LastStart(events, index).Some? ==> LastStart(events, index).value.StepStarted?
    ensures LastFinish(events, index).Some? ==> LastFinish(events, index).value.StepFinished?
    ensures LastStart(events, index).Some? <==> exists e :: e in events && e.StepStarted? && e.index == index
    ensures LastFinish(events, index).Some? <==> exists e :: e in events && e.StepFinished? && e.index == index
    ensures LastFinish(events, index).Some? ==> LastFinish(events, index).value in events
  {
    if events != [] {
      var last := |events| - 1;
      LastMeans(events[..last], index);
      assert events == events[..last] + [events[last]];
    }
  }

  /** `n` steps finished without a gap, and the next one, within `total`, did not. */
  ghost predicate FinishedRun(events: seq<Event>, total: int, n: nat) {
    && n <= (if total < 0 then 0 else total)
    && (forall i :: 0 <= i < n ==> LastFinish(events, i).Some?)
    && (n < total ==> LastFinish(events, n).None?)
  }

  /** The row that the last finish event of a step makes. */
  predicate Reports(events: seq<Event>, index: int, row: Row) {
    var e := LastFinish(events, index);
    e.Some? && e.value.StepFinished? && row == FinishedRow(index, e.value)
  }

  /** Rows 0..n-1 of the finished run, then one interrupted row if the next step
      had started; or the single setup row if nothing started at all. */
  ghost predicate Recovers(events: seq<Event>, total: int, kind: string, rows: seq<Row>, n: nat) {
    && FinishedRun(events, total, n)
    && n <= |rows| <= n + 1
    && (forall i :: 0 <= i < n ==> Reports(events, i, rows[i]))
    && (var started := n < total && LastStart(events, n).Some?;
        && (started ==> |rows| == n + 1 && LastStart(events, n).value.StepStarted? &&
                        rows[n] == InterruptedRow(n, LastStart(events, n).value, kind))
        && (!started && n > 0 ==> |rows| == n)
        && (!started && n == 0 ==> rows == if BatchStarted in events then [SetupRow(kind)] else []))
  }

  /** The dictionaries of the two comprehensions. */
  method IndexEvents(events: seq<Event>) returns (starts: map<int, Event>, finished: map<int, Event>)
    ensures forall i :: i in starts <==> LastStart(events, i).Some?
    ensures forall i :: i in finished <==> LastFinish(events, i).Some?
    ensures forall i :: i in starts ==> starts[i] == LastStart(events, i).value && starts[i].StepStarted?
    ensures forall i :: i in finished ==> finished[i] == LastFinish(events, i).value && finished[i].StepFinished?
  {
    starts, finished := map[], map[];
    for n := 0 to |events|
      invariant forall i :: i in starts <==> LastStart(events[..n], i).Some?
      invariant forall i :: i in finished <==> LastFinish(events[..n], i).Some?
      invariant forall i :: i in starts ==> starts[i] == LastStart(events[..n], i).value && starts[i].StepStarted?
      invariant forall i :: i in finished ==>
                  finished[i] == LastFinish(events[..n], i).value && finished[i].StepFinished?
    {
      var e := events[n];
      assert events[..n + 1][..n] == events[..n];
      if e.StepStarted? { starts := starts[e.index := e]; }
      if e.StepFinished? { finished := finished[e.index := e]; }
    }
    assert events[..|events|] == events;
  }

  method Recover(events: seq<Event>, total: int, kind: string) returns (rows: seq<Row>)
    ensures exists n :: Recovers(events, total, kind, rows, n)
  {
    hide LastStart, LastFinish;
    var starts, finished := IndexEvents(events);
    rows := [];
    var index: nat := 0;
    while index < total
      invariant index == |rows| && index <= (if total < 0 then 0 else total)
      invariant forall i :: 0 <= i < index ==> Reports(events, i, rows[i])
    {
      if index !in finished { break; }
      rows := rows + [FinishedRow(index, finished[index])];
      index := index + 1;
    }
    forall i | 0 <= i < index ensures LastFinish(events, i).Some? { assert Reports(events, i, rows[i]); }
    if index < total && index in starts {
      rows := rows + [InterruptedRow(index, starts[index], kind)];
    } else if rows == [] && BatchStarted in events {
      rows := [SetupRow(kind)];
    }
    assert Recovers(events, total, kind, rows, index);
  }

  /** The number of finished steps and the rows are determined by the log. */
  lemma OneRecovery(events: seq<Event>, total: int, kind: string, rows: seq<Row>, n: nat, others: seq<Row>, m: nat)
    requires Recovers(events, total, kind, rows, n) && Recovers(events, total, kind, others, m)
    ensures n == m && rows == others
  {
    hide LastStart, LastFinish;
    assert n < m ==> LastFinish(events, n).Some?;
    assert m < n ==> LastFinish(events, m).Some?;
    assert n == m && |rows| == |others|;
    assert forall i :: 0 <= i < n ==> rows[i] == others[i];
  }

  /** Rows carry the indices 0, 1, 2, ... in order, apart from the setup row. */
  lemma RowsAreInOrder(events: seq<Event>, total: int, kind: string, rows: seq<Row>, n: nat)
    requires Recovers(events, total, kind, rows, n) && rows != [SetupRow(kind)]
    ensures forall i :: 0 <= i < |rows| ==> rows[i].index == Some(i)
    ensures |rows| <= (if total < 0 then 0 else total)
  {
  }

  /** A finished row repeats its event: action, status and time, and an error kind
      exactly for an error, which is the event's own or the general one. */
  lemma FinishedRowsRepeat(events: seq<Event>, total: int, kind: string, rows: seq<Row>, n: nat, i: nat)
    requires Recovers(events, total, kind, rows, n) && i < n
    ensures exists e :: e in events && e.StepFinished? && e.index == i && e.action == rows[i].action &&
                        e.status == rows[i].status && e.elapsed == rows[i].elapsed &&
                        rows[i].errorKind == if e.status != "error" then None
                                             else if e.errorKind.Some? then e.errorKind else Some("batch_step_error")
  {
    LastMeans(events, i);
    LastIndexes(events, i);
    assert Reports(events, i, rows[i]);
  }

  lemma {:induction false} LastIndexes(events: seq<Event>, index: int)
    ensures LastStart(events, index).Some? && LastStart(events, index).value.StepStarted? ==>
            LastStart(events, index).value in events && LastStart(events, index).value.index == index
    ensures LastFinish(events, index).Some? && LastFinish(events, index).value.StepFinished? ==>
            LastFinish(events, index).value.index == index
  {
    if events != [] {
      var last := |events| - 1;
      LastIndexes(events[..last], index);
      assert events == events[..last] + [events[last]];
    }
  }

  /** The last row may tell of the step that was under way: it was started, and it
      carries the kind of the interruption and no time. */
  lemma InterruptedRowTells(events: seq<Event>, total: int, kind: string, rows: seq<Row>, n: nat)
    requires Recovers(events, total, kind, rows, n) && |rows| == n + 1
    ensures rows[n].status == "interrupted" && rows[n].errorKind == Some(kind) && rows[n].elapsed == None
    ensures rows[n].index == None ==> n == 0 && rows[n].action == "batch_setup" && BatchStarted in events
    ensures rows[n].index != None ==>
            rows[n].index == Some(n) &&
            exists e :: e in events && e.StepStarted? && e.index == n && e.action == rows[n].action
  {
    LastMeans(events, n);
    LastIndexes(events, n);
  }

  /** A row before the last is "interrupted" exactly when the log's own finish
      event for it says so. */
  lemma InterruptedExactly(events: seq<Event>, total: int, kind: string, rows: seq<Row>, n: nat, i: nat)
    requires Recovers(events, total, kind, rows, n) && i + 1 < |rows|
    ensures rows[i].status == INTERRUPTED <==>
            LastFinish(events, i).Some? && LastFinish(events, i).value.StepFinished? &&
            LastFinish(events, i).value.status == INTERRUPTED
  {
  }

  /** So when no finish event reports "interrupted", only the last row can be. */
  lemma OnlyLastIsInterrupted(events: seq<Event>, total: int, kind: string, rows: seq<Row>, n: nat, i: nat)
    requires Recovers(events, total, kind, rows, n) && i + 1 < |rows|
    requires forall e :: e in events && e.StepFinished? ==> e.status != INTERRUPTED
    ensures rows[i].status != INTERRUPTED
  {
    LastMeans(events, i);
  }

  /** And when one does, an earlier row is interrupted too. */
  lemma FinishedAsInterrupted(kind: string)
    ensures var first := StepFinished(0, "click", INTERRUPTED, None, None);
            var second := StepFinished(1, "click", "ok", None, None);
            var rows := [FinishedRow(0, first), FinishedRow(1, second)];
            Recovers([first, second], 2, kind, rows, 2) && rows[0].status == INTERRUPTED
  {
    var first, second := StepFinished(0, "click", INTERRUPTED, None, None), StepFinished(1, "click", "ok", None, None);
    assert [first, second][..1] == [first] && [first][..0] == [];
    assert LastFinish([first], 0) == Some(first);
    assert LastFinish([first, second], 0) == Some(first);
    assert LastFinish([first, second], 1) == Some(second);
  }
}
