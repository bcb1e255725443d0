/** The summary of a native trace: longest phases and phases still open. */
module TraceSummary {
  import opened Common
  import opened ByteText
  import opened TextOrder
  import opened Sorting

  /** The six fields that identify a phase; fields of the wrong type are `None`. */
  datatype Key = Key(
    stage: Bytes, process: Option<int>, component: Option<Bytes>,
    request: Option<int>, ordinal: Option<int>, resource: Option<Bytes>)

  datatype Phase = Start | Complete | Error | Incomplete | Other

  /** A trace line after parsing: skipped (no JSON, or no well-formed stage), one
      that makes the reader raise (JSON that is no object, or an unhashable
      phase), or an event. Durations are `Some` only when they are positive
      integers. */
  datatype Line = Skipped | Raising | Entry(key: Key, phase: Phase, elapsed: Option<nat>, cpu: Option<nat>)

  /** A stage and an amount: microseconds, or open phases. */
  datatype Ranked = Ranked(stage: Bytes, amount: nat)

  datatype Summary =
    | Raised
    | Summary(longest: seq<Ranked>, longestCpu: seq<Ranked>, unfinished: seq<Ranked>, unfinishedTotal: nat)

  const CAP: nat := 10_000

  function Capped(n: nat): nat {
    if n <= CAP then n else CAP
  }

  // ---- rankings -------------------------------------------------------------

  /** Larger amounts first, then stages in order. */
  predicate RankedBefore(a: Ranked, b: Ranked) {
    a.amount > b.amount || (a.amount == b.amount && AtMost(a.stage, b.stage))
  }

  lemma RankedBeforeIsTotal()
    ensures TotalPreorder(RankedBefore)
    ensures TiesAreEqual(RankedBefore)
  {
    forall a: Ranked, b: Ranked
      ensures RankedBefore(a, b) || RankedBefore(b, a)
      ensures RankedBefore(a, b) && RankedBefore(b, a) ==> a == b
    {
      CompareFlips(a.stage, b.stage);
      CompareIsEqual(a.stage, b.stage);
    }
    forall a: Ranked, b: Ranked, c: Ranked | RankedBefore(a, b) && RankedBefore(b, c) ensures RankedBefore(a, c) {
      if a.amount == b.amount == c.amount { CompareChains(a.stage, b.stage, c.stage); }
    }
  }

  /** `list` is the table `m` from the largest amount down. */
  ghost predicate Ranking(m: map<Bytes, nat>, list: seq<Ranked>) {
    Sorted(RankedBefore, list) &&
    forall r :: multiset(list)[r] == if r.stage in m && m[r.stage] == r.amount then 1 else 0
  }

  method Rank(m: map<Bytes, nat>) returns (list: seq<Ranked>)
    ensures Ranking(m, list)
  {
    var items: seq<Ranked> := [];
    var left := m.Keys;
    while left != {}
      invariant left <= m.Keys
      invariant forall r :: multiset(items)[r] ==
                  if r.stage in m && r.stage !in left && m[r.stage] == r.amount then 1 else 0
    {
      var stage :| stage in left;
      left := left - {stage};
      items := items + [Ranked(stage, m[stage])];
    }
    list := SortBy(RankedBefore, items);
    RankedBeforeIsTotal();
    SortBySorts(RankedBefore, items);
  }

  lemma OneRanking(m: map<Bytes, nat>, a: seq<Ranked>, b: seq<Ranked>)
    requires Ranking(m, a) && Ranking(m, b)
    ensures a == b
  {
    RankedBeforeIsTotal();
    assert multiset(a) == multiset(b);
    SortedIsUnique(RankedBefore, a, b);
  }

  function First(list: seq<Ranked>, n: nat): seq<Ranked> {
    if |list| <= n then list else list[..n]
  }

  function Total(list: seq<Ranked>): nat {
    if list == [] then 0 else Total(list[..|list| - 1]) + list[|list| - 1].amount
  }

  // ---- what the lines say ---------------------------------------------------

  /** How often a phase of one key occurs. */
  function CountOf(lines: seq<Line>, key: Key, phase: Phase): nat {
    if lines == [] then 0
    else
      var line := lines[|lines| - 1];
      CountOf(lines[..|lines| - 1], key, phase) +
      (if line.Entry? && line.key == key && line.phase == phase then 1 else 0)
  }

  predicate IsComplete(line: Line, stage: Bytes, us: nat) {
    line.Entry? && line.key.stage == stage && line.phase.Complete? && line.elapsed == Some(us)
  }

  predicate HasCpu(line: Line, stage: Bytes, us: nat) {
    line.Entry? && line.key.stage == stage && !line.phase.Start? && !line.phase.Other? && line.cpu == Some(us)
  }

  /** `m` maps each stage that has a duration to its longest. */
  ghost predicate Longest(m: map<Bytes, nat>, lines: seq<Line>, measures: (Line, Bytes, nat) -> bool) {
    && (forall stage :: stage in m ==> exists line :: line in lines && measures(line, stage, m[stage]))
    && (forall line, stage, us :: line in lines && measures(line, stage, us) ==> stage in m && us <= m[stage])
  }

  function OpenCount(lines: seq<Line>, key: Key): nat {
    var starts, completes := CountOf(lines, key, Start), CountOf(lines, key, Complete);
    if starts > completes then starts - completes else 0
  }

  /** Open phases of a stage over a set of keys. */
  ghost function OpenOver(lines: seq<Line>, keys: set<Key>, stage: Bytes): nat {
    if keys == {} then 0
    else
      var key :| key in keys;
      (if key.stage == stage then OpenCount(lines, key) else 0) + OpenOver(lines, keys - {key}, stage)
  }

  ghost function StartedKeys(lines: seq<Line>): set<Key> {
    set i | 0 <= i < |lines| && lines[i].Entry? && lines[i].phase.Start? :: lines[i].key
  }

  /** The open phases of a stage: the sum over its keys of starts without a
      completion. */
  ghost function OpenPhases(lines: seq<Line>, stage: Bytes): nat {
    OpenOver(lines, StartedKeys(lines), stage)
  }

  /** `m` holds the capped open count of exactly the stages with open phases. */
  ghost predicate Unfinished(m: map<Bytes, nat>, lines: seq<Line>) {
    forall stage :: (stage in m <==> OpenPhases(lines, stage) > 0) &&
                    (stage in m ==> m[stage] == Capped(OpenPhases(lines, stage)))
  }

  /** The three tables of a summary and their rankings. */
  datatype Workings = Workings(
    longest: map<Bytes, nat>, cpu: map<Bytes, nat>, open: map<Bytes, nat>,
    byTime: seq<Ranked>, byCpu: seq<Ranked>, byOpen: seq<Ranked>)

  ghost predicate Tabulated(lines: seq<Line>, w: Workings) {
    Longest(w.longest, lines, IsComplete) && Longest(w.cpu, lines, HasCpu) && Unfinished(w.open, lines)
  }

  ghost predicate Listed(w: Workings) {
    Ranking(w.longest, w.byTime) && Ranking(w.cpu, w.byCpu) && Ranking(w.open, w.byOpen)
  }

  function Shown(w: Workings): Summary {
    Summary(First(w.byTime, 12), First(w.byCpu, 12), First(w.byOpen, 16), Capped(Total(w.byOpen)))
  }

  /** What the summary of a list of lines is. */
  ghost predicate Summarizes(lines: seq<Line>, r: Summary) {
    if Raising in lines then r == Raised else exists w :: Tabulated(lines, w) && Listed(w) && r == Shown(w)
  }

  lemma {:induction false} OpenOverOf(lines: seq<Line>, keys: set<Key>, stage: Bytes, key: Key)
    requires key in keys
    ensures OpenOver(lines, keys, stage) ==
            (if key.stage == stage then OpenCount(lines, key) else 0) + OpenOver(lines, keys - {key}, stage)
    decreases |keys|
  {
    hide OpenCount;
    var first :| first in keys &&
      OpenOver(lines, keys, stage) ==
      (if first.stage == stage then OpenCount(lines, first) else 0) + OpenOver(lines, keys - {first}, stage);
    if first != key {
      OpenOverOf(lines, keys - {first}, stage, key);
      OpenOverOf(lines, keys - {key}, stage, first);
      assert keys - {first} - {key} == keys - {key} - {first};
    }
  }

  // ---- the loops ------------------------------------------------------------

  function Larger(m: map<Bytes, nat>, stage: Bytes, us: nat): map<Bytes, nat> {
    if stage in m && m[stage] >= us then m else m[stage := us]
  }

  lemma LongestGrows(
    m: map<Bytes, nat>, lines: seq<Line>, line: Line, measures: (Line, Bytes, nat) -> bool, stage: Bytes, us: nat)
    requires Longest(m, lines, measures) && measures(line, stage, us)
    requires forall t, v :: measures(line, t, v) ==> t == stage && v == us
    ensures Longest(Larger(m, stage, us), lines + [line], measures)
  {
    var all, n := lines + [line], Larger(m, stage, us);
    forall t | t in n ensures exists l :: l in all && measures(l, t, n[t]) {
      if t == stage && n[t] == us {
        assert line in all;
      } else {
        var l :| l in lines && measures(l, t, m[t]);
        assert l in all;
      }
    }
  }

  lemma LongestStays(m: map<Bytes, nat>, lines: seq<Line>, line: Line, measures: (Line, Bytes, nat) -> bool)
    requires Longest(m, lines, measures) && forall t, v :: !measures(line, t, v)
    ensures Longest(m, lines + [line], measures)
  {
    forall t | t in m ensures exists l :: l in lines + [line] && measures(l, t, m[t]) {
      var l :| l in lines && measures(l, t, m[t]);
      assert l in lines + [line];
    }
  }

  /** The counters of one phase hold exactly the keys that occurred. */
  ghost predicate Counts(m: map<Key, nat>, lines: seq<Line>, phase: Phase) {
    forall key :: (key in m <==> CountOf(lines, key, phase) > 0) && (key in m ==> m[key] == CountOf(lines, key, phase))
  }

  function Bump(m: map<Key, nat>, key: Key): map<Key, nat> {
    m[key := (if key in m then m[key] else 0) + 1]
  }

  lemma CountsStep(m: map<Key, nat>, lines: seq<Line>, line: Line, phase: Phase)
    requires Counts(m, lines, phase)
    ensures Counts(if line.Entry? && line.phase == phase then Bump(m, line.key) else m, lines + [line], phase)
  {
    assert (lines + [line])[..|lines|] == lines;
  }

  /** The first loop: the four dictionaries, or the line that raised. */
  method ReadLines(lines: seq<Line>)
    returns (raised: bool, starts: map<Key, nat>, finishes: map<Key, nat>,
             longest: map<Bytes, nat>, cpu: map<Bytes, nat>)
    ensures raised <==> Raising in lines
    ensures !raised ==> Counts(starts, lines, Start) && Counts(finishes, lines, Complete)
    ensures !raised ==> Longest(longest, lines, IsComplete) && Longest(cpu, lines, HasCpu)
  {
    hide Counts, Longest;
    starts, finishes, longest, cpu := map[], map[], map[], map[];
    NothingRead();
    for i := 0 to |lines|
      invariant Raising !in lines[..i]
      invariant Counts(starts, lines[..i], Start) && Counts(finishes, lines[..i], Complete)
      invariant Longest(longest, lines[..i], IsComplete) && Longest(cpu, lines[..i], HasCpu)
    {
      var line := lines[i];
      assert lines[..i + 1] == lines[..i] + [line];
      CountsStep(starts, lines[..i], line, Start);
      CountsStep(finishes, lines[..i], line, Complete);
      match line
      case Skipped =>
        LongestStays(longest, lines[..i], line, IsComplete);
        LongestStays(cpu, lines[..i], line, HasCpu);
      case Raising => return true, starts, finishes, longest, cpu;
      case Entry(key, phase, elapsed, time) =>
        if phase.Start? { starts := Bump(starts, key); }
        if phase.Complete? { finishes := Bump(finishes, key); }
        if phase.Complete? && elapsed.Some? {
          LongestGrows(longest, lines[..i], line, IsComplete, key.stage, elapsed.value);
          longest := Larger(longest, key.stage, elapsed.value);
        } else {
          LongestStays(longest, lines[..i], line, IsComplete);
        }
        if (phase.Complete? || phase.Error? || phase.Incomplete?) && time.Some? {
          LongestGrows(cpu, lines[..i], line, HasCpu, key.stage, time.value);
          cpu := Larger(cpu, key.stage, time.value);
        } else {
          LongestStays(cpu, lines[..i], line, HasCpu);
        }
    }
    assert lines[..|lines|] == lines;
    raised := false;
  }

  lemma NothingRead()
    ensures Counts(map[], [], Start) && Counts(map[], [], Complete)
    ensures Longest(map[], [], IsComplete) && Longest(map[], [], HasCpu)
  {
  }

  lemma {:induction false} StartedMeans(lines: seq<Line>, key: Key)
    ensures key in StartedKeys(lines) <==> CountOf(lines, key, Start) > 0
  {
    if lines != [] {
      var last := |lines| - 1;
      StartedMeans(lines[..last], key);
      assert forall i :: 0 <= i < last ==> lines[i] == lines[..last][i];
      assert key in StartedKeys(lines) <==>
             key in StartedKeys(lines[..last]) ||
             (lines[last].Entry? && lines[last].phase.Start? && lines[last].key == key);
    }
  }

  /** The second loop: open phases by stage, in any order of the keys. */
  method SumOpen(ghost lines: seq<Line>, starts: map<Key, nat>, finishes: map<Key, nat>) returns (open: map<Bytes, nat>)
    requires Counts(starts, lines, Start) && Counts(finishes, lines, Complete)
    ensures forall stage :: (stage in open <==> OpenPhases(lines, stage) > 0) &&
                            (stage in open ==> open[stage] == OpenPhases(lines, stage))
  {
    open := map[];
    var left := starts.Keys;
    ghost var done: set<Key> := {};
    forall key ensures key in starts <==> key in StartedKeys(lines) { StartedMeans(lines, key); }
    while left != {}
      invariant left <= starts.Keys && done == starts.Keys - left
      invariant OpenTable(lines, done, open)
    {
      var key :| key in left;
      left := left - {key};
      var started: int, completes: int := starts[key], if key in finishes then finishes[key] else 0;
      var count := started - completes;
      assert OpenCount(lines, key) == if count > 0 then count else 0 by {
        assert completes == CountOf(lines, key, Complete) && starts[key] == CountOf(lines, key, Start);
      }
      OpenTableStep(lines, done, key, open);
      done := done + {key};
      if count > 0 {
        open := open[key.stage := (if key.stage in open then open[key.stage] else 0) + count];
      }
    }
    assert done == StartedKeys(lines);
  }

  ghost predicate OpenTable(lines: seq<Line>, keys: set<Key>, open: map<Bytes, nat>) {
    forall stage :: (stage in open <==> OpenOver(lines, keys, stage) > 0) &&
                    (stage in open ==> open[stage] == OpenOver(lines, keys, stage))
  }

  lemma OpenTableStep(lines: seq<Line>, keys: set<Key>, key: Key, open: map<Bytes, nat>)
    requires OpenTable(lines, keys, open) && key !in keys
    ensures var n := OpenCount(lines, key);
            var m := (if key.stage in open then open[key.stage] else 0) + n;
            OpenTable(lines, keys + {key}, if n > 0 then open[key.stage := m] else open)
  {
    hide OpenCount;
    forall stage ensures OpenOver(lines, keys + {key}, stage) ==
                         (if key.stage == stage then OpenCount(lines, key) else 0) + OpenOver(lines, keys, stage)
    {
      OpenOverOf(lines, keys + {key}, stage, key);
      assert keys + {key} - {key} == keys;
    }
  }

  method Summarize(lines: seq<Line>) returns (r: Summary)
    ensures Summarizes(lines, r)
  {
    hide Counts, Longest, Ranking, OpenPhases;
    var raised, starts, finishes, longest, cpu := ReadLines(lines);
    if raised { return Raised; }
    var open := SumOpen(lines, starts, finishes);
    var capped := map stage | stage in open :: Capped(open[stage]);
    var a := Rank(longest);
    var b := Rank(cpu);
    var c := Rank(capped);
    var w := Workings(longest, cpu, capped, a, b, c);
    assert Tabulated(lines, w) && Listed(w);
    r := Shown(w);
  }

  // ---- independence of order ------------------------------------------------

  lemma {:induction false} CountJoins(a: seq<Line>, b: seq<Line>, key: Key, phase: Phase)
    ensures CountOf(a + b, key, phase) == CountOf(a, key, phase) + CountOf(b, key, phase)
    decreases |b|
  {
    if b == [] {
      assert a + b == a;
    } else {
      assert (a + b)[..|a + b| - 1] == a + b[..|b| - 1];
      CountJoins(a, b[..|b| - 1], key, phase);
    }
  }

  function Dropping(lines: seq<Line>, i: nat): seq<Line>
    requires i < |lines|
  {
    lines[..i] + lines[i + 1..]
  }

  lemma DroppingMeans(lines: seq<Line>, i: nat, key: Key, phase: Phase)
    requires i < |lines|
    ensures multiset(Dropping(lines, i)) == multiset(lines) - multiset{lines[i]}
    ensures CountOf(lines, key, phase) == CountOf(Dropping(lines, i), key, phase) + CountOf([lines[i]], key, phase)
  {
    hide CountOf;
    var left, one, right := lines[..i], [lines[i]], lines[i + 1..];
    assert lines == left + (one + right);
    CountJoins(left, one + right, key, phase);
    CountJoins(one, right, key, phase);
    CountJoins(left, right, key, phase);
  }

  lemma {:induction false} CountPermuted(a: seq<Line>, b: seq<Line>, key: Key, phase: Phase)
    requires multiset(a) == multiset(b)
    ensures CountOf(a, key, phase) == CountOf(b, key, phase)
    decreases |a|
  {
    assert |multiset(a)| == |a| && |multiset(b)| == |b|;
    if a != [] {
      assert a[0] in multiset(b);
      var i :| 0 <= i < |b| && b[i] == a[0];
      DroppingMeans(a, 0, key, phase);
      DroppingMeans(b, i, key, phase);
      hide CountOf;
      CountPermuted(Dropping(a, 0), Dropping(b, i), key, phase);
    }
  }

  lemma MembersPermuted(a: seq<Line>, b: seq<Line>)
    requires multiset(a) == multiset(b)
    ensures forall line :: line in a <==> line in b
  {
    forall line ensures line in a <==> line in b {
      assert line in a <==> line in multiset(a);
      assert line in b <==> line in multiset(b);
    }
  }

  lemma {:induction false} OpenOverPermuted(a: seq<Line>, b: seq<Line>, keys: set<Key>, stage: Bytes)
    requires multiset(a) == multiset(b)
    ensures OpenOver(a, keys, stage) == OpenOver(b, keys, stage)
    decreases |keys|
  {
    if keys != {} {
      var key :| key in keys;
      OpenOverOf(a, keys, stage, key);
      OpenOverOf(b, keys, stage, key);
      CountPermuted(a, b, key, Start);
      CountPermuted(a, b, key, Complete);
      OpenOverPermuted(a, b, keys - {key}, stage);
    }
  }

  lemma OpenPermuted(a: seq<Line>, b: seq<Line>, stage: Bytes)
    requires multiset(a) == multiset(b)
    ensures OpenPhases(a, stage) == OpenPhases(b, stage)
  {
    forall key ensures key in StartedKeys(a) <==> key in StartedKeys(b) {
      StartedMeans(a, key);
      StartedMeans(b, key);
      CountPermuted(a, b, key, Start);
    }
    assert StartedKeys(a) == StartedKeys(b);
    OpenOverPermuted(a, b, StartedKeys(a), stage);
  }

  lemma OneLongest(
    a: seq<Line>, b: seq<Line>, m: map<Bytes, nat>, n: map<Bytes, nat>, measures: (Line, Bytes, nat) -> bool)
    requires (forall line :: line in a <==> line in b) && Longest(m, a, measures) && Longest(n, b, measures)
    ensures m == n
  {
    assert forall stage :: stage in m <==> stage in n;
    forall stage | stage in m ensures m[stage] == n[stage] {
      assert m[stage] <= n[stage] <= m[stage];
    }
  }

  lemma TablesAgree(a: seq<Line>, b: seq<Line>, v: Workings, w: Workings)
    requires multiset(a) == multiset(b) && Tabulated(a, v) && Tabulated(b, w)
    ensures v.longest == w.longest && v.cpu == w.cpu && v.open == w.open
  {
    hide Longest, OpenPhases;
    MembersPermuted(a, b);
    OneLongest(a, b, v.longest, w.longest, IsComplete);
    OneLongest(a, b, v.cpu, w.cpu, HasCpu);
    forall stage ensures OpenPhases(a, stage) == OpenPhases(b, stage) { OpenPermuted(a, b, stage); }
  }

  /** The summary depends only on which lines there are and how often each occurs,
      not on their order. */
  lemma OrderDoesNotMatter(a: seq<Line>, b: seq<Line>, r: Summary, s: Summary)
    requires multiset(a) == multiset(b) && Summarizes(a, r) && Summarizes(b, s)
    ensures r == s
  {
    MembersPermuted(a, b);
    if Raising !in a {
      var v :| Tabulated(a, v) && Listed(v) && r == Shown(v);
      var w :| Tabulated(b, w) && Listed(w) && s == Shown(w);
      TablesAgree(a, b, v, w);
      hide Tabulated, Ranking;
      OneRanking(v.longest, v.byTime, w.byTime);
      OneRanking(v.cpu, v.byCpu, w.byCpu);
      OneRanking(v.open, v.byOpen, w.byOpen);
    }
  }

  // ---- what is shown --------------------------------------------------------

  /** A ranking goes down: larger amounts first, and among equal amounts the stage
      that comes first as text. */
  lemma RankingGoesDown(m: map<Bytes, nat>, list: seq<Ranked>, i: nat, j: nat)
    requires Ranking(m, list) && i < j < |list|
    ensures list[i].amount > list[j].amount ||
            (list[i].amount == list[j].amount &&
             (list[i].stage == list[j].stage || TextBefore(list[i].stage, list[j].stage)))
  {
    CompareMeans(list[i].stage, list[j].stage);
    CompareIsEqual(list[i].stage, list[j].stage);
    hide Compare, TextBefore;
    assert RankedBefore(list[i], list[j]);
  }

  lemma {:induction false} TotalBounds(list: seq<Ranked>, i: nat)
    requires i < |list|
    ensures list[i].amount <= Total(list)
  {
    if i < |list| - 1 { TotalBounds(list[..|list| - 1], i); }
  }

  /** At most twelve stages by either time and sixteen open ones are shown; no open
      count and no total is above 10,000; and the total is at least each count. */
  lemma SummariesAreBounded(lines: seq<Line>, r: Summary)
    requires Summarizes(lines, r) && !r.Raised?
    ensures |r.longest| <= 12 && |r.longestCpu| <= 12 && |r.unfinished| <= 16 && r.unfinishedTotal <= 10_000
    ensures forall i :: 0 <= i < |r.unfinished| ==> r.unfinished[i].amount <= r.unfinishedTotal
  {
    var w :| Tabulated(lines, w) && Listed(w) && r == Shown(w);
    hide Longest, OpenPhases, Ranking;
    OpenIsCapped(w.open, w.byOpen);
  }

  lemma OpenIsCapped(m: map<Bytes, nat>, list: seq<Ranked>)
    requires Ranking(m, list) && forall stage :: stage in m ==> m[stage] <= 10_000
    ensures forall i :: 0 <= i < |list| ==> list[i].amount <= 10_000 && list[i].amount <= Total(list)
  {
    forall i | 0 <= i < |list| ensures list[i].amount <= 10_000 && list[i].amount <= Total(list) {
      hide Total;
      TotalBounds(list, i);
      assert list[i] in multiset(list);
      assert list[i].stage in m && m[list[i].stage] == list[i].amount;
    }
  }

  /** Every stage that completed is shown with its longest time, unless twelve
      stages are shown and none of them is shorter. */
  lemma LongestIsShown(lines: seq<Line>, r: Summary, line: Line, us: nat)
    requires Summarizes(lines, r) && !r.Raised? && line in lines && line.Entry? && IsComplete(line, line.key.stage, us)
    ensures (exists i :: 0 <= i < |r.longest| && r.longest[i].stage == line.key.stage && r.longest[i].amount >= us) ||
            (|r.longest| == 12 && forall i :: 0 <= i < 12 ==> r.longest[i].amount >= us)
  {
    var w :| Tabulated(lines, w) && Listed(w) && r == Shown(w);
    var stage := line.key.stage;
    assert stage in w.longest && us <= w.longest[stage];
    hide Tabulated, Ranking;
    TopIsShown(w.longest, w.byTime, stage, us, 12);
  }

  lemma TopIsShown(m: map<Bytes, nat>, list: seq<Ranked>, stage: Bytes, us: nat, n: nat)
    requires Ranking(m, list) && stage in m && us <= m[stage]
    ensures var top := First(list, n);
            (exists i :: 0 <= i < |top| && top[i].stage == stage && top[i].amount >= us) ||
            (|top| == n && forall i :: 0 <= i < n ==> top[i].amount >= us)
  {
    var entry, top := Ranked(stage, m[stage]), First(list, n);
    assert multiset(list)[entry] == 1 && entry in list;
    var k :| 0 <= k < |list| && list[k] == entry;
    hide Ranking;
    if k < |top| {
      assert top[k] == entry;
    } else {
      forall i | 0 <= i < n ensures top[i].amount >= us { RankingGoesDown(m, list, i, k); }
    }
  }
}
