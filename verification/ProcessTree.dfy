/** The memory of a process tree, given who is whose parent. */
module ProcessTree {
  import opened Common

  /** What the process table says of one process. */
  datatype Entry = Entry(parent: Option<nat>, rss: Option<nat>)

  type Processes = map<nat, Entry>

  predicate ChildOf(processes: Processes, child: nat, parent: nat) {
    child in processes && processes[child].parent == Some(parent)
  }

  /** A line of descent from the root. */
  predicate Descent(processes: Processes, root: nat, line: seq<nat>) {
    line != [] && line[0] == root &&
    forall i :: 0 < i < |line| ==> ChildOf(processes, line[i], line[i - 1])
  }

  ghost predicate Descends(processes: Processes, root: nat, pid: nat) {
    exists line :: Descent(processes, root, line) && line[|line| - 1] == pid
  }

  function Rss(processes: Processes, pid: nat): nat {
    if pid in processes && processes[pid].rss.Some? then processes[pid].rss.value else 0
  }

  ghost function TotalRss(processes: Processes, pids: set<nat>): nat {
    if pids == {} then 0
    else
      var pid :| pid in pids;
      Rss(processes, pid) + TotalRss(processes, pids - {pid})
  }

  /** Which element is taken first does not matter. */
  lemma {:induction false} TotalRssOf(processes: Processes, pids: set<nat>, pid: nat)
    requires pid in pids
    ensures TotalRss(processes, pids) == Rss(processes, pid) + TotalRss(processes, pids - {pid})
    decreases |pids|
  {
    var first :| first in pids &&
      TotalRss(processes, pids) == Rss(processes, first) + TotalRss(processes, pids - {first});
    if first != pid {
      TotalRssOf(processes, pids - {first}, pid);
      TotalRssOf(processes, pids - {pid}, first);
      assert pids - {first} - {pid} == pids - {pid} - {first};
    }
  }

  lemma {:induction false} DistinctFits(s: seq<nat>, all: set<nat>)
    requires Distinct(s) && forall i :: 0 <= i < |s| ==> s[i] in all
    ensures |s| <= |all|
  {
    if s != [] {
      var last := |s| - 1;
      DistinctFits(s[..last], all - {s[last]});
    }
  }

  ghost predicate ChildrenIn(processes: Processes, parent: nat, members: seq<nat>) {
    forall pid :: ChildOf(processes, pid, parent) ==> pid in members
  }

  /** One round: the children of `parent` join, whatever order the table is
      walked in. */
  method AddChildren(processes: Processes, root: nat, parent: nat, members: seq<nat>) returns (more: seq<nat>)
    requires Distinct(members) && Descends(processes, root, parent)
    requires forall pid :: pid in members ==> Descends(processes, root, pid)
    ensures members <= more && Distinct(more) && ChildrenIn(processes, parent, more)
    ensures forall pid :: pid in more ==> Descends(processes, root, pid)
  {
    more := members;
    var left := processes.Keys;
    while left != {}
      invariant left <= processes.Keys && members <= more && Distinct(more)
      invariant forall pid :: pid in more ==> Descends(processes, root, pid)
      invariant forall pid :: ChildOf(processes, pid, parent) && pid !in left ==> pid in more
    {
      var pid :| pid in left;
      if processes[pid].parent == Some(parent) && pid !in more {
        ghost var line :| Descent(processes, root, line) && line[|line| - 1] == parent;
        assert Descent(processes, root, line + [pid]) && (line + [pid])[|line|] == pid;
        more := more + [pid];
      }
      left := left - {pid};
    }
  }

  /** The loop ends on every table, cycles included, with exactly the processes
      that descend from the root, each once. */
  method Members(root: nat, processes: Processes) returns (members: seq<nat>)
    ensures Distinct(members)
    ensures forall pid :: pid in members <==> Descends(processes, root, pid)
  {
    hide Descent;
    members := [root];
    RootDescends(processes, root);
    var index := 0;
    ghost var all := processes.Keys + {root};
    while index < |members|
      invariant index <= |members| && root in members && Distinct(members)
      invariant forall pid :: pid in members ==> Descends(processes, root, pid)
      invariant forall i :: 0 <= i < index ==> ChildrenIn(processes, members[i], members)
      decreases |all| - index
    {
      members := AddChildren(processes, root, members[index], members);
      index := index + 1;
      DescendantsAreKnown(processes, root);
      DistinctFits(members, all);
    }
    ClosedHoldsTheTree(processes, root, members);
  }

  lemma ClosedHoldsTheTree(processes: Processes, root: nat, members: seq<nat>)
    requires root in members && forall i :: 0 <= i < |members| ==> ChildrenIn(processes, members[i], members)
    ensures forall pid :: Descends(processes, root, pid) ==> pid in members
  {
    forall pid | Descends(processes, root, pid) ensures pid in members {
      var line :| Descent(processes, root, line) && line[|line| - 1] == pid;
      LineStaysInside(processes, root, members, line, |line| - 1);
    }
  }

  lemma RootDescends(processes: Processes, root: nat)
    ensures Descends(processes, root, root)
  {
    assert Descent(processes, root, [root]) && [root][0] == root;
  }

  /** Each process of the tree counts exactly once in the sum. */
  method TreeRss(root: nat, processes: Processes) returns (total: nat)
    ensures total == TotalRss(processes, set pid | pid in processes.Keys + {root} && Descends(processes, root, pid))
  {
    hide TotalRss, Descends;
    var members := Members(root, processes);
    DescendantsAreKnown(processes, root);
    assert Elements(members) == set pid | pid in processes.Keys + {root} && Descends(processes, root, pid);
    total := SumRss(processes, members);
  }

  lemma DescendantsAreKnown(processes: Processes, root: nat)
    ensures forall pid :: Descends(processes, root, pid) ==> pid in processes.Keys + {root}
  {
    forall pid | Descends(processes, root, pid) ensures pid in processes.Keys + {root} {
      var line :| Descent(processes, root, line) && line[|line| - 1] == pid;
      assert |line| > 1 ==> ChildOf(processes, line[|line| - 1], line[|line| - 2]);
    }
  }

  lemma {:induction false} LineStaysInside(processes: Processes, root: nat, members: seq<nat>, line: seq<nat>, n: nat)
    requires root in members && forall i :: 0 <= i < |members| ==> ChildrenIn(processes, members[i], members)
    requires Descent(processes, root, line) && n < |line|
    ensures line[n] in members
  {
    if n > 0 {
      LineStaysInside(processes, root, members, line, n - 1);
      assert ChildOf(processes, line[n], line[n - 1]);
    }
  }

  method SumRss(processes: Processes, members: seq<nat>) returns (total: nat)
    requires Distinct(members)
    ensures total == TotalRss(processes, Elements(members))
  {
    hide TotalRss;
    total := 0;
    NobodyCounts(processes);
    for i := 0 to |members|
      invariant total == TotalRss(processes, Elements(members[..i]))
    {
      var pid := members[i];
      assert members[..i + 1] == members[..i] + [pid] && pid !in members[..i];
      assert Elements(members[..i + 1]) - {pid} == Elements(members[..i]);
      TotalRssOf(processes, Elements(members[..i + 1]), pid);
      if pid in processes && processes[pid].rss.Some? { total := total + processes[pid].rss.value; }
    }
    assert members[..|members|] == members;
  }

  lemma NobodyCounts(processes: Processes)
    ensures TotalRss(processes, Elements([])) == 0
  {
    assert Elements<nat>([]) == {};
  }
}
