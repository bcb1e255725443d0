/** Capability dependencies of a backend profile: a depth-first search that
    either finds every dependency declared, strong enough and free of cycles, or
    names what is wrong. The capability type is arbitrary. */
module DependencyClosure {
  import opened Common
  import opened ByteText

  datatype SupportLevel = Available | Partial | Restricted | Unavailable {
    predicate Satisfies(required: SupportLevel) {
      match required
      case Available => this == Available
      case Partial => this == Available || this == Partial
      case Restricted => this != Unavailable
      case Unavailable => true
    }
  }

  /** The levels as they are declared, strongest first. */
  const SUPPORT: seq<SupportLevel> := [Available, Partial, Restricted, Unavailable]

  /** A level satisfies exactly itself and the weaker ones. */
  lemma SatisfiesMeans(i: nat, j: nat)
    requires i < 4 && j < 4
    ensures SUPPORT[i].Satisfies(SUPPORT[j]) <==> i <= j
  {
  }

  datatype Dependency<K> = Dependency(capability: K, minimum: SupportLevel, reason: Bytes)
  datatype Descriptor<K> = Descriptor(level: SupportLevel, dependencies: seq<Dependency<K>>, limitations: seq<Bytes>)
  type Graph<K> = map<K, Descriptor<K>>

  datatype Verdict = Sound | Cycle | Undeclared | BelowLevel

  predicate Meets<K>(g: Graph<K>, d: Dependency<K>) {
    d.capability in g && g[d.capability].level.Satisfies(d.minimum)
  }

  /** Declared, and every dependency declared and strong enough. */
  predicate SoundNode<K>(g: Graph<K>, k: K) {
    k in g && forall i :: 0 <= i < |g[k].dependencies| ==> Meets(g, g[k].dependencies[i])
  }

  ghost predicate Edge<K>(g: Graph<K>, a: K, b: K) {
    a in g && exists i :: 0 <= i < |g[a].dependencies| && g[a].dependencies[i].capability == b
  }

  /** A chain of capabilities, each a dependency of the one before. */
  ghost predicate Walk<K>(g: Graph<K>, w: seq<K>) {
    w != [] && forall i :: 0 < i < |w| ==> Edge(g, w[i - 1], w[i])
  }

  /** No walk comes back to its start. */
  ghost predicate Acyclic<K(!new)>(g: Graph<K>) {
    forall w: seq<K> :: Walk(g, w) && |w| > 1 ==> w[0] != w[|w| - 1]
  }

  ghost predicate AllSound<K(!new)>(g: Graph<K>) {
    forall k :: k in g ==> SoundNode(g, k)
  }

  /** A walk the search accepts while it is visiting `visiting`. */
  ghost predicate GoodWalk<K>(g: Graph<K>, visiting: set<K>, w: seq<K>) {
    Distinct(w) && forall i :: 0 <= i < |w| ==> w[i] !in visiting && SoundNode(g, w[i])
  }

  ghost predicate Closed<K(!new)>(g: Graph<K>, k: K, visiting: set<K>) {
    forall w: seq<K> :: Walk(g, w) && w[0] == k ==> GoodWalk(g, visiting, w)
  }

  /** Why a verdict other than `Sound` is right about the graph as a whole. */
  ghost predicate Justified<K(!new)>(g: Graph<K>, v: Verdict) {
    match v
    case Sound => true
    case Cycle => !Acyclic(g)
    case Undeclared => exists k, i :: k in g && 0 <= i < |g[k].dependencies| && g[k].dependencies[i].capability !in g
    case BelowLevel => exists k, i :: k in g && 0 <= i < |g[k].dependencies| && !Meets(g, g[k].dependencies[i])
  }

  /** What the search from `k` comes to: the first defect in the order in which
      dependencies are written. */
  function Search<K>(g: Graph<K>, k: K, visiting: set<K>): Verdict
    decreases g.Keys - visiting, 0
  {
    if k in visiting then Cycle
    else if k !in g then Undeclared
    else SearchAll(g, g[k].dependencies, visiting + {k})
  }

  function SearchAll<K>(g: Graph<K>, dependencies: seq<Dependency<K>>, visiting: set<K>): Verdict
    decreases g.Keys - visiting, 1 + |dependencies|
  {
    if dependencies == [] then Sound
    else
      var d := dependencies[0];
      if d.capability !in g then Undeclared
      else if !g[d.capability].level.Satisfies(d.minimum) then BelowLevel
      else
        var v := Search(g, d.capability, visiting);
        if v != Sound then v else SearchAll(g, dependencies[1..], visiting)
  }

  /** The first defect that the searches from the listed capabilities find. */
  function FirstVerdict<K>(g: Graph<K>, order: seq<K>): Verdict {
    if order == [] then Sound
    else
      var v := Search(g, order[0], {});
      if v != Sound then v else FirstVerdict(g, order[1..])
  }

  /** The search from `k`. `path` is the chain of callers; `visiting` is always
      exactly its elements, and a search that succeeds leaves it as it was. */
  method ValidateClosure<K(==, !new)>(g: Graph<K>, k: K, visiting: set<K>, ghost path: seq<K>)
    returns (v: Verdict, visited: set<K>)
    requires Walk(g, path + [k]) && Distinct(path) && visiting == Elements(path)
    ensures v == Search(g, k, visiting)
    ensures v == Sound <==> Closed(g, k, visiting)
    ensures v == Sound ==> visited == visiting
    ensures k in g || path != [] ==> Justified(g, v)
    decreases g.Keys - visiting
  {
    assert Walk(g, [k]) && [k][0] == k;
    if k in visiting {
      ReturnIsCycle(g, path, k);
      assert !GoodWalk(g, visiting, [k]);
      return Cycle, visiting;
    }
    visited := visiting + {k};
    if k !in g {
      assert !SoundNode(g, k) && !GoodWalk(g, visiting, [k]);
      var all := path + [k];
      assert all[|path|] == k;
      assert path != [] ==> Edge(g, all[|path| - 1], all[|path|]);
      return Undeclared, visited;
    }
    var dependencies := g[k].dependencies;
    ghost var below := path + [k];
    for i := 0 to |dependencies|
      invariant visited == visiting + {k}
      invariant SearchAll(g, dependencies, visiting + {k}) == SearchAll(g, dependencies[i..], visiting + {k})
      invariant forall j :: 0 <= j < i ==>
                  Meets(g, dependencies[j]) && Closed(g, dependencies[j].capability, visiting + {k})
    {
      var d := dependencies[i];
      assert dependencies[i..][1..] == dependencies[i + 1..];
      if d.capability !in g {
        assert !Meets(g, d) && !SoundNode(g, k) && !GoodWalk(g, visiting, [k]);
        return Undeclared, visited;
      }
      if !g[d.capability].level.Satisfies(d.minimum) {
        assert !Meets(g, d) && !SoundNode(g, k) && !GoodWalk(g, visiting, [k]);
        return BelowLevel, visited;
      }
      assert Edge(g, k, d.capability);
      v, visited := ValidateClosure(g, d.capability, visited, below);
      if v != Sound {
        BadDependency(g, k, visiting, d.capability);
        return;
      }
    }
    AllDependenciesGood(g, k, visiting);
    v, visited := Sound, visited - {k};
  }

  lemma {:induction false} SearchAllMeans<K(!new)>(g: Graph<K>, dependencies: seq<Dependency<K>>, visiting: set<K>)
    ensures SearchAll(g, dependencies, visiting) == Sound <==>
            forall i :: 0 <= i < |dependencies| ==>
                          Meets(g, dependencies[i]) && Search(g, dependencies[i].capability, visiting) == Sound
  {
    hide Search;
    if dependencies != [] {
      SearchAllMeans(g, dependencies[1..], visiting);
      assert forall i :: 0 < i < |dependencies| ==> dependencies[i] == dependencies[1..][i - 1];
    }
  }

  /** The search finds no defect exactly when every chain from `k` is good. */
  lemma {:induction false} SearchMeans<K(!new)>(g: Graph<K>, k: K, visiting: set<K>)
    ensures Search(g, k, visiting) == Sound <==> Closed(g, k, visiting)
    decreases g.Keys - visiting
  {
    assert Walk(g, [k]) && [k][0] == k;
    if k in visiting || k !in g {
      assert !GoodWalk(g, visiting, [k]);
    } else {
      var dependencies, below := g[k].dependencies, visiting + {k};
      SearchAllMeans(g, dependencies, below);
      hide Closed, SearchAll;
      forall i | 0 <= i < |dependencies|
        ensures Search(g, dependencies[i].capability, below) == Sound <==> Closed(g, dependencies[i].capability, below)
        ensures Meets(g, dependencies[i]) && !Closed(g, dependencies[i].capability, below) ==> !Closed(g, k, visiting)
      {
        var d := dependencies[i].capability;
        SearchMeans(g, d, below);
        assert Edge(g, k, d);
        if !Closed(g, d, below) { BadDependency(g, k, visiting, d); }
      }
      if SoundNode(g, k) {
        if forall i :: 0 <= i < |dependencies| ==> Closed(g, dependencies[i].capability, below) {
          AllDependenciesGood(g, k, visiting);
        }
      } else {
        UnsoundIsOpen(g, k, visiting);
      }
    }
  }

  lemma UnsoundIsOpen<K(!new)>(g: Graph<K>, k: K, visiting: set<K>)
    requires !SoundNode(g, k)
    ensures !Closed(g, k, visiting)
  {
    assert Walk(g, [k]) && [k][0] == k && !GoodWalk(g, visiting, [k]);
  }

  lemma {:induction false} FirstVerdictMeans<K(!new)>(g: Graph<K>, order: seq<K>)
    ensures FirstVerdict(g, order) == Sound <==> forall k :: k in order ==> Closed(g, k, {})
  {
    hide Search, Closed;
    if order != [] {
      SearchMeans(g, order[0], {});
      FirstVerdictMeans(g, order[1..]);
      assert forall k :: k in order <==> k == order[0] || k in order[1..];
    }
  }

  /** Whatever the order, the searches find no defect exactly when the graph has
      none. */
  lemma SearchesExactly<K(!new)>(g: Graph<K>, order: seq<K>)
    requires Elements(order) == g.Keys
    ensures FirstVerdict(g, order) == Sound <==> Acyclic(g) && AllSound(g)
  {
    FirstVerdictMeans(g, order);
    ClosedExactly(g);
    hide Closed, FirstVerdict, Acyclic, AllSound;
    assert forall k :: k in g <==> k in Elements(order);
  }

  lemma ReturnIsCycle<K(!new)>(g: Graph<K>, path: seq<K>, k: K)
    requires Walk(g, path + [k]) && k in path
    ensures !Acyclic(g)
  {
    var i :| 0 <= i < |path| && path[i] == k;
    var loop := (path + [k])[i..];
    assert forall j :: 0 <= j < |loop| ==> loop[j] == (path + [k])[i + j];
    assert Walk(g, loop) && loop[0] == loop[|loop| - 1];
  }

  lemma BadDependency<K(!new)>(g: Graph<K>, k: K, visiting: set<K>, d: K)
    requires Edge(g, k, d) && !Closed(g, d, visiting + {k})
    ensures !Closed(g, k, visiting)
  {
    var w :| Walk(g, w) && w[0] == d && !GoodWalk(g, visiting + {k}, w);
    var longer := [k] + w;
    assert forall i :: 0 < i < |longer| ==> longer[i] == w[i - 1];
    assert Walk(g, longer) && longer[0] == k;
    if GoodWalk(g, visiting, longer) {
      forall i | 0 <= i < |w| ensures w[i] !in visiting + {k} && SoundNode(g, w[i]) {
        assert longer[i + 1] == w[i] && longer[0] != longer[i + 1];
      }
      assert forall i, j :: 0 <= i < j < |w| ==> longer[i + 1] == w[i] && longer[j + 1] == w[j];
    }
  }

  lemma AllDependenciesGood<K(!new)>(g: Graph<K>, k: K, visiting: set<K>)
    requires k in g && k !in visiting
    requires forall j :: 0 <= j < |g[k].dependencies| ==>
               Meets(g, g[k].dependencies[j]) && Closed(g, g[k].dependencies[j].capability, visiting + {k})
    ensures Closed(g, k, visiting)
  {
    forall w: seq<K> | Walk(g, w) && w[0] == k ensures GoodWalk(g, visiting, w) {
      if |w| > 1 {
        var rest := w[1..];
        assert forall i :: 0 < i < |rest| ==> rest[i] == w[i + 1] && rest[i - 1] == w[i];
        assert Edge(g, w[0], w[1]);
        assert Walk(g, rest) && GoodWalk(g, visiting + {k}, rest);
        assert forall i :: 0 < i < |w| ==> w[i] == rest[i - 1];
      }
    }
  }

  /** The loop over the declared capabilities: it succeeds exactly when the
      dependency graph has no cycle and every dependency is declared and strong
      enough, in whatever order the capabilities come; and it fails with the first
      defect in that order. */
  method ValidateDependencies<K(==, !new)>(g: Graph<K>, order: seq<K>) returns (v: Verdict)
    requires Elements(order) == g.Keys
    ensures v == FirstVerdict(g, order)
    ensures v == Sound <==> Acyclic(g) && AllSound(g)
    ensures Justified(g, v)
  {
    hide Search, Closed, Acyclic, AllSound;
    assert order[0..] == order;
    for i := 0 to |order|
      invariant FirstVerdict(g, order) == FirstVerdict(g, order[i..])
      invariant forall j :: 0 <= j < i ==> Closed(g, order[j], {})
    {
      var k := order[i];
      assert k in Elements(order) && order[i..][1..] == order[i + 1..];
      OneIsAWalk(g, k);
      var after;
      v, after := ValidateClosure(g, k, {}, []);
      if v != Sound {
        ClosedExactly(g);
        return;
      }
    }
    forall k | k in g ensures Closed(g, k, {}) { assert k in Elements(order); }
    ClosedExactly(g);
    v := Sound;
  }

  lemma OneIsAWalk<K>(g: Graph<K>, k: K)
    ensures Walk(g, [] + [k])
  {
    assert [] + [k] == [k];
  }

  lemma ClosedExactly<K(!new)>(g: Graph<K>)
    ensures (forall k :: k in g ==> Closed(g, k, {})) <==> Acyclic(g) && AllSound(g)
  {
    hide Closed, Acyclic, AllSound;
    if forall k :: k in g ==> Closed(g, k, {}) { ClosedIsSound(g); }
    if Acyclic(g) && AllSound(g) {
      forall k | k in g ensures Closed(g, k, {}) { SoundIsClosed(g, k); }
    }
  }

  lemma ClosedIsSound<K(!new)>(g: Graph<K>)
    requires forall k :: k in g ==> Closed(g, k, {})
    ensures Acyclic(g) && AllSound(g)
  {
    forall k | k in g ensures SoundNode(g, k) {
      assert Walk(g, [k]) && [k][0] == k;
      assert GoodWalk(g, {}, [k]);
    }
    forall w: seq<K> | Walk(g, w) && |w| > 1 ensures w[0] != w[|w| - 1] {
      assert Edge(g, w[0], w[1]);
      assert GoodWalk(g, {}, w);
    }
  }

  lemma SoundIsClosed<K(!new)>(g: Graph<K>, k: K)
    requires Acyclic(g) && AllSound(g) && k in g
    ensures Closed(g, k, {})
  {
    hide SoundNode;
    forall w: seq<K> | Walk(g, w) && w[0] == k ensures GoodWalk(g, {}, w) {
      WalkStaysDeclared(g, w, |w| - 1);
      forall i, j | 0 <= i < j < |w| ensures w[i] != w[j] { PartOfWalk(g, w, i, j); }
    }
  }

  lemma PartOfWalk<K(!new)>(g: Graph<K>, w: seq<K>, i: nat, j: nat)
    requires Acyclic(g) && Walk(g, w) && i < j < |w|
    ensures w[i] != w[j]
  {
    hide Edge;
    var part := w[i..j + 1];
    assert forall n :: 0 <= n < |part| ==> part[n] == w[i + n];
    assert Walk(g, part);
  }

  lemma {:induction false} WalkStaysDeclared<K(!new)>(g: Graph<K>, w: seq<K>, n: nat)
    requires AllSound(g) && Walk(g, w) && w[0] in g && n < |w|
    ensures forall i :: 0 <= i <= n ==> w[i] in g
  {
    if n > 0 {
      WalkStaysDeclared(g, w, n - 1);
      assert Edge(g, w[n - 1], w[n]) && SoundNode(g, w[n - 1]);
    }
  }
}
