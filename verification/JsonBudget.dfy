/** The budget check on already parsed JSON: an explicit stack with early
    rejection against a recursive measure. */
module JsonBudget {
  import opened ByteText
  import opened JsonTree

  /** Number of nodes, distance to the deepest node, and bytes accounted. */
  datatype Measure = Measure(nodes: nat, height: nat, weight: nat)

  function Max(a: nat, b: nat): nat {
    if a <= b then b else a
  }

  function MeasureOf(v: Json): (m: Measure)
    ensures m.nodes >= 1
  {
    match v
    case Null => Measure(1, 0, 8)
    case Bool(_) => Measure(1, 0, 8)
    case Number(_) => Measure(1, 0, 24)
    case Text(text) => Measure(1, 0, 8 + |text|)
    case Array(items) =>
      var m := MeasureItems(items);
      Measure(1 + m.nodes, m.height, 8 + m.weight)
    case Object(fields) =>
      var m := MeasureFields(fields);
      Measure(1 + m.nodes, m.height, 8 + m.weight)
  }

  /** The children of one node: their height counts the step down to them. */
  function MeasureItems(items: seq<Json>): Measure {
    if items == [] then Measure(0, 0, 0)
    else
      var last := |items| - 1;
      var m, n := MeasureItems(items[..last]), MeasureOf(items[last]);
      Measure(m.nodes + n.nodes, Max(m.height, 1 + n.height), m.weight + n.weight)
  }

  function MeasureFields(fields: seq<Field>): Measure {
    if fields == [] then Measure(0, 0, 0)
    else
      var last := |fields| - 1;
      var m, n := MeasureFields(fields[..last]), MeasureOf(fields[last].value);
      Measure(m.nodes + n.nodes, Max(m.height, 1 + n.height), m.weight + |fields[last].name| + 4 + n.weight)
  }

  datatype Outcome = Accepted | TooComplex | TooLarge

  /** `usize` addition that stops at the largest value. */
  function SaturatingAdd(limit: nat, a: nat, b: nat): nat {
    if a + b <= limit then a + b else limit
  }

  datatype Entry = Entry(value: Json, depth: nat)

  /** What is still to be accounted for on a stack. */
  function Remaining(stack: seq<Entry>): (m: Measure)
    ensures |stack| <= m.nodes
  {
    if stack == [] then Measure(0, 0, 0)
    else
      var last := |stack| - 1;
      var m, n := Remaining(stack[..last]), MeasureOf(stack[last].value);
      Measure(m.nodes + n.nodes, Max(m.height, stack[last].depth + n.height), m.weight + n.weight)
  }

  lemma RemainingPush(stack: seq<Entry>, e: Entry)
    ensures var m, n := Remaining(stack), MeasureOf(e.value);
            Remaining(stack + [e]) == Measure(m.nodes + n.nodes, Max(m.height, e.depth + n.height), m.weight + n.weight)
  {
    assert (stack + [e])[..|stack|] == stack;
  }

  function Entries(items: seq<Json>, depth: nat): (entries: seq<Entry>)
    ensures |entries| == |items|
    ensures forall i :: 0 <= i < |items| ==> entries[i] == Entry(items[i], depth)
  {
    if items == [] then []
    else Entries(items[..|items| - 1], depth) + [Entry(items[|items| - 1], depth)]
  }

  lemma {:induction false} ItemsCount(items: seq<Json>)
    ensures MeasureItems(items).nodes >= |items|
  {
    if items != [] { ItemsCount(items[..|items| - 1]); }
  }

  lemma {:induction false} FieldsCount(fields: seq<Field>)
    ensures MeasureFields(fields).nodes >= |fields|
  {
    if fields != [] { FieldsCount(fields[..|fields| - 1]); }
  }

  /** Extending the stack by the children of a node at `depth`. */
  lemma {:induction false} ItemsRemaining(stack: seq<Entry>, items: seq<Json>, depth: nat)
    ensures var m, n, all := Remaining(stack), MeasureItems(items), Remaining(stack + Entries(items, depth + 1));
            all.nodes == m.nodes + n.nodes && all.weight == m.weight + n.weight &&
            Max(all.height, depth) == Max(Max(m.height, depth), depth + n.height)
    decreases |items|
  {
    if items == [] {
      assert stack + Entries(items, depth + 1) == stack;
    } else {
      hide MeasureOf;
      var last := |items| - 1;
      var before := Entries(items[..last], depth + 1);
      ItemsRemaining(stack, items[..last], depth);
      assert stack + Entries(items, depth + 1) == stack + before + [Entry(items[last], depth + 1)];
      RemainingPush(stack + before, Entry(items[last], depth + 1));
    }
  }

  /** The field loop: each name is accounted as its value is pushed. */
  method PushFields(
    stack: seq<Entry>, fields: seq<Field>, depth: nat, accounted: nat, ghost weighed: nat, usizeMax: nat)
    returns (extended: seq<Entry>, total: nat, ghost weight: nat)
    requires accounted == SaturatingAdd(usizeMax, weighed, 0)
    ensures |extended| == |stack| + |fields|
    ensures total == SaturatingAdd(usizeMax, weight, 0)
    ensures var m, n, all := Remaining(stack), MeasureFields(fields), Remaining(extended);
            all.nodes == m.nodes + n.nodes && weight + all.weight == weighed + m.weight + n.weight &&
            Max(all.height, depth) == Max(Max(m.height, depth), depth + n.height)
  {
    hide MeasureOf;
    extended, total, weight := stack, accounted, weighed;
    for i := 0 to |fields|
      invariant |extended| == |stack| + i
      invariant total == SaturatingAdd(usizeMax, weight, 0)
      invariant var m, n, all := Remaining(stack), MeasureFields(fields[..i]), Remaining(extended);
                all.nodes == m.nodes + n.nodes && weight + all.weight == weighed + m.weight + n.weight &&
                Max(all.height, depth) == Max(Max(m.height, depth), depth + n.height)
    {
      var name, value := fields[i].name, fields[i].value;
      total := SaturatingAdd(usizeMax, SaturatingAdd(usizeMax, total, |name|), 4);
      weight := weight + |name| + 4;
      assert fields[..i + 1][..i] == fields[..i];
      RemainingPush(extended, Entry(value, depth + 1));
      extended := extended + [Entry(value, depth + 1)];
    }
    assert fields[..|fields|] == fields;
  }

  /** The `match` of the loop: one node is accounted and its children are pushed,
      unless they cannot all be visited any more. */
  method Visit(
    stack: seq<Entry>, entry: Entry, visited: nat, maxNodes: nat, accounted: nat, ghost weighed: nat, usizeMax: nat)
    returns (ok: bool, extended: seq<Entry>, total: nat, ghost weight: nat)
    requires maxNodes < usizeMax && visited + |stack| <= maxNodes
    requires accounted == SaturatingAdd(usizeMax, weighed, 0)
    ensures !ok ==> visited + Remaining(stack).nodes + MeasureOf(entry.value).nodes > maxNodes + 1
    ensures ok ==> visited + |extended| <= maxNodes
    ensures ok ==> total == SaturatingAdd(usizeMax, weight, 0)
    ensures var m, n, all := Remaining(stack), MeasureOf(entry.value), Remaining(extended);
            ok ==> all.nodes + 1 == m.nodes + n.nodes && weight + all.weight == weighed + m.weight + n.weight &&
                   Max(all.height, entry.depth) == Max(m.height, entry.depth + n.height)
  {
    hide MeasureItems, MeasureFields, Remaining, Entries;
    ok, extended := true, stack;
    total, weight := SaturatingAdd(usizeMax, accounted, 8), weighed + 8;
    match entry.value
    case Null =>
    case Bool(_) =>
    case Number(_) => total, weight := SaturatingAdd(usizeMax, total, 16), weight + 16;
    case Text(text) => total, weight := SaturatingAdd(usizeMax, total, |text|), weight + |text|;
    case Array(items) =>
      ItemsCount(items);
      ok := SaturatingAdd(usizeMax, SaturatingAdd(usizeMax, visited, |stack|), |items|) <= maxNodes;
      if ok {
        extended := stack + Entries(items, entry.depth + 1);
        ItemsRemaining(stack, items, entry.depth);
      }
    case Object(fields) =>
      FieldsCount(fields);
      ok := SaturatingAdd(usizeMax, SaturatingAdd(usizeMax, visited, |stack|), |fields|) <= maxNodes;
      if ok {
        extended, total, weight := PushFields(stack, fields, entry.depth, total, weight, usizeMax);
      }
  }

  /** The loop accepts exactly the values whose node count and height are within
      the limits and whose saturated weight is within `maxBytes`; a refusal
      names the limit that is exceeded; and never more than `maxNodes` visited
      and waiting nodes are held together. */
  method CheckValueBudget(value: Json, maxBytes: nat, maxNodes: nat, maxDepth: nat, usizeMax: nat)
    returns (r: Outcome, ghost peak: nat)
    requires 1 <= maxNodes < usizeMax && maxBytes <= usizeMax
    ensures var m := MeasureOf(value);
            r == Accepted <==>
            m.nodes <= maxNodes && m.height <= maxDepth && SaturatingAdd(usizeMax, m.weight, 0) <= maxBytes
    ensures r == TooComplex ==> MeasureOf(value).nodes > maxNodes || MeasureOf(value).height > maxDepth
    ensures r == TooLarge ==> MeasureOf(value).weight > maxBytes
    ensures peak <= maxNodes
  {
    hide MeasureOf;
    var stack := [Entry(value, 0)];
    var visited, accounted := 0, 0;
    ghost var total, weighed: nat := MeasureOf(value), 0;
    peak := 1;
    RemainingPush([], Entry(value, 0));
    while stack != []
      invariant visited + Remaining(stack).nodes == total.nodes
      invariant weighed + Remaining(stack).weight == total.weight
      invariant accounted == SaturatingAdd(usizeMax, weighed, 0) && accounted <= maxBytes
      invariant total.height <= maxDepth <==> Remaining(stack).height <= maxDepth
      invariant visited + |stack| <= peak <= maxNodes
      decreases Remaining(stack).nodes
    {
      var entry := stack[|stack| - 1];
      stack := stack[..|stack| - 1];
      visited := visited + 1;
      if visited > maxNodes || entry.depth > maxDepth {
        return TooComplex, peak;
      }
      var ok;
      ok, stack, accounted, weighed := Visit(stack, entry, visited, maxNodes, accounted, weighed, usizeMax);
      if !ok {
        return TooComplex, peak;
      }
      if visited + |stack| > peak { peak := visited + |stack|; }
      if accounted > maxBytes {
        return TooLarge, peak;
      }
    }
    r := Accepted;
  }
}
