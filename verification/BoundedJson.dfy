/** The bounded JSON decoder of the backend contracts: a recursive visitor that
    charges one shared budget as it goes. */
module BoundedJson {
  import opened Common
  import opened ByteText
  import opened JsonTree
  import opened JsonText
  import opened TextOrder

  /** Total budget, nesting depth, bytes of one text or key, array entries and
      object pairs. */
  datatype Limits = Limits(bytes: nat, depth: nat, text: nat, items: nat, pairs: nat)

  /** Inserting into an ordered map: a repeated key keeps the later value. */
  function Insert(fields: seq<Field>, name: Bytes, value: Json): seq<Field> {
    if fields == [] then [Field(name, value)]
    else
      match Compare(name, fields[0].name)
      case Less => [Field(name, value)] + fields
      case Equal => [Field(name, value)] + fields[1..]
      case Greater => [fields[0]] + Insert(fields[1..], name, value)
  }

  /** The value an input denotes: every object ordered by key, the last of
      repeated pairs kept. */
  function Decoded(v: Json): Json {
    match v
    case Array(items) => Array(DecodedItems(items))
    case Object(fields) => Object(DecodedFields(fields))
    case _ => v
  }

  function DecodedItems(items: seq<Json>): (r: seq<Json>)
    ensures |r| == |items|
    ensures forall i :: 0 <= i < |items| ==> r[i] == Decoded(items[i])
  {
    if items == [] then []
    else DecodedItems(items[..|items| - 1]) + [Decoded(items[|items| - 1])]
  }

  function DecodedFields(fields: seq<Field>): seq<Field> {
    if fields == [] then []
    else
      var last := |fields| - 1;
      Insert(DecodedFields(fields[..last]), fields[last].name, Decoded(fields[last].value))
  }

  /** What an input costs, overwritten pairs included. */
  function Cost(v: Json): nat {
    match v
    case Null => 4
    case Bool(flag) => if flag then 4 else 5
    case Number(_) => 8
    case Text(text) => |text|
    case Array(items) => 2 + CostItems(items)
    case Object(fields) => 2 + CostFields(fields)
  }

  function CostItems(items: seq<Json>): nat {
    if items == [] then 0 else CostItems(items[..|items| - 1]) + Cost(items[|items| - 1])
  }

  function CostFields(fields: seq<Field>): nat {
    if fields == [] then 0
    else
      var last := |fields| - 1;
      CostFields(fields[..last]) + |fields[last].name| + Cost(fields[last].value)
  }

  /** Depth, text sizes and counts are within the limits everywhere. */
  predicate Fits(l: Limits, v: Json, depth: nat) {
    depth <= l.depth &&
    match v
    case Text(text) => |text| <= l.text
    case Array(items) => |items| <= l.items && forall i :: 0 <= i < |items| ==> Fits(l, items[i], depth + 1)
    case Object(fields) =>
      |fields| <= l.pairs &&
      forall i :: 0 <= i < |fields| ==> |fields[i].name| <= l.text && Fits(l, fields[i].value, depth + 1)
    case _ => true
  }

  // ---- the decoder ----------------------------------------------------------

  class Budget {
    var used: nat

    constructor ()
      ensures used == 0
    {
      used := 0;
    }

    /** A charge that would pass the limit fails and leaves the budget alone. A
        sum that overflows `usize` is above the limit as well. */
    method Charge(limit: nat, amount: nat) returns (ok: bool)
      modifies this
      ensures ok <==> old(used) + amount <= limit
      ensures used == if ok then old(used) + amount else old(used)
    {
      ok := used + amount <= limit;
      if ok { used := used + amount; }
    }
  }

  /** What the visitor promises about an input and the budget before and after. */
  ghost predicate Outcome(l: Limits, v: Json, depth: nat, before: nat, after: nat, r: Option<Json>) {
    && (r.Some? <==> Fits(l, v, depth) && before + Cost(v) <= l.bytes)
    && (r.Some? ==> r.value == Decoded(v) && after == before + Cost(v))
    && after <= l.bytes
  }

  method DecodeKey(l: Limits, name: Bytes, budget: Budget) returns (ok: bool)
    requires budget.used <= l.bytes
    modifies budget
    ensures ok <==> |name| <= l.text && old(budget.used) + |name| <= l.bytes
    ensures budget.used == if ok then old(budget.used) + |name| else old(budget.used)
  {
    if |name| > l.text { return false; }
    ok := budget.Charge(l.bytes, |name|);
  }

  method Decode(l: Limits, v: Json, depth: nat, budget: Budget) returns (r: Option<Json>)
    requires budget.used <= l.bytes
    modifies budget
    ensures Outcome(l, v, depth, old(budget.used), budget.used, r)
    decreases v, 1
  {
    if depth > l.depth { return None; }
    var ok;
    match v {
      case Null =>
        ok := budget.Charge(l.bytes, 4);
      case Bool(flag) =>
        ok := budget.Charge(l.bytes, if flag then 4 else 5);
      case Number(_) =>
        ok := budget.Charge(l.bytes, 8);
      case Text(text) =>
        if |text| > l.text { return None; }
        ok := budget.Charge(l.bytes, |text|);
      case Array(_) =>
        r := DecodeArray(l, v, depth, budget);
        return;
      case Object(_) =>
        r := DecodeObject(l, v, depth, budget);
        return;
    }
    r := if ok then Some(v) else None;
  }

  /** The first `n` elements of an array are decoded and paid for. */
  ghost predicate ItemsRead(
    l: Limits, items: seq<Json>, n: nat, depth: nat, before: nat, used: nat, values: seq<Json>)
  {
    && n <= |items| && n <= l.items
    && values == DecodedItems(items[..n])
    && (forall i :: 0 <= i < n ==> Fits(l, items[i], depth))
    && used == before + 2 + CostItems(items[..n]) <= l.bytes
  }

  lemma ItemTaken(
    l: Limits, items: seq<Json>, n: nat, depth: nat, before: nat, used: nat, values: seq<Json>,
    after: nat, r: Option<Json>)
    requires ItemsRead(l, items, n, depth, before, used, values) && n < |items| && n < l.items
    requires Outcome(l, items[n], depth, used, after, r) && r.Some?
    ensures ItemsRead(l, items, n + 1, depth, before, after, values + [r.value])
  {
    hide Fits, Cost, Decoded;
    assert items[..n + 1][..n] == items[..n];
  }

  lemma ItemRefused(l: Limits, v: Json, n: nat, depth: nat, before: nat, used: nat, values: seq<Json>, after: nat)
    requires v.Array? && ItemsRead(l, v.items, n, depth + 1, before, used, values) && n < |v.items|
    requires Outcome(l, v.items[n], depth + 1, used, after, None)
    ensures Outcome(l, v, depth, before, after, None)
  {
    assert v.items[..n + 1][..n] == v.items[..n];
    CostItemsPrefix(v.items, n + 1);
  }

  lemma AllItemsRead(l: Limits, v: Json, n: nat, depth: nat, before: nat, used: nat, values: seq<Json>)
    requires v.Array? && depth <= l.depth && ItemsRead(l, v.items, n, depth + 1, before, used, values) && n == |v.items|
    ensures Outcome(l, v, depth, before, used, Some(Array(values)))
  {
    assert v.items[..n] == v.items;
  }

  method DecodeArray(l: Limits, v: Json, depth: nat, budget: Budget) returns (r: Option<Json>)
    requires v.Array? && depth <= l.depth && budget.used <= l.bytes
    modifies budget
    ensures Outcome(l, v, depth, old(budget.used), budget.used, r)
    decreases v, 0
  {
    hide Fits, Cost, Decoded, DecodedItems;
    var items := v.items;
    var ok := budget.Charge(l.bytes, 2);
    if !ok {
      ArrayCostsTwo(v);
      return None;
    }
    var values: seq<Json> := [];
    NoItemsRead(l, items, depth + 1, old(budget.used));
    while |values| < l.items
      invariant ItemsRead(l, items, |values|, depth + 1, old(budget.used), budget.used, values)
      decreases l.items - |values|
    {
      var n, used := |values|, budget.used;
      if n == |items| {
        AllItemsRead(l, v, n, depth, old(budget.used), used, values);
        return Some(Array(values));
      }
      var element := Decode(l, items[n], depth + 1, budget);
      if element.None? {
        ItemRefused(l, v, n, depth, old(budget.used), used, values, budget.used);
        return None;
      }
      ItemTaken(l, items, n, depth + 1, old(budget.used), used, values, budget.used, element);
      values := values + [element.value];
    }
    if |values| < |items| {
      var extra := Decode(l, items[|values|], depth + 1, budget);
      TooManyItems(l, v, depth);
      return None;
    }
    AllItemsRead(l, v, |values|, depth, old(budget.used), budget.used, values);
    r := Some(Array(values));
  }

  lemma ArrayCostsTwo(v: Json)
    requires v.Array?
    ensures Cost(v) >= 2
  {
  }

  lemma NoItemsRead(l: Limits, items: seq<Json>, depth: nat, before: nat)
    requires before + 2 <= l.bytes
    ensures ItemsRead(l, items, 0, depth, before, before + 2, [])
  {
    assert items[..0] == [];
  }

  lemma TooManyItems(l: Limits, v: Json, depth: nat)
    requires v.Array? && |v.items| > l.items
    ensures !Fits(l, v, depth)
  {
  }

  method DecodeObject(l: Limits, v: Json, depth: nat, budget: Budget) returns (r: Option<Json>)
    requires v.Object? && depth <= l.depth && budget.used <= l.bytes
    modifies budget
    ensures Outcome(l, v, depth, old(budget.used), budget.used, r)
    decreases v, 0
  {
    hide Insert, Compare, DecodedItems, CostItems;
    var fields := v.fields;
    var ok := budget.Charge(l.bytes, 2);
    if !ok { return None; }
    var values, pairs: nat := [], 0;
    while pairs < l.pairs
      invariant pairs <= l.pairs && pairs <= |fields|
      invariant values == DecodedFields(fields[..pairs])
      invariant forall i :: 0 <= i < pairs ==> |fields[i].name| <= l.text && Fits(l, fields[i].value, depth + 1)
      invariant budget.used == old(budget.used) + 2 + CostFields(fields[..pairs]) <= l.bytes
    {
      if pairs == |fields| {
        assert fields[..pairs] == fields;
        return Some(Object(values));
      }
      CostFieldsPrefix(fields, pairs + 1);
      assert fields[..pairs + 1][..pairs] == fields[..pairs];
      var name := fields[pairs].name;
      ok := DecodeKey(l, name, budget);
      if !ok { return None; }
      var value := Decode(l, fields[pairs].value, depth + 1, budget);
      if value.None? { return None; }
      values := Insert(values, name, value.value);
      pairs := pairs + 1;
    }
    if pairs < |fields| {
      ok := DecodeKey(l, fields[pairs].name, budget);
      if !ok { return None; }
      var extra := Decode(l, fields[pairs].value, depth + 1, budget);
      return None;
    }
    assert fields[..|fields|] == fields;
    r := Some(Object(values));
  }

  /** What the whole decoder accepts. */
  predicate Accepts(l: Limits, v: Json) {
    Fits(l, v, 0) && Cost(v) <= l.bytes && |Serialize(Decoded(v))| <= l.bytes
  }

  method DeserializeBoundedJson(l: Limits, v: Json) returns (r: Option<Json>, spent: nat)
    ensures r.Some? <==> Accepts(l, v)
    ensures r.Some? ==> r.value == Decoded(v) && spent == Cost(v)
  {
    var budget := new Budget();
    r := Decode(l, v, 0, budget);
    spent := budget.used;
    if r.Some? && |Serialize(r.value)| > l.bytes { r := None; }
  }

  lemma {:induction false} CostItemsPrefix(items: seq<Json>, n: nat)
    requires n <= |items|
    ensures CostItems(items[..n]) <= CostItems(items)
    decreases |items|
  {
    if n == |items| {
      assert items[..n] == items;
    } else {
      assert items[..|items| - 1][..n] == items[..n];
      CostItemsPrefix(items[..|items| - 1], n);
    }
  }

  lemma {:induction false} CostFieldsPrefix(fields: seq<Field>, n: nat)
    requires n <= |fields|
    ensures CostFields(fields[..n]) <= CostFields(fields)
    decreases |fields|
  {
    if n == |fields| {
      assert fields[..n] == fields;
    } else {
      assert fields[..|fields| - 1][..n] == fields[..n];
      CostFieldsPrefix(fields[..|fields| - 1], n);
    }
  }

  // ---- decoding again -------------------------------------------------------

  predicate Ordered(fields: seq<Field>) {
    forall i, j :: 0 <= i < j < |fields| ==> Compare(fields[i].name, fields[j].name) == Less
  }

  /** Every object in the value has its keys in order, each once. */
  predicate Canonical(v: Json) {
    match v
    case Array(items) => forall i :: 0 <= i < |items| ==> Canonical(items[i])
    case Object(fields) => Ordered(fields) && forall i :: 0 <= i < |fields| ==> Canonical(fields[i].value)
    case _ => true
  }

  lemma {:induction false} InsertSubset(fields: seq<Field>, name: Bytes, value: Json)
    ensures var r := Insert(fields, name, value);
            |r| <= |fields| + 1 && forall f :: f in r ==> f == Field(name, value) || f in fields
  {
    if fields != [] && Compare(name, fields[0].name) == Greater { InsertSubset(fields[1..], name, value); }
  }

  lemma OrderedCons(f: Field, fields: seq<Field>)
    requires Ordered(fields) && forall g :: g in fields ==> Compare(f.name, g.name) == Less
    ensures Ordered([f] + fields)
  {
    var r := [f] + fields;
    forall i, j | 0 <= i < j < |r| ensures Compare(r[i].name, r[j].name) == Less {
      if i == 0 { assert r[j] in fields; }
    }
  }

  lemma OrderedTail(fields: seq<Field>)
    requires fields != [] && Ordered(fields)
    ensures Ordered(fields[1..]) && forall f :: f in fields[1..] ==> Compare(fields[0].name, f.name) == Less
  {
    var tail := fields[1..];
    assert forall i :: 0 <= i < |tail| ==> tail[i] == fields[i + 1];
  }

  /** Everything behind a key at most `head` is above it. */
  lemma BelowAll(name: Bytes, head: Bytes, fields: seq<Field>)
    requires Compare(name, head) != Greater && forall f :: f in fields ==> Compare(head, f.name) == Less
    ensures forall f :: f in fields ==> Compare(name, f.name) == Less
  {
    forall f | f in fields ensures Compare(name, f.name) == Less { CompareChains(name, head, f.name); }
  }

  lemma {:induction false} InsertOrdered(fields: seq<Field>, name: Bytes, value: Json)
    requires Ordered(fields)
    ensures Ordered(Insert(fields, name, value))
  {
    if fields == [] {
    } else {
      var added, head, tail := Field(name, value), fields[0], fields[1..];
      OrderedTail(fields);
      CompareFlips(name, head.name);
      hide Ordered, Compare;
      match Compare(name, head.name)
      case Less =>
        BelowAll(name, head.name, tail);
        assert forall f :: f in fields ==> f == head || f in tail;
        OrderedCons(added, fields);
      case Equal =>
        BelowAll(name, head.name, tail);
        OrderedCons(added, tail);
      case Greater =>
        InsertOrdered(tail, name, value);
        InsertSubset(tail, name, value);
        OrderedCons(head, Insert(tail, name, value));
    }
  }

  /** Among ordered keys, insertion replaces the field of that key and keeps the
      others. */
  lemma {:induction false} InsertMeans(fields: seq<Field>, name: Bytes, value: Json)
    requires Ordered(fields)
    ensures forall f :: f in Insert(fields, name, value) <==> f == Field(name, value) || (f in fields && f.name != name)
  {
    if fields != [] {
      var head, tail := fields[0], fields[1..];
      OrderedTail(fields);
      CompareIsEqual(name, head.name);
      hide Ordered;
      if Compare(name, head.name) == Greater {
        InsertMeans(tail, name, value);
      } else {
        BelowAll(name, head.name, tail);
        forall f | f in tail ensures f.name != name { CompareIsEqual(name, f.name); }
      }
      assert forall f :: f in fields <==> f == head || f in tail;
    }
  }

  /** The pair at `i` is the last one with its key. */
  predicate LastOfItsKey(fields: seq<Field>, i: nat)
    requires i < |fields|
  {
    forall j :: i < j < |fields| ==> fields[j].name != fields[i].name
  }

  /** A decoded object holds, for each key of the input, the value of its last
      pair, and nothing else. */
  lemma {:induction false} LastPairWins(fields: seq<Field>)
    ensures Ordered(DecodedFields(fields))
    ensures forall f :: f in DecodedFields(fields) <==>
              exists i :: 0 <= i < |fields| && LastOfItsKey(fields, i) &&
                          f == Field(fields[i].name, Decoded(fields[i].value))
  {
    hide Insert, Ordered, Decoded;
    if fields == [] {
      NoFieldsOrdered();
    } else {
      var last := |fields| - 1;
      var before, x := fields[..last], fields[last];
      LastPairWins(before);
      InsertOrdered(DecodedFields(before), x.name, Decoded(x.value));
      InsertMeans(DecodedFields(before), x.name, Decoded(x.value));
      forall i | 0 <= i < last
        ensures LastOfItsKey(fields, i) <==> LastOfItsKey(before, i) && fields[i].name != x.name
      {
        assert before[i] == fields[i];
        assert forall j :: i < j < last ==> before[j] == fields[j];
      }
      assert LastOfItsKey(fields, last);
    }
  }

  lemma NoFieldsOrdered()
    ensures Ordered([])
  {
  }

  lemma {:induction false} InsertLast(fields: seq<Field>, f: Field)
    requires Ordered(fields + [f])
    ensures Insert(fields, f.name, f.value) == fields + [f]
  {
    if fields != [] {
      var all := fields + [f];
      assert Compare(all[0].name, all[|fields|].name) == Less;
      CompareFlips(fields[0].name, f.name);
      assert fields[1..] + [f] == all[1..];
      assert forall i, j :: 0 <= i < j < |all| - 1 ==> all[1..][i] == all[i + 1] && all[1..][j] == all[j + 1];
      InsertLast(fields[1..], f);
      assert all == [fields[0]] + (fields[1..] + [f]);
    }
  }

  /** Decoding yields a canonical value of no higher cost that fits as well. */
  lemma {:induction false} DecodedIsCanonical(l: Limits, v: Json, depth: nat)
    ensures Canonical(Decoded(v)) && Cost(Decoded(v)) <= Cost(v)
    ensures Fits(l, v, depth) ==> Fits(l, Decoded(v), depth)
    decreases v, 0
  {
    hide Insert, CostItems, CostFields, DecodedItems, DecodedFields, Compare;
    match v
    case Array(items) =>
      assert items[..|items|] == items;
      ItemsAreCanonical(l, v, |items|, depth + 1);
    case Object(fields) =>
      assert fields[..|fields|] == fields;
      FieldsAreCanonical(l, v, |fields|, depth + 1);
      var r := DecodedFields(fields);
      assert forall i :: 0 <= i < |r| ==> r[i] in r;
      assert Fits(l, v, depth) ==> FieldsFit(l, fields, depth + 1);
    case _ =>
  }

  lemma {:induction false} ItemsAreCanonical(l: Limits, v: Json, n: nat, depth: nat)
    requires v.Array? && n <= |v.items|
    ensures var r := DecodedItems(v.items[..n]);
            CostItems(r) <= CostItems(v.items[..n]) &&
            forall i :: 0 <= i < n ==> Canonical(r[i]) && (Fits(l, v.items[i], depth) ==> Fits(l, r[i], depth))
    decreases v, 0, n
  {
    hide Canonical, Fits, Cost, Decoded;
    if n > 0 {
      var items := v.items[..n];
      assert items[..n - 1] == v.items[..n - 1];
      ItemsAreCanonical(l, v, n - 1, depth);
      DecodedIsCanonical(l, v.items[n - 1], depth);
      var r := DecodedItems(items);
      assert r[..n - 1] == DecodedItems(items[..n - 1]);
    }
  }

  predicate FieldsFit(l: Limits, fields: seq<Field>, depth: nat) {
    forall f :: f in fields ==> |f.name| <= l.text && Fits(l, f.value, depth)
  }

  predicate FieldsCanonical(fields: seq<Field>) {
    Ordered(fields) && forall f :: f in fields ==> Canonical(f.value)
  }

  lemma InsertKeeps(l: Limits, fields: seq<Field>, f: Field, depth: nat)
    requires FieldsCanonical(fields) && Canonical(f.value)
    ensures FieldsCanonical(Insert(fields, f.name, f.value))
    ensures FieldsFit(l, fields, depth) && FieldsFit(l, [f], depth) ==>
            FieldsFit(l, Insert(fields, f.name, f.value), depth)
  {
    hide Canonical, Fits, Ordered, Insert;
    InsertSubset(fields, f.name, f.value);
    InsertOrdered(fields, f.name, f.value);
    assert f in [f] && f == Field(f.name, f.value);
  }

  lemma {:induction false} FieldsAreCanonical(l: Limits, v: Json, n: nat, depth: nat)
    requires v.Object? && n <= |v.fields|
    ensures var r := DecodedFields(v.fields[..n]);
            |r| <= n && FieldsCanonical(r) && CostFields(r) <= CostFields(v.fields[..n])
    ensures FieldsFit(l, v.fields[..n], depth) ==> FieldsFit(l, DecodedFields(v.fields[..n]), depth)
    decreases v, 0, n
  {
    if n > 0 {
      var fields, last := v.fields[..n], v.fields[n - 1];
      var before := fields[..n - 1];
      assert before == v.fields[..n - 1] && fields == before + [last];
      FieldsAreCanonical(l, v, n - 1, depth);
      DecodedIsCanonical(l, last.value, depth);
      var f := Field(last.name, Decoded(last.value));
      FitsSplit(l, before, last, depth);
      hide Insert, FieldsCanonical, Cost, Canonical, Fits;
      InsertSubset(DecodedFields(before), f.name, f.value);
      InsertKeeps(l, DecodedFields(before), f, depth);
      InsertCost(DecodedFields(before), f.name, f.value);
    }
  }

  lemma FitsSplit(l: Limits, before: seq<Field>, last: Field, depth: nat)
    requires Fits(l, last.value, depth) ==> Fits(l, Decoded(last.value), depth)
    ensures FieldsFit(l, before + [last], depth) ==>
            FieldsFit(l, before, depth) && FieldsFit(l, [Field(last.name, Decoded(last.value))], depth)
  {
    hide Fits;
    assert forall f :: f in before + [last] <==> f in before || f == last;
  }

  lemma {:induction false} CostJoins(a: seq<Field>, b: seq<Field>)
    ensures CostFields(a + b) == CostFields(a) + CostFields(b)
    decreases |b|
  {
    if b == [] {
      assert a + b == a;
    } else {
      assert (a + b)[..|a + b| - 1] == a + b[..|b| - 1];
      CostJoins(a, b[..|b| - 1]);
    }
  }

  lemma {:induction false} InsertCost(fields: seq<Field>, name: Bytes, value: Json)
    ensures CostFields(Insert(fields, name, value)) <= CostFields(fields) + |name| + Cost(value)
  {
    var added := [Field(name, value)];
    assert CostFields(added) == |name| + Cost(value) by { assert added[..0] == []; }
    if fields == [] {
    } else {
      var head, tail := fields[..1], fields[1..];
      assert fields == head + tail;
      CostJoins(head, tail);
      match Compare(name, fields[0].name)
      case Less => CostJoins(added, fields);
      case Equal => CostJoins(added, tail);
      case Greater =>
        InsertCost(tail, name, value);
        CostJoins(head, Insert(tail, name, value));
        assert [fields[0]] == head;
    }
  }

  /** A canonical value decodes to itself. */
  lemma {:induction false} CanonicalIsFixed(v: Json)
    requires Canonical(v)
    ensures Decoded(v) == v
    decreases v, 0
  {
    match v
    case Array(items) =>
      forall i | 0 <= i < |items| ensures Decoded(items[i]) == items[i] { CanonicalIsFixed(items[i]); }
      assert DecodedItems(items) == items;
    case Object(fields) =>
      FieldsAreFixed(v, |fields|);
      assert fields[..|fields|] == fields;
    case _ =>
  }

  lemma {:induction false} FieldsAreFixed(v: Json, n: nat)
    requires v.Object? && Canonical(v) && n <= |v.fields|
    ensures DecodedFields(v.fields[..n]) == v.fields[..n]
    decreases v, 0, n
  {
    if n > 0 {
      var fields := v.fields[..n];
      assert fields[..n - 1] == v.fields[..n - 1];
      FieldsAreFixed(v, n - 1);
      CanonicalIsFixed(v.fields[n - 1].value);
      assert fields == fields[..n - 1] + [fields[n - 1]];
      InsertLast(fields[..n - 1], fields[n - 1]);
    }
  }

  predicate FieldsPlain(fields: seq<Field>) {
    forall f :: f in fields ==> Plain(f.value)
  }

  lemma {:induction false} DecodedIsPlain(v: Json)
    requires Plain(v)
    ensures Plain(Decoded(v))
    decreases v, 0
  {
    match v
    case Array(items) =>
      forall i | 0 <= i < |items| ensures Plain(Decoded(items[i])) { DecodedIsPlain(items[i]); }
    case Object(fields) =>
      assert fields[..|fields|] == fields;
      FieldsArePlain(v, |fields|);
      var r := DecodedFields(fields);
      assert forall i :: 0 <= i < |r| ==> r[i] in r;
    case _ =>
  }

  lemma {:induction false} FieldsArePlain(v: Json, n: nat)
    requires v.Object? && Plain(v) && n <= |v.fields|
    ensures FieldsPlain(DecodedFields(v.fields[..n]))
    decreases v, 0, n
  {
    if n > 0 {
      var fields, last := v.fields[..n], v.fields[n - 1];
      assert fields[..n - 1] == v.fields[..n - 1];
      FieldsArePlain(v, n - 1);
      DecodedIsPlain(last.value);
      hide Insert, Plain, Decoded;
      InsertSubset(DecodedFields(fields[..n - 1]), last.name, Decoded(last.value));
    }
  }

  /** An accepted value can be serialized and decoded again: it is accepted again,
      costs no more, and decodes to itself. */
  lemma DecodesAgain(l: Limits, v: Json)
    requires Accepts(l, v)
    ensures Accepts(l, Decoded(v)) && Decoded(Decoded(v)) == Decoded(v) && Cost(Decoded(v)) <= Cost(v)
  {
    DecodedIsCanonical(l, v, 0);
    CanonicalIsFixed(Decoded(v));
  }

  /** The whole way round through the text: the decoded value, written and read,
      is itself, and so is what it decodes to. */
  lemma TextReadsBack(v: Json)
    requires Plain(v)
    ensures ReadValue(Serialize(Decoded(v))) == Read(Decoded(v), [])
    ensures Decoded(ReadValue(Serialize(Decoded(v))).value) == Decoded(v)
  {
    DecodedIsPlain(v);
    DecodedIsCanonical(Limits(0, 0, 0, 0, 0), v, 0);
    CanonicalIsFixed(Decoded(v));
    hide Decoded, Plain, Serialize, ReadValue, Canonical;
    ReadsBack(Decoded(v), []);
    assert Serialize(Decoded(v)) + [] == Serialize(Decoded(v));
  }

  /** Overwritten pairs are charged: an input can be refused although the value
      it denotes is accepted. */
  lemma OverwrittenPairsCount()
    ensures var l := Limits(9, 1, 0, 0, 2);
            var twice := Object([Field([], Null), Field([], Null)]);
            !Accepts(l, twice) && Accepts(l, Decoded(twice))
  {
    var f := Field([], Null);
    var fields := [f, f];
    var twice := Object(fields);
    assert fields[..1] == [f] && [f][..0] == [] && [f][1..] == [];
    assert CostFields([f]) == 4 && CostFields(fields) == 8;
    assert DecodedFields([f]) == [f];
    assert DecodedFields(fields) == [f] + [] == [f];
    assert Decoded(twice) == Object([f]) && DecodedFields([f]) == [f];
    assert SerializeFields([f]) == [QUOTE, QUOTE, COLON] + NULL_TEXT + [125];
  }
}
