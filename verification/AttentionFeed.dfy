/** The attention poller of both clients: a callback per item, remembered in a
    set that forgets its oldest entries. */
module AttentionFeed {
  import opened Common

  datatype Item<Id> = Item(id: Id, needsAttention: bool)

  /** `seen` and `seenOrder`, and the ids called back so far. */
  datatype Feed<Id> = Feed(seen: set<Id>, order: seq<Id>, calls: seq<Id>)

  function Offer<Id>(limit: nat, f: Feed<Id>, item: Item<Id>): Feed<Id> {
    if !item.needsAttention || item.id in f.seen then f
    else
      var seen, order := f.seen + {item.id}, f.order + [item.id];
      if |order| > limit then Feed(seen - {order[0]}, order[1..], f.calls + [item.id])
      else Feed(seen, order, f.calls + [item.id])
  }

  function OfferAll<Id>(limit: nat, f: Feed<Id>, items: seq<Item<Id>>): Feed<Id>
    decreases |items|
  {
    if items == [] then f
    else Offer(limit, OfferAll(limit, f, items[..|items| - 1]), items[|items| - 1])
  }

  function Concat<T>(pages: seq<seq<T>>): seq<T> {
    if pages == [] then [] else Concat(pages[..|pages| - 1]) + pages[|pages| - 1]
  }

  /** The polling loop over the inbox pages it was served. */
  method Watch<Id(==)>(limit: nat, pages: seq<seq<Item<Id>>>) returns (calls: seq<Id>)
    ensures calls == OfferAll(limit, Feed({}, [], []), Concat(pages)).calls
  {
    var seen: set<Id>, order: seq<Id> := {}, [];
    calls := [];
    for p := 0 to |pages|
      invariant Feed(seen, order, calls) == OfferAll(limit, Feed({}, [], []), Concat(pages[..p]))
    {
      var page := pages[p];
      assert Concat(pages[..p]) + page[..0] == Concat(pages[..p]);
      for i := 0 to |page|
        invariant Feed(seen, order, calls) == OfferAll(limit, Feed({}, [], []), Concat(pages[..p]) + page[..i])
      {
        var item := page[i];
        var before := Concat(pages[..p]) + page[..i];
        assert Concat(pages[..p]) + page[..i + 1] == before + [item];
        assert (before + [item])[..|before|] == before;
        if item.needsAttention && item.id !in seen {
          seen, order := seen + {item.id}, order + [item.id];
          if |order| > limit {
            seen, order := seen - {order[0]}, order[1..];
          }
          calls := calls + [item.id];
        }
      }
      assert pages[..p + 1][..p] == pages[..p] && page[..|page|] == page;
    }
    assert pages[..|pages|] == pages;
  }

  /** The last `limit` ids called back. */
  function Window<Id>(limit: nat, calls: seq<Id>): seq<Id> {
    if |calls| <= limit then calls else calls[|calls| - limit..]
  }

  /** `seen` is the set of `seenOrder`, which is the window of recent callbacks:
      duplicate-free and never longer than the limit. */
  ghost predicate Bounded<Id>(limit: nat, f: Feed<Id>) {
    && f.seen == Elements(f.order)
    && f.order == Window(limit, f.calls)
    && Distinct(f.order)
    && |f.order| <= limit
  }

  /** Two callbacks for one id are more than `limit` callbacks apart. */
  ghost predicate Spaced<Id>(limit: nat, calls: seq<Id>) {
    forall i, j :: 0 <= i < j < |calls| && calls[i] == calls[j] ==> j - i > limit
  }

  /** A new id slides the window by one. */
  lemma WindowSlides<Id>(limit: nat, calls: seq<Id>, id: Id)
    ensures var order := Window(limit, calls) + [id];
            Window(limit, calls + [id]) == if |order| > limit then order[1..] else order
  {
  }

  lemma RecentIsInWindow<Id>(limit: nat, calls: seq<Id>, i: nat)
    requires i < |calls| <= i + limit
    ensures calls[i] in Window(limit, calls)
  {
    var window := Window(limit, calls);
    assert window[i - (|calls| - |window|)] == calls[i];
  }

  lemma SpacingGrows<Id>(limit: nat, calls: seq<Id>, id: Id)
    requires Spaced(limit, calls) && id !in Window(limit, calls)
    ensures Spaced(limit, calls + [id])
  {
    forall i | 0 <= i < |calls| && calls[i] == id ensures |calls| - i > limit {
      if |calls| <= i + limit { RecentIsInWindow(limit, calls, i); }
    }
  }

  lemma EvictionKeepsSet<Id>(seen: set<Id>, order: seq<Id>)
    requires seen == Elements(order) && order != [] && Distinct(order)
    ensures seen - {order[0]} == Elements(order[1..]) && Distinct(order[1..])
  {
    assert order == [order[0]] + order[1..];
    assert order[0] !in order[1..];
  }

  lemma OfferKeeps<Id>(limit: nat, f: Feed<Id>, item: Item<Id>)
    requires Bounded(limit, f) && Spaced(limit, f.calls)
    ensures Bounded(limit, Offer(limit, f, item)) && Spaced(limit, Offer(limit, f, item).calls)
  {
    hide Window, Spaced;
    if item.needsAttention && item.id !in f.seen {
      var seen, order := f.seen + {item.id}, f.order + [item.id];
      WindowSlides(limit, f.calls, item.id);
      SpacingGrows(limit, f.calls, item.id);
      assert seen == Elements(order) && Distinct(order);
      if |order| > limit { EvictionKeepsSet(seen, order); }
    }
  }

  lemma {:induction false} FeedIsBounded<Id>(limit: nat, items: seq<Item<Id>>)
    ensures var f := OfferAll(limit, Feed({}, [], []), items); Bounded(limit, f) && Spaced(limit, f.calls)
  {
    if items != [] {
      var before := items[..|items| - 1];
      FeedIsBounded(limit, before);
      OfferKeeps(limit, OfferAll(limit, Feed({}, [], []), before), items[|items| - 1]);
    }
  }

  /** Between two callbacks for one id, at least `limit` distinct other ids were
      called back. */
  lemma OthersBetween<Id>(limit: nat, items: seq<Item<Id>>, i: nat, j: nat)
    requires var calls := OfferAll(limit, Feed({}, [], []), items).calls;
             i < j < |calls| && calls[i] == calls[j]
    ensures var calls := OfferAll(limit, Feed({}, [], []), items).calls;
            var others := set k | i < k <= i + limit && k < |calls| :: calls[k];
            j > i + limit && |others| == limit && calls[i] !in others
  {
    var calls := OfferAll(limit, Feed({}, [], []), items).calls;
    FeedIsBounded(limit, items);
    hide OfferAll, Bounded;
    var between := calls[i + 1..i + 1 + limit];
    assert Distinct(between);
    DistinctCount(between);
    SliceElements(calls, i, limit);
  }

  lemma SliceElements<Id>(calls: seq<Id>, i: nat, n: nat)
    requires i + n < |calls|
    ensures (set k | i < k <= i + n && k < |calls| :: calls[k]) == Elements(calls[i + 1..i + 1 + n])
  {
    var between := calls[i + 1..i + 1 + n];
    var others := set k | i < k <= i + n && k < |calls| :: calls[k];
    forall id | id in between ensures id in others {
      var k :| 0 <= k < |between| && between[k] == id;
      assert calls[i + 1 + k] == id;
    }
    forall id | id in others ensures id in between {
      var k :| i < k <= i + n && calls[k] == id;
      assert between[k - i - 1] == id;
    }
  }

  lemma {:induction false} DistinctCount<Id>(s: seq<Id>)
    requires Distinct(s)
    ensures |Elements(s)| == |s|
  {
    if s != [] {
      var last := |s| - 1;
      DistinctCount(s[..last]);
      assert Elements(s) == Elements(s[..last]) + {s[last]};
      assert s[last] !in s[..last];
    }
  }

  /** The same poller with a set that never forgets. */
  function FirstOccurrences<Id(==)>(items: seq<Item<Id>>): (calls: seq<Id>)
  {
    if items == [] then []
    else
      var before, item := FirstOccurrences(items[..|items| - 1]), items[|items| - 1];
      if item.needsAttention && item.id !in before then before + [item.id] else before
  }

  function Wanted<Id>(items: seq<Item<Id>>): set<Id> {
    set i | 0 <= i < |items| && items[i].needsAttention :: items[i].id
  }

  lemma {:induction false} FirstOccurrencesMeans<Id>(items: seq<Item<Id>>)
    ensures Distinct(FirstOccurrences(items))
    ensures Elements(FirstOccurrences(items)) == Wanted(items)
  {
    if items != [] {
      var last := |items| - 1;
      FirstOccurrencesMeans(items[..last]);
      var before, calls := FirstOccurrences(items[..last]), FirstOccurrences(items);
      assert Wanted(items) == Wanted(items[..last]) + (if items[last].needsAttention then {items[last].id} else {}) by {
        assert forall i :: 0 <= i < last ==> items[i] == items[..last][i];
      }
      assert Elements(calls) ==
             Elements(before) + (if items[last].needsAttention then {items[last].id} else {});
    }
  }

  /** As long as no more than `limit` ids ever want attention, the forgetful set
      behaves as one that never forgets: each id is called back exactly once, in
      the order of its first appearance. */
  lemma {:induction false} ForgettingIsInvisible<Id>(limit: nat, items: seq<Item<Id>>)
    requires |Wanted(items)| <= limit
    ensures OfferAll(limit, Feed({}, [], []), items).calls == FirstOccurrences(items)
  {
    if items != [] {
      var last := |items| - 1;
      var before := items[..last];
      assert Wanted(before) <= Wanted(items) by {
        assert forall i :: 0 <= i < last ==> before[i] == items[i];
      }
      SubsetSize(Wanted(before), Wanted(items));
      ForgettingIsInvisible(limit, before);
      FeedIsBounded(limit, before);
      FirstOccurrencesMeans(before);
      DistinctCount(FirstOccurrences(before));
    }
  }

  lemma SubsetSize<T>(small: set<T>, large: set<T>)
    requires small <= large
    ensures |small| <= |large|
  {
    assert large == small + (large - small);
  }

  /** A repeated id is still remembered when it comes again: it is among the last
      `limit` first occurrences before it. */
  ghost predicate StillKnown<Id>(limit: nat, items: seq<Item<Id>>, i: nat)
    requires i < |items|
  {
    var before := FirstOccurrences(items[..i]);
    items[i].needsAttention && items[i].id in before ==> items[i].id in Window(limit, before)
  }

  lemma {:induction false} CallsGrow<Id>(limit: nat, items: seq<Item<Id>>, n: nat)
    requires n <= |items|
    ensures OfferAll(limit, Feed({}, [], []), items[..n]).calls <= OfferAll(limit, Feed({}, [], []), items).calls
    decreases |items|
  {
    if n == |items| {
      assert items[..n] == items;
    } else {
      assert items[..|items| - 1][..n] == items[..n];
      CallsGrow(limit, items[..|items| - 1], n);
    }
  }

  /** One more item, while the two pollers have made the same calls so far. */
  lemma NextItem<Id>(limit: nat, items: seq<Item<Id>>)
    requires items != []
    requires var before := items[..|items| - 1];
             OfferAll(limit, Feed({}, [], []), before).calls == FirstOccurrences(before)
    ensures if StillKnown(limit, items, |items| - 1)
            then OfferAll(limit, Feed({}, [], []), items).calls == FirstOccurrences(items)
            else !Distinct(OfferAll(limit, Feed({}, [], []), items).calls)
  {
    var last := |items| - 1;
    var before, item := items[..last], items[last];
    FeedIsBounded(limit, before);
    hide Window;
    var f, calls := OfferAll(limit, Feed({}, [], []), before), FirstOccurrences(before);
    assert item.id in f.seen <==> item.id in f.order;
    assert item.id in Window(limit, calls) ==> item.id in calls by { WindowOf(limit, calls); }
    if !StillKnown(limit, items, last) {
      var k :| 0 <= k < |calls| && calls[k] == item.id;
      var all := calls + [item.id];
      assert OfferAll(limit, Feed({}, [], []), items).calls == all;
      assert all[k] == all[|calls|];
    }
  }

  lemma WindowOf<Id>(limit: nat, calls: seq<Id>)
    ensures forall id :: id in Window(limit, calls) ==> id in calls
  {
  }

  /** Exactly when forgetting is invisible: the forgetful poller makes the calls of
      the one that never forgets if and only if every repeated id that wants
      attention is among the last `limit` first occurrences before it. */
  lemma {:induction false} ForgettingShowsExactly<Id>(limit: nat, items: seq<Item<Id>>)
    ensures OfferAll(limit, Feed({}, [], []), items).calls == FirstOccurrences(items) <==>
            forall i :: 0 <= i < |items| ==> StillKnown(limit, items, i)
  {
    if items != [] {
      var last := |items| - 1;
      var before := items[..last];
      ForgettingShowsExactly(limit, before);
      FirstOccurrencesMeans(before);
      FirstOccurrencesMeans(items);
      CallsGrow(limit, items, last);
      forall i | 0 <= i < last ensures StillKnown(limit, before, i) <==> StillKnown(limit, items, i) {
        assert before[..i] == items[..i] && before[i] == items[i];
      }
      if OfferAll(limit, Feed({}, [], []), before).calls == FirstOccurrences(before) {
        NextItem(limit, items);
      } else {
        DifferenceIsARepeat(limit, before);
        hide OfferAll, FirstOccurrences;
        RepeatStays(OfferAll(limit, Feed({}, [], []), before).calls, OfferAll(limit, Feed({}, [], []), items).calls);
      }
    }
  }

  lemma RepeatStays<Id>(short: seq<Id>, long: seq<Id>)
    requires short <= long && !Distinct(short)
    ensures !Distinct(long)
  {
    var i, j :| 0 <= i < j < |short| && short[i] == short[j];
    assert long[i] == long[j];
  }

  /** Pollers that differ do so by a repeated call. */
  lemma {:induction false} DifferenceIsARepeat<Id>(limit: nat, items: seq<Item<Id>>)
    requires OfferAll(limit, Feed({}, [], []), items).calls != FirstOccurrences(items)
    ensures !Distinct(OfferAll(limit, Feed({}, [], []), items).calls)
  {
    if items != [] {
      var before := items[..|items| - 1];
      if OfferAll(limit, Feed({}, [], []), before).calls == FirstOccurrences(before) {
        NextItem(limit, items);
      } else {
        DifferenceIsARepeat(limit, before);
        CallsGrow(limit, items, |items| - 1);
        RepeatStays(OfferAll(limit, Feed({}, [], []), before).calls, OfferAll(limit, Feed({}, [], []), items).calls);
      }
    }
  }

  function Counting(n: nat): seq<Item<nat>> {
    seq(n, i => Item(i, true))
  }

  lemma {:induction false} CountingCalls(n: nat)
    ensures FirstOccurrences(Counting(n)) == seq(n, i => i)
  {
    if n > 0 {
      CountingCalls(n - 1);
      assert Counting(n)[..n - 1] == Counting(n - 1);
    }
  }

  /** For every limit, one id more than the limit is enough to see it forget: the
      first id is called back again when it comes again. */
  lemma ForgettingShowsBeyondLimit(limit: nat)
    ensures var items := Counting(limit + 1) + [Item(0, true)];
            OfferAll(limit, Feed({}, [], []), items).calls != FirstOccurrences(items)
  {
    var items := Counting(limit + 1) + [Item(0, true)];
    assert items[..limit + 1] == Counting(limit + 1);
    CountingCalls(limit + 1);
    var calls := seq(limit + 1, i => i);
    assert calls[0] == 0;
    assert 0 !in Window(limit, calls);
    assert !StillKnown(limit, items, limit + 1);
    ForgettingShowsExactly(limit, items);
  }
}
