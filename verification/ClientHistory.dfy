/** How each promise of the TypeScript client ends, told from what happened alone:
    who asked, which bodies came, and when everyone was rejected. */
module ClientHistory {
  import opened Common
  import opened ByteText
  import opened FrameDecoder
  import opened ClientTable

  /** What a client goes through, chunks taken apart: a request, a dispatched body,
      or a rejection of everyone. */
  datatype Happening = Issued(writeThrows: bool) | Body(bytes: Bytes) | Everyone

  function EachBody(bodies: seq<Bytes>): (r: seq<Happening>)
    ensures |r| == |bodies| && forall i :: 0 <= i < |bodies| ==> r[i] == Body(bodies[i])
  {
    seq(|bodies|, i requires 0 <= i < |bodies| => Body(bodies[i]))
  }

  /** The happenings of one chunk, and those of a run. */
  function ChunkHappenings(limit: nat, buffer: Bytes, chunk: Bytes): seq<Happening> {
    if |buffer + chunk| > limit then [Everyone]
    else
      var d := Decode(buffer + chunk);
      EachBody(d.bodies) + (if d.bad then [Everyone] else [])
  }

  function BufferLeft(limit: nat, buffer: Bytes, e: Event): Bytes {
    if !e.Chunk? then buffer else if |buffer + e.bytes| > limit then [] else Decode(buffer + e.bytes).rest
  }

  function EventHappenings(limit: nat, buffer: Bytes, e: Event): seq<Happening> {
    match e
    case Request(writeThrows) => [Issued(writeThrows)]
    case Chunk(bytes) => ChunkHappenings(limit, buffer, bytes)
    case TransportFailure => [Everyone]
    case Close => [Everyone]
  }

  function Happenings(limit: nat, buffer: Bytes, events: seq<Event>): seq<Happening>
    decreases |events|
  {
    if events == [] then []
    else
      EventHappenings(limit, buffer, events[0]) + Happenings(limit, BufferLeft(limit, buffer, events[0]), events[1..])
  }

  /** The id that the next request gets: one more than requests so far. */
  function Number(h: seq<Happening>): int {
    if h == [] then 1 else Number(h[..|h| - 1]) + (if h[|h| - 1].Issued? then 1 else 0)
  }

  /** Who still waits after one more happening, where `number` is the next id. */
  function StillWaiting(parse: Bytes -> Reply, waiting: set<int>, number: int, x: Happening): set<int> {
    match x
    case Issued(_) => waiting + {number}
    case Everyone => {}
    case Body(b) =>
      match parse(b)
      case Throws => {}
      case Unaddressed => waiting
      case Success(id) => waiting - {id}
      case PrintableError(id) => waiting - {id}
      case UnprintableError(id) => if id in waiting then {} else waiting
  }

  /** Who waits for a reply: whoever asked and has been answered neither alone nor
      with everyone. */
  function Waiting(parse: Bytes -> Reply, h: seq<Happening>): set<int> {
    if h == [] then {}
    else
      var g := h[..|h| - 1];
      StillWaiting(parse, Waiting(parse, g), Number(g), h[|h| - 1])
  }

  /** The request was made and written. */
  ghost predicate Written(h: seq<Happening>, id: int) {
    exists m :: 0 <= m < |h| && h[m] == Issued(false) && Number(h[..m]) == id
  }

  /** The request was made and its write threw. */
  ghost predicate Unwritable(h: seq<Happening>, id: int) {
    exists m :: 0 <= m < |h| && h[m] == Issued(true) && Number(h[..m]) == id
  }

  /** The happening at `k` rejects everyone, `id` among them. */
  predicate RejectsAt(parse: Bytes -> Reply, h: seq<Happening>, k: nat, id: int)
    requires k < |h|
  {
    id in Waiting(parse, h[..k]) &&
    match h[k]
    case Issued(_) => false
    case Everyone => true
    case Body(b) =>
      match parse(b)
      case Throws => true
      case UnprintableError(other) => other != id && other in Waiting(parse, h[..k])
      case _ => false
  }

  /** The happening at `k` is a body for `id`, which waits for it. */
  predicate AnswersAt(parse: Bytes -> Reply, h: seq<Happening>, k: nat, id: int, reply: Reply)
    requires k < |h|
  {
    id in Waiting(parse, h[..k]) && h[k].Body? && parse(h[k].bytes) == reply
  }

  ghost predicate ResolvedBy(parse: Bytes -> Reply, h: seq<Happening>, id: int, b: Bytes) {
    Written(h, id) && exists k :: 0 <= k < |h| && h[k] == Body(b) && AnswersAt(parse, h, k, id, Success(id))
  }

  ghost predicate RefusedBy(parse: Bytes -> Reply, h: seq<Happening>, id: int, b: Bytes) {
    Written(h, id) && exists k :: 0 <= k < |h| && h[k] == Body(b) && AnswersAt(parse, h, k, id, PrintableError(id))
  }

  /** Its write threw, or it was rejected with everyone. */
  ghost predicate FailedBy(parse: Bytes -> Reply, h: seq<Happening>, id: int) {
    Unwritable(h, id) || (Written(h, id) && exists k :: 0 <= k < |h| && RejectsAt(parse, h, k, id))
  }

  /** The table says of every id what the happenings say. */
  ghost predicate Tells(parse: Bytes -> Reply, h: seq<Happening>, t: Table) {
    && t.nextId == Number(h) && t.pending == Waiting(parse, h)
    && (forall id :: id in t.settled ==> Ended(parse, h, id, t.settled[id]))
    && (forall id, s :: Ended(parse, h, id, s) ==> id in t.settled && t.settled[id] == s)
  }

  ghost predicate Ended(parse: Bytes -> Reply, h: seq<Happening>, id: int, s: Settlement) {
    match s
    case Resolved(b) => ResolvedBy(parse, h, id, b)
    case Refused(b) => RefusedBy(parse, h, id, b)
    case Failed => FailedBy(parse, h, id)
  }

  /** How a promise ended, step by step; the first ending is final. */
  function Fate(parse: Bytes -> Reply, h: seq<Happening>, id: int): Option<Settlement> {
    if h == [] then None
    else
      var g, x := h[..|h| - 1], h[|h| - 1];
      if Fate(parse, g, id).Some? then Fate(parse, g, id) else EndNow(parse, g, x, id)
  }

  function EndNow(parse: Bytes -> Reply, g: seq<Happening>, x: Happening, id: int): Option<Settlement> {
    var waiting := Waiting(parse, g);
    match x
    case Issued(writeThrows) => if writeThrows && id == Number(g) then Some(Failed) else None
    case Everyone => if id in waiting then Some(Failed) else None
    case Body(b) =>
      if id !in waiting then None
      else
        match parse(b)
        case Throws => Some(Failed)
        case Unaddressed => None
        case Success(other) => if other == id then Some(Resolved(b)) else None
        case PrintableError(other) => if other == id then Some(Refused(b)) else None
        case UnprintableError(other) => if other != id && other in waiting then Some(Failed) else None
  }

  lemma NumberNext(g: seq<Happening>, x: Happening)
    ensures Number(g + [x]) == Number(g) + (if x.Issued? then 1 else 0)
  {
    assert (g + [x])[..|g|] == g;
  }

  lemma WaitingNext(parse: Bytes -> Reply, g: seq<Happening>, x: Happening)
    ensures Waiting(parse, g + [x]) == StillWaiting(parse, Waiting(parse, g), Number(g), x)
  {
    assert (g + [x])[..|g|] == g;
  }

  lemma FateNext(parse: Bytes -> Reply, g: seq<Happening>, x: Happening, id: int)
    ensures Fate(parse, g + [x], id) ==
            if Fate(parse, g, id).Some? then Fate(parse, g, id) else EndNow(parse, g, x, id)
  {
    assert (g + [x])[..|g|] == g;
  }

  lemma WrittenNext(g: seq<Happening>, x: Happening, id: int)
    ensures Written(g + [x], id) <==> Written(g, id) || (x == Issued(false) && Number(g) == id)
    ensures Unwritable(g + [x], id) <==> Unwritable(g, id) || (x == Issued(true) && Number(g) == id)
  {
    hide Number;
    var h := g + [x];
    assert h[..|g|] == g && h[|g|] == x;
    assert forall m :: 0 <= m < |g| ==> h[m] == g[m] && h[..m] == g[..m];
    if m :| 0 <= m < |g| && g[m] == Issued(false) && Number(g[..m]) == id { assert h[m] == g[m]; }
    if m :| 0 <= m < |g| && g[m] == Issued(true) && Number(g[..m]) == id { assert h[m] == g[m]; }
  }

  lemma {:induction false} NumberGrows(h: seq<Happening>, k: nat)
    requires k <= |h|
    ensures 1 <= Number(h[..k]) <= Number(h)
    decreases |h|
  {
    if k < |h| {
      assert h[..|h| - 1][..k] == h[..k];
      NumberGrows(h[..|h| - 1], k);
    } else {
      assert h[..k] == h;
      if h != [] { NumberGrows(h[..|h| - 1], |h| - 1); }
    }
  }

  /** Ids in use are below the next one; each is written or unwritable and not
      both; a written one that waits has not ended; an unwritable one failed. */
  ghost predicate Orderly(parse: Bytes -> Reply, h: seq<Happening>, id: int) {
    && (id in Waiting(parse, h) || Fate(parse, h, id).Some? || Written(h, id) || Unwritable(h, id) ==>
          1 <= id < Number(h))
    && (1 <= id < Number(h) ==> (Written(h, id) <==> !Unwritable(h, id)))
    && (id in Waiting(parse, h) && Written(h, id) ==> Fate(parse, h, id).None?)
    && (Unwritable(h, id) ==> Fate(parse, h, id) == Some(Failed))
  }

  lemma OrderlyNext(parse: Bytes -> Reply, g: seq<Happening>, x: Happening, id: int)
    requires Orderly(parse, g, id) && 1 <= Number(g)
    ensures Orderly(parse, g + [x], id)
  {
    hide Number, Waiting, Fate, Written, Unwritable;
    NumberNext(g, x);
    WaitingNext(parse, g, x);
    FateNext(parse, g, x, id);
    WrittenNext(g, x, id);
  }

  lemma {:induction false} AllOrderly(parse: Bytes -> Reply, h: seq<Happening>, id: int)
    ensures Orderly(parse, h, id) && 1 <= Number(h)
  {
    if h == [] {
    } else {
      var g, x := h[..|h| - 1], h[|h| - 1];
      AllOrderly(parse, g, id);
      hide Orderly;
      OrderlyNext(parse, g, x, id);
      assert h == g + [x];
      NumberNext(g, x);
    }
  }

  /** What happens last adds one ending, if any. */
  lemma EndedUnfolds(parse: Bytes -> Reply, g: seq<Happening>, x: Happening, id: int, s: Settlement)
    ensures Ended(parse, g + [x], id, s) <==>
            Ended(parse, g, id, s) ||
            (EndNow(parse, g, x, id) == Some(s) && (x == Issued(true) || Written(g, id)))
  {
    var h := g + [x];
    WrittenNext(g, x, id);
    AllOrderly(parse, g, id);
    hide Number, Waiting, Written, Unwritable, Fate, Orderly;
    if id == Number(g) { NobodyWaitedBefore(parse, g, x, id); }
    match s
    case Resolved(b) => AnswersUnfold(parse, g, x, id, b, Success(id));
    case Refused(b) => AnswersUnfold(parse, g, x, id, b, PrintableError(id));
    case Failed => RejectsUnfold(parse, g, x, id);
  }

  lemma NobodyWaitedBefore(parse: Bytes -> Reply, g: seq<Happening>, x: Happening, id: int)
    requires id == Number(g)
    ensures forall k :: 0 <= k <= |g| ==> id !in Waiting(parse, (g + [x])[..k])
    ensures !Written(g, id)
  {
    hide Number, Waiting, Written, Unwritable, Fate;
    AllOrderly(parse, g, id);
    forall k | 0 <= k <= |g| ensures id !in Waiting(parse, (g + [x])[..k]) {
      NumberGrows(g, k);
      AllOrderly(parse, g[..k], id);
      assert (g + [x])[..k] == g[..k];
    }
  }

  lemma AnswersUnfold(parse: Bytes -> Reply, g: seq<Happening>, x: Happening, id: int, b: Bytes, reply: Reply)
    ensures (exists k :: 0 <= k < |g + [x]| && (g + [x])[k] == Body(b) && AnswersAt(parse, g + [x], k, id, reply)) <==>
            (exists k :: 0 <= k < |g| && g[k] == Body(b) && AnswersAt(parse, g, k, id, reply)) ||
            (x == Body(b) && id in Waiting(parse, g) && parse(b) == reply)
  {
    hide Waiting;
    var h := g + [x];
    assert forall k :: 0 <= k < |g| ==> h[k] == g[k] && h[..k] == g[..k];
    assert h[..|g|] == g && h[|g|] == x;
    if k :| 0 <= k < |g| && g[k] == Body(b) && AnswersAt(parse, g, k, id, reply) {
      assert AnswersAt(parse, h, k, id, reply) && h[k] == Body(b);
    }
    if x == Body(b) && id in Waiting(parse, g) && parse(b) == reply {
      assert AnswersAt(parse, h, |g|, id, reply);
    }
    if k :| 0 <= k < |h| && h[k] == Body(b) && AnswersAt(parse, h, k, id, reply) {
      if k < |g| { assert AnswersAt(parse, g, k, id, reply) && g[k] == Body(b); }
    }
  }

  lemma RejectsUnfold(parse: Bytes -> Reply, g: seq<Happening>, x: Happening, id: int)
    ensures (exists k :: 0 <= k < |g + [x]| && RejectsAt(parse, g + [x], k, id)) <==>
            (exists k :: 0 <= k < |g| && RejectsAt(parse, g, k, id)) ||
            (!x.Issued? && EndNow(parse, g, x, id) == Some(Failed))
  {
    hide Waiting, Number;
    var h := g + [x];
    assert forall k :: 0 <= k < |g| ==> h[k] == g[k] && h[..k] == g[..k];
    assert h[..|g|] == g && h[|g|] == x;
    forall k | 0 <= k < |g| ensures RejectsAt(parse, h, k, id) <==> RejectsAt(parse, g, k, id) {}
    assert RejectsAt(parse, h, |g|, id) <==> !x.Issued? && EndNow(parse, g, x, id) == Some(Failed);
    if k :| 0 <= k < |g| && RejectsAt(parse, g, k, id) { assert RejectsAt(parse, h, k, id); }
    if k :| 0 <= k < |h| && RejectsAt(parse, h, k, id) {
      if k < |g| { assert RejectsAt(parse, g, k, id); }
    }
  }

  lemma {:induction false} FateMeans(parse: Bytes -> Reply, h: seq<Happening>, id: int, s: Settlement)
    ensures Fate(parse, h, id) == Some(s) <==> Ended(parse, h, id, s)
  {
    if h == [] {
    } else {
      var g, x := h[..|h| - 1], h[|h| - 1];
      assert h == g + [x];
      FateMeans(parse, g, id, s);
      AllOrderly(parse, g, id);
      EndedUnfolds(parse, g, x, id, s);
      WaitsToEnd(parse, g, x, id);
      hide Ended, EndNow, Waiting, Number, Written, Unwritable;
    }
  }

  lemma WaitsToEnd(parse: Bytes -> Reply, g: seq<Happening>, x: Happening, id: int)
    ensures EndNow(parse, g, x, id).Some? ==>
            if x.Issued? then x.writeThrows && id == Number(g) else id in Waiting(parse, g)
  {
  }

  // ---- the table ------------------------------------------------------------

  /** The table after one more happening. */
  function Next(parse: Bytes -> Reply, t: Table, x: Happening): Table {
    match x
    case Issued(writeThrows) => Issue(t, writeThrows)
    case Everyone => RejectAll(t)
    case Body(b) => Dispatch(t, parse(b), b)
  }

  /** The table agrees with the happenings, id by id. */
  ghost predicate Agrees(parse: Bytes -> Reply, h: seq<Happening>, t: Table) {
    && t.nextId == Number(h) && t.pending == Waiting(parse, h)
    && (forall id :: id in t.settled <==> Fate(parse, h, id).Some?)
    && (forall id :: id in t.settled ==> t.settled[id] == Fate(parse, h, id).value)
  }

  lemma NextAgrees(parse: Bytes -> Reply, h: seq<Happening>, t: Table, x: Happening)
    requires Agrees(parse, h, t)
    ensures Agrees(parse, h + [x], Next(parse, t, x))
  {
    hide Number, Waiting, Fate, Written, Unwritable;
    NumberNext(h, x);
    WaitingNext(parse, h, x);
    forall id
      ensures Fate(parse, h + [x], id) ==
              if Fate(parse, h, id).Some? then Fate(parse, h, id) else EndNow(parse, h, x, id)
      ensures id == Number(h) ==> Fate(parse, h, id).None?
    {
      FateNext(parse, h, x, id);
      AllOrderly(parse, h, id);
    }
  }

  lemma {:induction false} BodiesAgree(parse: Bytes -> Reply, h: seq<Happening>, t: Table, bodies: seq<Bytes>)
    requires Agrees(parse, h, t)
    ensures Agrees(parse, h + EachBody(bodies), DispatchAll(parse, t, bodies))
    decreases |bodies|
  {
    hide Agrees;
    if bodies == [] {
      assert h + EachBody(bodies) == h;
    } else {
      var last := |bodies| - 1;
      BodiesAgree(parse, h, t, bodies[..last]);
      NextAgrees(parse, h + EachBody(bodies[..last]), DispatchAll(parse, t, bodies[..last]), Body(bodies[last]));
      assert h + EachBody(bodies) == h + EachBody(bodies[..last]) + [Body(bodies[last])];
    }
  }

  lemma EventAgrees(limit: nat, parse: Bytes -> Reply, h: seq<Happening>, c: Client, e: Event)
    requires Agrees(parse, h, c.table)
    ensures Agrees(parse, h + EventHappenings(limit, c.buffer, e), Apply(limit, parse, c, e).table)
  {
    hide Agrees, Decode, DispatchAll;
    match e
    case Request(writeThrows) => NextAgrees(parse, h, c.table, Issued(writeThrows));
    case TransportFailure | Close => NextAgrees(parse, h, c.table, Everyone);
    case Chunk(bytes) =>
      if |c.buffer + bytes| > limit {
        NextAgrees(parse, h, c.table, Everyone);
      } else {
        var d := Decode(c.buffer + bytes);
        BodiesAgree(parse, h, c.table, d.bodies);
        var answered, told := DispatchAll(parse, c.table, d.bodies), h + EachBody(d.bodies);
        NextAgrees(parse, told, answered, Everyone);
        assert h + (EachBody(d.bodies) + [Everyone]) == told + [Everyone];
        assert h + (EachBody(d.bodies) + []) == told;
      }
  }

  lemma {:induction false} RunAgrees(
    limit: nat, parse: Bytes -> Reply, h: seq<Happening>, c: Client, events: seq<Event>)
    requires Agrees(parse, h, c.table)
    ensures Agrees(parse, h + Happenings(limit, c.buffer, events), Run(limit, parse, c, events).table)
    decreases |events|
  {
    hide Agrees, Apply, EventHappenings, BufferLeft;
    if events == [] {
      assert h + [] == h;
    } else {
      var e, tail := events[0], events[1..];
      var now, next := EventHappenings(limit, c.buffer, e), Apply(limit, parse, c, e);
      EventAgrees(limit, parse, h, c, e);
      RunAgrees(limit, parse, h + now, next, tail);
      BufferAfter(limit, parse, c, e);
      assert h + now + Happenings(limit, next.buffer, tail) == h + (now + Happenings(limit, next.buffer, tail));
    }
  }

  lemma BufferAfter(limit: nat, parse: Bytes -> Reply, c: Client, e: Event)
    ensures Apply(limit, parse, c, e).buffer == BufferLeft(limit, c.buffer, e)
  {
  }

  /** The table of every run tells exactly what happened: the numbering, who waits,
      and of each promise whether and how it ended. It is resolved by `b` exactly
      when its request was written and `b` came for it, with a result, while it
      waited; refused likewise by a printable error; and failed exactly when its
      write threw or everyone was rejected while it waited. */
  lemma RunTells(limit: nat, parse: Bytes -> Reply, events: seq<Event>)
    ensures Tells(parse, Happenings(limit, [], events), Run(limit, parse, Client(INITIAL, []), events).table)
  {
    var h, t := Happenings(limit, [], events), Run(limit, parse, Client(INITIAL, []), events).table;
    assert Agrees(parse, [], INITIAL);
    RunAgrees(limit, parse, [], Client(INITIAL, []), events);
    assert [] + h == h;
    hide Ended, Fate, Waiting, Number, Run;
    forall id, s ensures Fate(parse, h, id) == Some(s) <==> Ended(parse, h, id, s) { FateMeans(parse, h, id, s); }
  }

  /** A body comes for a waiting id at most once: the one that ends it is the first. */
  lemma AnsweredOnce(parse: Bytes -> Reply, h: seq<Happening>, id: int, j: nat, k: nat)
    requires j < k < |h| && h[j].Body? && id in Waiting(parse, h[..j])
    requires parse(h[j].bytes) in {Success(id), PrintableError(id), UnprintableError(id)}
    ensures id !in Waiting(parse, h[..k])
  {
    WaitingNext(parse, h[..j], h[j]);
    assert h[..j] + [h[j]] == h[..j + 1];
    AllOrderly(parse, h[..j], id);
    NumberGrows(h[..j + 1], j);
    assert h[..j + 1][..j] == h[..j];
    GoneStaysGone(parse, h, id, j + 1, k);
  }

  lemma {:induction false} GoneStaysGone(parse: Bytes -> Reply, h: seq<Happening>, id: int, j: nat, k: nat)
    requires j <= k <= |h| && id !in Waiting(parse, h[..j]) && id < Number(h[..j])
    ensures id !in Waiting(parse, h[..k]) && id < Number(h[..k])
    decreases k
  {
    if j < k {
      GoneStaysGone(parse, h, id, j, k - 1);
      assert h[..k] == h[..k - 1] + [h[k - 1]];
      WaitingNext(parse, h[..k - 1], h[k - 1]);
      assert h[..k][..k - 1] == h[..k - 1];
      NumberGrows(h[..k], k - 1);
    }
  }
}
