/** The request table of the TypeScript client: which promises are waiting, how
    each was settled, and the class whose methods move it. */
module ClientTable {
  import opened ByteText
  import opened FrameDecoder

  /** What `JSON.parse` and the reads of `id` and `error` make of one body.
      A numeric id that is no integer never names a request and counts as
      `Unaddressed`. An error is unprintable when `String(...)` throws on one of
      its fields, as on {"toString": 1, "valueOf": 1}. */
  datatype Reply = Throws | Unaddressed | Success(id: int) | PrintableError(id: int) | UnprintableError(id: int)

  /** How a promise ended: by the body that answered it, or by a failure. */
  datatype Settlement = Resolved(answer: Bytes) | Refused(answer: Bytes) | Failed

  /** `pending` is the key set of the client's map and `settled` the state of
      the promises. `unsent` and `lost` record the two accidents: ids whose
      request could not be written, and ids whose error reply could not be
      printed. */
  datatype Table = Table(
    nextId: int, pending: set<int>, settled: map<int, Settlement>, unsent: set<int>, lost: set<int>)

  const INITIAL := Table(1, {}, map[], {}, {})

  /** The first settlement of a promise is final. */
  function Settle(t: Table, id: int, s: Settlement): Table {
    t.(settled := if id in t.settled then t.settled else t.settled[id := s])
  }

  /** `request`: the entry is made before the write, so a write that throws
      rejects the promise and leaves the entry behind. */
  function Issue(t: Table, writeThrows: bool): Table {
    var entered := t.(nextId := t.nextId + 1, pending := t.pending + {t.nextId});
    if writeThrows then Settle(entered, t.nextId, Failed).(unsent := t.unsent + {t.nextId}) else entered
  }

  /** Promises that fail unless they are settled already. */
  function WithFailures(ids: set<int>, settled: map<int, Settlement>): map<int, Settlement> {
    (map id | id in ids :: Failed) + settled
  }

  function RejectAll(t: Table): Table {
    t.(pending := {}, settled := WithFailures(t.pending, t.settled))
  }

  /** Every waiting promise that was not settled has failed, every settled one is
      as it was, and nobody waits any more. */
  ghost predicate Rejected(before: Table, after: Table) {
    && after.pending == {} && after.nextId == before.nextId
    && after.unsent == before.unsent && after.lost == before.lost
    && after.settled.Keys == before.settled.Keys + before.pending
    && (forall id :: id in before.settled ==> after.settled[id] == before.settled[id])
    && (forall id :: id in before.pending && id !in before.settled ==> after.settled[id] == Failed)
  }

  lemma RejectAllRejects(t: Table)
    ensures Rejected(t, RejectAll(t))
  {
  }

  lemma SomebodyWaits(ids: set<int>)
    requires ids != {}
    ensures exists id :: id in ids
  {
    assert (forall id :: id !in ids) ==> ids == {};
  }

  /** The loop over the waiting entries, in any order. */
  method FailEach(ids: set<int>, settled: map<int, Settlement>) returns (r: map<int, Settlement>)
    ensures r.Keys == settled.Keys + ids
    ensures forall id :: id in settled ==> r[id] == settled[id]
    ensures forall id :: id in ids && id !in settled ==> r[id] == Failed
    ensures r == WithFailures(ids, settled)
  {
    var left := ids;
    r := settled;
    while left != {}
      invariant left <= ids && r == WithFailures(ids - left, settled)
    {
      SomebodyWaits(left);
      var id :| id in left;
      if id !in r { r := r[id := Failed]; }
      left := left - {id};
    }
  }

  function Drop(t: Table, id: int): Table {
    t.(pending := t.pending - {id})
  }

  /** One body through the `try` block of the loop. */
  function Dispatch(t: Table, reply: Reply, body: Bytes): Table {
    match reply
    case Throws => RejectAll(t)
    case Unaddressed => t
    case Success(id) => if id in t.pending then Settle(Drop(t, id), id, Resolved(body)) else t
    case PrintableError(id) => if id in t.pending then Settle(Drop(t, id), id, Refused(body)) else t
    case UnprintableError(id) =>
      if id in t.pending then RejectAll(Drop(t, id)).(lost := t.lost + {id}) else t
  }

  function DispatchAll(parse: Bytes -> Reply, t: Table, bodies: seq<Bytes>): Table
    decreases |bodies|
  {
    if bodies == [] then t
    else
      var last := |bodies| - 1;
      Dispatch(DispatchAll(parse, t, bodies[..last]), parse(bodies[last]), bodies[last])
  }

  lemma DispatchNone(parse: Bytes -> Reply, t: Table)
    ensures DispatchAll(parse, t, []) == t
  {
  }

  lemma DispatchOneMore(parse: Bytes -> Reply, t: Table, done: seq<Bytes>, body: Bytes)
    ensures DispatchAll(parse, t, done + [body]) == Dispatch(DispatchAll(parse, t, done), parse(body), body)
  {
    assert (done + [body])[..|done|] == done;
  }

  datatype Client = Client(table: Table, buffer: Bytes)

  /** What one decoding makes of the table. */
  function Digest(parse: Bytes -> Reply, t: Table, d: Decoded): Client {
    var answered := DispatchAll(parse, t, d.bodies);
    Client(if d.bad then RejectAll(answered) else answered, d.rest)
  }

  function Consume(limit: nat, parse: Bytes -> Reply, c: Client, chunk: Bytes): Client {
    var joined := c.buffer + chunk;
    if |joined| > limit then Client(RejectAll(c.table), [])
    else Digest(parse, c.table, Decode(joined))
  }

  /** Everything that can happen to a client: a request, a chunk, a transport
      failure (or exit), and `close`. */
  datatype Event = Request(writeThrows: bool) | Chunk(bytes: Bytes) | TransportFailure | Close

  function Apply(limit: nat, parse: Bytes -> Reply, c: Client, e: Event): Client {
    match e
    case Request(writeThrows) => c.(table := Issue(c.table, writeThrows))
    case Chunk(bytes) => Consume(limit, parse, c, bytes)
    case TransportFailure => c.(table := RejectAll(c.table))
    case Close => c.(table := RejectAll(c.table))
  }

  function Run(limit: nat, parse: Bytes -> Reply, c: Client, events: seq<Event>): Client
    decreases |events|
  {
    if events == [] then c else Run(limit, parse, Apply(limit, parse, c, events[0]), events[1..])
  }

  class GlassClient {
    const maxFrameBytes: nat
    const parse: Bytes -> Reply
    var buffer: Bytes
    var table: Table

    function Value(): Client
      reads this
    {
      Client(table, buffer)
    }

    constructor (maxFrameBytes: nat, parse: Bytes -> Reply)
      ensures Value() == Client(INITIAL, [])
      ensures this.maxFrameBytes == maxFrameBytes && this.parse == parse
    {
      this.maxFrameBytes := maxFrameBytes;
      this.parse := parse;
      buffer, table := [], INITIAL;
    }

    method Request(writeThrows: bool) returns (id: int)
      modifies this
      ensures id == old(table.nextId)
      ensures Value() == Apply(maxFrameBytes, parse, old(Value()), Event.Request(writeThrows))
    {
      id := table.nextId;
      table := table.(nextId := id + 1);
      table := table.(pending := table.pending + {id});
      if writeThrows {
        table := Settle(table, id, Failed).(unsent := table.unsent + {id});
      }
    }

    /** `rejectAll`: each waiting promise fails, settled ones ignore the call, and
        the table is cleared. */
    method RejectEverything()
      modifies this
      ensures buffer == old(buffer) && Rejected(old(table), table) && table == RejectAll(old(table))
    {
      ghost var before := table;
      var settled := FailEach(table.pending, table.settled);
      table := table.(pending := {}, settled := settled);
      RejectAllRejects(before);
    }

    method Receive(chunk: Bytes)
      modifies this
      ensures Value() == Consume(maxFrameBytes, parse, old(Value()), chunk)
    {
      buffer := buffer + chunk;
      if |buffer| > maxFrameBytes {
        buffer := [];
        RejectEverything();
        return;
      }
      Drain();
    }

    /** The decoding loop: every complete frame is dispatched in order. */
    method Drain()
      modifies this
      ensures Value() == Digest(parse, old(table), Decode(old(buffer)))
    {
      hide NextFrame, Dispatch, DispatchAll, RejectAll, Rejected;
      ghost var done: seq<Bytes> := [];
      DispatchNone(parse, table);
      while |buffer| > 0
        invariant table == DispatchAll(parse, old(table), done)
        invariant var d := Decode(buffer);
                  Decode(old(buffer)) == Decoded(done + d.bodies, d.rest, d.bad)
      {
        var next := NextFrame(buffer);
        match next
        case NeedMore =>
          assert done + [] == done;
          return;
        case BadHeader =>
          assert done + [] == done;
          RejectEverything();
          return;
        case Frame(body, rest) =>
          table := Dispatch(table, parse(body), body);
          buffer := rest;
          DispatchOneMore(parse, old(table), done, body);
          done := done + [body];
      }
      DecodeNothing();
      assert buffer == [] && done + [] == done;
    }
  }

  lemma {:induction false} DispatchAppends(parse: Bytes -> Reply, t: Table, first: seq<Bytes>, second: seq<Bytes>)
    ensures DispatchAll(parse, t, first + second) == DispatchAll(parse, DispatchAll(parse, t, first), second)
    decreases |second|
  {
    if second == [] {
      assert first + second == first;
    } else {
      var last := |second| - 1;
      assert (first + second)[..|first + second| - 1] == first + second[..last];
      DispatchAppends(parse, t, first, second[..last]);
    }
  }

  function Chunks(chunks: seq<Bytes>): seq<Event> {
    seq(|chunks|, i requires 0 <= i < |chunks| => Chunk(chunks[i]))
  }

  lemma RejectAllTwice(t: Table)
    ensures RejectAll(RejectAll(t)) == RejectAll(t)
  {
    assert RejectAll(RejectAll(t)).settled == RejectAll(t).settled;
  }

  /** A client whose buffer starts with an unreadable header has rejected
      everything. */
  predicate Settled(c: Client) {
    Decode(c.buffer).bodies == [] && (Decode(c.buffer).bad ==> c.table == RejectAll(c.table))
  }

  /** Two decodings one after the other digest as one. */
  lemma DigestJoins(parse: Bytes -> Reply, t: Table, d: Decoded, e: Decoded)
    requires d.bad ==> e.bad && e.bodies == []
    ensures Digest(parse, Digest(parse, t, d).table, e) == Digest(parse, t, Decoded(d.bodies + e.bodies, e.rest, e.bad))
  {
    var answered := DispatchAll(parse, t, d.bodies);
    DispatchAppends(parse, t, d.bodies, e.bodies);
    DispatchNone(parse, answered);
    DispatchNone(parse, RejectAll(answered));
    RejectAllTwice(answered);
    hide DispatchAll, RejectAll;
    assert d.bad ==> d.bodies + e.bodies == d.bodies;
  }

  /** The promises do not see the chunks either: as long as no chunk trips the
      size check, a client ends up as if each frame of the whole stream had been
      dispatched in order, and everything rejected if an unreadable header
      follows. */
  lemma {:induction false} RunOfChunks(limit: nat, parse: Bytes -> Reply, c: Client, chunks: seq<Bytes>)
    requires Feed(limit, c.buffer, chunks).Some? && Settled(c)
    ensures Run(limit, parse, c, Chunks(chunks)) == Digest(parse, c.table, Decode(c.buffer + Flatten(chunks)))
    decreases |chunks|
  {
    hide Decode, DispatchAll, RejectAll;
    if chunks == [] {
      DispatchNone(parse, c.table);
      StuckKeepsBuffer(c.buffer);
      assert c.buffer + Flatten(chunks) == c.buffer;
    } else {
      var joined, tail := c.buffer + chunks[0], chunks[1..];
      var d, e := Decode(joined), Decode(Decode(joined).rest + Flatten(tail));
      var next := Apply(limit, parse, c, Chunk(chunks[0]));
      assert Chunks(chunks)[1..] == Chunks(tail);
      DecodeRestIsStuck(joined);
      DecodeContinues(joined, Flatten(tail));
      assert joined + Flatten(tail) == c.buffer + Flatten(chunks);
      assert next == Digest(parse, c.table, d);
      RejectAllTwice(DispatchAll(parse, c.table, d.bodies));
      RunOfChunks(limit, parse, next, tail);
      DigestJoins(parse, c.table, d, e);
    }
  }

  /** What holds of the table after every run from the initial client. */
  ghost predicate Sound(parse: Bytes -> Reply, t: Table) {
    && 1 <= t.nextId
    && (forall id :: id in t.pending || id in t.settled || id in t.unsent || id in t.lost ==> 1 <= id < t.nextId)
    // every issued id is somewhere
    && (forall id :: 1 <= id < t.nextId ==> id in t.pending || id in t.settled || id in t.lost)
    // an id both waiting and settled was never written
    && (forall id :: id in t.pending && id in t.settled ==> id in t.unsent)
    // a lost id left the table, and its promise was settled only if never written
    && (forall id :: id in t.lost ==> id !in t.pending && (id in t.settled ==> id in t.unsent))
    && (forall id :: id in t.unsent ==> id in t.settled && t.settled[id] == Failed)
    // a promise was answered only by a body that carries its id
    && (forall id :: id in t.settled && t.settled[id].Resolved? ==> parse(t.settled[id].answer) == Success(id))
    && (forall id :: id in t.settled && t.settled[id].Refused? ==> parse(t.settled[id].answer) == PrintableError(id))
  }

  /** What a step keeps of every earlier id: settled stays settled the same way,
      and an id that left the table does not come back. */
  ghost predicate Later(t: Table, u: Table) {
    && t.nextId <= u.nextId
    && t.unsent <= u.unsent && t.lost <= u.lost
    && (forall id :: id in t.settled ==> id in u.settled && u.settled[id] == t.settled[id])
    && (forall id :: 1 <= id < t.nextId && id in u.pending ==> id in t.pending)
  }

  lemma IssueKeeps(parse: Bytes -> Reply, t: Table, writeThrows: bool)
    requires Sound(parse, t)
    ensures Sound(parse, Issue(t, writeThrows)) && Later(t, Issue(t, writeThrows))
  {
  }

  lemma RejectAllKeeps(parse: Bytes -> Reply, t: Table)
    requires Sound(parse, t)
    ensures Sound(parse, RejectAll(t)) && Later(t, RejectAll(t))
  {
  }

  lemma AnswerKeeps(parse: Bytes -> Reply, t: Table, id: int, s: Settlement)
    requires Sound(parse, t) && id in t.pending
    requires s.Resolved? ==> parse(s.answer) == Success(id)
    requires s.Refused? ==> parse(s.answer) == PrintableError(id)
    ensures var u := Settle(Drop(t, id), id, s); Sound(parse, u) && Later(t, u)
  {
  }

  lemma LossKeeps(parse: Bytes -> Reply, t: Table, id: int)
    requires Sound(parse, t) && id in t.pending
    ensures var u := RejectAll(Drop(t, id)).(lost := t.lost + {id}); Sound(parse, u) && Later(t, u)
  {
  }

  lemma DispatchKeeps(parse: Bytes -> Reply, t: Table, body: Bytes)
    requires Sound(parse, t)
    ensures var u := Dispatch(t, parse(body), body); Sound(parse, u) && Later(t, u)
  {
    LaterIsReflexive(t);
    hide Sound, Later, Settle, RejectAll;
    match parse(body)
    case Throws => RejectAllKeeps(parse, t);
    case Unaddressed =>
    case Success(id) => if id in t.pending { AnswerKeeps(parse, t, id, Resolved(body)); }
    case PrintableError(id) => if id in t.pending { AnswerKeeps(parse, t, id, Refused(body)); }
    case UnprintableError(id) => if id in t.pending { LossKeeps(parse, t, id); }
  }

  lemma LaterIsReflexive(t: Table)
    ensures Later(t, t)
  {
  }

  lemma LaterChains(t: Table, u: Table, v: Table)
    requires Later(t, u) && Later(u, v)
    ensures Later(t, v)
  {
  }

  lemma {:induction false} DispatchAllKeeps(parse: Bytes -> Reply, t: Table, bodies: seq<Bytes>)
    requires Sound(parse, t)
    ensures var u := DispatchAll(parse, t, bodies); Sound(parse, u) && Later(t, u)
    decreases |bodies|
  {
    LaterIsReflexive(t);
    if bodies != [] {
      hide Sound, Later, Dispatch;
      var last := |bodies| - 1;
      var before := DispatchAll(parse, t, bodies[..last]);
      DispatchAllKeeps(parse, t, bodies[..last]);
      DispatchKeeps(parse, before, bodies[last]);
      LaterChains(t, before, DispatchAll(parse, t, bodies));
    }
  }

  lemma ApplyKeeps(limit: nat, parse: Bytes -> Reply, c: Client, e: Event)
    requires Sound(parse, c.table)
    ensures var d := Apply(limit, parse, c, e); Sound(parse, d.table) && Later(c.table, d.table)
  {
    match e
    case Request(writeThrows) => IssueKeeps(parse, c.table, writeThrows);
    case Chunk(bytes) =>
      hide Decode, Sound, Later, DispatchAll, RejectAll;
      var answered := DispatchAll(parse, c.table, Decode(c.buffer + bytes).bodies);
      DispatchAllKeeps(parse, c.table, Decode(c.buffer + bytes).bodies);
      RejectAllKeeps(parse, answered);
      LaterChains(c.table, answered, RejectAll(answered));
      RejectAllKeeps(parse, c.table);
    case TransportFailure | Close => RejectAllKeeps(parse, c.table);
  }

  /** Over any run, every table is sound and ids only move forward: an id leaves
      the table once, and its settlement never changes. */
  lemma {:induction false} RunKeeps(limit: nat, parse: Bytes -> Reply, c: Client, events: seq<Event>)
    requires Sound(parse, c.table)
    ensures var d := Run(limit, parse, c, events); Sound(parse, d.table) && Later(c.table, d.table)
    decreases |events|
  {
    if events != [] {
      ApplyKeeps(limit, parse, c, events[0]);
      RunKeeps(limit, parse, Apply(limit, parse, c, events[0]), events[1..]);
    }
  }

  /** The issued ids are 1..nextId-1 and each is in exactly one of pending and
      settled, that is, waiting, resolved or rejected. */
  ghost predicate Partitioned(t: Table) {
    && (forall id :: 1 <= id < t.nextId <==> id in t.pending || id in t.settled)
    && (forall id :: id in t.pending ==> id !in t.settled)
  }

  /** Step by step, and decided before the step: a request keeps the partition
      exactly when its write succeeds. */
  lemma RequestKeepsPartitionExactly(parse: Bytes -> Reply, t: Table, writeThrows: bool)
    requires Sound(parse, t) && Partitioned(t)
    ensures Partitioned(Issue(t, writeThrows)) <==> !writeThrows
  {
    var u := Issue(t, writeThrows);
    assert t.nextId in u.pending;
    assert writeThrows ==> t.nextId in u.settled;
  }

  /** The body is an unprintable error for a request that waits. */
  predicate Loses(parse: Bytes -> Reply, t: Table, body: Bytes) {
    parse(body).UnprintableError? && parse(body).id in t.pending
  }

  /** A request left the table and was never settled. */
  ghost predicate Broken(t: Table) {
    exists id :: id in t.lost && id !in t.settled
  }

  /** A body keeps the partition exactly when it is no unprintable error for a
      waiting request; otherwise it loses that request. */
  lemma BodyKeepsPartitionExactly(parse: Bytes -> Reply, t: Table, body: Bytes)
    requires Sound(parse, t) && Partitioned(t)
    ensures Partitioned(Dispatch(t, parse(body), body)) <==> !Loses(parse, t, body)
    ensures Loses(parse, t, body) ==> Broken(Dispatch(t, parse(body), body))
  {
    var reply, u := parse(body), Dispatch(t, parse(body), body);
    if Loses(parse, t, body) {
      assert reply.id in u.lost && reply.id !in u.pending && reply.id !in u.settled && 1 <= reply.id < u.nextId;
    }
  }

  lemma BrokenIsNotPartitioned(parse: Bytes -> Reply, t: Table)
    requires Sound(parse, t) && Broken(t)
    ensures !Partitioned(t)
  {
    var id :| id in t.lost && id !in t.settled;
    assert id !in t.pending && 1 <= id < t.nextId;
  }

  /** What is lost stays lost while no further request is issued. */
  lemma BrokenStays(parse: Bytes -> Reply, t: Table, u: Table)
    requires Sound(parse, t) && Sound(parse, u) && Later(t, u) && Broken(t) && u.unsent == t.unsent
    ensures Broken(u)
  {
    var id :| id in t.lost && id !in t.settled;
    assert id in u.lost && id !in u.unsent;
  }

  /** No body of a list loses a request that waits when its turn comes. */
  ghost predicate NoneLost(parse: Bytes -> Reply, t: Table, bodies: seq<Bytes>) {
    forall j :: 0 <= j < |bodies| ==> !Loses(parse, DispatchAll(parse, t, bodies[..j]), bodies[j])
  }

  lemma NoneLostUnfolds(parse: Bytes -> Reply, t: Table, bodies: seq<Bytes>)
    requires bodies != []
    ensures var last := |bodies| - 1;
            NoneLost(parse, t, bodies) <==>
            NoneLost(parse, t, bodies[..last]) && !Loses(parse, DispatchAll(parse, t, bodies[..last]), bodies[last])
  {
    hide DispatchAll, Loses;
    var last := |bodies| - 1;
    var before := bodies[..last];
    assert forall j :: 0 <= j < last ==> before[..j] == bodies[..j] && before[j] == bodies[j];
  }

  lemma {:induction false} BodiesKeepPartitionExactly(parse: Bytes -> Reply, t: Table, bodies: seq<Bytes>)
    requires Sound(parse, t) && Partitioned(t)
    ensures var u := DispatchAll(parse, t, bodies);
            if NoneLost(parse, t, bodies) then Partitioned(u) else Broken(u)
    decreases |bodies|
  {
    DispatchNone(parse, t);
    if bodies == [] {
    } else {
      var last := |bodies| - 1;
      var before, body := bodies[..last], bodies[last];
      var u := DispatchAll(parse, t, before);
      BodiesKeepPartitionExactly(parse, t, before);
      DispatchAllKeeps(parse, t, before);
      DispatchKeeps(parse, u, body);
      DispatchLeaves(u, parse(body), body);
      hide Dispatch, Sound, Later, Partitioned, Broken, Loses;
      NoneLostUnfolds(parse, t, bodies);
      hide NoneLost;
      if NoneLost(parse, t, before) {
        BodyKeepsPartitionExactly(parse, u, body);
      } else {
        BrokenStays(parse, u, DispatchAll(parse, t, bodies));
      }
    }
  }

  /** A body touches neither the numbering nor the record of failed writes. */
  lemma DispatchLeaves(t: Table, reply: Reply, body: Bytes)
    ensures var u := Dispatch(t, reply, body); u.unsent == t.unsent && u.nextId == t.nextId
  {
  }

  lemma RejectAllKeepsPartition(parse: Bytes -> Reply, t: Table)
    requires Sound(parse, t)
    ensures Partitioned(t) ==> Partitioned(RejectAll(t))
    ensures Broken(t) ==> Broken(RejectAll(t))
  {
    if Broken(t) {
      var id :| id in t.lost && id !in t.settled;
      assert id !in t.pending && id in RejectAll(t).lost && id !in RejectAll(t).settled;
    }
  }

  /** The bodies that a chunk completes. */
  function ChunkBodies(limit: nat, buffer: Bytes, chunk: Bytes): seq<Bytes> {
    if |buffer + chunk| > limit then [] else Decode(buffer + chunk).bodies
  }

  /** Whether an event goes well for a client, before it happens: a request is
      written, and no body of a chunk is an unprintable error for a request that
      waits when its turn comes. */
  ghost predicate GoesWell(limit: nat, parse: Bytes -> Reply, c: Client, e: Event) {
    match e
    case Request(writeThrows) => !writeThrows
    case Chunk(bytes) => NoneLost(parse, c.table, ChunkBodies(limit, c.buffer, bytes))
    case TransportFailure => true
    case Close => true
  }

  lemma EventKeepsPartitionExactly(limit: nat, parse: Bytes -> Reply, c: Client, e: Event)
    requires Sound(parse, c.table) && Partitioned(c.table)
    ensures Partitioned(Apply(limit, parse, c, e).table) <==> GoesWell(limit, parse, c, e)
  {
    hide Sound, Partitioned, Broken, Decode, DispatchAll, NoneLost, Issue, RejectAll;
    RejectAllKeepsPartition(parse, c.table);
    match e
    case Request(writeThrows) => RequestKeepsPartitionExactly(parse, c.table, writeThrows);
    case TransportFailure | Close =>
    case Chunk(bytes) =>
      var bodies := ChunkBodies(limit, c.buffer, bytes);
      var answered := DispatchAll(parse, c.table, bodies);
      NothingLost(parse, c.table);
      BodiesKeepPartitionExactly(parse, c.table, bodies);
      DispatchAllKeeps(parse, c.table, bodies);
      RejectAllKeepsPartition(parse, answered);
      RejectAllKeeps(parse, answered);
      if Broken(answered) { BrokenIsNotPartitioned(parse, answered); }
      if Broken(RejectAll(answered)) { BrokenIsNotPartitioned(parse, RejectAll(answered)); }
  }

  lemma NothingLost(parse: Bytes -> Reply, t: Table)
    ensures NoneLost(parse, t, [])
  {
  }

  /** Every event of a run goes well where it happens. */
  ghost predicate AllGoWell(limit: nat, parse: Bytes -> Reply, c: Client, events: seq<Event>)
    decreases |events|
  {
    events == [] ||
    (GoesWell(limit, parse, c, events[0]) && AllGoWell(limit, parse, Apply(limit, parse, c, events[0]), events[1..]))
  }

  ghost predicate AlwaysPartitioned(limit: nat, parse: Bytes -> Reply, c: Client, events: seq<Event>) {
    forall k :: 0 <= k <= |events| ==> Partitioned(Run(limit, parse, c, events[..k]).table)
  }

  lemma AlwaysUnfolds(limit: nat, parse: Bytes -> Reply, c: Client, events: seq<Event>)
    requires events != []
    ensures AlwaysPartitioned(limit, parse, c, events) <==>
            Partitioned(c.table) && AlwaysPartitioned(limit, parse, Apply(limit, parse, c, events[0]), events[1..])
  {
    hide Partitioned, Apply;
    var next, tail := Apply(limit, parse, c, events[0]), events[1..];
    forall k | 0 <= k < |events|
      ensures Run(limit, parse, c, events[..k + 1]) == Run(limit, parse, next, tail[..k])
    {
      assert events[..k + 1][1..] == tail[..k] && events[..k + 1][0] == events[0];
    }
    assert Run(limit, parse, c, events[..0]) == c;
    if AlwaysPartitioned(limit, parse, c, events) {
      forall k | 0 <= k <= |tail| ensures Partitioned(Run(limit, parse, next, tail[..k]).table) {
        assert Partitioned(Run(limit, parse, c, events[..k + 1]).table);
      }
    }
    if Partitioned(c.table) && AlwaysPartitioned(limit, parse, next, tail) {
      forall k | 0 <= k <= |events| ensures Partitioned(Run(limit, parse, c, events[..k]).table) {
        if k > 0 { assert Partitioned(Run(limit, parse, next, tail[..k - 1]).table); }
      }
    }
  }

  lemma {:induction false} PartitionExactlyFrom(limit: nat, parse: Bytes -> Reply, c: Client, events: seq<Event>)
    requires Sound(parse, c.table) && Partitioned(c.table)
    ensures AlwaysPartitioned(limit, parse, c, events) <==> AllGoWell(limit, parse, c, events)
    decreases |events|
  {
    if events == [] {
      assert events[..0] == [];
    } else {
      var next, tail := Apply(limit, parse, c, events[0]), events[1..];
      AlwaysUnfolds(limit, parse, c, events);
      EventKeepsPartitionExactly(limit, parse, c, events[0]);
      ApplyKeeps(limit, parse, c, events[0]);
      hide Sound, Partitioned, Apply, GoesWell;
      if Partitioned(next.table) {
        PartitionExactlyFrom(limit, parse, next, tail);
      } else {
        assert tail[..0] == [];
        assert Run(limit, parse, next, tail[..0]) == next;
      }
    }
  }

  /** A run keeps each issued id in exactly one of pending, resolved and rejected
      throughout, exactly when every request is written and no body dispatched
      on the way is an unprintable error for a request that waits just then. */
  lemma PartitionExactly(limit: nat, parse: Bytes -> Reply, events: seq<Event>)
    ensures AlwaysPartitioned(limit, parse, Client(INITIAL, []), events) <==>
            AllGoWell(limit, parse, Client(INITIAL, []), events)
  {
    PartitionExactlyFrom(limit, parse, Client(INITIAL, []), events);
  }

  /** All bodies that a run dispatches, which the events and the limit decide. */
  function RunBodies(limit: nat, buffer: Bytes, events: seq<Event>): seq<Bytes>
    decreases |events|
  {
    if events == [] then []
    else match events[0]
         case Chunk(bytes) =>
           var rest := if |buffer + bytes| > limit then [] else Decode(buffer + bytes).rest;
           ChunkBodies(limit, buffer, bytes) + RunBodies(limit, rest, events[1..])
         case _ => RunBodies(limit, buffer, events[1..])
  }

  /** Every request of the run is written and none of its bodies carries an
      unprintable error. */
  ghost predicate Clean(limit: nat, parse: Bytes -> Reply, buffer: Bytes, events: seq<Event>) {
    && (forall i :: 0 <= i < |events| && events[i].Request? ==> !events[i].writeThrows)
    && (forall body :: body in RunBodies(limit, buffer, events) ==> !parse(body).UnprintableError?)
  }

  lemma {:induction false} CleanRunsGoWell(limit: nat, parse: Bytes -> Reply, c: Client, events: seq<Event>)
    requires Clean(limit, parse, c.buffer, events)
    ensures AllGoWell(limit, parse, c, events)
    decreases |events|
  {
    if events != [] {
      hide Decode, DispatchAll, RejectAll, Issue;
      var next, tail := Apply(limit, parse, c, events[0]), events[1..];
      assert forall i :: 0 <= i < |tail| ==> tail[i] == events[i + 1];
      assert forall body :: body in RunBodies(limit, next.buffer, tail) ==> body in RunBodies(limit, c.buffer, events);
      assert events[0].Chunk? ==>
          forall body :: body in ChunkBodies(limit, c.buffer, events[0].bytes) ==>
                           body in RunBodies(limit, c.buffer, events);
      CleanRunsGoWell(limit, parse, next, tail);
    }
  }

  /** On a clean run the issued ids are 1..nextId-1 and each is in exactly one of
      pending, resolved and rejected, after every event. */
  lemma CleanRunsPartition(limit: nat, parse: Bytes -> Reply, events: seq<Event>)
    requires Clean(limit, parse, [], events)
    ensures AlwaysPartitioned(limit, parse, Client(INITIAL, []), events)
  {
    CleanRunsGoWell(limit, parse, Client(INITIAL, []), events);
    PartitionExactly(limit, parse, events);
  }

  /** A request that cannot be written is rejected and still waiting. */
  lemma UnwrittenRequestIsBoth(limit: nat, parse: Bytes -> Reply)
    ensures var t := Run(limit, parse, Client(INITIAL, []), [Request(true)]).table;
            1 in t.pending && 1 in t.settled && !Partitioned(t)
  {
    var events := [Request(true)];
    assert events[1..] == [];
    assert Run(limit, parse, Client(INITIAL, []), events) == Client(Issue(INITIAL, true), []);
  }

  /** A reply with an unprintable error leaves its request neither waiting nor
      settled, for good. */
  lemma LostForever(limit: nat, parse: Bytes -> Reply, c: Client, body: Bytes, id: int, events: seq<Event>)
    requires Sound(parse, c.table) && parse(body) == UnprintableError(id)
    requires id in c.table.pending && id !in c.table.settled
    ensures var lost := c.(table := Dispatch(c.table, parse(body), body));
            var t := Run(limit, parse, lost, events).table;
            id !in t.pending && id !in t.settled && !Partitioned(t)
  {
    var lost := c.(table := Dispatch(c.table, parse(body), body));
    DispatchKeeps(parse, c.table, body);
    RunKeeps(limit, parse, lost, events);
    UnsentAreUnwritten(limit, parse, lost, events);
  }

  /** The ids of the requests that could not be written, counting from `next`. */
  function Unwritten(next: int, events: seq<Event>): set<int>
    decreases |events|
  {
    if events == [] then {}
    else match events[0]
         case Request(writeThrows) => (if writeThrows then {next} else {}) + Unwritten(next + 1, events[1..])
         case _ => Unwritten(next, events[1..])
  }

  lemma {:induction false} DispatchAllUnsent(parse: Bytes -> Reply, t: Table, bodies: seq<Bytes>)
    ensures var u := DispatchAll(parse, t, bodies); u.unsent == t.unsent && u.nextId == t.nextId
    decreases |bodies|
  {
    if bodies != [] { DispatchAllUnsent(parse, t, bodies[..|bodies| - 1]); }
  }

  /** `unsent` is a fact about the events alone: a run numbers its requests in
      order and adds those whose write failed. */
  lemma {:induction false} UnsentAreUnwritten(limit: nat, parse: Bytes -> Reply, c: Client, events: seq<Event>)
    ensures var t := Run(limit, parse, c, events).table;
            t.unsent == c.table.unsent + Unwritten(c.table.nextId, events)
    ensures forall id :: id in Unwritten(c.table.nextId, events) ==> c.table.nextId <= id
    decreases |events|
  {
    if events != [] {
      match events[0] {
        case Chunk(bytes) =>
          hide Decode;
          DispatchAllUnsent(parse, c.table, Decode(c.buffer + bytes).bodies);
        case Request(_) | TransportFailure | Close =>
      }
      UnsentAreUnwritten(limit, parse, Apply(limit, parse, c, events[0]), events[1..]);
    }
  }

  /** A reply settles the promise it is for, by what it carries, and leaves every
      other id where it is. */
  lemma RepliesSettle(parse: Bytes -> Reply, t: Table, body: Bytes, id: int)
    requires id in t.pending && id !in t.settled && parse(body) in {Success(id), PrintableError(id)}
    ensures var u := Dispatch(t, parse(body), body);
            && id !in u.pending && id in u.settled
            && u.settled[id] == (if parse(body).Success? then Resolved(body) else Refused(body))
            && (forall other :: other != id ==> (other in u.pending <==> other in t.pending))
            && (forall other :: other != id ==> (other in u.settled <==> other in t.settled))
            && (forall other :: other != id && other in t.settled ==> u.settled[other] == t.settled[other])
  {
  }

  /** Too many bytes at once: the buffer is dropped and nobody waits any more. */
  lemma OversizeStartsAfresh(limit: nat, parse: Bytes -> Reply, c: Client, chunk: Bytes)
    requires |c.buffer| + |chunk| > limit
    ensures var d := Consume(limit, parse, c, chunk);
            d.buffer == [] && d.table.pending == {} && Rejected(c.table, d.table)
  {
    RejectAllRejects(c.table);
  }

  /** A reply whose id is unknown or already gone changes nothing. */
  lemma UnknownRepliesChangeNothing(t: Table, reply: Reply, body: Bytes)
    requires reply.Throws? || reply.Unaddressed? || reply.id !in t.pending
    ensures !reply.Throws? ==> Dispatch(t, reply, body) == t
    ensures reply.Throws? ==> Dispatch(t, reply, body).pending == {}
  {
  }
}
