/** The push decoder of the TypeScript client: newline frames mixed with
    `Content-Length` frames, cut out of a growing buffer. */
module FrameDecoder {
  import opened Common
  import opened ByteText

  /** One pass of the decoding loop over a buffer. */
  datatype Pass = NeedMore | BadHeader | Frame(body: Bytes, rest: Bytes)

  /** Everything the loop takes out of a buffer, what it leaves, and whether it
      stopped on an unreadable header. */
  datatype Decoded = Decoded(bodies: seq<Bytes>, rest: Bytes, bad: bool)

  predicate NameAt(s: Bytes, at: nat) {
    at + |LENGTH_NAME| <= |s| &&
    forall i :: 0 <= i < |LENGTH_NAME| ==> NodeLower(s[at + i]) == LENGTH_NAME[i]
  }

  /** The view of a header that the regular expression searches. */
  function AsciiView(header: Bytes): (view: Bytes)
    ensures |view| == |header|
  {
    seq(|header|, i requires 0 <= i < |header| => header[i] % 128)
  }

  /** The number behind the first name that has one:
      `/content-length:\s*(\d+)/i` tried at each index from `at`. */
  function MatchLength(view: Bytes, at: nat): Option<nat>
    decreases |view| - at
  {
    if at + |LENGTH_NAME| > |view| then None
    else
      var tail := view[at + |LENGTH_NAME|..];
      var digits := tail[SpaceRun(tail)..];
      if NameAt(view, at) && DigitRun(digits) > 0 then Some(Decimal(digits[..DigitRun(digits)]))
      else MatchLength(view, at + 1)
  }

  function HeaderLength(header: Bytes): Option<nat> {
    MatchLength(AsciiView(header), 0)
  }

  /** The name stands at `at` with a number behind it. */
  predicate NumberedAt(view: Bytes, at: nat) {
    NameAt(view, at) &&
    var tail := view[at + |LENGTH_NAME|..];
    DigitRun(tail[SpaceRun(tail)..]) > 0
  }

  function NumberBehind(view: Bytes, at: nat): nat
    requires NumberedAt(view, at)
  {
    var tail := view[at + |LENGTH_NAME|..];
    var digits := tail[SpaceRun(tail)..];
    Decimal(digits[..DigitRun(digits)])
  }

  ghost predicate FirstNumbered(view: Bytes, from: nat, at: nat) {
    from <= at && NumberedAt(view, at) && forall i :: from <= i < at ==> !NumberedAt(view, i)
  }

  lemma MatchUnfolds(view: Bytes, at: nat)
    ensures MatchLength(view, at) ==
            if at + |LENGTH_NAME| > |view| then None
            else if NumberedAt(view, at) then Some(NumberBehind(view, at))
            else MatchLength(view, at + 1)
    ensures NumberedAt(view, at) ==> at + |LENGTH_NAME| <= |view|
  {
  }

  /** The number found is that behind the first name that has one, anywhere in the
      header; none is found exactly when there is no such name. */
  lemma {:induction false} MatchIsFirst(view: Bytes, from: nat)
    ensures MatchLength(view, from).None? ==> forall i :: from <= i ==> !NumberedAt(view, i)
    ensures MatchLength(view, from).Some? ==>
            exists at :: FirstNumbered(view, from, at) && MatchLength(view, from) == Some(NumberBehind(view, at))
    decreases |view| - from
  {
    MatchUnfolds(view, from);
    hide MatchLength, NumberedAt, NumberBehind;
    if from + |LENGTH_NAME| > |view| {
      forall i: nat | from <= i ensures !NumberedAt(view, i) { MatchUnfolds(view, i); }
    } else if NumberedAt(view, from) {
      assert FirstNumbered(view, from, from);
    } else {
      MatchIsFirst(view, from + 1);
      if MatchLength(view, from).Some? {
        var at :| FirstNumbered(view, from + 1, at) && MatchLength(view, from + 1) == Some(NumberBehind(view, at));
        assert FirstNumbered(view, from, at);
      }
    }
  }

  /** The frame behind a `Content-Length` header. */
  function CountedFrame(buffer: Bytes): (p: Pass)
    ensures p.Frame? ==> |p.rest| < |buffer| && p.rest == buffer[|buffer| - |p.rest|..]
  {
    var separator := Find(buffer, HEADER_END, 0);
    if separator < 0 then NeedMore
    else
      match HeaderLength(buffer[..separator])
      case None => BadHeader
      case Some(length) =>
        var start := separator + 4;
        if |buffer| < start + length then NeedMore
        else Frame(buffer[start..start + length], buffer[start + length..])
  }

  function NextFrame(buffer: Bytes): (p: Pass)
    ensures p.Frame? ==> |p.rest| < |buffer| && p.rest == buffer[|buffer| - |p.rest|..]
  {
    if NameAt(buffer, 0) then CountedFrame(buffer)
    else
      var newline := Find(buffer, [LF], 0);
      if newline < 0 then NeedMore
      else Frame(buffer[..newline], buffer[newline + 1..])
  }

  /** A header is unreadable exactly when it is complete and no name in it has a
      number behind it. */
  lemma BadHeaderExactly(buffer: Bytes)
    ensures NextFrame(buffer) == BadHeader <==>
            && NameAt(buffer, 0) && Find(buffer, HEADER_END, 0) >= 0
            && forall i :: 0 <= i ==> !NumberedAt(AsciiView(buffer[..Find(buffer, HEADER_END, 0)]), i)
  {
    hide NameAt, NumberedAt, NumberBehind, MatchLength, Find, AsciiView;
    var separator := Find(buffer, HEADER_END, 0);
    if separator >= 0 {
      var view := AsciiView(buffer[..separator]);
      MatchIsFirst(view, 0);
      if MatchLength(view, 0).Some? {
        var at :| FirstNumbered(view, 0, at);
        assert NumberedAt(view, at);
      }
    }
  }

  function Decode(buffer: Bytes): (d: Decoded)
    ensures |d.rest| <= |buffer|
    decreases |buffer|
  {
    match NextFrame(buffer)
    case NeedMore => Decoded([], buffer, false)
    case BadHeader => Decoded([], buffer, true)
    case Frame(body, rest) =>
      var d := Decode(rest);
      Decoded([body] + d.bodies, d.rest, d.bad)
  }

  lemma DecodeNothing()
    ensures Decode([]) == Decoded([], [], false)
  {
    assert Find([], [LF], 0) == -1;
  }

  lemma CountedStable(buffer: Bytes, more: Bytes)
    requires !CountedFrame(buffer).NeedMore?
    ensures CountedFrame(buffer).BadHeader? ==> CountedFrame(buffer + more).BadHeader?
    ensures var p := CountedFrame(buffer);
            p.Frame? ==> CountedFrame(buffer + more) == Frame(p.body, p.rest + more)
  {
    hide HeaderLength;
    var all := buffer + more;
    FindStable(buffer, more, HEADER_END, 0);
    var separator := Find(buffer, HEADER_END, 0);
    assert all[..separator] == buffer[..separator];
    var header := HeaderLength(buffer[..separator]);
    if header.Some? {
      var start, stop := separator + 4, separator + 4 + header.value;
      assert all[start..stop] == buffer[start..stop];
      assert all[stop..] == buffer[stop..] + more;
    }
  }

  /** A newline inside the first bytes rules the name out for good. */
  lemma NameStable(buffer: Bytes, more: Bytes)
    requires Find(buffer, [LF], 0) >= 0 || NameAt(buffer, 0)
    ensures NameAt(buffer + more, 0) == NameAt(buffer, 0)
  {
    var newline := Find(buffer, [LF], 0);
    if !NameAt(buffer, 0) {
      assert buffer[newline..newline + 1][0] == LF;
      assert newline < |LENGTH_NAME| ==> NodeLower((buffer + more)[newline]) != LENGTH_NAME[newline];
    }
  }

  /** What a pass decides, it decides again with more bytes behind. */
  lemma NextFrameStable(buffer: Bytes, more: Bytes)
    requires !NextFrame(buffer).NeedMore?
    ensures NextFrame(buffer).BadHeader? ==> NextFrame(buffer + more).BadHeader?
    ensures var p := NextFrame(buffer);
            p.Frame? ==> NextFrame(buffer + more) == Frame(p.body, p.rest + more)
  {
    hide NameAt, HeaderLength;
    NameStable(buffer, more);
    if NameAt(buffer, 0) {
      CountedStable(buffer, more);
    } else {
      FindStable(buffer, more, [LF], 0);
      var newline := Find(buffer, [LF], 0);
      assert (buffer + more)[..newline] == buffer[..newline];
      assert (buffer + more)[newline + 1..] == buffer[newline + 1..] + more;
    }
  }

  /** Decoding may pause anywhere: the rest of one decoding and the new bytes
      continue exactly where a single decoding of everything would be. */
  lemma {:induction false} DecodeContinues(buffer: Bytes, more: Bytes)
    ensures var d := Decode(buffer);
            var e := Decode(d.rest + more);
            Decode(buffer + more) == Decoded(d.bodies + e.bodies, e.rest, e.bad)
    ensures Decode(buffer).bad ==> Decode(Decode(buffer).rest + more) == Decoded([], Decode(buffer).rest + more, true)
    decreases |buffer|
  {
    hide NextFrame;
    match NextFrame(buffer)
    case NeedMore =>
    case BadHeader => NextFrameStable(buffer, more);
    case Frame(body, rest) =>
      NextFrameStable(buffer, more);
      DecodeContinues(rest, more);
      var d, e := Decode(rest), Decode(Decode(rest).rest + more);
      assert [body] + d.bodies + e.bodies == [body] + (d.bodies + e.bodies);
  }

  /** The leftover holds no further frame. */
  lemma {:induction false} DecodeRestIsStuck(buffer: Bytes)
    ensures var d := Decode(buffer); Decode(d.rest) == Decoded([], d.rest, d.bad)
    decreases |buffer|
  {
    match NextFrame(buffer)
    case Frame(body, rest) => DecodeRestIsStuck(rest);
    case _ =>
  }

  lemma StuckKeepsBuffer(buffer: Bytes)
    requires Decode(buffer).bodies == []
    ensures Decode(buffer).rest == buffer
  {
    hide NextFrame;
    assert !NextFrame(buffer).Frame?;
  }

  function Flatten(chunks: seq<Bytes>): Bytes {
    if chunks == [] then [] else chunks[0] + Flatten(chunks[1..])
  }

  /** A list of chunks pushed one after the other into a decoder that holds
      `buffer`; `None` when the size check trips on the way. */
  function Feed(limit: nat, buffer: Bytes, chunks: seq<Bytes>): Option<Decoded>
    decreases |chunks|
  {
    if chunks == [] then Some(Decoded([], buffer, Decode(buffer).bad))
    else
      var joined := buffer + chunks[0];
      if |joined| > limit then None
      else
        var d := Decode(joined);
        match Feed(limit, d.rest, chunks[1..])
        case None => None
        case Some(e) => Some(Decoded(d.bodies + e.bodies, e.rest, e.bad))
  }

  /** Cutting a stream into chunks is invisible as long as no cut trips the size
      check: the bodies and the leftover are those of the whole stream. */
  lemma {:induction false} FeedIsDecode(limit: nat, buffer: Bytes, chunks: seq<Bytes>)
    requires Decode(buffer).bodies == [] && Feed(limit, buffer, chunks).Some?
    ensures Feed(limit, buffer, chunks).value == Decode(buffer + Flatten(chunks))
    decreases |chunks|
  {
    hide NextFrame;
    if chunks == [] {
      assert buffer + [] == buffer;
      assert !NextFrame(buffer).Frame?;
    } else {
      var joined := buffer + chunks[0];
      var d := Decode(joined);
      DecodeRestIsStuck(joined);
      FeedIsDecode(limit, d.rest, chunks[1..]);
      DecodeContinues(joined, Flatten(chunks[1..]));
      assert joined + Flatten(chunks[1..]) == buffer + Flatten(chunks);
    }
  }

  /** The chunks pass the size check exactly when each fits behind what the
      stream before it leaves in the buffer. */
  ghost predicate ChunksFit(limit: nat, buffer: Bytes, chunks: seq<Bytes>) {
    forall k :: 0 <= k < |chunks| ==> |Decode(buffer + Flatten(chunks[..k])).rest| + |chunks[k]| <= limit
  }

  lemma {:induction false} FeedFitsExactly(limit: nat, buffer: Bytes, chunks: seq<Bytes>)
    requires Decode(buffer).bodies == []
    ensures Feed(limit, buffer, chunks).Some? <==> ChunksFit(limit, buffer, chunks)
    decreases |chunks|
  {
    StuckKeepsBuffer(buffer);
    if chunks == [] {
    } else {
      var joined, tail := buffer + chunks[0], chunks[1..];
      forall k | 0 <= k < |tail|
        ensures Decode(buffer + Flatten(chunks[..k + 1])).rest == Decode(Decode(joined).rest + Flatten(tail[..k])).rest
      {
        RestOfPrefix(buffer, chunks, k);
      }
      FitsUnfolds(limit, buffer, chunks, Decode(joined).rest);
      DecodeRestIsStuck(joined);
      hide Decode, Flatten, ChunksFit;
      FeedFitsExactly(limit, Decode(joined).rest, tail);
    }
  }

  /** What a prefix of the stream leaves, with its first chunk decoded first. */
  lemma RestOfPrefix(buffer: Bytes, chunks: seq<Bytes>, k: nat)
    requires k + 1 <= |chunks|
    ensures Decode(buffer + Flatten(chunks[..k + 1])).rest ==
            Decode(Decode(buffer + chunks[0]).rest + Flatten(chunks[1..][..k])).rest
  {
    hide Decode;
    var joined, tail := buffer + chunks[0], chunks[1..];
    assert chunks[..k + 1][0] == chunks[0] && chunks[..k + 1][1..] == tail[..k];
    assert buffer + Flatten(chunks[..k + 1]) == joined + Flatten(tail[..k]);
    DecodeContinues(joined, Flatten(tail[..k]));
  }

  lemma FitsUnfolds(limit: nat, buffer: Bytes, chunks: seq<Bytes>, rest: Bytes)
    requires chunks != [] && Decode(buffer).rest == buffer
    requires forall k :: 0 <= k < |chunks| - 1 ==>
               Decode(buffer + Flatten(chunks[..k + 1])).rest == Decode(rest + Flatten(chunks[1..][..k])).rest
    ensures ChunksFit(limit, buffer, chunks) <==>
            |buffer + chunks[0]| <= limit && ChunksFit(limit, rest, chunks[1..])
  {
    hide Decode;
    var tail := chunks[1..];
    assert chunks[..0] == [] && buffer + Flatten([]) == buffer;
    if ChunksFit(limit, buffer, chunks) {
      forall k | 0 <= k < |tail| ensures |Decode(rest + Flatten(tail[..k])).rest| + |tail[k]| <= limit {
        assert |Decode(buffer + Flatten(chunks[..k + 1])).rest| + |chunks[k + 1]| <= limit;
      }
    }
    if |buffer + chunks[0]| <= limit && ChunksFit(limit, rest, tail) {
      forall k | 0 <= k < |chunks| ensures |Decode(buffer + Flatten(chunks[..k])).rest| + |chunks[k]| <= limit {
        if k > 0 { assert |Decode(rest + Flatten(tail[..k - 1])).rest| + |tail[k - 1]| <= limit; }
      }
    }
  }

  lemma ChunkInvariance(limit: nat, left: seq<Bytes>, right: seq<Bytes>)
    requires Flatten(left) == Flatten(right)
    requires Feed(limit, [], left).Some? && Feed(limit, [], right).Some?
    ensures Feed(limit, [], left) == Feed(limit, [], right)
  {
    FeedIsDecode(limit, [], left);
    FeedIsDecode(limit, [], right);
  }

  /** The size check measures what arrives together, not frames: splitting a
      chunk never makes it trip, while joining two chunks can. */
  lemma SplittingNeverTrips(limit: nat, buffer: Bytes, before: seq<Bytes>, one: Bytes, two: Bytes, after: seq<Bytes>)
    requires Feed(limit, buffer, before + [one + two] + after).Some?
    ensures Feed(limit, buffer, before + [one, two] + after).Some?
    decreases |before|
  {
    hide Decode;
    if before == [] {
      var whole, parts := before + [one + two] + after, before + [one, two] + after;
      assert whole[0] == one + two && whole[1..] == after;
      assert parts[0] == one && parts[1..][0] == two && parts[1..][1..] == after;
      assert buffer + (one + two) == (buffer + one) + two;
      DecodeContinues(buffer + one, two);
      assert |Decode(buffer + one).rest + two| <= |buffer + one + two|;
    } else {
      var d := Decode(buffer + before[0]);
      var tail := before[1..];
      assert (before + [one + two] + after)[1..] == tail + [one + two] + after;
      assert (before + [one, two] + after)[1..] == tail + [one, two] + after;
      assert (before + [one + two] + after)[0] == before[0] == (before + [one, two] + after)[0];
      SplittingNeverTrips(limit, d.rest, tail, one, two, after);
    }
  }

  lemma JoiningCanTrip()
    ensures var frame: Bytes := [1, LF];
            Feed(2, [], [frame, frame]).Some? && Feed(2, [], [frame + frame]).None?
  {
    var frame: Bytes := [1, LF];
    assert frame[0..1] == [1] && frame[1..2] == [LF];
    assert !OccursAt(frame, [LF], 0) && OccursAt(frame, [LF], 1);
    assert Find(frame, [LF], 0) == 1 && frame[..1] == [1] && frame[2..] == [];
    assert NextFrame(frame) == Frame([1], []);
    assert Find([], [LF], 0) == -1;
    assert Decode(frame).rest == [];
    assert [frame, frame][1..] == [frame] && [frame][1..] == [] && [] + frame == frame;
    assert Feed(2, [], [frame]).Some?;
  }
}
