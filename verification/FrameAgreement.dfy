/** What a server may write, and that both clients read it the same way. */
module FrameAgreement {
  import opened Common
  import opened ByteText
  import opened FrameDecoder
  import opened PullReader

  /** A frame on the wire: a line, or a counted body behind a header block that
      spells the name in any case, pads the number with blanks and may carry
      further header lines. */
  datatype WireFrame =
    | Line(text: Bytes)
    | Counted(name: Bytes, pad: Bytes, digits: Bytes, trail: Bytes, extra: Bytes, body: Bytes)

  predicate Blank(s: Bytes) {
    forall i :: 0 <= i < |s| ==> s[i] == 32 || s[i] == 9
  }

  function Title(f: WireFrame): Bytes
    requires f.Counted?
  {
    f.name + f.pad + f.digits + f.trail
  }

  /** The header block without its final empty line. */
  function Head(f: WireFrame): Bytes
    requires f.Counted?
  {
    Title(f) + CRLF + f.extra
  }

  function Encode(f: WireFrame): Bytes {
    match f
    case Line(text) => text + [LF]
    case Counted(_, _, _, _, _, body) => Head(f) + CRLF + body
  }

  function Body(f: WireFrame): Bytes {
    if f.Line? then f.text else f.body
  }

  /** A counted frame but for its size and the length of its number. */
  predicate Counts(f: WireFrame) {
    && f.Counted?
    && |f.name| == |LENGTH_NAME| && NamedLine(f.name) && Blank(f.pad) && Blank(f.trail)
    && f.digits != [] && AllDigits(f.digits) && Decimal(f.digits) == |f.body|
    && (f.extra == [] || EndsWith(f.extra, CRLF))
    && Find(Head(f) + CRLF, HEADER_END, 0) == |Head(f)| - 2
  }

  /** The frames both readers promise to read: a line is one line and no header,
      a header block ends where its first empty line stands, the number is the
      length of the body and no longer than Python converts, and the sizes are
      within the limit. */
  predicate WellFormed(limit: nat, f: WireFrame) {
    match f
    case Line(text) => LF !in text && !NameAt(text, 0) && !NamedLine(text) && |text| < limit
    case Counted(_, _, digits, _, _, body) =>
      Counts(f) && |digits| <= DIGIT_LIMIT && |Head(f)| + 2 <= limit && |body| <= limit
  }

  lemma CutOff(a: Bytes, b: Bytes)
    ensures (a + b)[..|a|] == a && (a + b)[|a|..] == b
  {
  }

  // ---- the push decoder -----------------------------------------------------

  lemma ViewJoins(a: Bytes, b: Bytes)
    ensures AsciiView(a + b) == AsciiView(a) + AsciiView(b)
  {
  }

  lemma ViewOfAscii(a: Bytes)
    requires forall i :: 0 <= i < |a| ==> a[i] < 128
    ensures AsciiView(a) == a
  {
  }

  lemma MatchAtStart(name: Bytes, pad: Bytes, digits: Bytes, beyond: Bytes)
    requires |name| == |LENGTH_NAME| && NameAt(name, 0) && AllSpace(pad)
    requires digits != [] && AllDigits(digits) && (beyond == [] || !IsDigit(beyond[0]))
    ensures MatchLength(name + (pad + (digits + beyond)), 0) == Some(Decimal(digits))
  {
    var tail := pad + (digits + beyond);
    var view := name + tail;
    assert NameAt(view, 0) by {
      assert forall i :: 0 <= i < |name| ==> view[i] == name[i];
    }
    hide NameAt;
    assert view[0 + |LENGTH_NAME|..] == tail;
    assert (digits + beyond)[0] == digits[0];
    SpaceRunIs(pad, digits + beyond);
    assert tail[|pad|..] == digits + beyond;
    DigitRunIs(digits, beyond);
    assert (digits + beyond)[..|digits|] == digits;
  }

  /** The regular expression finds the number of a well-formed title whatever
      header lines follow it. */
  lemma TitleLength(f: WireFrame, after: Bytes)
    requires f.Counted? && |f.name| == |LENGTH_NAME| && NamedLine(f.name) && Blank(f.pad) && Blank(f.trail)
    requires f.digits != [] && AllDigits(f.digits)
    requires after == [] || after[0] == 13
    ensures HeaderLength(Title(f) + after) == Some(Decimal(f.digits))
  {
    NameIsAscii(f.name);
    var beyond := f.trail + after;
    var numbered := f.digits + beyond;
    assert Title(f) + after == f.name + (f.pad + numbered);
    hide NameAt, NamedLine, MatchLength;
    ViewJoins(f.name, f.pad + numbered);
    ViewJoins(f.pad, numbered);
    ViewJoins(f.digits, beyond);
    ViewOfAscii(f.name);
    ViewOfAscii(f.pad);
    ViewOfAscii(f.digits);
    assert beyond != [] ==> beyond[0] == 32 || beyond[0] == 9 || beyond[0] == 13;
    MatchAtStart(f.name, f.pad, f.digits, AsciiView(beyond));
  }

  lemma NameIsAscii(name: Bytes)
    requires |name| == |LENGTH_NAME| && NamedLine(name)
    ensures NameAt(name, 0)
    ensures forall i :: 0 <= i < |name| ==> name[i] < 128 && name[i] != 10 && name[i] != 13
  {
    forall i | 0 <= i < |name|
      ensures name[i] < 128 && name[i] != 10 && name[i] != 13 && NodeLower(name[i]) == LENGTH_NAME[i]
    {
      assert PythonLower(name[i]) == LENGTH_NAME[i];
    }
  }

  /** A header block that ends at its first empty line and names the length of
      what follows. */
  lemma PushReadsBlock(head: Bytes, body: Bytes, more: Bytes)
    requires |head| >= 4 && Find(head, HEADER_END, 0) == |head| - 4
    requires HeaderLength(head[..|head| - 4]) == Some(|body|)
    ensures CountedFrame(head + (body + more)) == Frame(body, more)
  {
    hide HeaderLength, Find;
    var stream := head + (body + more);
    FindStable(head, body + more, HEADER_END, 0);
    assert stream[..|head| - 4] == head[..|head| - 4];
    assert stream[|head|..|head| + |body|] == body;
    assert stream[|head| + |body|..] == more;
  }

  lemma PushReadsCounted(f: WireFrame, more: Bytes)
    requires Counts(f)
    ensures NextFrame(Encode(f) + more) == Frame(f.body, more)
  {
    hide NamedLine, HeaderLength, CountedFrame;
    NameIsAscii(f.name);
    var head := Head(f) + CRLF;
    var stream := Encode(f) + more;
    assert stream == head + (f.body + more);
    var after := (CRLF + f.extra)[..|f.extra|];
    assert head[..|head| - 4] == Title(f) + after;
    TitleLength(f, after);
    PushReadsBlock(head, f.body, more);
    assert forall i :: 0 <= i < |f.name| ==> stream[i] == f.name[i];
  }

  lemma PushReadsLine(text: Bytes, more: Bytes)
    requires LF !in text && !NameAt(text, 0)
    ensures NextFrame(text + [LF] + more) == Frame(text, more)
  {
    var line := text + [LF];
    var stream := line + more;
    assert line[|text|..|text| + 1] == [LF];
    assert OccursAt(line, [LF], |text|);
    forall i | 0 <= i < |text| ensures !OccursAt(line, [LF], i) {
      assert line[i..i + 1] == [text[i]];
    }
    assert Find(line, [LF], 0) == |text|;
    FindStable(line, more, [LF], 0);
    NameStable(line, more);
    assert !NameAt(line, 0) by {
      assert forall i :: 0 <= i < |text| ==> line[i] == text[i];
      assert |text| == |LENGTH_NAME| - 1 ==> NodeLower(line[|text|]) != LENGTH_NAME[|text|];
    }
    hide NameAt;
    assert stream[..|text|] == text;
    assert stream[|text| + 1..] == more;
  }

  // ---- the pull reader ------------------------------------------------------

  lemma EndOccurs(headers: Bytes, rest: Bytes)
    requires EndsWith(headers, HEADER_END)
    ensures OccursAt(headers + rest, HEADER_END, |headers| - 4)
  {
    assert (headers + rest)[|headers| - 4..|headers|] == HEADER_END;
  }

  /** Reading line by line stops exactly behind the first empty line. */
  lemma {:induction false} HeaderReadsToEnd(limit: nat, headers: Bytes, rest: Bytes, separator: nat)
    requires Find(headers + rest, HEADER_END, 0) == separator
    requires |headers| <= separator + 4 <= limit
    ensures var all := headers + rest;
            ReadHeader(limit, headers, rest) == Complete(all[..separator + 4], all[separator + 4..])
    decreases |rest|
  {
    var all := headers + rest;
    assert all[separator..separator + 4] == HEADER_END;
    if |headers| == separator + 4 {
      assert all[..separator + 4] == headers && all[separator + 4..] == rest;
    } else {
      if EndsWith(headers, HEADER_END) { EndOccurs(headers, rest); }
      var ending := separator + 3 - |headers|;
      assert rest[ending..ending + 1] == [all[separator + 3]];
      assert all[separator + 3] == all[separator..separator + 4][3];
      assert OccursAt(rest, [LF], ending);
      var n := LineLength(rest, LINE_LIMIT);
      assert 0 < n <= ending + 1;
      assert headers + rest[..n] + rest[n..] == all;
      HeaderReadsToEnd(limit, headers + rest[..n], rest[n..], separator);
    }
  }

  lemma StripBlanks(pad: Bytes, digits: Bytes, trail: Bytes)
    requires Blank(pad) && Blank(trail) && digits != [] && AllDigits(digits)
    ensures Strip(pad + digits + trail) == digits
  {
    var s := pad + digits + trail;
    assert s == pad + (digits + trail) && (digits + trail)[0] == digits[0];
    SpaceRunIs(pad, digits + trail);
    assert s[|pad|..] == digits + trail;
    StripTrail(digits, trail);
  }

  lemma {:induction false} StripTrail(kept: Bytes, trail: Bytes)
    requires kept != [] && !IsSpace(kept[|kept| - 1]) && AllSpace(trail)
    ensures StripRight(kept + trail) == kept
    decreases |trail|
  {
    var s := kept + trail;
    if trail == [] {
      assert s == kept;
    } else {
      var last := |trail| - 1;
      assert s[|s| - 1] == trail[last];
      assert s[..|s| - 1] == kept + trail[..last];
      StripTrail(kept, trail[..last]);
    }
  }

  lemma {:induction false} LineEndIs(line: Bytes, rest: Bytes)
    requires forall i :: 0 <= i < |line| ==> line[i] != 10 && line[i] != 13
    requires rest != [] && rest[0] == 13
    ensures LineEnd(line + rest) == |line|
  {
    if line == [] {
      assert line + rest == rest;
    } else {
      assert (line + rest)[1..] == line[1..] + rest;
      LineEndIs(line[1..], rest);
    }
  }

  /** No byte of a title breaks a line. */
  lemma TitleIsOneLine(f: WireFrame)
    requires f.Counted? && |f.name| == |LENGTH_NAME| && NamedLine(f.name) && Blank(f.pad) && Blank(f.trail)
    requires AllDigits(f.digits)
    ensures forall i :: 0 <= i < |Title(f)| ==> Title(f)[i] != 10 && Title(f)[i] != 13
    ensures NamedLine(Title(f))
  {
    NameIsAscii(f.name);
    var title := Title(f);
    assert forall i :: 0 <= i < |f.name| ==> title[i] == f.name[i];
    assert NamedLine(title);
    hide NamedLine, NameAt;
    forall i | 0 <= i < |title| ensures title[i] != 10 && title[i] != 13 {
      assert title[i] in f.name || title[i] in f.pad || title[i] in f.digits || title[i] in f.trail;
    }
  }

  lemma TitleAnnounces(f: WireFrame, after: Bytes)
    requires f.Counted? && |f.name| == |LENGTH_NAME| && NamedLine(f.name) && Blank(f.pad) && Blank(f.trail)
    requires f.digits != [] && AllDigits(f.digits)
    requires after != [] && after[0] == 13
    ensures AnnouncedLength(Title(f) + after) ==
            if |f.digits| <= DIGIT_LIMIT then Some(Decimal(f.digits)) else None
  {
    TitleIsOneLine(f);
    var title := Title(f);
    hide NamedLine, LengthLine, PythonInt, Title;
    TitleIsLengthLine(title, after);
    TitleNumber(f);
  }

  lemma TitleIsLengthLine(title: Bytes, after: Bytes)
    requires forall i :: 0 <= i < |title| ==> title[i] != 10 && title[i] != 13
    requires NamedLine(title) && after != [] && after[0] == 13
    ensures LengthLine(title + after) == Some(title)
  {
    LineEndIs(title, after);
    CutOff(title, after);
  }

  lemma TitleNumber(f: WireFrame)
    requires f.Counted? && |f.name| == |LENGTH_NAME| && Blank(f.pad) && Blank(f.trail)
    requires f.digits != [] && AllDigits(f.digits)
    ensures PythonInt(Title(f)[|LENGTH_NAME|..]) ==
            if |f.digits| <= DIGIT_LIMIT then Some(Decimal(f.digits)) else None
  {
    StripBlanks(f.pad, f.digits, f.trail);
    hide Strip, Decimal;
    assert Title(f)[|LENGTH_NAME|..] == f.pad + f.digits + f.trail;
  }

  /** The first line of a counted frame is its title line. */
  lemma FirstLine(f: WireFrame, behind: Bytes, size: nat)
    requires f.Counted? && |f.name| == |LENGTH_NAME| && NamedLine(f.name) && Blank(f.pad) && Blank(f.trail)
    requires AllDigits(f.digits) && |Title(f)| + 2 <= size
    ensures var stream := Head(f) + CRLF + behind;
            LineLength(stream, size) == |Title(f)| + 2 && NamedLine(stream[..|Title(f)| + 2])
  {
    var title := Title(f);
    var stream := Head(f) + CRLF + behind;
    TitleIsOneLine(f);
    assert stream == title + (CRLF + f.extra + CRLF + behind);
    assert forall i :: 0 <= i < |title| ==> stream[i] == title[i];
    LineEnds(stream, |title| + 1, size);
  }

  lemma LineEnds(stream: Bytes, at: nat, size: nat)
    requires at < size && at < |stream| && stream[at] == LF && forall i :: 0 <= i < at ==> stream[i] != LF
    ensures LineLength(stream, size) == at + 1
  {
    assert stream[at..at + 1] == [LF];
    assert OccursAt(stream, [LF], at);
    forall i | 0 <= i < at ensures !OccursAt(stream, [LF], i) {
      assert stream[i..i + 1] == [stream[i]];
    }
  }

  lemma PullReadsBody(limit: nat, head: Bytes, body: Bytes, more: Bytes)
    requires AnnouncedLength(head) == Some(|body|) && |body| <= limit
    ensures ReadBody(limit, head, body + more) == Message(body, more)
  {
    hide AnnouncedLength;
    CutOff(body, more);
  }

  /** A header block is read whole, and what is behind it is handed on. */
  lemma PullReadsHeader(limit: nat, head: Bytes, behind: Bytes)
    requires |head| >= 4 && Find(head, HEADER_END, 0) == |head| - 4 && |head| <= limit
    requires var n := LineLength(head + behind, limit + 1);
             0 < n <= |head| && NamedLine((head + behind)[..n])
    ensures ReadMessage(limit, head + behind) == ReadBody(limit, head, behind)
  {
    hide NamedLine, ReadHeader, ReadBody, LineLength, Find;
    var stream := head + behind;
    var n := LineLength(stream, limit + 1);
    FindStable(head, behind, HEADER_END, 0);
    CutOff(stream[..n], stream[n..]);
    assert stream[..n] + stream[n..] == stream;
    HeaderReadsToEnd(limit, stream[..n], stream[n..], |head| - 4);
    CutOff(head, behind);
  }

  lemma PullReadsCounted(limit: nat, f: WireFrame, more: Bytes)
    requires Counts(f) && |Head(f)| + 2 <= limit && |f.body| <= limit
    ensures ReadMessage(limit, Encode(f) + more) ==
            if |f.digits| <= DIGIT_LIMIT then Message(f.body, more) else BadLength
  {
    CountedShape(f, more);
    FirstLine(f, f.body + more, limit + 1);
    TitleAnnounces(f, CRLF + f.extra + CRLF);
    hide NamedLine, NameAt, Encode, Head, Title, AnnouncedLength, ReadMessage, LineLength, Find;
    PullReadsBlock(limit, Head(f) + CRLF, f.body, more);
  }

  /** A header block that ends at its first empty line and names the length of what
      follows, or a number too long to convert. */
  lemma PullReadsBlock(limit: nat, head: Bytes, body: Bytes, more: Bytes)
    requires |head| >= 4 && Find(head, HEADER_END, 0) == |head| - 4 && |head| <= limit && |body| <= limit
    requires AnnouncedLength(head) == Some(|body|) || AnnouncedLength(head) == None
    requires var n := LineLength(head + (body + more), limit + 1);
             0 < n <= |head| && NamedLine((head + (body + more))[..n])
    ensures ReadMessage(limit, head + (body + more)) ==
            if AnnouncedLength(head).Some? then Message(body, more) else BadLength
  {
    hide NamedLine, AnnouncedLength, ReadMessage, LineLength, Find, ReadBody;
    PullReadsHeader(limit, head, body + more);
    if AnnouncedLength(head).Some? {
      PullReadsBody(limit, head, body, more);
    } else {
      LongNumbersFail(limit, head, body + more);
    }
  }

  lemma CountedShape(f: WireFrame, more: Bytes)
    requires f.Counted?
    ensures Encode(f) + more == Head(f) + CRLF + (f.body + more)
    ensures Head(f) + CRLF == Title(f) + (CRLF + f.extra + CRLF)
    ensures 0 < |Title(f)| + 2 <= |Head(f) + CRLF| && |Head(f) + CRLF| >= 4
  {
    var head := Head(f) + CRLF;
    assert Encode(f) + more == head + (f.body + more);
    assert head == Title(f) + (CRLF + f.extra + CRLF);
  }

  lemma LongNumbersFail(limit: nat, head: Bytes, behind: Bytes)
    requires AnnouncedLength(head).None?
    ensures ReadBody(limit, head, behind) == BadLength
  {
    hide AnnouncedLength;
  }

  /** A number padded beyond what Python converts parts the readers: the push
      decoder still reads the frame, the pull reader refuses it. */
  lemma PaddedLengthsPartReaders(limit: nat, f: WireFrame, more: Bytes)
    requires Counts(f) && |Head(f)| + 2 <= limit && |f.body| <= limit
    ensures NextFrame(Encode(f) + more) == Frame(f.body, more)
    ensures |f.digits| <= DIGIT_LIMIT <==> ReadMessage(limit, Encode(f) + more) == Message(f.body, more)
    ensures |f.digits| > DIGIT_LIMIT ==> ReadMessage(limit, Encode(f) + more) == BadLength
  {
    PushReadsCounted(f, more);
    PullReadsCounted(limit, f, more);
  }

  lemma StripIgnoresNewline(text: Bytes)
    ensures Strip(text + [LF]) == Strip(text)
  {
    var line, n := text + [LF], SpaceRun(text);
    assert text == text[..n] + text[n..];
    if n == |text| {
      assert text[..n] == text && AllSpace(line);
      SpaceRunIs(line, []);
      assert line + [] == line && line[|line|..] == [] && text[n..] == [];
    } else {
      var kept := text[n..];
      SpaceRunIs(text[..n], kept + [LF]);
      assert line == text[..n] + (kept + [LF]);
      assert line[n..] == kept + [LF] && (kept + [LF])[..|kept|] == kept;
    }
  }

  lemma PullReadsLine(limit: nat, text: Bytes, more: Bytes)
    requires WellFormed(limit, Line(text))
    ensures ReadMessage(limit, text + [LF] + more) == Message(Strip(text), more)
  {
    var line := text + [LF];
    var stream := line + more;
    assert stream[|text|..|text| + 1] == [LF];
    assert OccursAt(stream, [LF], |text|);
    forall i | 0 <= i < |text| ensures !OccursAt(stream, [LF], i) {
      assert stream[i..i + 1] == [text[i]];
    }
    assert LineLength(stream, limit + 1) == |line|;
    CutOff(line, more);
    assert !NamedLine(line) by {
      assert forall i :: 0 <= i < |text| ==> line[i] == text[i];
      assert |text| == |LENGTH_NAME| - 1 ==> PythonLower(line[|text|]) != LENGTH_NAME[|text|];
    }
    StripIgnoresNewline(text);
  }

  // ---- whole streams --------------------------------------------------------

  function EncodeAll(frames: seq<WireFrame>): Bytes {
    if frames == [] then [] else Encode(frames[0]) + EncodeAll(frames[1..])
  }

  function Bodies(frames: seq<WireFrame>): (bodies: seq<Bytes>)
    ensures |bodies| == |frames|
    ensures forall i :: 0 <= i < |frames| ==> bodies[i] == Body(frames[i])
  {
    seq(|frames|, i requires 0 <= i < |frames| => Body(frames[i]))
  }

  /** What the pull reader hands to the JSON parser: lines come stripped. */
  function PulledBody(f: WireFrame): Bytes {
    if f.Line? then Strip(f.text) else f.body
  }

  function PulledBodies(frames: seq<WireFrame>): (bodies: seq<Bytes>)
    ensures |bodies| == |frames|
    ensures forall i :: 0 <= i < |frames| ==> bodies[i] == PulledBody(frames[i])
  {
    seq(|frames|, i requires 0 <= i < |frames| => PulledBody(frames[i]))
  }

  lemma PushReadsOne(limit: nat, f: WireFrame, more: Bytes)
    requires WellFormed(limit, f)
    ensures NextFrame(Encode(f) + more) == Frame(Body(f), more)
  {
    if f.Line? { PushReadsLine(f.text, more); } else { PushReadsCounted(f, more); }
  }

  lemma PullReadsOne(limit: nat, f: WireFrame, more: Bytes)
    requires WellFormed(limit, f)
    ensures ReadMessage(limit, Encode(f) + more) == Message(PulledBody(f), more)
  {
    if f.Line? { PullReadsLine(limit, f.text, more); } else { PullReadsCounted(limit, f, more); }
  }

  lemma {:induction false} PushReadsAll(limit: nat, frames: seq<WireFrame>)
    requires forall f :: f in frames ==> WellFormed(limit, f)
    ensures Decode(EncodeAll(frames)) == Decoded(Bodies(frames), [], false)
  {
    hide NextFrame, WellFormed, Encode, Body;
    if frames == [] {
      DecodeNothing();
    } else {
      var f, tail := frames[0], frames[1..];
      PushReadsOne(limit, f, EncodeAll(tail));
      PushReadsAll(limit, tail);
      assert Bodies(frames) == [Body(f)] + Bodies(tail);
    }
  }

  lemma FramesAreSome(f: WireFrame)
    ensures |Encode(f)| > 0
  {
  }

  lemma NothingToRead(limit: nat)
    ensures ReadAll(limit, []) == Some([])
  {
  }

  lemma {:induction false} PullReadsAll(limit: nat, frames: seq<WireFrame>)
    requires forall f :: f in frames ==> WellFormed(limit, f)
    ensures ReadAll(limit, EncodeAll(frames)) == Some(PulledBodies(frames))
  {
    hide ReadMessage, WellFormed, PulledBody, Encode;
    if frames == [] {
      NothingToRead(limit);
    } else {
      var f, tail := frames[0], frames[1..];
      FramesAreSome(f);
      PullReadsOne(limit, f, EncodeAll(tail));
      PullReadsAll(limit, tail);
      assert PulledBodies(frames) == [PulledBody(f)] + PulledBodies(tail);
    }
  }

  lemma {:induction false} StripTwice(s: Bytes)
    ensures Strip(Strip(s)) == Strip(s)
  {
    var left := StripLeft(s);
    assert SpaceRun(left) == 0;
    StripRightIsPrefix(left);
    var both := StripRight(left);
    assert both == [] || both[0] == left[0];
    assert StripLeft(both) == both;
  }

  lemma {:induction false} StripRightIsPrefix(s: Bytes)
    ensures StripRight(s) <= s && StripRight(StripRight(s)) == StripRight(s)
  {
    if s != [] && IsSpace(s[|s| - 1]) { StripRightIsPrefix(s[..|s| - 1]); }
  }

  /** For every list of well-formed frames, in any mix: however the stream is cut
      into chunks that pass the size check, the push decoder yields the framed
      bodies and nothing is left over; the pull reader yields as many bodies, and
      the two agree up to surrounding white space. */
  lemma ReadersAgree(limit: nat, frames: seq<WireFrame>, chunks: seq<Bytes>)
    requires forall f :: f in frames ==> WellFormed(limit, f)
    requires Flatten(chunks) == EncodeAll(frames) && Feed(limit, [], chunks).Some?
    ensures Feed(limit, [], chunks) == Some(Decoded(Bodies(frames), [], false))
    ensures var pulled := ReadAll(limit, EncodeAll(frames));
            pulled.Some? && |pulled.value| == |frames| &&
            forall i :: 0 <= i < |frames| ==> Strip(pulled.value[i]) == Strip(Bodies(frames)[i])
  {
    DecodeNothing();
    FeedIsDecode(limit, [], chunks);
    PushReadsAll(limit, frames);
    PullReadsAll(limit, frames);
    assert [] + Flatten(chunks) == EncodeAll(frames);
    forall i | 0 <= i < |frames| ensures Strip(PulledBodies(frames)[i]) == Strip(Bodies(frames)[i]) {
      if frames[i].Line? { StripTwice(frames[i].text); }
    }
  }

  /** Such chunks exist: frames that fit one by one may arrive one by one. */
  lemma {:induction false} FrameByFrameFits(limit: nat, frames: seq<WireFrame>)
    requires forall f :: f in frames ==> WellFormed(limit, f) && |Encode(f)| <= limit
    ensures var chunks := seq(|frames|, i requires 0 <= i < |frames| => Encode(frames[i]));
            Feed(limit, [], chunks).Some? && Flatten(chunks) == EncodeAll(frames)
  {
    hide WellFormed, Encode, Decode;
    var chunks := seq(|frames|, i requires 0 <= i < |frames| => Encode(frames[i]));
    if frames == [] {
    } else {
      var tail := frames[1..];
      FrameByFrameFits(limit, tail);
      assert chunks[1..] == seq(|tail|, i requires 0 <= i < |tail| => Encode(tail[i]));
      FrameLeavesNothing(limit, frames[0]);
      assert [] + chunks[0] == Encode(frames[0]);
    }
  }

  lemma FrameLeavesNothing(limit: nat, f: WireFrame)
    requires WellFormed(limit, f)
    ensures Decode(Encode(f)).rest == []
  {
    PushReadsOne(limit, f, []);
    DecodeNothing();
    hide NextFrame, Encode, WellFormed;
    assert Encode(f) + [] == Encode(f);
  }

  /** The push decoder waits for the whole frame: no proper beginning of a
      well-formed frame is taken for a frame or for an error. */
  lemma BeginningsWait(limit: nat, f: WireFrame, k: nat)
    requires WellFormed(limit, f) && k < |Encode(f)|
    ensures NextFrame(Encode(f)[..k]) == NeedMore
  {
    hide NextFrame, Encode, WellFormed, Body;
    var part, more := Encode(f)[..k], Encode(f)[k..];
    assert part + more == Encode(f) && Encode(f) + [] == Encode(f);
    PushReadsOne(limit, f, []);
    if !NextFrame(part).NeedMore? { NextFrameStable(part, more); }
  }
}
