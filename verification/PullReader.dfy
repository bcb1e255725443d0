/** The pull reader of the Python client: one message at a time from a stream. */
module PullReader {
  import opened Common
  import opened ByteText
  import opened FrameDecoder

  /** The longest header line read in one go. */
  const LINE_LIMIT: nat := 8192

  datatype Read =
    | Message(body: Bytes, rest: Bytes)
    | Closed
    | TooLarge
    | HeaderCut
    | BadLength
    | BodyCut

  function Min(a: nat, b: nat): nat {
    if a <= b then a else b
  }

  lemma NewlinesOccur(s: Bytes)
    ensures forall i :: 0 <= i < |s| && s[i] == LF ==> OccursAt(s, [LF], i)
  {
    forall i | 0 <= i < |s| && s[i] == LF ensures OccursAt(s, [LF], i) { assert s[i..i + 1] == [LF]; }
  }

  /** How many bytes `readline(size)` takes: up to and including the first
      newline, or as many as there are and as were asked for. */
  function LineLength(s: Bytes, size: nat): (n: nat)
    ensures n <= |s| && n <= size
    ensures forall i :: 0 <= i < n - 1 ==> s[i] != LF
    ensures n < |s| && n < size ==> n > 0 && s[n - 1] == LF
  {
    var newline := Find(s, [LF], 0);
    assert forall i :: 0 <= i < |s| && s[i] == LF ==> OccursAt(s, [LF], i) by { NewlinesOccur(s); }
    if 0 <= newline < size then newline + 1 else Min(size, |s|)
  }

  predicate NamedLine(s: Bytes) {
    |LENGTH_NAME| <= |s| &&
    forall i :: 0 <= i < |LENGTH_NAME| ==> PythonLower(s[i]) == LENGTH_NAME[i]
  }

  predicate EndsWith(s: Bytes, suffix: Bytes) {
    |suffix| <= |s| && s[|s| - |suffix|..] == suffix
  }

  /** The header block read line by line, or what stopped it. */
  datatype Header = Complete(headers: Bytes, rest: Bytes) | Stopped(why: Read)

  function ReadHeader(limit: nat, headers: Bytes, rest: Bytes): Header
    decreases |rest|
  {
    if EndsWith(headers, HEADER_END) then Complete(headers, rest)
    else
      var n := LineLength(rest, LINE_LIMIT);
      if n == 0 then Stopped(HeaderCut)
      else if |headers| + n > limit then Stopped(TooLarge)
      else ReadHeader(limit, headers + rest[..n], rest[n..])
  }

  /** The end of the first line of `splitlines()`, which breaks at \n and \r. */
  function LineEnd(s: Bytes): (n: nat)
    ensures n <= |s|
  {
    if s == [] || s[0] == 10 || s[0] == 13 then 0 else 1 + LineEnd(s[1..])
  }

  /** The first header line that names the length. */
  function LengthLine(headers: Bytes): Option<Bytes>
    decreases |headers|
  {
    if headers == [] then None
    else
      var n := LineEnd(headers);
      if NamedLine(headers[..n]) then Some(headers[..n])
      else if n + 1 < |headers| && headers[n] == 13 && headers[n + 1] == 10 then LengthLine(headers[n + 2..])
      else if n < |headers| then LengthLine(headers[n + 1..])
      else None
  }

  /** Digits with single underscores between them. */
  predicate IsNumeral(s: Bytes) {
    s != [] && IsDigit(s[0]) && IsDigit(s[|s| - 1]) &&
    (forall i :: 0 <= i < |s| ==> IsDigit(s[i]) || s[i] == 95) &&
    (forall i :: 0 < i < |s| ==> IsDigit(s[i - 1]) || IsDigit(s[i]))
  }

  function OnlyDigits(s: Bytes): (digits: Bytes)
    ensures AllDigits(digits)
    ensures AllDigits(s) ==> digits == s
  {
    if s == [] then []
    else
      var tail := OnlyDigits(s[1..]);
      assert AllDigits(s) ==> s == [s[0]] + s[1..];
      if IsDigit(s[0]) then [s[0]] + tail else tail
  }

  /** The longest numeral that Python converts, leading zeros included. */
  const DIGIT_LIMIT: nat := 4300

  /** `int(...)` of a byte string. */
  function PythonInt(s: Bytes): Option<int> {
    Signed(Strip(s))
  }

  function Signed(text: Bytes): Option<int> {
    var signed := text != [] && (text[0] == 43 || text[0] == 45);
    var numeral := if signed then text[1..] else text;
    if !IsNumeral(numeral) || |OnlyDigits(numeral)| > DIGIT_LIMIT then None
    else
      var magnitude: int := Decimal(OnlyDigits(numeral));
      Some(if signed && text[0] == 45 then -magnitude else magnitude)
  }

  lemma SignStays(sign: byte, digits: Bytes)
    requires (sign == 43 || sign == 45) && digits != [] && AllDigits(digits)
    ensures Strip([sign] + digits) == [sign] + digits
  {
    var s := [sign] + digits;
    assert SpaceRun(s) == 0 && s[0..] == s;
    assert s[|s| - 1] == digits[|digits| - 1];
  }

  lemma NumeralReads(digits: Bytes)
    requires digits != [] && AllDigits(digits)
    ensures IsNumeral(digits) && OnlyDigits(digits) == digits
  {
  }

  lemma SignedReads(text: Bytes)
    requires text != [] && (text[0] == 43 || text[0] == 45) && text[1..] != [] && AllDigits(text[1..])
    requires |text[1..]| <= DIGIT_LIMIT
    ensures Signed(text).Some?
    ensures Signed(text).value == var n: int := Decimal(text[1..]); if text[0] == 45 then -n else n
  {
    NumeralReads(text[1..]);
    hide Decimal, IsNumeral, OnlyDigits, AllDigits;
  }

  /** A sign is read, and a minus turns the number. */
  lemma SignsCount(sign: byte, digits: Bytes)
    requires (sign == 43 || sign == 45) && digits != [] && |digits| <= DIGIT_LIMIT && AllDigits(digits)
    ensures PythonInt([sign] + digits) == var n: int := Decimal(digits); Some(if sign == 45 then -n else n)
  {
    hide Strip, Signed, Decimal, AllDigits;
    var text := [sign] + digits;
    assert text[0] == sign && text[1..] == digits;
    SignStays(sign, digits);
    SignedReads(text);
  }

  /** The announced length; a block without one counts as -1. */
  function AnnouncedLength(headers: Bytes): Option<int> {
    match LengthLine(headers)
    case None => Some(-1)
    case Some(line) => if |LENGTH_NAME| <= |line| then PythonInt(line[|LENGTH_NAME|..]) else None
  }

  function ReadBody(limit: nat, headers: Bytes, rest: Bytes): Read {
    match AnnouncedLength(headers)
    case None => BadLength
    case Some(length) =>
      if length < 0 || length > limit then BadLength
      else if |rest| < length then BodyCut
      else Message(rest[..length], rest[length..])
  }

  function ReadMessage(limit: nat, stream: Bytes): Read {
    var n := LineLength(stream, limit + 1);
    var first := stream[..n];
    if first == [] then Closed
    else if n > limit then TooLarge
    else if NamedLine(first) then
      match ReadHeader(limit, first, stream[n..])
      case Stopped(why) => why
      case Complete(headers, rest) => ReadBody(limit, headers, rest)
    else Message(Strip(first), stream[n..])
  }

  /** Messages until the stream is empty; `None` when a read fails first. */
  function ReadAll(limit: nat, stream: Bytes): Option<seq<Bytes>>
    decreases |stream|
  {
    if stream == [] then Some([])
    else
      match ReadMessage(limit, stream)
      case Message(body, rest) =>
        if |rest| >= |stream| then None
        else
          var more := ReadAll(limit, rest);
          if more.Some? then Some([body] + more.value) else None
      case _ => None
  }

  lemma {:induction false} HeaderIsSuffix(limit: nat, headers: Bytes, rest: Bytes)
    ensures var h := ReadHeader(limit, headers, rest);
            h.Complete? ==> h.headers + h.rest == headers + rest && (|headers| <= limit ==> |h.headers| <= limit)
    decreases |rest|
  {
    hide LineLength, EndsWith;
    var n := LineLength(rest, LINE_LIMIT);
    if !EndsWith(headers, HEADER_END) && 0 < n && |headers| + n <= limit {
      HeaderIsSuffix(limit, headers + rest[..n], rest[n..]);
      assert headers + rest[..n] + rest[n..] == headers + rest;
    }
  }

  /** A header block that does not end is cut short exactly when the whole stream
      is within the limit, and too large otherwise. */
  lemma {:induction false} StopsMean(limit: nat, headers: Bytes, rest: Bytes)
    requires |headers| <= limit
    ensures var h := ReadHeader(limit, headers, rest);
            h.Stopped? ==> h.why == if |headers| + |rest| <= limit then HeaderCut else TooLarge
    decreases |rest|
  {
    hide EndsWith;
    var n := LineLength(rest, LINE_LIMIT);
    if !EndsWith(headers, HEADER_END) && 0 < n && |headers| + n <= limit {
      StopsMean(limit, headers + rest[..n], rest[n..]);
    }
  }

  /** Only an empty stream counts as closed, and an over-long line as too large. */
  lemma FirstLineDecides(limit: nat, stream: Bytes)
    ensures ReadMessage(limit, stream) == Closed <==> stream == []
    ensures LineLength(stream, limit + 1) > limit ==> ReadMessage(limit, stream) == TooLarge
  {
    var n := LineLength(stream, limit + 1);
    var first, behind := stream[..n], stream[n..];
    if n <= limit { StopsMean(limit, first, behind); }
    hide NamedLine, ReadHeader, AnnouncedLength, Strip;
  }

  lemma {:induction false} StripIsShort(s: Bytes)
    ensures |StripRight(s)| <= |s|
  {
    if s != [] && IsSpace(s[|s| - 1]) { StripIsShort(s[..|s| - 1]); }
  }

  /** A counted body is refused exactly when its length is missing, unreadable or
      above the limit, and otherwise cut short exactly when the stream is. */
  lemma BodiesAreChecked(limit: nat, headers: Bytes, rest: Bytes)
    ensures var length := AnnouncedLength(headers);
            var r := ReadBody(limit, headers, rest);
            && (r == BadLength <==> length.None? || length.value < 0 || length.value > limit)
            && (r == BodyCut <==> length.Some? && 0 <= length.value <= limit && |rest| < length.value)
            && (r.Message? ==> length == Some(|r.body|) && |r.body| <= limit && r.body + r.rest == rest)
  {
    hide AnnouncedLength;
  }

  lemma LinesAreSmall(line: Bytes)
    ensures |Strip(line)| <= |line|
  {
    StripIsShort(StripLeft(line));
  }

  lemma CountedIsSmall(limit: nat, first: Bytes, behind: Bytes)
    requires first != [] && ReadHeader(limit, first, behind).Complete?
    requires var h := ReadHeader(limit, first, behind); ReadBody(limit, h.headers, h.rest).Message?
    ensures var h := ReadHeader(limit, first, behind);
            var r := ReadBody(limit, h.headers, h.rest);
            var stream := first + behind;
            |r.body| <= limit && |r.rest| < |stream| && r.rest == stream[|stream| - |r.rest|..]
  {
    hide ReadHeader, ReadBody, AnnouncedLength, EndsWith, LineLength;
    HeaderIsSuffix(limit, first, behind);
    HeaderGrows(limit, first, behind);
    var h := ReadHeader(limit, first, behind);
    var r := ReadBody(limit, h.headers, h.rest);
    BodiesAreChecked(limit, h.headers, h.rest);
    BehindBoth(h.headers, r.body, r.rest, h.rest, first + behind);
  }

  lemma BehindBoth(front: Bytes, middle: Bytes, rest: Bytes, both: Bytes, all: Bytes)
    requires middle + rest == both && front + both == all && front != []
    ensures |rest| < |all| && rest == all[|all| - |rest|..]
  {
  }

  /** A message is never above the limit, and what is left is a proper suffix of the
      stream. */
  lemma MessagesAreSmall(limit: nat, stream: Bytes)
    requires ReadMessage(limit, stream).Message?
    ensures var r := ReadMessage(limit, stream);
            |r.body| <= limit && |r.rest| < |stream| && r.rest == stream[|stream| - |r.rest|..]
  {
    hide NamedLine, Strip, ReadHeader, ReadBody, LineLength;
    var n := LineLength(stream, limit + 1);
    var first, behind := stream[..n], stream[n..];
    if NamedLine(first) {
      assert first + behind == stream;
      HeaderGrows(limit, first, behind);
      CountedIsSmall(limit, first, behind);
    } else {
      LinesAreSmall(first);
    }
  }

  lemma {:induction false} HeaderGrows(limit: nat, headers: Bytes, rest: Bytes)
    ensures var h := ReadHeader(limit, headers, rest);
            if h.Complete? then |headers| <= |h.headers| else !h.why.Message?
    decreases |rest|
  {
    hide LineLength, EndsWith;
    var n := LineLength(rest, LINE_LIMIT);
    if !EndsWith(headers, HEADER_END) && 0 < n && |headers| + n <= limit {
      HeaderGrows(limit, headers + rest[..n], rest[n..]);
    }
  }

  class Reader {
    const maxFrameBytes: nat
    var stream: Bytes

    constructor (maxFrameBytes: nat, stream: Bytes)
      ensures this.maxFrameBytes == maxFrameBytes && this.stream == stream
    {
      this.maxFrameBytes := maxFrameBytes;
      this.stream := stream;
    }

    method ReadLine(size: nat) returns (line: Bytes)
      modifies this
      ensures line + stream == old(stream) && |line| <= size
      ensures forall i :: 0 <= i < |line| - 1 ==> line[i] != LF
      ensures |line| < size && stream != [] ==> line != [] && line[|line| - 1] == LF
      ensures |line| == LineLength(old(stream), size)
    {
      var n := LineLength(stream, size);
      line, stream := stream[..n], stream[n..];
    }

    /** `_read_message`: the message and the stream behind it are those of
        `ReadMessage`; a failed read leaves the stream part-way. */
    method Next() returns (r: Read)
      modifies this
      ensures r == ReadMessage(maxFrameBytes, old(stream))
      ensures r.Message? ==> stream == r.rest
    {
      hide NamedLine, ReadBody;
      var first := ReadLine(maxFrameBytes + 1);
      if first == [] { return Closed; }
      if |first| > maxFrameBytes { return TooLarge; }
      if !NamedLine(first) { return Message(Strip(first), stream); }
      var headers := first;
      while !EndsWith(headers, HEADER_END)
        invariant ReadHeader(maxFrameBytes, headers, stream) == ReadHeader(maxFrameBytes, first, old(stream)[|first|..])
        decreases |stream|
      {
        var line := ReadLine(LINE_LIMIT);
        if line == [] { return HeaderCut; }
        if |headers| + |line| > maxFrameBytes { return TooLarge; }
        headers := headers + line;
      }
      r := ReadBody(maxFrameBytes, headers, stream);
      if r.Message? { stream := r.rest; }
    }
  }
}
