/** JSON values as compact text, and a reader that gets them back. */
module JsonText {
  import opened ByteText
  import opened JsonTree

  const QUOTE: byte := 34
  const COMMA: byte := 44
  const COLON: byte := 58
  const BACKSLASH: byte := 92

  const NULL_TEXT: Bytes := [110, 117, 108, 108]
  const TRUE_TEXT: Bytes := [116, 114, 117, 101]
  const FALSE_TEXT: Bytes := [102, 97, 108, 115, 101]

  // ---- writing --------------------------------------------------------------

  function HexDigit(n: nat): byte
    requires n < 16
  {
    if n < 10 then 48 + n else 87 + n
  }

  /** How one byte of a text is written: control characters, the quote and the
      backslash are escaped, by a letter where there is one. */
  function Escape(b: byte): (e: Bytes)
    ensures e != []
  {
    if b == 8 then [BACKSLASH, 98]
    else if b == 9 then [BACKSLASH, 116]
    else if b == 10 then [BACKSLASH, 110]
    else if b == 12 then [BACKSLASH, 102]
    else if b == 13 then [BACKSLASH, 114]
    else if b == QUOTE || b == BACKSLASH then [BACKSLASH, b]
    else if b < 32 then [BACKSLASH, 117, 48, 48, HexDigit(b / 16), HexDigit(b % 16)]
    else [b]
  }

  /** A text behind its opening quote, up to and including the closing one. */
  function Closing(text: Bytes): Bytes {
    if text == [] then [QUOTE] else Escape(text[0]) + Closing(text[1..])
  }

  function Quoted(text: Bytes): Bytes {
    [QUOTE] + Closing(text)
  }

  /** `serde_json::to_vec`. */
  function Serialize(v: Json): Bytes {
    match v
    case Null => NULL_TEXT
    case Bool(flag) => if flag then TRUE_TEXT else FALSE_TEXT
    case Number(digits) => digits
    case Text(text) => Quoted(text)
    case Array(items) => [91] + (if items == [] then [93] else SerializeItems(items))
    case Object(fields) => [123] + (if fields == [] then [125] else SerializeFields(fields))
  }

  /** The elements with commas between them, and the closing bracket. */
  function SerializeItems(items: seq<Json>): Bytes
    requires items != []
  {
    Serialize(items[0]) + (if |items| == 1 then [93] else [COMMA] + SerializeItems(items[1..]))
  }

  function SerializeFields(fields: seq<Field>): Bytes
    requires fields != []
  {
    Quoted(fields[0].name) + [COLON] + Serialize(fields[0].value) +
    (if |fields| == 1 then [125] else [COMMA] + SerializeFields(fields[1..]))
  }

  // ---- reading --------------------------------------------------------------

  datatype Read<T> = Unreadable | Read(value: T, rest: Bytes)

  /** The bytes a number is made of. */
  predicate NumberByte(b: byte) {
    IsDigit(b) || b == 43 || b == 45 || b == 46 || b == 69 || b == 101
  }

  function NumberRun(s: Bytes): (n: nat)
    ensures n <= |s|
  {
    if s == [] || !NumberByte(s[0]) then 0 else 1 + NumberRun(s[1..])
  }

  function HexValue(b: byte): int {
    if 48 <= b <= 57 then b - 48 else if 97 <= b <= 102 then b - 87 else -1
  }

  /** Control characters that have no letter. */
  predicate Unnamed(b: int) {
    0 <= b < 32 && b != 8 && b != 9 && b != 10 && b != 12 && b != 13
  }

  /** One written byte of a text, and what is behind it. Only what `to_vec` writes
      is read: an escape with a letter has no other form. */
  function ReadByte(s: Bytes): (r: Read<byte>)
    ensures r.Read? ==> |r.rest| < |s|
  {
    if s == [] || s[0] < 32 || s[0] == QUOTE then Unreadable
    else if s[0] != BACKSLASH then Read(s[0], s[1..])
    else if |s| < 2 then Unreadable
    else
      match s[1]
      case 98 => Read(8, s[2..])
      case 116 => Read(9, s[2..])
      case 110 => Read(10, s[2..])
      case 102 => Read(12, s[2..])
      case 114 => Read(13, s[2..])
      case 34 => Read(QUOTE, s[2..])
      case 92 => Read(BACKSLASH, s[2..])
      case 117 =>
        if |s| >= 6 && s[2] == 48 && s[3] == 48 && HexValue(s[4]) >= 0 && HexValue(s[5]) >= 0 &&
           Unnamed(16 * HexValue(s[4]) + HexValue(s[5])) then Read(16 * HexValue(s[4]) + HexValue(s[5]), s[6..])
        else Unreadable
      case _ => Unreadable
  }

  function ReadClosing(s: Bytes): (r: Read<Bytes>)
    ensures r.Read? ==> |r.rest| < |s|
    decreases |s|
  {
    if s != [] && s[0] == QUOTE then Read([], s[1..])
    else
      match ReadByte(s)
      case Unreadable => Unreadable
      case Read(b, rest) =>
        match ReadClosing(rest)
        case Unreadable => Unreadable
        case Read(text, behind) => Read([b] + text, behind)
  }

  function ReadWord(s: Bytes, word: Bytes, v: Json): (r: Read<Json>)
    requires word != []
    ensures r.Read? ==> |r.rest| < |s|
  {
    if word <= s then Read(v, s[|word|..]) else Unreadable
  }

  function ReadValue(s: Bytes): (r: Read<Json>)
    ensures r.Read? ==> |r.rest| < |s|
    decreases |s|, 1
  {
    if s == [] then Unreadable
    else if s[0] == 110 then ReadWord(s, NULL_TEXT, Null)
    else if s[0] == 116 then ReadWord(s, TRUE_TEXT, Bool(true))
    else if s[0] == 102 then ReadWord(s, FALSE_TEXT, Bool(false))
    else if s[0] == QUOTE then
      match ReadClosing(s[1..])
      case Unreadable => Unreadable
      case Read(text, rest) => Read(Text(text), rest)
    else if s[0] == 91 then
      if |s| > 1 && s[1] == 93 then Read(Array([]), s[2..])
      else
        match ReadItems(s[1..])
        case Unreadable => Unreadable
        case Read(items, rest) => Read(Array(items), rest)
    else if s[0] == 123 then
      if |s| > 1 && s[1] == 125 then Read(Object([]), s[2..])
      else
        match ReadFields(s[1..])
        case Unreadable => Unreadable
        case Read(fields, rest) => Read(Object(fields), rest)
    else
      var n := NumberRun(s);
      if n == 0 then Unreadable else Read(Number(s[..n]), s[n..])
  }

  function ReadItems(s: Bytes): (r: Read<seq<Json>>)
    ensures r.Read? ==> |r.rest| < |s|
    decreases |s|, 2
  {
    match ReadValue(s)
    case Unreadable => Unreadable
    case Read(v, rest) =>
      if rest == [] then Unreadable
      else if rest[0] == 93 then Read([v], rest[1..])
      else if rest[0] != COMMA then Unreadable
      else
        match ReadItems(rest[1..])
        case Unreadable => Unreadable
        case Read(items, behind) => Read([v] + items, behind)
  }

  function ReadFields(s: Bytes): (r: Read<seq<Field>>)
    ensures r.Read? ==> |r.rest| < |s|
    decreases |s|, 2
  {
    if s == [] || s[0] != QUOTE then Unreadable
    else
      match ReadClosing(s[1..])
      case Unreadable => Unreadable
      case Read(name, named) =>
        if named == [] || named[0] != COLON then Unreadable
        else
          match ReadValue(named[1..])
          case Unreadable => Unreadable
          case Read(v, rest) =>
            if rest == [] then Unreadable
            else if rest[0] == 125 then Read([Field(name, v)], rest[1..])
            else if rest[0] != COMMA then Unreadable
            else
              match ReadFields(rest[1..])
              case Unreadable => Unreadable
              case Read(fields, behind) => Read([Field(name, v)] + fields, behind)
  }

  // ---- reading back what was written ----------------------------------------

  /** Every number is written as numbers are. */
  predicate Numeric(digits: Bytes) {
    digits != [] && forall i :: 0 <= i < |digits| ==> NumberByte(digits[i])
  }

  predicate Plain(v: Json) {
    match v
    case Number(digits) => Numeric(digits)
    case Array(items) => forall i :: 0 <= i < |items| ==> Plain(items[i])
    case Object(fields) => forall i :: 0 <= i < |fields| ==> Plain(fields[i].value)
    case _ => true
  }

  /** What may follow a value without becoming part of it. */
  predicate Separate(rest: Bytes) {
    rest == [] || !NumberByte(rest[0])
  }

  lemma EscapeReads(b: byte, rest: Bytes)
    ensures ReadByte(Escape(b) + rest) == Read(b, rest) && (Escape(b) + rest)[0] != QUOTE
  {
    var s := Escape(b) + rest;
    if |Escape(b)| == 6 {
      assert s[6..] == rest && s[4] == HexDigit(b / 16) && s[5] == HexDigit(b % 16);
    } else if |Escape(b)| == 2 {
      assert s[2..] == rest;
    } else {
      assert s[1..] == rest;
    }
  }

  lemma {:induction false} ClosingReads(text: Bytes, rest: Bytes)
    ensures ReadClosing(Closing(text) + rest) == Read(text, rest)
  {
    if text == [] {
      assert ([QUOTE] + rest)[1..] == rest;
    } else {
      var behind := Closing(text[1..]) + rest;
      assert Closing(text) + rest == Escape(text[0]) + behind;
      EscapeReads(text[0], behind);
      ClosingReads(text[1..], rest);
      hide Escape, Closing, ReadByte;
      assert [text[0]] + text[1..] == text;
    }
  }

  lemma {:induction false} NumberReads(digits: Bytes, rest: Bytes)
    requires (forall i :: 0 <= i < |digits| ==> NumberByte(digits[i])) && Separate(rest)
    ensures NumberRun(digits + rest) == |digits|
  {
    if digits == [] {
      assert digits + rest == rest;
    } else {
      assert (digits + rest)[1..] == digits[1..] + rest && (digits + rest)[0] == digits[0];
      NumberReads(digits[1..], rest);
    }
  }

  lemma WordReads(word: Bytes, v: Json, rest: Bytes)
    requires word != []
    ensures ReadWord(word + rest, word, v) == Read(v, rest)
  {
    assert (word + rest)[|word|..] == rest;
  }

  lemma QuotedReads(text: Bytes, rest: Bytes)
    ensures (Quoted(text) + rest)[0] == QUOTE && ReadClosing((Quoted(text) + rest)[1..]) == Read(text, rest)
  {
    assert (Quoted(text) + rest)[1..] == Closing(text) + rest;
    ClosingReads(text, rest);
  }

  /** No value begins like the end of an array or an object. */
  lemma BeginsWell(v: Json)
    requires Plain(v)
    ensures Serialize(v) != [] && Serialize(v)[0] != 93 && Serialize(v)[0] != 125
  {
    if v.Number? { assert NumberByte(v.digits[0]); }
  }

  // One step of each reader.

  lemma ArrayReads(body: Bytes, items: seq<Json>, rest: Bytes)
    requires body != [] && body[0] != 93 && ReadItems(body) == Read(items, rest)
    ensures ReadValue([91] + body) == Read(Array(items), rest)
  {
    hide ReadItems;
    assert ([91] + body)[1..] == body && ([91] + body)[1] == body[0];
  }

  lemma ObjectReads(body: Bytes, fields: seq<Field>, rest: Bytes)
    requires body != [] && body[0] != 125 && ReadFields(body) == Read(fields, rest)
    ensures ReadValue([123] + body) == Read(Object(fields), rest)
  {
    hide ReadFields;
    assert ([123] + body)[1..] == body && ([123] + body)[1] == body[0];
  }

  lemma LeafReads(v: Json, rest: Bytes)
    requires Plain(v) && Separate(rest)
    requires (v.Array? ==> v.items == []) && (v.Object? ==> v.fields == [])
    ensures ReadValue(Serialize(v) + rest) == Read(v, rest)
  {
    hide ReadItems, ReadFields, ReadClosing, ReadWord, NumberRun;
    var s := Serialize(v) + rest;
    match v
    case Null => WordReads(NULL_TEXT, v, rest);
    case Bool(flag) => WordReads(if flag then TRUE_TEXT else FALSE_TEXT, v, rest);
    case Number(digits) => NumberReadsBack(digits, rest);
    case Text(text) => QuotedReads(text, rest);
    case Array(_) => assert s == [91, 93] + rest && s[2..] == rest;
    case Object(_) => assert s == [123, 125] + rest && s[2..] == rest;
  }

  lemma LastItemReads(s: Bytes, v: Json, rest: Bytes)
    requires ReadValue(s) == Read(v, [93] + rest)
    ensures ReadItems(s) == Read([v], rest)
  {
    hide ReadValue;
    assert ([93] + rest)[1..] == rest;
  }

  lemma ItemReads(s: Bytes, v: Json, more: Bytes, items: seq<Json>, rest: Bytes)
    requires ReadValue(s) == Read(v, [COMMA] + more) && ReadItems(more) == Read(items, rest)
    ensures ReadItems(s) == Read([v] + items, rest)
  {
    hide ReadValue;
    assert ([COMMA] + more)[1..] == more;
  }

  lemma LastFieldReads(s: Bytes, name: Bytes, value: Bytes, v: Json, rest: Bytes)
    requires s != [] && s[0] == QUOTE && ReadClosing(s[1..]) == Read(name, [COLON] + value)
    requires ReadValue(value) == Read(v, [125] + rest)
    ensures ReadFields(s) == Read([Field(name, v)], rest)
  {
    hide ReadValue, ReadClosing;
    assert ([COLON] + value)[1..] == value && ([125] + rest)[1..] == rest;
  }

  lemma FieldReads(s: Bytes, name: Bytes, value: Bytes, v: Json, more: Bytes, fields: seq<Field>, rest: Bytes)
    requires s != [] && s[0] == QUOTE && ReadClosing(s[1..]) == Read(name, [COLON] + value)
    requires ReadValue(value) == Read(v, [COMMA] + more) && ReadFields(more) == Read(fields, rest)
    ensures ReadFields(s) == Read([Field(name, v)] + fields, rest)
  {
    hide ReadValue, ReadClosing;
    assert ([COLON] + value)[1..] == value && ([COMMA] + more)[1..] == more;
  }

  lemma NumberReadsBack(digits: Bytes, rest: Bytes)
    requires Numeric(digits) && Separate(rest)
    ensures ReadValue(digits + rest) == Read(Number(digits), rest)
  {
    var s := digits + rest;
    NumberReads(digits, rest);
    assert s[0] == digits[0] && NumberByte(s[0]);
    assert s[..|digits|] == digits && s[|digits|..] == rest;
  }

  /** Reading a written value gives it back and stops right behind it. */
  lemma {:induction false} ReadsBack(v: Json, rest: Bytes)
    requires Plain(v) && Separate(rest)
    ensures ReadValue(Serialize(v) + rest) == Read(v, rest)
    decreases v, 1
  {
    hide ReadValue, ReadItems, ReadFields, SerializeItems, SerializeFields;
    if v.Array? && v.items != [] {
      var body := SerializeItems(v.items) + rest;
      assert Serialize(v) + rest == [91] + body;
      ItemsReadBack(v.items, rest);
      ItemsBeginWell(v.items);
      assert body[0] == SerializeItems(v.items)[0];
      ArrayReads(body, v.items, rest);
    } else if v.Object? && v.fields != [] {
      var body := SerializeFields(v.fields) + rest;
      assert Serialize(v) + rest == [123] + body;
      FieldsReadBack(v.fields, rest);
      FieldsBeginWell(v.fields);
      assert body[0] == SerializeFields(v.fields)[0];
      ObjectReads(body, v.fields, rest);
    } else {
      LeafReads(v, rest);
    }
  }

  lemma ItemsBeginWell(items: seq<Json>)
    requires items != [] && Plain(items[0])
    ensures SerializeItems(items) != [] && SerializeItems(items)[0] != 93
  {
    BeginsWell(items[0]);
    hide Serialize;
  }

  lemma FieldsBeginWell(fields: seq<Field>)
    requires fields != []
    ensures SerializeFields(fields) != [] && SerializeFields(fields)[0] == QUOTE
  {
  }

  lemma {:induction false} ItemsReadBack(items: seq<Json>, rest: Bytes)
    requires items != [] && forall i :: 0 <= i < |items| ==> Plain(items[i])
    ensures ReadItems(SerializeItems(items) + rest) == Read(items, rest)
    decreases items, 0
  {
    hide ReadValue, ReadItems, Serialize, Plain;
    var s, v := SerializeItems(items) + rest, items[0];
    if |items| == 1 {
      var behind := [93] + rest;
      assert s == Serialize(v) + behind && [v] == items;
      ReadsBack(v, behind);
      LastItemReads(s, v, rest);
    } else {
      var more := SerializeItems(items[1..]) + rest;
      assert s == Serialize(v) + ([COMMA] + more) && [v] + items[1..] == items;
      ReadsBack(v, [COMMA] + more);
      ItemsReadBack(items[1..], rest);
      ItemReads(s, v, more, items[1..], rest);
    }
  }

  lemma {:induction false} FieldsReadBack(fields: seq<Field>, rest: Bytes)
    requires fields != [] && forall i :: 0 <= i < |fields| ==> Plain(fields[i].value)
    ensures ReadFields(SerializeFields(fields) + rest) == Read(fields, rest)
    decreases fields, 0
  {
    hide ReadValue, ReadFields, ReadClosing, Serialize, Quoted, Plain;
    var s, f := SerializeFields(fields) + rest, fields[0];
    if |fields| == 1 {
      var value := Serialize(f.value) + ([125] + rest);
      assert s == Quoted(f.name) + ([COLON] + value) && [f] == fields;
      QuotedReads(f.name, [COLON] + value);
      ReadsBack(f.value, [125] + rest);
      LastFieldReads(s, f.name, value, f.value, rest);
    } else {
      var more := SerializeFields(fields[1..]) + rest;
      var value := Serialize(f.value) + ([COMMA] + more);
      assert s == Quoted(f.name) + ([COLON] + value) && [f] + fields[1..] == fields;
      QuotedReads(f.name, [COLON] + value);
      ReadsBack(f.value, [COMMA] + more);
      FieldsReadBack(fields[1..], rest);
      FieldReads(s, f.name, value, f.value, more, fields[1..], rest);
    }
  }
}
