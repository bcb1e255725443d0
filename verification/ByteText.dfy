/** Byte strings as both protocol clients see them: searching, ASCII case
    folding, white space and decimal numerals. */
module ByteText {

  type byte = b: int | 0 <= b < 256
  type Bytes = seq<byte>

  const LF: byte := 10
  const CRLF: Bytes := [13, 10]
  const HEADER_END: Bytes := [13, 10, 13, 10]

  /** The bytes of "content-length:". */
  const LENGTH_NAME: Bytes :=
    [99, 111, 110, 116, 101, 110, 116, 45, 108, 101, 110, 103, 116, 104, 58]

  /** What `Buffer.toString("ascii").toLowerCase()` makes of one byte: Node
      drops the high bit before the case fold. */
  function NodeLower(b: byte): byte {
    var c := b % 128;
    if 65 <= c <= 90 then c + 32 else c
  }

  /** What `bytes.lower()` makes of one byte. */
  function PythonLower(b: byte): byte {
    if 65 <= b <= 90 then b + 32 else b
  }

  predicate IsSpace(b: byte) {
    b == 32 || 9 <= b <= 13
  }

  predicate IsDigit(b: byte) {
    48 <= b <= 57
  }

  predicate AllSpace(s: Bytes) {
    forall i :: 0 <= i < |s| ==> IsSpace(s[i])
  }

  predicate AllDigits(s: Bytes) {
    forall i :: 0 <= i < |s| ==> IsDigit(s[i])
  }

  /** Whether `pat` occurs in `s` at index `i`. */
  predicate OccursAt(s: Bytes, pat: Bytes, i: int) {
    0 <= i <= |s| - |pat| && s[i..i + |pat|] == pat
  }

  /** `indexOf` from a position: the first occurrence, or -1. */
  function Find(s: Bytes, pat: Bytes, from: nat): (r: int)
    ensures r == -1 || (from <= r && OccursAt(s, pat, r))
    ensures forall i :: from <= i && (r == -1 || i < r) ==> !OccursAt(s, pat, i)
    decreases |s| - from
  {
    if from > |s| - |pat| then -1
    else if s[from..from + |pat|] == pat then from
    else Find(s, pat, from + 1)
  }

  /** An occurrence stays the first one when bytes are appended. */
  lemma FindStable(s: Bytes, more: Bytes, pat: Bytes, from: nat)
    requires pat != [] && Find(s, pat, from) >= 0
    ensures Find(s + more, pat, from) == Find(s, pat, from)
  {
    var r := Find(s, pat, from);
    assert (s + more)[r..r + |pat|] == s[r..r + |pat|];
    assert OccursAt(s + more, pat, r);
    forall i | from <= i < r ensures !OccursAt(s + more, pat, i) {
      assert (s + more)[i..i + |pat|] == s[i..i + |pat|];
      assert OccursAt(s + more, pat, i) ==> OccursAt(s, pat, i);
    }
  }

  /** The length of the white space (or digits) that `s` begins with. */
  function SpaceRun(s: Bytes): (n: nat)
    ensures n <= |s| && AllSpace(s[..n]) && (n < |s| ==> !IsSpace(s[n]))
  {
    if s == [] || !IsSpace(s[0]) then 0
    else
      assert forall i :: 0 < i < |s| ==> s[i] == s[1..][i - 1];
      1 + SpaceRun(s[1..])
  }

  function DigitRun(s: Bytes): (n: nat)
    ensures n <= |s| && AllDigits(s[..n]) && (n < |s| ==> !IsDigit(s[n]))
  {
    if s == [] || !IsDigit(s[0]) then 0
    else
      assert forall i :: 0 < i < |s| ==> s[i] == s[1..][i - 1];
      1 + DigitRun(s[1..])
  }

  /** A run of white space (or digits) ends where a byte of another kind stands. */
  lemma SpaceRunIs(run: Bytes, rest: Bytes)
    requires AllSpace(run) && (rest == [] || !IsSpace(rest[0]))
    ensures SpaceRun(run + rest) == |run|
  {
    if run == [] {
      assert run + rest == rest;
    } else {
      assert (run + rest)[1..] == run[1..] + rest && (run + rest)[0] == run[0];
      SpaceRunIs(run[1..], rest);
    }
  }

  lemma DigitRunIs(run: Bytes, rest: Bytes)
    requires AllDigits(run) && (rest == [] || !IsDigit(rest[0]))
    ensures DigitRun(run + rest) == |run|
  {
    if run == [] {
      assert run + rest == rest;
    } else {
      assert (run + rest)[1..] == run[1..] + rest && (run + rest)[0] == run[0];
      DigitRunIs(run[1..], rest);
    }
  }

  function Decimal(digits: Bytes): nat
    requires AllDigits(digits)
  {
    if digits == [] then 0
    else 10 * Decimal(digits[..|digits| - 1]) + (digits[|digits| - 1] - 48)
  }

  /** `strip()`: the bytes between the outermost white space. */
  function StripLeft(s: Bytes): Bytes {
    s[SpaceRun(s)..]
  }

  function StripRight(s: Bytes): Bytes {
    if s == [] || !IsSpace(s[|s| - 1]) then s else StripRight(s[..|s| - 1])
  }

  function Strip(s: Bytes): Bytes {
    StripRight(StripLeft(s))
  }
}
