/** The order of text: byte by byte, a prefix first. */
module TextOrder {
  import opened ByteText

  datatype Order = Less | Equal | Greater {
    function Flip(): Order {
      match this
      case Less => Greater
      case Equal => Equal
      case Greater => Less
    }
  }

  function CompareInt(a: int, b: int): Order {
    if a < b then Less else if a == b then Equal else Greater
  }

  function Compare(a: Bytes, b: Bytes): Order {
    if a == [] then (if b == [] then Equal else Less)
    else if b == [] then Greater
    else if a[0] != b[0] then CompareInt(a[0], b[0])
    else Compare(a[1..], b[1..])
  }

  lemma {:induction false} CompareFlips(a: Bytes, b: Bytes)
    ensures Compare(b, a) == Compare(a, b).Flip()
  {
    if a != [] && b != [] && a[0] == b[0] { CompareFlips(a[1..], b[1..]); }
  }

  lemma {:induction false} CompareIsEqual(a: Bytes, b: Bytes)
    ensures Compare(a, b) == Equal <==> a == b
  {
    if a != [] && b != [] && a[0] == b[0] {
      CompareIsEqual(a[1..], b[1..]);
      assert a == [a[0]] + a[1..] && b == [b[0]] + b[1..];
    }
  }

  lemma {:induction false} CompareChains(a: Bytes, b: Bytes, c: Bytes)
    requires Compare(a, b) != Greater && Compare(b, c) != Greater
    ensures Compare(a, c) == (if Compare(a, b) == Equal then Compare(b, c) else Less)
  {
    if Compare(a, b) == Equal {
      CompareIsEqual(a, b);
    } else if a != [] && b != [] && c != [] && a[0] == b[0] == c[0] {
      CompareChains(a[1..], b[1..], c[1..]);
    }
  }

  predicate AtMost(a: Bytes, b: Bytes) {
    Compare(a, b) != Greater
  }

  /** A proper prefix, or the smaller byte where the two first differ. */
  ghost predicate TextBefore(a: Bytes, b: Bytes) {
    a < b || exists i :: 0 <= i < |a| && i < |b| && a[..i] == b[..i] && a[i] < b[i]
  }

  lemma {:induction false} CompareMeans(a: Bytes, b: Bytes)
    ensures Compare(a, b) == Less <==> TextBefore(a, b)
  {
    if a == [] || b == [] {
    } else if a[0] != b[0] {
      if a[0] < b[0] { assert a[..0] == b[..0]; }
      assert forall i :: 0 < i < |a| && i < |b| && a[..i] == b[..i] ==> a[..i][0] == b[..i][0];
    } else {
      CompareMeans(a[1..], b[1..]);
      var c, d := a[1..], b[1..];
      assert a == [a[0]] + c && b == [b[0]] + d;
      if i :| 0 <= i < |c| && i < |d| && c[..i] == d[..i] && c[i] < d[i] {
        assert a[..i + 1] == [a[0]] + c[..i] && b[..i + 1] == [b[0]] + d[..i];
        assert a[i + 1] < b[i + 1];
      }
      if i :| 0 <= i < |a| && i < |b| && a[..i] == b[..i] && a[i] < b[i] {
        assert c[..i - 1] == a[..i][1..] && d[..i - 1] == b[..i][1..];
        assert c[i - 1] < d[i - 1];
      }
    }
  }
}
