/** Browser versions: component-wise comparison and inclusive ranges. */
module VersionOrder {
  import opened Common
  import opened ByteText
  import opened TextOrder

  const U64_LIMIT: nat := 0x1_0000_0000_0000_0000

  predicate IsSeparator(b: byte) {
    b == 46 || b == 45 || b == 43
  }

  /** `split(['.', '-', '+'])`: at least one component, possibly empty ones. */
  function Split(s: Bytes): (parts: seq<Bytes>)
    ensures parts != []
  {
    if s == [] then [[]]
    else
      var rest := Split(s[1..]);
      if IsSeparator(s[0]) then [[]] + rest else [[s[0]] + rest[0]] + rest[1..]
  }

  function Separators(s: Bytes): Bytes {
    if s == [] then []
    else if IsSeparator(s[0]) then [s[0]] + Separators(s[1..])
    else Separators(s[1..])
  }

  function Rejoin(parts: seq<Bytes>, separators: Bytes): Bytes
    requires |parts| == |separators| + 1
  {
    if separators == [] then parts[0] else parts[0] + [separators[0]] + Rejoin(parts[1..], separators[1..])
  }

  /** The components hold no separator, and with the separators put back between
      them they are the version again. */
  lemma {:induction false} SplitRejoins(s: Bytes)
    ensures |Split(s)| == |Separators(s)| + 1 && Rejoin(Split(s), Separators(s)) == s
    ensures forall i, j :: 0 <= i < |Split(s)| && 0 <= j < |Split(s)[i]| ==>
              Split(s)[i][j] != 43 && Split(s)[i][j] != 45 && Split(s)[i][j] != 46
    ensures forall b :: b in Separators(s) ==> b == 43 || b == 45 || b == 46
  {
    if s != [] {
      var rest := Split(s[1..]);
      SplitRejoins(s[1..]);
      if IsSeparator(s[0]) {
        assert Split(s)[1..] == rest && Separators(s)[1..] == Separators(s[1..]);
        assert forall i :: 0 < i < |Split(s)| ==> Split(s)[i] == rest[i - 1];
      } else {
        assert Split(s)[1..] == rest[1..];
        assert forall i :: 0 < i < |Split(s)| ==> Split(s)[i] == rest[i];
        assert forall j :: 0 < j < |Split(s)[0]| ==> Split(s)[0][j] == rest[0][j - 1];
      }
    }
  }

  /** Components that parse as `u64`; a sign cannot occur, it separates. */
  predicate Numeral(part: Bytes) {
    part != [] && AllDigits(part) && Decimal(part) < U64_LIMIT
  }

  function ComparePart(a: Bytes, b: Bytes): Order {
    if Numeral(a) && Numeral(b) then CompareInt(Decimal(a), Decimal(b)) else Compare(a, b)
  }

  function CompareParts(a: seq<Bytes>, b: seq<Bytes>): Order {
    if a == [] || b == [] then CompareInt(|a|, |b|)
    else if ComparePart(a[0], b[0]) == Equal then CompareParts(a[1..], b[1..])
    else ComparePart(a[0], b[0])
  }

  function CompareVersions(a: Bytes, b: Bytes): Order {
    CompareParts(Split(a), Split(b))
  }

  /** The loop over paired components. */
  method CompareVersionStrings(left: Bytes, right: Bytes) returns (r: Order)
    ensures r == CompareVersions(left, right)
  {
    hide Split, ComparePart;
    var a, b := Split(left), Split(right);
    var n := if |a| <= |b| then |a| else |b|;
    assert a[0..] == a && b[0..] == b;
    for i := 0 to n
      invariant CompareParts(a, b) == CompareParts(a[i..], b[i..])
    {
      var order := ComparePart(a[i], b[i]);
      assert a[i..][1..] == a[i + 1..] && b[i..][1..] == b[i + 1..];
      if order != Equal { return order; }
    }
    r := CompareInt(|a|, |b|);
  }

  /** On all strings: swapping the sides flips the answer, and every version
      equals itself. */
  lemma {:induction false} PartsFlip(a: seq<Bytes>, b: seq<Bytes>)
    ensures CompareParts(b, a) == CompareParts(a, b).Flip()
  {
    if a != [] && b != [] {
      CompareFlips(a[0], b[0]);
      PartsFlip(a[1..], b[1..]);
    }
  }

  lemma VersionsFlip(a: Bytes, b: Bytes)
    ensures CompareVersions(b, a) == CompareVersions(a, b).Flip()
    ensures CompareVersions(a, a) == Equal
  {
    PartsFlip(Split(a), Split(b));
    PartsFlip(Split(a), Split(a));
  }

  predicate AllNumerals(parts: seq<Bytes>) {
    forall i :: 0 <= i < |parts| ==> Numeral(parts[i])
  }

  predicate Numeric(version: Bytes) {
    AllNumerals(Split(version))
  }

  lemma {:induction false} PartsChain(a: seq<Bytes>, b: seq<Bytes>, c: seq<Bytes>)
    requires AllNumerals(a) && AllNumerals(b) && AllNumerals(c)
    requires CompareParts(a, b) != Greater && CompareParts(b, c) != Greater
    ensures CompareParts(a, c) ==
            if CompareParts(a, b) == Equal && CompareParts(b, c) == Equal then Equal else Less
  {
    hide Decimal;
    if a != [] && b != [] && c != [] {
      assert Numeral(a[0]) && Numeral(b[0]) && Numeral(c[0]);
      if ComparePart(a[0], b[0]) == Equal && ComparePart(b[0], c[0]) == Equal {
        PartsChain(a[1..], b[1..], c[1..]);
      }
    }
  }

  /** Numeric versions are totally preordered. */
  lemma NumericVersionsChain(a: Bytes, b: Bytes, c: Bytes)
    requires Numeric(a) && Numeric(b) && Numeric(c)
    requires CompareVersions(a, b) != Greater && CompareVersions(b, c) != Greater
    ensures CompareVersions(a, c) ==
            if CompareVersions(a, b) == Equal && CompareVersions(b, c) == Equal then Equal else Less
  {
    PartsChain(Split(a), Split(b), Split(c));
  }

  // ---- what the comparison means --------------------------------------------

  ghost predicate PartBefore(a: Bytes, b: Bytes) {
    if Numeral(a) && Numeral(b) then Decimal(a) < Decimal(b) else TextBefore(a, b)
  }

  predicate SamePart(a: Bytes, b: Bytes) {
    a == b || (Numeral(a) && Numeral(b) && Decimal(a) == Decimal(b))
  }

  lemma PartMeans(a: Bytes, b: Bytes)
    ensures ComparePart(a, b) == Less <==> PartBefore(a, b)
    ensures ComparePart(a, b) == Equal <==> SamePart(a, b)
  {
    CompareMeans(a, b);
    CompareIsEqual(a, b);
    hide Compare, TextBefore, Decimal;
  }

  /** At `k` the versions part: all components before are the same, and there `a`
      has run out and `b` has not, or `a` has the smaller component. */
  ghost predicate PartsAt(a: seq<Bytes>, b: seq<Bytes>, k: nat) {
    && k <= |a| && k < |b| && (forall i :: 0 <= i < k ==> SamePart(a[i], b[i]))
    && (k < |a| ==> PartBefore(a[k], b[k]))
  }

  ghost predicate VersionBefore(a: Bytes, b: Bytes) {
    exists k :: PartsAt(Split(a), Split(b), k)
  }

  lemma {:induction false} PartsLessExactly(a: seq<Bytes>, b: seq<Bytes>)
    ensures CompareParts(a, b) == Less <==> exists k :: PartsAt(a, b, k)
  {
    hide SamePart, PartBefore, ComparePart;
    if a == [] || b == [] {
      assert PartsAt(a, b, 0) <==> a == [] && b != [];
    } else {
      PartMeans(a[0], b[0]);
      PartsLessExactly(a[1..], b[1..]);
      if PartBefore(a[0], b[0]) { assert PartsAt(a, b, 0); }
      if k: nat :| PartsAt(a[1..], b[1..], k) {
        assert forall i :: 0 < i < k + 1 ==> a[i] == a[1..][i - 1] && b[i] == b[1..][i - 1];
        assert SamePart(a[0], b[0]) ==> PartsAt(a, b, k + 1);
      }
      if k: nat :| PartsAt(a, b, k) {
        if k > 0 {
          assert forall i :: 0 <= i < k - 1 ==> a[1..][i] == a[i + 1] && b[1..][i] == b[i + 1];
          assert PartsAt(a[1..], b[1..], k - 1);
        }
      }
    }
  }

  /** A version is less exactly when it comes before: by the first component that
      differs, as numbers or as text, or as the shorter one where none does. */
  lemma VersionsMean(a: Bytes, b: Bytes)
    ensures CompareVersions(a, b) == Less <==> VersionBefore(a, b)
    ensures CompareVersions(a, b) == Greater <==> VersionBefore(b, a)
  {
    PartsLessExactly(Split(a), Split(b));
    PartsLessExactly(Split(b), Split(a));
    PartsFlip(Split(a), Split(b));
    hide PartsAt, CompareParts;
  }

  // ---- ranges ---------------------------------------------------------------

  datatype Range = Range(family: Bytes, minimum: Option<Bytes>, maximum: Option<Bytes>)

  predicate Contains(r: Range, family: Bytes, version: Option<Bytes>) {
    r.family == family &&
    (version.Some? ==>
      (r.minimum.Some? ==> CompareVersions(version.value, r.minimum.value) != Less) &&
      (r.maximum.Some? ==> CompareVersions(version.value, r.maximum.value) != Greater))
  }

  /** A range contains exactly the versions of its family that come neither before
      its minimum nor after its maximum, and an unknown version of its family. */
  lemma ContainsExactly(r: Range, family: Bytes, version: Option<Bytes>)
    ensures Contains(r, family, version) <==>
            && family == r.family
            && (version.Some? && r.minimum.Some? ==> !VersionBefore(version.value, r.minimum.value))
            && (version.Some? && r.maximum.Some? ==> !VersionBefore(r.maximum.value, version.value))
  {
    if version.Some? {
      if r.minimum.Some? { VersionsMean(version.value, r.minimum.value); }
      if r.maximum.Some? { VersionsMean(version.value, r.maximum.value); }
    }
    hide CompareVersions, VersionBefore;
  }

  /** The check of `validate` on the two ends. */
  predicate EndsInOrder(r: Range) {
    r.minimum.Some? && r.maximum.Some? ==> CompareVersions(r.minimum.value, r.maximum.value) != Greater
  }

  predicate NumericEnds(r: Range) {
    (r.minimum.Some? ==> Numeric(r.minimum.value)) && (r.maximum.Some? ==> Numeric(r.maximum.value))
  }

  /** A numeric range has no holes: it contains every numeric version between two
      that it contains. */
  lemma RangesAreConvex(r: Range, low: Bytes, mid: Bytes, high: Bytes)
    requires NumericEnds(r) && Numeric(low) && Numeric(mid) && Numeric(high)
    requires Contains(r, r.family, Some(low)) && Contains(r, r.family, Some(high))
    requires CompareVersions(low, mid) != Greater && CompareVersions(mid, high) != Greater
    ensures Contains(r, r.family, Some(mid))
  {
    hide Numeric;
    if r.minimum.Some? {
      VersionsFlip(low, r.minimum.value);
      VersionsFlip(mid, r.minimum.value);
      NumericVersionsChain(r.minimum.value, low, mid);
    }
    if r.maximum.Some? { NumericVersionsChain(mid, high, r.maximum.value); }
  }

  /** A range whose ends are in order contains its ends, whatever the strings. */
  lemma OrderedRangesContainTheirEnds(r: Range)
    requires EndsInOrder(r)
    ensures r.minimum.Some? ==> Contains(r, r.family, r.minimum)
    ensures r.maximum.Some? ==> Contains(r, r.family, r.maximum)
  {
    if r.minimum.Some? { VersionsFlip(r.minimum.value, r.minimum.value); }
    if r.maximum.Some? {
      VersionsFlip(r.maximum.value, r.maximum.value);
      if r.minimum.Some? { VersionsFlip(r.minimum.value, r.maximum.value); }
    }
  }

  /** For numeric ends, a range with two ends contains a numeric version exactly
      when `validate` finds the ends in order. */
  lemma NonEmptyExactly(r: Range)
    requires r.minimum.Some? && r.maximum.Some? && NumericEnds(r)
    ensures EndsInOrder(r) <==> exists v :: Numeric(v) && Contains(r, r.family, Some(v))
  {
    hide Numeric;
    if EndsInOrder(r) {
      OrderedRangesContainTheirEnds(r);
      assert Contains(r, r.family, Some(r.minimum.value));
    }
    if v :| Numeric(v) && Contains(r, r.family, Some(v)) {
      VersionsFlip(v, r.minimum.value);
      NumericVersionsChain(r.minimum.value, v, r.maximum.value);
    }
  }

  // ---- mixed components -----------------------------------------------------

  /** `a <= b <= c` implies `a <= c`. */
  predicate Chains(a: Bytes, b: Bytes, c: Bytes) {
    ComparePart(a, b) != Greater && ComparePart(b, c) != Greater ==> ComparePart(a, c) != Greater
  }

  predicate ChainsEveryWay(a: Bytes, b: Bytes, c: Bytes) {
    Chains(a, b, c) && Chains(a, c, b) && Chains(b, a, c) && Chains(b, c, a) && Chains(c, a, b) && Chains(c, b, a)
  }

  lemma TextChains(a: Bytes, b: Bytes, c: Bytes)
    requires ComparePart(a, b) == Compare(a, b) && ComparePart(b, c) == Compare(b, c)
    requires ComparePart(a, c) == Compare(a, c)
    ensures Chains(a, b, c)
  {
    hide Decimal;
    if Compare(a, b) != Greater && Compare(b, c) != Greater { CompareChains(a, b, c); }
  }

  lemma {:induction false} JustAbove(a: Bytes, b: Bytes)
    requires Compare(a, b) == Less && 0 !in b
    ensures Compare(a, a + [0]) == Less && Compare(a + [0], b) == Less
  {
    if a != [] {
      assert (a + [0])[1..] == a[1..] + [0];
      if a[0] == b[0] {
        assert forall x :: x in b[1..] ==> x in b;
        JustAbove(a[1..], b[1..]);
      } else {
        AboveItself(a);
      }
    }
  }

  lemma {:induction false} AboveItself(a: Bytes)
    ensures Compare(a, a + [0]) == Less
  {
    if a != [] {
      assert (a + [0])[1..] == a[1..] + [0];
      AboveItself(a[1..]);
    }
  }

  /** Exactly which pairs of numerals make the order intransitive in the presence
      of components that are no numerals: those whose order as text is not their
      order as numbers. */
  lemma MixedComponentsExactly(p: Bytes, q: Bytes)
    requires Numeral(p) && Numeral(q)
    ensures (forall r :: !Numeral(r) ==> ChainsEveryWay(p, q, r)) <==> ComparePart(p, q) == Compare(p, q)
  {
    CompareFlips(p, q);
    assert ComparePart(q, p) == ComparePart(p, q).Flip();
    if ComparePart(p, q) == Compare(p, q) {
      forall r | !Numeral(r) ensures ChainsEveryWay(p, q, r) {
        hide Numeral;
        TextChains(p, q, r); TextChains(p, r, q); TextChains(q, p, r);
        TextChains(q, r, p); TextChains(r, p, q); TextChains(r, q, p);
      }
    } else {
      CompareIsEqual(p, q);
      if Compare(p, q) == Less { Intruder(p, q); } else { Intruder(q, p); }
    }
  }

  /** Between two numerals whose text is in the other order there is a component
      that breaks the chain. */
  lemma Intruder(p: Bytes, q: Bytes)
    requires Numeral(p) && Numeral(q) && Compare(p, q) == Less && ComparePart(p, q) != Less
    ensures exists r :: !Numeral(r) && !ChainsEveryWay(p, q, r) && !ChainsEveryWay(q, p, r)
  {
    var r := p + [0];
    assert !IsDigit(r[|p|]);
    assert forall x :: x in q ==> IsDigit(x);
    JustAbove(p, q);
    CompareFlips(r, q);
    assert !Numeral(r) && ComparePart(p, r) == Less && ComparePart(r, q) == Less;
    assert ComparePart(q, p) != Greater && !Chains(q, p, r);
  }

  /** The numerals are ordered differently as text, and `r` comes between them. */
  predicate Torn(p: Bytes, q: Bytes, r: Bytes) {
    Numeral(p) && Numeral(q) && !Numeral(r) && ComparePart(p, q) != Compare(p, q) && Compare(p, r) != Compare(q, r)
  }

  lemma PartFlips(a: Bytes, b: Bytes)
    ensures ComparePart(b, a) == ComparePart(a, b).Flip()
    ensures !(Numeral(a) && Numeral(b)) ==> ComparePart(a, b) == Compare(a, b)
  {
    hide Numeral;
    CompareFlips(a, b);
  }

  /** Two numerals and another component. */
  lemma TwoNumeralsExactly(p: Bytes, q: Bytes, r: Bytes)
    requires Numeral(p) && Numeral(q) && !Numeral(r)
    ensures ChainsEveryWay(p, q, r) <==> !Torn(p, q, r)
  {
    CompareIsEqual(p, r);
    CompareIsEqual(q, r);
    PartFlips(p, q);
    PartFlips(p, r);
    PartFlips(q, r);
    CompareFlips(p, q);
    hide Numeral, Compare;
    if ComparePart(p, q) == Compare(p, q) {
      TextChains(p, q, r); TextChains(p, r, q); TextChains(q, p, r);
      TextChains(q, r, p); TextChains(r, p, q); TextChains(r, q, p);
    } else {
      if Compare(p, r) == Less && Compare(r, q) == Less { CompareChains(p, r, q); }
      if Compare(q, r) == Less && Compare(r, p) == Less { CompareChains(q, r, p); }
      CompareIsEqual(p, q);
    }
  }

  /** Components of one kind, or one numeral among others, compare as one order. */
  lemma OneOrder(x: Bytes, y: Bytes, z: Bytes)
    requires (Numeral(x) && Numeral(y) && Numeral(z)) ||
             (ComparePart(x, y) == Compare(x, y) && ComparePart(y, z) == Compare(y, z) &&
              ComparePart(x, z) == Compare(x, z))
    ensures ChainsEveryWay(x, y, z)
  {
    if !(Numeral(x) && Numeral(y) && Numeral(z)) {
      PartFlips(x, y); PartFlips(y, z); PartFlips(x, z);
      CompareFlips(x, y); CompareFlips(y, z); CompareFlips(x, z);
      hide Numeral, Compare;
      TextChains(x, y, z); TextChains(x, z, y); TextChains(y, x, z);
      TextChains(y, z, x); TextChains(z, x, y); TextChains(z, y, x);
    }
  }

  /** Three components compare as one order exactly when no two numerals among
      them are torn apart by the third. */
  lemma ComponentsChainExactly(x: Bytes, y: Bytes, z: Bytes)
    ensures ChainsEveryWay(x, y, z) <==> !Torn(x, y, z) && !Torn(y, z, x) && !Torn(z, x, y)
  {
    PartFlips(x, y); PartFlips(y, z); PartFlips(x, z);
    hide ComparePart, Compare;
    if Numeral(x) && Numeral(y) && !Numeral(z) { TwoNumeralsExactly(x, y, z); }
    else if Numeral(y) && Numeral(z) && !Numeral(x) { TwoNumeralsExactly(y, z, x); }
    else if Numeral(z) && Numeral(x) && !Numeral(y) { TwoNumeralsExactly(z, x, y); }
    else { OneOrder(x, y, z); }
  }

  // ---- three versions -------------------------------------------------------

  /** Three answers of a comparison of `a` with `b`, `b` with `c` and `a` with `c`
      fit into one order, every way round. */
  predicate Fit(ab: Order, bc: Order, ac: Order) {
    && (ab != Greater && bc != Greater ==> ac != Greater)
    && (ac != Greater && bc != Less ==> ab != Greater)
    && (ab != Less && ac != Greater ==> bc != Greater)
    && (bc != Greater && ac != Less ==> ab != Less)
    && (ac != Less && ab != Greater ==> bc != Less)
    && (bc != Less && ab != Less ==> ac != Less)
  }

  predicate VersionsFit(a: seq<Bytes>, b: seq<Bytes>, c: seq<Bytes>) {
    Fit(CompareParts(a, b), CompareParts(b, c), CompareParts(a, c))
  }

  /** Where `x` and `y` are equal and `z` is not: either `z` is on the same side of
      both, or what follows puts them on those sides of it. */
  predicate PairFits(x: Bytes, y: Bytes, z: Bytes, tails: Order) {
    ComparePart(x, z) == ComparePart(y, z) || tails == ComparePart(x, z)
  }

  /** What decides whether three versions compare as one order: the first place
      where their components are not all equal. */
  predicate Consistent(a: seq<Bytes>, b: seq<Bytes>, c: seq<Bytes>) {
    if a == [] || b == [] || c == [] then true
    else
      var x, y, z := a[0], b[0], c[0];
      var xy, yz, xz := ComparePart(x, y) == Equal, ComparePart(y, z) == Equal, ComparePart(x, z) == Equal;
      if xy && yz then Consistent(a[1..], b[1..], c[1..])
      else if xy then PairFits(x, y, z, CompareParts(a[1..], b[1..]))
      else if yz then PairFits(y, z, x, CompareParts(b[1..], c[1..]))
      else if xz then PairFits(x, z, y, CompareParts(a[1..], c[1..]))
      else !Torn(x, y, z) && !Torn(y, z, x) && !Torn(z, x, y)
  }

  /** Equal components are equal numerals or the same text. */
  lemma EqualParts(x: Bytes, y: Bytes, z: Bytes)
    requires ComparePart(x, y) == Equal
    ensures ComparePart(y, z) == Equal <==> ComparePart(x, z) == Equal
  {
    CompareIsEqual(x, y);
    CompareIsEqual(y, z);
    CompareIsEqual(x, z);
    hide Decimal;
  }

  lemma {:induction false} PartsFitExactly(a: seq<Bytes>, b: seq<Bytes>, c: seq<Bytes>)
    ensures VersionsFit(a, b, c) <==> Consistent(a, b, c)
  {
    if a == [] || b == [] || c == [] {
    } else {
      var x, y, z := a[0], b[0], c[0];
      PartFlips(x, y); PartFlips(y, z); PartFlips(x, z);
      if ComparePart(x, y) == Equal { EqualParts(x, y, z); }
      if ComparePart(y, z) == Equal { EqualParts(y, z, x); }
      ComponentsChainExactly(x, y, z);
      hide ComparePart, Torn;
      if ComparePart(x, y) == Equal && ComparePart(y, z) == Equal {
        PartsFitExactly(a[1..], b[1..], c[1..]);
      }
    }
  }

  /** Any three versions compare as one order exactly when they are consistent. */
  lemma VersionsFitExactly(a: Bytes, b: Bytes, c: Bytes)
    ensures Fit(CompareVersions(a, b), CompareVersions(b, c), CompareVersions(a, c)) <==>
            Consistent(Split(a), Split(b), Split(c))
  {
    PartsFitExactly(Split(a), Split(b), Split(c));
  }

  /** 9 < 10 < 1a < 9: with mixed components the order runs in a circle, and a
      range whose ends are out of order contains a version. */
  lemma MixedVersionsRunInCircles()
    ensures var nine, ten, mixed := [57], [49, 48], [49, 97];
            CompareVersions(nine, ten) == Less && CompareVersions(ten, mixed) == Less &&
            CompareVersions(mixed, nine) == Less &&
            var r := Range([], Some(ten), Some(nine));
            !EndsInOrder(r) && Contains(r, [], Some(mixed))
  {
    var nine: Bytes, ten: Bytes, mixed: Bytes := [57], [49, 48], [49, 97];
    assert ten[1..] == [48] && mixed[1..] == [97];
    SplitWhole(nine); SplitWhole(ten); SplitWhole(mixed);
    assert nine[..0] == [] && ten[..1] == [49] && ten[..1][..0] == [];
    assert Decimal([49]) == 1 && Decimal(nine) == 9 && Decimal(ten) == 10;
    assert !IsDigit(mixed[1]);
    VersionsFlip(mixed, ten);
    VersionsFlip(nine, ten);
  }

  lemma {:induction false} SplitWhole(s: Bytes)
    requires forall i :: 0 <= i < |s| ==> !IsSeparator(s[i])
    ensures Split(s) == [s]
  {
    if s != [] {
      SplitWhole(s[1..]);
      assert s == [s[0]] + s[1..];
    }
  }
}
