/** Choosing a backend: strict about a stated preference, otherwise the best
    eligible profile, and never dependent on the order of the profiles. */
module BackendSelection {
  import opened Common
  import opened ByteText
  import opened TextOrder
  import opened Sorting
  import opened VersionOrder
  import opened DependencyClosure
  import opened BackendProfile

  datatype Reason = ExplicitPreference | CertificationThenCapability

  datatype Rejection =
    | InvalidProfile(error: ProfileError)
    | OtherGlassVersion
    | CertificationBelowMinimum
    | BrowserMismatch
    | MissingCapability(capability: Capability)

  datatype Failure =
    | InvalidRequest(error: ProfileError)
    | TooManyCandidates
    | NoProfiles
    | DuplicateId
    | PreferredUnusable(why: Option<Rejection>)
    | NoneEligible

  datatype Selection = Selection(selected: Profile, reason: Reason, considered: seq<Bytes>)
  datatype Result = Selected(selection: Selection) | Failed(failure: Failure)

  function LevelScore(level: SupportLevel): nat {
    match level
    case Available => 4
    case Partial => 2
    case Restricted => 1
    case Unavailable => 0
  }

  function ScoreOf(p: Profile, capabilities: seq<Capability>): nat {
    if capabilities == [] then 0
    else LevelScore(LevelOf(p, capabilities[0])) + ScoreOf(p, capabilities[1..])
  }

  function CapabilityScore(p: Profile): nat {
    ScoreOf(p, ALL_CAPABILITIES)
  }

  lemma {:induction false} ScoresFollow(a: Profile, b: Profile, capabilities: seq<Capability>)
    requires forall k :: LevelOf(a, k).Satisfies(LevelOf(b, k))
    ensures ScoreOf(a, capabilities) >= ScoreOf(b, capabilities)
    ensures ScoreOf(a, capabilities) == ScoreOf(b, capabilities) <==>
            forall i :: 0 <= i < |capabilities| ==> LevelOf(a, capabilities[i]) == LevelOf(b, capabilities[i])
  {
    if capabilities != [] {
      ScoresFollow(a, b, capabilities[1..]);
      assert LevelOf(a, capabilities[0]).Satisfies(LevelOf(b, capabilities[0]));
      assert forall i :: 0 < i < |capabilities| ==> capabilities[i] == capabilities[1..][i - 1];
    }
  }

  /** The score agrees with the order of support: a profile that is as strong
      everywhere never scores lower, and ties only if it is no stronger
      anywhere. */
  lemma StrongerScoresHigher(a: Profile, b: Profile)
    requires forall k :: LevelOf(a, k).Satisfies(LevelOf(b, k))
    ensures CapabilityScore(a) >= CapabilityScore(b)
    ensures CapabilityScore(a) == CapabilityScore(b) <==> forall k :: LevelOf(a, k) == LevelOf(b, k)
  {
    ScoresFollow(a, b, ALL_CAPABILITIES);
    if CapabilityScore(a) == CapabilityScore(b) {
      forall k: Capability ensures LevelOf(a, k) == LevelOf(b, k) { AllIsAll(k); }
    }
  }

  /** The first requirement that is not met. */
  function FirstUnmet(p: Profile, required: seq<Requirement>): Option<Rejection> {
    if required == [] then None
    else if !LevelOf(p, required[0].capability).Satisfies(required[0].minimum) then
      Some(MissingCapability(required[0].capability))
    else FirstUnmet(p, required[1..])
  }

  /** Why a valid profile is passed over. */
  function PolicyRejection(q: Request, p: Profile): Option<Rejection> {
    if p.certification.glassVersion != q.glassVersion then Some(OtherGlassVersion)
    else if p.certification.level.Rank() < q.minimumCertification.Rank() then Some(CertificationBelowMinimum)
    else if q.family.Some? && !Contains(p.browser, q.family.value, q.version) then Some(BrowserMismatch)
    else FirstUnmet(p, q.required)
  }

  ghost function RejectionOf(q: Request, p: Profile): Option<Rejection> {
    var error := FirstError(p);
    if error.Some? then Some(InvalidProfile(error.value)) else PolicyRejection(q, p)
  }

  /** What a caller means by eligible, requirement by requirement. */
  ghost predicate Eligible(q: Request, p: Profile) {
    && ValidProfile(p)
    && p.certification.glassVersion == q.glassVersion
    && p.certification.level.Rank() >= q.minimumCertification.Rank()
    && (q.family.Some? ==> Contains(p.browser, q.family.value, q.version))
    && forall i :: 0 <= i < |q.required| ==> LevelOf(p, q.required[i].capability).Satisfies(q.required[i].minimum)
  }

  lemma {:induction false} FirstUnmetMeans(p: Profile, required: seq<Requirement>)
    ensures FirstUnmet(p, required).None? <==>
            forall i :: 0 <= i < |required| ==> LevelOf(p, required[i].capability).Satisfies(required[i].minimum)
  {
    if required != [] {
      FirstUnmetMeans(p, required[1..]);
      assert forall i :: 0 < i < |required| ==> required[i] == required[1..][i - 1];
    }
  }

  lemma EligibleMeans(q: Request, p: Profile)
    ensures Eligible(q, p) <==> RejectionOf(q, p).None?
  {
    hide ValidProfile, FirstError;
    ErrorsMean(p);
    FirstUnmetMeans(p, q.required);
  }

  /** Every required capability of an eligible profile is declared there, at the
      required level or a stronger one. */
  lemma RequiredAreDeclared(q: Request, p: Profile, i: nat)
    requires ValidRequest(q) && Eligible(q, p) && i < |q.required|
    ensures q.required[i].capability in p.capabilities
    ensures p.capabilities[q.required[i].capability].level.Satisfies(q.required[i].minimum)
  {
    hide ValidProfile;
    assert LevelOf(p, q.required[i].capability).Satisfies(q.required[i].minimum);
  }

  // ---- precedence -----------------------------------------------------------

  function Then(first: Order, second: Order): Order {
    if first == Equal then second else first
  }

  /** Higher certification first, then the higher score, then the smaller id. */
  function ComparePrecedence(a: Profile, b: Profile): Order {
    Then(CompareInt(b.certification.level.Rank(), a.certification.level.Rank()),
         Then(CompareInt(CapabilityScore(b), CapabilityScore(a)),
              Then(Compare(a.backendId, b.backendId), Compare(a.version, b.version))))
  }

  predicate Precedes(a: Profile, b: Profile) {
    ComparePrecedence(a, b) != Greater
  }

  lemma PrecedesIsTotal()
    ensures TotalPreorder(Precedes)
  {
    hide CapabilityScore;
    forall a: Profile, b: Profile ensures Precedes(a, b) || Precedes(b, a) {
      CompareFlips(a.backendId, b.backendId);
      CompareFlips(a.version, b.version);
    }
    forall a: Profile, b: Profile, c: Profile | Precedes(a, b) && Precedes(b, c) ensures Precedes(a, c) {
      PrecedesChains(a, b, c);
    }
  }

  lemma PrecedesChains(a: Profile, b: Profile, c: Profile)
    requires Precedes(a, b) && Precedes(b, c)
    ensures Precedes(a, c)
  {
    hide CapabilityScore, Compare;
    if Compare(a.backendId, b.backendId) != Greater && Compare(b.backendId, c.backendId) != Greater {
      CompareChains(a.backendId, b.backendId, c.backendId);
    }
    if Compare(a.version, b.version) != Greater && Compare(b.version, c.version) != Greater {
      CompareChains(a.version, b.version, c.version);
    }
  }

  lemma AtMostIsTotal()
    ensures TotalPreorder(AtMost)
  {
    forall a: Bytes, b: Bytes ensures AtMost(a, b) || AtMost(b, a) { CompareFlips(a, b); }
    forall a: Bytes, b: Bytes, c: Bytes | AtMost(a, b) && AtMost(b, c) ensures AtMost(a, c) { CompareChains(a, b, c); }
  }

  // ---- what a selection is --------------------------------------------------

  /** No two valid profiles share an id. */
  ghost predicate UniqueIds(profiles: seq<Profile>) {
    forall i, j :: 0 <= i < j < |profiles| && ValidProfile(profiles[i]) && ValidProfile(profiles[j]) ==>
      profiles[i].backendId != profiles[j].backendId
  }

  ghost predicate Offered(profiles: seq<Profile>, id: Bytes) {
    exists p :: p in profiles && ValidProfile(p) && p.backendId == id
  }

  /** The ids of the valid profiles, sorted, each once. */
  ghost predicate Considered(profiles: seq<Profile>, ids: seq<Bytes>) {
    Sorted(AtMost, ids) && forall id :: multiset(ids)[id] == if Offered(profiles, id) then 1 else 0
  }

  ghost predicate Best(q: Request, profiles: seq<Profile>, p: Profile) {
    && p in profiles && Eligible(q, p)
    && (q.preferred.Some? ==> p.backendId == q.preferred.value)
    && (q.preferred.None? ==> forall other :: other in profiles && Eligible(q, other) ==> Precedes(p, other))
  }

  ghost predicate Choosable(q: Request, profiles: seq<Profile>) {
    exists p :: p in profiles && Eligible(q, p) && (q.preferred.Some? ==> p.backendId == q.preferred.value)
  }

  /** The last rejection of a profile that carries the preferred id. */
  ghost function LastRejection(q: Request, profiles: seq<Profile>): Option<Rejection> {
    if profiles == [] then None
    else
      var p, before := profiles[|profiles| - 1], profiles[..|profiles| - 1];
      if q.preferred == Some(p.backendId) && RejectionOf(q, p).Some? then RejectionOf(q, p)
      else LastRejection(q, before)
  }

  /** Which result a request and a list of profiles have. */
  ghost predicate Answers(q: Request, profiles: seq<Profile>, r: Result) {
    if !ValidRequest(q) then FirstRequestError(q).Some? && r == Failed(InvalidRequest(FirstRequestError(q).value))
    else if |profiles| > MAX_BACKEND_CANDIDATES then r == Failed(TooManyCandidates)
    else if profiles == [] then r == Failed(NoProfiles)
    else if !UniqueIds(profiles) then r == Failed(DuplicateId)
    else if Choosable(q, profiles) then
      r.Selected? && Best(q, profiles, r.selection.selected) && Considered(profiles, r.selection.considered) &&
      r.selection.reason == if q.preferred.Some? then ExplicitPreference else CertificationThenCapability
    else if q.preferred.Some? then r == Failed(PreferredUnusable(LastRejection(q, profiles)))
    else r == Failed(NoneEligible)
  }

  /** `BackendSelectionResult::validate`. */
  ghost predicate ValidSelection(s: Selection) {
    && ValidProfile(s.selected)
    && |s.considered| <= MAX_BACKEND_CANDIDATES
    && forall i :: 0 <= i < |s.considered| ==> ValidText(s.considered[i], MAX_BACKEND_ID_BYTES)
  }

  // ---- the algorithm --------------------------------------------------------

  /** The first pass: ids of the valid profiles, or the news that two share one. */
  method CollectIds(profiles: seq<Profile>) returns (unique: bool, ids: seq<Bytes>)
    ensures unique <==> UniqueIds(profiles)
    ensures unique ==> |ids| <= |profiles|
    ensures unique ==> forall id :: multiset(ids)[id] == if Offered(profiles, id) then 1 else 0
  {
    hide ValidProfile;
    var seen: set<Bytes> := {};
    ids := [];
    for i := 0 to |profiles|
      invariant UniqueIds(profiles[..i]) && |ids| <= i
      invariant forall id :: id in seen <==> Offered(profiles[..i], id)
      invariant forall id :: multiset(ids)[id] == if Offered(profiles[..i], id) then 1 else 0
    {
      var p := profiles[i];
      var error := ValidateProfile(p);
      OfferedGrows(profiles, i);
      if error.None? {
        if p.backendId in seen {
          ghost var other :| other in profiles[..i] && ValidProfile(other) && other.backendId == p.backendId;
          return false, ids;
        }
        seen, ids := seen + {p.backendId}, ids + [p.backendId];
      }
      UniqueGrows(profiles, i);
    }
    assert profiles[..|profiles|] == profiles;
    unique := true;
  }

  lemma OfferedGrows(profiles: seq<Profile>, i: nat)
    requires i < |profiles|
    ensures forall id :: Offered(profiles[..i + 1], id) <==>
              Offered(profiles[..i], id) || (ValidProfile(profiles[i]) && profiles[i].backendId == id)
  {
    hide ValidProfile;
    var p, before, after := profiles[i], profiles[..i], profiles[..i + 1];
    assert after == before + [p];
    forall id ensures Offered(after, id) <==> Offered(before, id) || (ValidProfile(p) && p.backendId == id) {
      if ValidProfile(p) && p.backendId == id { assert p in after; }
      assert forall q :: q in after <==> q in before || q == p;
    }
  }

  lemma UniqueGrows(profiles: seq<Profile>, i: nat)
    requires i < |profiles| && UniqueIds(profiles[..i])
    requires ValidProfile(profiles[i]) ==> !Offered(profiles[..i], profiles[i].backendId)
    ensures UniqueIds(profiles[..i + 1])
  {
    hide ValidProfile;
    forall m, n | 0 <= m < n <= i && ValidProfile(profiles[m]) && ValidProfile(profiles[n])
      ensures profiles[m].backendId != profiles[n].backendId
    {
      assert profiles[m] == profiles[..i + 1][m];
      if n == i {
        assert profiles[m] in profiles[..i];
      } else {
        assert profiles[m] == profiles[..i][m] && profiles[n] == profiles[..i][n];
      }
    }
  }

  /** The second pass: the eligible profiles, and why the preferred one is not. */
  method CollectEligible(q: Request, profiles: seq<Profile>)
    returns (eligible: seq<Profile>, why: Option<Rejection>)
    ensures forall p :: p in eligible <==> p in profiles && Eligible(q, p)
    ensures why == LastRejection(q, profiles)
  {
    hide ValidProfile, FirstError, Eligible, PolicyRejection;
    eligible, why := [], None;
    for i := 0 to |profiles|
      invariant forall p :: p in eligible <==> p in profiles[..i] && Eligible(q, p)
      invariant why == LastRejection(q, profiles[..i])
    {
      var p := profiles[i];
      assert profiles[..i + 1] == profiles[..i] + [p] && profiles[..i + 1][..i] == profiles[..i];
      EligibleMeans(q, p);
      var error := ValidateProfile(p);
      var rejection := if error.Some? then Some(InvalidProfile(error.value)) else PolicyRejection(q, p);
      if rejection.None? {
        eligible := eligible + [p];
      } else if q.preferred == Some(p.backendId) {
        why := rejection;
      }
    }
    assert profiles[..|profiles|] == profiles;
  }

  /** The profile with the preferred id, among eligible ones. */
  method FindPreferred(id: Bytes, eligible: seq<Profile>) returns (found: Option<Profile>)
    ensures found.Some? ==> found.value in eligible && found.value.backendId == id
    ensures found.None? ==> forall p :: p in eligible ==> p.backendId != id
  {
    for i := 0 to |eligible|
      invariant forall j :: 0 <= j < i ==> eligible[j].backendId != id
    {
      if eligible[i].backendId == id { return Some(eligible[i]); }
    }
    found := None;
  }

  method SelectBackend(q: Request, profiles: seq<Profile>) returns (r: Result)
    ensures Answers(q, profiles, r)
    ensures r.Selected? ==> ValidSelection(r.selection)
  {
    hide ValidProfile, Eligible, LastRejection, Precedes;
    var error := FirstRequestError(q);
    RequestErrorsMean(q);
    if error.Some? { return Failed(InvalidRequest(error.value)); }
    if |profiles| > MAX_BACKEND_CANDIDATES { return Failed(TooManyCandidates); }
    if profiles == [] { return Failed(NoProfiles); }
    var unique, ids := CollectIds(profiles);
    if !unique { return Failed(DuplicateId); }
    var considered := SortBy(AtMost, ids);
    AtMostIsTotal();
    SortBySorts(AtMost, ids);
    ConsideredIsShort(ids, considered);
    var eligible, why := CollectEligible(q, profiles);
    if q.preferred.Some? {
      var found := FindPreferred(q.preferred.value, eligible);
      if found.None? { return Failed(PreferredUnusable(why)); }
      SelectionIsValid(q, profiles, found.value, considered);
      return Selected(Selection(found.value, ExplicitPreference, considered));
    }
    var sorted := SortBy(Precedes, eligible);
    PrecedesIsTotal();
    SortBySorts(Precedes, eligible);
    if sorted == [] {
      assert forall p :: p in eligible ==> p in multiset(sorted);
      return Failed(NoneEligible);
    }
    FirstPrecedes(eligible, sorted);
    SelectionIsValid(q, profiles, sorted[0], considered);
    r := Selected(Selection(sorted[0], CertificationThenCapability, considered));
  }

  lemma ConsideredIsShort(ids: seq<Bytes>, considered: seq<Bytes>)
    requires multiset(considered) == multiset(ids)
    ensures |considered| == |ids|
  {
    assert |multiset(considered)| == |considered| && |multiset(ids)| == |ids|;
  }

  lemma FirstPrecedes(eligible: seq<Profile>, sorted: seq<Profile>)
    requires sorted != [] && Sorted(Precedes, sorted) && TotalPreorder(Precedes)
    requires multiset(sorted) == multiset(eligible)
    ensures sorted[0] in eligible
    ensures forall p :: p in eligible ==> Precedes(sorted[0], p)
  {
    hide Precedes;
    assert sorted[0] in multiset(sorted);
    forall p | p in eligible ensures Precedes(sorted[0], p) {
      assert p in multiset(eligible);
      assert p in sorted;
      assert Precedes(sorted[0], sorted[0]);
    }
  }

  lemma SelectionIsValid(q: Request, profiles: seq<Profile>, p: Profile, considered: seq<Bytes>)
    requires Eligible(q, p) && Considered(profiles, considered) && |considered| <= MAX_BACKEND_CANDIDATES
    ensures ValidProfile(p)
    ensures forall i :: 0 <= i < |considered| ==> ValidText(considered[i], MAX_BACKEND_ID_BYTES)
  {
    forall i | 0 <= i < |considered| ensures ValidText(considered[i], MAX_BACKEND_ID_BYTES) {
      assert considered[i] in multiset(considered);
      assert Offered(profiles, considered[i]);
    }
  }

  // ---- what precedence means ------------------------------------------------

  /** The certification levels as they rank, highest first. */
  const LEVELS: seq<CertificationLevel> := [ProductionCertified, Experimental, PartiallyCertified, Unsupported]

  ghost predicate Above(a: CertificationLevel, b: CertificationLevel) {
    exists i, j :: 0 <= i < j < |LEVELS| && LEVELS[i] == a && LEVELS[j] == b
  }

  lemma RankMeans(a: CertificationLevel, b: CertificationLevel)
    ensures a.Rank() > b.Rank() <==> Above(a, b)
    ensures a.Rank() == b.Rank() <==> a == b
  {
    var levels := LEVELS;
    assert levels[0] == ProductionCertified && levels[1] == Experimental;
    assert levels[2] == PartiallyCertified && levels[3] == Unsupported;
    assert forall i :: 0 <= i < 4 ==> levels[i].Rank() == 4 - i;
    assert levels[4 - a.Rank()] == a && levels[4 - b.Rank()] == b;
  }

  /** How many of some capabilities a profile supports at a level. */
  function Supported(p: Profile, among: set<Capability>, level: SupportLevel): nat {
    |set k | k in among && LevelOf(p, k) == level|
  }

  function Weight(p: Profile, among: set<Capability>): nat {
    4 * Supported(p, among, Available) + 2 * Supported(p, among, Partial) + Supported(p, among, Restricted)
  }

  lemma SupportedGrows(p: Profile, among: set<Capability>, k: Capability, level: SupportLevel)
    requires k !in among
    ensures Supported(p, among + {k}, level) == Supported(p, among, level) + (if LevelOf(p, k) == level then 1 else 0)
  {
    hide LevelOf;
    var before := set x | x in among && LevelOf(p, x) == level;
    var after := set x | x in among + {k} && LevelOf(p, x) == level;
    if LevelOf(p, k) == level {
      assert after == before + {k} && k !in before;
    } else {
      assert after == before;
    }
  }

  lemma {:induction false} ScoreIsWeight(p: Profile, capabilities: seq<Capability>)
    requires Distinct(capabilities)
    ensures ScoreOf(p, capabilities) == Weight(p, Elements(capabilities))
  {
    hide LevelOf, Supported;
    if capabilities == [] {
      NothingSupported(p);
    } else {
      var k, tail := capabilities[0], capabilities[1..];
      ScoreIsWeight(p, tail);
      assert capabilities == [k] + tail && k !in tail;
      assert Elements(capabilities) == Elements(tail) + {k};
      SupportedGrows(p, Elements(tail), k, Available);
      SupportedGrows(p, Elements(tail), k, Partial);
      SupportedGrows(p, Elements(tail), k, Restricted);
    }
  }

  lemma NothingSupported(p: Profile)
    ensures Weight(p, Elements([])) == 0
  {
    assert Elements<Capability>([]) == {};
    NoneSupported(p, Available);
    NoneSupported(p, Partial);
    NoneSupported(p, Restricted);
  }

  lemma NoneSupported(p: Profile, level: SupportLevel)
    ensures Supported(p, {}, level) == 0
  {
    hide LevelOf;
    assert (set k | k in {} && LevelOf(p, k) == level) == {};
  }

  const EVERYTHING: set<Capability> :=
    {Lifecycle, Navigation, Contexts, Evidence, Action, Effects, Script, Capture, Storage, Prompts, Downloads}

  /** The score counts four for each available capability, two for each partial one
      and one for each restricted one. */
  lemma ScoreCounts(p: Profile)
    ensures CapabilityScore(p) == Weight(p, EVERYTHING)
    ensures forall k: Capability :: k in EVERYTHING
  {
    hide LevelOf, Supported;
    ScoreIsWeight(p, ALL_CAPABILITIES);
    forall k: Capability ensures k in ALL_CAPABILITIES { AllIsAll(k); }
    assert Elements(ALL_CAPABILITIES) == EVERYTHING;
  }

  /** Without a preference the selected profile is the best in words: no eligible
      profile is of a higher certification level, none of its level weighs more,
      and none of its level and weight has a smaller id. */
  lemma SelectedIsBest(q: Request, profiles: seq<Profile>, r: Result, other: Profile)
    requires Answers(q, profiles, r) && r.Selected? && q.preferred.None?
    requires other in profiles && Eligible(q, other)
    ensures var best := r.selection.selected;
            var level, another := best.certification.level, other.certification.level;
            && !Above(another, level)
            && (another == level ==> Weight(other, EVERYTHING) <= Weight(best, EVERYTHING))
            && (another == level && Weight(other, EVERYTHING) == Weight(best, EVERYTHING) ==>
                  other.backendId == best.backendId || TextBefore(best.backendId, other.backendId))
  {
    var best := r.selection.selected;
    assert Precedes(best, other) by { hide Precedes, Eligible, ValidProfile; }
    RankMeans(other.certification.level, best.certification.level);
    RankMeans(best.certification.level, other.certification.level);
    ScoreCounts(best);
    ScoreCounts(other);
    CompareMeans(best.backendId, other.backendId);
    CompareIsEqual(best.backendId, other.backendId);
    hide CapabilityScore, Weight, Compare, TextBefore, Above, Eligible, Answers;
  }

  /** Whatever is selected is certified at the required level or above. */
  lemma SelectedIsCertified(q: Request, p: Profile)
    requires Eligible(q, p)
    ensures !Above(q.minimumCertification, p.certification.level)
  {
    hide ValidProfile;
    RankMeans(q.minimumCertification, p.certification.level);
  }

  /** A valid profile is turned down for the first of these that holds: another
      Glass version, a certification below the minimum, a browser outside its
      range, or the first requirement it does not meet. */
  lemma RejectionsMean(q: Request, p: Profile)
    requires ValidProfile(p)
    ensures RejectionOf(q, p) ==
            if p.certification.glassVersion != q.glassVersion then Some(OtherGlassVersion)
            else if Above(q.minimumCertification, p.certification.level) then Some(CertificationBelowMinimum)
            else if q.family.Some? && !Contains(p.browser, q.family.value, q.version) then Some(BrowserMismatch)
            else FirstUnmet(p, q.required)
  {
    hide ValidProfile, FirstError, Contains, Above, FirstUnmet;
    ErrorsMean(p);
    RankMeans(q.minimumCertification, p.certification.level);
  }

  /** The requirement at `i` is not met, and all before it are. */
  ghost predicate FirstUnmetAt(p: Profile, required: seq<Requirement>, i: int) {
    && 0 <= i < |required| && !LevelOf(p, required[i].capability).Satisfies(required[i].minimum)
    && forall j :: 0 <= j < i ==> LevelOf(p, required[j].capability).Satisfies(required[j].minimum)
  }

  lemma {:induction false} FirstUnmetIsFirst(p: Profile, required: seq<Requirement>, i: int)
    requires FirstUnmetAt(p, required, i)
    ensures FirstUnmet(p, required) == Some(MissingCapability(required[i].capability))
  {
    hide LevelOf;
    if i > 0 {
      var tail := required[1..];
      assert LevelOf(p, required[0].capability).Satisfies(required[0].minimum);
      assert forall j :: 0 <= j < i ==> tail[j] == required[j + 1];
      assert FirstUnmetAt(p, tail, i - 1);
      FirstUnmetIsFirst(p, tail, i - 1);
    }
  }

  // ---- independence of order ------------------------------------------------

  ghost predicate Permuted<T>(a: seq<T>, b: seq<T>) {
    multiset(a) == multiset(b)
  }

  lemma PermutedMembers<T>(a: seq<T>, b: seq<T>)
    requires Permuted(a, b)
    ensures |a| == |b| && forall x :: x in a <==> x in b
  {
    assert |multiset(a)| == |a| && |multiset(b)| == |b|;
    forall x ensures x in a <==> x in b { assert x in a <==> x in multiset(a); assert x in b <==> x in multiset(b); }
  }

  lemma Repeats<T>(s: seq<T>, i: nat, j: nat)
    requires i < j < |s| && s[i] == s[j]
    ensures multiset(s)[s[i]] >= 2
  {
    assert s == s[..j] + [s[j]] + s[j + 1..];
    assert s[..j][i] == s[i] && s[i] in multiset(s[..j]);
  }

  lemma RepeatsTwice<T>(s: seq<T>, x: T)
    requires multiset(s)[x] >= 2
    ensures exists i, j :: 0 <= i < j < |s| && s[i] == x && s[j] == x
  {
    assert x in multiset(s);
    var i :| 0 <= i < |s| && s[i] == x;
    assert s == s[..i] + [s[i]] + s[i + 1..];
    if x in s[..i] {
      var j :| 0 <= j < i && s[..i][j] == x;
      assert s[j] == x;
    } else {
      assert x in multiset(s[i + 1..]);
      var j :| 0 <= j < |s| - i - 1 && s[i + 1..][j] == x;
      assert s[i + 1 + j] == x;
    }
  }

  lemma UniqueSurvives(a: seq<Profile>, b: seq<Profile>)
    requires Permuted(a, b) && UniqueIds(a)
    ensures UniqueIds(b)
  {
    hide ValidProfile;
    PermutedMembers(a, b);
    forall i, j | 0 <= i < j < |b| && ValidProfile(b[i]) && ValidProfile(b[j])
      ensures b[i].backendId != b[j].backendId
    {
      if b[i] == b[j] {
        Repeats(b, i, j);
        RepeatsTwice(a, b[i]);
      } else {
        assert b[i] in a && b[j] in a;
        var m :| 0 <= m < |a| && a[m] == b[i];
        var n :| 0 <= n < |a| && a[n] == b[j];
      }
    }
  }

  lemma OneBest(q: Request, profiles: seq<Profile>, p: Profile, other: Profile)
    requires UniqueIds(profiles) && Best(q, profiles, p) && Best(q, profiles, other)
    ensures p == other
  {
    hide ValidProfile, CapabilityScore;
    var i :| 0 <= i < |profiles| && profiles[i] == p;
    var j :| 0 <= j < |profiles| && profiles[j] == other;
    if q.preferred.None? {
      CompareFlips(p.backendId, other.backendId);
      CompareIsEqual(p.backendId, other.backendId);
    }
  }

  lemma NoTies()
    ensures TiesAreEqual(AtMost)
  {
    forall m: Bytes, n: Bytes | AtMost(m, n) && AtMost(n, m) ensures m == n {
      CompareFlips(m, n);
      CompareIsEqual(m, n);
    }
  }

  /** Permuting the profiles changes neither success nor failure, and on success
      neither the selected profile nor the reason nor the considered ids. */
  lemma OrderDoesNotMatter(q: Request, a: seq<Profile>, b: seq<Profile>, r: Result, s: Result)
    requires Permuted(a, b) && Answers(q, a, r) && Answers(q, b, s)
    ensures r.Selected? == s.Selected? && (r.Selected? ==> r == s)
    ensures r.Failed? && !r.failure.PreferredUnusable? ==> r == s
    ensures r.Failed? && r.failure.PreferredUnusable? ==> s.Failed? && s.failure.PreferredUnusable?
  {
    hide ValidProfile, Eligible, Precedes, LastRejection, ValidRequest;
    PermutedMembers(a, b);
    if UniqueIds(a) { UniqueSurvives(a, b); }
    if UniqueIds(b) { UniqueSurvives(b, a); }
    if r.Selected? {
      var x, y := r.selection, s.selection;
      assert Best(q, a, y.selected);
      OneBest(q, a, x.selected, y.selected);
      assert forall id :: Offered(a, id) <==> Offered(b, id);
      assert multiset(x.considered) == multiset(y.considered);
      AtMostIsTotal();
      NoTies();
      SortedIsUnique(AtMost, x.considered, y.considered);
    }
  }

  /** The stated preference is what the request fails on. */
  ghost predicate PreferenceFails(q: Request, profiles: seq<Profile>) {
    && ValidRequest(q) && 0 < |profiles| <= MAX_BACKEND_CANDIDATES && UniqueIds(profiles)
    && q.preferred.Some? && !Choosable(q, profiles)
  }

  /** Every order of the profiles has the same result, reasons included. */
  ghost predicate OneResult(q: Request, profiles: seq<Profile>) {
    forall other, r, s :: Permuted(profiles, other) && Answers(q, profiles, r) && Answers(q, other, s) ==> r == s
  }

  /** The result as a whole, with the reason of a failure, is independent of the
      order of the profiles exactly when the request does not fail on its
      preference, or all profiles with the preferred id are rejected for the same
      reason: the same first validation error, or the same policy. */
  lemma ReasonOrderExactly(q: Request, profiles: seq<Profile>)
    ensures OneResult(q, profiles) <==> !PreferenceFails(q, profiles) || SameRejections(q, profiles)
  {
    hide ValidProfile, Eligible, RejectionOf, LastRejection, ValidRequest, Precedes;
    if !PreferenceFails(q, profiles) || SameRejections(q, profiles) {
      forall other, r, s | Permuted(profiles, other) && Answers(q, profiles, r) && Answers(q, other, s)
        ensures r == s
      {
        OrderDoesNotMatter(q, profiles, other, r, s);
        if r.Failed? && r.failure.PreferredUnusable? {
          FailuresName(q, profiles, r);
          FailuresName(q, other, s);
          SameReasons(q, profiles, other);
        }
      }
    } else {
      ReasonsDiffer(q, profiles);
    }
  }

  /** A failed preference is reported with the last rejection of that id. */
  lemma FailuresName(q: Request, profiles: seq<Profile>, r: Result)
    requires Answers(q, profiles, r) && r.Failed? && r.failure.PreferredUnusable?
    ensures PreferenceFails(q, profiles) && r.failure.why == LastRejection(q, profiles)
  {
    hide ValidProfile, Eligible, RejectionOf, LastRejection, ValidRequest, UniqueIds, Choosable;
  }

  lemma SameReasons(q: Request, a: seq<Profile>, b: seq<Profile>)
    requires Permuted(a, b) && SameRejections(q, a)
    ensures LastRejection(q, a) == LastRejection(q, b)
  {
    hide RejectionOf;
    PermutedMembers(a, b);
    LastRejectionMeans(q, a);
    LastRejectionMeans(q, b);
  }

  lemma FailureSurvives(q: Request, a: seq<Profile>, b: seq<Profile>)
    requires Permuted(a, b) && PreferenceFails(q, a)
    ensures Answers(q, b, Failed(PreferredUnusable(LastRejection(q, b))))
  {
    hide ValidProfile, Eligible, LastRejection, ValidRequest;
    PermutedMembers(a, b);
    UniqueSurvives(a, b);
  }

  lemma OneReason(q: Request, profiles: seq<Profile>, other: seq<Profile>)
    requires PreferenceFails(q, profiles) && OneResult(q, profiles) && Permuted(profiles, other)
    ensures LastRejection(q, other) == LastRejection(q, profiles)
  {
    hide PreferenceFails, LastRejection, Answers;
    FailureSurvives(q, profiles, profiles);
    FailureSurvives(q, profiles, other);
  }

  lemma ReasonsDiffer(q: Request, profiles: seq<Profile>)
    requires PreferenceFails(q, profiles) && !SameRejections(q, profiles)
    ensures !OneResult(q, profiles)
  {
    hide PreferenceFails, OneResult, RejectionOf;
    var x, y :|
      x in profiles && y in profiles && Turned(q, x) && Turned(q, y) && RejectionOf(q, x) != RejectionOf(q, y);
    LastIsReported(q, MovedLast(profiles, x), x);
    LastIsReported(q, MovedLast(profiles, y), y);
    hide Turned, LastRejection, SameRejections;
    if OneResult(q, profiles) {
      OneReason(q, profiles, MovedLast(profiles, x));
      OneReason(q, profiles, MovedLast(profiles, y));
    }
  }

  lemma LastIsReported(q: Request, profiles: seq<Profile>, x: Profile)
    requires profiles != [] && profiles[|profiles| - 1] == x && Turned(q, x)
    ensures LastRejection(q, profiles) == RejectionOf(q, x)
  {
    hide RejectionOf;
  }

  /** A request on which the order shows: two profiles carry the preferred id, one
      of another schema and one without a version, and the reason is that of
      whichever comes last. */
  lemma ReasonDependsOnOrder() returns (q: Request, x: Profile, y: Profile)
    ensures ValidRequest(q) && UniqueIds([x, y])
    ensures Answers(q, [x, y], Failed(PreferredUnusable(Some(InvalidProfile(
                                        Invalid(BackendVersion, MustNotBeEmpty))))))
    ensures Answers(q, [y, x], Failed(PreferredUnusable(Some(InvalidProfile(
                                        Invalid(SchemaVersion, UnsupportedSchema))))))
  {
    hide FirstError, Answers, ValidRequest, UniqueIds;
    q, x, y := TwinExample();
    TwoInvalid(q, x, y);
    TwoInvalid(q, y, x);
  }

  lemma TwinExample() returns (q: Request, x: Profile, y: Profile)
    ensures ValidRequest(q) && q.preferred == Some(x.backendId) == Some(y.backendId)
    ensures FirstError(x) == Some(Invalid(SchemaVersion, UnsupportedSchema))
    ensures FirstError(y) == Some(Invalid(BackendVersion, MustNotBeEmpty))
  {
    hide FirstError;
    var id: Bytes := [97];
    var certification, range := Certification(Experimental, id, [], []), Range(id, None, None);
    x := Profile(2, id, id, range, certification, map[]);
    y := Profile(SCHEMA_VERSION, id, [], range, certification, map[]);
    q := Request(SCHEMA_VERSION, id, Some(id), [], Experimental, None, None);
    OtherSchema(x);
    NoVersion(y);
  }

  /** Two invalid profiles with the preferred id: the error of the second counts. */
  lemma TwoInvalid(q: Request, x: Profile, y: Profile)
    requires ValidRequest(q) && q.preferred == Some(x.backendId) == Some(y.backendId)
    requires FirstError(x).Some? && FirstError(y).Some?
    ensures UniqueIds([x, y])
    ensures Answers(q, [x, y], Failed(PreferredUnusable(Some(InvalidProfile(FirstError(y).value)))))
  {
    ErrorsMean(x);
    ErrorsMean(y);
    LastOfTwo(q, x, y);
    NobodyChosen(q, x, y);
    hide ValidProfile, FirstError, LastRejection, UniqueIds, Choosable, ValidRequest;
  }

  lemma OtherSchema(p: Profile)
    requires p.schemaVersion != SCHEMA_VERSION
    ensures FirstError(p) == Some(Invalid(SchemaVersion, UnsupportedSchema))
  {
    ErrorInSteps(p);
    hide RangeChecks, CertificationChecks;
    assert HeadChecks(p)[0].Some?;
  }

  lemma NoVersion(p: Profile)
    requires p.schemaVersion == SCHEMA_VERSION && ValidText(p.backendId, MAX_BACKEND_ID_BYTES) && p.version == []
    ensures FirstError(p) == Some(Invalid(BackendVersion, MustNotBeEmpty))
  {
    ErrorInSteps(p);
    hide RangeChecks, CertificationChecks;
    var checks := HeadChecks(p);
    assert checks[0].None? && checks[1].None? && checks[2].Some?;
    assert checks[1..][1..] == checks[2..];
    assert First(checks) == First(checks[1..]) == First(checks[2..]);
  }

  lemma LastOfTwo(q: Request, x: Profile, y: Profile)
    requires q.preferred == Some(y.backendId) && RejectionOf(q, y).Some?
    ensures LastRejection(q, [x, y]) == RejectionOf(q, y)
  {
  }

  lemma NobodyChosen(q: Request, x: Profile, y: Profile)
    requires !ValidProfile(x) && !ValidProfile(y)
    ensures UniqueIds([x, y]) && !Choosable(q, [x, y])
  {
    hide ValidProfile;
    assert forall p :: p in [x, y] ==> p == x || p == y;
  }

  ghost predicate Turned(q: Request, p: Profile) {
    q.preferred == Some(p.backendId) && RejectionOf(q, p).Some?
  }

  ghost predicate SameRejections(q: Request, profiles: seq<Profile>) {
    forall x, y :: x in profiles && y in profiles && Turned(q, x) && Turned(q, y) ==>
                     RejectionOf(q, x) == RejectionOf(q, y)
  }

  lemma {:induction false} LastRejectionMeans(q: Request, profiles: seq<Profile>)
    ensures LastRejection(q, profiles).Some? ==>
            exists p :: p in profiles && Turned(q, p) && RejectionOf(q, p) == LastRejection(q, profiles)
    ensures LastRejection(q, profiles).None? ==> forall p :: p in profiles ==> !Turned(q, p)
  {
    hide RejectionOf;
    if profiles != [] {
      var last := |profiles| - 1;
      LastRejectionMeans(q, profiles[..last]);
      assert profiles == profiles[..last] + [profiles[last]];
    }
  }

  ghost function MovedLast<T>(s: seq<T>, x: T): (r: seq<T>)
    requires x in s
    ensures Permuted(s, r) && |r| > 0 && r[|r| - 1] == x
  {
    var i :| 0 <= i < |s| && s[i] == x;
    assert s == s[..i] + [s[i]] + s[i + 1..];
    s[..i] + s[i + 1..] + [x]
  }
}
