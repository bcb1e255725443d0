/** Backend profiles and selection requests, and what makes them valid. */
module BackendProfile {
  import opened Common
  import opened ByteText
  import opened DependencyClosure
  import opened VersionOrder

  const SCHEMA_VERSION := 1
  const MAX_BACKEND_ID_BYTES := 128
  const MAX_VERSION_BYTES := 128
  const MAX_BROWSER_FAMILY_BYTES := 64
  const MAX_CAPABILITIES := 32
  const MAX_DEPENDENCIES := 16
  const MAX_LIMITATIONS := 16
  const MAX_LIMITATION_BYTES := 256
  const MAX_SELECTION_REQUIREMENTS := 32
  const MAX_BACKEND_CANDIDATES := 32

  datatype Capability =
    | Lifecycle | Navigation | Contexts | Evidence | Action | Effects
    | Script | Capture | Storage | Prompts | Downloads

  const ALL_CAPABILITIES: seq<Capability> :=
    [Lifecycle, Navigation, Contexts, Evidence, Action, Effects, Script, Capture, Storage, Prompts, Downloads]

  datatype CertificationLevel = ProductionCertified | Experimental | PartiallyCertified | Unsupported {
    function Rank(): nat {
      match this
      case ProductionCertified => 4
      case Experimental => 3
      case PartiallyCertified => 2
      case Unsupported => 1
    }
  }

  datatype Certification =
    Certification(level: CertificationLevel, glassVersion: Bytes, tested: seq<Capability>, limitations: seq<Bytes>)

  datatype Profile = Profile(
    schemaVersion: int, backendId: Bytes, version: Bytes, browser: Range,
    certification: Certification, capabilities: Graph<Capability>)

  datatype Requirement = Requirement(capability: Capability, minimum: SupportLevel)

  datatype Request = Request(
    schemaVersion: int, glassVersion: Bytes, preferred: Option<Bytes>, required: seq<Requirement>,
    minimumCertification: CertificationLevel, family: Option<Bytes>, version: Option<Bytes>)

  // ---- what a valid profile is ----------------------------------------------

  predicate ValidText(s: Bytes, max: nat) {
    s != [] && |s| <= max
  }

  predicate ValidLimitations(limitations: seq<Bytes>) {
    |limitations| <= MAX_LIMITATIONS &&
    forall i :: 0 <= i < |limitations| ==> ValidText(limitations[i], MAX_LIMITATION_BYTES)
  }

  predicate ValidRange(r: Range) {
    && ValidText(r.family, MAX_BROWSER_FAMILY_BYTES)
    && (r.minimum.Some? ==> ValidText(r.minimum.value, MAX_VERSION_BYTES))
    && (r.maximum.Some? ==> ValidText(r.maximum.value, MAX_VERSION_BYTES))
    && EndsInOrder(r)
  }

  predicate ValidCertification(c: Certification) {
    && ValidText(c.glassVersion, MAX_VERSION_BYTES)
    && |c.tested| <= MAX_CAPABILITIES
    && ValidLimitations(c.limitations)
    && (c.level == ProductionCertified ==> c.tested != [])
    && (c.level == Unsupported ==> forall i :: 0 <= i < |c.tested| ==> c.tested[i] == Contexts)
  }

  predicate ValidDescriptor(d: Descriptor<Capability>) {
    && |d.dependencies| <= MAX_DEPENDENCIES
    && ValidLimitations(d.limitations)
    && (forall i :: 0 <= i < |d.dependencies| ==> ValidText(d.dependencies[i].reason, MAX_LIMITATION_BYTES))
    && (d.level == SupportLevel.Unavailable ==> d.dependencies == [])
  }

  /** Everything `validate` checks apart from the dependency closure. */
  predicate WellStated(p: Profile) {
    && p.schemaVersion == SCHEMA_VERSION
    && ValidText(p.backendId, MAX_BACKEND_ID_BYTES) && ValidText(p.version, MAX_VERSION_BYTES)
    && ValidRange(p.browser) && ValidCertification(p.certification)
    && |p.capabilities| <= MAX_CAPABILITIES
    && (forall k :: k in p.capabilities ==> ValidDescriptor(p.capabilities[k]))
    && (forall i :: 0 <= i < |p.certification.tested| ==>
          p.certification.tested[i] in p.capabilities &&
          p.capabilities[p.certification.tested[i]].level != SupportLevel.Unavailable)
    && (p.certification.level == Unsupported ==>
          forall k :: k in p.capabilities ==> p.capabilities[k].level == SupportLevel.Unavailable)
  }

  ghost predicate ValidProfile(p: Profile) {
    WellStated(p) && Acyclic(p.capabilities) && AllSound(p.capabilities)
  }

  // ---- the checks, in the order of the source -------------------------------

  /** What an error is about, and what is wrong with it. */
  datatype Subject =
    | SchemaVersion | BackendId | BackendVersion
    | BrowserFamily | BrowserMinimum | BrowserMaximum | BrowserVersions
    | CertifiedGlassVersion | TestedCapabilities | CertificationLimitations | CertificationLimitation
    | Capabilities | Dependencies | DependencyReason | Limitations | Limitation
    | GlassVersion | PreferredId | RequiredCapabilities | RequiredCapability | BrowserVersion

  datatype Complaint =
    | UnsupportedSchema | MustNotBeEmpty | TooLong(bytes: nat) | HoldsAtMost(entries: nat) | TooManyEntries
    | MinimumExceedsMaximum | CoverageMissing | SemanticsClaimed | UnavailableDepends
    | MustBeDeclared | MustBeSupported | CycleDetected | DependencyUndeclared | DependencyTooWeak
    | UnsupportedAdvertises
    | MinimumUnavailable | FamilyMissing

  datatype ProfileError = Invalid(subject: Subject, complaint: Complaint)

  type Check = Option<ProfileError>

  function Require(holds: bool, subject: Subject, complaint: Complaint): Check {
    if holds then None else Some(Invalid(subject, complaint))
  }

  function CheckText(subject: Subject, text: Bytes, max: nat): Check {
    if text == [] then Some(Invalid(subject, MustNotBeEmpty)) else Require(|text| <= max, subject, TooLong(max))
  }

  function CheckOptional(subject: Subject, text: Option<Bytes>, max: nat): Check {
    if text.None? then None else CheckText(subject, text.value, max)
  }

  function CheckTexts(subject: Subject, texts: seq<Bytes>, max: nat): seq<Check> {
    seq(|texts|, i requires 0 <= i < |texts| => CheckText(subject, texts[i], max))
  }

  /** The first error of a list of checks, where `?` stops. */
  function First(checks: seq<Check>): Check {
    if checks == [] then None else if checks[0].Some? then checks[0] else First(checks[1..])
  }

  predicate AllPass(checks: seq<Check>) {
    forall i :: 0 <= i < |checks| ==> checks[i].None?
  }

  lemma {:induction false} FirstPasses(checks: seq<Check>)
    ensures First(checks).None? <==> AllPass(checks)
  {
    if checks != [] {
      FirstPasses(checks[1..]);
      assert forall i :: 0 < i < |checks| ==> checks[i] == checks[1..][i - 1];
    }
  }

  lemma {:induction false} FirstJoins(a: seq<Check>, b: seq<Check>)
    ensures First(a + b) == if First(a).Some? then First(a) else First(b)
  {
    if a == [] {
      assert a + b == b;
    } else {
      assert (a + b)[1..] == a[1..] + b && (a + b)[0] == a[0];
      FirstJoins(a[1..], b);
    }
  }

  function RangeChecks(r: Range): seq<Check> {
    [CheckText(BrowserFamily, r.family, MAX_BROWSER_FAMILY_BYTES),
     CheckOptional(BrowserMinimum, r.minimum, MAX_VERSION_BYTES),
     CheckOptional(BrowserMaximum, r.maximum, MAX_VERSION_BYTES),
     Require(EndsInOrder(r), BrowserVersions, MinimumExceedsMaximum)]
  }

  function CertificationChecks(c: Certification): seq<Check> {
    [CheckText(CertifiedGlassVersion, c.glassVersion, MAX_VERSION_BYTES),
     Require(|c.tested| <= MAX_CAPABILITIES, TestedCapabilities, HoldsAtMost(MAX_CAPABILITIES)),
     Require(|c.limitations| <= MAX_LIMITATIONS, CertificationLimitations, HoldsAtMost(MAX_LIMITATIONS))] +
    CheckTexts(CertificationLimitation, c.limitations, MAX_LIMITATION_BYTES) +
    [Require(c.level == ProductionCertified ==> c.tested != [], TestedCapabilities, CoverageMissing),
     Require(c.level == Unsupported ==> forall i :: 0 <= i < |c.tested| ==> c.tested[i] == Contexts,
             TestedCapabilities, SemanticsClaimed)]
  }

  function HeadChecks(p: Profile): seq<Check> {
    [Require(p.schemaVersion == SCHEMA_VERSION, SchemaVersion, UnsupportedSchema),
     CheckText(BackendId, p.backendId, MAX_BACKEND_ID_BYTES),
     CheckText(BackendVersion, p.version, MAX_VERSION_BYTES)] +
    RangeChecks(p.browser) + CertificationChecks(p.certification) +
    [Require(|p.capabilities| <= MAX_CAPABILITIES, Capabilities, HoldsAtMost(MAX_CAPABILITIES))]
  }

  function Reasons(d: Descriptor<Capability>): seq<Bytes> {
    seq(|d.dependencies|, i requires 0 <= i < |d.dependencies| => d.dependencies[i].reason)
  }

  function DescriptorChecks(d: Descriptor<Capability>): seq<Check> {
    [Require(|d.dependencies| <= MAX_DEPENDENCIES, Dependencies, TooManyEntries),
     Require(|d.limitations| <= MAX_LIMITATIONS, Limitations, TooManyEntries)] +
    CheckTexts(DependencyReason, Reasons(d), MAX_LIMITATION_BYTES) +
    CheckTexts(Limitation, d.limitations, MAX_LIMITATION_BYTES) +
    [Require(d.level == SupportLevel.Unavailable ==> d.dependencies == [], Dependencies, UnavailableDepends)]
  }

  function CheckTested(g: Graph<Capability>, k: Capability): Check {
    if k !in g then Some(Invalid(TestedCapabilities, MustBeDeclared))
    else Require(g[k].level != SupportLevel.Unavailable, TestedCapabilities, MustBeSupported)
  }

  function TestedChecks(p: Profile): seq<Check> {
    var tested := p.certification.tested;
    seq(|tested|, i requires 0 <= i < |tested| => CheckTested(p.capabilities, tested[i]))
  }

  function VerdictError(v: Verdict): Check {
    match v
    case Sound => None
    case Cycle => Some(Invalid(Dependencies, CycleDetected))
    case Undeclared => Some(Invalid(Dependencies, DependencyUndeclared))
    case BelowLevel => Some(Invalid(Dependencies, DependencyTooWeak))
  }

  function CheckAdvertised(p: Profile): Check {
    Require(p.certification.level == Unsupported ==>
              forall k :: k in p.capabilities ==> p.capabilities[k].level == SupportLevel.Unavailable,
            Capabilities, UnsupportedAdvertises)
  }

  /** The declared capabilities in the order of the map. */
  function KeysAmong(g: Graph<Capability>, order: seq<Capability>): (keys: seq<Capability>)
    ensures forall k :: k in keys <==> k in order && k in g
  {
    if order == [] then []
    else if order[0] in g then [order[0]] + KeysAmong(g, order[1..])
    else KeysAmong(g, order[1..])
  }

  function KeysOf(g: Graph<Capability>): (keys: seq<Capability>)
    ensures forall k :: k in keys ==> k in g
  {
    KeysAmong(g, ALL_CAPABILITIES)
  }

  function FirstOfDescriptors(g: Graph<Capability>, keys: seq<Capability>): Check
    requires forall k :: k in keys ==> k in g
  {
    if keys == [] then None
    else
      var error := First(DescriptorChecks(g[keys[0]]));
      if error.Some? then error else FirstOfDescriptors(g, keys[1..])
  }

  /** The error that `validate` reports: the first one in the order of its
      checks, where maps are walked in the order of their keys. */
  function FirstError(p: Profile): Check {
    var keys := KeysOf(p.capabilities);
    First(HeadChecks(p) + [FirstOfDescriptors(p.capabilities, keys)] + TestedChecks(p) +
          [VerdictError(FirstVerdict(p.capabilities, keys)), CheckAdvertised(p)])
  }

  lemma AllIsAll(k: Capability)
    ensures k in ALL_CAPABILITIES
  {
    var all := ALL_CAPABILITIES;
    assert all[0] == Lifecycle && all[1] == Navigation && all[2] == Contexts && all[3] == Evidence;
    assert all[4] == Action && all[5] == Effects && all[6] == Script && all[7] == Capture;
    assert all[8] == Storage && all[9] == Prompts && all[10] == Downloads;
  }

  lemma KeysAreAll(g: Graph<Capability>)
    ensures Elements(KeysOf(g)) == g.Keys
  {
    forall k | k in g ensures k in KeysOf(g) { AllIsAll(k); }
  }

  // ---- what the checks amount to --------------------------------------------

  lemma JoinPasses(a: seq<Check>, b: seq<Check>)
    ensures AllPass(a + b) <==> AllPass(a) && AllPass(b)
  {
    assert forall i :: 0 <= i < |a| ==> (a + b)[i] == a[i];
    assert forall i :: 0 <= i < |b| ==> (a + b)[|a| + i] == b[i];
  }

  lemma TextsPass(subject: Subject, texts: seq<Bytes>, max: nat)
    ensures AllPass(CheckTexts(subject, texts, max)) <==> forall i :: 0 <= i < |texts| ==> ValidText(texts[i], max)
  {
    var checks := CheckTexts(subject, texts, max);
    assert forall i :: 0 <= i < |texts| ==> checks[i] == CheckText(subject, texts[i], max);
  }

  lemma RangePasses(r: Range)
    ensures AllPass(RangeChecks(r)) <==> ValidRange(r)
  {
    hide EndsInOrder;
    var checks := RangeChecks(r);
    assert AllPass(checks) <==> checks[0].None? && checks[1].None? && checks[2].None? && checks[3].None?;
  }

  lemma CertificationPasses(c: Certification)
    ensures AllPass(CertificationChecks(c)) <==> ValidCertification(c)
  {
    var limits := CheckTexts(CertificationLimitation, c.limitations, MAX_LIMITATION_BYTES);
    var all := CertificationChecks(c);
    var front, back := all[..3], all[3 + |limits|..];
    assert all == front + limits + back;
    JoinPasses(front + limits, back);
    JoinPasses(front, limits);
    TextsPass(CertificationLimitation, c.limitations, MAX_LIMITATION_BYTES);
    hide CheckTexts;
    assert AllPass(front) <==> front[0].None? && front[1].None? && front[2].None?;
    assert AllPass(back) <==> back[0].None? && back[1].None?;
  }

  lemma HeadPasses(p: Profile)
    ensures AllPass(HeadChecks(p)) <==>
            && p.schemaVersion == SCHEMA_VERSION
            && ValidText(p.backendId, MAX_BACKEND_ID_BYTES) && ValidText(p.version, MAX_VERSION_BYTES)
            && ValidRange(p.browser) && ValidCertification(p.certification)
            && |p.capabilities| <= MAX_CAPABILITIES
  {
    RangePasses(p.browser);
    CertificationPasses(p.certification);
    hide RangeChecks, CertificationChecks, ValidRange, ValidCertification;
    var range, certification := RangeChecks(p.browser), CertificationChecks(p.certification);
    var all := HeadChecks(p);
    var front, back := all[..3], all[3 + |range| + |certification|..];
    assert all == front + range + certification + back;
    JoinPasses(front + range + certification, back);
    JoinPasses(front + range, certification);
    JoinPasses(front, range);
    assert AllPass(front) <==> front[0].None? && front[1].None? && front[2].None?;
    assert AllPass(back) <==> back[0].None?;
  }

  lemma DescriptorPasses(d: Descriptor<Capability>)
    ensures AllPass(DescriptorChecks(d)) <==> ValidDescriptor(d)
  {
    var reasons := CheckTexts(DependencyReason, Reasons(d), MAX_LIMITATION_BYTES);
    var limits := CheckTexts(Limitation, d.limitations, MAX_LIMITATION_BYTES);
    var all := DescriptorChecks(d);
    var front, back := all[..2], all[2 + |reasons| + |limits|..];
    assert all == front + reasons + limits + back;
    JoinPasses(front + reasons + limits, back);
    JoinPasses(front + reasons, limits);
    JoinPasses(front, reasons);
    TextsPass(DependencyReason, Reasons(d), MAX_LIMITATION_BYTES);
    TextsPass(Limitation, d.limitations, MAX_LIMITATION_BYTES);
    assert forall i :: 0 <= i < |d.dependencies| ==> Reasons(d)[i] == d.dependencies[i].reason;
    hide CheckTexts, Reasons;
    assert AllPass(front) <==> front[0].None? && front[1].None?;
    assert AllPass(back) <==> back[0].None?;
  }

  lemma {:induction false} DescriptorsPass(g: Graph<Capability>, keys: seq<Capability>)
    requires forall k :: k in keys ==> k in g
    ensures FirstOfDescriptors(g, keys).None? <==> forall k :: k in keys ==> ValidDescriptor(g[k])
  {
    hide DescriptorChecks, ValidDescriptor;
    if keys != [] {
      DescriptorsPass(g, keys[1..]);
      DescriptorPasses(g[keys[0]]);
      FirstPasses(DescriptorChecks(g[keys[0]]));
      assert forall k :: k in keys <==> k == keys[0] || k in keys[1..];
    }
  }

  lemma TestedPass(p: Profile)
    ensures AllPass(TestedChecks(p)) <==>
            forall i :: 0 <= i < |p.certification.tested| ==>
                          p.certification.tested[i] in p.capabilities &&
                          p.capabilities[p.certification.tested[i]].level != SupportLevel.Unavailable
  {
    var tested, checks := p.certification.tested, TestedChecks(p);
    assert forall i :: 0 <= i < |tested| ==> checks[i] == CheckTested(p.capabilities, tested[i]);
  }

  /** No error is reported exactly when every check passes. */
  lemma FirstErrorPasses(p: Profile)
    ensures FirstError(p).None? <==>
            && AllPass(HeadChecks(p)) && FirstOfDescriptors(p.capabilities, KeysOf(p.capabilities)).None?
            && AllPass(TestedChecks(p)) && FirstVerdict(p.capabilities, KeysOf(p.capabilities)) == Sound
            && CheckAdvertised(p).None?
  {
    hide HeadChecks, FirstOfDescriptors, TestedChecks, FirstVerdict, CheckAdvertised, KeysOf;
    var keys := KeysOf(p.capabilities);
    var described := [FirstOfDescriptors(p.capabilities, keys)];
    var back := [VerdictError(FirstVerdict(p.capabilities, keys)), CheckAdvertised(p)];
    var head, tested := HeadChecks(p), TestedChecks(p);
    FirstPasses(head + described + tested + back);
    JoinPasses(head + described + tested, back);
    JoinPasses(head + described, tested);
    JoinPasses(head, described);
    assert AllPass(described) <==> described[0].None?;
    assert AllPass(back) <==> back[0].None? && back[1].None?;
  }

  /** The checks apart from the dependency search pass exactly on well-stated
      profiles. */
  lemma WellStatedPasses(p: Profile)
    ensures WellStated(p) <==>
            && AllPass(HeadChecks(p)) && FirstOfDescriptors(p.capabilities, KeysOf(p.capabilities)).None?
            && AllPass(TestedChecks(p)) && CheckAdvertised(p).None?
  {
    hide HeadChecks, FirstOfDescriptors, TestedChecks, KeysOf, ValidRange, ValidCertification, ValidDescriptor;
    var keys := KeysOf(p.capabilities);
    HeadPasses(p);
    KeysAreAll(p.capabilities);
    DescriptorsPass(p.capabilities, keys);
    assert forall k :: k in keys <==> k in Elements(keys);
    TestedPass(p);
  }

  /** A profile without an error is exactly a valid one. */
  lemma ErrorsMean(p: Profile)
    ensures FirstError(p).None? <==> ValidProfile(p)
  {
    hide FirstError, HeadChecks, FirstOfDescriptors, TestedChecks, CheckAdvertised, FirstVerdict, KeysOf, AllPass;
    hide WellStated, Acyclic, AllSound;
    FirstErrorPasses(p);
    WellStatedPasses(p);
    KeysAreAll(p.capabilities);
    SearchesExactly(p.capabilities, KeysOf(p.capabilities));
  }

  /** `validate`: no error exactly for a valid profile, and otherwise the first in
      the order of the checks. */
  method ValidateProfile(p: Profile) returns (error: Check)
    ensures error == FirstError(p)
    ensures error.None? <==> ValidProfile(p)
  {
    hide HeadChecks, DescriptorChecks, TestedChecks, CheckAdvertised, ValidProfile, FirstVerdict, KeysOf;
    var g := p.capabilities;
    var keys := KeysOf(g);
    KeysAreAll(g);
    ErrorsMean(p);
    ErrorInSteps(p);
    hide FirstError;
    error := First(HeadChecks(p));
    if error.Some? { return; }
    assert keys[0..] == keys;
    for i := 0 to |keys|
      invariant FirstOfDescriptors(g, keys) == FirstOfDescriptors(g, keys[i..])
    {
      error := First(DescriptorChecks(g[keys[i]]));
      assert keys[i..][1..] == keys[i + 1..];
      if error.Some? { return; }
    }
    error := First(TestedChecks(p));
    if error.Some? { return; }
    var verdict := ValidateDependencies(g, keys);
    error := VerdictError(verdict);
    if error.Some? { return; }
    error := CheckAdvertised(p);
  }

  /** The groups of checks one after the other. */
  lemma ErrorInSteps(p: Profile)
    ensures var keys := KeysOf(p.capabilities);
            var head, described := First(HeadChecks(p)), FirstOfDescriptors(p.capabilities, keys);
            var tested, closed := First(TestedChecks(p)), VerdictError(FirstVerdict(p.capabilities, keys));
            FirstError(p) == if head.Some? then head else if described.Some? then described
                             else if tested.Some? then tested else if closed.Some? then closed else CheckAdvertised(p)
  {
    hide HeadChecks, FirstOfDescriptors, TestedChecks, FirstVerdict, CheckAdvertised, KeysOf;
    var keys := KeysOf(p.capabilities);
    var described := [FirstOfDescriptors(p.capabilities, keys)];
    var closed, last := VerdictError(FirstVerdict(p.capabilities, keys)), CheckAdvertised(p);
    FirstJoins(HeadChecks(p) + described + TestedChecks(p), [closed, last]);
    FirstJoins(HeadChecks(p) + described, TestedChecks(p));
    FirstJoins(HeadChecks(p), described);
    assert described[1..] == [] && [closed, last][1..] == [last] && [last][1..] == [];
  }

  predicate ValidRequest(q: Request) {
    && q.schemaVersion == SCHEMA_VERSION
    && ValidText(q.glassVersion, MAX_VERSION_BYTES)
    && (q.preferred.Some? ==> ValidText(q.preferred.value, MAX_BACKEND_ID_BYTES))
    && |q.required| <= MAX_SELECTION_REQUIREMENTS
    && (forall i :: 0 <= i < |q.required| ==> q.required[i].minimum != SupportLevel.Unavailable)
    && (q.family.Some? ==> ValidText(q.family.value, MAX_BROWSER_FAMILY_BYTES))
    && (q.version.Some? ==> q.family.Some? && ValidText(q.version.value, MAX_VERSION_BYTES))
  }

  // ---- requests -------------------------------------------------------------

  function RequirementChecks(required: seq<Requirement>): seq<Check> {
    seq(|required|, i requires 0 <= i < |required| =>
          Require(required[i].minimum != SupportLevel.Unavailable, RequiredCapability, MinimumUnavailable))
  }

  function CheckBrowserVersion(q: Request): Check {
    if q.version.None? then None
    else if q.family.None? then Some(Invalid(BrowserFamily, FamilyMissing))
    else CheckText(BrowserVersion, q.version.value, MAX_VERSION_BYTES)
  }

  /** The error that `validate` of a request reports first. */
  function FirstRequestError(q: Request): Check {
    First([Require(q.schemaVersion == SCHEMA_VERSION, SchemaVersion, UnsupportedSchema),
           CheckText(GlassVersion, q.glassVersion, MAX_VERSION_BYTES),
           CheckOptional(PreferredId, q.preferred, MAX_BACKEND_ID_BYTES),
           Require(|q.required| <= MAX_SELECTION_REQUIREMENTS, RequiredCapabilities,
                   HoldsAtMost(MAX_SELECTION_REQUIREMENTS))] +
          RequirementChecks(q.required) +
          [CheckOptional(BrowserFamily, q.family, MAX_BROWSER_FAMILY_BYTES), CheckBrowserVersion(q)])
  }

  /** A request has no error exactly when it is valid. */
  lemma RequestErrorsMean(q: Request)
    ensures FirstRequestError(q).None? <==> ValidRequest(q)
  {
    var front := [Require(q.schemaVersion == SCHEMA_VERSION, SchemaVersion, UnsupportedSchema),
                  CheckText(GlassVersion, q.glassVersion, MAX_VERSION_BYTES),
                  CheckOptional(PreferredId, q.preferred, MAX_BACKEND_ID_BYTES),
                  Require(|q.required| <= MAX_SELECTION_REQUIREMENTS, RequiredCapabilities,
                          HoldsAtMost(MAX_SELECTION_REQUIREMENTS))];
    var required := RequirementChecks(q.required);
    var back := [CheckOptional(BrowserFamily, q.family, MAX_BROWSER_FAMILY_BYTES), CheckBrowserVersion(q)];
    FirstPasses(front + required + back);
    JoinPasses(front + required, back);
    JoinPasses(front, required);
    assert AllPass(front) <==> front[0].None? && front[1].None? && front[2].None? && front[3].None?;
    assert AllPass(back) <==> back[0].None? && back[1].None?;
    assert forall i :: 0 <= i < |required| ==>
        (required[i].None? <==> q.required[i].minimum != SupportLevel.Unavailable);
  }

  /** A capability that is not declared counts as unavailable. */
  function LevelOf(p: Profile, k: Capability): SupportLevel {
    if k in p.capabilities then p.capabilities[k].level else SupportLevel.Unavailable
  }
}
