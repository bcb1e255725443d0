/** Capability negotiation between a manifest and a normalized request. */
module Negotiation {
  import opened Common

  datatype Status =
    | Available | AvailableUncertified | Experimental
    | DisabledByPolicy | UnavailableOnPlatform | MissingRuntimeDependency | BlockedBySecurityGate
    | Unknown

  predicate Blocking(s: Status) {
    s.DisabledByPolicy? || s.UnavailableOnPlatform? || s.MissingRuntimeDependency? || s.BlockedBySecurityGate?
  }

  datatype Manifest = Manifest(
    protocolVersion: nat, schemas: map<string, seq<nat>>,
    capabilities: map<string, bool>, statuses: map<string, Status>)

  datatype Request = Request(
    protocolVersions: seq<nat>, schemas: map<string, seq<nat>>,
    required: set<string>, optional: set<string>, acceptsExperimental: bool)

  datatype Agreement = Agreement(protocolVersion: nat, schemas: map<string, nat>, capabilities: map<string, Status>)

  datatype Refusal =
    | InvalidManifest
    | UnsupportedProtocol
    | UnknownSchema(name: string)
    | NoCommonVersion(name: string)
    | UnknownCapability(name: string)
    | NotEnabled(name: string)
    | ExperimentalRefused(name: string)

  datatype Result = Agreed(agreement: Agreement) | Refused(refusal: Refusal)

  predicate ValidEntry(m: Manifest, name: string)
    requires name in m.capabilities
  {
    name in m.statuses ==> !(m.capabilities[name] && Blocking(m.statuses[name])) && !m.statuses[name].Unknown?
  }

  predicate ValidManifest(m: Manifest) {
    forall name :: name in m.capabilities ==> ValidEntry(m, name)
  }

  method Validate(m: Manifest) returns (ok: bool)
    ensures ok <==> ValidManifest(m)
  {
    var left := m.capabilities.Keys;
    while left != {}
      invariant left <= m.capabilities.Keys
      invariant forall name :: name in m.capabilities && name !in left ==> ValidEntry(m, name)
    {
      var name :| name in left;
      left := left - {name};
      if name in m.statuses {
        var status, enabled := m.statuses[name], m.capabilities[name];
        if (enabled && Blocking(status)) || status.Unknown? { return false; }
      }
    }
    ok := true;
  }

  /** The greatest version in both lists. */
  ghost predicate GreatestCommon(v: nat, requested: seq<nat>, supported: seq<nat>) {
    v in requested && v in supported && forall w :: w in requested && w in supported ==> w <= v
  }

  method FindGreatestCommon(requested: seq<nat>, supported: seq<nat>) returns (v: Option<nat>)
    ensures v.Some? ==> GreatestCommon(v.value, requested, supported)
    ensures v.None? ==> forall w :: w in requested ==> w !in supported
  {
    v := None;
    for i := 0 to |requested|
      invariant v.Some? ==> GreatestCommon(v.value, requested[..i], supported)
      invariant v.None? ==> forall w :: w in requested[..i] ==> w !in supported
    {
      var w := requested[i];
      assert requested[..i + 1] == requested[..i] + [w];
      if w in supported && (v.None? || v.value <= w) { v := Some(w); }
    }
    assert requested[..|requested|] == requested;
  }

  function StatusOf(m: Manifest, name: string): Status
    requires name in m.capabilities
  {
    if name in m.statuses then m.statuses[name]
    else if m.capabilities[name] then Available
    else UnavailableOnPlatform
  }

  /** An experimental capability is left out, or refused, without the opt-in. */
  predicate Withheld(m: Manifest, q: Request, name: string)
    requires name in m.capabilities
  {
    StatusOf(m, name).Experimental? && !q.acceptsExperimental
  }

  ghost predicate SchemaAgrees(m: Manifest, q: Request, name: string)
    requires name in q.schemas
  {
    name in m.schemas && exists v :: v in q.schemas[name] && v in m.schemas[name]
  }

  predicate Provides(m: Manifest, q: Request, name: string) {
    name in m.capabilities && m.capabilities[name] && !Withheld(m, q, name)
  }

  /** When a request can be met. */
  ghost predicate Satisfiable(m: Manifest, q: Request) {
    && ValidManifest(m)
    && m.protocolVersion in q.protocolVersions
    && (forall name :: name in q.schemas ==> SchemaAgrees(m, q, name))
    && (forall name :: name in q.required ==> Provides(m, q, name))
  }

  function Requested(m: Manifest, q: Request): set<string> {
    if q.required == {} && q.optional == {} then m.capabilities.Keys else q.required + q.optional
  }

  ghost predicate AgreedSchemas(m: Manifest, q: Request, schemas: map<string, nat>) {
    if q.schemas == map[] then
      schemas.Keys == (set name | name in m.schemas && m.schemas[name] != []) &&
      forall name :: name in schemas ==> GreatestCommon(schemas[name], m.schemas[name], m.schemas[name])
    else
      schemas.Keys == q.schemas.Keys && schemas.Keys <= m.schemas.Keys &&
      forall name :: name in schemas ==> GreatestCommon(schemas[name], q.schemas[name], m.schemas[name])
  }

  ghost predicate AgreedCapabilities(m: Manifest, q: Request, capabilities: map<string, Status>) {
    && (forall name :: name in capabilities <==>
          name in Requested(m, q) && name in m.capabilities && !Withheld(m, q, name))
    && (forall name :: name in capabilities ==> capabilities[name] == StatusOf(m, name))
  }

  /** What an answer must be. */
  ghost predicate Answers(m: Manifest, q: Request, r: Result) {
    if Satisfiable(m, q) then
      r.Agreed? && r.agreement.protocolVersion == m.protocolVersion &&
      AgreedSchemas(m, q, r.agreement.schemas) && AgreedCapabilities(m, q, r.agreement.capabilities)
    else r.Refused? && Justified(m, q, r.refusal)
  }

  /** A refusal names something that is really wrong. */
  ghost predicate Justified(m: Manifest, q: Request, refusal: Refusal) {
    match refusal
    case InvalidManifest => !ValidManifest(m)
    case UnsupportedProtocol => m.protocolVersion !in q.protocolVersions
    case UnknownSchema(name) => name in q.schemas && name !in m.schemas
    case NoCommonVersion(name) => name in q.schemas && name in m.schemas && !SchemaAgrees(m, q, name)
    case UnknownCapability(name) => name in q.required && name !in m.capabilities
    case NotEnabled(name) => name in q.required && name in m.capabilities && !m.capabilities[name]
    case ExperimentalRefused(name) => name in q.required && name in m.capabilities && Withheld(m, q, name)
  }

  method AgreeOnSchemas(m: Manifest, q: Request) returns (refusal: Option<Refusal>, schemas: map<string, nat>)
    ensures refusal.None? ==> forall name :: name in q.schemas ==> SchemaAgrees(m, q, name)
    ensures refusal.None? ==> AgreedSchemas(m, q, schemas)
    ensures refusal.Some? ==> Justified(m, q, refusal.value)
    ensures refusal.Some? ==> exists name :: name in q.schemas && !SchemaAgrees(m, q, name)
  {
    schemas := map[];
    var left := q.schemas.Keys;
    while left != {}
      invariant left <= q.schemas.Keys && schemas.Keys == q.schemas.Keys - left && schemas.Keys <= m.schemas.Keys
      invariant forall name :: name in schemas ==> GreatestCommon(schemas[name], q.schemas[name], m.schemas[name])
    {
      var name :| name in left;
      left := left - {name};
      if name !in m.schemas { return Some(UnknownSchema(name)), schemas; }
      var version := FindGreatestCommon(q.schemas[name], m.schemas[name]);
      if version.None? { return Some(NoCommonVersion(name)), schemas; }
      schemas := schemas[name := version.value];
    }
    if schemas == map[] {
      assert q.schemas.Keys == {};
      schemas := LatestSchemas(m);
    }
    refusal := None;
  }

  method LatestSchemas(m: Manifest) returns (schemas: map<string, nat>)
    ensures schemas.Keys == set name | name in m.schemas && m.schemas[name] != []
    ensures forall name :: name in schemas ==> GreatestCommon(schemas[name], m.schemas[name], m.schemas[name])
  {
    schemas := map[];
    var left := m.schemas.Keys;
    while left != {}
      invariant left <= m.schemas.Keys
      invariant schemas.Keys == set name | name in m.schemas && name !in left && m.schemas[name] != []
      invariant forall name :: name in schemas ==> GreatestCommon(schemas[name], m.schemas[name], m.schemas[name])
    {
      var name :| name in left;
      left := left - {name};
      var version := FindGreatestCommon(m.schemas[name], m.schemas[name]);
      assert m.schemas[name] == [] || m.schemas[name][0] in m.schemas[name];
      if version.Some? { schemas := schemas[name := version.value]; }
    }
  }

  method AgreeOnCapabilities(m: Manifest, q: Request)
    returns (refusal: Option<Refusal>, capabilities: map<string, Status>)
    ensures refusal.None? ==> forall name :: name in q.required ==> Provides(m, q, name)
    ensures refusal.None? ==> AgreedCapabilities(m, q, capabilities)
    ensures refusal.Some? ==> Justified(m, q, refusal.value)
    ensures refusal.Some? ==> exists name :: name in q.required && !Provides(m, q, name)
  {
    capabilities := map[];
    var left := Requested(m, q);
    while left != {}
      invariant left <= Requested(m, q)
      invariant forall name :: name in q.required && name !in left ==> Provides(m, q, name)
      invariant forall name :: name in capabilities <==>
                  name in Requested(m, q) && name !in left && name in m.capabilities && !Withheld(m, q, name)
      invariant forall name :: name in capabilities ==> capabilities[name] == StatusOf(m, name)
    {
      var name :| name in left;
      left := left - {name};
      if name !in m.capabilities {
        if name in q.required { return Some(UnknownCapability(name)), capabilities; }
      } else if name in q.required && !m.capabilities[name] {
        return Some(NotEnabled(name)), capabilities;
      } else if Withheld(m, q, name) {
        if name in q.required { return Some(ExperimentalRefused(name)), capabilities; }
      } else {
        capabilities := capabilities[name := StatusOf(m, name)];
      }
    }
    refusal := None;
  }

  /** The request a missing one stands for: everything the manifest has. */
  function DefaultRequest(m: Manifest): Request {
    Request([m.protocolVersion], map[], {}, m.capabilities.Keys, true)
  }

  function Effective(m: Manifest, request: Option<Request>): Request {
    if request.Some? then request.value else DefaultRequest(m)
  }

  method Negotiate(m: Manifest, request: Option<Request>) returns (r: Result)
    ensures Answers(m, Effective(m, request), r)
  {
    var valid := Validate(m);
    if !valid { return Refused(InvalidManifest); }
    var q := Effective(m, request);
    if m.protocolVersion !in q.protocolVersions { return Refused(UnsupportedProtocol); }
    var refusal, schemas := AgreeOnSchemas(m, q);
    if refusal.Some? { return Refused(refusal.value); }
    var denied, capabilities := AgreeOnCapabilities(m, q);
    if denied.Some? { return Refused(denied.value); }
    r := Agreed(Agreement(m.protocolVersion, schemas, capabilities));
  }

  // ---- what an agreement guarantees -----------------------------------------

  /** Every required capability is in the agreement, enabled, and of a known
      status that does not block it. */
  lemma RequiredCapabilitiesWork(m: Manifest, q: Request, r: Result, name: string)
    requires Answers(m, q, r) && r.Agreed? && name in q.required
    ensures name in r.agreement.capabilities && name in m.capabilities && m.capabilities[name]
    ensures !Blocking(r.agreement.capabilities[name]) && !r.agreement.capabilities[name].Unknown?
    ensures r.agreement.capabilities[name] in {Available, AvailableUncertified, Experimental}
  {
    assert Provides(m, q, name) && ValidEntry(m, name);
    assert name in Requested(m, q);
  }

  /** Nothing experimental is agreed on without the opt-in. */
  lemma NothingExperimentalUnasked(m: Manifest, q: Request, r: Result, name: string)
    requires Answers(m, q, r) && r.Agreed? && name in r.agreement.capabilities && !q.acceptsExperimental
    ensures !r.agreement.capabilities[name].Experimental?
  {
    assert !Withheld(m, q, name);
  }

  /** An agreed capability has the status the manifest states, or, where it states
      none, that of being available or of not being there. */
  lemma StatusesAgree(m: Manifest, q: Request, r: Result, name: string)
    requires Answers(m, q, r) && r.Agreed? && name in r.agreement.capabilities
    ensures name in m.capabilities
    ensures r.agreement.capabilities[name] ==
            if name in m.statuses then m.statuses[name]
            else if m.capabilities[name] then Available else UnavailableOnPlatform
  {
  }

  /** The same request with more versions for schemas it already names. */
  ghost predicate Widens(q: Request, wider: Request) {
    && wider == q.(schemas := wider.schemas)
    && wider.schemas.Keys == q.schemas.Keys
    && forall name :: name in q.schemas ==> forall v :: v in q.schemas[name] ==> v in wider.schemas[name]
  }

  /** Offering more versions never loses an agreement, never lowers a version and
      never changes the capabilities. */
  lemma WideningOnlyHelps(m: Manifest, q: Request, wider: Request, r: Result, s: Result)
    requires Widens(q, wider) && Answers(m, q, r) && Answers(m, wider, s) && r.Agreed?
    ensures s.Agreed? && s.agreement.capabilities == r.agreement.capabilities
    ensures s.agreement.schemas.Keys == r.agreement.schemas.Keys
    ensures forall name :: name in r.agreement.schemas ==> r.agreement.schemas[name] <= s.agreement.schemas[name]
  {
    forall name | name in wider.schemas ensures SchemaAgrees(m, wider, name) {
      assert SchemaAgrees(m, q, name);
      var v :| v in q.schemas[name] && v in m.schemas[name];
      assert v in wider.schemas[name];
    }
    forall name | name in q.required ensures Provides(m, wider, name) {
      assert Provides(m, q, name);
    }
    assert Satisfiable(m, wider);
    assert q.schemas == map[] <==> q.schemas.Keys == {};
    assert wider.schemas == map[] <==> wider.schemas.Keys == {};
    var a, b := r.agreement, s.agreement;
    assert Requested(m, q) == Requested(m, wider);
    assert forall name :: name in a.capabilities <==> name in b.capabilities;
  }

  /** A missing request is refused only by an invalid manifest, and otherwise
      agrees on the latest version of every schema and on every capability. */
  lemma MissingRequestAgrees(m: Manifest, r: Result)
    requires Answers(m, DefaultRequest(m), r)
    ensures r.Agreed? <==> ValidManifest(m)
    ensures r.Agreed? ==> r.agreement.capabilities.Keys == m.capabilities.Keys
    ensures r.Agreed? ==> forall name :: name in r.agreement.schemas <==> name in m.schemas && m.schemas[name] != []
    ensures r.Agreed? ==> forall name :: name in r.agreement.schemas ==>
                            GreatestCommon(r.agreement.schemas[name], m.schemas[name], m.schemas[name])
  {
    var q := DefaultRequest(m);
    assert Satisfiable(m, q) <==> ValidManifest(m);
    if r.Agreed? {
      assert forall name :: name in m.capabilities ==> name in Requested(m, q) && !Withheld(m, q, name);
    }
  }

  /** Answers are determined: two that meet the contract agree on success and on
      the whole agreement. */
  lemma OneAnswer(m: Manifest, q: Request, r: Result, s: Result)
    requires Answers(m, q, r) && Answers(m, q, s)
    ensures r.Agreed? == s.Agreed? && (r.Agreed? ==> r == s)
  {
    if r.Agreed? {
      var a, b := r.agreement, s.agreement;
      assert a.schemas.Keys == b.schemas.Keys;
      forall name | name in a.schemas ensures a.schemas[name] == b.schemas[name] {
        assert a.schemas[name] <= b.schemas[name] <= a.schemas[name];
      }
      assert a.schemas == b.schemas;
      assert forall name :: name in a.capabilities <==> name in b.capabilities;
      assert a.capabilities == b.capabilities;
    }
  }
}
