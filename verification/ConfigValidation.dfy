/**
  The check a loaded configuration has passed. The method stops at the first defect; its
  contract says what being valid means and that a reported defect is the first one.
 */
module ConfigValidation {
  import opened Wrappers
  import opened Text
  import opened Config
  import opened EndpointMatching
  import PercentEncoding

  /** Positions are those of the endpoint, the mapping or raw path segment, and the rule. */
  datatype ConfigError =
    | BlankPath(endpoint: nat)
    | NoMappings(endpoint: nat)
    | MalformedCapture(endpoint: nat, segment: nat)
    | InvalidCaptureName(endpoint: nat, segment: nat)
    | DuplicateCapture(endpoint: nat, segment: nat)
    | NoMethods(endpoint: nat, mapping: nat)
    | NoResources(endpoint: nat, mapping: nat)
    | BlankHeader(endpoint: nat, mapping: nat, rule: nat)
    | BlankQuery(endpoint: nat, mapping: nat, rule: nat)
    | StaticPath(rule: nat)

  predicate NotBlank(name: Option<string>)
  {
    name.Some? ==> !IsBlank(name.value)
  }

  predicate ValidRule(rule: Rule)
  {
    NotBlank(rule.rewrites.byHttpHeader) && NotBlank(rule.rewrites.byQueryParameter)
  }

  predicate ValidMapping(mapping: Mapping)
  {
    && mapping.methods != [] && mapping.resources != []
    && forall i | 0 <= i < |mapping.resources| :: ValidRule(mapping.resources[i])
  }

  predicate ValidEndpoint(endpoint: Endpoint)
  {
    && !IsBlank(endpoint.path) && endpoint.mappings != [] && ValidPattern(endpoint.path)
    && forall i | 0 <= i < |endpoint.mappings| :: ValidMapping(endpoint.mappings[i])
  }

  /** Resource rules have no path and the other rules have one. */
  predicate ValidStaticRule(rule: StaticRule)
  {
    rule.resourceRequest <==> rule.path == ""
  }

  predicate ValidConfig(cfg: AuthorizationConfig)
  {
    && (forall i | 0 <= i < |cfg.endpoints| :: ValidEndpoint(cfg.endpoints[i]))
    && (forall i | 0 <= i < |cfg.staticRules| :: ValidStaticRule(cfg.staticRules[i]))
  }

  predicate ValidSegments(segments: seq<string>)
  {
    (forall i | 0 <= i < |segments| :: WellFormedSegment(segments[i])) && DistinctCaptures(segments)
  }

  /** `error` names the first thing wrong with the raw segments of a path. */
  predicate FirstSegmentDefect(segments: seq<string>, error: ConfigError)
  {
    match error
    case MalformedCapture(_, k) =>
      && k < |segments| && ValidSegments(segments[..k])
      && HasBrace(segments[k]) && !(IsCapture(segments[k]) && |segments[k]| >= 3)
    case InvalidCaptureName(_, k) =>
      && k < |segments| && ValidSegments(segments[..k])
      && IsCapture(segments[k]) && |segments[k]| >= 3 && !NameCharacters(CaptureName(segments[k]))
    case DuplicateCapture(_, k) =>
      && k < |segments| && ValidSegments(segments[..k]) && WellFormedSegment(segments[k])
      && IsCapture(segments[k]) && segments[k] in segments[..k]
    case _ => false
  }

  predicate FirstMappingDefect(mapping: Mapping, error: ConfigError)
  {
    match error
    case NoMethods(_, _) => mapping.methods == []
    case NoResources(_, _) => mapping.methods != [] && mapping.resources == []
    case BlankHeader(_, _, r) =>
      && mapping.methods != [] && r < |mapping.resources|
      && (forall i | 0 <= i < r :: ValidRule(mapping.resources[i]))
      && !NotBlank(mapping.resources[r].rewrites.byHttpHeader)
    case BlankQuery(_, _, r) =>
      && mapping.methods != [] && r < |mapping.resources|
      && (forall i | 0 <= i < r :: ValidRule(mapping.resources[i]))
      && NotBlank(mapping.resources[r].rewrites.byHttpHeader)
      && !NotBlank(mapping.resources[r].rewrites.byQueryParameter)
    case _ => false
  }

  predicate FirstEndpointDefect(endpoint: Endpoint, error: ConfigError)
  {
    match error
    case BlankPath(_) => IsBlank(endpoint.path)
    case NoMappings(_) => !IsBlank(endpoint.path) && endpoint.mappings == []
    case MalformedCapture(_, _) | InvalidCaptureName(_, _) | DuplicateCapture(_, _) =>
      && !IsBlank(endpoint.path) && endpoint.mappings != []
      && FirstSegmentDefect(Split(endpoint.path, '/'), error)
    case NoMethods(_, m) => FirstDefectInMapping(endpoint, m, error)
    case NoResources(_, m) => FirstDefectInMapping(endpoint, m, error)
    case BlankHeader(_, m, _) => FirstDefectInMapping(endpoint, m, error)
    case BlankQuery(_, m, _) => FirstDefectInMapping(endpoint, m, error)
    case StaticPath(_) => false
  }

  predicate FirstDefectInMapping(endpoint: Endpoint, m: nat, error: ConfigError)
  {
    && !IsBlank(endpoint.path) && ValidPattern(endpoint.path) && m < |endpoint.mappings|
    && (forall i | 0 <= i < m :: ValidMapping(endpoint.mappings[i]))
    && FirstMappingDefect(endpoint.mappings[m], error)
  }

  /** `error` names the first thing wrong with the configuration, in the order it is read. */
  predicate FirstDefect(cfg: AuthorizationConfig, error: ConfigError)
  {
    if error.StaticPath? then
      && (forall i | 0 <= i < |cfg.endpoints| :: ValidEndpoint(cfg.endpoints[i]))
      && error.rule < |cfg.staticRules| && !ValidStaticRule(cfg.staticRules[error.rule])
      && (forall i | 0 <= i < error.rule :: ValidStaticRule(cfg.staticRules[i]))
    else
      && error.endpoint < |cfg.endpoints|
      && (forall i | 0 <= i < error.endpoint :: ValidEndpoint(cfg.endpoints[i]))
      && FirstEndpointDefect(cfg.endpoints[error.endpoint], error)
  }

  /** Something besides whitespace. */
  predicate Shows(s: string)
  {
    exists i | 0 <= i < |s| :: s[i] as int !in WhitespaceCodes()
  }

  /** Literal segments and named captures, no two of which are the same. */
  ghost predicate SpellsPattern(path: string)
  {
    var raw := Split(path, '/');
    && (forall i | 0 <= i < |raw| :: SpellsSegment(raw[i]))
    && (forall i, j | 0 <= i < j < |raw| && raw[i] == raw[j] :: Free(raw[i], '{'))
  }

  /** All that a valid configuration has to meet. */
  lemma ValidConfigMeaning(cfg: AuthorizationConfig)
    ensures ValidConfig(cfg) <==>
              && (forall e | e in cfg.endpoints :: Shows(e.path) && SpellsPattern(e.path) && e.mappings != [])
              && (forall e, m | e in cfg.endpoints && m in e.mappings :: m.methods != [] && m.resources != [])
              && (forall e, m, r | e in cfg.endpoints && m in e.mappings && r in m.resources ::
                    && (r.rewrites.byHttpHeader.Some? ==> Shows(r.rewrites.byHttpHeader.value))
                    && (r.rewrites.byQueryParameter.Some? ==> Shows(r.rewrites.byQueryParameter.value)))
              && (forall s | s in cfg.staticRules :: if s.resourceRequest then s.path == "" else s.path != "")
  {
    forall path ensures IsBlank(path) <==> !Shows(path) {
      BlankByCode(path);
    }
    forall path ensures ValidPattern(path) <==> SpellsPattern(path) {
      PatternBySpelling(path);
    }
    hide IsBlank, Shows, ValidPattern, SpellsPattern;
  }

  lemma PatternBySpelling(path: string)
    ensures ValidPattern(path) <==> SpellsPattern(path)
  {
    var raw := Split(path, '/');
    forall i | 0 <= i < |raw|
      ensures WellFormedSegment(raw[i]) <==> SpellsSegment(raw[i])
      ensures WellFormedSegment(raw[i]) ==> (IsCapture(raw[i]) <==> !Free(raw[i], '{'))
    {
      SegmentBySpelling(raw[i]);
    }
    hide WellFormedSegment, SpellsSegment, IsCapture, Free;
  }

  method CheckSegments(path: string, e: nat) returns (r: Option<ConfigError>)
    ensures r.None? <==> ValidPattern(path)
    ensures r.Some? ==> FirstSegmentDefect(Split(path, '/'), r.value) && r.value.endpoint == e
  {
    var segments := Split(path, '/');
    assert ValidSegments(segments[..0]);
    assert ValidSegments(segments) == ValidPattern(path);
    hide NameCharacters, DistinctCaptures, ValidPattern;
    var captures: set<string> := {};
    for k := 0 to |segments|
      invariant ValidSegments(segments[..k])
      invariant forall name :: name in captures <==> "{" + name + "}" in segments[..k]
    {
      var segment := segments[k];
      ExtendSegments(segments, k);
      if HasBrace(segment) {
        if !(IsCapture(segment) && |segment| >= 3) {
          return Some(MalformedCapture(e, k));
        }
        var name := CaptureName(segment);
        if !NameCharacters(name) {
          return Some(InvalidCaptureName(e, k));
        }
        if name in captures {
          return Some(DuplicateCapture(e, k));
        }
        captures := captures + {name};
      }
      assert segments[..k + 1] == segments[..k] + [segment];
    }
    assert segments[..|segments|] == segments;
    r := None;
  }

  lemma ExtendSegments(segments: seq<string>, k: nat)
    requires k < |segments| && ValidSegments(segments[..k])
    ensures !WellFormedSegment(segments[k]) ==> !ValidSegments(segments)
    ensures IsCapture(segments[k]) && segments[k] in segments[..k] ==> !ValidSegments(segments)
    ensures WellFormedSegment(segments[k]) && (IsCapture(segments[k]) ==> segments[k] !in segments[..k])
        ==> ValidSegments(segments[..k + 1])
    ensures forall name :: "{" + name + "}" == segments[k] ==> IsCapture(segments[k]) && CaptureName(segments[k]) == name
    ensures !HasBrace(segments[k]) ==> !IsCapture(segments[k])
  {
    if IsCapture(segments[k]) && segments[k] in segments[..k] {
      var j :| 0 <= j < k && segments[..k][j] == segments[k];
      assert segments[j] == segments[k];
    }
    assert segments[..k + 1] == segments[..k] + [segments[k]];
    forall name | "{" + name + "}" == segments[k]
      ensures IsCapture(segments[k]) && CaptureName(segments[k]) == name
    {
      BracedIsCapture(name);
    }
    assert IsCapture(segments[k]) ==> segments[k][0] == '{';
  }

  method CheckMapping(mapping: Mapping, e: nat, m: nat) returns (r: Option<ConfigError>)
    ensures r.None? <==> ValidMapping(mapping)
    ensures r.Some? ==> FirstMappingDefect(mapping, r.value) && r.value.endpoint == e && r.value.mapping == m
  {
    if mapping.methods == [] {
      return Some(NoMethods(e, m));
    }
    if mapping.resources == [] {
      return Some(NoResources(e, m));
    }
    for i := 0 to |mapping.resources|
      invariant forall j | 0 <= j < i :: ValidRule(mapping.resources[j])
    {
      var rewrites := mapping.resources[i].rewrites;
      if rewrites.byHttpHeader.Some? && IsBlank(rewrites.byHttpHeader.value) {
        return Some(BlankHeader(e, m, i));
      }
      if rewrites.byQueryParameter.Some? && IsBlank(rewrites.byQueryParameter.value) {
        return Some(BlankQuery(e, m, i));
      }
    }
    r := None;
  }

  method CheckEndpoint(endpoint: Endpoint, e: nat) returns (r: Option<ConfigError>)
    ensures r.None? <==> ValidEndpoint(endpoint)
    ensures r.Some? ==> !r.value.StaticPath? && r.value.endpoint == e && FirstEndpointDefect(endpoint, r.value)
  {
    if IsBlank(endpoint.path) {
      return Some(BlankPath(e));
    }
    if endpoint.mappings == [] {
      return Some(NoMappings(e));
    }
    r := CheckSegments(endpoint.path, e);
    if r.Some? {
      return;
    }
    for m := 0 to |endpoint.mappings|
      invariant forall j | 0 <= j < m :: ValidMapping(endpoint.mappings[j])
    {
      r := CheckMapping(endpoint.mappings[m], e, m);
      if r.Some? {
        return;
      }
    }
    r := None;
  }

  /** Accepts exactly the valid configurations and otherwise reports the first defect. */
  method ValidateAuthorizationConfig(cfg: AuthorizationConfig) returns (r: Result<(), ConfigError>)
    ensures r.Ok? <==> ValidConfig(cfg)
    ensures r.Err? ==> FirstDefect(cfg, r.error)
  {
    for e := 0 to |cfg.endpoints|
      invariant forall j | 0 <= j < e :: ValidEndpoint(cfg.endpoints[j])
    {
      var defect := CheckEndpoint(cfg.endpoints[e], e);
      if defect.Some? {
        return Err(defect.value);
      }
    }
    for i := 0 to |cfg.staticRules|
      invariant forall j | 0 <= j < i :: ValidStaticRule(cfg.staticRules[j])
    {
      var rule := cfg.staticRules[i];
      if rule.resourceRequest != (rule.path == "") {
        return Err(StaticPath(i));
      }
    }
    r := Ok(());
  }

  /** A configuration has at most one first defect, and none when it is valid. */
  lemma FirstDefectIsUnique(cfg: AuthorizationConfig, a: ConfigError, b: ConfigError)
    requires FirstDefect(cfg, a) && FirstDefect(cfg, b)
    ensures a == b && !ValidConfig(cfg)
  {
    DefectMeansInvalid(cfg, a);
    DefectMeansInvalid(cfg, b);
    if !a.StaticPath? && !b.StaticPath? {
      hide ValidEndpoint;
      assert a.endpoint == b.endpoint;
      EndpointDefectIsUnique(cfg.endpoints[a.endpoint], a, b);
    }
  }

  lemma EndpointDefectIsUnique(endpoint: Endpoint, a: ConfigError, b: ConfigError)
    requires FirstEndpointDefect(endpoint, a) && FirstEndpointDefect(endpoint, b)
    requires !a.StaticPath? && !b.StaticPath? && a.endpoint == b.endpoint
    ensures a == b
  {
    if a.BlankPath? || a.NoMappings? || b.BlankPath? || b.NoMappings? {
      hide FirstDefectInMapping, FirstSegmentDefect;
      assert a.BlankPath? == b.BlankPath?;
    } else {
      if a.MalformedCapture? || a.InvalidCaptureName? || a.DuplicateCapture? {
        SegmentDefectIsUnique(endpoint, a, b);
      } else if b.MalformedCapture? || b.InvalidCaptureName? || b.DuplicateCapture? {
        SegmentDefectIsUnique(endpoint, b, a);
      } else {
        hide ValidRule, ValidPattern;
      }
    }
  }

  lemma DefectMeansInvalid(cfg: AuthorizationConfig, error: ConfigError)
    requires FirstDefect(cfg, error)
    ensures !ValidConfig(cfg)
    ensures !error.StaticPath? ==> !ValidEndpoint(cfg.endpoints[error.endpoint])
  {
    if !error.StaticPath? {
      var endpoint := cfg.endpoints[error.endpoint];
      if error.MalformedCapture? || error.InvalidCaptureName? || error.DuplicateCapture? {
        ExtendSegments(Split(endpoint.path, '/'), error.segment);
      }
    }
  }

  lemma SegmentDefectIsUnique(endpoint: Endpoint, a: ConfigError, b: ConfigError)
    requires a.MalformedCapture? || a.InvalidCaptureName? || a.DuplicateCapture?
    requires FirstEndpointDefect(endpoint, a) && FirstEndpointDefect(endpoint, b)
    requires !b.StaticPath? && a.endpoint == b.endpoint
    ensures a == b
  {
    var segments := Split(endpoint.path, '/');
    ExtendSegments(segments, a.segment);
    if b.MalformedCapture? || b.InvalidCaptureName? || b.DuplicateCapture? {
      if a.segment < b.segment {
        PrefixDefect(segments, a, b.segment);
      } else if b.segment < a.segment {
        PrefixDefect(segments, b, a.segment);
      } else {
        assert IsCapture(segments[a.segment]) ==> segments[a.segment][0] == '{';
      }
    }
  }

  lemma PrefixDefect(segments: seq<string>, error: ConfigError, k: nat)
    requires FirstSegmentDefect(segments, error) && error.segment < k <= |segments|
    ensures !ValidSegments(segments[..k])
  {
    assert segments[..k][..error.segment] == segments[..error.segment];
    ExtendSegments(segments[..k], error.segment);
    assert IsCapture(segments[error.segment]) ==> segments[error.segment][0] == '{';
  }

  /**
    Adequacy: on a valid configuration the matcher never rejects a path because of a
    pattern's captures, only because of a length or a literal segment.
   */
  lemma ValidConfigFailsOnlyLiterally(cfg: AuthorizationConfig, i: nat, path: string, lossy: PercentEncoding.LossyUtf8)
    requires ValidConfig(cfg) && i < |cfg.endpoints|
    ensures EndpointMatch(cfg.endpoints[i].path, path, lossy).None?
       <==> LiteralMismatch(Segments(cfg.endpoints[i].path), Segments(path))
  {
    assert ValidEndpoint(cfg.endpoints[i]);
    ValidPatternFailsOnlyLiterally(cfg.endpoints[i].path, path, lossy);
  }
}
