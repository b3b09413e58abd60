/** Every frame assembled on a commissioned route can be encoded, within the range of printable instants. */
module FrameEncoding {
  import opened Outcomes
  import opened Identifiers
  import opened Frames
  import opened ObservationGaps
  import opened LiveTail
  import opened FrameAssembly
  import opened FrameAcceptance
  import opened FrameWire

  const MAX_FORECAST_POINTS: nat := 4_096

  /** A bounded protocol identifier. */
  predicate WireIdentifier(s: string) {
    && 0 < |s| <= 256 && Alphanumeric(s[0])
    && forall i | 1 <= i < |s| :: IdentifierChar(s[i])
  }

  predicate PolicyValid(p: Policy) { WireIdentifier(p.strategy) && WireIdentifier(p.version) && NameValid(p.sourceFeature) }

  /** The texts of a task that go on the wire, and a registered policy for every fallback. */
  predicate TaskTexts(t: Task) {
    && WireIdentifier(t.id) && WireIdentifier(t.processorContract)
    && |t.spec.fallbacks| == |t.spec.policies|
    && (forall i | 0 <= i < |t.spec.policies| :: t.spec.policies[i].strategy == "persistence")
    && NameValid(t.spec.target) && UnitValid(t.spec.targetUnit) && WireIdentifier(t.spec.signConvention)
    && (forall i | 0 <= i < |t.spec.fallbacks| :: WireIdentifier(t.spec.fallbacks[i]))
    && forall i | 0 <= i < |t.spec.policies| :: PolicyValid(t.spec.policies[i])
  }

  /** What the wire contract demands of a task before its route is advertised. */
  predicate TaskContract(t: Task) {
    && TaskTexts(t)
    && t.spec.cadence % 1000 == 0 && t.spec.cadence / 1000 <= MAX_CADENCE_SECONDS
    && t.spec.historySteps <= MAX_SEGMENT_SAMPLES && t.spec.maxHorizon <= MAX_FORECAST_POINTS
    && (forall i | 0 <= i < |t.features| :: NameValid(t.features[i].name) && (t.features[i].unit.Some? ==> UnitValid(t.features[i].unit.value)))
    && |Features(t.features, History)| <= MAX_FEATURES_PER_SEGMENT
    && |Features(t.features, FutureCovariate)| <= MAX_FEATURES_PER_SEGMENT
    && |Features(t.features, Static)| <= MAX_STATIC_FEATURES
  }

  /** The texts as they are checked, list by list. */
  method ValidateTaskTexts(t: Task) returns (ok: bool)
    ensures ok <==> TaskTexts(t)
  {
    hide NameValid, UnitValid, WireIdentifier, PolicyValid;
    if !WireIdentifier(t.id) || !WireIdentifier(t.processorContract) || |t.spec.fallbacks| != |t.spec.policies| { return false; }
    for i := 0 to |t.spec.policies|
      invariant forall j | 0 <= j < i :: t.spec.policies[j].strategy == "persistence"
    {
      if t.spec.policies[i].strategy != "persistence" { return false; }
    }
    if !NameValid(t.spec.target) || !UnitValid(t.spec.targetUnit) || !WireIdentifier(t.spec.signConvention) { return false; }
    for i := 0 to |t.spec.fallbacks|
      invariant forall j | 0 <= j < i :: WireIdentifier(t.spec.fallbacks[j])
    {
      if !WireIdentifier(t.spec.fallbacks[i]) { return false; }
    }
    for i := 0 to |t.spec.policies|
      invariant forall j | 0 <= j < i :: PolicyValid(t.spec.policies[j])
    {
      if !PolicyValid(t.spec.policies[i]) { return false; }
    }
    return true;
  }

  /** The contract as it is checked: the texts, then one pass over the features with a counter per role. */
  method ValidateTaskContract(t: Task) returns (ok: bool)
    ensures ok <==> TaskContract(t)
  {
    hide NameValid, UnitValid, TaskTexts;
    if !(t.spec.cadence % 1000 == 0 && t.spec.cadence / 1000 <= MAX_CADENCE_SECONDS
         && t.spec.historySteps <= MAX_SEGMENT_SAMPLES && t.spec.maxHorizon <= MAX_FORECAST_POINTS) { return false; }
    var texts := ValidateTaskTexts(t);
    if !texts { return false; }
    var history, future, statics, i := 0, 0, 0, 0;
    while i < |t.features|
      invariant i <= |t.features|
      invariant forall j | 0 <= j < i :: NameValid(t.features[j].name) && (t.features[j].unit.Some? ==> UnitValid(t.features[j].unit.value))
      invariant history + |Features(t.features[i..], History)| == |Features(t.features, History)|
      invariant future + |Features(t.features[i..], FutureCovariate)| == |Features(t.features, FutureCovariate)|
      invariant statics + |Features(t.features[i..], Static)| == |Features(t.features, Static)|
    {
      var feature := t.features[i];
      assert t.features[i..][1..] == t.features[i + 1..];
      if !NameValid(feature.name) || (feature.unit.Some? && !UnitValid(feature.unit.value)) { return false; }
      match feature.role {
        case History => history := history + 1;
        case FutureCovariate => future := future + 1;
        case Static => statics := statics + 1;
      }
      i := i + 1;
    }
    return history <= MAX_FEATURES_PER_SEGMENT && future <= MAX_FEATURES_PER_SEGMENT && statics <= MAX_STATIC_FEATURES
      && history + future + statics <= MAX_PROVENANCE_ENTRIES;
  }

  // ---------- grids ----------

  lemma GridMonotone(cadence: nat, i: nat, j: nat)
    requires i <= j
    ensures cadence * i <= cadence * j
  {
    assert cadence * j == cadence * i + cadence * (j - i);
  }

  lemma GridRegular(start: nat, cadence: nat, count: nat)
    ensures Regular(Grid(start, cadence, count), cadence)
  {
    forall i | 0 < i < count ensures Grid(start, cadence, count)[i] == Grid(start, cadence, count)[i - 1] + cadence {
      assert cadence * i == cadence * (i - 1) + cadence;
    }
  }

  lemma GridBound(start: nat, cadence: nat, count: nat, limit: nat)
    requires 0 < count
    ensures Grid(start, cadence, count)[count - 1] <= limit ==> forall i | 0 <= i < count :: Grid(start, cadence, count)[i] <= limit
  {
    forall i | 0 <= i < count ensures Grid(start, cadence, count)[i] <= Grid(start, cadence, count)[count - 1] {
      GridMonotone(cadence, i, count - 1);
    }
  }

  lemma SumMultiple(a: nat, b: nat, unit: nat)
    requires 0 < unit && a % unit == 0 && b % unit == 0
    ensures (a + b) % unit == 0
  {
    var p, q := a / unit, b / unit;
    assert a + b == unit * (p + q);
    MultipleOf(p + q, unit);
  }

  lemma ProductMultiple(a: nat, k: nat, unit: nat)
    requires 0 < unit && a % unit == 0
    ensures (a * k) % unit == 0
  {
    var p := a / unit;
    assert a == unit * p;
    assert a * k == unit * (p * k);
    MultipleOf(p * k, unit);
  }

  /** Labels that end at a multiple of the cadence are whole seconds. */
  lemma GridWholeSeconds(spec: Spec, asOf: nat)
    requires spec.cadence != 0 && spec.cadence % 1000 == 0 && asOf % spec.cadence == 0
    requires spec.historySteps != 0 && HistoryStart(spec, asOf).Some?
    ensures var ts := Grid(HistoryStart(spec, asOf).value, spec.cadence, spec.historySteps);
            forall i | 0 <= i < |ts| :: ts[i] % 1000 == 0
  {
    var start := HistoryStart(spec, asOf).value;
    ProductMultiple(spec.cadence, asOf / spec.cadence, 1000);
    assert asOf == spec.cadence * (asOf / spec.cadence);
    ProductMultiple(spec.cadence, spec.historySteps - 1, 1000);
    DifferenceMultiple(asOf, spec.cadence * (spec.historySteps - 1), 1000);
    forall i | 0 <= i < spec.historySteps ensures (start + spec.cadence * i) % 1000 == 0 {
      ProductMultiple(spec.cadence, i, 1000);
      SumMultiple(start, spec.cadence * i, 1000);
    }
  }

  // ---------- texts ----------

  lemma {:induction false} AsciiLength(s: string)
    requires forall i | 0 <= i < |s| :: s[i] as int < 0x80
    ensures Utf8Length(s) == |s|
  {
    if s != "" { AsciiLength(s[..|s| - 1]); }
  }

  lemma RefIsText(s: string)
    requires SemanticRef(s)
    ensures TextValid(s, 2048)
  {
    assert forall i | 0 <= i < |s| :: Alphanumeric(s[i]) || s[i] == '.' || s[i] == '_' || s[i] == '-';
    AsciiLength(s);
  }

  // ---------- the pieces of the encoding ----------

  /** The instants of the frame that decide whether it can be printed. */
  predicate Printable(f: Frame) {
    f.asOf <= LAST_FORMATTED && (f.future.Some? ==> Formatted(f.future.value.timestamps))
  }

  /** Each entry names a declared feature. */
  lemma SourcesNamed(t: Task, b: Binding, asOf: nat, ps: seq<Provenance>)
    requires TaskValid(t) && TaskContract(t) && BindingValid(t, b) && ProvenanceAccepted(t, b, asOf, ps)
    ensures forall i | 0 <= i < |ps| :: NameValid(ps[i].feature)
    ensures forall i, j | 0 <= i < j < |ps| :: !(ps[i].segment == ps[j].segment && ps[i].feature == ps[j].feature)
    ensures forall i | 0 <= i < |ps| && ps[i].segment == HistorySegment :: ps[i].feature in NamesOf(Features(t.features, History))
    ensures forall i | 0 <= i < |ps| && ps[i].segment == FutureSegment :: ps[i].feature in NamesOf(Features(t.features, FutureCovariate))
    ensures forall i | 0 <= i < |ps| && ps[i].segment == StaticSegment :: ps[i].feature in NamesOf(StaticDefinitions(b.statics))
  {
    hide DefinitionValid, NameValid, UnitValid, Newest, Late, Stale, Sources, Entries, BindingValid, StaticValid;
    FeatureNames(t.features, History);
    FeatureNames(t.features, FutureCovariate);
    FeaturesAre(t.features, History);
    FeaturesAre(t.features, FutureCovariate);
    StaticNames(t, b);
    hide Features;
    MatchedSources(ps, Features(t.features, History), HistorySegment);
    MatchedSources(ps, Features(t.features, FutureCovariate), FutureSegment);
    MatchedSources(ps, StaticDefinitions(b.statics), StaticSegment);
    forall i | 0 <= i < |ps| ensures NameValid(ps[i].feature) {
      match ps[i].segment
      case HistorySegment => NamedValid(t, Features(t.features, History), ps[i].feature);
      case FutureSegment => NamedValid(t, Features(t.features, FutureCovariate), ps[i].feature);
      case StaticSegment => NamedValid(t, StaticDefinitions(b.statics), ps[i].feature);
    }
    forall i, j | 0 <= i < j < |ps| ensures !(ps[i].segment == ps[j].segment && ps[i].feature == ps[j].feature) {
      if ps[i].segment == ps[j].segment && ps[i].feature == ps[j].feature { Repeated(ps, i, j); }
    }
  }

  lemma NamedValid(t: Task, features: seq<Definition>, name: string)
    requires TaskContract(t) && name in NamesOf(features) && forall i | 0 <= i < |features| :: features[i] in t.features
    ensures NameValid(name)
  {
    hide NameValid, UnitValid, Features;
    var i :| 0 <= i < |features| && features[i].name == name;
    var k :| 0 <= k < |t.features| && t.features[k] == features[i];
    assert NameValid(t.features[k].name);
  }

  /** A repeated entry would repeat in the list of its segment. */
  lemma {:induction false} Repeated(ps: seq<Provenance>, i: nat, j: nat)
    requires i < j < |ps| && ps[i].segment == ps[j].segment && ps[i].feature == ps[j].feature
    ensures !Distinct(Sources(ps, ps[i].segment))
  {
    var kind, rest := ps[i].segment, Sources(ps[1..], ps[i].segment);
    if i == 0 {
      EntriesListed(ps[1..], kind, ps[0].feature);
      assert ps[1..][j - 1] == ps[j];
      var k :| 0 <= k < |rest| && rest[k] == ps[0].feature;
      assert Sources(ps, kind)[0] == Sources(ps, kind)[k + 1];
    } else {
      Repeated(ps[1..], i - 1, j - 1);
      var a, b :| 0 <= a < b < |rest| && rest[a] == rest[b];
      var d := |Sources(ps, kind)| - |rest|;
      assert Sources(ps, kind)[a + d] == Sources(ps, kind)[b + d];
    }
  }

  lemma SegmentEncodes(t: Task, s: Segment, role: Role)
    requires SegmentValid(s) && TaskContract(t)
    requires forall x | 0 <= x < |s.series| :: s.series[x].definition in Features(t.features, role)
    ensures SegmentToWire(s).Some? <==> Formatted(s.timestamps)
    ensures Filled(SeriesEntries(s.series)).Some? && Holds(Filled(SeriesEntries(s.series)).value, SeriesEntries(s.series))
  {
    hide NameValid, UnitValid, SeriesValid, SeriesToWire;
    var entries := SeriesEntries(s.series);
    FeaturesAre(t.features, role);
    forall x | 0 <= x < |entries| ensures NameValid(entries[x].name) {
      var d := s.series[x].definition;
      var k :| 0 <= k < |t.features| && t.features[k] == d;
      assert NameValid(t.features[k].name);
    }
    FilledSpec(entries);
  }

  lemma StaticsEncode(t: Task, b: Binding)
    requires TaskValid(t) && TaskContract(t) && BindingValid(t, b)
    ensures Filled(StaticEntries(b.statics)).Some? && Holds(Filled(StaticEntries(b.statics)).value, StaticEntries(b.statics))
  {
    hide NameValid, UnitValid, StaticValid, DefinitionValid, StaticToWire, Features, BindingValid, TaskValid;
    var entries := StaticEntries(b.statics);
    StaticNames(t, b);
    forall x | 0 <= x < |entries| ensures NameValid(entries[x].name) {
      var k :| 0 <= k < |t.features| && t.features[k] == b.statics[x].definition;
      assert NameValid(t.features[k].name);
    }
    FilledSpec(entries);
  }

  lemma LimitsHold(s: Segment)
    requires SegmentValid(s) && SegmentToWire(s).Some? && |s.timestamps| <= MAX_SEGMENT_SAMPLES && |s.series| <= MAX_FEATURES_PER_SEGMENT
    requires Holds(Filled(SeriesEntries(s.series)).value, SeriesEntries(s.series))
    ensures SegmentLimits(SegmentToWire(s).value)
  {
    hide Filled;
    var entries, w := SeriesEntries(s.series), SegmentToWire(s).value;
    forall name | name in w.features
      ensures 0 < |w.features[name].values| <= MAX_SEGMENT_SAMPLES && 0 < |w.features[name].quality| <= MAX_SEGMENT_SAMPLES
    {
      assert Listed(entries, name);
      var x :| 0 <= x < |entries| && entries[x].name == name;
      assert InMap(w.features, entries[x]);
      assert SeriesValid(s.series[x]) && |s.series[x].values| == |s.timestamps|;
    }
  }

  // ---------- the theorem ----------

  lemma ChecksHold(t: Task, b: Binding, r: Request, h: Sourced, included: bool, f: Option<Sourced>)
    requires HistoryReady(t, r, h) && FutureReady(t, r, f) && Aligned(h.segment) && Newest(Gathered(h, f, b, r.asOf)).Some?
    ensures Encodable(FrameOf(t, b, r, h, included, f))
  {
    hide Newest, MaximumGap, SourcedValid, Gathered, FrameFlags, FrameCells, Ratio, Features, Grid, Regular, Aligned;
    GridRegular(HistoryStart(t.spec, r.asOf).value, t.spec.cadence, t.spec.historySteps);
    GridRegular(FutureStart(t, r.asOf), t.spec.cadence, r.horizon);
    NewestNonEmpty(Gathered(h, f, b, r.asOf));
  }

  lemma NewestNonEmpty(ps: seq<Provenance>)
    ensures Newest(ps).Some? ==> ps != []
  {}

  lemma TimesHold(t: Task, b: Binding, r: Request, h: Sourced, included: bool, f: Option<Sourced>)
    requires TaskValid(t) && TaskContract(t) && BindingValid(t, b) && Aligned(h.segment)
    requires ProvenanceAccepted(t, b, r.asOf, Gathered(h, f, b, r.asOf)) && PartsValid(FrameOf(t, b, r, h, included, f))
    ensures TimesFormatted(FrameOf(t, b, r, h, included, f)) <==> r.asOf <= LAST_FORMATTED
  {
    hide TaskValid, TaskContract, BindingValid, Newest, MaximumGap, Gathered, FrameFlags, FrameCells, Ratio, ProvenanceMatches, Features,
      SegmentValid, StaticValid, NameValid, TextValid, SemanticRef, Blank;
    var ps := Gathered(h, f, b, r.asOf);
    SourcesNamed(t, b, r.asOf, ps);
    NewestBound(ps, r.asOf);
    forall i | 0 <= i < |ps| && r.asOf <= LAST_FORMATTED ensures SourceFormatted(ps[i]) {
      assert ProvenanceValid(ps[i]) && !Late(ps[i], r.asOf);
      if ps[i].sourceRef.Some? { RefIsText(ps[i].sourceRef.value); }
    }
  }

  lemma GapWhole(t: Task, r: Request, h: Sourced)
    requires TaskValid(t) && TaskContract(t) && HistoryReady(t, r, h) && Aligned(h.segment) && r.asOf % t.spec.cadence == 0
    ensures MaximumGap(h.segment, t.spec.cadence) % 1000 == 0
  {
    hide SourcedValid, MaximumGap, DefinitionValid, NameValid, UnitValid, Features;
    GridWholeSeconds(t.spec, r.asOf);
    GapMultiple(h.segment, t.spec.cadence, 1000);
  }

  /** The history labels end at the cutoff, so they are printable when it is. */
  lemma HistoryFormatted(t: Task, r: Request, h: Sourced)
    requires TaskValid(t) && HistoryReady(t, r, h) && r.asOf <= LAST_FORMATTED
    ensures Formatted(h.segment.timestamps)
  {
    hide SourcedValid, DefinitionValid, Features;
    var start := HistoryStart(t.spec, r.asOf).value;
    GridBound(start, t.spec.cadence, t.spec.historySteps, LAST_FORMATTED);
  }

  /** Every entry has a feature on the wire and every feature an entry. */
  lemma ShapeHolds(t: Task, b: Binding, r: Request, h: Sourced, f: Option<Sourced>, w: WireFrame)
    requires TaskValid(t) && TaskContract(t) && BindingValid(t, b) && HistoryReady(t, r, h) && FutureReady(t, r, f)
    requires ProvenanceAccepted(t, b, r.asOf, w.provenance)
    requires Holds(w.history.features, SeriesEntries(h.segment.series))
    requires (w.future.Some? <==> f.Some?) && (f.Some? ==> Holds(w.future.value.features, SeriesEntries(f.value.segment.series)))
    requires Holds(w.statics, StaticEntries(b.statics))
    ensures ProvenanceShape(w)
  {
    hide TaskValid, TaskContract, BindingValid, NameValid, Holds, HistoryReady, FutureReady, ProvenanceAccepted, Features;
    var ps := w.provenance;
    SourcesNamed(t, b, r.asOf, ps);
    AcceptedParts(t, b, r.asOf, ps);
    HistoryParts(t, r, h);
    SegmentTargets(ps, Features(t.features, History), HistorySegment, h.segment, w.history.features);
    if f.Some? {
      FutureParts(t, r, f);
      SegmentTargets(ps, Features(t.features, FutureCovariate), FutureSegment, f.value.segment, w.future.value.features);
    } else {
      NoFuture(t, r, f);
    }
    StaticTargets(ps, b, w.statics);
    forall i | 0 <= i < |ps| ensures Targeted(w, ps[i]) {
      match ps[i].segment
      case HistorySegment =>
      case FutureSegment => assert f.None? ==> NamesOf(Features(t.features, FutureCovariate)) == [];
      case StaticSegment =>
    }
  }

  lemma AcceptedParts(t: Task, b: Binding, asOf: nat, ps: seq<Provenance>)
    requires ProvenanceAccepted(t, b, asOf, ps)
    ensures ps != []
    ensures ProvenanceMatches(ps, Features(t.features, History), HistorySegment)
    ensures ProvenanceMatches(ps, Features(t.features, FutureCovariate), FutureSegment)
    ensures ProvenanceMatches(ps, StaticDefinitions(b.statics), StaticSegment)
  {
    NewestNonEmpty(ps);
  }

  lemma HistoryParts(t: Task, r: Request, h: Sourced)
    requires TaskValid(t) && HistoryReady(t, r, h)
    ensures forall d | d in Features(t.features, History) :: exists x | 0 <= x < |h.segment.series| :: h.segment.series[x].definition == d
    ensures forall x | 0 <= x < |h.segment.series| :: h.segment.series[x].definition in Features(t.features, History)
  {
    hide DefinitionValid, Features;
    AllDefinitions(h.segment, Features(t.features, History));
  }

  lemma FutureParts(t: Task, r: Request, f: Option<Sourced>)
    requires TaskValid(t) && FutureReady(t, r, f) && f.Some?
    ensures forall d | d in Features(t.features, FutureCovariate) :: exists x | 0 <= x < |f.value.segment.series| :: f.value.segment.series[x].definition == d
    ensures forall x | 0 <= x < |f.value.segment.series| :: f.value.segment.series[x].definition in Features(t.features, FutureCovariate)
  {
    hide DefinitionValid, Features;
    AllDefinitions(f.value.segment, Features(t.features, FutureCovariate));
  }

  lemma NoFuture(t: Task, r: Request, f: Option<Sourced>)
    requires FutureReady(t, r, f) && f.None?
    ensures Features(t.features, FutureCovariate) == []
  {}

  /** A valid segment with as many series as features has a series for each. */
  lemma AllDefinitions(s: Segment, features: seq<Definition>)
    requires SegmentValid(s) && |s.series| == |features| && forall x | 0 <= x < |s.series| :: s.series[x].definition in features
    ensures forall d | d in features :: exists x | 0 <= x < |s.series| :: s.series[x].definition == d
  {
    hide SeriesValid;
    var ds := Definitions(s.series);
    assert forall x | 0 <= x < |ds| :: ds[x] == s.series[x].definition;
    assert Distinct(ds) by {
      forall i, j | 0 <= i < j < |ds| ensures ds[i] != ds[j] { assert s.series[i].definition.name != s.series[j].definition.name; }
    }
    Covered(ds, features);
    forall d | d in features ensures exists x | 0 <= x < |s.series| :: s.series[x].definition == d {
      var i :| 0 <= i < |features| && features[i] == d;
      assert features[i] in ds;
      var x :| 0 <= x < |ds| && ds[x] == d;
      assert s.series[x].definition == d;
    }
  }

  lemma SegmentTargets(ps: seq<Provenance>, features: seq<Definition>, kind: SegmentKind, s: Segment, m: map<string, WireSeries>)
    requires ProvenanceMatches(ps, features, kind) && Holds(m, SeriesEntries(s.series))
    requires forall d | d in features :: exists x | 0 <= x < |s.series| :: s.series[x].definition == d
    requires forall x | 0 <= x < |s.series| :: s.series[x].definition in features
    ensures forall name | name in NamesOf(features) :: name in m
    ensures forall name | name in m :: Mentions(ps, kind, name)
  {
    hide SeriesToWire;
    var entries := SeriesEntries(s.series);
    forall name | name in NamesOf(features) ensures name in m {
      var i :| 0 <= i < |features| && features[i].name == name;
      assert features[i] in features;
      var x :| 0 <= x < |s.series| && s.series[x].definition == features[i];
      assert InMap(m, entries[x]);
    }
    forall name | name in m ensures Mentions(ps, kind, name) {
      assert Listed(entries, name);
      var x :| 0 <= x < |entries| && entries[x].name == name;
      var i :| 0 <= i < |features| && features[i] == s.series[x].definition;
      assert Entries(ps, kind, features[i].name) == 1;
      EntriesListed(ps, kind, name);
    }
  }

  lemma StaticTargets(ps: seq<Provenance>, b: Binding, m: map<string, WireStatic>)
    requires ProvenanceMatches(ps, StaticDefinitions(b.statics), StaticSegment) && Holds(m, StaticEntries(b.statics))
    ensures forall name | name in NamesOf(StaticDefinitions(b.statics)) :: name in m
    ensures forall name | name in m :: Mentions(ps, StaticSegment, name)
  {
    hide StaticToWire;
    var entries, ds := StaticEntries(b.statics), StaticDefinitions(b.statics);
    forall name | name in NamesOf(ds) ensures name in m {
      var i :| 0 <= i < |ds| && ds[i].name == name;
      assert InMap(m, entries[i]);
    }
    forall name | name in m ensures Mentions(ps, StaticSegment, name) {
      assert Listed(entries, name);
      var x :| 0 <= x < |entries| && entries[x].name == name;
      assert Entries(ps, StaticSegment, ds[x].name) == 1;
      EntriesListed(ps, StaticSegment, name);
    }
  }

  lemma FrameEncodes(t: Task, b: Binding, r: Request, h: Sourced, included: bool, f: Option<Sourced>)
    requires TaskValid(t) && TaskContract(t) && BindingValid(t, b) && HistoryReady(t, r, h) && FutureReady(t, r, f) && Aligned(h.segment)
    requires r.horizon <= t.spec.maxHorizon && r.asOf % t.spec.cadence == 0
    requires ProvenanceAccepted(t, b, r.asOf, Gathered(h, f, b, r.asOf)) && PartsValid(FrameOf(t, b, r, h, included, f))
    ensures FrameToWire(FrameOf(t, b, r, h, included, f)).Some? <==> Printable(FrameOf(t, b, r, h, included, f))
  {
    hide TaskValid, TaskContract, BindingValid, Newest, MaximumGap, Gathered, FrameFlags, FrameCells, Ratio, Features, HistoryReady,
      FutureReady, ProvenanceAccepted, ProvenanceShape, FrameLimits, Encodable, TimesFormatted, Formatted, Aligned, PartsValid, Converted;
    NewestKnown(t, b, r, Gathered(h, f, b, r.asOf));
    var frame := FrameOf(t, b, r, h, included, f);
    ContractBounds(t, b);
    TimesHold(t, b, r, h, included, f);
    ChecksHold(t, b, r, h, included, f);
    GapWhole(t, r, h);
    if r.asOf <= LAST_FORMATTED {
      HistoryFormatted(t, r, h);
      Conversion(t, b, r, h, frame, f);
      if Converted(frame).Some? { LimitsAndShape(t, b, r, h, frame, f); }
    }
  }

  /** `frame` is built from these parts. */
  ghost predicate BuiltFrom(t: Task, b: Binding, r: Request, h: Sourced, frame: Frame, f: Option<Sourced>) {
    && frame.history == h.segment && frame.statics == b.statics && frame.cadence == t.spec.cadence
    && frame.future == (if f.Some? then Some(f.value.segment) else None)
    && frame.provenance == Gathered(h, f, b, r.asOf)
  }

  lemma Conversion(t: Task, b: Binding, r: Request, h: Sourced, frame: Frame, f: Option<Sourced>)
    requires TaskValid(t) && TaskContract(t) && BindingValid(t, b) && HistoryReady(t, r, h) && FutureReady(t, r, f)
    requires BuiltFrom(t, b, r, h, frame, f) && Formatted(h.segment.timestamps)
    ensures Converted(frame).Some? <==> (frame.future.Some? ==> Formatted(frame.future.value.timestamps))
  {
    hide TaskValid, TaskContract, BindingValid, Gathered, HistoryReady, FutureReady, Formatted, Filled, SeriesEntries, StaticEntries, Holds,
      SegmentToWire;
    StaticsEncode(t, b);
    SegmentsEncode(t, r, h, f);
  }

  lemma LimitsAndShape(t: Task, b: Binding, r: Request, h: Sourced, frame: Frame, f: Option<Sourced>)
    requires TaskValid(t) && TaskContract(t) && BindingValid(t, b) && HistoryReady(t, r, h) && FutureReady(t, r, f)
    requires BuiltFrom(t, b, r, h, frame, f) && Converted(frame).Some? && r.horizon <= t.spec.maxHorizon
    requires ProvenanceAccepted(t, b, r.asOf, frame.provenance)
    ensures FrameLimits(Converted(frame).value) && ProvenanceShape(Converted(frame).value)
  {
    hide TaskValid, TaskContract, BindingValid, Gathered, HistoryReady, FutureReady, Filled, SeriesEntries, StaticEntries, Holds,
      SegmentToWire, ProvenanceAccepted, ProvenanceShape, SegmentLimits, Features;
    ContractBounds(t, b);
    StaticsEncode(t, b);
    SegmentsEncode(t, r, h, f);
    SegmentsLimited(t, r, h, f);
    StaticsCounted(b);
    ShapeHolds(t, b, r, h, f, Converted(frame).value);
    ProvenanceCounted(t, b, r.asOf, frame.provenance);
  }

  lemma ProvenanceCounted(t: Task, b: Binding, asOf: nat, ps: seq<Provenance>)
    requires TaskValid(t) && TaskContract(t) && BindingValid(t, b) && ProvenanceAccepted(t, b, asOf, ps)
    ensures |ps| <= MAX_PROVENANCE_ENTRIES
  {
    hide Features, Newest, ProvenanceMatches, Late, Stale, TaskValid, NameValid, UnitValid, StaticValid;
  }

  lemma ContractBounds(t: Task, b: Binding)
    requires TaskValid(t) && TaskContract(t) && BindingValid(t, b)
    ensures t.spec.cadence % 1000 == 0 && 0 < t.spec.cadence / 1000 <= MAX_CADENCE_SECONDS
    ensures |Features(t.features, History)| <= MAX_FEATURES_PER_SEGMENT && |Features(t.features, FutureCovariate)| <= MAX_FEATURES_PER_SEGMENT
    ensures |b.statics| <= MAX_STATIC_FEATURES
    ensures t.spec.historySteps <= MAX_SEGMENT_SAMPLES && t.spec.maxHorizon <= MAX_FORECAST_POINTS
  {
    hide DefinitionValid, NameValid, UnitValid, StaticValid, Features;
  }

  lemma SegmentBounds(t: Task, r: Request, h: Sourced, f: Option<Sourced>)
    requires HistoryReady(t, r, h) && FutureReady(t, r, f)
    ensures |h.segment.timestamps| == t.spec.historySteps && |h.segment.series| == |Features(t.features, History)| && SegmentValid(h.segment)
    ensures f.Some? ==>
              && |f.value.segment.timestamps| == r.horizon && |f.value.segment.series| == |Features(t.features, FutureCovariate)|
              && SegmentValid(f.value.segment)
  {
    hide SegmentValid, Features;
  }

  lemma SegmentsEncode(t: Task, r: Request, h: Sourced, f: Option<Sourced>)
    requires TaskValid(t) && TaskContract(t) && HistoryReady(t, r, h) && FutureReady(t, r, f)
    ensures SegmentToWire(h.segment).Some? <==> Formatted(h.segment.timestamps)
    ensures SegmentToWire(h.segment).Some? ==> Holds(SegmentToWire(h.segment).value.features, SeriesEntries(h.segment.series))
    ensures Filled(SeriesEntries(h.segment.series)).Some?
    ensures f.Some? ==>
              && (SegmentToWire(f.value.segment).Some? <==> Formatted(f.value.segment.timestamps))
              && (SegmentToWire(f.value.segment).Some? ==>
                    Holds(SegmentToWire(f.value.segment).value.features, SeriesEntries(f.value.segment.series)))
  {
    hide TaskValid, TaskContract, SegmentValid, Features, Filled, SeriesEntries, Holds;
    SegmentEncodes(t, h.segment, History);
    if f.Some? { SegmentEncodes(t, f.value.segment, FutureCovariate); }
  }

  lemma SegmentsLimited(t: Task, r: Request, h: Sourced, f: Option<Sourced>)
    requires TaskValid(t) && TaskContract(t) && HistoryReady(t, r, h) && FutureReady(t, r, f) && r.horizon <= t.spec.maxHorizon
    requires SegmentToWire(h.segment).Some? && (f.Some? ==> SegmentToWire(f.value.segment).Some?)
    ensures SegmentLimits(SegmentToWire(h.segment).value)
    ensures f.Some? ==> SegmentLimits(SegmentToWire(f.value.segment).value)
  {
    hide DefinitionValid, NameValid, UnitValid, SegmentValid, Features, Filled, SeriesEntries, Holds, SegmentLimits;
    SegmentBounds(t, r, h, f);
    SegmentEncodes(t, h.segment, History);
    LimitsHold(h.segment);
    if f.Some? {
      SegmentEncodes(t, f.value.segment, FutureCovariate);
      LimitsHold(f.value.segment);
    }
  }

  lemma StaticsCounted(b: Binding)
    requires Filled(StaticEntries(b.statics)).Some? && Holds(Filled(StaticEntries(b.statics)).value, StaticEntries(b.statics))
    ensures |Filled(StaticEntries(b.statics)).value| == |b.statics|
  {
    hide Filled;
  }

  /** On a commissioned route an assembled frame encodes exactly when its instants can be printed. */
  lemma EncoderAccepts(t: Task, b: Binding, r: Request, history: Option<Sourced>, live: Option<seq<Option<PointSample>>>,
                       covariates: Option<Sourced>)
    requires TaskValid(t) && TaskContract(t) && BindingValid(t, b) && r.asOf % t.spec.cadence == 0
    requires (history.Some? ==> SourcedValid(history.value)) && (covariates.Some? ==> SourcedValid(covariates.value))
    requires Candidate(t, b, r, history, live, covariates).Some?
    ensures var f := Candidate(t, b, r, history, live, covariates).value;
            Aligned(f.history) && (FrameToWire(f).Some? <==> Printable(f))
  {
    hide TaskValid, TaskContract, BindingValid, SourcedValid, HistoryReady, FutureReady, ProvenanceAccepted, Gathered, PartsValid, WindowValid,
      RolesValid, OneEntryEach, StoredHistory, Future, Newest, MaximumGap, FrameFlags, FrameCells, Ratio, Aligned, FrameToWire, Printable;
    StepsRequired(t);
    ConstructorAccepts(t, b, r, history, live, covariates);
    HistoryIsReady(t, b, r, history, live);
    FutureIsReady(t, r, covariates);
    var (h, included) := StoredHistory(t, b, r, history, live).value;
    var f := Future(t, r, covariates).value;
    HistoryAligned(t, r, h);
    NewestKnown(t, b, r, Gathered(h, f, b, r.asOf));
    FrameEncodes(t, b, r, h, included, f);
  }
}
