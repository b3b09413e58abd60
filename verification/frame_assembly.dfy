/** Assembling a processing frame from validated source answers. */
module FrameAssembly {
  import opened Outcomes
  import opened Frames
  import opened ObservationGaps
  import opened LiveTail

  /** How one named fallback result is accepted. */
  datatype Policy = Policy(strategy: string, version: string, sourceFeature: string)

  datatype Spec = Spec(
    target: string, targetUnit: string, signConvention: string, fallbacks: seq<string>, policies: seq<Policy>, cadence: nat,
    historySteps: nat, maxHorizon: nat, maxQuantiles: nat, maxMissingRatio: real,
    maxInputAge: Option<nat>, maxGap: Option<nat>, requireIssueTime: bool)

  datatype Task = Task(id: string, processorContract: string, features: seq<Definition>, spec: Spec)

  datatype Binding = Binding(points: seq<Mapping>, statics: seq<StaticFeature>)

  datatype Request = Request(asOf: nat, horizon: nat, quantiles: nat)

  // ---------- tasks and bindings ----------

  function Features(features: seq<Definition>, role: Role): seq<Definition> {
    if features == [] then [] else (if features[0].role == role then [features[0]] else []) + Features(features[1..], role)
  }

  /** What the constructors of a task demand of its window and its features. */
  predicate TaskValid(t: Task) {
    && t.spec.cadence != 0 && t.spec.historySteps != 0 && t.spec.maxHorizon != 0
    && (forall i | 0 <= i < |t.features| :: DefinitionValid(t.features[i]))
    && (forall i, j | 0 <= i < j < |t.features| :: !(t.features[i].role == t.features[j].role && t.features[i].name == t.features[j].name))
    && (exists i | 0 <= i < |t.features| ::
          && t.features[i].role == History && t.features[i].name == t.spec.target && t.features[i].valueType == Number
          && t.features[i].unit == Some(t.spec.targetUnit))
    && forall i | 0 <= i < |t.features| && t.features[i].name == t.spec.target :: t.features[i].role == History
  }

  /** The commissioned statics are the declared static features, and every mapped point is a numeric history feature. */
  predicate BindingValid(t: Task, b: Binding) {
    && |Features(t.features, Static)| == |b.statics|
    && (forall i | 0 <= i < |Features(t.features, Static)| ::
          exists j | 0 <= j < |b.statics| :: b.statics[j].definition == Features(t.features, Static)[i])
    && (forall i | 0 <= i < |b.statics| :: StaticValid(b.statics[i]))
    && (forall i | 0 <= i < |b.points| :: exists j | 0 <= j < |t.features| ::
          t.features[j].name == b.points[i].feature && t.features[j].role == History && t.features[j].valueType == Number)
    && exists i | 0 <= i < |b.points| :: b.points[i].feature == t.spec.target
  }

  // ---------- the steps of the assembly ----------

  function Grid(start: nat, cadence: nat, count: nat): seq<nat> { seq(count, i requires 0 <= i < count => start + cadence * i) }

  /** The regular labels, unless one of them overflows. */
  function RegularTimestamps(start: nat, cadence: nat, count: nat): Option<seq<nat>> {
    if forall i | 0 <= i < count :: Grid(start, cadence, count)[i] <= U64_MAX then Some(Grid(start, cadence, count)) else None
  }

  predicate SegmentMatches(s: Segment, features: seq<Definition>, times: seq<nat>) {
    && s.timestamps == times
    && |s.series| == |features|
    && forall i | 0 <= i < |features| :: exists j | 0 <= j < |s.series| :: s.series[j].definition == features[i]
  }

  predicate WithinLimits(s: Segment) {
    forall x | 0 <= x < |s.series| && s.series[x].definition.limits.Some? ::
      forall i | 0 <= i < |s.series[x].values| :: LimitsAllow(s.series[x].definition.limits.value, s.series[x].values[i])
  }

  predicate LimitsAllow(l: Limits, v: Value) { v.MissingValue? || (v.NumberValue? && Accepts(l, v.number)) }

  predicate ProvenanceMatches(ps: seq<Provenance>, features: seq<Definition>, kind: SegmentKind) {
    && |Sources(ps, kind)| == |features|
    && forall i | 0 <= i < |features| :: Entries(ps, kind, features[i].name) == 1
  }

  /** The start of the history window, when the window is representable. */
  function HistoryStart(spec: Spec, asOf: nat): Option<nat>
    requires spec.historySteps != 0
  {
    var span := spec.cadence * (spec.historySteps - 1);
    if U64_MAX < span || asOf < span || U64_MAX < asOf + spec.cadence then None else Some(asOf - span)
  }

  /** A source answer that passed every check of its segment. */
  predicate Checked(s: Sourced, features: seq<Definition>, start: nat, cadence: nat, count: nat, kind: SegmentKind) {
    && RegularTimestamps(start, cadence, count).Some?
    && SegmentMatches(s.segment, features, RegularTimestamps(start, cadence, count).value)
    && WithinLimits(s.segment)
    && ProvenanceMatches(s.provenance, features, kind)
  }

  function StaticProvenance(statics: seq<StaticFeature>, asOf: nat): seq<Provenance> {
    seq(|statics|, i requires 0 <= i < |statics| => Provenance(StaticSegment, statics[i].definition.name, Constant, None, asOf, None))
  }

  function StaticDefinitions(statics: seq<StaticFeature>): seq<Definition> {
    seq(|statics|, i requires 0 <= i < |statics| => statics[i].definition)
  }

  predicate Late(p: Provenance, asOf: nat) { asOf < p.watermark || (p.issuedAt.Some? && asOf < p.issuedAt.value) }

  predicate Stale(p: Provenance, asOf: nat, age: nat) { !Derived(p.kind) && age < Sub(asOf, p.watermark) }

  predicate ProvenanceAccepted(t: Task, b: Binding, asOf: nat, ps: seq<Provenance>) {
    && ProvenanceMatches(ps, Features(t.features, History), HistorySegment)
    && ProvenanceMatches(ps, Features(t.features, FutureCovariate), FutureSegment)
    && ProvenanceMatches(ps, StaticDefinitions(b.statics), StaticSegment)
    && |ps| == |Features(t.features, History)| + |Features(t.features, FutureCovariate)| + |b.statics|
    && Newest(ps).Some?
    && (forall i | 0 <= i < |ps| :: !Late(ps[i], asOf))
    && (t.spec.requireIssueTime ==>
          forall i | 0 <= i < |ps| :: !(ps[i].segment == FutureSegment && !Derived(ps[i].kind) && ps[i].issuedAt.None?))
    && (t.spec.maxInputAge.Some? ==> forall i | 0 <= i < |ps| :: !Stale(ps[i], asOf, t.spec.maxInputAge.value))
  }

  // ---------- cell counts ----------

  function SeriesCells(series: seq<Series>): nat {
    if series == [] then 0 else SeriesCells(series[..|series| - 1]) + |series[|series| - 1].values|
  }

  function StaticFlags(statics: seq<StaticFeature>, q: Quality): nat {
    if statics == [] then 0 else StaticFlags(statics[..|statics| - 1], q) + if statics[|statics| - 1].quality == q then 1 else 0
  }

  function FrameFlags(history: Segment, future: Option<Segment>, statics: seq<StaticFeature>, q: Quality): nat {
    SeriesFlags(history.series, q) + (if future.Some? then SeriesFlags(future.value.series, q) else 0) + StaticFlags(statics, q)
  }

  function FrameCells(history: Segment, future: Option<Segment>, statics: seq<StaticFeature>): nat {
    SeriesCells(history.series) + (if future.Some? then SeriesCells(future.value.series) else 0) + |statics|
  }

  /** The counting loops over one segment. */
  method SegmentCounts(s: Segment, missing: nat, substituted: nat, cells: nat) returns (m: nat, u: nat, c: nat)
    ensures m == missing + SeriesFlags(s.series, Missing)
    ensures u == substituted + SeriesFlags(s.series, Substituted)
    ensures c == cells + SeriesCells(s.series)
  {
    m, u, c := missing, substituted, cells;
    var x := 0;
    while x < |s.series|
      invariant x <= |s.series|
      invariant m == missing + SeriesFlags(s.series[..x], Missing)
      invariant u == substituted + SeriesFlags(s.series[..x], Substituted)
      invariant c == cells + SeriesCells(s.series[..x])
    {
      var quality := s.series[x].quality;
      var lost, filled := CountFlags(quality);
      assert s.series[..x + 1][..x] == s.series[..x];
      m, u, c, x := m + lost, u + filled, c + |s.series[x].values|, x + 1;
    }
    assert s.series[..x] == s.series;
  }

  method CountFlags(quality: seq<Quality>) returns (missing: nat, substituted: nat)
    ensures missing == Flags(quality, Missing) && substituted == Flags(quality, Substituted)
  {
    missing, substituted := 0, 0;
    var i := 0;
    while i < |quality|
      invariant i <= |quality|
      invariant missing == Flags(quality[..i], Missing) && substituted == Flags(quality[..i], Substituted)
    {
      assert quality[..i + 1][..i] == quality[..i];
      if quality[i] == Missing { missing := missing + 1; }
      if quality[i] == Substituted { substituted := substituted + 1; }
      i := i + 1;
    }
    assert quality[..i] == quality;
  }

  /** The count of a flag is the number of cells that carry it. */
  lemma {:induction false} FlagsCount(quality: seq<Quality>, q: Quality)
    ensures Flags(quality, q) == |set i: nat | i < |quality| && quality[i] == q|
  {
    var cells := set i: nat | i < |quality| && quality[i] == q;
    if quality == [] {
      assert cells == {};
    } else {
      var n := |quality| - 1;
      var before := set i: nat | i < n && quality[..n][i] == q;
      FlagsCount(quality[..n], q);
      assert cells == if quality[n] == q then before + {n} else before;
    }
  }

  /** Missing, substituted and total cells of a frame. */
  method FrameCellCounts(history: Segment, future: Option<Segment>, statics: seq<StaticFeature>)
    returns (missing: nat, substituted: nat, cells: nat)
    ensures missing == FrameFlags(history, future, statics, Missing)
    ensures substituted == FrameFlags(history, future, statics, Substituted)
    ensures cells == FrameCells(history, future, statics)
  {
    missing, substituted, cells := SegmentCounts(history, 0, 0, 0);
    if future.Some? { missing, substituted, cells := SegmentCounts(future.value, missing, substituted, cells); }
    cells := cells + |statics|;
    var lost, filled, i := 0, 0, 0;
    while i < |statics|
      invariant i <= |statics|
      invariant lost == StaticFlags(statics[..i], Missing) && filled == StaticFlags(statics[..i], Substituted)
    {
      assert statics[..i + 1][..i] == statics[..i];
      if statics[i].quality == Missing { lost := lost + 1; }
      if statics[i].quality == Substituted { filled := filled + 1; }
      i := i + 1;
    }
    assert statics[..i] == statics;
    missing, substituted := missing + lost, substituted + filled;
  }

  function Ratio(missing: nat, cells: nat): real { if cells == 0 then 0.0 else missing as real / cells as real }

  // ---------- the assembly ----------

  function FutureStart(t: Task, asOf: nat): nat { asOf + t.spec.cadence }

  /** The future window is representable. */
  predicate FutureWindow(t: Task, r: Request) {
    && FutureStart(t, r.asOf) <= U64_MAX
    && t.spec.cadence * r.horizon <= U64_MAX
    && FutureStart(t, r.asOf) + t.spec.cadence * r.horizon <= U64_MAX
  }

  /** The future segment a forecast needs, checked; the outer `None` is an error. */
  function Future(t: Task, r: Request, answer: Option<Sourced>): Option<Option<Sourced>> {
    var features := Features(t.features, FutureCovariate);
    if features == [] then Some(None)
    else if !FutureWindow(t, r) || answer.None? then None
    else if Checked(answer.value, features, FutureStart(t, r.asOf), t.spec.cadence, r.horizon, FutureSegment) then Some(answer)
    else None
  }

  /** Stored history, checked and completed with the live tail; `None` is an error. */
  function StoredHistory(t: Task, b: Binding, r: Request, answer: Option<Sourced>, live: Option<seq<Option<PointSample>>>)
    : Option<(Sourced, bool)>
    requires t.spec.historySteps != 0
  {
    var start := HistoryStart(t.spec, r.asOf);
    if start.None? || answer.None? then None
    else if Checked(answer.value, Features(t.features, History), start.value, t.spec.cadence, t.spec.historySteps, HistorySegment) then
      Merge(b.points, r.asOf, answer.value, live)
    else None
  }

  function Gathered(h: Sourced, f: Option<Sourced>, b: Binding, asOf: nat): seq<Provenance> {
    h.provenance + (if f.Some? then f.value.provenance else []) + StaticProvenance(b.statics, asOf)
  }

  function FrameOf(t: Task, b: Binding, r: Request, h: Sourced, included: bool, f: Option<Sourced>): Frame
    requires Aligned(h.segment) && Newest(Gathered(h, f, b, r.asOf)).Some?
  {
    var ps := Gathered(h, f, b, r.asOf);
    var future := if f.Some? then Some(f.value.segment) else None;
    var missing := FrameFlags(h.segment, future, b.statics, Missing);
    var quality := FrameQuality(
      Newest(ps).value, Ratio(missing, FrameCells(h.segment, future, b.statics)), MaximumGap(h.segment, t.spec.cadence),
      included, FrameFlags(h.segment, future, b.statics, Substituted));
    Frame(r.asOf, t.spec.cadence, h.segment, future, b.statics, quality, ps)
  }

  /** Everything before the frame is constructed: the frame that would be constructed, or `None` for an error. */
  function Candidate(t: Task, b: Binding, r: Request, history: Option<Sourced>, live: Option<seq<Option<PointSample>>>,
                     covariates: Option<Sourced>): Option<Frame>
    requires t.spec.historySteps != 0 && (history.Some? ==> SourcedValid(history.value))
  {
    if t.spec.maxHorizon < r.horizon || t.spec.maxQuantiles < r.quantiles then None
    else
      var stored := StoredHistory(t, b, r, history, live);
      if stored.None? then None
      else
        var (h, included) := stored.value;
        var future := Future(t, r, covariates);
        if future.None? || (exists i | 0 <= i < |b.statics| :: Blank(b.statics[i].definition.name))
           || !ProvenanceAccepted(t, b, r.asOf, Gathered(h, future.value, b, r.asOf)) then None
        else
          assert Aligned(h.segment) by { MergeOutcome(b.points, r.asOf, history.value, live); SourcedAligned(h); }
          var f := FrameOf(t, b, r, h, included, future.value);
          if t.spec.maxMissingRatio < f.quality.missingRatio then None
          else if t.spec.maxGap.Some? && t.spec.maxGap.value < f.quality.maxGap then None
          else Some(f)
  }

  /** The assembly: the candidate, if the quality and frame constructors accept it. */
  function Assemble(t: Task, b: Binding, r: Request, history: Option<Sourced>, live: Option<seq<Option<PointSample>>>,
                    covariates: Option<Sourced>): Option<Frame>
    requires t.spec.historySteps != 0 && (history.Some? ==> SourcedValid(history.value))
  {
    var f := Candidate(t, b, r, history, live, covariates);
    if f.Some? && FrameValid(f.value) then f else None
  }

  // ---------- what the checks establish ----------

  lemma {:induction false} FeaturesAre(features: seq<Definition>, role: Role)
    ensures forall i | 0 <= i < |Features(features, role)| :: Features(features, role)[i] in features && Features(features, role)[i].role == role
    ensures forall d | d in features && d.role == role :: d in Features(features, role)
  {
    if features != [] { FeaturesAre(features[1..], role); }
  }

  lemma {:induction false} FeatureNames(features: seq<Definition>, role: Role)
    requires forall i, j | 0 <= i < j < |features| :: !(features[i].role == features[j].role && features[i].name == features[j].name)
    ensures forall i, j | 0 <= i < j < |Features(features, role)| :: Features(features, role)[i].name != Features(features, role)[j].name
  {
    if features != [] {
      var rest := features[1..];
      FeatureNames(rest, role);
      FeaturesAre(rest, role);
      var tail := Features(rest, role);
      if features[0].role == role {
        forall j | 0 <= j < |tail| ensures tail[j].name != features[0].name {
          var k :| 0 <= k < |rest| && rest[k] == tail[j];
          assert features[k + 1] == rest[k];
        }
      }
    }
  }

  function Definitions(series: seq<Series>): seq<Definition> { seq(|series|, x requires 0 <= x < |series| => series[x].definition) }

  /** A segment that matches the expected features has no other series. */
  lemma MatchedDefinitions(s: Segment, features: seq<Definition>, times: seq<nat>)
    requires SegmentMatches(s, features, times)
    requires forall i, j | 0 <= i < j < |features| :: features[i].name != features[j].name
    ensures forall x | 0 <= x < |s.series| :: s.series[x].definition in features
  {
    var ds := Definitions(s.series);
    forall i | 0 <= i < |features| ensures features[i] in ds {
      var j :| 0 <= j < |s.series| && s.series[j].definition == features[i];
      assert ds[j] == features[i];
    }
    assert Distinct(features) by {
      assert forall i, j | 0 <= i < j < |features| :: features[i].name != features[j].name;
    }
    Covered(features, ds);
    forall x | 0 <= x < |s.series| ensures s.series[x].definition in features { assert ds[x] in features; }
  }

  function NamesOf(ds: seq<Definition>): seq<string> { seq(|ds|, i requires 0 <= i < |ds| => ds[i].name) }

  /** Matched provenance of one segment names the expected features, each once, and nothing else. */
  lemma MatchedSources(ps: seq<Provenance>, features: seq<Definition>, kind: SegmentKind)
    requires ProvenanceMatches(ps, features, kind)
    requires forall i, j | 0 <= i < j < |features| :: features[i].name != features[j].name
    ensures Distinct(Sources(ps, kind))
    ensures forall i | 0 <= i < |ps| && ps[i].segment == kind :: ps[i].feature in NamesOf(features)
  {
    var names, sources := NamesOf(features), Sources(ps, kind);
    forall i | 0 <= i < |names| ensures names[i] in sources { EntriesListed(ps, kind, names[i]); }
    assert Distinct(names);
    Covered(names, sources);
    forall i | 0 <= i < |ps| && ps[i].segment == kind ensures ps[i].feature in names {
      EntriesListed(ps, kind, ps[i].feature);
      var k :| 0 <= k < |sources| && sources[k] == ps[i].feature;
      assert sources[k] in names;
    }
  }

  /** The commissioned statics have the declared static definitions, with distinct names. */
  lemma StaticNames(t: Task, b: Binding)
    requires TaskValid(t) && BindingValid(t, b)
    ensures forall i, j | 0 <= i < j < |b.statics| :: b.statics[i].definition.name != b.statics[j].definition.name
    ensures forall i | 0 <= i < |b.statics| :: b.statics[i].definition in t.features
  {
    hide DefinitionValid, StaticValid;
    var features, ds := Features(t.features, Static), StaticDefinitions(b.statics);
    FeatureNames(t.features, Static);
    FeaturesAre(t.features, Static);
    forall i | 0 <= i < |features| ensures features[i] in ds {
      var j :| 0 <= j < |b.statics| && b.statics[j].definition == features[i];
      assert ds[j] == features[i];
    }
    assert Distinct(features);
    Covered(features, ds);
    forall i | 0 <= i < |b.statics| ensures b.statics[i].definition in t.features {
      assert ds[i] in features;
    }
    forall i, j | 0 <= i < j < |b.statics| ensures b.statics[i].definition.name != b.statics[j].definition.name {
      assert ds[i] in features && ds[j] in features && ds[i] != ds[j];
    }
  }

  lemma {:induction false} FlagsBound(quality: seq<Quality>, q: Quality)
    ensures Flags(quality, q) <= |quality|
  {
    if quality != [] { FlagsBound(quality[..|quality| - 1], q); }
  }

  lemma {:induction false} SeriesFlagsBound(series: seq<Series>, q: Quality)
    requires forall x | 0 <= x < |series| :: |series[x].values| == |series[x].quality|
    ensures SeriesFlags(series, q) <= SeriesCells(series)
  {
    if series != [] {
      SeriesFlagsBound(series[..|series| - 1], q);
      FlagsBound(series[|series| - 1].quality, q);
    }
  }

  lemma {:induction false} StaticFlagsBound(statics: seq<StaticFeature>, q: Quality)
    ensures StaticFlags(statics, q) <= |statics|
  {
    if statics != [] { StaticFlagsBound(statics[..|statics| - 1], q); }
  }

  lemma RatioBound(missing: nat, cells: nat)
    requires missing <= cells
    ensures 0.0 <= Ratio(missing, cells) <= 1.0
  {
    if cells != 0 {
      var r := missing as real / cells as real;
      assert r * cells as real == missing as real;
    }
  }
}
