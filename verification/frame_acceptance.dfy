/** Every assembled frame passes the checks of the frame constructor. */
module FrameAcceptance {
  import opened Outcomes
  import opened Frames
  import opened ObservationGaps
  import opened LiveTail
  import opened FrameAssembly

  /** What is known of the checked and merged history when a frame is built. */
  ghost predicate HistoryReady(t: Task, r: Request, h: Sourced) {
    && SourcedValid(h)
    && t.spec.historySteps != 0 && HistoryStart(t.spec, r.asOf).Some?
    && h.segment.timestamps == Grid(HistoryStart(t.spec, r.asOf).value, t.spec.cadence, t.spec.historySteps)
    && |h.segment.series| == |Features(t.features, History)|
    && forall x | 0 <= x < |h.segment.series| :: h.segment.series[x].definition in Features(t.features, History)
  }

  ghost predicate FutureReady(t: Task, r: Request, f: Option<Sourced>) {
    && (f.None? ==> Features(t.features, FutureCovariate) == [])
    && (f.Some? ==>
          && SourcedValid(f.value)
          && FutureWindow(t, r)
          && f.value.segment.timestamps == Grid(FutureStart(t, r.asOf), t.spec.cadence, r.horizon)
          && |f.value.segment.series| == |Features(t.features, FutureCovariate)|
          && forall x | 0 <= x < |f.value.segment.series| ::
               f.value.segment.series[x].definition in Features(t.features, FutureCovariate))
  }

  lemma HistoryIsReady(t: Task, b: Binding, r: Request, history: Option<Sourced>, live: Option<seq<Option<PointSample>>>)
    requires TaskValid(t) && (history.Some? ==> SourcedValid(history.value)) && StoredHistory(t, b, r, history, live).Some?
    ensures HistoryReady(t, r, StoredHistory(t, b, r, history, live).value.0)
  {
    hide SourcedValid, WithinLimits, ProvenanceMatches, Merge, AllAccepted, DefinitionValid, TailReplaced;
    var features, s := Features(t.features, History), history.value.segment;
    var times := RegularTimestamps(HistoryStart(t.spec, r.asOf).value, t.spec.cadence, t.spec.historySteps).value;
    FeatureNames(t.features, History);
    MatchedDefinitions(s, features, times);
    MergeOutcome(b.points, r.asOf, history.value, live);
    var (h, included) := StoredHistory(t, b, r, history, live).value;
    hide Features, MappedAt;
    forall x | 0 <= x < |h.segment.series| ensures h.segment.series[x].definition in features {
      assert h.segment.series[x].definition == s.series[x].definition by {
        if included { SameDefinition(b, live, s.series[x], h.segment.series[x]); }
      }
    }
  }

  lemma SameDefinition(b: Binding, live: Option<seq<Option<PointSample>>>, s: Series, m: Series)
    requires live.Some? && Merged(Tails(b.points), live.value, s, m)
    ensures m.definition == s.definition
  {}

  lemma FutureIsReady(t: Task, r: Request, covariates: Option<Sourced>)
    requires TaskValid(t) && (covariates.Some? ==> SourcedValid(covariates.value)) && Future(t, r, covariates).Some?
    ensures FutureReady(t, r, Future(t, r, covariates).value)
  {
    hide SourcedValid, WithinLimits, ProvenanceMatches, DefinitionValid;
    var features := Features(t.features, FutureCovariate);
    FeatureNames(t.features, FutureCovariate);
    if features != [] {
      var times := RegularTimestamps(FutureStart(t, r.asOf), t.spec.cadence, r.horizon).value;
      MatchedDefinitions(covariates.value.segment, features, times);
    }
  }

  // ---------- the constructor's checks ----------

  lemma PartsHold(t: Task, b: Binding, r: Request, h: Sourced, included: bool, f: Option<Sourced>)
    requires BindingValid(t, b) && HistoryReady(t, r, h) && FutureReady(t, r, f) && Aligned(h.segment)
    requires Newest(Gathered(h, f, b, r.asOf)).Some?
    requires forall i | 0 <= i < |b.statics| :: !Blank(b.statics[i].definition.name)
    ensures PartsValid(FrameOf(t, b, r, h, included, f))
  {
    hide Newest, MaximumGap, SeriesValid, SampleValid, Blank, Grid, Features, StaticValid;
    var ps, statics := Gathered(h, f, b, r.asOf), StaticProvenance(b.statics, r.asOf);
    var middle := if f.Some? then f.value.provenance else [];
    forall i | 0 <= i < |ps| ensures ProvenanceValid(ps[i]) {
      if i < |h.provenance| {
        assert ps[i] == h.provenance[i];
      } else if i < |h.provenance| + |middle| {
        assert ps[i] == middle[i - |h.provenance|];
      } else {
        assert ps[i] == statics[i - |h.provenance| - |middle|];
      }
    }
    RatioHolds(h, f, b);
  }

  lemma RatioHolds(h: Sourced, f: Option<Sourced>, b: Binding)
    requires SourcedValid(h) && (f.Some? ==> SourcedValid(f.value))
    ensures var future := if f.Some? then Some(f.value.segment) else None;
            0.0 <= Ratio(FrameFlags(h.segment, future, b.statics, Missing), FrameCells(h.segment, future, b.statics)) <= 1.0
  {
    SeriesFlagsBound(h.segment.series, Missing);
    if f.Some? { SeriesFlagsBound(f.value.segment.series, Missing); }
    StaticFlagsBound(b.statics, Missing);
    var future := if f.Some? then Some(f.value.segment) else None;
    hide SourcedValid, SeriesFlags, SeriesCells, StaticFlags, Ratio;
    RatioBound(FrameFlags(h.segment, future, b.statics, Missing), FrameCells(h.segment, future, b.statics));
  }

  lemma WindowHolds(t: Task, b: Binding, r: Request, h: Sourced, included: bool, f: Option<Sourced>)
    requires TaskValid(t) && HistoryReady(t, r, h) && FutureReady(t, r, f) && Aligned(h.segment)
    requires ProvenanceAccepted(t, b, r.asOf, Gathered(h, f, b, r.asOf))
    ensures WindowValid(FrameOf(t, b, r, h, included, f))
  {
    hide Newest, MaximumGap, SourcedValid, DefinitionValid, ProvenanceMatches, Gathered, Features, FrameFlags, FrameCells, Ratio;
    var ps := Gathered(h, f, b, r.asOf);
    assert forall i | 0 <= i < |ps| :: !Late(ps[i], r.asOf);
    NewestBound(ps, r.asOf);
    var start := HistoryStart(t.spec, r.asOf).value;
    assert start + t.spec.cadence * (t.spec.historySteps - 1) == r.asOf;
  }

  lemma RolesHold(t: Task, b: Binding, r: Request, h: Sourced, included: bool, f: Option<Sourced>)
    requires TaskValid(t) && BindingValid(t, b) && HistoryReady(t, r, h) && FutureReady(t, r, f) && Aligned(h.segment)
    requires Newest(Gathered(h, f, b, r.asOf)).Some?
    ensures RolesValid(FrameOf(t, b, r, h, included, f))
  {
    hide Newest, MaximumGap, SourcedValid, DefinitionValid, Gathered, FrameFlags, FrameCells, Ratio, Grid, BindingValid, TaskValid;
    FeaturesAre(t.features, History);
    FeaturesAre(t.features, FutureCovariate);
    StaticNames(t, b);
  }

  lemma EntriesHold(t: Task, b: Binding, r: Request, h: Sourced, included: bool, f: Option<Sourced>)
    requires HistoryReady(t, r, h) && FutureReady(t, r, f) && Aligned(h.segment)
    requires ProvenanceAccepted(t, b, r.asOf, Gathered(h, f, b, r.asOf))
    ensures OneEntryEach(FrameOf(t, b, r, h, included, f))
  {
    hide Newest, MaximumGap, SourcedValid, Gathered, FrameFlags, FrameCells, Ratio, Grid, Features, Entries, Sources, Late, Stale, Derived;
    var ps := Gathered(h, f, b, r.asOf);
    assert forall i | 0 <= i < |b.statics| :: StaticDefinitions(b.statics)[i] == b.statics[i].definition;
  }

  /** On a validated task and binding the frame constructor never rejects what the assembly offers it. */
  lemma ConstructorAccepts(t: Task, b: Binding, r: Request, history: Option<Sourced>, live: Option<seq<Option<PointSample>>>,
                           covariates: Option<Sourced>)
    requires TaskValid(t) && BindingValid(t, b)
    requires (history.Some? ==> SourcedValid(history.value)) && (covariates.Some? ==> SourcedValid(covariates.value))
    requires Candidate(t, b, r, history, live, covariates).Some?
    ensures FrameValid(Candidate(t, b, r, history, live, covariates).value)
    ensures Assemble(t, b, r, history, live, covariates) == Candidate(t, b, r, history, live, covariates)
  {
    hide TaskValid, BindingValid, SourcedValid, HistoryReady, FutureReady, ProvenanceAccepted, Gathered, PartsValid, WindowValid,
      RolesValid, OneEntryEach, StoredHistory, Future, Newest, MaximumGap, FrameFlags, FrameCells, Ratio, Aligned;
    StepsRequired(t);
    HistoryIsReady(t, b, r, history, live);
    FutureIsReady(t, r, covariates);
    var (h, included) := StoredHistory(t, b, r, history, live).value;
    var f := Future(t, r, covariates).value;
    HistoryAligned(t, r, h);
    NewestKnown(t, b, r, Gathered(h, f, b, r.asOf));
    PartsHold(t, b, r, h, included, f);
    WindowHolds(t, b, r, h, included, f);
    RolesHold(t, b, r, h, included, f);
    EntriesHold(t, b, r, h, included, f);
  }

  lemma StepsRequired(t: Task)
    requires TaskValid(t)
    ensures t.spec.historySteps != 0
  {}

  lemma HistoryAligned(t: Task, r: Request, h: Sourced)
    requires HistoryReady(t, r, h)
    ensures Aligned(h.segment)
  {
    SourcedAligned(h);
  }

  lemma NewestKnown(t: Task, b: Binding, r: Request, ps: seq<Provenance>)
    requires ProvenanceAccepted(t, b, r.asOf, ps)
    ensures Newest(ps).Some?
  {}
}
