/** When a frame is assembled, and what it says of itself: the limits and the quality of a forecast task, stated on the
    source answers. */
module FrameRequirements {
  import opened Outcomes
  import opened Frames
  import opened ObservationGaps
  import opened LiveTail
  import opened FrameAssembly
  import opened FrameAcceptance

  // ---------- source answers ----------

  ghost predicate Holds(s: Segment, d: Definition) { exists x | 0 <= x < |s.series| :: s.series[x].definition == d }

  /** The answer covers the window label by label and holds exactly the declared features of the role. */
  ghost predicate Answers(t: Task, s: Sourced, role: Role, start: nat, count: nat) {
    && |s.segment.timestamps| == count
    && (forall i | 0 <= i < count :: s.segment.timestamps[i] == start + t.spec.cadence * i <= U64_MAX)
    && (forall d | d in t.features && d.role == role :: Holds(s.segment, d))
    && forall x | 0 <= x < |s.segment.series| :: s.segment.series[x].definition in t.features && s.segment.series[x].definition.role == role
  }

  lemma FeaturesIn(features: seq<Definition>, role: Role)
    ensures forall d :: d in Features(features, role) <==> d in features && d.role == role
  {
    FeaturesAre(features, role);
  }

  lemma {:induction false} EntriesBoth(a: seq<Provenance>, b: seq<Provenance>, kind: SegmentKind, feature: string)
    ensures Entries(a + b, kind, feature) == Entries(a, kind, feature) + Entries(b, kind, feature)
    ensures Sources(a + b, kind) == Sources(a, kind) + Sources(b, kind)
  {
    if a == [] {
      assert a + b == b;
    } else {
      assert (a + b)[1..] == a[1..] + b;
      EntriesBoth(a[1..], b, kind, feature);
    }
  }

  lemma {:induction false} Foreign(ps: seq<Provenance>, kind: SegmentKind, feature: string)
    requires forall i | 0 <= i < |ps| :: ps[i].segment != kind
    ensures Entries(ps, kind, feature) == 0 && Sources(ps, kind) == []
  {
    if ps != [] { Foreign(ps[1..], kind, feature); }
  }

  /** A valid answer with exactly the declared features has one entry for each, and as many series as features. */
  lemma AnswerMatches(s: Sourced, features: seq<Definition>, role: Role)
    requires SourcedValid(s) && forall i, j | 0 <= i < j < |features| :: features[i].name != features[j].name
    requires forall x | 0 <= x < |s.segment.series| :: s.segment.series[x].definition in features && s.segment.series[x].definition.role == role
    requires forall i | 0 <= i < |features| :: Holds(s.segment, features[i])
    ensures |s.segment.series| == |features| && ProvenanceMatches(s.provenance, features, SegmentOf(role))
  {
    var ds := Definitions(s.segment.series);
    assert Distinct(ds) by { assert forall x | 0 <= x < |ds| :: ds[x] == s.segment.series[x].definition; }
    assert Distinct(features);
    DistinctCount(ds);
    DistinctCount(features);
    forall i | 0 <= i < |features| ensures features[i] in ds {
      var x :| 0 <= x < |s.segment.series| && s.segment.series[x].definition == features[i];
      assert ds[x] == features[i];
    }
    assert (set d | d in ds) == set d | d in features by {
      assert forall x | 0 <= x < |ds| :: ds[x] in features;
    }
    SegmentEntries(s, role);
    forall i | 0 <= i < |features| ensures Entries(s.provenance, SegmentOf(role), features[i].name) == 1 {
      var x :| 0 <= x < |s.segment.series| && s.segment.series[x].definition == features[i];
    }
  }

  lemma ValidWithinLimits(s: Segment)
    requires SegmentValid(s)
    ensures WithinLimits(s)
  {
    forall x, i | 0 <= x < |s.series| && s.series[x].definition.limits.Some? && 0 <= i < |s.series[x].values|
      ensures LimitsAllow(s.series[x].definition.limits.value, s.series[x].values[i])
    {
      assert SeriesValid(s.series[x]);
      assert SampleValid(s.series[x].definition, s.series[x].values[i], s.series[x].quality[i]);
    }
  }

  lemma CheckedAnswers(t: Task, s: Sourced, features: seq<Definition>, role: Role, start: nat, count: nat)
    requires forall i, j | 0 <= i < j < |features| :: features[i].name != features[j].name
    requires forall d :: d in features <==> d in t.features && d.role == role
    requires Checked(s, features, start, t.spec.cadence, count, SegmentOf(role))
    ensures Answers(t, s, role, start, count)
  {
    hide WithinLimits, ProvenanceMatches;
    var times := RegularTimestamps(start, t.spec.cadence, count).value;
    MatchedDefinitions(s.segment, features, times);
    assert times == Grid(start, t.spec.cadence, count) && s.segment.timestamps == times;
    forall i | 0 <= i < count ensures s.segment.timestamps[i] == start + t.spec.cadence * i <= U64_MAX {
      assert Grid(start, t.spec.cadence, count)[i] <= U64_MAX;
    }
    forall d | d in t.features && d.role == role ensures Holds(s.segment, d) {
      var i :| 0 <= i < |features| && features[i] == d;
    }
  }

  lemma AnswersChecked(t: Task, s: Sourced, features: seq<Definition>, role: Role, start: nat, count: nat)
    requires SourcedValid(s) && forall i, j | 0 <= i < j < |features| :: features[i].name != features[j].name
    requires forall d :: d in features <==> d in t.features && d.role == role
    requires Answers(t, s, role, start, count)
    ensures Checked(s, features, start, t.spec.cadence, count, SegmentOf(role))
  {
    ValidWithinLimits(s.segment);
    hide WithinLimits, SourcedValid, ProvenanceMatches;
    forall i | 0 <= i < |features| ensures Holds(s.segment, features[i]) {
      assert features[i] in t.features;
    }
    AnswerMatches(s, features, role);
    assert forall i | 0 <= i < |features| :: Holds(s.segment, features[i]);
    assert s.segment.timestamps == Grid(start, t.spec.cadence, count);
    assert forall i | 0 <= i < count :: Grid(start, t.spec.cadence, count)[i] == s.segment.timestamps[i];
  }

  /** The checks of a segment pass exactly when the answer covers the window with exactly the declared features: for valid
      sources, value limits and provenance counts then hold of themselves. */
  lemma CheckedIff(t: Task, s: Sourced, role: Role, start: nat, count: nat)
    requires TaskValid(t) && SourcedValid(s)
    ensures Checked(s, Features(t.features, role), start, t.spec.cadence, count, SegmentOf(role)) <==> Answers(t, s, role, start, count)
  {
    hide Checked, Answers, SourcedValid, Features;
    var features := Features(t.features, role);
    FeatureNames(t.features, role);
    FeaturesIn(t.features, role);
    if Checked(s, features, start, t.spec.cadence, count, SegmentOf(role)) { CheckedAnswers(t, s, features, role, start, count); }
    if Answers(t, s, role, start, count) { AnswersChecked(t, s, features, role, start, count); }
  }

  // ---------- sources ----------

  /** An observed source, as opposed to a calendar or a constant. */
  predicate Observed(p: Provenance) { p.kind != Calendar && p.kind != Constant }

  /** Some source was observed; none knows of the time after the cutoff; where the specification asks for it, observed covariates say
      when they were issued and no observed source is older than allowed. */
  ghost predicate SourcesInTime(t: Task, asOf: nat, ps: seq<Provenance>) {
    && (exists p | p in ps :: Observed(p))
    && forall p | p in ps ::
         && p.watermark <= asOf
         && (p.issuedAt.Some? ==> p.issuedAt.value <= asOf)
         && (t.spec.requireIssueTime && p.segment == FutureSegment && Observed(p) ==> p.issuedAt.Some?)
         && (t.spec.maxInputAge.Some? && Observed(p) ==> asOf - p.watermark <= t.spec.maxInputAge.value)
  }

  function Sourcing(h: Sourced, f: Option<Sourced>): seq<Provenance> { h.provenance + if f.Some? then f.value.provenance else [] }

  ghost predicate NewestObserved(ps: seq<Provenance>, watermark: nat) {
    && (exists p | p in ps :: Observed(p) && p.watermark == watermark)
    && forall p | p in ps && Observed(p) :: p.watermark <= watermark
  }

  lemma {:induction false} NewestIs(ps: seq<Provenance>)
    ensures Newest(ps).Some? <==> exists p | p in ps :: Observed(p)
    ensures Newest(ps).Some? ==> NewestObserved(ps, Newest(ps).value)
  {
    if ps != [] {
      NewestIs(ps[1..]);
      assert ps == [ps[0]] + ps[1..];
      assert ps[0] in ps;
      if p :| p in ps[1..] && Observed(p) {
        var q :| q in ps[1..] && Observed(q) && q.watermark == Newest(ps[1..]).value;
        assert q in ps;
      }
      if p :| p in ps && Observed(p) { assert p == ps[0] || p in ps[1..]; }
    }
  }

  /** The generated entries of the statics: one each, all constants as of the cutoff. */
  lemma StaticsSourced(statics: seq<StaticFeature>, asOf: nat)
    requires forall i, j | 0 <= i < j < |statics| :: statics[i].definition.name != statics[j].definition.name
    ensures ProvenanceMatches(StaticProvenance(statics, asOf), StaticDefinitions(statics), StaticSegment)
  {
    var ps := StaticProvenance(statics, asOf);
    SourcesTotal(ps);
    Foreign(ps, HistorySegment, "");
    Foreign(ps, FutureSegment, "");
    forall i | 0 <= i < |statics| ensures Entries(ps, StaticSegment, StaticDefinitions(statics)[i].name) == 1 {
      OneEntry(ps, StaticSegment, i);
    }
  }

  /** Entries of other segments do not disturb a matching segment. */
  lemma MatchesAmong(a: seq<Provenance>, own: seq<Provenance>, c: seq<Provenance>, features: seq<Definition>, kind: SegmentKind)
    requires ProvenanceMatches(own, features, kind)
    requires forall i | 0 <= i < |a| :: a[i].segment != kind
    requires forall i | 0 <= i < |c| :: c[i].segment != kind
    ensures ProvenanceMatches(a + own + c, features, kind)
  {
    forall feature: string
      ensures Entries(a + own + c, kind, feature) == Entries(own, kind, feature) && Sources(a + own + c, kind) == Sources(own, kind)
    {
      EntriesBoth(a + own, c, kind, feature);
      EntriesBoth(a, own, kind, feature);
      Foreign(a, kind, feature);
      Foreign(c, kind, feature);
    }
    assert Entries(a + own + c, kind, "") == Entries(own, kind, "");
  }

  lemma ReadyMatches(s: Sourced, features: seq<Definition>, role: Role)
    requires SourcedValid(s) && forall i, j | 0 <= i < j < |features| :: features[i].name != features[j].name
    requires |s.segment.series| == |features|
    requires forall x | 0 <= x < |s.segment.series| :: s.segment.series[x].definition in features && s.segment.series[x].definition.role == role
    ensures ProvenanceMatches(s.provenance, features, SegmentOf(role)) && |s.provenance| == |features|
    ensures forall i | 0 <= i < |s.provenance| :: s.provenance[i].segment == SegmentOf(role)
  {
    var ds := Definitions(s.segment.series);
    assert Distinct(ds) by { assert forall x | 0 <= x < |ds| :: ds[x] == s.segment.series[x].definition; }
    forall x | 0 <= x < |ds| ensures ds[x] in features { assert ds[x] == s.segment.series[x].definition; }
    Covered(ds, features);
    forall i | 0 <= i < |features| ensures Holds(s.segment, features[i]) {
      var x :| 0 <= x < |ds| && ds[x] == features[i];
    }
    AnswerMatches(s, features, role);
    SegmentEntries(s, role);
  }

  lemma HistorySourced(t: Task, r: Request, h: Sourced)
    requires TaskValid(t) && HistoryReady(t, r, h)
    ensures ProvenanceMatches(h.provenance, Features(t.features, History), HistorySegment)
    ensures |h.provenance| == |Features(t.features, History)|
    ensures forall i | 0 <= i < |h.provenance| :: h.provenance[i].segment == HistorySegment
  {
    hide SourcedValid, ProvenanceMatches, Features, Grid, HistoryStart, DefinitionValid;
    FeatureNames(t.features, History);
    FeaturesIn(t.features, History);
    ReadyMatches(h, Features(t.features, History), History);
  }

  lemma FutureSourced(t: Task, r: Request, f: Option<Sourced>)
    requires TaskValid(t) && FutureReady(t, r, f)
    ensures var ps := if f.Some? then f.value.provenance else [];
            && ProvenanceMatches(ps, Features(t.features, FutureCovariate), FutureSegment)
            && |ps| == |Features(t.features, FutureCovariate)|
            && forall i | 0 <= i < |ps| :: ps[i].segment == FutureSegment
  {
    hide SourcedValid, ProvenanceMatches, Features, Grid, FutureWindow, DefinitionValid;
    FeatureNames(t.features, FutureCovariate);
    FeaturesIn(t.features, FutureCovariate);
    if f.Some? { ReadyMatches(f.value, Features(t.features, FutureCovariate), FutureCovariate); } else { NothingMatches(FutureSegment); }
  }

  /** One provenance entry for every feature always holds at this point. */
  lemma EveryFeatureSourced(t: Task, b: Binding, r: Request, h: Sourced, f: Option<Sourced>)
    requires TaskValid(t) && BindingValid(t, b) && HistoryReady(t, r, h) && FutureReady(t, r, f)
    ensures var ps := Gathered(h, f, b, r.asOf);
            && ProvenanceMatches(ps, Features(t.features, History), HistorySegment)
            && ProvenanceMatches(ps, Features(t.features, FutureCovariate), FutureSegment)
            && ProvenanceMatches(ps, StaticDefinitions(b.statics), StaticSegment)
            && |ps| == |Features(t.features, History)| + |Features(t.features, FutureCovariate)| + |b.statics|
  {
    hide TaskValid, BindingValid, HistoryReady, FutureReady, ProvenanceMatches, Features;
    StaticNames(t, b);
    StaticsSourced(b.statics, r.asOf);
    HistorySourced(t, r, h);
    FutureSourced(t, r, f);
    var middle, statics := if f.Some? then f.value.provenance else [], StaticProvenance(b.statics, r.asOf);
    assert forall i | 0 <= i < |statics| :: statics[i].segment == StaticSegment;
    var ps := Gathered(h, f, b, r.asOf);
    assert ps == [] + h.provenance + (middle + statics) && ps == (h.provenance + middle) + statics + [];
    MatchesAmong([], h.provenance, middle + statics, Features(t.features, History), HistorySegment);
    MatchesAmong(h.provenance, middle, statics, Features(t.features, FutureCovariate), FutureSegment);
    MatchesAmong(h.provenance + middle, statics, [], StaticDefinitions(b.statics), StaticSegment);
  }

  lemma NothingMatches(kind: SegmentKind)
    ensures ProvenanceMatches([], [], kind)
  {}

  lemma StaticsInTime(t: Task, b: Binding, asOf: nat, ps: seq<Provenance>)
    ensures var all := ps + StaticProvenance(b.statics, asOf);
            && ((exists p | p in all :: Observed(p)) <==> exists p | p in ps :: Observed(p))
            && (SourcesInTime(t, asOf, all) <==> SourcesInTime(t, asOf, ps))
  {
    var statics := StaticProvenance(b.statics, asOf);
    var all := ps + statics;
    assert forall p | p in statics :: !Observed(p) && p.watermark == asOf && p.issuedAt.None?;
    assert forall p :: p in all <==> p in ps || p in statics;
  }

  /** The remaining checks on the sources pass exactly when the sources are in time. */
  lemma AcceptedIff(t: Task, b: Binding, r: Request, h: Sourced, f: Option<Sourced>)
    requires TaskValid(t) && BindingValid(t, b) && HistoryReady(t, r, h) && FutureReady(t, r, f)
    ensures ProvenanceAccepted(t, b, r.asOf, Gathered(h, f, b, r.asOf)) <==> SourcesInTime(t, r.asOf, Sourcing(h, f))
  {
    hide TaskValid, BindingValid, HistoryReady, FutureReady, ProvenanceMatches, Features, Newest, StaticProvenance, StaticDefinitions;
    EveryFeatureSourced(t, b, r, h, f);
    var ps := Gathered(h, f, b, r.asOf);
    assert ps == Sourcing(h, f) + StaticProvenance(b.statics, r.asOf);
    StaticsInTime(t, b, r.asOf, Sourcing(h, f));
    NewestIs(ps);
    TimesIff(t, r.asOf, ps);
  }

  lemma TimesIff(t: Task, asOf: nat, ps: seq<Provenance>)
    ensures SourcesInTime(t, asOf, ps) <==>
            && (exists p | p in ps :: Observed(p))
            && (forall i | 0 <= i < |ps| :: !Late(ps[i], asOf))
            && (t.spec.requireIssueTime ==>
                  forall i | 0 <= i < |ps| :: !(ps[i].segment == FutureSegment && !Derived(ps[i].kind) && ps[i].issuedAt.None?))
            && (t.spec.maxInputAge.Some? ==> forall i | 0 <= i < |ps| :: !Stale(ps[i], asOf, t.spec.maxInputAge.value))
  {
    assert forall p | p in ps :: Observed(p) <==> !Derived(p.kind);
    assert forall i | 0 <= i < |ps| :: ps[i] in ps;
  }

  // ---------- cells ----------

  /** The cells of the series that carry the flag. */
  ghost function Flagged(series: seq<Series>, q: Quality): set<(nat, nat)> {
    set x: nat, i: nat | x < |series| && i < |series[x].quality| && series[x].quality[i] == q :: (x, i)
  }

  ghost function FlaggedStatics(statics: seq<StaticFeature>, q: Quality): set<nat> {
    set i: nat | i < |statics| && statics[i].quality == q
  }

  ghost function FlaggedIn(quality: seq<Quality>, q: Quality): set<nat> { set i: nat | i < |quality| && quality[i] == q }

  /** The cells of row `n` in the given columns. */
  ghost function Row(n: nat, columns: set<nat>): set<(nat, nat)> { set i | i in columns :: (n, i) }

  lemma {:induction false} RowCount(n: nat, columns: set<nat>)
    ensures |Row(n, columns)| == |columns|
    decreases |columns|
  {
    if columns == {} {
      assert Row(n, columns) == {};
    } else {
      var c :| c in columns;
      RowCount(n, columns - {c});
      assert Row(n, columns) == Row(n, columns - {c}) + {(n, c)};
    }
  }

  lemma OneRowMore(series: seq<Series>, q: Quality)
    requires series != []
    ensures var n := |series| - 1;
            var row := Row(n, FlaggedIn(series[n].quality, q));
            Flagged(series, q) == Flagged(series[..n], q) + row && Flagged(series[..n], q) !! row
  {
    var n := |series| - 1;
    var row := Row(n, FlaggedIn(series[n].quality, q));
    forall c ensures c in Flagged(series, q) <==> c in Flagged(series[..n], q) + row {
      if c in Flagged(series, q) && c.0 == n { assert c.1 in FlaggedIn(series[n].quality, q); }
    }
  }

  /** The count over all series is the number of flagged cells. */
  lemma {:induction false} SeriesFlagsCount(series: seq<Series>, q: Quality)
    ensures SeriesFlags(series, q) == |Flagged(series, q)|
  {
    if series == [] {
      assert Flagged(series, q) == {};
    } else {
      hide Flagged, FlaggedIn, Row;
      var n := |series| - 1;
      SeriesFlagsCount(series[..n], q);
      RowOf(series[n].quality, q);
      RowCount(n, FlaggedIn(series[n].quality, q));
      OneRowMore(series, q);
    }
  }

  lemma RowOf(quality: seq<Quality>, q: Quality)
    ensures Flags(quality, q) == |FlaggedIn(quality, q)|
  {
    hide Flags;
    FlagsCount(quality, q);
  }

  lemma OneStaticMore(statics: seq<StaticFeature>, q: Quality)
    requires statics != []
    ensures var n := |statics| - 1;
            var before := FlaggedStatics(statics[..n], q);
            n !in before && FlaggedStatics(statics, q) == if statics[n].quality == q then before + {n} else before
  {
    var n := |statics| - 1;
    var before := FlaggedStatics(statics[..n], q);
    forall i: nat ensures i in FlaggedStatics(statics, q) <==> i in before || (i == n && statics[n].quality == q) {
      if i < n { assert statics[..n][i] == statics[i]; }
    }
  }

  lemma {:induction false} StaticFlagsCount(statics: seq<StaticFeature>, q: Quality)
    ensures StaticFlags(statics, q) == |FlaggedStatics(statics, q)|
  {
    if statics == [] {
      assert FlaggedStatics(statics, q) == {};
    } else {
      hide FlaggedStatics;
      StaticFlagsCount(statics[..|statics| - 1], q);
      OneStaticMore(statics, q);
    }
  }

  lemma {:induction false} SeriesCellsCount(series: seq<Series>, labels: nat)
    requires forall x | 0 <= x < |series| :: |series[x].values| == labels
    ensures SeriesCells(series) == |series| * labels
  {
    if series != [] {
      SeriesCellsCount(series[..|series| - 1], labels);
      assert |series| * labels == (|series| - 1) * labels + labels;
    }
  }

  /** How many cells of a frame carry the flag. */
  ghost function CellsWith(history: Segment, future: Option<Segment>, statics: seq<StaticFeature>, q: Quality): nat {
    |Flagged(history.series, q)| + (if future.Some? then |Flagged(future.value.series, q)| else 0) + |FlaggedStatics(statics, q)|
  }

  /** How many cells a frame has. */
  function AllCells(history: Segment, future: Option<Segment>, statics: seq<StaticFeature>): nat {
    |history.series| * |history.timestamps| + (if future.Some? then |future.value.series| * |future.value.timestamps| else 0) + |statics|
  }

  lemma CellsCounted(history: Segment, future: Option<Segment>, statics: seq<StaticFeature>, q: Quality)
    requires Aligned(history) && (future.Some? ==> Aligned(future.value))
    ensures FrameFlags(history, future, statics, q) == CellsWith(history, future, statics, q)
    ensures FrameCells(history, future, statics) == AllCells(history, future, statics)
  {
    SeriesCellsCount(history.series, |history.timestamps|);
    if future.Some? { SeriesCellsCount(future.value.series, |future.value.timestamps|); }
    hide SeriesFlags, SeriesCells, StaticFlags, Flagged, FlaggedStatics;
    SeriesFlagsCount(history.series, q);
    if future.Some? { SeriesFlagsCount(future.value.series, q); }
    StaticFlagsCount(statics, q);
  }

  // ---------- the limits of a forecast task ----------

  /** No two neighbouring usable observations, nor the ends of the window, are further apart than the limit. */
  ghost predicate GapWithin(h: Segment, cadence: nat, limit: nat) {
    && h.timestamps != [] && Aligned(h) && cadence <= limit
    && forall x, i, j | 0 <= x < |h.series| && Neighbours(h.timestamps, h.series[x], i, j) :: Apart(h.timestamps, cadence, i, j) <= limit
  }

  lemma GapWithinIff(h: Segment, cadence: nat, limit: nat)
    requires h.timestamps != [] && Aligned(h)
    ensures MaximumGap(h, cadence) <= limit <==> GapWithin(h, cadence, limit)
  {
    hide MaximumGap, Neighbours, Apart;
    GapIsMaximum(h, cadence);
  }

  predicate ShareIs(part: nat, whole: nat, ratio: real) { ratio * whole as real == part as real }

  predicate ShareWithin(part: nat, whole: nat, limit: real) { part as real <= limit * whole as real }

  /** The missing cells are within the allowed share of all cells, and the longest gap within the allowed one. */
  ghost predicate QualityAllowed(t: Task, history: Segment, future: Option<Segment>, statics: seq<StaticFeature>) {
    && ShareWithin(CellsWith(history, future, statics, Missing), AllCells(history, future, statics), t.spec.maxMissingRatio)
    && (t.spec.maxGap.Some? ==> GapWithin(history, t.spec.cadence, t.spec.maxGap.value))
  }

  lemma RatioIff(missing: nat, cells: nat, limit: real)
    requires 0 < cells
    ensures Ratio(missing, cells) <= limit <==> ShareWithin(missing, cells, limit)
    ensures ShareIs(missing, cells, Ratio(missing, cells))
  {
    var r, c := Ratio(missing, cells), cells as real;
    assert r * c == missing as real;
    if r <= limit { assert (limit - r) * c >= 0.0; } else { assert (r - limit) * c > 0.0; }
  }

  ghost predicate NeedsFuture(t: Task) { exists d | d in t.features :: d.role == FutureCovariate }

  ghost function UsedFuture(t: Task, covariates: Option<Sourced>): Option<Sourced> { if NeedsFuture(t) then covariates else None }

  function SegmentIn(f: Option<Sourced>): Option<Segment> { if f.Some? then Some(f.value.segment) else None }

  /** The history window ends at the cutoff and is representable together with the label after it. */
  ghost predicate HistoryAnswered(t: Task, r: Request, history: Option<Sourced>) {
    t.spec.historySteps != 0
    && var span := t.spec.cadence * (t.spec.historySteps - 1);
       && span <= r.asOf && r.asOf + t.spec.cadence <= U64_MAX
       && history.Some? && Answers(t, history.value, History, r.asOf - span, t.spec.historySteps)
  }

  /** A task with covariates gets them for every step of the horizon, starting right after the cutoff. */
  ghost predicate FutureAnswered(t: Task, r: Request, covariates: Option<Sourced>) {
    NeedsFuture(t) ==>
      && r.asOf + t.spec.cadence + t.spec.cadence * r.horizon <= U64_MAX
      && covariates.Some? && Answers(t, covariates.value, FutureCovariate, r.asOf + t.spec.cadence, r.horizon)
  }

  /** Everything a forecast request must meet for a frame to be assembled. */
  ghost predicate Meets(t: Task, b: Binding, r: Request, history: Option<Sourced>, live: Option<seq<Option<PointSample>>>,
                        covariates: Option<Sourced>)
  {
    && r.horizon <= t.spec.maxHorizon && r.quantiles <= t.spec.maxQuantiles
    && HistoryAnswered(t, r, history) && FutureAnswered(t, r, covariates)
    && var merged := Merge(b.points, r.asOf, history.value, live);
       && merged.Some?
       && var h, f := merged.value.0, UsedFuture(t, covariates);
          && SourcesInTime(t, r.asOf, Sourcing(h, f))
          && QualityAllowed(t, h.segment, SegmentIn(f), b.statics)
  }

  lemma StoredIff(t: Task, b: Binding, r: Request, history: Option<Sourced>, live: Option<seq<Option<PointSample>>>)
    requires TaskValid(t) && (history.Some? ==> SourcedValid(history.value))
    ensures HistoryAnswered(t, r, history) ==> StoredHistory(t, b, r, history, live) == Merge(b.points, r.asOf, history.value, live)
    ensures !HistoryAnswered(t, r, history) ==> StoredHistory(t, b, r, history, live).None?
  {
    hide SourcedValid, Checked, Answers, Merge, Features, DefinitionValid;
    if history.Some? && HistoryStart(t.spec, r.asOf).Some? {
      CheckedIff(t, history.value, History, HistoryStart(t.spec, r.asOf).value, t.spec.historySteps);
    }
  }

  lemma FutureIff(t: Task, r: Request, covariates: Option<Sourced>)
    requires TaskValid(t) && (covariates.Some? ==> SourcedValid(covariates.value))
    ensures Future(t, r, covariates).Some? <==> FutureAnswered(t, r, covariates)
    ensures FutureAnswered(t, r, covariates) ==> Future(t, r, covariates) == Some(UsedFuture(t, covariates))
  {
    hide SourcedValid, Checked, Answers, Features, TaskValid;
    FeaturesIn(t.features, FutureCovariate);
    var features := Features(t.features, FutureCovariate);
    assert NeedsFuture(t) <==> features != [] by {
      if features != [] { assert features[0] in features; }
      if d :| d in t.features && d.role == FutureCovariate { assert d in features; }
    }
    if covariates.Some? { CheckedIff(t, covariates.value, FutureCovariate, FutureStart(t, r.asOf), r.horizon); }
  }

  lemma StaticsNamed(t: Task, b: Binding)
    requires BindingValid(t, b)
    ensures forall i | 0 <= i < |b.statics| :: !Blank(b.statics[i].definition.name)
  {
    hide Blank;
    forall i | 0 <= i < |b.statics| ensures !Blank(b.statics[i].definition.name) { assert StaticValid(b.statics[i]); }
  }

  lemma ReadyAligned(t: Task, r: Request, h: Sourced, f: Option<Sourced>)
    requires HistoryReady(t, r, h) && FutureReady(t, r, f)
    ensures Aligned(h.segment) && h.segment.timestamps != [] && h.segment.series != [] && (f.Some? ==> Aligned(f.value.segment))
    ensures SegmentIn(f).Some? ==> Aligned(SegmentIn(f).value)
  {
    SourcedAligned(h);
    if f.Some? { SourcedAligned(f.value); }
  }

  /** The fields of the frame that is built. */
  lemma BuiltFrom(t: Task, b: Binding, r: Request, h: Sourced, included: bool, f: Option<Sourced>)
    requires Aligned(h.segment) && Newest(Gathered(h, f, b, r.asOf)).Some?
    ensures var frame := FrameOf(t, b, r, h, included, f);
            && frame == Frame(r.asOf, t.spec.cadence, h.segment, SegmentIn(f), b.statics, frame.quality, Gathered(h, f, b, r.asOf))
            && frame.quality == FrameQuality(
                 Newest(Gathered(h, f, b, r.asOf)).value,
                 Ratio(FrameFlags(h.segment, SegmentIn(f), b.statics, Missing), FrameCells(h.segment, SegmentIn(f), b.statics)),
                 MaximumGap(h.segment, t.spec.cadence), included, FrameFlags(h.segment, SegmentIn(f), b.statics, Substituted))
  {
    hide Newest, Gathered, MaximumGap, FrameFlags, FrameCells, Ratio, Aligned;
  }

  lemma QualityIff(t: Task, b: Binding, r: Request, h: Sourced, included: bool, f: Option<Sourced>)
    requires HistoryReady(t, r, h) && FutureReady(t, r, f) && Aligned(h.segment) && Newest(Gathered(h, f, b, r.asOf)).Some?
    ensures var quality := FrameOf(t, b, r, h, included, f).quality;
            QualityAllowed(t, h.segment, SegmentIn(f), b.statics) <==>
            quality.missingRatio <= t.spec.maxMissingRatio && (t.spec.maxGap.Some? ==> quality.maxGap <= t.spec.maxGap.value)
  {
    ReadyAligned(t, r, h, f);
    hide HistoryReady, FutureReady, Newest, Gathered, MaximumGap, FrameFlags, FrameCells, CellsWith, AllCells, Ratio, GapWithin, Aligned,
      FrameOf, SegmentIn, ShareWithin;
    BuiltFrom(t, b, r, h, included, f);
    var future := SegmentIn(f);
    CellsCounted(h.segment, future, b.statics, Missing);
    if t.spec.maxGap.Some? { GapWithinIff(h.segment, t.spec.cadence, t.spec.maxGap.value); }
    SomeCells(h.segment, future, b.statics);
    RatioIff(CellsWith(h.segment, future, b.statics, Missing), AllCells(h.segment, future, b.statics), t.spec.maxMissingRatio);
  }

  lemma SomeCells(history: Segment, future: Option<Segment>, statics: seq<StaticFeature>)
    requires history.series != [] && history.timestamps != []
    ensures 0 < AllCells(history, future, statics)
  {}

  /** A frame is assembled exactly when the request, the source answers and the live state meet its forecast task. */
  lemma AssembledIff(t: Task, b: Binding, r: Request, history: Option<Sourced>, live: Option<seq<Option<PointSample>>>,
                     covariates: Option<Sourced>)
    requires TaskValid(t) && BindingValid(t, b)
    requires (history.Some? ==> SourcedValid(history.value)) && (covariates.Some? ==> SourcedValid(covariates.value))
    ensures t.spec.historySteps != 0
    ensures Assemble(t, b, r, history, live, covariates).Some? <==> Meets(t, b, r, history, live, covariates)
  {
    hide TaskValid, BindingValid, SourcedValid, HistoryReady, FutureReady, ProvenanceAccepted, Gathered, FrameValid, FrameOf, StoredHistory,
      Future, Newest, Merge, HistoryAnswered, FutureAnswered, SourcesInTime, QualityAllowed, UsedFuture, Sourcing, Aligned, Blank;
    StepsRequired(t);
    StoredIff(t, b, r, history, live);
    FutureIff(t, r, covariates);
    StaticsNamed(t, b);
    if Candidate(t, b, r, history, live, covariates).Some? { ConstructorAccepts(t, b, r, history, live, covariates); }
    if StoredHistory(t, b, r, history, live).Some? && Future(t, r, covariates).Some? {
      HistoryIsReady(t, b, r, history, live);
      FutureIsReady(t, r, covariates);
      var (h, included) := StoredHistory(t, b, r, history, live).value;
      var f := Future(t, r, covariates).value;
      AcceptedIff(t, b, r, h, f);
      if ProvenanceAccepted(t, b, r.asOf, Gathered(h, f, b, r.asOf)) {
        HistoryAligned(t, r, h);
        NewestKnown(t, b, r, Gathered(h, f, b, r.asOf));
        QualityIff(t, b, r, h, included, f);
      }
    }
  }

  /** The quality of a frame is that of its own cells: the share of missing ones, the number of substituted ones, the longest
      gap of its history and the newest watermark of an observed source. */
  ghost predicate QualityOf(frame: Frame) {
    && ShareIs(CellsWith(frame.history, frame.future, frame.statics, Missing), AllCells(frame.history, frame.future, frame.statics),
               frame.quality.missingRatio)
    && frame.quality.substituted == CellsWith(frame.history, frame.future, frame.statics, Substituted)
    && frame.history.timestamps != [] && Aligned(frame.history) && IsMaximumGap(frame.history, frame.cadence, frame.quality.maxGap)
    && NewestObserved(frame.provenance, frame.quality.inputWatermark)
  }

  /** The frame holds this history, these covariates and the commissioned statics, with the source entries they came with and
      one constant entry per static. */
  ghost predicate MadeOf(t: Task, b: Binding, r: Request, h: Sourced, f: Option<Sourced>, frame: Frame) {
    && frame.asOf == r.asOf && frame.cadence == t.spec.cadence && frame.history == h.segment && frame.future == SegmentIn(f)
    && frame.statics == b.statics
    && |frame.provenance| == |Sourcing(h, f)| + |b.statics| && Sourcing(h, f) <= frame.provenance
    && forall i | 0 <= i < |b.statics| ::
         frame.provenance[|Sourcing(h, f)| + i] == Provenance(StaticSegment, b.statics[i].definition.name, Constant, None, r.asOf, None)
  }

  lemma FrameMadeOf(t: Task, b: Binding, r: Request, h: Sourced, included: bool, f: Option<Sourced>)
    requires Aligned(h.segment) && Newest(Gathered(h, f, b, r.asOf)).Some?
    ensures MadeOf(t, b, r, h, f, FrameOf(t, b, r, h, included, f))
  {
    var ps := Gathered(h, f, b, r.asOf);
    assert ps == Sourcing(h, f) + StaticProvenance(b.statics, r.asOf);
    hide Newest, MaximumGap, FrameFlags, FrameCells, Ratio, Aligned, FrameOf;
    BuiltFrom(t, b, r, h, included, f);
  }

  lemma FrameQualityOf(t: Task, b: Binding, r: Request, h: Sourced, included: bool, f: Option<Sourced>)
    requires HistoryReady(t, r, h) && FutureReady(t, r, f) && Aligned(h.segment) && Newest(Gathered(h, f, b, r.asOf)).Some?
    ensures QualityOf(FrameOf(t, b, r, h, included, f)) && FrameOf(t, b, r, h, included, f).quality.liveTail == included
  {
    ReadyAligned(t, r, h, f);
    hide HistoryReady, FutureReady, Newest, Gathered, MaximumGap, FrameFlags, FrameCells, CellsWith, AllCells, Ratio, Aligned, IsMaximumGap,
      FrameOf, SegmentIn, ShareIs, ShareWithin, NewestObserved;
    BuiltFrom(t, b, r, h, included, f);
    var future := SegmentIn(f);
    CellsCounted(h.segment, future, b.statics, Missing);
    CellsCounted(h.segment, future, b.statics, Substituted);
    SomeCells(h.segment, future, b.statics);
    RatioIff(CellsWith(h.segment, future, b.statics, Missing), AllCells(h.segment, future, b.statics), 0.0);
    GapIsMaximum(h.segment, t.spec.cadence);
    NewestIs(Gathered(h, f, b, r.asOf));
  }

  /** What an assembled frame says: it is made of the merged history and the covariates of this very request, its quality is
      that of its own cells and sources, and the live-tail flag is set exactly when the live state was read at the cutoff. */
  lemma AssembledSays(t: Task, b: Binding, r: Request, history: Option<Sourced>, live: Option<seq<Option<PointSample>>>,
                      covariates: Option<Sourced>)
    requires TaskValid(t) && BindingValid(t, b)
    requires (history.Some? ==> SourcedValid(history.value)) && (covariates.Some? ==> SourcedValid(covariates.value))
    requires t.spec.historySteps != 0 && Assemble(t, b, r, history, live, covariates).Some?
    ensures Meets(t, b, r, history, live, covariates)
    ensures var frame := Assemble(t, b, r, history, live, covariates).value;
            && MadeOf(t, b, r, Merge(b.points, r.asOf, history.value, live).value.0, UsedFuture(t, covariates), frame)
            && QualityOf(frame)
            && (frame.quality.liveTail <==> ReadAtCutoff(Tails(b.points), r.asOf, history.value.segment.timestamps, live))
  {
    AssembledIff(t, b, r, history, live, covariates);
    hide TaskValid, BindingValid, SourcedValid, HistoryReady, FutureReady, ProvenanceAccepted, Gathered, FrameValid, FrameOf, StoredHistory,
      Future, Newest, Merge, HistoryAnswered, FutureAnswered, SourcesInTime, QualityAllowed, UsedFuture, Sourcing, Aligned, Blank,
      MadeOf, QualityOf, ReadAtCutoff, Tails;
    StoredIff(t, b, r, history, live);
    FutureIff(t, r, covariates);
    HistoryIsReady(t, b, r, history, live);
    FutureIsReady(t, r, covariates);
    var (h, included) := StoredHistory(t, b, r, history, live).value;
    var f := Future(t, r, covariates).value;
    HistoryAligned(t, r, h);
    NewestKnown(t, b, r, Gathered(h, f, b, r.asOf));
    MergeOutcome(b.points, r.asOf, history.value, live);
    FrameMadeOf(t, b, r, h, included, f);
    FrameQualityOf(t, b, r, h, included, f);
  }
}
