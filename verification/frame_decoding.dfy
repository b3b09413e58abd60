/** Exactly which frames are sent and exactly which wire values are accepted, stated on frames. */
module FrameDecoding {
  import opened Outcomes
  import opened Frames
  import opened ObservationGaps
  import opened FrameWire
  import opened FrameRoundTrip
  import opened TextOrder
  import FrameEncoding
  import FrameRequirements

  // ---------- one source entry per feature ----------

  ghost predicate EntriesFor(ps: seq<Provenance>, kind: SegmentKind, names: seq<string>) {
    Distinct(Sources(ps, kind)) && forall i | 0 <= i < |ps| && ps[i].segment == kind :: ps[i].feature in names
  }

  /** Distinct names with an entry each are no more than the entries, and as many only if there are no others. */
  lemma NamesEntered(ps: seq<Provenance>, kind: SegmentKind, names: seq<string>)
    requires Distinct(names) && forall x | 0 <= x < |names| :: Entries(ps, kind, names[x]) == 1
    ensures |names| <= |Sources(ps, kind)|
    ensures |names| == |Sources(ps, kind)| ==> EntriesFor(ps, kind, names)
  {
    var sources := Sources(ps, kind);
    forall x | 0 <= x < |names| ensures names[x] in sources { EntriesListed(ps, kind, names[x]); }
    var a, b := set x | x in names, set y | y in sources;
    DistinctCount(names);
    DistinctCount(sources);
    assert a <= b;
    SubsetCount(a, b);
    if |names| == |sources| {
      Covered(names, sources);
      forall i | 0 <= i < |ps| && ps[i].segment == kind ensures ps[i].feature in names {
        EntriesListed(ps, kind, ps[i].feature);
        var k :| 0 <= k < |sources| && sources[k] == ps[i].feature;
      }
    }
  }

  function FutureNames(f: Frame): seq<string> { if f.future.Some? then SeriesNames(f.future.value.series) else [] }

  /** Every source entry of a valid frame belongs to a feature, and no two to the same. */
  lemma EntriesExact(f: Frame)
    requires FrameValid(f)
    ensures EntriesFor(f.provenance, HistorySegment, SeriesNames(f.history.series))
    ensures EntriesFor(f.provenance, FutureSegment, FutureNames(f))
    ensures EntriesFor(f.provenance, StaticSegment, StaticNameList(f.statics))
  {
    PiecesOf(f);
    EntriesOf(f);
    StaticEntriesOf(f);
    hide FrameValid, SeriesValid, StaticValid, ProvenanceValid, Entries, Sources, EntriesFor;
    NamesEntered(f.provenance, HistorySegment, SeriesNames(f.history.series));
    NamesEntered(f.provenance, FutureSegment, FutureNames(f));
    NamesEntered(f.provenance, StaticSegment, StaticNameList(f.statics));
    SourcesTotal(f.provenance);
  }

  lemma StaticEntriesOf(f: Frame)
    requires FrameValid(f)
    ensures forall i | 0 <= i < |f.statics| :: Entries(f.provenance, StaticSegment, f.statics[i].definition.name) == 1
    ensures |f.provenance| == |f.history.series| + FutureCount(f) + |f.statics|
  {
    hide PartsValid, WindowValid, RolesValid, Newest, Entries;
  }

  // ---------- what a valid frame promises its reader ----------

  predicate EntryFor(p: Provenance, kind: SegmentKind, name: string) { p.segment == kind && p.feature == name }

  /** Exactly one source entry is for this feature. */
  ghost predicate OneSource(ps: seq<Provenance>, kind: SegmentKind, name: string) {
    exists i: nat :: i < |ps| && EntryFor(ps[i], kind, name) && forall j: nat | j < |ps| && EntryFor(ps[j], kind, name) :: j == i
  }

  lemma {:induction false} EntriesMeansOne(ps: seq<Provenance>, kind: SegmentKind, name: string)
    requires Entries(ps, kind, name) == 1
    ensures OneSource(ps, kind, name)
    decreases |ps|
  {
    if EntryFor(ps[0], kind, name) {
      EntriesListed(ps[1..], kind, name);
      forall j: nat | 0 < j < |ps| ensures !EntryFor(ps[j], kind, name) { assert ps[1..][j - 1] == ps[j]; }
      assert EntryFor(ps[0], kind, name);
    } else {
      EntriesMeansOne(ps[1..], kind, name);
      var i: nat :| i < |ps[1..]| && EntryFor(ps[1..][i], kind, name) && forall j: nat | j < |ps[1..]| && EntryFor(ps[1..][j], kind, name) :: j == i;
      forall j: nat | j < |ps| && EntryFor(ps[j], kind, name) ensures j == i + 1 { assert ps[1..][j - 1] == ps[j]; }
      assert EntryFor(ps[i + 1], kind, name);
    }
  }

  lemma {:induction false} OneMeansEntries(ps: seq<Provenance>, kind: SegmentKind, name: string)
    requires OneSource(ps, kind, name)
    ensures Entries(ps, kind, name) == 1
    decreases |ps|
  {
    var i: nat :| i < |ps| && EntryFor(ps[i], kind, name) && forall j: nat | j < |ps| && EntryFor(ps[j], kind, name) :: j == i;
    var rest := ps[1..];
    forall j: nat | j < |rest| && EntryFor(rest[j], kind, name) ensures j + 1 == i { assert rest[j] == ps[j + 1]; }
    if i == 0 {
      EntriesListed(rest, kind, name);
    } else {
      assert EntryFor(rest[i - 1], kind, name);
      OneMeansEntries(rest, kind, name);
      assert !EntryFor(ps[0], kind, name);
    }
  }

  /** A sample is missing exactly when it is flagged so, and otherwise has the declared type and respects the limits. */
  predicate Sound(d: Definition, v: Value, q: Quality) {
    && (v.MissingValue? <==> q == Missing)
    && (v.NumberValue? ==> d.valueType == Number) && (v.TextValue? ==> d.valueType == Text) && (v.BooleanValue? ==> d.valueType == Boolean)
    && (v.NumberValue? && d.limits.Some? ==>
          && !(d.limits.value.minimum.Some? && v.number < d.limits.value.minimum.value)
          && !(d.limits.value.maximum.Some? && d.limits.value.maximum.value < v.number)
          && (d.limits.value.integer ==> v.number.Floor as real == v.number))
  }

  /** A named feature; only numbers have units, never blank ones, and limits. */
  predicate Declared(d: Definition) {
    !Blank(d.name) && (d.valueType == Number || d.unit.None?) && (d.valueType == Number || d.limits.None?) && (d.unit.Some? ==> !Blank(d.unit.value))
  }

  /** Ascending labels, declared series under distinct names, one sound sample per label and series, one source entry each. */
  ghost predicate SoundSegment(s: Segment, kind: SegmentKind, role: Role, ps: seq<Provenance>) {
    && s.timestamps != [] && s.series != []
    && (forall i | 0 < i < |s.timestamps| :: s.timestamps[i - 1] < s.timestamps[i])
    && Distinct(SeriesNames(s.series))
    && forall x | 0 <= x < |s.series| ::
         && s.series[x].definition.role == role && Declared(s.series[x].definition) && OneSource(ps, kind, s.series[x].definition.name)
         && |s.series[x].values| == |s.series[x].quality| == |s.timestamps|
         && forall i | 0 <= i < |s.timestamps| :: Sound(s.series[x].definition, s.series[x].values[i], s.series[x].quality[i])
  }

  /** Declared constants under distinct names, each with a sound sample and one source entry. */
  ghost predicate SoundStatics(statics: seq<StaticFeature>, ps: seq<Provenance>) {
    && Distinct(StaticNameList(statics))
    && forall x | 0 <= x < |statics| ::
         && statics[x].definition.role == Static && Declared(statics[x].definition)
         && OneSource(ps, StaticSegment, statics[x].definition.name)
         && Sound(statics[x].definition, statics[x].value, statics[x].quality)
  }

  /** A source of a kind its segment allows, known by the cutoff; only covariates say when they were issued, no later than known. */
  predicate SoundSource(p: Provenance, asOf: nat) {
    && !Blank(p.feature) && (p.sourceRef.Some? ==> SemanticRef(p.sourceRef.value)) && p.watermark <= asOf
    && (p.segment, p.kind) in {
         (HistorySegment, HistorySource), (HistorySegment, LiveSource), (HistorySegment, HistoryAndLive), (HistorySegment, Calendar),
         (FutureSegment, Covariate), (FutureSegment, Calendar), (FutureSegment, Constant), (StaticSegment, Constant)}
    && (p.issuedAt.Some? ==> p.kind == Covariate && !(p.watermark < p.issuedAt.value))
  }

  /** The history ends at the cutoff and the covariates start one step later, samples are sound, every feature has one source
      entry and no entry is for anything else, no source knows of the time after the cutoff, and the newest observed one is the
      reported watermark. */
  ghost predicate Coherent(f: Frame) {
    && f.cadence != 0 && f.history.timestamps != [] && f.history.timestamps[|f.history.timestamps| - 1] == f.asOf
    && SoundSegment(f.history, HistorySegment, History, f.provenance)
    && (f.future.Some? ==>
          && SoundSegment(f.future.value, FutureSegment, FutureCovariate, f.provenance)
          && f.future.value.timestamps[0] == f.asOf + f.cadence && !(U64_MAX < f.asOf + f.cadence))
    && SoundStatics(f.statics, f.provenance)
    && |f.provenance| == |f.history.series| + (if f.future.Some? then |f.future.value.series| else 0) + |f.statics|
    && (forall i | 0 <= i < |f.provenance| :: SoundSource(f.provenance[i], f.asOf))
    && FrameRequirements.NewestObserved(f.provenance, f.quality.inputWatermark)
    && 0.0 <= f.quality.missingRatio <= 1.0
  }

  lemma SampleSound(d: Definition, v: Value, q: Quality)
    ensures SampleValid(d, v, q) <==> Sound(d, v, q)
  {}

  lemma DeclaredIff(d: Definition)
    ensures DefinitionValid(d) <==> Declared(d)
  {
    hide Blank;
  }

  lemma SourceSound(p: Provenance, asOf: nat)
    ensures SoundSource(p, asOf) <==> ProvenanceValid(p) && p.watermark <= asOf
  {
    hide Blank, SemanticRef;
  }

  lemma SeriesSound(s: Series, labels: nat)
    ensures SeriesValid(s) && |s.values| == labels <==>
            && Declared(s.definition) && |s.values| == |s.quality| == labels
            && forall i | 0 <= i < labels :: Sound(s.definition, s.values[i], s.quality[i])
  {
    hide Sound, SampleValid, DefinitionValid, Declared;
    DeclaredIff(s.definition);
    if |s.values| == |s.quality| {
      forall i | 0 <= i < |s.values| ensures SampleValid(s.definition, s.values[i], s.quality[i]) <==> Sound(s.definition, s.values[i], s.quality[i]) {
        SampleSound(s.definition, s.values[i], s.quality[i]);
      }
    }
  }

  lemma EntriesIff(ps: seq<Provenance>, kind: SegmentKind, name: string)
    ensures Entries(ps, kind, name) == 1 <==> OneSource(ps, kind, name)
  {
    hide Entries, OneSource;
    if Entries(ps, kind, name) == 1 { EntriesMeansOne(ps, kind, name); }
    if OneSource(ps, kind, name) { OneMeansEntries(ps, kind, name); }
  }

  lemma SegmentSound(s: Segment, kind: SegmentKind, role: Role, ps: seq<Provenance>)
    ensures SoundSegment(s, kind, role, ps) <==>
            && SegmentValid(s) && RoleIs(s.series, role)
            && forall i | 0 <= i < |s.series| :: Entries(ps, kind, s.series[i].definition.name) == 1
  {
    hide Entries, OneSource, Sound, SeriesValid, Declared;
    forall x | 0 <= x < |s.series|
      ensures Entries(ps, kind, s.series[x].definition.name) == 1 <==> OneSource(ps, kind, s.series[x].definition.name)
      ensures SeriesValid(s.series[x]) && |s.series[x].values| == |s.timestamps| <==>
              && Declared(s.series[x].definition) && |s.series[x].values| == |s.series[x].quality| == |s.timestamps|
              && forall i | 0 <= i < |s.timestamps| :: Sound(s.series[x].definition, s.series[x].values[i], s.series[x].quality[i])
    {
      EntriesIff(ps, kind, s.series[x].definition.name);
      SeriesSound(s.series[x], |s.timestamps|);
    }
    NamesIff(s.series);
  }

  lemma NamesIff(series: seq<Series>)
    ensures Distinct(SeriesNames(series)) <==> UniqueNames(series)
  {
    var names := SeriesNames(series);
    assert forall x | 0 <= x < |series| :: names[x] == series[x].definition.name;
    if UniqueNames(series) { assert Distinct(names); }
    if Distinct(names) {
      forall i, j | 0 <= i < j < |series| ensures series[i].definition.name != series[j].definition.name { assert names[i] != names[j]; }
    }
  }

  lemma StaticsSound(statics: seq<StaticFeature>, ps: seq<Provenance>)
    ensures SoundStatics(statics, ps) <==>
            && (forall i | 0 <= i < |statics| :: StaticValid(statics[i]))
            && (forall i, j | 0 <= i < j < |statics| :: statics[i].definition.name != statics[j].definition.name)
            && forall i | 0 <= i < |statics| :: Entries(ps, StaticSegment, statics[i].definition.name) == 1
  {
    hide Entries, OneSource, Sound, Declared, DefinitionValid, SampleValid;
    forall x | 0 <= x < |statics|
      ensures Entries(ps, StaticSegment, statics[x].definition.name) == 1 <==> OneSource(ps, StaticSegment, statics[x].definition.name)
      ensures StaticValid(statics[x]) <==>
              statics[x].definition.role == Static && Declared(statics[x].definition)
              && Sound(statics[x].definition, statics[x].value, statics[x].quality)
    {
      EntriesIff(ps, StaticSegment, statics[x].definition.name);
      DeclaredIff(statics[x].definition);
      SampleSound(statics[x].definition, statics[x].value, statics[x].quality);
    }
    var names := StaticNameList(statics);
    assert forall x | 0 <= x < |statics| :: names[x] == statics[x].definition.name;
    if Distinct(names) {
      forall i, j | 0 <= i < j < |statics| ensures statics[i].definition.name != statics[j].definition.name { assert names[i] != names[j]; }
    }
  }

  lemma NewestIff(ps: seq<Provenance>, watermark: nat)
    ensures Newest(ps) == Some(watermark) <==> FrameRequirements.NewestObserved(ps, watermark)
  {
    hide Newest;
    FrameRequirements.NewestIs(ps);
  }

  lemma ValidCoherent(f: Frame)
    requires FrameValid(f)
    ensures Coherent(f)
  {
    PiecesOf(f);
    EntriesOf(f);
    StaticEntriesOf(f);
    WindowOf(f);
    hide FrameValid, Entries, Newest, SegmentValid, SoundSegment, SoundStatics, StaticValid, ProvenanceValid, SoundSource, RoleIs,
      FrameRequirements.NewestObserved;
    SegmentSound(f.history, HistorySegment, History, f.provenance);
    if f.future.Some? { SegmentSound(f.future.value, FutureSegment, FutureCovariate, f.provenance); }
    StaticsSound(f.statics, f.provenance);
    NewestIff(f.provenance, f.quality.inputWatermark);
    forall i | 0 <= i < |f.provenance| ensures SoundSource(f.provenance[i], f.asOf) { SourceSound(f.provenance[i], f.asOf); }
  }

  lemma WindowOf(f: Frame)
    requires FrameValid(f)
    ensures f.cadence != 0 && f.history.timestamps != [] && f.history.timestamps[|f.history.timestamps| - 1] == f.asOf
    ensures f.future.Some? ==> f.future.value.timestamps != [] && f.future.value.timestamps[0] == f.asOf + f.cadence <= U64_MAX
    ensures forall i | 0 <= i < |f.provenance| :: f.provenance[i].watermark <= f.asOf
    ensures Newest(f.provenance) == Some(f.quality.inputWatermark) && 0.0 <= f.quality.missingRatio <= 1.0
  {
    hide SeriesValid, StaticValid, ProvenanceValid, OneEntryEach, RolesValid, Newest;
  }

  lemma CoherentParts(f: Frame)
    requires Coherent(f)
    ensures PartsValid(f) && RolesValid(f) && OneEntryEach(f)
    ensures forall i | 0 <= i < |f.provenance| :: ProvenanceValid(f.provenance[i]) && f.provenance[i].watermark <= f.asOf
  {
    hide Entries, SegmentValid, SoundSegment, SoundStatics, StaticValid, ProvenanceValid, SoundSource, FrameRequirements.NewestObserved;
    SegmentSound(f.history, HistorySegment, History, f.provenance);
    if f.future.Some? { SegmentSound(f.future.value, FutureSegment, FutureCovariate, f.provenance); }
    StaticsSound(f.statics, f.provenance);
    forall i | 0 <= i < |f.provenance| ensures ProvenanceValid(f.provenance[i]) && f.provenance[i].watermark <= f.asOf {
      SourceSound(f.provenance[i], f.asOf);
    }
  }

  lemma CoherentValid(f: Frame)
    requires Coherent(f)
    ensures FrameValid(f)
  {
    CoherentParts(f);
    NewestIff(f.provenance, f.quality.inputWatermark);
    assert f.future.Some? ==> f.future.value.timestamps[0] == f.asOf + f.cadence <= U64_MAX;
    hide Newest, SoundSegment, SoundStatics, SoundSource, PartsValid, RolesValid, OneEntryEach, KindAllowed, SemanticRef, Blank;
    var p :| p in f.provenance && FrameRequirements.Observed(p) && p.watermark == f.quality.inputWatermark;
  }

  /** The frame constructor accepts exactly the coherent frames. */
  lemma ValidIsCoherent(f: Frame)
    ensures FrameValid(f) <==> Coherent(f)
  {
    hide FrameValid, Coherent;
    if FrameValid(f) { ValidCoherent(f); }
    if Coherent(f) { CoherentValid(f); }
  }

  // ---------- the wire value of a frame, field by field ----------

  ghost predicate SpelledSeries(s: Series, features: map<string, WireSeries>) {
    && s.definition.name in features
    && var w := features[s.definition.name];
       w.valueType == s.definition.valueType && w.unit == s.definition.unit && w.values == s.values && w.quality == s.quality
  }

  /** The labels and, under each name, the samples of that series. */
  ghost predicate SpelledSegment(s: Segment, w: WireSegment) {
    w.timestamps == s.timestamps && |w.features| == |s.series| && forall x | 0 <= x < |s.series| :: SpelledSeries(s.series[x], w.features)
  }

  ghost predicate SpelledStatic(f: StaticFeature, statics: map<string, WireStatic>) {
    && f.definition.name in statics
    && var w := statics[f.definition.name];
       w.valueType == f.definition.valueType && w.unit == f.definition.unit && w.value == f.value && w.quality == f.quality
  }

  /** The wire value says this frame: each field under its own name, times in seconds, each feature under its name. */
  ghost predicate Spelled(f: Frame, w: WireFrame) {
    && w.asOf == f.asOf && w.cadenceSeconds * 1000 == f.cadence && w.provenance == f.provenance
    && w.inputWatermark == f.quality.inputWatermark && w.missingRatio == f.quality.missingRatio
    && w.maxGapSeconds * 1000 == f.quality.maxGap && w.liveTail == f.quality.liveTail && w.substituted == f.quality.substituted
    && SpelledSegment(f.history, w.history)
    && (w.future.Some? <==> f.future.Some?) && (f.future.Some? ==> SpelledSegment(f.future.value, w.future.value))
    && |w.statics| == |f.statics| && forall x | 0 <= x < |f.statics| :: SpelledStatic(f.statics[x], w.statics)
  }

  lemma HoldsSpelled(s: Segment, m: map<string, WireSeries>)
    ensures Holds(m, SeriesEntries(s.series)) ==> SpelledSegment(s, WireSegment(s.timestamps, m))
  {
    var entries := SeriesEntries(s.series);
    if Holds(m, entries) {
      forall x | 0 <= x < |s.series| ensures SpelledSeries(s.series[x], m) { assert InMap(m, entries[x]); }
    }
  }

  /** Distinct names of as many map entries are all its keys. */
  lemma KeysAre<V>(m: map<string, V>, names: seq<string>)
    requires |m| == |names| && Distinct(names) && forall x | 0 <= x < |names| :: names[x] in m
    ensures m.Keys == set name | name in names
  {
    var all := set name | name in names;
    DistinctCount(names);
    assert all <= m.Keys;
    SubsetCount(all, m.Keys);
  }

  lemma SegmentDetermined(s: Segment, v: WireSegment, w: WireSegment)
    requires SpelledSegment(s, v) && SpelledSegment(s, w) && UniqueNames(s.series)
    ensures v == w
  {
    var names := SeriesNames(s.series);
    forall x | 0 <= x < |names| ensures names[x] in v.features && names[x] in w.features {
      assert SpelledSeries(s.series[x], v.features) && SpelledSeries(s.series[x], w.features);
    }
    KeysAre(v.features, names);
    KeysAre(w.features, names);
    forall name | name in v.features ensures v.features[name] == w.features[name] {
      var x :| 0 <= x < |names| && names[x] == name;
      assert SpelledSeries(s.series[x], v.features) && SpelledSeries(s.series[x], w.features);
    }
    assert v.features == w.features;
  }

  lemma StaticsDetermined(statics: seq<StaticFeature>, v: map<string, WireStatic>, w: map<string, WireStatic>)
    requires |v| == |w| == |statics|
    requires forall x | 0 <= x < |statics| :: SpelledStatic(statics[x], v) && SpelledStatic(statics[x], w)
    requires forall i, j | 0 <= i < j < |statics| :: statics[i].definition.name != statics[j].definition.name
    ensures v == w
  {
    var names := StaticNameList(statics);
    forall x | 0 <= x < |names| ensures names[x] in v && names[x] in w {
      assert SpelledStatic(statics[x], v) && SpelledStatic(statics[x], w);
    }
    KeysAre(v, names);
    KeysAre(w, names);
    forall name | name in v ensures v[name] == w[name] {
      var x :| 0 <= x < |names| && names[x] == name;
      assert SpelledStatic(statics[x], v) && SpelledStatic(statics[x], w);
    }
  }

  /** A frame has one wire value. */
  lemma Determined(f: Frame, v: WireFrame, w: WireFrame)
    requires FrameValid(f) && Spelled(f, v) && Spelled(f, w)
    ensures v == w
  {
    PiecesOf(f);
    hide FrameValid, SeriesValid, StaticValid, ProvenanceValid, SpelledSegment, SpelledStatic, RoleIs;
    SegmentDetermined(f.history, v.history, w.history);
    if f.future.Some? { SegmentDetermined(f.future.value, v.future.value, w.future.value); }
    StaticsDetermined(f.statics, v.statics, w.statics);
  }

  // ---------- which frames are sent ----------

  predicate SegmentNamed(s: Segment) { forall x | 0 <= x < |s.series| :: NameValid(s.series[x].definition.name) }

  predicate StaticsNamed(statics: seq<StaticFeature>) { forall x | 0 <= x < |statics| :: NameValid(statics[x].definition.name) }

  predicate SegmentSized(s: Segment) { |s.timestamps| <= 20_000 && |s.series| <= 128 }

  /** Sizes and texts within the bounds of the wire contract, and a whole-second cadence of at most a day. */
  predicate WithinContract(f: Frame) {
    && SegmentSized(f.history) && SegmentNamed(f.history)
    && (f.future.Some? ==> SegmentSized(f.future.value) && SegmentNamed(f.future.value))
    && |f.statics| <= 128 && StaticsNamed(f.statics) && |f.provenance| <= 512
    && f.cadence <= 86_400_000 && f.cadence % 1000 == 0 && f.quality.maxGap % 1000 == 0
  }

  /** Regular segments whose reported gap is the real one. */
  ghost predicate WellMeasured(f: Frame) {
    && Regular(f.history.timestamps, f.cadence) && (f.future.Some? ==> Regular(f.future.value.timestamps, f.cadence))
    && f.history.timestamps != [] && Aligned(f.history) && IsMaximumGap(f.history, f.cadence, f.quality.maxGap)
  }

  /** No instant the frame can carry is later than `limit`. */
  predicate NoLaterThan(f: Frame, limit: nat) {
    f.asOf <= limit && (f.future.Some? ==> forall i | 0 <= i < |f.future.value.timestamps| :: f.future.value.timestamps[i] <= limit)
  }

  lemma {:induction false} BeforeLast(ts: seq<nat>, i: nat)
    requires Increasing(ts) && i < |ts|
    ensures ts[i] <= ts[|ts| - 1]
    decreases |ts| - i
  {
    if i < |ts| - 1 { BeforeLast(ts, i + 1); }
  }

  /** The other instants of a valid frame are no later than its cutoff. */
  lemma InstantsBounded(f: Frame)
    requires FrameValid(f)
    ensures forall i | 0 <= i < |f.history.timestamps| :: f.history.timestamps[i] <= f.asOf
    ensures f.quality.inputWatermark <= f.asOf
    ensures forall i | 0 <= i < |f.provenance| ::
              f.provenance[i].watermark <= f.asOf && (f.provenance[i].issuedAt.Some? ==> f.provenance[i].issuedAt.value <= f.asOf)
    ensures f.history.timestamps != [] && f.cadence != 0 && f.provenance != []
  {
    assert f.history.series != [] && |f.provenance| > 0;
    hide SeriesValid, StaticValid, ProvenanceValid, RolesValid, OneEntryEach, Newest;
    forall i | 0 <= i < |f.history.timestamps| ensures f.history.timestamps[i] <= f.asOf { BeforeLast(f.history.timestamps, i); }
  }

  lemma TimesParsedIff(f: Frame)
    requires FrameValid(f)
    ensures TimesParsed(f) <==> NoLaterThan(f, LAST_PARSED)
  {
    InstantsBounded(f);
    hide FrameValid;
  }

  /** The names of the features decide the names of the source entries. */
  lemma SourcesNamedToo(f: Frame)
    requires FrameValid(f) && SegmentNamed(f.history) && (f.future.Some? ==> SegmentNamed(f.future.value)) && StaticsNamed(f.statics)
    ensures forall i | 0 <= i < |f.provenance| :: NameValid(f.provenance[i].feature)
  {
    EntriesExact(f);
    hide FrameValid, NameValid, Sources;
    forall i | 0 <= i < |f.provenance| ensures NameValid(f.provenance[i].feature) {
      var name := f.provenance[i].feature;
      match f.provenance[i].segment
      case HistorySegment => var x :| 0 <= x < |f.history.series| && SeriesNames(f.history.series)[x] == name;
      case FutureSegment => var x :| 0 <= x < |FutureNames(f)| && FutureNames(f)[x] == name;
      case StaticSegment => var x :| 0 <= x < |f.statics| && StaticNameList(f.statics)[x] == name;
    }
  }

  lemma TimesFormattedIff(f: Frame)
    requires FrameValid(f) && SegmentNamed(f.history) && (f.future.Some? ==> SegmentNamed(f.future.value)) && StaticsNamed(f.statics)
    ensures f.asOf <= LAST_FORMATTED ==> TimesFormatted(f) && Formatted(f.history.timestamps)
  {
    SourcesNamedToo(f);
    InstantsBounded(f);
    PiecesOf(f);
    hide FrameValid, NameValid, SegmentNamed, StaticsNamed, SegmentValid, StaticValid, RoleIs;
    if f.asOf <= LAST_FORMATTED {
      forall i | 0 <= i < |f.provenance| ensures SourceFormatted(f.provenance[i]) { SourceFits(f.provenance[i], f.asOf); }
    }
  }

  lemma SourceFits(p: Provenance, asOf: nat)
    requires ProvenanceValid(p) && NameValid(p.feature) && asOf <= LAST_FORMATTED
    requires p.watermark <= asOf && (p.issuedAt.Some? ==> p.issuedAt.value <= asOf)
    ensures SourceFormatted(p)
  {
    hide NameValid, SemanticRef, TextValid;
    if p.sourceRef.Some? { FrameEncoding.RefIsText(p.sourceRef.value); }
  }

  /** A valid segment converts exactly when its names are valid and its labels printable. */
  lemma SegmentConverts(s: Segment)
    requires SegmentValid(s)
    ensures SegmentToWire(s).Some? <==> SegmentNamed(s) && Formatted(s.timestamps)
    ensures SegmentToWire(s).Some? ==> SpelledSegment(s, SegmentToWire(s).value) && Holds(SegmentToWire(s).value.features, SeriesEntries(s.series))
    ensures SegmentToWire(s).Some? ==> (SegmentLimits(SegmentToWire(s).value) <==> SegmentSized(s))
  {
    var entries := SeriesEntries(s.series);
    FilledSpec(entries);
    assert NamesDiffer(entries);
    assert NamesValid(entries) <==> SegmentNamed(s) by {
      assert forall x | 0 <= x < |entries| :: entries[x].name == s.series[x].definition.name;
    }
    hide NameValid, Filled, SeriesValid, Holds;
    if SegmentToWire(s).Some? {
      var m := SegmentToWire(s).value.features;
      HoldsSpelled(s, m);
      if SegmentSized(s) { FrameEncoding.LimitsHold(s); }
    }
  }

  lemma StaticsConverts(statics: seq<StaticFeature>)
    requires forall i, j | 0 <= i < j < |statics| :: statics[i].definition.name != statics[j].definition.name
    ensures Filled(StaticEntries(statics)).Some? <==> StaticsNamed(statics)
    ensures Filled(StaticEntries(statics)).Some? ==>
              var m := Filled(StaticEntries(statics)).value;
              |m| == |statics| && Holds(m, StaticEntries(statics)) && forall x | 0 <= x < |statics| :: SpelledStatic(statics[x], m)
  {
    var entries := StaticEntries(statics);
    FilledSpec(entries);
    assert NamesDiffer(entries);
    assert NamesValid(entries) <==> StaticsNamed(statics) by {
      assert forall x | 0 <= x < |entries| :: entries[x].name == statics[x].definition.name;
    }
    hide NameValid, Filled;
    if Filled(entries).Some? {
      forall x | 0 <= x < |statics| ensures SpelledStatic(statics[x], Filled(entries).value) { assert InMap(Filled(entries).value, entries[x]); }
    }
  }

  lemma EntriesMentioned(ps: seq<Provenance>, kind: SegmentKind, name: string)
    requires Entries(ps, kind, name) == 1
    ensures Mentions(ps, kind, name)
  {
    EntriesListed(ps, kind, name);
  }

  lemma SegmentMentioned(s: Segment, m: map<string, WireSeries>, ps: seq<Provenance>, kind: SegmentKind)
    requires Holds(m, SeriesEntries(s.series))
    requires forall i | 0 <= i < |s.series| :: Entries(ps, kind, s.series[i].definition.name) == 1
    ensures forall name | name in m :: Mentions(ps, kind, name)
    ensures forall x | 0 <= x < |s.series| :: s.series[x].definition.name in m
  {
    hide Entries, Mentions;
    var entries := SeriesEntries(s.series);
    forall name | name in m ensures Mentions(ps, kind, name) {
      assert Listed(entries, name);
      var x :| 0 <= x < |entries| && entries[x].name == name;
      EntriesMentioned(ps, kind, s.series[x].definition.name);
    }
    forall x | 0 <= x < |s.series| ensures s.series[x].definition.name in m { assert InMap(m, entries[x]); }
  }

  lemma StaticsMentioned(statics: seq<StaticFeature>, m: map<string, WireStatic>, ps: seq<Provenance>)
    requires Holds(m, StaticEntries(statics))
    requires forall i | 0 <= i < |statics| :: Entries(ps, StaticSegment, statics[i].definition.name) == 1
    ensures forall name | name in m :: Mentions(ps, StaticSegment, name)
    ensures forall x | 0 <= x < |statics| :: statics[x].definition.name in m
  {
    hide Entries, Mentions;
    var entries := StaticEntries(statics);
    forall name | name in m ensures Mentions(ps, StaticSegment, name) {
      assert Listed(entries, name);
      var x :| 0 <= x < |entries| && entries[x].name == name;
      EntriesMentioned(ps, StaticSegment, statics[x].definition.name);
    }
    forall x | 0 <= x < |statics| ensures statics[x].definition.name in m { assert InMap(m, entries[x]); }
  }

  ghost predicate HoldsFrame(f: Frame, w: WireFrame) {
    && w.provenance == f.provenance
    && Holds(w.history.features, SeriesEntries(f.history.series))
    && (w.future.Some? <==> f.future.Some?) && (f.future.Some? ==> Holds(w.future.value.features, SeriesEntries(f.future.value.series)))
    && Holds(w.statics, StaticEntries(f.statics))
  }

  lemma NoRepeats(f: Frame)
    requires FrameValid(f)
    ensures var ps := f.provenance;
            forall i, j | 0 <= i < j < |ps| :: !(ps[i].segment == ps[j].segment && ps[i].feature == ps[j].feature)
  {
    EntriesExact(f);
    hide FrameValid, Sources;
    var ps := f.provenance;
    forall i, j | 0 <= i < j < |ps| ensures !(ps[i].segment == ps[j].segment && ps[i].feature == ps[j].feature) {
      if ps[i].segment == ps[j].segment && ps[i].feature == ps[j].feature { FrameEncoding.Repeated(ps, i, j); }
    }
  }

  lemma AllTargeted(f: Frame, w: WireFrame)
    requires FrameValid(f) && (w.future.Some? <==> f.future.Some?)
    requires forall x | 0 <= x < |f.history.series| :: f.history.series[x].definition.name in w.history.features
    requires f.future.Some? ==> forall x | 0 <= x < |f.future.value.series| :: f.future.value.series[x].definition.name in w.future.value.features
    requires forall x | 0 <= x < |f.statics| :: f.statics[x].definition.name in w.statics
    ensures forall i | 0 <= i < |f.provenance| :: Targeted(w, f.provenance[i])
  {
    EntriesExact(f);
    hide FrameValid, Sources;
    forall i | 0 <= i < |f.provenance| ensures Targeted(w, f.provenance[i]) {
      var name := f.provenance[i].feature;
      match f.provenance[i].segment
      case HistorySegment => var x :| 0 <= x < |f.history.series| && SeriesNames(f.history.series)[x] == name;
      case FutureSegment => var x :| 0 <= x < |FutureNames(f)| && FutureNames(f)[x] == name;
      case StaticSegment => var x :| 0 <= x < |f.statics| && StaticNameList(f.statics)[x] == name;
    }
  }

  /** The shape of the provenance holds of every valid frame. */
  lemma ShapeOf(f: Frame, w: WireFrame)
    requires FrameValid(f) && HoldsFrame(f, w)
    ensures ProvenanceShape(w)
  {
    hide FrameValid, Entries, Holds, Mentions, Targeted, SeriesEntries, StaticEntries;
    EntriesOf(f);
    StaticEntriesOf(f);
    InstantsBounded(f);
    var ps := f.provenance;
    SegmentMentioned(f.history, w.history.features, ps, HistorySegment);
    if f.future.Some? { SegmentMentioned(f.future.value, w.future.value.features, ps, FutureSegment); }
    StaticsMentioned(f.statics, w.statics, ps);
    AllTargeted(f, w);
    NoRepeats(f);
  }

  /** The measured checks of the encoder and of the decoder, in the words of the gap's specification. */
  lemma MeasuredIff(f: Frame)
    requires FrameValid(f) && Aligned(f.history)
    ensures Encodable(f) <==> WellMeasured(f)
    ensures RebuiltAccepted(f) <==> WellMeasured(f)
  {
    InstantsBounded(f);
    assert Newest(f.provenance) == Some(f.quality.inputWatermark);
    hide FrameValid, MaximumGap, IsMaximumGap, Aligned, Regular, Newest;
    GapIsMaximum(f.history, f.cadence);
    if WellMeasured(f) { OneMaximum(f.history, f.cadence, f.quality.maxGap, MaximumGap(f.history, f.cadence)); }
  }

  /** A frame that can be sent: well measured, within the contract's bounds, and printable. */
  ghost predicate Sendable(f: Frame) { WellMeasured(f) && WithinContract(f) && NoLaterThan(f, LAST_FORMATTED) }

  lemma ConvertedIff(f: Frame)
    requires FrameValid(f)
    ensures Converted(f).Some? <==>
              && SegmentNamed(f.history) && Formatted(f.history.timestamps) && StaticsNamed(f.statics)
              && (f.future.Some? ==> SegmentNamed(f.future.value) && Formatted(f.future.value.timestamps))
    ensures Converted(f).Some? ==> HoldsFrame(f, Converted(f).value)
  {
    PiecesOf(f);
    hide FrameValid, SegmentValid, StaticValid, ProvenanceValid, RoleIs, SegmentToWire, Filled, StaticEntries, SeriesEntries, Holds, SpelledSegment,
      SpelledStatic, SegmentNamed, StaticsNamed, Formatted, SegmentLimits, SegmentSized;
    SegmentConverts(f.history);
    if f.future.Some? { SegmentConverts(f.future.value); }
    StaticsConverts(f.statics);
  }

  lemma ConvertedSpells(f: Frame)
    requires FrameValid(f) && Converted(f).Some? && f.cadence % 1000 == 0 && f.quality.maxGap % 1000 == 0
    ensures Spelled(f, Converted(f).value)
  {
    assert f.cadence / 1000 * 1000 == f.cadence && f.quality.maxGap / 1000 * 1000 == f.quality.maxGap;
    PiecesOf(f);
    hide FrameValid, SegmentValid, StaticValid, ProvenanceValid, RoleIs, SegmentToWire, Filled, StaticEntries, SeriesEntries, Holds, SpelledSegment,
      SpelledStatic, SegmentNamed, StaticsNamed, Formatted, SegmentLimits, SegmentSized;
    SegmentConverts(f.history);
    if f.future.Some? { SegmentConverts(f.future.value); }
    StaticsConverts(f.statics);
  }

  /** The bounds of the contract, on the frame instead of its wire value. */
  predicate FrameSized(f: Frame) {
    && SegmentSized(f.history) && (f.future.Some? ==> SegmentSized(f.future.value)) && |f.statics| <= 128 && |f.provenance| <= 512
    && f.cadence <= 86_400_000
  }

  lemma ConvertedSizes(f: Frame)
    requires FrameValid(f) && Converted(f).Some? && f.cadence % 1000 == 0
    ensures FrameLimits(Converted(f).value) <==> FrameSized(f)
  {
    PiecesOf(f);
    InstantsBounded(f);
    hide FrameValid, SegmentValid, StaticValid, ProvenanceValid, RoleIs, SegmentToWire, Filled, StaticEntries, SeriesEntries, Holds, SpelledSegment,
      SpelledStatic, SegmentNamed, StaticsNamed, Formatted, SegmentLimits, SegmentSized;
    SegmentConverts(f.history);
    if f.future.Some? { SegmentConverts(f.future.value); }
    StaticsConverts(f.statics);
  }

  /** A valid frame is encoded exactly when it can be sent, and then its wire value says it, field by field. */
  lemma EncodesIff(f: Frame, w: WireFrame)
    requires FrameValid(f) && Aligned(f.history)
    ensures FrameToWire(f) == Some(w) <==> Sendable(f) && Spelled(f, w)
  {
    EncodedWhen(f);
    hide FrameValid, FrameToWire, Sendable, Spelled, Aligned;
    if FrameToWire(f).Some? && Spelled(f, w) { Determined(f, FrameToWire(f).value, w); }
  }

  lemma EncodedWhen(f: Frame)
    requires FrameValid(f) && Aligned(f.history)
    ensures FrameToWire(f).Some? <==> Sendable(f)
    ensures FrameToWire(f).Some? ==> Spelled(f, FrameToWire(f).value)
  {
    hide FrameValid, Aligned, Encodable, TimesFormatted, Converted, FrameLimits, ProvenanceShape, WellMeasured, SegmentNamed, StaticsNamed,
      Formatted, SegmentSized, HoldsFrame, Spelled;
    MeasuredIff(f);
    ConvertedIff(f);
    FormattedFuture(f);
    if SegmentNamed(f.history) && (f.future.Some? ==> SegmentNamed(f.future.value)) && StaticsNamed(f.statics) { TimesFormattedIff(f); }
    if Converted(f).Some? {
      ShapeOf(f, Converted(f).value);
      if f.cadence % 1000 == 0 { ConvertedSizes(f); }
      if f.cadence % 1000 == 0 && f.quality.maxGap % 1000 == 0 { ConvertedSpells(f); }
    }
  }

  lemma FormattedFuture(f: Frame)
    ensures f.asOf <= LAST_FORMATTED && (f.future.Some? ==> Formatted(f.future.value.timestamps)) <==> NoLaterThan(f, LAST_FORMATTED)
    ensures TimesFormatted(f) ==> f.asOf <= LAST_FORMATTED
  {}

  // ---------- which wire values are accepted ----------

  /** Features in ascending name order, without numeric limits. */
  predicate SegmentOrdered(s: Segment) {
    && (forall x | 0 <= x < |s.series| :: s.series[x].definition.limits.None?)
    && forall i, j | 0 <= i < j < |s.series| :: Before(s.series[i].definition.name, s.series[j].definition.name)
  }

  predicate StaticsOrdered(statics: seq<StaticFeature>) {
    && (forall x | 0 <= x < |statics| :: statics[x].definition.limits.None?)
    && forall i, j | 0 <= i < j < |statics| :: Before(statics[i].definition.name, statics[j].definition.name)
  }

  predicate FrameOrdered(f: Frame) {
    SegmentOrdered(f.history) && (f.future.Some? ==> SegmentOrdered(f.future.value)) && StaticsOrdered(f.statics)
  }

  predicate Ascending(list: seq<string>) { forall i, j | 0 <= i < j < |list| :: Before(list[i], list[j]) }

  /** There is one ascending list of given names. */
  lemma {:induction false} OneOrder(a: seq<string>, b: seq<string>)
    requires Ascending(a) && Ascending(b) && forall name :: name in a <==> name in b
    ensures a == b
    decreases |a|
  {
    hide Before;
    assert b != [] ==> b[0] in b;
    if a != [] {
      assert a[0] in b && b[0] in a by { assert a[0] in a; assert b != [] ==> b[0] in b; }
      BeforeTotal(a[0], b[0]);
      assert a[0] == b[0] by {
        var i :| 0 <= i < |b| && b[i] == a[0];
        var j :| 0 <= j < |a| && a[j] == b[0];
      }
      forall name ensures name in a[1..] <==> name in b[1..] { TailNames(a, name); TailNames(b, name); }
      OneOrder(a[1..], b[1..]);
    }
  }

  lemma TailNames(a: seq<string>, name: string)
    requires Ascending(a) && a != []
    ensures name in a[1..] <==> name in a && name != a[0]
  {
    hide Before;
    if name in a[1..] {
      var i :| 1 <= i < |a| && a[i] == name;
      BeforeTotal(a[0], a[i]);
    }
  }

  lemma OrderedIs(list: seq<string>)
    requires Ascending(list)
    ensures Ordered(set name | name in list) == list
  {
    hide Ordered, Before;
    OneOrder(Ordered(set name | name in list), list);
  }

  lemma AscendingDistinct(list: seq<string>)
    requires Ascending(list)
    ensures Distinct(list)
  {
    hide Before;
    forall i, j | 0 <= i < j < |list| ensures list[i] != list[j] { BeforeTotal(list[i], list[j]); }
  }

  lemma PlacesStand(list: seq<string>)
    requires Ascending(list)
    ensures |Places(list)| == |list| && forall i | 0 <= i < |list| :: Places(list)[i] == i
  {
    hide Before, Ordered;
    OrderedIs(list);
    AscendingDistinct(list);
    var place := Places(list);
    hide Places;
    forall i | 0 <= i < |list| ensures place[i] == i { assert list[place[i]] == list[i]; }
  }

  /** The normal form of a segment is the segment itself exactly when it is ordered. */
  lemma SegmentNormalIff(s: Segment)
    requires UniqueNames(s.series)
    ensures NormalSegment(s) == s <==> SegmentOrdered(s)
  {
    var list := SeriesNames(s.series);
    NormalSeriesSpec(s.series);
    hide Before, Places, Ordered, NormalSeries;
    if SegmentOrdered(s) {
      PlacesStand(list);
      assert forall i | 0 <= i < |s.series| :: NormalSeries(s.series)[i] == s.series[i];
    }
    if NormalSegment(s) == s {
      forall x | 0 <= x < |s.series| ensures s.series[x].definition.limits.None? { assert NormalSeries(s.series)[x] == s.series[x]; }
    }
  }

  lemma StaticsNormalIff(statics: seq<StaticFeature>)
    requires forall i, j | 0 <= i < j < |statics| :: statics[i].definition.name != statics[j].definition.name
    ensures NormalStatics(statics) == statics <==> StaticsOrdered(statics)
  {
    var list := StaticNameList(statics);
    NormalStaticsSpec(statics);
    hide Before, Places, Ordered, NormalStatics;
    if StaticsOrdered(statics) {
      PlacesStand(list);
      assert forall i | 0 <= i < |statics| :: NormalStatics(statics)[i] == statics[i];
    }
    if NormalStatics(statics) == statics {
      forall x | 0 <= x < |statics| ensures statics[x].definition.limits.None? { assert NormalStatics(statics)[x] == statics[x]; }
    }
  }

  lemma NormalIff(f: Frame)
    requires FrameValid(f)
    ensures Normal(f) == f <==> FrameOrdered(f)
  {
    PiecesOf(f);
    hide FrameValid, SeriesValid, StaticValid, ProvenanceValid, RoleIs, NormalSegment, NormalStatics, SegmentOrdered, StaticsOrdered;
    SegmentNormalIff(f.history);
    if f.future.Some? { SegmentNormalIff(f.future.value); }
    StaticsNormalIff(f.statics);
  }

  // ---------- what decoding gives ----------

  lemma DecodedSeriesIs(name: string, role: Role, w: WireSeries)
    requires SeriesFromWire(name, role, w).Some?
    ensures var s := SeriesFromWire(name, role, w).value;
            && s.definition.name == name && s.definition.role == role && s.definition.limits.None? && UnitCarried(s.definition)
            && NameValid(name) && s.definition.valueType == w.valueType && s.definition.unit == w.unit && s.values == w.values
            && s.quality == w.quality
  {
    hide NameValid, UnitValid, SeriesValid, Blank;
  }

  lemma DecodedStaticIs(name: string, w: WireStatic)
    requires StaticFromWire(name, w).Some?
    ensures var f := StaticFromWire(name, w).value;
            && f.definition.name == name && f.definition.limits.None? && UnitCarried(f.definition) && NameValid(name)
            && f.definition.valueType == w.valueType && f.definition.unit == w.unit && f.value == w.value && f.quality == w.quality
  {
    hide NameValid, UnitValid, StaticValid, Blank;
  }

  /** A decoded segment is spelled by the wire segment, ordered, with valid names and units. */
  lemma DecodedSegmentIs(w: WireSegment, role: Role)
    requires SegmentFromWire(w, role).Some?
    ensures var s := SegmentFromWire(w, role).value;
            SpelledSegment(s, w) && SegmentOrdered(s) && SegmentNamed(s) && UnitsCarried(s.series) && Parsed(s.timestamps) && SegmentValid(s)
  {
    var s, names := SegmentFromWire(w, role).value, Ordered(w.features.Keys);
    hide Before, NameValid, SegmentValid, SeriesFromWire, Ordered, Parsed, UnitCarried;
    forall x | 0 <= x < |s.series|
      ensures s.series[x].definition.name == names[x] && s.series[x].definition.limits.None? && NameValid(names[x])
      ensures SpelledSeries(s.series[x], w.features) && UnitCarried(s.series[x].definition)
    {
      DecodedSeriesIs(names[x], role, w.features[names[x]]);
    }
  }

  ghost predicate StaticIs(f: StaticFeature, name: string, w: map<string, WireStatic>) {
    f.definition.name == name && f.definition.limits.None? && NameValid(name) && UnitCarried(f.definition) && SpelledStatic(f, w)
  }

  lemma DecodedStaticsAre(w: map<string, WireStatic>)
    requires StaticList(Ordered(w.Keys), w).Some?
    ensures var statics := StaticList(Ordered(w.Keys), w).value;
            && |w| == |statics| && (forall x | 0 <= x < |statics| :: SpelledStatic(statics[x], w))
            && StaticsOrdered(statics) && StaticsNamed(statics) && StaticUnitsCarried(statics)
  {
    var statics, names := StaticList(Ordered(w.Keys), w).value, Ordered(w.Keys);
    hide Before, StaticFromWire, StaticList, Ordered, StaticIs, StaticsOrdered, StaticsNamed, StaticUnitsCarried, SpelledStatic;
    StaticListAt(names, w);
    forall x | 0 <= x < |statics| ensures StaticIs(statics[x], names[x], w) { StaticSpelled(statics[x], names[x], w); }
    StaticsAre(statics, names, w);
  }

  lemma StaticsAre(statics: seq<StaticFeature>, names: seq<string>, w: map<string, WireStatic>)
    requires |names| == |statics| && (forall x | 0 <= x < |statics| :: StaticIs(statics[x], names[x], w))
    requires forall i, j | 0 <= i < j < |names| :: Before(names[i], names[j])
    ensures forall x | 0 <= x < |statics| :: SpelledStatic(statics[x], w)
    ensures StaticsOrdered(statics) && StaticsNamed(statics) && StaticUnitsCarried(statics)
  {
    hide Before, NameValid, UnitCarried, SpelledStatic;
  }

  lemma StaticListAt(names: seq<string>, w: map<string, WireStatic>)
    requires (forall i | 0 <= i < |names| :: names[i] in w) && StaticList(names, w).Some?
    ensures |StaticList(names, w).value| == |names|
    ensures forall i | 0 <= i < |names| :: StaticFromWire(names[i], w[names[i]]) == Some(StaticList(names, w).value[i])
  {
    hide StaticFromWire;
  }

  lemma StaticSpelled(f: StaticFeature, name: string, w: map<string, WireStatic>)
    requires name in w && StaticFromWire(name, w[name]) == Some(f)
    ensures StaticIs(f, name, w)
  {
    hide StaticFromWire, NameValid, UnitCarried;
    DecodedStaticIs(name, w[name]);
  }

  lemma RebuiltIs(w: WireFrame)
    requires Rebuilt(w).Some?
    ensures var f := Rebuilt(w).value;
            && Spelled(f, w) && FrameOrdered(f) && FrameUnits(f)
            && SegmentNamed(f.history) && (f.future.Some? ==> SegmentNamed(f.future.value)) && StaticsNamed(f.statics)
            && (f.future.Some? ==> Parsed(f.future.value.timestamps))
  {
    hide SegmentFromWire, StaticList, Ordered, SpelledSegment, SpelledStatic, SegmentOrdered, StaticsOrdered, SegmentNamed, StaticsNamed,
      UnitsCarried, StaticUnitsCarried, Parsed, SegmentValid;
    DecodedSegmentIs(w.history, History);
    if w.future.Some? { DecodedSegmentIs(w.future.value, FutureCovariate); }
    DecodedStaticsAre(w.statics);
  }

  /** The decoder accepts exactly the wire values of valid, sendable frames in name order whose years have four digits and
      whose numbers carry units, and gives back that frame. */
  lemma DecodesIff(w: WireFrame, f: Frame)
    ensures FrameFromWire(w) == Some(f) <==>
            && FrameValid(f) && Sendable(f) && Spelled(f, w)
            && FrameOrdered(f) && FrameUnits(f) && NoLaterThan(f, LAST_PARSED)
  {
    hide FrameValid, Sendable, Spelled, FrameOrdered, FrameUnits, NoLaterThan, Rebuilt, RebuiltAccepted, WireChecked;
    if FrameFromWire(w) == Some(f) {
      AcceptedFrame(w, f);
    }
    if FrameValid(f) && Sendable(f) && Spelled(f, w) && FrameOrdered(f) && FrameUnits(f) && NoLaterThan(f, LAST_PARSED) {
      SendableAligned(f);
      EncodesIff(f, w);
      TimesParsedIff(f);
      NormalIff(f);
      RoundTrip(f);
    }
  }

  lemma SendableAligned(f: Frame)
    requires Sendable(f)
    ensures Aligned(f.history)
  {}

  lemma AcceptedFrame(w: WireFrame, f: Frame)
    requires FrameFromWire(w) == Some(f)
    ensures FrameValid(f) && Sendable(f) && Spelled(f, w) && FrameOrdered(f) && FrameUnits(f) && NoLaterThan(f, LAST_PARSED)
  {
    hide FrameValid, FrameOrdered, FrameUnits, Rebuilt, SegmentNamed, StaticsNamed, Spelled, Aligned, IsMaximumGap, MaximumGap,
      Newest, ProvenanceShape;
    RebuiltIs(w);
    assert FrameValid(f) && Aligned(f.history);
    MeasuredIff(f);
    SpelledSizes(w, f);
  }

  /** The bounds the decoder checks on the wire value are those of the frame it spells. */
  lemma SpelledSizes(w: WireFrame, f: Frame)
    requires Spelled(f, w) && WireChecked(w)
    ensures SegmentSized(f.history) && (f.future.Some? ==> SegmentSized(f.future.value)) && |f.statics| <= 128 && |f.provenance| <= 512
    ensures f.cadence <= 86_400_000 && f.cadence % 1000 == 0 && f.quality.maxGap % 1000 == 0 && f.asOf <= LAST_PARSED
  {
    hide SpelledSeries, SpelledStatic, ProvenanceShape, SourceAccepted;
  }

  /** So an accepted wire value is that of its frame: encoding what was decoded gives the value back. The frame is coherent and
      regular, its gap and its watermark are the real ones, and each of its features is the wire entry of its name. */
  lemma DecodedReencodes(w: WireFrame, f: Frame)
    requires FrameFromWire(w) == Some(f)
    ensures FrameValid(f) && Coherent(f) && WellMeasured(f) && FrameRequirements.NewestObserved(f.provenance, f.quality.inputWatermark)
    ensures Spelled(f, w)
    ensures FrameToWire(f) == Some(w)
  {
    DecodesIff(w, f);
    SendableAligned(f);
    ValidIsCoherent(f);
    assert Newest(f.provenance) == Some(f.quality.inputWatermark);
    hide FrameValid, Coherent, Spelled, WellMeasured, WithinContract, NoLaterThan, Newest, FrameFromWire, FrameToWire,
      FrameRequirements.NewestObserved;
    EncodesIff(f, w);
    FrameRequirements.NewestIs(f.provenance);
  }
}
