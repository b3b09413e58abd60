/** Decoding an encoded frame: the same frame with its features in name order and their numeric limits erased. */
module FrameRoundTrip {
  import opened Outcomes
  import opened Frames
  import opened ObservationGaps
  import opened FrameWire
  import opened TextOrder

  // ---------- arranging by name ----------

  function IndexOf(list: seq<string>, name: string): (i: nat)
    requires name in list
    ensures i < |list| && list[i] == name
  {
    if list[0] == name then 0 else 1 + IndexOf(list[1..], name)
  }

  /** Where the names of a list stand once they are put in order. */
  ghost function Places(list: seq<string>): (place: seq<nat>)
    ensures |place| == |Ordered(set name | name in list)|
    ensures forall i | 0 <= i < |place| :: place[i] < |list| && list[place[i]] == Ordered(set name | name in list)[i]
  {
    var names := Ordered(set name | name in list);
    assert forall i | 0 <= i < |names| :: names[i] in list by {
      forall i | 0 <= i < |names| ensures names[i] in list { assert names[i] in names; }
    }
    seq(|names|, i requires 0 <= i < |names| && names[i] in list => IndexOf(list, names[i]))
  }

  /** Every index below `n` stands exactly once in `place`. */
  ghost predicate Permutation(place: seq<nat>, n: nat) {
    |place| == n && (forall i | 0 <= i < n :: place[i] < n) && Distinct(place) && forall x: nat | x < n :: x in place
  }

  /** Distinct names are arranged, each once, in ascending order. */
  lemma PlacesArrange(list: seq<string>)
    requires Distinct(list)
    ensures Permutation(Places(list), |list|)
    ensures forall i, j | 0 <= i < j < |list| :: Before(list[Places(list)[i]], list[Places(list)[j]])
  {
    var all := set name | name in list;
    var names, place := Ordered(all), Places(list);
    DistinctCount(list);
    hide Ordered, Places, Before;
    forall x: nat | x < |list| ensures x in place {
      assert list[x] in all && list[x] in names;
      var i :| 0 <= i < |names| && names[i] == list[x];
      assert list[place[i]] == list[x];
      assert place[i] == x;
    }
    forall i, j | 0 <= i < j < |place| ensures place[i] != place[j] && Before(list[place[i]], list[place[j]]) {
      assert Before(names[i], names[j]);
      BeforeTotal(names[i], names[j]);
    }
  }

  // ---------- the decoded form ----------

  function Erased(d: Definition): Definition { d.(limits := None) }

  function PlainSeries(s: Series): Series { s.(definition := Erased(s.definition)) }

  function PlainStatic(f: StaticFeature): StaticFeature { f.(definition := Erased(f.definition)) }

  function SeriesNames(series: seq<Series>): seq<string> { seq(|series|, x requires 0 <= x < |series| => series[x].definition.name) }

  function StaticNameList(statics: seq<StaticFeature>): seq<string> { seq(|statics|, x requires 0 <= x < |statics| => statics[x].definition.name) }

  ghost function NormalSeries(series: seq<Series>): seq<Series> {
    var place := Places(SeriesNames(series));
    seq(|place|, i requires 0 <= i < |place| => PlainSeries(series[place[i]]))
  }

  ghost function NormalStatics(statics: seq<StaticFeature>): seq<StaticFeature> {
    var place := Places(StaticNameList(statics));
    seq(|place|, i requires 0 <= i < |place| => PlainStatic(statics[place[i]]))
  }

  ghost function NormalSegment(s: Segment): Segment { Segment(s.timestamps, NormalSeries(s.series)) }

  /** The frame with series and static features in name order and numeric limits erased. */
  ghost function Normal(f: Frame): Frame {
    Frame(f.asOf, f.cadence, NormalSegment(f.history), if f.future.Some? then Some(NormalSegment(f.future.value)) else None,
          NormalStatics(f.statics), f.quality, f.provenance)
  }

  /** The normal form holds every series once, erased, in ascending name order. */
  lemma NormalSeriesSpec(series: seq<Series>)
    requires UniqueNames(series)
    ensures var place := Places(SeriesNames(series));
            && Permutation(place, |series|) && |NormalSeries(series)| == |series|
            && (forall i | 0 <= i < |series| :: NormalSeries(series)[i] == PlainSeries(series[place[i]]))
            && (forall i, j | 0 <= i < j < |series| ::
                  Before(NormalSeries(series)[i].definition.name, NormalSeries(series)[j].definition.name))
            && UniqueNames(NormalSeries(series))
  {
    hide Before, Permutation;
    var list := SeriesNames(series);
    assert Distinct(list);
    PlacesArrange(list);
    var place := Places(list);
    assert |place| == |series| by { PermutationSize(place, |list|); }
    hide Places;
    forall i, j | 0 <= i < j < |series|
      ensures Before(NormalSeries(series)[i].definition.name, NormalSeries(series)[j].definition.name)
      ensures NormalSeries(series)[i].definition.name != NormalSeries(series)[j].definition.name
    {
      assert Before(list[place[i]], list[place[j]]);
      BeforeTotal(list[place[i]], list[place[j]]);
    }
  }

  lemma PermutationSize(place: seq<nat>, n: nat)
    requires Permutation(place, n)
    ensures |place| == n && (forall i | 0 <= i < n :: place[i] < n) && forall x: nat | x < n :: x in place
  {}

  lemma NormalStaticsSpec(statics: seq<StaticFeature>)
    requires forall i, j | 0 <= i < j < |statics| :: statics[i].definition.name != statics[j].definition.name
    ensures var place := Places(StaticNameList(statics));
            && Permutation(place, |statics|) && |NormalStatics(statics)| == |statics|
            && (forall i | 0 <= i < |statics| :: NormalStatics(statics)[i] == PlainStatic(statics[place[i]]))
            && (forall i, j | 0 <= i < j < |statics| ::
                  Before(NormalStatics(statics)[i].definition.name, NormalStatics(statics)[j].definition.name))
            && (forall i, j | 0 <= i < j < |statics| ::
                  NormalStatics(statics)[i].definition.name != NormalStatics(statics)[j].definition.name)
  {
    hide Before, Permutation;
    var list := StaticNameList(statics);
    assert Distinct(list);
    PlacesArrange(list);
    var place := Places(list);
    assert |place| == |statics| by { PermutationSize(place, |list|); }
    hide Places;
    forall i, j | 0 <= i < j < |statics|
      ensures Before(NormalStatics(statics)[i].definition.name, NormalStatics(statics)[j].definition.name)
      ensures NormalStatics(statics)[i].definition.name != NormalStatics(statics)[j].definition.name
    {
      assert Before(list[place[i]], list[place[j]]);
      BeforeTotal(list[place[i]], list[place[j]]);
    }
  }

  // ---------- one feature ----------

  /** A number carries a unit the wire accepts. */
  predicate UnitCarried(d: Definition) { d.valueType == Number ==> d.unit.Some? && UnitValid(d.unit.value) }

  lemma SeriesDecodes(s: Series)
    requires SeriesValid(s) && NameValid(s.definition.name)
    ensures SeriesFromWire(s.definition.name, s.definition.role, SeriesToWire(s)) == DecodedSeries(s)
    ensures SeriesValid(PlainSeries(s))
  {
    hide NameValid, UnitValid, Blank;
    assert forall i | 0 <= i < |s.values| :: SampleValid(s.definition, s.values[i], s.quality[i]);
    assert forall i | 0 <= i < |s.values| :: ScalarMatches(s.values[i], s.definition.valueType);
    assert SeriesValid(PlainSeries(s));
  }

  lemma StaticDecodes(f: StaticFeature)
    requires StaticValid(f) && NameValid(f.definition.name)
    ensures StaticFromWire(f.definition.name, StaticToWire(f)) == DecodedStatic(f)
    ensures StaticValid(PlainStatic(f))
  {
    hide NameValid, UnitValid, Blank;
  }

  // ---------- lists of features ----------

  predicate UnitsCarried(series: seq<Series>) { forall x | 0 <= x < |series| :: UnitCarried(series[x].definition) }

  predicate StaticUnitsCarried(statics: seq<StaticFeature>) { forall x | 0 <= x < |statics| :: UnitCarried(statics[x].definition) }

  predicate RoleIs(series: seq<Series>, role: Role) { forall x | 0 <= x < |series| :: series[x].definition.role == role }

  /** The names of a filled map are the names of the list it was filled from. */
  lemma KeysListed<V>(m: map<string, V>, entries: seq<Named<V>>, list: seq<string>)
    requires Holds(m, entries) && |list| == |entries| && forall x | 0 <= x < |entries| :: list[x] == entries[x].name
    ensures m.Keys == set name | name in list
  {
    forall name | name in list ensures name in m.Keys {
      var x :| 0 <= x < |list| && list[x] == name;
      assert InMap(m, entries[x]);
    }
    forall name | name in m.Keys ensures name in list {
      assert Listed(entries, name);
      var x :| 0 <= x < |entries| && entries[x].name == name;
      assert list[x] == name;
    }
  }

  /** What decoding makes of one feature. */
  function DecodedSeries(s: Series): Option<Series> { if UnitCarried(s.definition) then Some(PlainSeries(s)) else None }

  function DecodedStatic(f: StaticFeature): Option<StaticFeature> { if UnitCarried(f.definition) then Some(PlainStatic(f)) else None }

  lemma SeriesListDecodes(series: seq<Series>, role: Role, m: map<string, WireSeries>)
    requires UniqueNames(series) && RoleIs(series, role) && Holds(m, SeriesEntries(series)) && NamesValid(SeriesEntries(series))
    requires forall x | 0 <= x < |series| :: SeriesValid(series[x])
    ensures SeriesList(Ordered(m.Keys), role, m) == if UnitsCarried(series) then Some(NormalSeries(series)) else None
  {
    hide Before, SeriesValid, SeriesFromWire, DecodedSeries, Ordered, Permutation, NamesValid, Holds, UnitsCarried, NormalSeries, PlainSeries;
    var list := SeriesNames(series);
    KeysListed(m, SeriesEntries(series), list);
    NormalSeriesSpec(series);
    var names, place := Ordered(m.Keys), Places(list);
    PermutationSize(place, |series|);
    forall i | 0 <= i < |names|
      ensures names[i] in m && SeriesFromWire(names[i], role, m[names[i]]) == DecodedSeries(series[place[i]])
    {
      SeriesAt(series, m, place[i]);
      assert names[i] == list[place[i]];
    }
    SeriesListFrom(names, role, m, series, place);
  }

  lemma SeriesListFrom(names: seq<string>, role: Role, m: map<string, WireSeries>, series: seq<Series>, place: seq<nat>)
    requires |names| == |place| == |series| == |NormalSeries(series)|
    requires forall i | 0 <= i < |names| :: names[i] in m && place[i] < |series|
    requires forall i | 0 <= i < |names| :: SeriesFromWire(names[i], role, m[names[i]]) == DecodedSeries(series[place[i]])
    requires forall i | 0 <= i < |names| :: NormalSeries(series)[i] == PlainSeries(series[place[i]])
    requires forall x: nat | x < |series| :: x in place
    ensures SeriesList(names, role, m) == if UnitsCarried(series) then Some(NormalSeries(series)) else None
  {
    hide SeriesFromWire, NormalSeries, UnitCarried, PlainSeries;
    if UnitsCarried(series) {
      var decoded := SeriesList(names, role, m).value;
      assert decoded == NormalSeries(series);
    } else {
      var x :| 0 <= x < |series| && !UnitCarried(series[x].definition);
      assert x in place;
      var i :| 0 <= i < |place| && place[i] == x;
      assert SeriesFromWire(names[i], role, m[names[i]]).None?;
    }
  }

  lemma SeriesAt(series: seq<Series>, m: map<string, WireSeries>, x: nat)
    requires x < |series| && Holds(m, SeriesEntries(series)) && NamesValid(SeriesEntries(series)) && SeriesValid(series[x])
    ensures var d := series[x].definition;
            d.name in m && SeriesFromWire(d.name, d.role, m[d.name]) == DecodedSeries(series[x])
  {
    hide NameValid, SeriesValid, SeriesFromWire, SeriesToWire, PlainSeries, UnitCarried;
    var entries := SeriesEntries(series);
    assert InMap(m, entries[x]) && NameValid(entries[x].name);
    SeriesDecodes(series[x]);
  }

  lemma StaticListDecodes(statics: seq<StaticFeature>, m: map<string, WireStatic>)
    requires forall i, j | 0 <= i < j < |statics| :: statics[i].definition.name != statics[j].definition.name
    requires Holds(m, StaticEntries(statics)) && NamesValid(StaticEntries(statics))
    requires forall x | 0 <= x < |statics| :: StaticValid(statics[x])
    ensures StaticList(Ordered(m.Keys), m) == if StaticUnitsCarried(statics) then Some(NormalStatics(statics)) else None
  {
    hide Before, StaticValid, StaticFromWire, DecodedStatic, Ordered, Permutation, NamesValid, Holds, StaticUnitsCarried, NormalStatics,
      PlainStatic;
    var list := StaticNameList(statics);
    KeysListed(m, StaticEntries(statics), list);
    NormalStaticsSpec(statics);
    var names, place := Ordered(m.Keys), Places(list);
    PermutationSize(place, |statics|);
    forall i | 0 <= i < |names| ensures names[i] in m && StaticFromWire(names[i], m[names[i]]) == DecodedStatic(statics[place[i]]) {
      StaticAt(statics, m, place[i]);
      assert names[i] == list[place[i]];
    }
    StaticListFrom(names, m, statics, place);
  }

  lemma StaticListFrom(names: seq<string>, m: map<string, WireStatic>, statics: seq<StaticFeature>, place: seq<nat>)
    requires |names| == |place| == |statics| == |NormalStatics(statics)|
    requires forall i | 0 <= i < |names| :: names[i] in m && place[i] < |statics|
    requires forall i | 0 <= i < |names| :: StaticFromWire(names[i], m[names[i]]) == DecodedStatic(statics[place[i]])
    requires forall i | 0 <= i < |names| :: NormalStatics(statics)[i] == PlainStatic(statics[place[i]])
    requires forall x: nat | x < |statics| :: x in place
    ensures StaticList(names, m) == if StaticUnitsCarried(statics) then Some(NormalStatics(statics)) else None
  {
    hide StaticFromWire, NormalStatics, UnitCarried, PlainStatic;
    if StaticUnitsCarried(statics) {
      var decoded := StaticList(names, m).value;
      assert decoded == NormalStatics(statics);
    } else {
      var x :| 0 <= x < |statics| && !UnitCarried(statics[x].definition);
      assert x in place;
      var i :| 0 <= i < |place| && place[i] == x;
      assert StaticFromWire(names[i], m[names[i]]).None?;
    }
  }

  lemma StaticAt(statics: seq<StaticFeature>, m: map<string, WireStatic>, x: nat)
    requires x < |statics| && Holds(m, StaticEntries(statics)) && NamesValid(StaticEntries(statics)) && StaticValid(statics[x])
    ensures var d := statics[x].definition;
            d.name in m && StaticFromWire(d.name, m[d.name]) == DecodedStatic(statics[x])
  {
    hide NameValid, StaticValid, StaticFromWire, StaticToWire, PlainStatic, UnitCarried;
    var entries := StaticEntries(statics);
    assert InMap(m, entries[x]) && NameValid(entries[x].name);
    StaticDecodes(statics[x]);
  }

  // ---------- one segment ----------

  lemma SameParts(s: Series)
    ensures PlainSeries(s).definition.name == s.definition.name && PlainSeries(s).definition.role == s.definition.role
    ensures PlainSeries(s).values == s.values && PlainSeries(s).quality == s.quality
    ensures SeriesToWire(PlainSeries(s)) == SeriesToWire(s)
  {}

  lemma NormalSegmentValid(s: Segment)
    requires SegmentValid(s) && NamesValid(SeriesEntries(s.series))
    ensures SegmentValid(NormalSegment(s))
  {
    hide Before, NameValid, SeriesValid, PlainSeries, Places, Permutation;
    NormalSeriesSpec(s.series);
    var place := Places(SeriesNames(s.series));
    PermutationSize(place, |s.series|);
    hide NormalSeries;
    forall i | 0 <= i < |s.series|
      ensures SeriesValid(NormalSeries(s.series)[i]) && |NormalSeries(s.series)[i].values| == |s.timestamps|
    {
      assert NameValid(SeriesEntries(s.series)[place[i]].name);
      SeriesDecodes(s.series[place[i]]);
      SameParts(s.series[place[i]]);
    }
  }

  /** A converted segment decodes to its normal form exactly when its instants parse and its numbers carry units. */
  lemma SegmentRoundTrip(s: Segment, role: Role)
    requires SegmentValid(s) && RoleIs(s.series, role) && SegmentToWire(s).Some?
    ensures SegmentFromWire(SegmentToWire(s).value, role) ==
            if Parsed(s.timestamps) && UnitsCarried(s.series) then Some(NormalSegment(s)) else None
  {
    hide NameValid, SeriesValid, Before, Ordered, SeriesList, NormalSeries, UnitsCarried, Parsed, Holds, Filled, SeriesEntries;
    FilledSpec(SeriesEntries(s.series));
    NormalSegmentValid(s);
    SeriesListDecodes(s.series, role, SegmentToWire(s).value.features);
  }

  /** The normal form has the same gap. */
  lemma NormalGap(s: Segment, cadence: nat)
    requires SegmentValid(s) && Aligned(s) && Aligned(NormalSegment(s))
    ensures MaximumGap(NormalSegment(s), cadence) == MaximumGap(s, cadence)
  {
    hide Before, SeriesValid, PlainSeries, Places, Permutation, MaximumGap, Aligned, Mirrors, SameSamples;
    NormalSeriesSpec(s.series);
    var place, normal := Places(SeriesNames(s.series)), NormalSegment(s);
    PermutationSize(place, |s.series|);
    hide NormalSeries;
    forall i | 0 <= i < |s.series| ensures SameSamples(normal.series[i], s.series[place[i]]) { SameCells(s.series[place[i]]); }
    BothMirror(s, normal, place);
    GapOfSamples(s, normal, cadence);
  }

  lemma SameCells(s: Series)
    ensures SameSamples(PlainSeries(s), s)
  {}

  lemma BothMirror(a: Segment, b: Segment, place: seq<nat>)
    requires |a.series| == |b.series| == |place| && (forall i | 0 <= i < |place| :: place[i] < |place|)
    requires forall x: nat | x < |place| :: x in place
    requires forall i | 0 <= i < |place| :: SameSamples(b.series[i], a.series[place[i]])
    ensures Mirrors(a, b) && Mirrors(b, a)
  {
    forall x | 0 <= x < |a.series| ensures Mirrored(a.series[x], b) {
      assert x in place;
      var i :| 0 <= i < |place| && place[i] == x;
      assert SameSamples(b.series[i], a.series[place[i]]);
      assert SameSamples(a.series[x], b.series[i]);
    }
    forall i | 0 <= i < |b.series| ensures Mirrored(b.series[i], a) {
      assert SameSamples(b.series[i], a.series[place[i]]);
    }
  }

  /** The normal form converts to the same wire segment. */
  lemma NormalConverts(s: Segment)
    requires SegmentValid(s) && SegmentToWire(s).Some?
    ensures SegmentToWire(NormalSegment(s)) == SegmentToWire(s)
  {
    hide Before, SeriesValid, PlainSeries, Places, Permutation, NameValid, SeriesToWire, Filled;
    NormalSeriesSpec(s.series);
    var place, normal := Places(SeriesNames(s.series)), NormalSegment(s);
    PermutationSize(place, |s.series|);
    hide NormalSeries;
    var entries, entries' := SeriesEntries(s.series), SeriesEntries(normal.series);
    forall i | 0 <= i < |s.series| ensures entries'[i] == entries[place[i]] { SameParts(s.series[place[i]]); }
    FilledSpec(entries);
    Rearranged(entries, entries', place);
  }

  /** Rearranged entries fill the same map. */
  lemma Rearranged<V>(entries: seq<Named<V>>, entries': seq<Named<V>>, place: seq<nat>)
    requires |entries'| == |entries| == |place| && (forall i | 0 <= i < |place| :: place[i] < |entries|)
    requires forall x: nat | x < |entries| :: x in place
    requires forall i | 0 <= i < |place| :: entries'[i] == entries[place[i]]
    requires Filled(entries).Some? && NamesDiffer(entries')
    ensures Filled(entries') == Filled(entries)
  {
    hide NameValid, Holds;
    FilledSpec(entries);
    FilledSpec(entries');
    assert forall i | 0 <= i < |place| :: NameValid(entries[place[i]].name);
    hide Filled;
    var m, m' := Filled(entries).value, Filled(entries').value;
    Within(m', m, entries', entries, place);
    Sizes(m, entries);
    Sizes(m', entries');
    SubsetCount(m'.Keys, m.Keys);
    assert m == m';
  }

  lemma Sizes<V>(m: map<string, V>, entries: seq<Named<V>>)
    requires Holds(m, entries)
    ensures |m.Keys| == |entries|
  {}

  lemma Within<V>(m: map<string, V>, m': map<string, V>, entries: seq<Named<V>>, entries': seq<Named<V>>, place: seq<nat>)
    requires Holds(m, entries) && Holds(m', entries')
    requires |place| == |entries| && forall i | 0 <= i < |place| :: place[i] < |entries'| && entries[i] == entries'[place[i]]
    ensures forall name | name in m :: name in m' && m'[name] == m[name]
    ensures m.Keys <= m'.Keys
  {
    forall name | name in m ensures name in m' && m'[name] == m[name] {
      assert Listed(entries, name);
      var i :| 0 <= i < |entries| && entries[i].name == name;
      assert InMap(m, entries[i]) && InMap(m', entries'[place[i]]);
    }
  }

  // ---------- the whole frame ----------

  predicate SourcesParsed(ps: seq<Provenance>) { forall i | 0 <= i < |ps| :: SourceParsed(ps[i]) }

  /** Every instant parses again. */
  predicate TimesParsed(f: Frame) {
    && f.asOf <= LAST_PARSED && f.quality.inputWatermark <= LAST_PARSED
    && Parsed(f.history.timestamps)
    && (f.future.Some? ==> Parsed(f.future.value.timestamps))
    && SourcesParsed(f.provenance)
  }

  /** Every number carries a valid unit. */
  predicate FrameUnits(f: Frame) {
    UnitsCarried(f.history.series) && (f.future.Some? ==> UnitsCarried(f.future.value.series)) && StaticUnitsCarried(f.statics)
  }

  /** The pieces of an encoded frame. */
  lemma EncodedPieces(f: Frame)
    requires FrameValid(f) && Aligned(f.history) && FrameToWire(f).Some?
    ensures SegmentToWire(f.history).Some? && (f.future.Some? ==> SegmentToWire(f.future.value).Some?) && Filled(StaticEntries(f.statics)).Some?
    ensures var w := FrameToWire(f).value;
            && w == Converted(f).value && Converted(f).Some? && FrameLimits(w) && ProvenanceShape(w)
            && w.history == SegmentToWire(f.history).value && w.statics == Filled(StaticEntries(f.statics)).value
            && w.future == (if f.future.Some? then SegmentToWire(f.future.value) else None)
            && w.cadenceSeconds * 1000 == f.cadence && w.maxGapSeconds * 1000 == f.quality.maxGap
  {
    hide FrameValid, Encodable, TimesFormatted, FrameLimits, ProvenanceShape, SegmentToWire, Filled, StaticEntries;
  }

  lemma PiecesOf(f: Frame)
    requires FrameValid(f)
    ensures SegmentValid(f.history) && RoleIs(f.history.series, History)
    ensures f.future.Some? ==> SegmentValid(f.future.value) && RoleIs(f.future.value.series, FutureCovariate)
    ensures forall i, j | 0 <= i < j < |f.statics| :: f.statics[i].definition.name != f.statics[j].definition.name
    ensures forall i | 0 <= i < |f.statics| :: StaticValid(f.statics[i])
    ensures forall i | 0 <= i < |f.provenance| :: ProvenanceValid(f.provenance[i])
  {
    hide SegmentValid, StaticValid, ProvenanceValid, WindowValid, OneEntryEach, Newest;
  }

  /** The wire fields rebuild the normal form exactly when the segments parse and the numbers carry units. */
  lemma RebuiltNormal(f: Frame)
    requires FrameValid(f) && Aligned(f.history) && FrameToWire(f).Some?
    ensures Rebuilt(FrameToWire(f).value) ==
            if Parsed(f.history.timestamps) && (f.future.Some? ==> Parsed(f.future.value.timestamps)) && FrameUnits(f) then Some(Normal(f))
            else None
  {
    hide FrameValid, SegmentValid, StaticValid, ProvenanceValid, RoleIs, FrameLimits, ProvenanceShape, SegmentToWire, SegmentFromWire,
      StaticEntries, Parsed, UnitsCarried, StaticUnitsCarried, NormalSegment, NormalStatics, StaticList, Ordered, Encodable, TimesFormatted;
    PiecesOf(f);
    EncodedPieces(f);
    SegmentRoundTrip(f.history, History);
    if f.future.Some? { SegmentRoundTrip(f.future.value, FutureCovariate); }
    StaticsRoundTrip(f.statics);
  }

  lemma StaticsRoundTrip(statics: seq<StaticFeature>)
    requires Filled(StaticEntries(statics)).Some? && forall i | 0 <= i < |statics| :: StaticValid(statics[i])
    ensures var m := Filled(StaticEntries(statics)).value;
            StaticList(Ordered(m.Keys), m) == if StaticUnitsCarried(statics) then Some(NormalStatics(statics)) else None
  {
    hide StaticValid, Ordered, StaticList, NormalStatics, StaticUnitsCarried, Filled, Holds, NamesValid;
    var entries := StaticEntries(statics);
    FilledSpec(entries);
    assert forall i | 0 <= i < |statics| :: entries[i].name == statics[i].definition.name;
    StaticListDecodes(statics, Filled(entries).value);
  }

  // ---------- the decoder's own checks ----------

  lemma WirePasses(f: Frame)
    requires FrameValid(f) && Aligned(f.history) && FrameToWire(f).Some?
    ensures var w := FrameToWire(f).value;
            WireChecked(w) <==> f.asOf <= LAST_PARSED && f.quality.inputWatermark <= LAST_PARSED && SourcesParsed(f.provenance)
  {
    PiecesOf(f);
    EncodedPieces(f);
    EncodedTexts(f);
    EncodedGap(f);
    hide FrameValid, FrameLimits, ProvenanceShape, SegmentToWire, StaticEntries, NameValid, TextValid, ProvenanceValid, StaticValid,
      SegmentValid, Encodable, TimesFormatted, Converted, SourceParsed;
    var w := FrameToWire(f).value;
    assert w.asOf == f.asOf && w.inputWatermark == f.quality.inputWatermark && w.provenance == f.provenance;
    forall i | 0 <= i < |f.provenance| ensures SourceAccepted(f.provenance[i]) <==> SourceParsed(f.provenance[i]) {
      assert SourceFormatted(f.provenance[i]) && ProvenanceValid(f.provenance[i]);
    }
  }

  lemma EncodedTexts(f: Frame)
    requires Aligned(f.history) && FrameToWire(f).Some?
    ensures forall i | 0 <= i < |f.provenance| :: SourceFormatted(f.provenance[i])
    ensures var w := FrameToWire(f).value; w.asOf == f.asOf && w.inputWatermark == f.quality.inputWatermark && w.provenance == f.provenance
  {
    hide Encodable, FrameLimits, ProvenanceShape, SegmentToWire, Filled, StaticEntries, SourceFormatted;
  }

  /** The seconds on the wire stay within the word when multiplied back. */
  lemma EncodedGap(f: Frame)
    requires FrameValid(f) && Aligned(f.history) && FrameToWire(f).Some?
    ensures f.cadence <= U64_MAX && f.quality.maxGap <= U64_MAX
  {
    PiecesOf(f);
    EncodedPieces(f);
    CadenceBound(FrameToWire(f).value);
    hide FrameValid, ProvenanceShape, Filled, StaticEntries, SeriesEntries, FrameLimits, SeriesValid, TimesFormatted, MaximumGap;
    GapBound(f.history, f.cadence, LAST_FORMATTED);
  }

  lemma CadenceBound(w: WireFrame)
    requires FrameLimits(w)
    ensures w.cadenceSeconds * 1000 <= 86_400_000
  {}

  /** The normal form passes every check of the frame constructor that the frame passes. */
  lemma NormalValid(f: Frame)
    requires FrameValid(f) && Aligned(f.history) && FrameToWire(f).Some?
    ensures FrameValid(Normal(f)) && Aligned(Normal(f).history)
  {
    hide SeriesValid, ProvenanceValid, Newest, NormalSeries, NormalStatics, FrameToWire, Entries;
    SegmentsNormal(f);
    StaticsNormal(f);
    if f.future.Some? { assert Normal(f).future.value == NormalSegment(f.future.value); }
  }

  /** The names of the normal segments have one entry each, as before. */
  lemma SegmentsNormal(f: Frame)
    requires FrameValid(f) && Aligned(f.history) && FrameToWire(f).Some?
    ensures SegmentValid(NormalSegment(f.history)) && Aligned(NormalSegment(f.history))
    ensures NormalLike(f.provenance, HistorySegment, History, f.history.series)
    ensures f.future.Some? ==> SegmentValid(NormalSegment(f.future.value))
    ensures f.future.Some? ==> NormalLike(f.provenance, FutureSegment, FutureCovariate, f.future.value.series)
  {
    PiecesOf(f);
    EncodedPieces(f);
    EntriesOf(f);
    hide FrameValid, FrameToWire, Filled, SegmentValid, NormalSegment, NormalLike, Aligned;
    SegmentNormal(f.history, f.provenance, HistorySegment, History);
    if f.future.Some? { SegmentNormal(f.future.value, f.provenance, FutureSegment, FutureCovariate); }
  }

  lemma EntriesOf(f: Frame)
    requires FrameValid(f)
    ensures forall i | 0 <= i < |f.history.series| :: Entries(f.provenance, HistorySegment, f.history.series[i].definition.name) == 1
    ensures f.future.Some? ==> forall i | 0 <= i < |f.future.value.series| ::
              Entries(f.provenance, FutureSegment, f.future.value.series[i].definition.name) == 1
  {
    hide PartsValid, WindowValid, RolesValid, Newest, Entries;
  }

  ghost predicate NormalLike(ps: seq<Provenance>, kind: SegmentKind, role: Role, series: seq<Series>) {
    && |NormalSeries(series)| == |series|
    && forall i | 0 <= i < |series| ::
         NormalSeries(series)[i].definition.role == role && Entries(ps, kind, NormalSeries(series)[i].definition.name) == 1
  }

  lemma SegmentNormal(s: Segment, ps: seq<Provenance>, kind: SegmentKind, role: Role)
    requires SegmentValid(s) && RoleIs(s.series, role) && SegmentToWire(s).Some?
    requires forall i | 0 <= i < |s.series| :: Entries(ps, kind, s.series[i].definition.name) == 1
    ensures SegmentValid(NormalSegment(s)) && Aligned(NormalSegment(s)) && NormalLike(ps, kind, role, s.series)
  {
    hide SeriesValid, Before, Permutation, Entries, PlainSeries, Filled;
    FilledSpec(SeriesEntries(s.series));
    NormalSegmentValid(s);
    NormalSeriesSpec(s.series);
    var place := Places(SeriesNames(s.series));
    PermutationSize(place, |s.series|);
    hide NormalSeries, Places;
    forall i | 0 <= i < |s.series|
      ensures NormalSeries(s.series)[i].definition.role == role && Entries(ps, kind, NormalSeries(s.series)[i].definition.name) == 1
    {
      SameParts(s.series[place[i]]);
    }
    ValidAligned(NormalSegment(s));
  }

  lemma ValidAligned(s: Segment)
    requires SegmentValid(s)
    ensures Aligned(s)
  {}

  lemma StaticsNormal(f: Frame)
    requires FrameValid(f) && Aligned(f.history) && FrameToWire(f).Some?
    ensures |NormalStatics(f.statics)| == |f.statics|
    ensures forall i | 0 <= i < |f.statics| ::
              StaticValid(NormalStatics(f.statics)[i]) && Entries(f.provenance, StaticSegment, NormalStatics(f.statics)[i].definition.name) == 1
    ensures forall i, j | 0 <= i < j < |f.statics| ::
              NormalStatics(f.statics)[i].definition.name != NormalStatics(f.statics)[j].definition.name
  {
    PiecesOf(f);
    EncodedPieces(f);
    assert forall i | 0 <= i < |f.statics| :: Entries(f.provenance, StaticSegment, f.statics[i].definition.name) == 1;
    hide FrameValid, FrameToWire, Filled, SegmentValid, StaticValid, ProvenanceValid, Before, Permutation, Entries, NameValid;
    var entries := StaticEntries(f.statics);
    FilledSpec(entries);
    NormalStaticsSpec(f.statics);
    var place := Places(StaticNameList(f.statics));
    PermutationSize(place, |f.statics|);
    hide NormalStatics, Places;
    forall i | 0 <= i < |f.statics|
      ensures StaticValid(NormalStatics(f.statics)[i])
      ensures Entries(f.provenance, StaticSegment, NormalStatics(f.statics)[i].definition.name) == 1
    {
      assert NameValid(entries[place[i]].name);
      StaticDecodes(f.statics[place[i]]);
    }
  }

  // ---------- the theorems ----------

  /** The checks on the rebuilt frame hold of the normal form of an encoded frame. */
  lemma NormalAccepted(f: Frame)
    requires FrameValid(f) && Aligned(f.history) && FrameToWire(f).Some?
    ensures RebuiltAccepted(Normal(f))
  {
    NormalValid(f);
    PiecesOf(f);
    hide FrameValid, SegmentValid, StaticValid, ProvenanceValid, NormalSeries, NormalStatics, MaximumGap, Aligned, TimesFormatted, Converted,
      FrameLimits, ProvenanceShape, Newest;
    NormalGap(f.history, f.cadence);
  }

  /** Decoding an encoded frame gives its normal form exactly when every instant parses again and every number carries
      a valid unit; otherwise the decoder rejects what the encoder produced. */
  lemma RoundTrip(f: Frame)
    requires FrameValid(f) && Aligned(f.history) && FrameToWire(f).Some?
    ensures FrameFromWire(FrameToWire(f).value) == if TimesParsed(f) && FrameUnits(f) then Some(Normal(f)) else None
  {
    hide FrameValid, FrameToWire, Aligned, Normal, Rebuilt, RebuiltAccepted, WireChecked, FrameUnits, Parsed, SourcesParsed;
    RebuiltNormal(f);
    WirePasses(f);
    NormalAccepted(f);
  }

  /** Encoding the decoded frame gives the same wire value, so any digest of the wire value is unchanged. */
  lemma ReencodesTheSame(f: Frame)
    requires FrameValid(f) && Aligned(f.history) && FrameToWire(f).Some?
    ensures Aligned(Normal(f).history) && FrameToWire(Normal(f)) == FrameToWire(f)
  {
    hide FrameValid, Aligned, Normal, Converted, Encodable, TimesFormatted, FrameLimits, ProvenanceShape;
    NormalValid(f);
    ConvertsTheSame(f);
    ChecksTheSame(f);
  }

  lemma ConvertsTheSame(f: Frame)
    requires FrameValid(f) && Aligned(f.history) && FrameToWire(f).Some?
    ensures Converted(Normal(f)) == Converted(f)
  {
    hide FrameValid, SegmentValid, StaticValid, ProvenanceValid, NormalSegment, NormalStatics, Filled, StaticEntries, FrameLimits,
      ProvenanceShape, SegmentToWire, RoleIs, FrameToWire;
    PiecesOf(f);
    EncodedPieces(f);
    NormalConverts(f.history);
    if f.future.Some? { NormalConverts(f.future.value); }
    StaticsConvert(f.statics);
  }

  lemma ChecksTheSame(f: Frame)
    requires FrameValid(f) && Aligned(f.history) && FrameToWire(f).Some? && Aligned(Normal(f).history)
    ensures Encodable(Normal(f)) && TimesFormatted(Normal(f))
    ensures Normal(f).cadence == f.cadence && Normal(f).quality == f.quality
  {
    hide FrameValid, SegmentValid, StaticValid, ProvenanceValid, NormalSeries, NormalStatics, MaximumGap, Aligned, Converted, FrameLimits,
      ProvenanceShape, Newest, Regular, SourceFormatted, RoleIs;
    PiecesOf(f);
    NormalGap(f.history, f.cadence);
  }

  lemma StaticsConvert(statics: seq<StaticFeature>)
    requires Filled(StaticEntries(statics)).Some?
    ensures Filled(StaticEntries(NormalStatics(statics))) == Filled(StaticEntries(statics))
  {
    hide Before, PlainStatic, Places, Permutation, NameValid, StaticToWire, Filled;
    var entries := StaticEntries(statics);
    FilledSpec(entries);
    assert forall i | 0 <= i < |statics| :: entries[i].name == statics[i].definition.name;
    NormalStaticsSpec(statics);
    var place, entries' := Places(StaticNameList(statics)), StaticEntries(NormalStatics(statics));
    PermutationSize(place, |statics|);
    hide NormalStatics;
    forall i | 0 <= i < |statics| ensures entries'[i] == entries[place[i]] { SameStatic(statics[place[i]]); }
    Rearranged(entries, entries', place);
  }

  lemma SameStatic(f: StaticFeature)
    ensures PlainStatic(f).definition.name == f.definition.name && StaticToWire(PlainStatic(f)) == StaticToWire(f)
  {}
}
