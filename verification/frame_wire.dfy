/** The versioned wire form of a processing frame.

    Timestamps are carried on the wire as calendar text; here they are carried as the instants that text denotes, with
    the bounds of formatting and of parsing kept as checks. */
module FrameWire {
  import opened Outcomes
  import opened Frames
  import opened ObservationGaps
  import opened TextOrder

  const MAX_SEGMENT_SAMPLES: nat := 20_000
  const MAX_FEATURES_PER_SEGMENT: nat := 128
  const MAX_STATIC_FEATURES: nat := 128
  const MAX_PROVENANCE_ENTRIES: nat := 512
  const MAX_CADENCE_SECONDS: nat := 86_400

  /** The last instant the calendar library can print: the end of the year 262142. */
  const LAST_FORMATTED: nat := 8_210_266_876_799_999

  /** The last instant whose year has four digits, which parsing demands: the end of the year 9999. */
  const LAST_PARSED: nat := 253_402_300_799_999

  datatype WireSeries = WireSeries(valueType: ValueType, unit: Option<string>, values: seq<Value>, quality: seq<Quality>)

  datatype WireStatic = WireStatic(valueType: ValueType, unit: Option<string>, value: Value, quality: Quality)

  datatype WireSegment = WireSegment(timestamps: seq<nat>, features: map<string, WireSeries>)

  datatype WireFrame = WireFrame(
    asOf: nat, cadenceSeconds: nat, history: WireSegment, future: Option<WireSegment>, statics: map<string, WireStatic>,
    inputWatermark: nat, missingRatio: real, maxGapSeconds: nat, liveTail: bool, substituted: nat, provenance: seq<Provenance>)

  // ---------- field checks ----------

  function Utf8Length(s: string): nat {
    if s == "" then 0 else Utf8Length(s[..|s| - 1]) + CharBytes(s[|s| - 1])
  }

  function CharBytes(c: char): nat {
    if c as int < 0x80 then 1 else if c as int < 0x800 then 2 else if c as int < 0x10000 then 3 else 4
  }

  predicate Control(c: char) { c as int < 0x20 || 0x7F <= c as int <= 0x9F }

  predicate TextValid(s: string, bytes: nat) {
    s != "" && Utf8Length(s) <= bytes && forall i | 0 <= i < |s| :: !Control(s[i])
  }

  predicate NameValid(s: string) { TextValid(s, 128) }

  predicate UnitValid(s: string) { TextValid(s, 64) }

  predicate Formatted(ts: seq<nat>) { forall i | 0 <= i < |ts| :: ts[i] <= LAST_FORMATTED }

  predicate Parsed(ts: seq<nat>) { forall i | 0 <= i < |ts| :: ts[i] <= LAST_PARSED }

  predicate Regular(ts: seq<nat>, cadence: nat) { forall i | 0 < i < |ts| :: ts[i] == ts[i - 1] + cadence }

  predicate SourceFormatted(p: Provenance) {
    && NameValid(p.feature)
    && (p.sourceRef.Some? ==> TextValid(p.sourceRef.value, 2048))
    && p.watermark <= LAST_FORMATTED
    && (p.issuedAt.Some? ==> p.issuedAt.value <= LAST_FORMATTED)
  }

  predicate SourceParsed(p: Provenance) {
    p.watermark <= LAST_PARSED && (p.issuedAt.Some? ==> p.issuedAt.value <= LAST_PARSED)
  }

  // ---------- limits and provenance shape, checked on both sides ----------

  predicate SegmentLimits(s: WireSegment) {
    && 0 < |s.timestamps| <= MAX_SEGMENT_SAMPLES
    && 0 < |s.features| <= MAX_FEATURES_PER_SEGMENT
    && forall name | name in s.features ::
         && 0 < |s.features[name].values| <= MAX_SEGMENT_SAMPLES
         && 0 < |s.features[name].quality| <= MAX_SEGMENT_SAMPLES
  }

  predicate FrameLimits(w: WireFrame) {
    && 0 < w.cadenceSeconds <= MAX_CADENCE_SECONDS
    && SegmentLimits(w.history)
    && (w.future.Some? ==> SegmentLimits(w.future.value))
    && |w.statics| <= MAX_STATIC_FEATURES
    && |w.provenance| <= MAX_PROVENANCE_ENTRIES
  }

  predicate Targeted(w: WireFrame, p: Provenance) {
    match p.segment
    case HistorySegment => p.feature in w.history.features
    case FutureSegment => w.future.Some? && p.feature in w.future.value.features
    case StaticSegment => p.feature in w.statics
  }

  predicate Mentions(ps: seq<Provenance>, kind: SegmentKind, feature: string) {
    exists i | 0 <= i < |ps| :: ps[i].segment == kind && ps[i].feature == feature
  }

  predicate ProvenanceShape(w: WireFrame) {
    && w.provenance != []
    && (forall i, j | 0 <= i < j < |w.provenance| ::
          !(w.provenance[i].segment == w.provenance[j].segment && w.provenance[i].feature == w.provenance[j].feature))
    && (forall i | 0 <= i < |w.provenance| :: Targeted(w, w.provenance[i]))
    && (forall name | name in w.history.features :: Mentions(w.provenance, HistorySegment, name))
    && (w.future.Some? ==> forall name | name in w.future.value.features :: Mentions(w.provenance, FutureSegment, name))
    && forall name | name in w.statics :: Mentions(w.provenance, StaticSegment, name)
  }

  // ---------- named maps ----------

  datatype Named<V> = Named(name: string, value: V)

  /** The map of the entries by name; `None` when a name is invalid or repeated. */
  function Filled<V>(entries: seq<Named<V>>): Option<map<string, V>> {
    if entries == [] then Some(map[])
    else
      var before := Filled(entries[..|entries| - 1]);
      var e := entries[|entries| - 1];
      if before.None? || !NameValid(e.name) || e.name in before.value then None else Some(before.value[e.name := e.value])
  }

  /** Filling the map one entry at a time. */
  method Fill<V>(entries: seq<Named<V>>) returns (filled: Option<map<string, V>>)
    ensures filled == Filled(entries)
  {
    hide NameValid;
    var m: map<string, V> := map[];
    var x := 0;
    while x < |entries|
      invariant x <= |entries| && Filled(entries[..x]) == Some(m)
    {
      assert entries[..x + 1][..x] == entries[..x];
      var e := entries[x];
      if !NameValid(e.name) || e.name in m {
        FailsForGood(entries, x + 1, |entries|);
        assert entries[..|entries|] == entries;
        return None;
      }
      m := m[e.name := e.value];
      x := x + 1;
    }
    assert entries[..x] == entries;
    return Some(m);
  }

  lemma {:induction false} FailsForGood<V>(entries: seq<Named<V>>, j: nat, k: nat)
    requires j <= k <= |entries| && Filled(entries[..j]).None?
    ensures Filled(entries[..k]).None?
    decreases k - j
  {
    hide NameValid;
    if j < k {
      FailsForGood(entries, j, k - 1);
      assert entries[..k][..k - 1] == entries[..k - 1];
    }
  }

  predicate NamesValid<V>(entries: seq<Named<V>>) { forall x | 0 <= x < |entries| :: NameValid(entries[x].name) }

  predicate NamesDiffer<V>(entries: seq<Named<V>>) { forall i, j | 0 <= i < j < |entries| :: entries[i].name != entries[j].name }

  ghost predicate InMap<V>(m: map<string, V>, e: Named<V>) { e.name in m && m[e.name] == e.value }

  predicate Listed<V>(entries: seq<Named<V>>, name: string) { exists x | 0 <= x < |entries| :: entries[x].name == name }

  /** The map holds exactly the entries, each under its name. */
  ghost predicate Holds<V>(m: map<string, V>, entries: seq<Named<V>>) {
    && |m| == |entries|
    && (forall x | 0 <= x < |entries| :: InMap(m, entries[x]))
    && forall name | name in m :: Listed(entries, name)
  }

  /** A map can be filled exactly when the names are valid and distinct, and then it holds the entries. */
  lemma {:induction false} FilledSpec<V>(entries: seq<Named<V>>)
    ensures Filled(entries).Some? <==> NamesValid(entries) && NamesDiffer(entries)
    ensures Filled(entries).Some? ==> Holds(Filled(entries).value, entries)
    decreases |entries|
  {
    hide NameValid, InMap;
    if entries != [] {
      var n := |entries| - 1;
      var front, e := entries[..n], entries[n];
      FilledSpec(front);
      assert NamesValid(entries) ==> NamesValid(front);
      assert NamesDiffer(entries) ==> NamesDiffer(front);
      assert NamesValid(front) && NameValid(e.name) ==> NamesValid(entries);
      if Filled(front).Some? {
        var m := Filled(front).value;
        if e.name in m {
          var x :| 0 <= x < |front| && front[x].name == e.name;
          assert entries[x].name == entries[n].name;
        } else {
          StillDiffer(m, entries);
          StillHolds(m, entries);
        }
      }
    }
  }

  lemma StillDiffer<V>(m: map<string, V>, entries: seq<Named<V>>)
    requires entries != [] && Holds(m, entries[..|entries| - 1]) && entries[|entries| - 1].name !in m
    requires NamesDiffer(entries[..|entries| - 1])
    ensures NamesDiffer(entries)
  {
    var front := entries[..|entries| - 1];
    forall i, j | 0 <= i < j < |entries| ensures entries[i].name != entries[j].name {
      assert InMap(m, front[i]);
      if j < |front| { assert front[i].name != front[j].name; }
    }
  }

  lemma StillHolds<V>(m: map<string, V>, entries: seq<Named<V>>)
    requires entries != [] && Holds(m, entries[..|entries| - 1]) && entries[|entries| - 1].name !in m
    ensures Holds(m[entries[|entries| - 1].name := entries[|entries| - 1].value], entries)
  {
    var n := |entries| - 1;
    var front, e := entries[..n], entries[n];
    var m' := m[e.name := e.value];
    assert m'.Keys == m.Keys + {e.name};
    forall x | 0 <= x < |entries| ensures InMap(m', entries[x]) {
      if x < n { assert InMap(m, front[x]); }
    }
    forall name | name in m' ensures Listed(entries, name) {
      if name in m {
        assert Listed(front, name);
        var x :| 0 <= x < |front| && front[x].name == name;
        assert entries[x].name == name;
      } else {
        assert entries[n].name == name;
      }
    }
  }

  // ---------- encoding ----------

  function SeriesToWire(s: Series): WireSeries { WireSeries(s.definition.valueType, s.definition.unit, s.values, s.quality) }

  function StaticToWire(f: StaticFeature): WireStatic { WireStatic(f.definition.valueType, f.definition.unit, f.value, f.quality) }

  function SeriesEntries(series: seq<Series>): seq<Named<WireSeries>> {
    seq(|series|, x requires 0 <= x < |series| => Named(series[x].definition.name, SeriesToWire(series[x])))
  }

  function StaticEntries(statics: seq<StaticFeature>): seq<Named<WireStatic>> {
    seq(|statics|, x requires 0 <= x < |statics| => Named(statics[x].definition.name, StaticToWire(statics[x])))
  }

  function SegmentToWire(s: Segment): Option<WireSegment> {
    var features := Filled(SeriesEntries(s.series));
    if features.None? || !Formatted(s.timestamps) then None else Some(WireSegment(s.timestamps, features.value))
  }

  /** The checks made on the frame before anything is converted. */
  predicate Encodable(f: Frame)
    requires Aligned(f.history)
  {
    && f.provenance != []
    && Newest(f.provenance) == Some(f.quality.inputWatermark)
    && Regular(f.history.timestamps, f.cadence)
    && (f.future.Some? ==> Regular(f.future.value.timestamps, f.cadence))
    && f.quality.maxGap == MaximumGap(f.history, f.cadence)
  }

  predicate TimesFormatted(f: Frame) {
    && f.asOf <= LAST_FORMATTED && f.quality.inputWatermark <= LAST_FORMATTED
    && forall i | 0 <= i < |f.provenance| :: SourceFormatted(f.provenance[i])
  }

  /** The wire fields of a frame, when its segments and statics can be converted. */
  function Converted(f: Frame): Option<WireFrame> {
    var history := SegmentToWire(f.history);
    var future := if f.future.Some? then SegmentToWire(f.future.value) else None;
    var statics := Filled(StaticEntries(f.statics));
    if history.None? || (f.future.Some? && future.None?) || statics.None? then None
    else Some(WireFrame(
      f.asOf, f.cadence / 1000, history.value, future, statics.value, f.quality.inputWatermark, f.quality.missingRatio,
      f.quality.maxGap / 1000, f.quality.liveTail, f.quality.substituted, f.provenance))
  }

  function FrameToWire(f: Frame): Option<WireFrame>
    requires Aligned(f.history)
  {
    if !Encodable(f) || !TimesFormatted(f) || f.cadence % 1000 != 0 || f.quality.maxGap % 1000 != 0 then None
    else
      var w := Converted(f);
      if w.Some? && FrameLimits(w.value) && ProvenanceShape(w.value) then w else None
  }

  // ---------- decoding ----------

  ghost predicate First(names: set<string>, name: string) { name in names && forall other | other in names :: other == name || Before(name, other) }

  lemma {:induction false} FirstExists(names: set<string>)
    requires names != {}
    ensures exists name :: First(names, name)
    decreases |names|
  {
    var x :| x in names;
    var rest := names - {x};
    if rest == {} {
      assert names == {x};
      assert First(names, x);
    } else {
      FirstExists(rest);
      var y :| First(rest, y);
      BeforeTotal(x, y);
      if Before(x, y) {
        forall other | other in names ensures other == x || Before(x, other) {
          if other != x && other != y { BeforeTransitive(x, y, other); }
        }
        assert First(names, x);
      } else {
        assert First(names, y);
      }
    }
  }

  /** The names of a map in order. */
  ghost function Ordered(names: set<string>): (list: seq<string>)
    ensures |list| == |names| && forall x | x in list :: x in names
    ensures forall name | name in names :: name in list
    ensures forall i, j | 0 <= i < j < |list| :: Before(list[i], list[j])
    decreases |names|
  {
    if names == {} then []
    else
      FirstExists(names);
      var name :| First(names, name);
      [name] + Ordered(names - {name})
  }

  /** The definition a wire feature declares; numbers need a valid unit and other types must not have one. */
  function DefinitionFromWire(name: string, role: Role, valueType: ValueType, unit: Option<string>): Option<Definition> {
    if valueType == Number then
      if unit.None? || !UnitValid(unit.value) || Blank(name) || Blank(unit.value) then None
      else Some(Definition(name, role, Number, unit, None))
    else if unit.Some? || Blank(name) then None
    else Some(Definition(name, role, valueType, None, None))
  }

  predicate ScalarMatches(v: Value, t: ValueType) { v.MissingValue? || TypeOf(v) == Some(t) }

  function SeriesFromWire(name: string, role: Role, w: WireSeries): Option<Series> {
    var d := DefinitionFromWire(name, role, w.valueType, w.unit);
    if !NameValid(name) || d.None? || (exists i | 0 <= i < |w.values| :: !ScalarMatches(w.values[i], w.valueType)) then None
    else
      var s := Series(d.value, w.values, w.quality);
      if SeriesValid(s) then Some(s) else None
  }

  function StaticFromWire(name: string, w: WireStatic): Option<StaticFeature> {
    var d := DefinitionFromWire(name, Static, w.valueType, w.unit);
    if !NameValid(name) || d.None? || !ScalarMatches(w.value, w.valueType) then None
    else
      var f := StaticFeature(d.value, w.value, w.quality);
      if StaticValid(f) then Some(f) else None
  }

  ghost function SeriesList(names: seq<string>, role: Role, features: map<string, WireSeries>): Option<seq<Series>>
    requires forall i | 0 <= i < |names| :: names[i] in features
  {
    if forall i | 0 <= i < |names| :: SeriesFromWire(names[i], role, features[names[i]]).Some? then
      Some(seq(|names|, i requires 0 <= i < |names| && SeriesFromWire(names[i], role, features[names[i]]).Some? =>
                          SeriesFromWire(names[i], role, features[names[i]]).value))
    else None
  }

  ghost function StaticList(names: seq<string>, features: map<string, WireStatic>): Option<seq<StaticFeature>>
    requires forall i | 0 <= i < |names| :: names[i] in features
  {
    if forall i | 0 <= i < |names| :: StaticFromWire(names[i], features[names[i]]).Some? then
      Some(seq(|names|, i requires 0 <= i < |names| && StaticFromWire(names[i], features[names[i]]).Some? =>
                          StaticFromWire(names[i], features[names[i]]).value))
    else None
  }

  ghost function SegmentFromWire(w: WireSegment, role: Role): Option<Segment> {
    var series := SeriesList(Ordered(w.features.Keys), role, w.features);
    if !Parsed(w.timestamps) || series.None? then None
    else
      var s := Segment(w.timestamps, series.value);
      if SegmentValid(s) then Some(s) else None
  }

  predicate SourceAccepted(p: Provenance) {
    && NameValid(p.feature)
    && (p.sourceRef.Some? ==> TextValid(p.sourceRef.value, 2048))
    && SourceParsed(p)
    && ProvenanceValid(p)
  }

  /** The frame the wire fields spell, before it is checked as a whole. */
  ghost function Rebuilt(w: WireFrame): Option<Frame> {
    var history := SegmentFromWire(w.history, History);
    var future := if w.future.Some? then SegmentFromWire(w.future.value, FutureCovariate) else None;
    var statics := StaticList(Ordered(w.statics.Keys), w.statics);
    if history.None? || (w.future.Some? && future.None?) || statics.None? then None
    else
      var quality := FrameQuality(w.inputWatermark, w.missingRatio, w.maxGapSeconds * 1000, w.liveTail, w.substituted);
      Some(Frame(w.asOf, w.cadenceSeconds * 1000, history.value, future, statics.value, quality, w.provenance))
  }

  predicate WireChecked(w: WireFrame) {
    && FrameLimits(w) && ProvenanceShape(w)
    && w.asOf <= LAST_PARSED && w.inputWatermark <= LAST_PARSED
    && w.cadenceSeconds * 1000 <= U64_MAX && w.maxGapSeconds * 1000 <= U64_MAX
    && forall i | 0 <= i < |w.provenance| :: SourceAccepted(w.provenance[i])
  }

  /** The checks made on the rebuilt frame. */
  predicate RebuiltAccepted(f: Frame) {
    && Aligned(f.history)
    && Regular(f.history.timestamps, f.cadence)
    && (f.future.Some? ==> Regular(f.future.value.timestamps, f.cadence))
    && f.quality.maxGap == MaximumGap(f.history, f.cadence)
    && Newest(f.provenance) == Some(f.quality.inputWatermark)
    && FrameValid(f)
  }

  ghost function FrameFromWire(w: WireFrame): Option<Frame> {
    var f := Rebuilt(w);
    if WireChecked(w) && f.Some? && RebuiltAccepted(f.value) then f else None
  }
}
