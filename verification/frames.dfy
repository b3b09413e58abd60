/** Processing frames: features, series, segments, provenance and the checks of their constructors. */
module Frames {
  import opened Outcomes
  import opened Identifiers

  datatype Role = History | FutureCovariate | Static

  datatype ValueType = Number | Text | Boolean

  datatype Limits = Limits(minimum: Option<real>, maximum: Option<real>, integer: bool)

  datatype Definition = Definition(name: string, role: Role, valueType: ValueType, unit: Option<string>, limits: Option<Limits>)

  datatype Value = NumberValue(number: real) | TextValue(text: string) | BooleanValue(flag: bool) | MissingValue

  datatype Quality = Good | Uncertain | Substituted | Missing

  datatype Series = Series(definition: Definition, values: seq<Value>, quality: seq<Quality>)

  datatype Segment = Segment(timestamps: seq<nat>, series: seq<Series>)

  datatype StaticFeature = StaticFeature(definition: Definition, value: Value, quality: Quality)

  datatype SegmentKind = HistorySegment | FutureSegment | StaticSegment

  datatype SourceKind = HistorySource | LiveSource | HistoryAndLive | Covariate | Calendar | Constant

  datatype Provenance = Provenance(
    segment: SegmentKind, feature: string, kind: SourceKind, sourceRef: Option<string>, watermark: nat, issuedAt: Option<nat>)

  datatype FrameQuality = FrameQuality(inputWatermark: nat, missingRatio: real, maxGap: nat, liveTail: bool, substituted: nat)

  datatype Frame = Frame(
    asOf: nat, cadence: nat, history: Segment, future: Option<Segment>, statics: seq<StaticFeature>, quality: FrameQuality,
    provenance: seq<Provenance>)

  // ---------- features and samples ----------

  predicate Whitespace(c: char) {
    || 9 <= c as int <= 13 || c == ' ' || c as int == 0x85 || c as int == 0xA0 || c as int == 0x1680 || 0x2000 <= c as int <= 0x200A
    || c as int == 0x2028 || c as int == 0x2029 || c as int == 0x202F || c as int == 0x205F || c as int == 0x3000
  }

  predicate Blank(s: string) { forall i | 0 <= i < |s| :: Whitespace(s[i]) }

  /** What the constructors of a feature definition leave possible; a number may lack its unit. */
  predicate DefinitionValid(d: Definition) {
    && !Blank(d.name)
    && (d.unit.Some? ==> !Blank(d.unit.value))
    && (d.valueType != Number ==> d.unit.None? && d.limits.None?)
  }

  predicate Accepts(l: Limits, x: real) {
    && (l.minimum.Some? ==> l.minimum.value <= x)
    && (l.maximum.Some? ==> x <= l.maximum.value)
    && (l.integer ==> x.Floor as real == x)
  }

  function TypeOf(v: Value): Option<ValueType> {
    match v
    case NumberValue(_) => Some(Number)
    case TextValue(_) => Some(Text)
    case BooleanValue(_) => Some(Boolean)
    case MissingValue => None
  }

  predicate SampleValid(d: Definition, v: Value, q: Quality) {
    && (TypeOf(v).Some? ==> TypeOf(v).value == d.valueType)
    && (v.MissingValue? <==> q == Missing)
    && (d.limits.Some? && v.NumberValue? ==> Accepts(d.limits.value, v.number))
  }

  predicate SeriesValid(s: Series) {
    && DefinitionValid(s.definition)
    && |s.values| == |s.quality|
    && forall i | 0 <= i < |s.values| :: SampleValid(s.definition, s.values[i], s.quality[i])
  }

  predicate Increasing(ts: seq<nat>) { forall i | 0 < i < |ts| :: ts[i - 1] < ts[i] }

  predicate UniqueNames(series: seq<Series>) {
    forall i, j | 0 <= i < j < |series| :: series[i].definition.name != series[j].definition.name
  }

  predicate SegmentValid(s: Segment) {
    && s.timestamps != [] && s.series != []
    && Increasing(s.timestamps)
    && (forall i | 0 <= i < |s.series| :: SeriesValid(s.series[i]) && |s.series[i].values| == |s.timestamps|)
    && UniqueNames(s.series)
  }

  predicate StaticValid(f: StaticFeature) {
    DefinitionValid(f.definition) && f.definition.role == Static && SampleValid(f.definition, f.value, f.quality)
  }

  // ---------- provenance ----------

  /** Sources that are computed rather than observed. */
  predicate Derived(k: SourceKind) { k == Calendar || k == Constant }

  predicate KindAllowed(segment: SegmentKind, kind: SourceKind) {
    match segment
    case HistorySegment => kind == HistorySource || kind == LiveSource || kind == HistoryAndLive || kind == Calendar
    case FutureSegment => kind == Covariate || kind == Calendar || kind == Constant
    case StaticSegment => kind == Constant
  }

  predicate SemanticRef(s: string) {
    && 0 < |s| <= 2048 && Alphanumeric(s[0])
    && forall i | 1 <= i < |s| :: Alphanumeric(s[i]) || s[i] == '.' || s[i] == '_' || s[i] == '-'
  }

  predicate ProvenanceValid(p: Provenance) {
    && KindAllowed(p.segment, p.kind)
    && (p.sourceRef.Some? ==> SemanticRef(p.sourceRef.value))
    && !Blank(p.feature)
    && (p.issuedAt.Some? ==> p.segment == FutureSegment && p.kind == Covariate && p.issuedAt.value <= p.watermark)
  }

  function SegmentOf(role: Role): SegmentKind {
    match role
    case History => HistorySegment
    case FutureCovariate => FutureSegment
    case Static => StaticSegment
  }

  /** The feature names of the entries of one segment, in order. */
  function Sources(ps: seq<Provenance>, kind: SegmentKind): seq<string> {
    if ps == [] then [] else (if ps[0].segment == kind then [ps[0].feature] else []) + Sources(ps[1..], kind)
  }

  /** How many entries name `feature` in one segment. */
  function Entries(ps: seq<Provenance>, kind: SegmentKind, feature: string): nat {
    if ps == [] then 0
    else (if ps[0].segment == kind && ps[0].feature == feature then 1 else 0) + Entries(ps[1..], kind, feature)
  }

  function Later(a: Option<nat>, t: nat): Option<nat> { if a.Some? && t <= a.value then a else Some(t) }

  /** The newest watermark of an observed source. */
  function Newest(ps: seq<Provenance>): Option<nat> {
    if ps == [] then None
    else
      var rest := Newest(ps[1..]);
      if Derived(ps[0].kind) then rest else Later(rest, ps[0].watermark)
  }

  /** A segment as a source returns it: one role-aware provenance entry per series. */
  datatype Sourced = Sourced(segment: Segment, provenance: seq<Provenance>)

  predicate SourcedValid(s: Sourced) {
    && SegmentValid(s.segment)
    && (forall i | 0 <= i < |s.provenance| :: ProvenanceValid(s.provenance[i]))
    && |s.provenance| == |s.segment.series|
    && forall i | 0 <= i < |s.segment.series| ::
         Entries(s.provenance, SegmentOf(s.segment.series[i].definition.role), s.segment.series[i].definition.name) == 1
  }

  // ---------- frames ----------

  predicate WindowValid(f: Frame) {
    && f.cadence != 0
    && f.history.timestamps != [] && f.history.timestamps[|f.history.timestamps| - 1] == f.asOf
    && (f.future.Some? && f.future.value.timestamps != [] ==>
          f.asOf + f.cadence <= U64_MAX && f.future.value.timestamps[0] == f.asOf + f.cadence)
    && f.quality.inputWatermark <= f.asOf
    && forall i | 0 <= i < |f.provenance| ::
         f.provenance[i].watermark <= f.asOf && (f.provenance[i].issuedAt.Some? ==> f.provenance[i].issuedAt.value <= f.asOf)
  }

  predicate RolesValid(f: Frame) {
    && (forall i | 0 <= i < |f.history.series| :: f.history.series[i].definition.role == History)
    && (f.future.Some? ==>
          forall i | 0 <= i < |f.future.value.series| :: f.future.value.series[i].definition.role == FutureCovariate)
    && forall i, j | 0 <= i < j < |f.statics| :: f.statics[i].definition.name != f.statics[j].definition.name
  }

  function FutureCount(f: Frame): nat { if f.future.Some? then |f.future.value.series| else 0 }

  predicate OneEntryEach(f: Frame) {
    && |f.provenance| == |f.history.series| + FutureCount(f) + |f.statics|
    && (forall i | 0 <= i < |f.history.series| :: Entries(f.provenance, HistorySegment, f.history.series[i].definition.name) == 1)
    && (f.future.Some? ==> forall i | 0 <= i < |f.future.value.series| ::
          Entries(f.provenance, FutureSegment, f.future.value.series[i].definition.name) == 1)
    && forall i | 0 <= i < |f.statics| :: Entries(f.provenance, StaticSegment, f.statics[i].definition.name) == 1
  }

  /** The parts a frame is built from, as their own constructors leave them. */
  predicate PartsValid(f: Frame) {
    && SegmentValid(f.history)
    && (f.future.Some? ==> SegmentValid(f.future.value))
    && (forall i | 0 <= i < |f.statics| :: StaticValid(f.statics[i]))
    && (forall i | 0 <= i < |f.provenance| :: ProvenanceValid(f.provenance[i]))
    && 0.0 <= f.quality.missingRatio <= 1.0
  }

  /** Every check of the frame constructor. */
  predicate FrameValid(f: Frame) {
    PartsValid(f) && WindowValid(f) && RolesValid(f) && OneEntryEach(f) && Newest(f.provenance) == Some(f.quality.inputWatermark)
  }

  // ---------- counting lemmas ----------

  ghost predicate Distinct<T(!new)>(xs: seq<T>) { forall i, j | 0 <= i < j < |xs| :: xs[i] != xs[j] }

  lemma {:induction false} DistinctCount<T(!new)>(xs: seq<T>)
    ensures |set x | x in xs| <= |xs|
    ensures |set x | x in xs| == |xs| <==> Distinct(xs)
  {
    var all := set x | x in xs;
    if xs == [] {
      assert all == {};
    } else {
      var front, last := xs[..|xs| - 1], xs[|xs| - 1];
      var before := set x | x in front;
      DistinctCount(front);
      assert all == before + {last};
      if last in front {
        var i :| 0 <= i < |front| && front[i] == last;
        assert xs[i] == xs[|xs| - 1];
        assert all == before;
      } else {
        assert forall i | 0 <= i < |front| :: front[i] == xs[i];
        assert Distinct(xs) ==> Distinct(front);
        assert Distinct(front) ==> Distinct(xs);
      }
    }
  }

  /** A list as long as a duplicate-free one it covers is a rearrangement of it. */
  lemma Covered<T(!new)>(xs: seq<T>, ys: seq<T>)
    requires Distinct(xs) && |xs| == |ys| && forall i | 0 <= i < |xs| :: xs[i] in ys
    ensures Distinct(ys) && (forall i | 0 <= i < |ys| :: ys[i] in xs)
  {
    var a, b := set x | x in xs, set y | y in ys;
    DistinctCount(xs);
    DistinctCount(ys);
    assert a <= b;
    SubsetCount(a, b);
    assert a == b;
    forall i | 0 <= i < |ys| ensures ys[i] in xs { assert ys[i] in b; }
  }

  lemma {:induction false} SubsetCount<T>(a: set<T>, b: set<T>)
    requires a <= b
    ensures |a| <= |b| && (|a| == |b| ==> a == b)
    decreases |a|
  {
    if a != {} {
      var x :| x in a;
      SubsetCount(a - {x}, b - {x});
      assert a == (a - {x}) + {x} && b == (b - {x}) + {x};
    } else if b != {} {
      var x :| x in b;
      assert |b| == |b - {x}| + 1;
    }
  }

  lemma {:induction false} EntriesListed(ps: seq<Provenance>, kind: SegmentKind, feature: string)
    ensures 0 < Entries(ps, kind, feature) <==> feature in Sources(ps, kind)
    ensures 0 < Entries(ps, kind, feature) <==> exists i | 0 <= i < |ps| :: ps[i].segment == kind && ps[i].feature == feature
  {
    if ps != [] {
      EntriesListed(ps[1..], kind, feature);
      if 0 < Entries(ps[1..], kind, feature) {
        var i :| 0 <= i < |ps[1..]| && ps[1..][i].segment == kind && ps[1..][i].feature == feature;
        assert ps[i + 1].segment == kind && ps[i + 1].feature == feature;
      }
      if i :| 0 <= i < |ps| && ps[i].segment == kind && ps[i].feature == feature {
        if 0 < i { assert ps[1..][i - 1] == ps[i]; }
      }
    }
  }

  /** The entries of the three segments are all the entries. */
  lemma {:induction false} SourcesTotal(ps: seq<Provenance>)
    ensures |ps| == |Sources(ps, HistorySegment)| + |Sources(ps, FutureSegment)| + |Sources(ps, StaticSegment)|
  {
    if ps != [] { SourcesTotal(ps[1..]); }
  }

  lemma {:induction false} NewestBound(ps: seq<Provenance>, limit: nat)
    requires forall i | 0 <= i < |ps| :: ps[i].watermark <= limit
    ensures Newest(ps).Some? ==> Newest(ps).value <= limit
  {
    if ps != [] { NewestBound(ps[1..], limit); }
  }
}
