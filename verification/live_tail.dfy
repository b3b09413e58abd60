/** Completing stored history with an exactly aligned live sample for every mapped feature, or not at all. */
module LiveTail {
  import opened Outcomes
  import opened Frames
  import opened ObservationGaps

  datatype PointQuality = GoodPoint | UncertainPoint | BadPoint | UnavailablePoint

  /** A live sample; a value that is not finite is `None`. */
  datatype PointSample = PointSample(address: nat, value: Option<real>, timestamp: nat, quality: PointQuality)

  datatype Mapping = Mapping(feature: string, address: nat, liveTail: bool)

  /** The mappings that take part in the live tail, in order. */
  function Tails(mappings: seq<Mapping>): seq<Mapping> {
    if mappings == [] then [] else (if mappings[0].liveTail then [mappings[0]] else []) + Tails(mappings[1..])
  }

  /** Exactly the live mappings take part, each as often as it is mapped. */
  lemma {:induction false} TailsAre(mappings: seq<Mapping>)
    ensures multiset(Tails(mappings)) <= multiset(mappings)
    ensures forall m | m in Tails(mappings) :: m.liveTail && multiset(Tails(mappings))[m] == multiset(mappings)[m]
    ensures forall m | m in mappings && m.liveTail :: m in Tails(mappings)
  {
    if mappings != [] {
      TailsAre(mappings[1..]);
      assert mappings == [mappings[0]] + mappings[1..];
      assert multiset(mappings) == multiset{mappings[0]} + multiset(mappings[1..]);
    }
  }

  predicate SampleAccepted(m: Mapping, sample: Option<PointSample>, asOf: nat) {
    && sample.Some?
    && sample.value.address == m.address
    && sample.value.value.Some?
    && sample.value.timestamp == asOf
    && (sample.value.quality == GoodPoint || sample.value.quality == UncertainPoint)
  }

  predicate AllAccepted(tails: seq<Mapping>, samples: seq<Option<PointSample>>, asOf: nat) {
    |samples| == |tails| && forall i | 0 <= i < |tails| :: SampleAccepted(tails[i], samples[i], asOf)
  }

  /** Whether a live tail is merged at all; the reading is `None` when the live state could not be read. */
  predicate Merges(tails: seq<Mapping>, asOf: nat, h: Sourced, reading: Option<seq<Option<PointSample>>>) {
    && tails != []
    && h.segment.timestamps != [] && h.segment.timestamps[|h.segment.timestamps| - 1] == asOf
    && reading.Some? && AllAccepted(tails, reading.value, asOf)
  }

  /** The first mapping of a feature. */
  function MappedAt(tails: seq<Mapping>, feature: string): (i: Option<nat>)
    ensures i.Some? ==> i.value < |tails| && tails[i.value].feature == feature && forall j | 0 <= j < i.value :: tails[j].feature != feature
    ensures i.None? ==> forall j | 0 <= j < |tails| :: tails[j].feature != feature
  {
    if tails == [] then None
    else if tails[0].feature == feature then Some(0)
    else
      var rest := MappedAt(tails[1..], feature);
      if rest.Some? then Some(rest.value + 1) else None
  }

  function StoredSource(ps: seq<Provenance>, feature: string): Option<Provenance> {
    if ps == [] then None else if ps[0].feature == feature then Some(ps[0]) else StoredSource(ps[1..], feature)
  }

  function TailQuality(q: PointQuality): Quality { if q == GoodPoint then Good else Uncertain }

  function Replaced(s: Series, sample: PointSample): Series
    requires s.values != [] && s.quality != [] && sample.value.Some?
  {
    s.(values := s.values[|s.values| - 1 := NumberValue(sample.value.value)],
       quality := s.quality[|s.quality| - 1 := TailQuality(sample.quality)])
  }

  /** One series and its provenance after the merge; `None` is an error. */
  function MergeOne(tails: seq<Mapping>, samples: seq<Option<PointSample>>, h: Sourced, s: Series): Option<(Series, Provenance)>
    requires |samples| == |tails| && forall i | 0 <= i < |tails| :: samples[i].Some? && samples[i].value.value.Some?
  {
    var at := MappedAt(tails, s.definition.name);
    var stored := StoredSource(h.provenance, s.definition.name);
    if at.None? then if stored.None? then None else Some((s, stored.value))
    else if s.values == [] || s.quality == [] then None
    else
      var sample := samples[at.value].value;
      var t := Replaced(s, sample);
      var p := Provenance(
        HistorySegment, s.definition.name, HistoryAndLive, if stored.Some? then stored.value.sourceRef else None, sample.timestamp, None);
      if SeriesValid(t) && ProvenanceValid(p) then Some((t, p)) else None
  }

  function MergePrefix(tails: seq<Mapping>, samples: seq<Option<PointSample>>, h: Sourced, k: nat): Option<(seq<Series>, seq<Provenance>)>
    requires |samples| == |tails| && forall i | 0 <= i < |tails| :: samples[i].Some? && samples[i].value.value.Some?
    requires k <= |h.segment.series|
  {
    if k == 0 then Some(([], []))
    else
      var before := MergePrefix(tails, samples, h, k - 1);
      var one := MergeOne(tails, samples, h, h.segment.series[k - 1]);
      if before.None? || one.None? then None
      else Some((before.value.0 + [one.value.0], before.value.1 + [one.value.1]))
  }

  /** The whole merge; `None` is an error, otherwise the history and whether the live tail is in it. */
  function Merge(mappings: seq<Mapping>, asOf: nat, h: Sourced, reading: Option<seq<Option<PointSample>>>): Option<(Sourced, bool)> {
    var tails := Tails(mappings);
    if !Merges(tails, asOf, h, reading) then Some((h, false))
    else
      var merged := MergePrefix(tails, reading.value, h, |h.segment.series|);
      if merged.None? then None
      else
        var s := Sourced(Segment(h.segment.timestamps, merged.value.0), merged.value.1);
        if SourcedValid(s) then Some((s, true)) else None
  }

  /** The merge as it runs: collect the accepted samples, then rebuild the series one by one. */
  method MergeLiveTail(mappings: seq<Mapping>, asOf: nat, h: Sourced, reading: Option<seq<Option<PointSample>>>)
    returns (r: Option<(Sourced, bool)>)
    ensures r == Merge(mappings, asOf, h, reading)
  {
    hide SourcedValid, MergeOne;
    var tails := LiveMappings(mappings);
    if tails == [] { return Some((h, false)); }
    if h.segment.timestamps == [] || h.segment.timestamps[|h.segment.timestamps| - 1] != asOf { return Some((h, false)); }
    if reading.None? || |reading.value| != |tails| { return Some((h, false)); }
    var samples, i := reading.value, 0;
    while i < |tails|
      invariant i <= |tails| && forall j | 0 <= j < i :: SampleAccepted(tails[j], samples[j], asOf)
    {
      if !SampleAccepted(tails[i], samples[i], asOf) { return Some((h, false)); }
      i := i + 1;
    }
    var series, provenance, k := [], [], 0;
    while k < |h.segment.series|
      invariant k <= |h.segment.series| && MergePrefix(tails, samples, h, k) == Some((series, provenance))
    {
      var one := MergeOne(tails, samples, h, h.segment.series[k]);
      if one.None? {
        StaysFailed(tails, samples, h, k + 1, |h.segment.series|);
        return None;
      }
      series, provenance, k := series + [one.value.0], provenance + [one.value.1], k + 1;
    }
    var s := Sourced(Segment(h.segment.timestamps, series), provenance);
    return if SourcedValid(s) then Some((s, true)) else None;
  }

  method LiveMappings(mappings: seq<Mapping>) returns (tails: seq<Mapping>)
    ensures tails == Tails(mappings)
  {
    tails := [];
    var i := 0;
    while i < |mappings|
      invariant i <= |mappings| && tails + Tails(mappings[i..]) == Tails(mappings)
    {
      assert mappings[i..][1..] == mappings[i + 1..];
      if mappings[i].liveTail { tails := tails + [mappings[i]]; }
      i := i + 1;
    }
  }

  lemma {:induction false} StaysFailed(tails: seq<Mapping>, samples: seq<Option<PointSample>>, h: Sourced, j: nat, k: nat)
    requires |samples| == |tails| && forall i | 0 <= i < |tails| :: samples[i].Some? && samples[i].value.value.Some?
    requires j <= k <= |h.segment.series| && MergePrefix(tails, samples, h, j).None?
    ensures MergePrefix(tails, samples, h, k).None?
    decreases k - j
  {
    hide MergeOne;
    if j < k { StaysFailed(tails, samples, h, j, k - 1); }
  }

  // ---------- what a merge does ----------

  lemma {:induction false} PrefixAt(tails: seq<Mapping>, samples: seq<Option<PointSample>>, h: Sourced, k: nat)
    requires |samples| == |tails| && forall i | 0 <= i < |tails| :: samples[i].Some? && samples[i].value.value.Some?
    requires k <= |h.segment.series| && MergePrefix(tails, samples, h, k).Some?
    ensures var (series, provenance) := MergePrefix(tails, samples, h, k).value;
            && |series| == |provenance| == k
            && forall x | 0 <= x < k :: MergeOne(tails, samples, h, h.segment.series[x]) == Some((series[x], provenance[x]))
    decreases k
  {
    hide MergeOne;
    if k != 0 { PrefixAt(tails, samples, h, k - 1); }
  }

  /** Series `t` is what the merge makes of series `s`. */
  ghost predicate Merged(tails: seq<Mapping>, samples: seq<Option<PointSample>>, s: Series, t: Series) {
    var at := MappedAt(tails, s.definition.name);
    if at.None? then t == s
    else
      && t.definition == s.definition
      && TailReplaced(s, t)
      && at.value < |samples| && samples[at.value].Some? && samples[at.value].value.value.Some?
      && t.values[|s.values| - 1] == NumberValue(samples[at.value].value.value.value)
      && (samples[at.value].value.quality == GoodPoint ==> t.quality[|s.values| - 1] == Good)
      && (samples[at.value].value.quality != GoodPoint ==> t.quality[|s.values| - 1] == Uncertain)
  }

  /** The live state was read at the cutoff: the last label is the cutoff, and every live mapping has a finite sample of its
      own address, good or uncertain, stamped exactly then. */
  ghost predicate ReadAtCutoff(tails: seq<Mapping>, asOf: nat, ts: seq<nat>, reading: Option<seq<Option<PointSample>>>) {
    && tails != [] && ts != [] && ts[|ts| - 1] == asOf
    && reading.Some? && |reading.value| == |tails|
    && forall i | 0 <= i < |tails| ::
         && reading.value[i].Some?
         && var sample := reading.value[i].value;
            && sample.address == tails[i].address && sample.timestamp == asOf && sample.value != None
            && sample.quality in {GoodPoint, UncertainPoint}
  }

  lemma MergesIff(tails: seq<Mapping>, asOf: nat, h: Sourced, reading: Option<seq<Option<PointSample>>>)
    ensures Merges(tails, asOf, h, reading) <==> ReadAtCutoff(tails, asOf, h.segment.timestamps, reading)
  {
    if reading.Some? && |reading.value| == |tails| {
      assert forall i | 0 <= i < |tails| :: SampleAccepted(tails[i], reading.value[i], asOf) <==>
                                            && reading.value[i].Some?
                                            && var sample := reading.value[i].value;
                                               && sample.address == tails[i].address && sample.timestamp == asOf && sample.value != None
                                               && sample.quality in {GoodPoint, UncertainPoint};
    }
  }

  /** `p` is what the merge makes of the provenance of a series: a mapped one is sourced from history and live at the cutoff
      under its stored reference, any other keeps its stored entry. */
  ghost predicate MergedSource(tails: seq<Mapping>, asOf: nat, stored: seq<Provenance>, name: string, p: Provenance) {
    if MappedAt(tails, name).None? then p in stored && p.feature == name
    else
      && p.segment == HistorySegment && p.feature == name && p.kind == HistoryAndLive && p.watermark == asOf && p.issuedAt == None
      && exists q | q in stored :: q.feature == name && q.sourceRef == p.sourceRef
  }

  /** All or nothing: either the history is returned unchanged, or every mapped series has only its last cell replaced by
      its sample, with its provenance to match, and every other series is untouched. The live tail is in exactly when the
      live state was read at the cutoff. */
  lemma MergeOutcome(mappings: seq<Mapping>, asOf: nat, h: Sourced, reading: Option<seq<Option<PointSample>>>)
    requires SourcedValid(h) && Merge(mappings, asOf, h, reading).Some?
    ensures var (r, included) := Merge(mappings, asOf, h, reading).value;
            && SourcedValid(r) && r.segment.timestamps == h.segment.timestamps && |r.segment.series| == |h.segment.series|
            && |r.provenance| == |h.segment.series|
            && (included <==> ReadAtCutoff(Tails(mappings), asOf, h.segment.timestamps, reading))
            && (!included ==> r == h)
            && (included ==> reading.Some? && forall x | 0 <= x < |h.segment.series| ::
                  && Merged(Tails(mappings), reading.value, h.segment.series[x], r.segment.series[x])
                  && MergedSource(Tails(mappings), asOf, h.provenance, h.segment.series[x].definition.name, r.provenance[x]))
  {
    var tails := Tails(mappings);
    SourcedCounts(h);
    hide SourcedValid, Tails, ReadAtCutoff;
    MergesIff(tails, asOf, h, reading);
    if Merges(tails, asOf, h, reading) {
      PrefixAt(tails, reading.value, h, |h.segment.series|);
      var (r, included) := Merge(mappings, asOf, h, reading).value;
      forall x | 0 <= x < |h.segment.series|
        ensures Merged(tails, reading.value, h.segment.series[x], r.segment.series[x])
        ensures MergedSource(tails, asOf, h.provenance, h.segment.series[x].definition.name, r.provenance[x])
      {
        SeriesFits(h, x);
        OneMerged(tails, reading.value, h, h.segment.series[x]);
        OneSource(tails, reading.value, h, asOf, x);
      }
    }
  }

  lemma SourcedCounts(h: Sourced)
    requires SourcedValid(h)
    ensures |h.provenance| == |h.segment.series|
  {}

  lemma OneSource(tails: seq<Mapping>, samples: seq<Option<PointSample>>, h: Sourced, asOf: nat, x: nat)
    requires AllAccepted(tails, samples, asOf) && SourcedValid(h) && x < |h.segment.series|
    requires MergeOne(tails, samples, h, h.segment.series[x]).Some?
    ensures MergedSource(tails, asOf, h.provenance, h.segment.series[x].definition.name, MergeOne(tails, samples, h, h.segment.series[x]).value.1)
  {
    var s := h.segment.series[x];
    StoredFound(h.provenance, s.definition.name);
    assert Entries(h.provenance, SegmentOf(s.definition.role), s.definition.name) == 1;
    EntriesListed(h.provenance, SegmentOf(s.definition.role), s.definition.name);
    hide SourcedValid, SeriesValid, ProvenanceValid, Entries, Sources, Replaced;
    var at := MappedAt(tails, s.definition.name);
    if at.Some? { assert SampleAccepted(tails[at.value], samples[at.value], asOf); }
  }

  lemma SeriesFits(h: Sourced, x: nat)
    requires SourcedValid(h) && x < |h.segment.series|
    ensures var s := h.segment.series[x]; |s.values| == |s.quality| == |h.segment.timestamps| && s.values != [] && SeriesValid(s)
  {}

  lemma OneMerged(tails: seq<Mapping>, samples: seq<Option<PointSample>>, h: Sourced, s: Series)
    requires |samples| == |tails| && forall i | 0 <= i < |tails| :: samples[i].Some? && samples[i].value.value.Some?
    requires |s.values| == |s.quality| && MergeOne(tails, samples, h, s).Some?
    ensures Merged(tails, samples, s, MergeOne(tails, samples, h, s).value.0)
  {
    hide SeriesValid, ProvenanceValid;
  }

  lemma SourcedAligned(h: Sourced)
    requires SourcedValid(h)
    ensures Aligned(h.segment) && h.segment.timestamps != [] && h.segment.series != []
  {}

  /** A merge leaves the observation gap exactly as it was. */
  lemma MergeKeepsGap(mappings: seq<Mapping>, asOf: nat, h: Sourced, reading: Option<seq<Option<PointSample>>>, cadence: nat)
    requires SourcedValid(h) && Aligned(h.segment)
    requires Merge(mappings, asOf, h, reading).Some? && Aligned(Merge(mappings, asOf, h, reading).value.0.segment)
    ensures MaximumGap(Merge(mappings, asOf, h, reading).value.0.segment, cadence) == MaximumGap(h.segment, cadence)
  {
    hide SourcedValid, Merge, ReadAtCutoff, TailReplaced, Tails;
    MergeOutcome(mappings, asOf, h, reading);
    SourcedAligned(h);
    var (r, included) := Merge(mappings, asOf, h, reading).value;
    if included {
      forall x | 0 <= x < |h.segment.series|
        ensures h.segment.series[x] == r.segment.series[x] || TailReplaced(h.segment.series[x], r.segment.series[x])
      {
        assert Merged(Tails(mappings), reading.value, h.segment.series[x], r.segment.series[x]);
      }
      TailsKeepGap(h.segment, r.segment, cadence, |h.segment.series|);
    }
  }

  // ---------- when a merge fails ----------

  ghost predicate HistoryOnly(h: Sourced) {
    forall x | 0 <= x < |h.segment.series| :: h.segment.series[x].definition.role == History
  }

  /** The sample mapped to the series violates the type or the limits of its feature. */
  predicate Refuses(tails: seq<Mapping>, samples: seq<Option<PointSample>>, s: Series) {
    var at := MappedAt(tails, s.definition.name);
    && at.Some? && at.value < |samples| && samples[at.value].Some? && samples[at.value].value.value.Some?
    && !SampleValid(s.definition, NumberValue(samples[at.value].value.value.value), TailQuality(samples[at.value].value.quality))
  }

  function Names(series: seq<Series>): seq<string> { seq(|series|, x requires 0 <= x < |series| => series[x].definition.name) }

  lemma {:induction false} StoredFound(ps: seq<Provenance>, feature: string)
    ensures StoredSource(ps, feature).Some? ==> StoredSource(ps, feature).value in ps && StoredSource(ps, feature).value.feature == feature
    ensures StoredSource(ps, feature).None? ==> forall i | 0 <= i < |ps| :: ps[i].feature != feature
  {
    if ps != [] { StoredFound(ps[1..], feature); }
  }

  lemma {:induction false} SourcesShort(ps: seq<Provenance>, kind: SegmentKind)
    ensures |Sources(ps, kind)| <= |ps|
    ensures |Sources(ps, kind)| == |ps| ==> forall i | 0 <= i < |ps| :: ps[i].segment == kind
  {
    if ps != [] { SourcesShort(ps[1..], kind); }
  }

  /** The provenance of a segment of one role names entries of that segment only. */
  lemma SegmentEntries(h: Sourced, role: Role)
    requires SourcedValid(h) && forall x | 0 <= x < |h.segment.series| :: h.segment.series[x].definition.role == role
    ensures forall i | 0 <= i < |h.provenance| :: h.provenance[i].segment == SegmentOf(role)
    ensures |Sources(h.provenance, SegmentOf(role))| == |h.provenance|
  {
    var kind := SegmentOf(role);
    var names, sources := Names(h.segment.series), Sources(h.provenance, kind);
    forall x | 0 <= x < |names| ensures names[x] in sources { EntriesListed(h.provenance, kind, names[x]); }
    SourcesShort(h.provenance, kind);
    DistinctCount(names);
    DistinctCount(sources);
    var a, b := set x | x in names, set y | y in sources;
    assert a <= b;
    SubsetCount(a, b);
  }

  lemma {:induction false} OneEntry(ps: seq<Provenance>, kind: SegmentKind, x: nat)
    requires x < |ps| && ps[x].segment == kind
    requires forall i | 0 <= i < |ps| && i != x :: ps[i].feature != ps[x].feature
    ensures Entries(ps, kind, ps[x].feature) == 1
  {
    if x == 0 {
      NoEntry(ps[1..], kind, ps[0].feature);
    } else {
      assert ps[1..][x - 1] == ps[x] && ps[0].feature != ps[x].feature;
      OneEntry(ps[1..], kind, x - 1);
    }
  }

  lemma {:induction false} NoEntry(ps: seq<Provenance>, kind: SegmentKind, feature: string)
    requires forall i | 0 <= i < |ps| :: ps[i].feature != feature
    ensures Entries(ps, kind, feature) == 0
  {
    if ps != [] { NoEntry(ps[1..], kind, feature); }
  }

  lemma ReplacedValid(s: Series, sample: PointSample)
    requires SeriesValid(s) && s.values != [] && sample.value.Some?
    ensures SeriesValid(Replaced(s, sample)) <==> SampleValid(s.definition, NumberValue(sample.value.value), TailQuality(sample.quality))
  {
    hide SampleValid, DefinitionValid;
    var t, n := Replaced(s, sample), |s.values| - 1;
    assert forall i | 0 <= i < n :: t.values[i] == s.values[i] && t.quality[i] == s.quality[i];
    assert t.values[n] == NumberValue(sample.value.value) && t.quality[n] == TailQuality(sample.quality);
  }

  /** One series is rebuilt unless its sample is refused, and its provenance names it in the history segment. */
  lemma OneFailsIff(tails: seq<Mapping>, samples: seq<Option<PointSample>>, h: Sourced, x: nat)
    requires |samples| == |tails| && forall i | 0 <= i < |tails| :: samples[i].Some? && samples[i].value.value.Some?
    requires SourcedValid(h) && HistoryOnly(h) && x < |h.segment.series|
    ensures var s := h.segment.series[x]; var one := MergeOne(tails, samples, h, s);
            && (one.None? <==> Refuses(tails, samples, s))
            && (one.Some? ==>
                  && SeriesValid(one.value.0) && ProvenanceValid(one.value.1)
                  && one.value.0.definition == s.definition && |one.value.0.values| == |s.values|
                  && one.value.1.segment == HistorySegment && one.value.1.feature == s.definition.name)
  {
    var s := h.segment.series[x];
    SeriesFits(h, x);
    SegmentEntries(h, History);
    StoredFound(h.provenance, s.definition.name);
    EntriesListed(h.provenance, HistorySegment, s.definition.name);
    assert forall p | p in h.provenance :: ProvenanceValid(p);
    assert Entries(h.provenance, HistorySegment, s.definition.name) == 1;
    assert !Blank(s.definition.name);
    hide SeriesValid, SampleValid, SourcedValid, SemanticRef, Blank, Entries, Sources, Replaced;
    var at := MappedAt(tails, s.definition.name);
    if at.Some? { ReplacedValid(s, samples[at.value].value); SameShape(s, samples[at.value].value); }
  }

  lemma SameShape(s: Series, sample: PointSample)
    requires s.values != [] && s.quality != [] && sample.value.Some?
    ensures Replaced(s, sample).definition == s.definition && |Replaced(s, sample).values| == |s.values|
  {}

  lemma {:induction false} PrefixFailsIff(tails: seq<Mapping>, samples: seq<Option<PointSample>>, h: Sourced, k: nat)
    requires |samples| == |tails| && forall i | 0 <= i < |tails| :: samples[i].Some? && samples[i].value.value.Some?
    requires k <= |h.segment.series|
    ensures MergePrefix(tails, samples, h, k).None? <==> exists x | 0 <= x < k :: MergeOne(tails, samples, h, h.segment.series[x]).None?
    decreases k
  {
    hide MergeOne;
    if k != 0 { PrefixFailsIff(tails, samples, h, k - 1); }
  }

  /** A merge fails exactly when a sample it would merge violates its feature; rebuilding the segment never fails. */
  lemma MergeFailsIff(mappings: seq<Mapping>, asOf: nat, h: Sourced, reading: Option<seq<Option<PointSample>>>)
    requires SourcedValid(h) && HistoryOnly(h)
    ensures Merge(mappings, asOf, h, reading).None? <==>
            && Merges(Tails(mappings), asOf, h, reading)
            && exists x | 0 <= x < |h.segment.series| :: Refuses(Tails(mappings), reading.value, h.segment.series[x])
  {
    hide MergeOne, SourcedValid, Refuses, Tails, SeriesValid, ProvenanceValid;
    var tails := Tails(mappings);
    if Merges(tails, asOf, h, reading) {
      var n := |h.segment.series|;
      forall x | 0 <= x < n
        ensures MergeOne(tails, reading.value, h, h.segment.series[x]).None? <==> Refuses(tails, reading.value, h.segment.series[x])
      {
        OneFailsIff(tails, reading.value, h, x);
      }
      PrefixFailsIff(tails, reading.value, h, n);
      if MergePrefix(tails, reading.value, h, n).Some? { RebuiltValid(tails, reading.value, h); }
    }
  }

  lemma RebuiltValid(tails: seq<Mapping>, samples: seq<Option<PointSample>>, h: Sourced)
    requires |samples| == |tails| && forall i | 0 <= i < |tails| :: samples[i].Some? && samples[i].value.value.Some?
    requires SourcedValid(h) && HistoryOnly(h) && MergePrefix(tails, samples, h, |h.segment.series|).Some?
    ensures var (series, provenance) := MergePrefix(tails, samples, h, |h.segment.series|).value;
            SourcedValid(Sourced(Segment(h.segment.timestamps, series), provenance))
  {
    var n := |h.segment.series|;
    PrefixAt(tails, samples, h, n);
    var (series, provenance) := MergePrefix(tails, samples, h, n).value;
    hide MergeOne, MergePrefix, Refuses, SeriesValid, ProvenanceValid, SourcedValid;
    forall x | 0 <= x < n
      ensures SeriesValid(series[x]) && ProvenanceValid(provenance[x]) && series[x].definition == h.segment.series[x].definition
      ensures |series[x].values| == |h.segment.series[x].values|
      ensures provenance[x].segment == HistorySegment && provenance[x].feature == series[x].definition.name
    {
      OneFailsIff(tails, samples, h, x);
    }
    SameNamesValid(h, series, provenance);
  }

  lemma SameNamesValid(h: Sourced, series: seq<Series>, provenance: seq<Provenance>)
    requires SourcedValid(h) && HistoryOnly(h) && |series| == |provenance| == |h.segment.series|
    requires forall x | 0 <= x < |series| ::
               && SeriesValid(series[x]) && series[x].definition == h.segment.series[x].definition
               && |series[x].values| == |h.segment.series[x].values|
    requires forall x | 0 <= x < |series| ::
               && ProvenanceValid(provenance[x]) && provenance[x].segment == HistorySegment
               && provenance[x].feature == series[x].definition.name
    ensures SourcedValid(Sourced(Segment(h.segment.timestamps, series), provenance))
  {
    hide SeriesValid, ProvenanceValid, Entries;
    assert UniqueNames(series) by {
      assert forall x | 0 <= x < |series| :: series[x].definition.name == h.segment.series[x].definition.name;
    }
    forall x | 0 <= x < |series|
      ensures Entries(provenance, SegmentOf(series[x].definition.role), series[x].definition.name) == 1
    {
      OneEntry(provenance, HistorySegment, x);
    }
  }

  // ---------- counting cells ----------

  function Flags(quality: seq<Quality>, q: Quality): nat {
    if quality == [] then 0 else Flags(quality[..|quality| - 1], q) + if quality[|quality| - 1] == q then 1 else 0
  }

  function SeriesFlags(series: seq<Series>, q: Quality): nat {
    if series == [] then 0 else SeriesFlags(series[..|series| - 1], q) + Flags(series[|series| - 1].quality, q)
  }

  /** A merge never adds a missing cell. */
  lemma MergeNeverAddsMissing(mappings: seq<Mapping>, asOf: nat, h: Sourced, reading: Option<seq<Option<PointSample>>>)
    requires SourcedValid(h) && Merge(mappings, asOf, h, reading).Some?
    ensures SeriesFlags(Merge(mappings, asOf, h, reading).value.0.segment.series, Missing) <= SeriesFlags(h.segment.series, Missing)
  {
    hide SourcedValid, Merge, ReadAtCutoff, Tails;
    MergeOutcome(mappings, asOf, h, reading);
    var (r, included) := Merge(mappings, asOf, h, reading).value;
    if included { FewerMissing(Tails(mappings), reading.value, h.segment.series, r.segment.series); }
  }

  lemma {:induction false} FewerMissing(tails: seq<Mapping>, samples: seq<Option<PointSample>>, before: seq<Series>, after: seq<Series>)
    requires |before| == |after| && forall x | 0 <= x < |before| :: Merged(tails, samples, before[x], after[x])
    ensures SeriesFlags(after, Missing) <= SeriesFlags(before, Missing)
    decreases |before|
  {
    if before != [] {
      var n := |before| - 1;
      FewerMissing(tails, samples, before[..n], after[..n]);
      assert Merged(tails, samples, before[n], after[n]);
    }
  }
}
