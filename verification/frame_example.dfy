/** A small commissioned route worked through, from stored history to the processor.

    The route has two numeric history features, one sample each. The cutoff and the unit of the second feature are left
    open, so one theorem covers a frame that arrives and the two ways a frame is encoded and then refused. */
module FrameExample {
  import opened Outcomes
  import opened Frames
  import opened ObservationGaps
  import opened LiveTail
  import opened FrameAssembly
  import opened FrameAcceptance
  import opened FrameWire
  import opened FrameEncoding
  import opened FrameRoundTrip
  import opened FrameDelivery

  const LOAD := Definition("load", History, Number, Some("kW"), None)

  /** The second feature, with or without a unit. */
  function Mode(declared: bool): Definition { Definition("mode", History, Number, if declared then Some("kW") else None, None) }

  function ExampleTask(declared: bool): Task {
    Task("task", "task", [LOAD, Mode(declared)], Spec("load", "kW", "load", [], [], 1000, 1, 1, 0, 1.0, None, None, false))
  }

  const BINDING := Binding([Mapping("load", 1, false)], [])

  function At(asOf: nat): Request { Request(asOf, 1, 0) }

  function Source(name: string, asOf: nat): Provenance { Provenance(HistorySegment, name, HistorySource, None, asOf, None) }

  function OneCell(d: Definition): Series { Series(d, [NumberValue(1.0)], [Good]) }

  function Stored(declared: bool, asOf: nat): Sourced {
    Sourced(Segment([asOf], [OneCell(LOAD), OneCell(Mode(declared))]), [Source("load", asOf), Source("mode", asOf)])
  }

  /** A cutoff on the cadence grid that can be printed. */
  predicate Cutoff(asOf: nat) { asOf % 1000 == 0 && asOf <= LAST_FORMATTED }

  // ---------- the route is commissioned ----------

  lemma ShortText(s: string)
    requires 0 < |s| <= 4 && forall i | 0 <= i < |s| :: 'A' <= s[i] <= 'z'
    ensures NameValid(s) && UnitValid(s)
  {
    AsciiLength(s);
  }

  lemma TextsValid(declared: bool)
    ensures DefinitionValid(LOAD) && DefinitionValid(Mode(declared))
    ensures NameValid("load") && NameValid("mode") && UnitValid("kW") && !Blank("load") && !Blank("mode")
    ensures WireIdentifier("task") && WireIdentifier("load")
  {
    ShortText("load");
    ShortText("mode");
    ShortText("kW");
    assert !Whitespace("load"[0]) && !Whitespace("mode"[0]) && !Whitespace("kW"[0]);
  }

  lemma TwoFeatures(declared: bool)
    ensures var fs := ExampleTask(declared).features;
            Features(fs, History) == fs && Features(fs, FutureCovariate) == [] && Features(fs, Static) == []
  {
    var fs, mode := ExampleTask(declared).features, Mode(declared);
    assert fs[1..] == [mode] && [mode][1..] == [];
    assert Features([mode], History) == [mode] && Features([mode], FutureCovariate) == [] && Features([mode], Static) == [];
  }

  lemma RouteValid(declared: bool)
    ensures var t := ExampleTask(declared);
            TaskValid(t) && TaskContract(t) && BindingValid(t, BINDING) && (UnitsDeclared(t) <==> declared)
  {
    hide DefinitionValid, NameValid, UnitValid, Features, WireIdentifier;
    TextsValid(declared);
    TwoFeatures(declared);
    var t := ExampleTask(declared);
    assert t.features[0] == LOAD && t.features[1] == Mode(declared) && BINDING.points[0].feature == "load";
  }

  // ---------- its history is accepted ----------

  lemma OneSource(p: Provenance, kind: SegmentKind, feature: string)
    ensures Sources([p], kind) == (if p.segment == kind then [p.feature] else [])
    ensures Entries([p], kind, feature) == (if p.segment == kind && p.feature == feature then 1 else 0)
    ensures Newest([p]) == (if Derived(p.kind) then None else Some(p.watermark))
  {
    assert [p][1..] == [];
  }

  lemma StoredEntries(asOf: nat)
    ensures var ps := [Source("load", asOf), Source("mode", asOf)];
            && Entries(ps, HistorySegment, "load") == 1 && Entries(ps, HistorySegment, "mode") == 1
            && Sources(ps, HistorySegment) == ["load", "mode"] && Sources(ps, FutureSegment) == [] && Sources(ps, StaticSegment) == []
            && Newest(ps) == Some(asOf)
  {
    var ps, mode := [Source("load", asOf), Source("mode", asOf)], Source("mode", asOf);
    assert ps[1..] == [mode];
    assert "load"[0] != "mode"[0];
    OneSource(mode, HistorySegment, "load");
    OneSource(mode, HistorySegment, "mode");
    OneSource(mode, FutureSegment, "mode");
    OneSource(mode, StaticSegment, "mode");
  }

  lemma CellValid(d: Definition)
    requires DefinitionValid(d) && d.valueType == Number && d.limits.None?
    ensures SeriesValid(OneCell(d))
  {
    hide DefinitionValid;
  }

  lemma StoredValid(declared: bool, asOf: nat)
    ensures SourcedValid(Stored(declared, asOf))
  {
    hide DefinitionValid, Entries, Sources, Newest, Blank, SeriesValid, NameValid, UnitValid;
    TextsValid(declared);
    StoredEntries(asOf);
    CellValid(LOAD);
    CellValid(Mode(declared));
    var s := Stored(declared, asOf);
    assert s.segment.series[0] == OneCell(LOAD) && s.segment.series[1] == OneCell(Mode(declared));
    assert LOAD.name != Mode(declared).name by { assert "load"[0] != "mode"[0]; }
  }

  lemma StoredStart(declared: bool, asOf: nat)
    requires Cutoff(asOf)
    ensures HistoryStart(ExampleTask(declared).spec, asOf) == Some(asOf) && RegularTimestamps(asOf, 1000, 1) == Some([asOf])
  {
    assert Grid(asOf, 1000, 1) == [asOf];
  }

  lemma StoredMatches(declared: bool, asOf: nat)
    ensures var s := Stored(declared, asOf).segment;
            SegmentMatches(s, ExampleTask(declared).features, [asOf]) && WithinLimits(s)
  {
    var s := Stored(declared, asOf).segment;
    assert s.series[0].definition == LOAD && s.series[1].definition == Mode(declared);
  }

  lemma StoredChecked(declared: bool, asOf: nat)
    requires Cutoff(asOf)
    ensures Checked(Stored(declared, asOf), ExampleTask(declared).features, asOf, 1000, 1, HistorySegment)
  {
    hide Entries, Sources, Newest, HistoryStart, RegularTimestamps, SegmentMatches, WithinLimits;
    StoredEntries(asOf);
    StoredStart(declared, asOf);
    StoredMatches(declared, asOf);
  }

  lemma StoredHistoryIs(declared: bool, asOf: nat)
    requires Cutoff(asOf)
    ensures StoredHistory(ExampleTask(declared), BINDING, At(asOf), Some(Stored(declared, asOf)), None) == Some((Stored(declared, asOf), false))
  {
    hide Checked, HistoryStart, Features;
    TwoFeatures(declared);
    StoredStart(declared, asOf);
    StoredChecked(declared, asOf);
  }

  lemma GatheredIs(declared: bool, asOf: nat)
    ensures var s := Stored(declared, asOf);
            && Gathered(s, None, BINDING, asOf) == s.provenance
            && ProvenanceAccepted(ExampleTask(declared), BINDING, asOf, s.provenance)
  {
    hide Entries, Sources, Newest, Features;
    StoredEntries(asOf);
    TwoFeatures(declared);
    assert StaticProvenance(BINDING.statics, asOf) == [] && StaticDefinitions(BINDING.statics) == [];
  }

  lemma Complete(declared: bool, asOf: nat)
    ensures var s := Stored(declared, asOf).segment;
            FrameFlags(s, None, [], Missing) == 0 && FrameCells(s, None, []) == 2
  {
    var s := Stored(declared, asOf).segment.series;
    assert s[..1] == [OneCell(LOAD)] && s[..1][..0] == [] && [Good][..0] == [];
    assert Flags([], Missing) == 0 && Flags([Good], Missing) == 0;
    assert SeriesFlags([], Missing) == 0 && SeriesCells([]) == 0;
    assert SeriesFlags(s[..1], Missing) == 0 && SeriesCells(s[..1]) == 1;
  }

  /** The route assembles a frame at every cutoff. */
  lemma Assembles(declared: bool, asOf: nat)
    requires Cutoff(asOf)
    ensures SourcedValid(Stored(declared, asOf)) && ExampleTask(declared).spec.historySteps != 0
    ensures Candidate(ExampleTask(declared), BINDING, At(asOf), Some(Stored(declared, asOf)), None, None).Some?
  {
    hide TaskValid, TaskContract, BindingValid, SourcedValid, StoredHistory, ProvenanceAccepted, Gathered, Features, MaximumGap, Newest,
      FrameFlags, FrameCells, Aligned;
    StoredValid(declared, asOf);
    StoredHistoryIs(declared, asOf);
    TwoFeatures(declared);
    GatheredIs(declared, asOf);
    SourcedAligned(Stored(declared, asOf));
    StoredEntries(asOf);
    Complete(declared, asOf);
  }

  /** The frame of the route. */
  ghost function ExampleFrame(declared: bool, asOf: nat): Frame
    requires Cutoff(asOf)
  {
    Assembles(declared, asOf);
    Candidate(ExampleTask(declared), BINDING, At(asOf), Some(Stored(declared, asOf)), None, None).value
  }

  lemma FrameFacts(declared: bool, asOf: nat)
    requires Cutoff(asOf)
    ensures var f := ExampleFrame(declared, asOf); f.asOf == asOf && f.future.None?
  {
    hide TaskValid, TaskContract, BindingValid, SourcedValid, StoredHistory, ProvenanceAccepted, Features, MaximumGap, Newest, FrameFlags,
      FrameCells, Aligned, Gathered, Ratio;
    Assembles(declared, asOf);
    StoredHistoryIs(declared, asOf);
    TwoFeatures(declared);
  }

  /** At every cutoff the assembled frame is valid and encoded; it is decoded exactly when the second feature declares its
      unit and the year has four digits. */
  lemma ArrivesIff(declared: bool, asOf: nat)
    requires Cutoff(asOf)
    ensures var f := ExampleFrame(declared, asOf);
            && FrameValid(f) && Aligned(f.history) && FrameToWire(f).Some?
            && FrameFromWire(FrameToWire(f).value) == if declared && asOf <= LAST_PARSED then Some(Normal(f)) else None
  {
    hide TaskValid, TaskContract, BindingValid, SourcedValid, Features, Aligned, FrameValid, FrameToWire, FrameFromWire, Normal,
      UnitsDeclared, Candidate;
    var t, stored := ExampleTask(declared), Some(Stored(declared, asOf));
    Assembles(declared, asOf);
    RouteValid(declared);
    FrameFacts(declared, asOf);
    ConstructorAccepts(t, BINDING, At(asOf), stored, None, None);
    EncoderAccepts(t, BINDING, At(asOf), stored, None, None);
    AssembledFrameArrives(t, BINDING, At(asOf), stored, None, None);
  }

  /** A frame that arrives. */
  lemma Arrives()
    ensures var f := ExampleFrame(true, 1000);
            FrameValid(f) && Aligned(f.history) && FrameToWire(f).Some? && FrameFromWire(FrameToWire(f).value) == Some(Normal(f))
  {
    hide ExampleFrame, FrameValid, Aligned, FrameToWire, FrameFromWire, Normal;
    ArrivesIff(true, 1000);
  }

  /** A commissioned task with a unitless number: its frame is assembled and encoded, and no processor can decode it. */
  lemma UnitlessFrameRefused()
    ensures TaskValid(ExampleTask(false)) && TaskContract(ExampleTask(false)) && BindingValid(ExampleTask(false), BINDING)
    ensures var f := ExampleFrame(false, 1000);
            FrameValid(f) && Aligned(f.history) && FrameToWire(f).Some? && FrameFromWire(FrameToWire(f).value) == None
  {
    hide ExampleFrame, FrameValid, Aligned, FrameToWire, FrameFromWire, Normal, TaskValid, TaskContract, BindingValid;
    RouteValid(false);
    ArrivesIff(false, 1000);
  }

  /** The first second of the year 10000. */
  const YEAR_10000: nat := 253_402_300_800_000

  /** A frame of the year 10000, units declared: it is encoded, and the decoder refuses it. */
  lemma LateFrameRefused()
    ensures var f := ExampleFrame(true, YEAR_10000);
            FrameValid(f) && Aligned(f.history) && FrameToWire(f).Some? && FrameFromWire(FrameToWire(f).value) == None
  {
    hide ExampleFrame, FrameValid, Aligned, FrameToWire, FrameFromWire, Normal;
    ArrivesIff(true, YEAR_10000);
  }
}
