/** Assembled frames across the wire: what a processor decodes. */
module FrameDelivery {
  import opened Outcomes
  import opened Frames
  import opened ObservationGaps
  import opened LiveTail
  import opened FrameAssembly
  import opened FrameAcceptance
  import opened FrameWire
  import opened FrameEncoding
  import opened FrameRoundTrip

  /** Every numeric feature declares a unit; something a commissioner can check beforehand. */
  predicate UnitsDeclared(t: Task) { forall i | 0 <= i < |t.features| && t.features[i].valueType == Number :: t.features[i].unit.Some? }

  lemma {:induction false} EveryRole(features: seq<Definition>, d: Definition)
    requires d in features
    ensures d in Features(features, d.role)
  {
    FeaturesAre(features, d.role);
  }

  /** On a checked task a declared unit is one the wire accepts. */
  lemma CarriedIffDeclared(t: Task, d: Definition)
    requires TaskContract(t) && d in t.features
    ensures UnitCarried(d) <==> (d.valueType == Number ==> d.unit.Some?)
  {
    hide NameValid, UnitValid, Features;
    var i :| 0 <= i < |t.features| && t.features[i] == d;
    assert t.features[i].unit.Some? ==> UnitValid(t.features[i].unit.value);
  }

  /** The series of a segment carry units exactly when the features of its role declare them. */
  lemma SeriesUnits(t: Task, role: Role, series: seq<Series>)
    requires TaskContract(t)
    requires forall x | 0 <= x < |series| :: series[x].definition in Features(t.features, role)
    requires forall d | d in Features(t.features, role) :: exists x | 0 <= x < |series| :: series[x].definition == d
    ensures UnitsCarried(series) <==> forall d | d in Features(t.features, role) :: UnitCarried(d)
  {
    hide TaskContract, Features, UnitCarried;
    if UnitsCarried(series) {
      forall d | d in Features(t.features, role) ensures UnitCarried(d) {
        var x :| 0 <= x < |series| && series[x].definition == d;
        assert UnitCarried(series[x].definition);
      }
    }
  }

  lemma StaticUnits(t: Task, b: Binding)
    requires TaskValid(t) && TaskContract(t) && BindingValid(t, b)
    ensures StaticUnitsCarried(b.statics) <==> forall d | d in Features(t.features, Static) :: UnitCarried(d)
  {
    hide TaskContract, UnitCarried, DefinitionValid, StaticValid;
    StaticNames(t, b);
    forall i | 0 <= i < |b.statics| ensures b.statics[i].definition in Features(t.features, Static) {
      assert StaticValid(b.statics[i]);
      StaticRole(b.statics[i]);
      EveryRole(t.features, b.statics[i].definition);
    }
    if StaticUnitsCarried(b.statics) {
      forall d | d in Features(t.features, Static) ensures UnitCarried(d) {
        var i :| 0 <= i < |Features(t.features, Static)| && Features(t.features, Static)[i] == d;
        var j :| 0 <= j < |b.statics| && b.statics[j].definition == d;
        assert UnitCarried(b.statics[j].definition);
      }
    }
  }

  lemma StaticRole(f: StaticFeature)
    requires StaticValid(f)
    ensures f.definition.role == Static
  {}

  /** The units of an assembled frame are the units of its task. */
  lemma FrameUnitsDeclared(t: Task, b: Binding, r: Request, h: Sourced, f: Option<Sourced>, frame: Frame)
    requires TaskValid(t) && TaskContract(t) && BindingValid(t, b) && HistoryReady(t, r, h) && FutureReady(t, r, f)
    requires BuiltFrom(t, b, r, h, frame, f)
    ensures FrameUnits(frame) <==> UnitsDeclared(t)
  {
    hide TaskValid, TaskContract, BindingValid, HistoryReady, FutureReady, Features, UnitCarried, UnitsCarried, StaticUnitsCarried, Gathered;
    HistoryParts(t, r, h);
    SeriesUnits(t, History, h.segment.series);
    if f.Some? {
      FutureParts(t, r, f);
      SeriesUnits(t, FutureCovariate, f.value.segment.series);
    } else {
      NoFuture(t, r, f);
    }
    StaticUnits(t, b);
    AllRoles(t);
  }

  lemma AllRoles(t: Task)
    requires TaskContract(t)
    ensures UnitsDeclared(t) <==>
            && (forall d | d in Features(t.features, History) :: UnitCarried(d))
            && (forall d | d in Features(t.features, FutureCovariate) :: UnitCarried(d))
            && (forall d | d in Features(t.features, Static) :: UnitCarried(d))
  {
    hide TaskContract, Features, UnitCarried;
    FeaturesAre(t.features, History);
    FeaturesAre(t.features, FutureCovariate);
    FeaturesAre(t.features, Static);
    forall d | d in t.features ensures UnitCarried(d) <==> (d.valueType == Number ==> d.unit.Some?) {
      CarriedIffDeclared(t, d);
    }
    forall d | d in t.features ensures d in Features(t.features, d.role) { EveryRole(t.features, d); }
    assert forall i | 0 <= i < |t.features| :: t.features[i] in t.features;
    if UnitsDeclared(t) {
      forall d | d in t.features ensures UnitCarried(d) {
        var i :| 0 <= i < |t.features| && t.features[i] == d;
        assert t.features[i].valueType == Number ==> t.features[i].unit.Some?;
      }
    } else {
      var i :| 0 <= i < |t.features| && t.features[i].valueType == Number && t.features[i].unit.None?;
      assert !UnitCarried(t.features[i]);
    }
  }

  /** The cutoff and the future labels lie in years of four digits. */
  predicate FourDigitYears(f: Frame) { f.asOf <= LAST_PARSED && (f.future.Some? ==> Parsed(f.future.value.timestamps)) }

  lemma HistoryParsed(f: Frame)
    requires FrameValid(f) && f.asOf <= LAST_PARSED
    ensures Parsed(f.history.timestamps)
  {
    hide Newest, OneEntryEach, RolesValid, SeriesValid, ProvenanceValid, StaticValid;
    Climbing(f.history.timestamps);
  }

  lemma {:induction false} Climbing(ts: seq<nat>)
    requires Increasing(ts) && ts != []
    ensures forall i | 0 <= i < |ts| :: ts[i] <= ts[|ts| - 1]
  {
    if 1 < |ts| {
      var front := ts[..|ts| - 1];
      assert Increasing(front);
      Climbing(front);
      assert ts[|ts| - 2] < ts[|ts| - 1];
      forall i | 0 <= i < |ts| ensures ts[i] <= ts[|ts| - 1] { if i < |front| { assert front[i] == ts[i]; } }
    }
  }

  lemma TimesParsedIff(f: Frame)
    requires FrameValid(f)
    ensures TimesParsed(f) <==> FourDigitYears(f)
  {
    if f.asOf <= LAST_PARSED { HistoryParsed(f); }
    hide PartsValid, RolesValid, OneEntryEach, Newest, Parsed;
  }

  /** A frame assembled on a commissioned route is decoded by the processor, in normal form, exactly when its years have
      four digits and every numeric feature declares a unit. */
  lemma AssembledFrameArrives(t: Task, b: Binding, r: Request, history: Option<Sourced>, live: Option<seq<Option<PointSample>>>,
                              covariates: Option<Sourced>)
    requires TaskValid(t) && TaskContract(t) && BindingValid(t, b) && r.asOf % t.spec.cadence == 0
    requires (history.Some? ==> SourcedValid(history.value)) && (covariates.Some? ==> SourcedValid(covariates.value))
    requires Candidate(t, b, r, history, live, covariates).Some?
    requires var f := Candidate(t, b, r, history, live, covariates).value; Aligned(f.history) && Printable(f)
    ensures var f := Candidate(t, b, r, history, live, covariates).value;
            && FrameToWire(f).Some?
            && FrameFromWire(FrameToWire(f).value) == if FourDigitYears(f) && UnitsDeclared(t) then Some(Normal(f)) else None
  {
    hide TaskValid, TaskContract, BindingValid, SourcedValid, HistoryReady, FutureReady, ProvenanceAccepted, Gathered, FrameValid,
      StoredHistory, Future, Newest, MaximumGap, FrameFlags, FrameCells, Ratio, Aligned, FrameToWire, FrameFromWire, Printable, TimesParsed,
      FrameUnits, FourDigitYears, UnitsDeclared, Normal;
    StepsRequired(t);
    var f := Candidate(t, b, r, history, live, covariates).value;
    ConstructorAccepts(t, b, r, history, live, covariates);
    EncoderAccepts(t, b, r, history, live, covariates);
    RoundTrip(f);
    TimesParsedIff(f);
    HistoryIsReady(t, b, r, history, live);
    FutureIsReady(t, r, covariates);
    FrameUnitsDeclared(t, b, r, StoredHistory(t, b, r, history, live).value.0, Future(t, r, covariates).value, f);
  }
}
