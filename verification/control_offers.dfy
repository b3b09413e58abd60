/** One offer, one call: everything a `process` call does in any interleaving is about the offer it was begun with. */
module ControlOffers {
  import opened Outcomes
  import opened Identifiers
  import opened ControlTypes
  import opened ControlLedger
  import opened ControlProtocol
  import opened ControlSafety
  import opened ControlTheorems
  import opened ControlRecoveryRuns

  ghost predicate Won(t: seq<Event>, call: nat) { exists c: Claim, dispatching :: ClaimWon(call, c, dispatching) in t }

  /** Where a call begun with `o` may stand, before and after it wins the claim. */
  predicate Serves(pc: Pc, o: Offer, won: bool) {
    match pc
    case Finding(x) => x == o && !won
    case Gating(x) => x == o && !won
    case Replaying(x, _) => x == o && !won
    case AuditingRejection(x, _, _) => x == o && !won
    case ClaimingRejection(x, _, _, _) => x == o && !won
    case AuditingDispatch(x) => x == o && !won
    case ClaimingDispatch(x, _) => x == o && !won
    case Dispatching(c) => Carries(c, o) && won
    case Awaiting(c) => Carries(c, o) && won
    case AuditingOutcome(c, _, _) => Carries(c, o) && won
    case Storing(c, _, after) => Carries(c, o) && won && after.Finish?
    case Recovering(_) => false
    case Done => true
    case Failed => true
  }

  /** The event concerns the offered job, intent, target and value, and no recovery. */
  predicate Concerns(e: Event, o: Offer) {
    match e
    case Permitted(_, x, _, _, _) => x == o
    case Denied(_, x, _, _, _, _) => x == o
    case Audited(_, kind, key, _) => key == o.key && kind != InterruptedRecovered
    case ClaimWon(_, c, _) => Carries(c, o)
    case Invoked(_, c) => Carries(c, o)
    case Answered(_, c, _, _) => Carries(c, o)
    case Stored(_, c, r) => Carries(c, o) && r.job == o.key.job && r.target == o.target && r.digest == o.digest
    case Returned(_, key, disposition, _) => key == o.key && disposition != Recovered
  }

  ghost predicate AllConcern(t: seq<Event>, call: nat, o: Offer) { forall e | e in t && e.call == call :: Concerns(e, o) }

  /** A result ends the call, and says executed exactly when this call won the claim. */
  ghost predicate Ended(t: seq<Event>, call: nat, pc: Pc) {
    forall e | e in t && e.call == call && e.Returned? ::
      (pc.Done? || pc.Failed?) && (e.disposition == Executed <==> Won(t, call))
  }

  ghost predicate OfferOk(w: World, call: nat, o: Offer) {
    && call < |w.calls| && Serves(w.calls[call], o, Won(w.trace, call))
    && AllConcern(w.trace, call, o) && Ended(w.trace, call, w.calls[call])
  }

  /** The call stays where it is, or stops, and none of its events is added. */
  lemma Stands(w: World, w': World, call: nat, o: Offer)
    requires OfferOk(w, call, o) && call < |w'.calls| && (w'.calls[call] == w.calls[call] || w'.calls[call] == Failed)
    requires w.trace <= w'.trace && forall e | e in w'.trace && e !in w.trace :: e.call != call
    ensures OfferOk(w', call, o)
  {
    assert forall e | e in w.trace :: e in w'.trace;
    assert Won(w.trace, call) <==> Won(w'.trace, call);
  }

  /** The call moves on without an event. */
  lemma Moves(w: World, call: nat, o: Offer, pc: Pc)
    requires OfferOk(w, call, o) && Serves(pc, o, Won(w.trace, call)) && !w.calls[call].Done? && !w.calls[call].Failed?
    ensures OfferOk(Goto(w, call, pc), call, o)
  {}

  /** The call moves on with one event of its own; a won claim and a result change what it may do next. */
  lemma Logs(w: World, call: nat, o: Offer, e: Event, pc: Pc)
    requires OfferOk(w, call, o) && e.call == call && Concerns(e, o) && !w.calls[call].Done? && !w.calls[call].Failed?
    requires Serves(pc, o, Won(w.trace, call) || e.ClaimWon?)
    requires e.Returned? ==> (pc.Done? && (e.disposition == Executed <==> Won(w.trace, call)))
    ensures OfferOk(Goto(Log(w, e), call, pc), call, o)
  {
    var t := w.trace + [e];
    assert forall x :: x in t <==> x in w.trace || x == e;
    assert Won(t, call) <==> Won(w.trace, call) || e.ClaimWon? by {
      if Won(w.trace, call) {
        var c: Claim, d :| ClaimWon(call, c, d) in w.trace;
        assert ClaimWon(call, c, d) in t;
      }
      if e.ClaimWon? { assert ClaimWon(call, e.claim, e.dispatching) in t; }
    }
  }

  lemma DecideServes(w: World, call: nat, o: Offer, now: nat, resolved: Result<Target, Failure>, authority: Result<Authority, Failure>)
    requires OfferOk(w, call, o)
    ensures OfferOk(DecideStep(w, call, now, resolved, authority), call, o)
  {
    hide Gate, OfferOk;
    assert Serves(w.calls[call], o, Won(w.trace, call)) by { Opened(w, call, o); }
    if w.calls[call].Gating? {
      match Gate(o, now, resolved, authority)
      case Expired => Moves(w, call, o, Failed);
      case Refuse(f) => Logs(w, call, o, Denied(call, o, now, resolved, authority, f), AuditingRejection(o, f, AuditComplete));
      case Dispatch(t, a) => Logs(w, call, o, Permitted(call, o, now, t, a), AuditingDispatch(o));
    }
  }

  lemma Opened(w: World, call: nat, o: Offer)
    requires OfferOk(w, call, o)
    ensures call < |w.calls| && Serves(w.calls[call], o, Won(w.trace, call))
  {}

  lemma AuditServes(w: World, call: nat, o: Offer, record: Option<string>)
    requires OfferOk(w, call, o)
    ensures OfferOk(AuditStep(w, call, record), call, o)
  {
    Opened(w, call, o);
    hide OfferOk, OutcomeDraft, Identifier, Won;
    if record.None? || Identifier(record.value) {
      match w.calls[call]
      case AuditingRejection(_, f, requested) =>
        if record.Some? {
          Logs(w, call, o, Audited(call, RejectedAtEdge(f), o.key, record.value), ClaimingRejection(o, f, record.value, requested));
        } else {
          Moves(w, call, o, ClaimingRejection(o, f, "audit-incomplete", AuditMissing));
        }
      case AuditingDispatch(_) =>
        if record.Some? {
          Logs(w, call, o, Audited(call, DispatchAuthorized, o.key, record.value), ClaimingDispatch(o, record.value));
        } else {
          Moves(w, call, o, AuditingRejection(o, AuditIncomplete, AuditMissing));
        }
      case AuditingOutcome(c, answer, evidence) =>
        var pc := Storing(c, OutcomeDraft(c, answer, evidence, record), Finish);
        if record.Some? {
          Logs(w, call, o, Audited(call, Outcome(answer), c.key, record.value), pc);
        } else {
          Moves(w, call, o, pc);
        }
      case _ =>
    }
  }

  lemma ClaimServes(w: World, call: nat, o: Offer)
    requires OfferOk(w, call, o)
    ensures OfferOk(ClaimStep(w, call), call, o)
  {
    Opened(w, call, o);
    hide OfferOk, Won;
    match w.calls[call]
    case ClaimingRejection(_, f, auditId, status) =>
      ClaimAsServes(w, call, o, auditId, false, Storing(ClaimOf(o, auditId), RejectionDraft(f, auditId, status), Finish));
    case ClaimingDispatch(_, auditId) => ClaimAsServes(w, call, o, auditId, true, Dispatching(ClaimOf(o, auditId)));
    case _ =>
  }

  lemma ClaimAsServes(w: World, call: nat, o: Offer, auditId: string, dispatching: bool, won: Pc)
    requires OfferOk(w, call, o) && !Won(w.trace, call) && Serves(won, o, true) && !w.calls[call].Done? && !w.calls[call].Failed?
    ensures OfferOk(ClaimAs(w, call, o, auditId, dispatching, won), call, o)
  {
    Opened(w, call, o);
    var c := ClaimOf(o, auditId);
    match ClaimJob(w.ledger, c).1
    case Claimed => Logs(w.(ledger := ClaimJob(w.ledger, c).0), call, o, ClaimWon(call, c, dispatching), won);
    case Existing(e) => Moves(w, call, o, Replaying(o, e));
    case DigestConflict => Moves(w, call, o, Failed);
  }

  lemma StoreServes(h: Receipt -> string, w: World, call: nat, o: Offer, id: string, now: nat)
    requires OfferOk(w, call, o)
    ensures OfferOk(StoreStep(h, w, call, id, now), call, o)
  {
    Opened(w, call, o);
    hide ReceiptValid, CompleteJob, Won;
    if w.calls[call].Storing? {
      var Storing(c, draft, after) := w.calls[call];
      var r := Build(c, draft, id, now);
      var (ledger, ok) := CompleteJob(h, w.ledger, c.key, c.digest, r);
      var w1 := w.(ledger := ledger);
      if !ReceiptValid(r) {
        Moves(w, call, o, Failed);
      } else if !ok {
        Moves(w1, call, o, Failed);
      } else {
        CompleteOnlySettles(h, w.ledger, c.key, c.digest, r);
        var e := Returned(call, c.key, Executed, r);
        if w.ledger.jobs[c.key].state.InProgress? {
          Logs(w1, call, o, Stored(call, c, r), w.calls[call]);
          assert w1.calls[call := w.calls[call]] == w1.calls;
          Logs(Log(w1, Stored(call, c, r)), call, o, e, Done);
        } else {
          Logs(w1, call, o, e, Done);
        }
      }
    }
  }

  lemma ReplayServes(h: Receipt -> string, w: World, call: nat, o: Offer)
    requires OfferOk(w, call, o)
    ensures OfferOk(ReplayStep(h, w, call), call, o)
  {
    Opened(w, call, o);
    hide RequeueJob, Won;
    match w.calls[call]
    case Replaying(_, e) =>
      var w1 := w.(ledger := RequeueJob(h, w.ledger, o.key).0);
      if e.digest != o.digest || e.state.InProgress? {
        Moves(w, call, o, Failed);
      } else if !RequeueJob(h, w.ledger, o.key).1 {
        Moves(w1, call, o, Failed);
      } else {
        Logs(w1, call, o, Returned(call, o.key, Replayed, e.state.receipt), Done);
      }
    case _ =>
  }

  /** The steps of the call itself. */
  lemma OwnStepServes(h: Receipt -> string, w: World, step: Step, call: nat, o: Offer)
    requires OfferOk(w, call, o) && Actor(step) == Some(call)
    ensures OfferOk(Apply(h, w, step), call, o)
  {
    Opened(w, call, o);
    hide OfferOk, Won, DecideStep, AuditStep, ClaimStep, StoreStep, ReplayStep, DigestText;
    match step
    case Find(_) =>
      if w.calls[call].Finding? { Moves(w, call, o, FindStep(w, call).calls[call]); }
    case Decide(_, now, resolved, authority) => DecideServes(w, call, o, now, resolved, authority);
    case Audit(_, record) => AuditServes(w, call, o, record);
    case TryClaim(_) => ClaimServes(w, call, o);
    case Invoke(_) =>
      if w.calls[call].Dispatching? { Logs(w, call, o, Invoked(call, w.calls[call].claim), Awaiting(w.calls[call].claim)); }
    case Answer(_, answer, evidence) =>
      if w.calls[call].Awaiting? && DigestText(evidence) {
        var c := w.calls[call].claim;
        Logs(w, call, o, Answered(call, c, answer, evidence), AuditingOutcome(c, answer, evidence));
      }
    case Store(_, id, now) => StoreServes(h, w, call, o, id, now);
    case Replay(_) => ReplayServes(h, w, call, o);
    case Drop(_) => Stands(w, Goto(w, call, Failed), call, o);
  }

  lemma StepServes(h: Receipt -> string, w: World, step: Step, call: nat, o: Offer)
    requires OfferOk(w, call, o)
    ensures OfferOk(Apply(h, w, step), call, o)
  {
    Opened(w, call, o);
    hide OfferOk, Serves;
    if Actor(step) == Some(call) {
      OwnStepServes(h, w, step, call, o);
    } else {
      TraceGrows(h, w, step);
      if !step.Crash? { OthersStand(h, w, step, call); }
      hide Apply;
      assert step.Crash? ==> |Apply(h, w, step).calls| == |w.calls| && Apply(h, w, step).calls[call] == Failed;
      Stands(w, Apply(h, w, step), call, o);
    }
  }

  lemma {:induction false} RunServes(h: Receipt -> string, w: World, steps: seq<Step>, call: nat, o: Offer)
    requires OfferOk(w, call, o)
    ensures OfferOk(Run(h, w, steps), call, o)
    decreases |steps|
  {
    hide Apply, OfferOk;
    if steps != [] {
      StepServes(h, w, steps[0], call, o);
      RunServes(h, Apply(h, w, steps[0]), steps[1..], call, o);
    }
  }

  /** A call begun with a valid offer at any point of any run audits, claims, invokes, stores and returns for that very
      offer and nothing else in every continuation: the claim and the invocation carry the offered value, the receipt the
      offered job, target and intent. It reports executed exactly if it won the claim itself, replayed otherwise. */
  lemma EveryEventIsForTheOffer(h: Receipt -> string, before: seq<Step>, o: Offer, after: seq<Step>)
    requires OfferValid(o)
    ensures var w := Run(h, INITIAL, before);
            var end := Run(h, Apply(h, w, Begin(o)), after);
            forall e | e in end.trace && e.call == |w.calls| ::
              && Concerns(e, o)
              && (e.Returned? ==> e.disposition == if Won(end.trace, |w.calls|) then Executed else Replayed)
  {
    InitialInv();
    RunKeeps(h, INITIAL, before);
    var w := Run(h, INITIAL, before);
    var begun := Apply(h, w, Begin(o));
    hide Run, Justified, Linked, AllPcOk, OfferValid;
    assert begun.calls == w.calls + [Finding(o)] && begun.trace == w.trace;
    assert forall e | e in w.trace :: e.call != |w.calls|;
    assert !Won(w.trace, |w.calls|);
    RunServes(h, begun, after, |w.calls|, o);
  }
}
