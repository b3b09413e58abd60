/** What a call that nothing disturbs does, step by step, from any state of the ledger: the provider is reached, refusals and
    replays are answered, and the receipt that ends up stored says what happened. */
module ControlPaths {
  import opened Outcomes
  import opened Identifiers
  import opened ControlTypes
  import opened ControlLedger
  import opened ControlProtocol
  import opened ControlSafety

  /** The receipt says how the provider ended, on this evidence; without an audit record of it, only that it is unknown. */
  predicate Reports(r: Receipt, c: Claim, answer: Answer, evidence: string, record: Option<string>) {
    && r.job == c.key.job && r.target == c.target && r.digest == c.digest && r.evidence == Some(evidence)
    && match record
       case None =>
         && r.stage == Unknown && r.decision == Undecided && r.failure == Some(AuditIncomplete)
         && r.auditId == c.auditId && r.auditStatus == AuditMissing
       case Some(id) =>
         && r.auditId == id && r.auditStatus == AuditComplete
         && match answer
            case Accepts => r.stage == ProviderAccepted && r.decision == Accepted && r.failure == None
            case Refuses => r.stage == ProviderRejected && r.decision == Rejected && r.failure == Some(ProviderRefused)
            case Uncertain => r.stage == Unknown && r.decision == Undecided && r.failure == Some(ProviderOutcomeUnknown)
            case TimedOut => r.stage == Unknown && r.decision == Undecided && r.failure == Some(ProviderTimeout)
  }

  /** The receipt says the offer was refused at the edge for this reason. */
  predicate RejectsAtEdge(r: Receipt, o: Offer, f: Failure, auditId: string, status: AuditStatus) {
    && r.job == o.key.job && r.target == o.target && r.digest == o.digest && r.stage == EdgeRejected && r.decision == Rejected
    && r.failure == Some(f) && r.evidence == None && r.auditId == auditId && r.auditStatus == status
  }

  predicate AuditAnswer(record: Option<string>) { record.Some? ==> Identifier(record.value) }

  /** The identifier source and the clock when a receipt is built, with room for it in the spool. */
  predicate CanStore(s: Ledger, id: string, at: nat) { Uuid(id) && at <= U64_MAX && id !in s.deliveries && 0 < s.next < U64_MAX }

  // ---------- building and storing ----------

  lemma BuiltValid(c: Claim, d: Draft, id: string, at: nat)
    requires ClaimValid(c) && DraftValid(d) && Uuid(id) && at <= U64_MAX
    ensures ReceiptValid(Build(c, d, id, at))
  {
    hide Uuid, DigestText, TargetValid, Identifier;
  }

  /** Storing a drafted receipt for a job in progress completes the job, queues the receipt and reports it. */
  lemma Stores(h: Receipt -> string, w: World, call: nat, id: string, at: nat)
    requires call < |w.calls| && w.calls[call].Storing? && CanStore(w.ledger, id, at)
    requires var Storing(c, d, after) := w.calls[call];
             && ClaimValid(c) && DraftValid(d) && c.key in w.ledger.jobs && w.ledger.jobs[c.key] == Entry(c.digest, InProgress(c))
    ensures var Storing(c, d, after) := w.calls[call];
            var r := Build(c, d, id, at);
            var end := Apply(h, w, Store(call, id, at));
            && end.ledger.jobs == w.ledger.jobs[c.key := Entry(c.digest, Complete(r))]
            && end.ledger.pending == w.ledger.pending[w.ledger.next := Delivery(w.ledger.next, BATCH_PREFIX + id, h(r), at, r)]
            && end.trace == w.trace + [Stored(call, c, r), Returned(call, c.key, if after.Finish? then Executed else Recovered, r)]
            && end.calls == w.calls[call := if after.Finish? then Done else Recovering(after.rest)]
  {
    var Storing(c, d, after) := w.calls[call];
    var r := Build(c, d, id, at);
    BuiltValid(c, d, id, at);
    CompleteIff(h, w.ledger, c.key, c.digest, r);
    hide ReceiptValid, CompleteJob, ClaimValid, DraftValid, Uuid;
    assert w.trace + [Stored(call, c, r)] + [Returned(call, c.key, if after.Finish? then Executed else Recovered, r)]
        == w.trace + [Stored(call, c, r), Returned(call, c.key, if after.Finish? then Executed else Recovered, r)];
  }

  lemma {:induction false} RunBoth(h: Receipt -> string, w: World, a: seq<Step>, b: seq<Step>)
    ensures Run(h, w, a + b) == Run(h, Run(h, w, a), b)
    decreases |a|
  {
    if a == [] {
      assert a + b == b;
    } else {
      assert (a + b)[1..] == a[1..] + b;
      RunBoth(h, Apply(h, w, a[0]), a[1..], b);
    }
  }

  lemma RunOne(h: Receipt -> string, w: World, s: Step)
    ensures Run(h, w, [s]) == Apply(h, w, s)
  {
    assert [s][1..] == [];
    assert Run(h, Apply(h, w, s), []) == Apply(h, w, s);
  }

  // ---------- up to the claim ----------

  const FULL := Authority(true, true, true, true)

  /** A new call on a free job stands before its gates. */
  lemma Arrives(h: Receipt -> string, w: World, o: Offer)
    requires OfferValid(o)
    ensures var call := |w.calls|;
            Run(h, w, [Begin(o), Find(call)]) ==
            w.(calls := w.calls + [if o.key in w.ledger.jobs then Replaying(o, w.ledger.jobs[o.key]) else Gating(o)])
  {
    var call := |w.calls|;
    hide OfferValid;
    RunBoth(h, w, [Begin(o)], [Find(call)]);
    RunOne(h, w, Begin(o));
    var w1 := w.(calls := w.calls + [Finding(o)]);
    RunOne(h, w1, Find(call));
    assert [Begin(o)] + [Find(call)] == [Begin(o), Find(call)];
    var pc := if o.key in w.ledger.jobs then Replaying(o, w.ledger.jobs[o.key]) else Gating(o);
    assert w1.calls[call := pc] == w.calls + [pc];
  }

  /** `w` is `from` after its call moved to `pc`, leaving these events and these jobs behind. */
  ghost predicate Reached(w: World, from: World, call: nat, pc: Pc, jobs: map<JobKey, Entry>, events: seq<Event>) {
    call < |from.calls| && w == World(from.ledger.(jobs := jobs), from.calls[call := pc], from.trace + events)
  }

  lemma Stays(w: World, from: World, call: nat, pc: Pc, jobs: map<JobKey, Entry>, events: seq<Event>, next: Pc)
    requires Reached(w, from, call, pc, jobs, events)
    ensures Reached(Goto(w, call, next), from, call, next, jobs, events)
  {}

  lemma Adds(w: World, from: World, call: nat, pc: Pc, jobs: map<JobKey, Entry>, events: seq<Event>, e: Event, next: Pc)
    requires Reached(w, from, call, pc, jobs, events)
    ensures Reached(Goto(Log(w, e), call, next), from, call, next, jobs, events + [e])
  {
    assert from.trace + events + [e] == from.trace + (events + [e]);
  }

  lemma Decides(h: Receipt -> string, w: World, call: nat, o: Offer, now: nat, resolved: Result<Target, Failure>,
                authority: Result<Authority, Failure>)
    requires call < |w.calls| && w.calls[call] == Gating(o)
    ensures var end := Apply(h, w, Decide(call, now, resolved, authority));
            if !(o.issuedAt <= now < o.expiresAt) then end == Goto(w, call, Failed)
            else if resolved == Ok(o.target) && authority == Ok(FULL) then
              end == Goto(Log(w, Permitted(call, o, now, o.target, FULL)), call, AuditingDispatch(o))
            else exists f :: RefusedFor(o, resolved, authority, f)
                   && end == Goto(Log(w, Denied(call, o, now, resolved, authority, f)), call, AuditingRejection(o, f, AuditComplete))
  {
    GateOpensIff(o, now, resolved, authority);
    if Gate(o, now, resolved, authority).Refuse? { GateRefusesIff(o, now, resolved, authority, Gate(o, now, resolved, authority).failure); }
    if Gate(o, now, resolved, authority).Expired? { GateRefusesIff(o, now, resolved, authority, TargetNotFound); }
    hide Gate, RefusedFor;
  }

  /** Cleared gates and an audited authorization win a free job and reach the provider with the offered value. */
  lemma Reaches(h: Receipt -> string, w: World, call: nat, o: Offer, now: nat, record: string)
    requires call < |w.calls| && w.calls[call] == Gating(o) && o.key !in w.ledger.jobs && o.issuedAt <= now < o.expiresAt && Identifier(record)
    ensures var c := Claim(o.key, o.digest, o.target, o.value, record);
            Reached(Run(h, w, [Decide(call, now, Ok(o.target), Ok(FULL)), Audit(call, Some(record)), TryClaim(call), Invoke(call)]), w, call,
                    Awaiting(c), w.ledger.jobs[o.key := Entry(o.digest, InProgress(c))],
                    [Permitted(call, o, now, o.target, FULL), Audited(call, DispatchAuthorized, o.key, record), ClaimWon(call, c, true),
                     Invoked(call, c)])
  {
    hide Identifier, Reached, Run;
    var c := Claim(o.key, o.digest, o.target, o.value, record);
    var e1, e2, e3 := Permitted(call, o, now, o.target, FULL), Audited(call, DispatchAuthorized, o.key, record), ClaimWon(call, c, true);
    var s1, s2, s3, s4 := Decide(call, now, Ok(o.target), Ok(FULL)), Audit(call, Some(record)), TryClaim(call), Invoke(call);
    assert [] + [e1] == [e1] && [e1] + [e2] == [e1, e2] && [e1, e2] + [e3] == [e1, e2, e3];
    assert [e1, e2, e3] + [Invoked(call, c)] == [e1, e2, e3, Invoked(call, c)];
    Decides(h, w, call, o, now, Ok(o.target), Ok(FULL));
    Begins(w, call, Gating(o));
    Adds(w, w, call, Gating(o), w.ledger.jobs, [], e1, AuditingDispatch(o));
    var w1 := Apply(h, w, s1);
    Audits(h, w1, w, call, o, w.ledger.jobs, [e1], record);
    var w2 := Apply(h, w1, s2);
    Wins(h, w2, w, call, o, [e1, e2], record);
    var w3 := Apply(h, w2, s3);
    Invokes(h, w3, w, call, c, w.ledger.jobs[o.key := Entry(o.digest, InProgress(c))], [e1, e2, e3]);
    hide Apply;
    FourSteps(h, w, s1, s2, s3, s4);
  }

  lemma Begins(w: World, call: nat, pc: Pc)
    requires call < |w.calls| && w.calls[call] == pc
    ensures Reached(w, w, call, pc, w.ledger.jobs, [])
  {
    assert w.calls[call := pc] == w.calls;
  }

  lemma Audits(h: Receipt -> string, w: World, from: World, call: nat, o: Offer, jobs: map<JobKey, Entry>, events: seq<Event>, record: string)
    requires Reached(w, from, call, AuditingDispatch(o), jobs, events) && Identifier(record)
    ensures Reached(Apply(h, w, Audit(call, Some(record))), from, call, ClaimingDispatch(o, record), jobs,
                    events + [Audited(call, DispatchAuthorized, o.key, record)])
  {
    hide Identifier;
    Adds(w, from, call, AuditingDispatch(o), jobs, events, Audited(call, DispatchAuthorized, o.key, record), ClaimingDispatch(o, record));
  }

  lemma Wins(h: Receipt -> string, w: World, from: World, call: nat, o: Offer, events: seq<Event>, record: string)
    requires Reached(w, from, call, ClaimingDispatch(o, record), from.ledger.jobs, events) && o.key !in from.ledger.jobs
    ensures var c := Claim(o.key, o.digest, o.target, o.value, record);
            Reached(Apply(h, w, TryClaim(call)), from, call, Dispatching(c), from.ledger.jobs[o.key := Entry(o.digest, InProgress(c))],
                    events + [ClaimWon(call, c, true)])
  {
    var c := Claim(o.key, o.digest, o.target, o.value, record);
    var jobs := from.ledger.jobs[o.key := Entry(o.digest, InProgress(c))];
    Adds(w.(ledger := from.ledger.(jobs := jobs)), from, call, ClaimingDispatch(o, record), jobs, events, ClaimWon(call, c, true), Dispatching(c));
  }

  lemma Invokes(h: Receipt -> string, w: World, from: World, call: nat, c: Claim, jobs: map<JobKey, Entry>, events: seq<Event>)
    requires Reached(w, from, call, Dispatching(c), jobs, events)
    ensures Reached(Apply(h, w, Invoke(call)), from, call, Awaiting(c), jobs, events + [Invoked(call, c)])
  {
    Adds(w, from, call, Dispatching(c), jobs, events, Invoked(call, c), Awaiting(c));
  }

  lemma FourSteps(h: Receipt -> string, w: World, s1: Step, s2: Step, s3: Step, s4: Step)
    ensures Run(h, w, [s1, s2, s3, s4]) == Apply(h, Apply(h, Apply(h, Apply(h, w, s1), s2), s3), s4)
  {
    hide Apply;
    TwoSteps(h, w, s1, s2);
    var w2 := Apply(h, Apply(h, w, s1), s2);
    TwoSteps(h, w2, s3, s4);
    RunBoth(h, w, [s1, s2], [s3, s4]);
    assert [s1, s2] + [s3, s4] == [s1, s2, s3, s4];
  }

  lemma TwoSteps(h: Receipt -> string, w: World, s1: Step, s2: Step)
    ensures Run(h, w, [s1, s2]) == Apply(h, Apply(h, w, s1), s2)
  {
    hide Apply;
    RunBoth(h, w, [s1], [s2]);
    assert [s1] + [s2] == [s1, s2];
    RunOne(h, w, s1);
    RunOne(h, Apply(h, w, s1), s2);
  }

  // ---------- the whole of a call ----------

  function OutcomeAudited(call: nat, answer: Answer, key: JobKey, outcome: Option<string>): seq<Event> {
    if outcome.Some? then [Audited(call, Outcome(answer), key, outcome.value)] else []
  }

  lemma Concludes(h: Receipt -> string, w: World, from: World, call: nat, c: Claim, jobs: map<JobKey, Entry>, events: seq<Event>, answer: Answer,
                  evidence: string, outcome: Option<string>)
    requires Reached(w, from, call, Awaiting(c), jobs, events) && DigestText(evidence) && AuditAnswer(outcome)
    ensures Reached(Run(h, w, [Answer(call, answer, evidence), Audit(call, outcome)]), from, call,
                    Storing(c, OutcomeDraft(c, answer, evidence, outcome), Finish), jobs,
                    events + [Answered(call, c, answer, evidence)] + OutcomeAudited(call, answer, c.key, outcome))
  {
    hide DigestText, Identifier, Reached, Run, OutcomeDraft;
    assert call < |w.calls| && w.calls[call] == Awaiting(c) by { Standing(w, from, call, Awaiting(c), jobs, events); }
    var e := Answered(call, c, answer, evidence);
    var pc := AuditingOutcome(c, answer, evidence);
    Adds(w, from, call, Awaiting(c), jobs, events, e, pc);
    var w1 := Apply(h, w, Answer(call, answer, evidence));
    Standing(w1, from, call, pc, jobs, events + [e]);
    var next := Storing(c, OutcomeDraft(c, answer, evidence, outcome), Finish);
    if outcome.Some? {
      Adds(w1, from, call, pc, jobs, events + [e], Audited(call, Outcome(answer), c.key, outcome.value), next);
    } else {
      Stays(w1, from, call, pc, jobs, events + [e], next);
      assert events + [e] + [] == events + [e];
    }
    TwoSteps(h, w, Answer(call, answer, evidence), Audit(call, outcome));
  }

  lemma Standing(w: World, from: World, call: nat, pc: Pc, jobs: map<JobKey, Entry>, events: seq<Event>)
    requires Reached(w, from, call, pc, jobs, events)
    ensures call < |w.calls| && w.calls[call] == pc && w.ledger == from.ledger.(jobs := jobs) && w.trace == from.trace + events
  {}

  lemma OutcomeReports(c: Claim, answer: Answer, evidence: string, outcome: Option<string>, id: string, at: nat)
    requires ClaimValid(c) && DigestText(evidence) && AuditAnswer(outcome)
    ensures DraftValid(OutcomeDraft(c, answer, evidence, outcome))
    ensures Reports(Build(c, OutcomeDraft(c, answer, evidence, outcome), id, at), c, answer, evidence, outcome)
  {
    ClaimAudited(c);
    hide Identifier, DigestText, ClaimValid;
  }

  /** The call that began after `w` is done: the job holds the receipt, which is pending at the next position, nothing else of the
      ledger's jobs changed, and the history gained these events and the stored and returned receipt. */
  ghost predicate Ends(h: Receipt -> string, end: World, w: World, c: Claim, r: Receipt, events: seq<Event>) {
    && end.ledger.jobs == w.ledger.jobs[c.key := Entry(c.digest, Complete(r))]
    && end.ledger.pending == w.ledger.pending[w.ledger.next := Delivery(w.ledger.next, BATCH_PREFIX + r.id, h(r), r.observedAt, r)]
    && end.calls == w.calls + [Done]
    && end.trace == w.trace + events + [Stored(|w.calls|, c, r), Returned(|w.calls|, c.key, Executed, r)]
  }

  lemma StoreEnds(h: Receipt -> string, w2: World, w: World, pc: Pc, c: Claim, d: Draft, events: seq<Event>, id: string, at: nat)
    requires Reached(w2, w.(calls := w.calls + [pc]), |w.calls|, Storing(c, d, Finish),
                     w.ledger.jobs[c.key := Entry(c.digest, InProgress(c))], events)
    requires ClaimValid(c) && DraftValid(d) && CanStore(w.ledger, id, at)
    ensures Ends(h, Run(h, w2, [Store(|w.calls|, id, at)]), w, c, Build(c, d, id, at), events)
  {
    var call := |w.calls|;
    hide ClaimValid, DraftValid, Uuid, Apply, Run;
    Stores(h, w2, call, id, at);
    RunOne(h, w2, Store(call, id, at));
    var jobs := w.ledger.jobs[c.key := Entry(c.digest, InProgress(c))];
    assert (w.calls + [pc])[call := Storing(c, d, Finish)][call := Done] == w.calls + [Done];
    assert jobs[c.key := Entry(c.digest, Complete(Build(c, d, id, at)))] == w.ledger.jobs[c.key := Entry(c.digest, Complete(Build(c, d, id, at)))];
  }

  lemma RunFour(h: Receipt -> string, w: World, a: seq<Step>, b: seq<Step>, d: seq<Step>, e: seq<Step>)
    ensures Run(h, w, a + b + d + e) == Run(h, Run(h, Run(h, Run(h, w, a), b), d), e)
  {
    hide Run;
    RunBoth(h, w, a + b + d, e);
    RunBoth(h, w, a + b, d);
    RunBoth(h, w, a, b);
  }

  function Cleared(call: nat, o: Offer, now: nat, record: string): seq<Step> {
    [Decide(call, now, Ok(o.target), Ok(FULL)), Audit(call, Some(record)), TryClaim(call), Invoke(call)]
  }

  /** An offer on a free job that clears every gate, whose authorization is audited, reaches the provider once and is answered:
      the history gains exactly these events, and the job ends with a pending receipt that says how the provider ended. */
  lemma DispatchPath(h: Receipt -> string, w: World, o: Offer, now: nat, record: string, answer: Answer, evidence: string,
                     outcome: Option<string>, id: string, at: nat) returns (r: Receipt)
    requires OfferValid(o) && o.key !in w.ledger.jobs && o.issuedAt <= now < o.expiresAt
    requires Identifier(record) && DigestText(evidence) && AuditAnswer(outcome) && CanStore(w.ledger, id, at)
    ensures var call, c := |w.calls|, Claim(o.key, o.digest, o.target, o.value, record);
            && Reports(r, c, answer, evidence, outcome) && r.id == id && r.observedAt == at
            && Ends(h, Run(h, w, [Begin(o), Find(call)] + Cleared(call, o, now, record) + [Answer(call, answer, evidence), Audit(call, outcome)]
                                 + [Store(call, id, at)]), w, c, r,
                    [Permitted(call, o, now, o.target, FULL), Audited(call, DispatchAuthorized, o.key, record), ClaimWon(call, c, true),
                     Invoked(call, c)]
                    + [Answered(call, c, answer, evidence)] + OutcomeAudited(call, answer, o.key, outcome))
  {
    var call, c := |w.calls|, Claim(o.key, o.digest, o.target, o.value, record);
    r := Build(c, OutcomeDraft(c, answer, evidence, outcome), id, at);
    OfferClaims(o, record);
    hide OfferValid, ClaimValid, Identifier, DigestText, Reached, Run, Apply, DraftValid, Reports, OutcomeDraft, OutcomeAudited, Uuid, Ends;
    var a, d, e := [Begin(o), Find(call)], [Answer(call, answer, evidence), Audit(call, outcome)], [Store(call, id, at)];
    RunFour(h, w, a, Cleared(call, o, now, record), d, e);
    Arrives(h, w, o);
    var from := w.(calls := w.calls + [Gating(o)]);
    Reaches(h, from, call, o, now, record);
    var w1 := Run(h, from, Cleared(call, o, now, record));
    var jobs := w.ledger.jobs[o.key := Entry(o.digest, InProgress(c))];
    var events := [Permitted(call, o, now, o.target, FULL), Audited(call, DispatchAuthorized, o.key, record), ClaimWon(call, c, true),
                   Invoked(call, c)];
    Concludes(h, w1, from, call, c, jobs, events, answer, evidence, outcome);
    OutcomeReports(c, answer, evidence, outcome, id, at);
    StoreEnds(h, Run(h, w1, d), w, Gating(o), c, OutcomeDraft(c, answer, evidence, outcome),
              events + [Answered(call, c, answer, evidence)] + OutcomeAudited(call, answer, o.key, outcome), id, at);
  }

  // ---------- refusals ----------

  function PlacedId(record: Option<string>): string { if record.Some? then record.value else "audit-incomplete" }

  function RefusalAudited(call: nat, f: Failure, key: JobKey, record: Option<string>): seq<Event> {
    if record.Some? then [Audited(call, RejectedAtEdge(f), key, record.value)] else []
  }

  lemma AuditsRefusal(h: Receipt -> string, w: World, from: World, call: nat, o: Offer, f: Failure, requested: AuditStatus,
                      jobs: map<JobKey, Entry>, events: seq<Event>, record: Option<string>)
    requires Reached(w, from, call, AuditingRejection(o, f, requested), jobs, events) && AuditAnswer(record)
    ensures Reached(Apply(h, w, Audit(call, record)), from, call,
                    ClaimingRejection(o, f, PlacedId(record), if record.Some? then requested else AuditMissing), jobs,
                    events + RefusalAudited(call, f, o.key, record))
  {
    hide Identifier, Reached;
    var pc := AuditingRejection(o, f, requested);
    Standing(w, from, call, pc, jobs, events);
    if record.Some? {
      Adds(w, from, call, pc, jobs, events, Audited(call, RejectedAtEdge(f), o.key, record.value), ClaimingRejection(o, f, record.value, requested));
    } else {
      Stays(w, from, call, pc, jobs, events, ClaimingRejection(o, f, "audit-incomplete", AuditMissing));
      assert events + [] == events;
    }
  }

  lemma WinsRefusal(h: Receipt -> string, w: World, from: World, call: nat, o: Offer, f: Failure, auditId: string, status: AuditStatus,
                    events: seq<Event>)
    requires Reached(w, from, call, ClaimingRejection(o, f, auditId, status), from.ledger.jobs, events) && o.key !in from.ledger.jobs
    ensures var c := Claim(o.key, o.digest, o.target, o.value, auditId);
            Reached(Apply(h, w, TryClaim(call)), from, call, Storing(c, RejectionDraft(f, auditId, status), Finish),
                    from.ledger.jobs[o.key := Entry(o.digest, InProgress(c))], events + [ClaimWon(call, c, false)])
  {
    hide RejectionDraft;
    var c := Claim(o.key, o.digest, o.target, o.value, auditId);
    var jobs := from.ledger.jobs[o.key := Entry(o.digest, InProgress(c))];
    Adds(w.(ledger := from.ledger.(jobs := jobs)), from, call, ClaimingRejection(o, f, auditId, status), jobs, events, ClaimWon(call, c, false),
         Storing(c, RejectionDraft(f, auditId, status), Finish));
  }

  lemma PlacedIdentifier(record: Option<string>)
    requires AuditAnswer(record)
    ensures Identifier(PlacedId(record))
  {
    AuditPlaceholder();
  }

  lemma RefusalSays(o: Offer, f: Failure, auditId: string, status: AuditStatus, id: string, at: nat)
    requires Identifier(auditId)
    ensures DraftValid(RejectionDraft(f, auditId, status))
    ensures var c := Claim(o.key, o.digest, o.target, o.value, auditId);
            RejectsAtEdge(Build(c, RejectionDraft(f, auditId, status), id, at), o, f, auditId, status)
  {
    hide Identifier;
  }

  /** Refusing an offer on a free job claims it, and stores and queues a rejection with that reason; the provider is not called. */
  lemma Refusal(h: Receipt -> string, w: World, w1: World, o: Offer, f: Failure, requested: AuditStatus, events: seq<Event>,
                record: Option<string>, id: string, at: nat) returns (r: Receipt)
    requires OfferValid(o) && o.key !in w.ledger.jobs && AuditAnswer(record) && CanStore(w.ledger, id, at)
    requires Reached(w1, w.(calls := w.calls + [Gating(o)]), |w.calls|, AuditingRejection(o, f, requested), w.ledger.jobs, events)
    ensures var call, c := |w.calls|, Claim(o.key, o.digest, o.target, o.value, PlacedId(record));
            && RejectsAtEdge(r, o, f, PlacedId(record), if record.Some? then requested else AuditMissing) && r.id == id && r.observedAt == at
            && Ends(h, Run(h, Run(h, w1, [Audit(call, record), TryClaim(call)]), [Store(call, id, at)]), w, c, r,
                    events + RefusalAudited(call, f, o.key, record) + [ClaimWon(call, c, false)])
  {
    var call, auditId, status := |w.calls|, PlacedId(record), if record.Some? then requested else AuditMissing;
    var c := Claim(o.key, o.digest, o.target, o.value, auditId);
    r := Build(c, RejectionDraft(f, auditId, status), id, at);
    PlacedIdentifier(record);
    OfferClaims(o, auditId);
    RefusalSays(o, f, auditId, status, id, at);
    hide OfferValid, ClaimValid, Identifier, Reached, Run, Apply, DraftValid, RejectsAtEdge, RejectionDraft, RefusalAudited, PlacedId, Uuid, Ends;
    var from := w.(calls := w.calls + [Gating(o)]);
    AuditsRefusal(h, w1, from, call, o, f, requested, w.ledger.jobs, events, record);
    var w2 := Apply(h, w1, Audit(call, record));
    WinsRefusal(h, w2, from, call, o, f, auditId, status, events + RefusalAudited(call, f, o.key, record));
    TwoSteps(h, w1, Audit(call, record), TryClaim(call));
    StoreEnds(h, Apply(h, w2, TryClaim(call)), w, Gating(o), c, RejectionDraft(f, auditId, status),
              events + RefusalAudited(call, f, o.key, record) + [ClaimWon(call, c, false)], id, at);
  }

  /** An offer on a free job that a gate refuses inside its window ends with a pending rejection that names the gate's reason. */
  lemma RefusalPath(h: Receipt -> string, w: World, o: Offer, now: nat, resolved: Result<Target, Failure>, authority: Result<Authority, Failure>,
                    f: Failure, record: Option<string>, id: string, at: nat) returns (r: Receipt)
    requires OfferValid(o) && o.key !in w.ledger.jobs && o.issuedAt <= now < o.expiresAt && RefusedFor(o, resolved, authority, f)
    requires AuditAnswer(record) && CanStore(w.ledger, id, at)
    ensures var call, c := |w.calls|, Claim(o.key, o.digest, o.target, o.value, PlacedId(record));
            && RejectsAtEdge(r, o, f, PlacedId(record), if record.Some? then AuditComplete else AuditMissing) && r.id == id && r.observedAt == at
            && Ends(h, Run(h, w, [Begin(o), Find(call)] + [Decide(call, now, resolved, authority)] + [Audit(call, record), TryClaim(call)]
                                 + [Store(call, id, at)]), w, c, r,
                    [Denied(call, o, now, resolved, authority, f)] + RefusalAudited(call, f, o.key, record) + [ClaimWon(call, c, false)])
  {
    var call := |w.calls|;
    GateRefusesIff(o, now, resolved, authority, f);
    var from := w.(calls := w.calls + [Gating(o)]);
    var e := Denied(call, o, now, resolved, authority, f);
    assert Apply(h, from, Decide(call, now, resolved, authority)) == Goto(Log(from, e), call, AuditingRejection(o, f, AuditComplete));
    hide OfferValid, Identifier, Reached, Run, Apply, RejectsAtEdge, RefusalAudited, PlacedId, Uuid, Ends, RefusedFor, Gate;
    Begins(from, call, Gating(o));
    Adds(from, from, call, Gating(o), w.ledger.jobs, [], e, AuditingRejection(o, f, AuditComplete));
    assert [] + [e] == [e];
    Arrives(h, w, o);
    RunOne(h, from, Decide(call, now, resolved, authority));
    RunFour(h, w, [Begin(o), Find(call)], [Decide(call, now, resolved, authority)], [Audit(call, record), TryClaim(call)], [Store(call, id, at)]);
    r := Refusal(h, w, Apply(h, from, Decide(call, now, resolved, authority)), o, f, AuditComplete, [e], record, id, at);
  }

  /** A cleared offer whose authorization cannot be audited is refused for that; its receipt never claims a complete audit. */
  lemma UnauditedPath(h: Receipt -> string, w: World, o: Offer, now: nat, record: Option<string>, id: string, at: nat) returns (r: Receipt)
    requires OfferValid(o) && o.key !in w.ledger.jobs && o.issuedAt <= now < o.expiresAt && AuditAnswer(record) && CanStore(w.ledger, id, at)
    ensures var call, c := |w.calls|, Claim(o.key, o.digest, o.target, o.value, PlacedId(record));
            && RejectsAtEdge(r, o, AuditIncomplete, PlacedId(record), AuditMissing) && r.id == id && r.observedAt == at
            && Ends(h, Run(h, w, [Begin(o), Find(call)] + [Decide(call, now, Ok(o.target), Ok(FULL)), Audit(call, None)]
                                 + [Audit(call, record), TryClaim(call)] + [Store(call, id, at)]), w, c, r,
                    [Permitted(call, o, now, o.target, FULL)] + RefusalAudited(call, AuditIncomplete, o.key, record) + [ClaimWon(call, c, false)])
  {
    var call := |w.calls|;
    var from := w.(calls := w.calls + [Gating(o)]);
    var s1, s2, e := Decide(call, now, Ok(o.target), Ok(FULL)), Audit(call, None), Permitted(call, o, now, o.target, FULL);
    Decides(h, from, call, o, now, Ok(o.target), Ok(FULL));
    var w1 := Goto(Log(from, e), call, AuditingDispatch(o));
    assert Apply(h, w1, s2) == Goto(w1, call, AuditingRejection(o, AuditIncomplete, AuditMissing));
    hide OfferValid, Identifier, Reached, Run, Apply, RejectsAtEdge, RefusalAudited, PlacedId, Uuid, Ends;
    Begins(from, call, Gating(o));
    Adds(from, from, call, Gating(o), w.ledger.jobs, [], e, AuditingDispatch(o));
    assert [] + [e] == [e];
    Stays(w1, from, call, AuditingDispatch(o), w.ledger.jobs, [e], AuditingRejection(o, AuditIncomplete, AuditMissing));
    Arrives(h, w, o);
    TwoSteps(h, from, s1, s2);
    RunFour(h, w, [Begin(o), Find(call)], [s1, s2], [Audit(call, record), TryClaim(call)], [Store(call, id, at)]);
    r := Refusal(h, w, Apply(h, w1, s2), o, AuditIncomplete, AuditMissing, [e], record, id, at);
  }

  // ---------- offers that change nothing ----------

  /** Outside its window an offer on a free job fails without a trace. */
  lemma ExpiredPath(h: Receipt -> string, w: World, o: Offer, now: nat, resolved: Result<Target, Failure>, authority: Result<Authority, Failure>)
    requires OfferValid(o) && o.key !in w.ledger.jobs && !(o.issuedAt <= now < o.expiresAt)
    ensures var call := |w.calls|;
            Run(h, w, [Begin(o), Find(call)] + [Decide(call, now, resolved, authority)]) == w.(calls := w.calls + [Failed])
  {
    var call := |w.calls|;
    var from := w.(calls := w.calls + [Gating(o)]);
    Decides(h, from, call, o, now, resolved, authority);
    hide OfferValid, Run, Apply, RefusedFor;
    Arrives(h, w, o);
    RunOne(h, from, Decide(call, now, resolved, authority));
    RunBoth(h, w, [Begin(o), Find(call)], [Decide(call, now, resolved, authority)]);
    assert from.calls[call := Failed] == w.calls + [Failed];
  }

  lemma Replays(h: Receipt -> string, w: World, call: nat, o: Offer, entry: Entry)
    requires call < |w.calls| && w.calls[call] == Replaying(o, entry)
    ensures var end := Apply(h, w, Replay(call));
            if entry.digest == o.digest && entry.state.Complete? then
              var (ledger, ok) := RequeueJob(h, w.ledger, o.key);
              end == if ok then Goto(Log(w.(ledger := ledger), Returned(call, o.key, Replayed, entry.state.receipt)), call, Done)
                     else Goto(w.(ledger := ledger), call, Failed)
            else end == Goto(w, call, Failed)
  {
    hide RequeueJob;
  }

  /** A repeated offer is answered from the ledger: a complete job with the same digest is requeued and returns its stored
      receipt, any other fails; no job changes either way. */
  lemma ReplayPath(h: Receipt -> string, w: World, o: Offer)
    requires OfferValid(o) && o.key in w.ledger.jobs
    ensures var call, entry := |w.calls|, w.ledger.jobs[o.key];
            var end := Run(h, w, [Begin(o), Find(call)] + [Replay(call)]);
            if entry.digest == o.digest && entry.state.Complete? then
              var (ledger, ok) := RequeueJob(h, w.ledger, o.key);
              && end.ledger == ledger && end.calls == w.calls + [if ok then Done else Failed]
              && end.trace == w.trace + if ok then [Returned(call, o.key, Replayed, entry.state.receipt)] else []
            else end == w.(calls := w.calls + [Failed])
  {
    var call, entry := |w.calls|, w.ledger.jobs[o.key];
    var from := w.(calls := w.calls + [Replaying(o, entry)]);
    assert from.calls[call := Done] == w.calls + [Done] && from.calls[call := Failed] == w.calls + [Failed];
    assert w.trace + [] == w.trace;
    hide OfferValid, Run, RequeueJob, Apply;
    Arrives(h, w, o);
    Replays(h, from, call, o, entry);
    RunOne(h, from, Replay(call));
    RunBoth(h, w, [Begin(o), Find(call)], [Replay(call)]);
  }

  /** A call that loses the claim falls back to the stored entry, or fails on another digest, and changes nothing. */
  lemma LostClaim(h: Receipt -> string, w: World, call: nat, o: Offer)
    requires call < |w.calls| && o.key in w.ledger.jobs
    requires (w.calls[call].ClaimingDispatch? || w.calls[call].ClaimingRejection?) && w.calls[call].offer == o
    ensures Apply(h, w, TryClaim(call)) ==
            Goto(w, call, if w.ledger.jobs[o.key].digest == o.digest then Replaying(o, w.ledger.jobs[o.key]) else Failed)
  {}

  // ---------- recovery ----------

  /** One turn of recovery audits the first claim, completes it with an interrupted receipt and goes on with the rest. */
  lemma RecoveryTurn(h: Receipt -> string, w: World, call: nat, todo: seq<Claim>, record: Option<string>, id: string, at: nat) returns (r: Receipt)
    requires call < |w.calls| && todo != [] && w.calls[call] == Recovering(todo) && ClaimValid(todo[0])
    requires todo[0].key in w.ledger.jobs && w.ledger.jobs[todo[0].key] == Entry(todo[0].digest, InProgress(todo[0]))
    requires AuditAnswer(record) && CanStore(w.ledger, id, at)
    ensures var c, end := todo[0], Run(h, w, [Audit(call, record), Store(call, id, at)]);
            && r.job == c.key.job && r.id == id && r.target == c.target && r.digest == c.digest && r.observedAt == at
            && r.stage == Unknown && r.decision == Undecided && r.failure == Some(Interrupted) && r.evidence == None
            && r.auditId == (if record.Some? then record.value else c.auditId)
            && r.auditStatus == (if record.Some? then AuditComplete else AuditMissing)
            && end.ledger.jobs == w.ledger.jobs[c.key := Entry(c.digest, Complete(r))]
            && end.calls == w.calls[call := Recovering(todo[1..])]
            && end.trace == w.trace + (if record.Some? then [Audited(call, InterruptedRecovered, c.key, record.value)] else [])
                 + [Stored(call, c, r), Returned(call, c.key, Recovered, r)]
  {
    var c := todo[0];
    ClaimAudited(c);
    var d := if record.Some? then RecoveryDraft(record.value, AuditComplete) else RecoveryDraft(c.auditId, AuditMissing);
    r := Build(c, d, id, at);
    var pc := Storing(c, d, Continue(todo[1..]));
    var w1 := if record.Some? then Goto(Log(w, Audited(call, InterruptedRecovered, c.key, record.value)), call, pc) else Goto(w, call, pc);
    assert w.trace + [] == w.trace;
    hide Identifier, Uuid, DigestText, Run, ClaimValid;
    assert Apply(h, w, Audit(call, record)) == w1;
    assert DraftValid(d);
    assert w.calls[call := pc][call := Recovering(todo[1..])] == w.calls[call := Recovering(todo[1..])];
    hide Apply, DraftValid;
    Stores(h, w1, call, id, at);
    TwoSteps(h, w, Audit(call, record), Store(call, id, at));
  }
}
