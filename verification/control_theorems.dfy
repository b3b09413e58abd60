/** The promises of the job machine, over every run from the empty ledger and every continuation of one. */
module ControlTheorems {
  import opened Outcomes
  import opened Identifiers
  import opened ControlTypes
  import opened ControlLedger
  import opened ControlProtocol
  import opened ControlSafety

  // ---------------------------------------------------------------- the invariant holds in every run

  lemma OfferBegins(w: World, o: Offer)
    requires Inv(w) && OfferValid(o)
    ensures Inv(w.(calls := w.calls + [Finding(o)]))
  {
    assert NotYet(w.trace, |w.calls|);
    hide Inv, OfferValid, NotYet;
    BeginKeeps(w, Finding(o));
  }

  lemma RecoveryBegins(w: World, claims: seq<Claim>)
    requires Inv(w) && Listed(w.ledger.jobs, claims)
    ensures Inv(w.(calls := w.calls + [Recovering(claims)]))
  {
    forall i | 0 <= i < |claims| ensures HasClaim(w.trace, claims[i]) && ClaimValid(claims[i]) {
      assert EntryOk(w.trace, claims[i].key, w.ledger.jobs[claims[i].key]);
    }
    assert Claims(w.trace, claims);
    hide Inv, Listed, Claims;
    BeginKeeps(w, Recovering(claims));
  }

  lemma AckKeeps(w: World, ack: Ack)
    requires Inv(w)
    ensures Inv(w.(ledger := AcknowledgeThrough(w.ledger, ack).0))
  {
    assert AcknowledgeThrough(w.ledger, ack).0.jobs == w.ledger.jobs;
    hide Justified, Linked, AllPcOk, AcknowledgeThrough;
  }

  lemma CrashKeeps(w: World)
    requires Inv(w)
    ensures Inv(w.(calls := AllFailed(|w.calls|)))
  {
    hide Justified, Linked;
  }

  lemma StepKeeps(h: Receipt -> string, w: World, step: Step)
    requires Inv(w)
    ensures Inv(Apply(h, w, step))
  {
    hide Inv, FindStep, DecideStep, AuditStep, ClaimStep, InvokeStep, AnswerStep, StoreStep, ReplayStep, RequeueJob,
      AcknowledgeThrough, OfferValid, Listed;
    match step
    case Begin(o) => if OfferValid(o) { OfferBegins(w, o); }
    case BeginRecovery(claims) => if Listed(w.ledger.jobs, claims) { RecoveryBegins(w, claims); }
    case Find(call) => if call < |w.calls| { FindKeeps(w, call); }
    case Decide(call, now, resolved, authority) => if call < |w.calls| { DecideKeeps(w, call, now, resolved, authority); }
    case Audit(call, record) => if call < |w.calls| { AuditKeeps(w, call, record); }
    case TryClaim(call) => if call < |w.calls| { ClaimKeeps(w, call); }
    case Invoke(call) => if call < |w.calls| { InvokeKeeps(w, call); }
    case Answer(call, answer, evidence) => if call < |w.calls| { AnswerKeeps(w, call, answer, evidence); }
    case Store(call, id, now) => if call < |w.calls| { StoreKeeps(h, w, call, id, now); }
    case Replay(call) => if call < |w.calls| { ReplayKeeps(h, w, call); }
    case Republish(key) => Republished(h, w, key);
    case Acknowledge(ack) => AckKeeps(w, ack);
    case Drop(call) => if call < |w.calls| { Finished(w, call, Failed); }
    case Crash => CrashKeeps(w);
  }

  lemma {:induction false} RunKeeps(h: Receipt -> string, w: World, steps: seq<Step>)
    requires Inv(w)
    ensures Inv(Run(h, w, steps))
    decreases |steps|
  {
    hide Inv, Apply;
    if steps != [] {
      StepKeeps(h, w, steps[0]);
      RunKeeps(h, Apply(h, w, steps[0]), steps[1..]);
    }
  }

  lemma InitialInv()
    ensures Inv(INITIAL)
  {}

  // ---------------------------------------------------------------- at most one dispatch

  /** The provider is invoked at most once per job, always with the claimed target and value, and only by the call
      that won the claim after its own dispatch authorization was audited. */
  ghost predicate DispatchedOnce(t: seq<Event>) {
    && (forall i, j | 0 <= i < j < |t| && t[i].Invoked? && t[j].Invoked? :: t[i].claim.key != t[j].claim.key)
    && (forall i | 0 <= i < |t| && t[i].Invoked? :: AuthorizedBefore(t, i))
  }

  /** Before position `i` the same call cleared every local gate, had its authorization audited, and then won the claim,
      all for the offer whose target and value it dispatches. */
  ghost predicate AuthorizedBefore(t: seq<Event>, i: nat)
    requires i < |t| && t[i].Invoked?
  {
    exists p: nat, a: nat, b: nat ::
      && p < b && a < b < i
      && PermitFor(t[p], t[i].call, t[i].claim)
      && t[a] == Audited(t[i].call, DispatchAuthorized, t[i].claim.key, t[i].claim.auditId)
      && t[b] == ClaimWon(t[i].call, t[i].claim, true)
  }

  /** A gate passage inside the execution window, on the offered target, with all four local authorities. */
  predicate PermitFor(e: Event, call: nat, c: Claim) {
    && e.Permitted? && e.call == call
    && c.key == e.offer.key && c.digest == e.offer.digest && c.target == e.offer.target && c.value == e.offer.value
    && e.offer.issuedAt <= e.now < e.offer.expiresAt
    && e.target == e.offer.target
    && e.authority == Authority(true, true, true, true)
  }

  lemma IndexIn(t: seq<Event>, i: nat, e: Event) returns (j: nat)
    requires i <= |t| && e in t[..i]
    ensures j < i && t[j] == e
  {
    j :| 0 <= j < i && t[..i][j] == e;
  }

  lemma AuthorizedAt(t: seq<Event>, i: nat)
    requires Justified(t) && i < |t| && t[i].Invoked?
    ensures AuthorizedBefore(t, i)
    ensures !KeyInvoked(t[..i], t[i].claim.key)
  {
    JustifiedAt(t, i);
    hide Justified, KeyInvoked, KeyClaimed;
    var b := IndexIn(t, i, ClaimWon(t[i].call, t[i].claim, true));
    JustifiedAt(t, b);
    var a := IndexIn(t, b, Audited(t[i].call, DispatchAuthorized, t[i].claim.key, t[i].claim.auditId));
    var o :| HasPermit(t[..b], t[i].call, o) && Carries(t[i].claim, o);
    var now, target, authority :| Permitted(t[i].call, o, now, target, authority) in t[..b];
    var p := IndexIn(t, b, Permitted(t[i].call, o, now, target, authority));
    JustifiedAt(t, p);
    assert PermitFor(t[p], t[i].call, t[i].claim);
  }

  lemma JustifiedDispatchesOnce(t: seq<Event>)
    requires Justified(t)
    ensures DispatchedOnce(t)
  {
    hide Justified, AuthorizedBefore;
    forall i | 0 <= i < |t| && t[i].Invoked? ensures AuthorizedBefore(t, i) { AuthorizedAt(t, i); }
    forall i, j | 0 <= i < j < |t| && t[i].Invoked? && t[j].Invoked? ensures t[i].claim.key != t[j].claim.key {
      AuthorizedAt(t, j);
      assert t[i] == t[..j][i];
    }
  }

  lemma AtMostOneDispatch(h: Receipt -> string, steps: seq<Step>)
    ensures DispatchedOnce(Run(h, INITIAL, steps).trace)
  {
    InitialInv();
    RunKeeps(h, INITIAL, steps);
    hide Run, Linked, AllPcOk, Justified, DispatchedOnce;
    JustifiedDispatchesOnce(Run(h, INITIAL, steps).trace);
  }

  // ---------------------------------------------------------------- agreement

  lemma {:induction false} UniqueStored(t: seq<Event>, a: Event, b: Event)
    requires Justified(t) && a in t && b in t && a.Stored? && b.Stored? && a.claim.key == b.claim.key
    ensures a == b
    decreases |t|
  {
    hide Truthful, ReceiptValid, HasStored, HasClaim, Identifier, KeyInvoked, KeyAnswered, KeyClaimed;
    var front, last := t[..|t| - 1], t[|t| - 1];
    assert t == front + [last];
    if a in front && b in front { UniqueStored(front, a, b); }
  }

  lemma ReturnedWasStored(t: seq<Event>, i: nat)
    requires Justified(t) && i < |t| && t[i].Returned?
    ensures HasStored(t, t[i].key, t[i].receipt)
  {
    JustifiedAt(t, i);
    hide Justified;
    var call, c: Claim :| Stored(call, c, t[i].receipt) in t[..i] && c.key == t[i].key;
    assert Stored(call, c, t[i].receipt) in t;
  }

  /** All successful results for one job carry the identical receipt, whoever reports them and however they race. */
  lemma Agreement(h: Receipt -> string, steps: seq<Step>)
    ensures var t := Run(h, INITIAL, steps).trace;
            forall i, j | 0 <= i < |t| && 0 <= j < |t| && t[i].Returned? && t[j].Returned? && t[i].key == t[j].key ::
              t[i].receipt == t[j].receipt
  {
    InitialInv();
    RunKeeps(h, INITIAL, steps);
    hide Run, Linked, AllPcOk, Justified;
    var t := Run(h, INITIAL, steps).trace;
    forall i, j | 0 <= i < |t| && 0 <= j < |t| && t[i].Returned? && t[j].Returned? && t[i].key == t[j].key
      ensures t[i].receipt == t[j].receipt
    {
      ReturnedWasStored(t, i);
      ReturnedWasStored(t, j);
      var ci, c: Claim :| Stored(ci, c, t[i].receipt) in t && c.key == t[i].key;
      var cj, d: Claim :| Stored(cj, d, t[j].receipt) in t && d.key == t[j].key;
      UniqueStored(t, Stored(ci, c, t[i].receipt), Stored(cj, d, t[j].receipt));
    }
  }

  /** A job's claim and digest binding are never undone, and once it is complete it never changes again. */
  ghost predicate JobsGrow(before: map<JobKey, Entry>, after: map<JobKey, Entry>) {
    forall key | key in before ::
      && key in after && after[key].digest == before[key].digest
      && (before[key].state.Complete? ==> after[key] == before[key])
      && (after[key].state.InProgress? ==> after[key] == before[key])
  }

  lemma StoreGrows(h: Receipt -> string, w: World, call: nat, id: string, now: nat)
    requires call < |w.calls|
    ensures JobsGrow(w.ledger.jobs, StoreStep(h, w, call, id, now).ledger.jobs)
  {
    hide ReceiptValid, CompleteJob;
    if w.calls[call].Storing? {
      var c := w.calls[call].claim;
      CompleteOnlySettles(h, w.ledger, c.key, c.digest, Build(c, w.calls[call].draft, id, now));
    }
  }

  lemma ReplayGrows(h: Receipt -> string, w: World, call: nat)
    requires call < |w.calls|
    ensures ReplayStep(h, w, call).ledger.jobs == w.ledger.jobs
  {
    hide RequeueJob;
    if w.calls[call].Replaying? { RequeueTouchesNoJob(h, w.ledger, w.calls[call].offer.key); }
  }

  lemma StepGrows(h: Receipt -> string, w: World, step: Step)
    ensures JobsGrow(w.ledger.jobs, Apply(h, w, step).ledger.jobs)
  {
    hide StoreStep, ReplayStep, RequeueJob, Identifier, OfferValid, Listed, DigestText;
    match step
    case Store(call, id, now) => if call < |w.calls| { StoreGrows(h, w, call, id, now); }
    case Replay(call) => if call < |w.calls| { ReplayGrows(h, w, call); }
    case Republish(key) => RequeueTouchesNoJob(h, w.ledger, key);
    case _ =>
  }

  lemma {:induction false} RunGrows(h: Receipt -> string, w: World, steps: seq<Step>)
    ensures JobsGrow(w.ledger.jobs, Run(h, w, steps).ledger.jobs)
    decreases |steps|
  {
    hide Apply;
    if steps != [] {
      StepGrows(h, w, steps[0]);
      RunGrows(h, Apply(h, w, steps[0]), steps[1..]);
    }
  }

  // ---------------------------------------------------------------- truthful receipts

  lemma {:induction false} StoredWasTruthful(t: seq<Event>, call: nat, c: Claim, r: Receipt)
    requires Justified(t) && Stored(call, c, r) in t
    ensures Truthful(t, call, c, DraftOf(r)) && ReceiptValid(r)
    ensures r.job == c.key.job && r.target == c.target && r.digest == c.digest
    decreases |t|
  {
    hide Truthful, ReceiptValid, HasStored, HasClaim, Identifier, KeyInvoked, KeyAnswered, KeyClaimed, KeyStored;
    var front, last := t[..|t| - 1], t[|t| - 1];
    assert t == front + [last];
    if Stored(call, c, r) in front { StoredWasTruthful(front, call, c, r); }
    MoreTruthful(front, last, call, c, DraftOf(r));
  }

  lemma StoredFor(w: World, key: JobKey) returns (call: nat, c: Claim)
    requires Inv(w) && key in w.ledger.jobs && w.ledger.jobs[key].state.Complete?
    ensures var r := w.ledger.jobs[key].state.receipt;
            && c.key == key && Stored(call, c, r) in w.trace && Truthful(w.trace, call, c, DraftOf(r)) && ReceiptValid(r)
            && r.job == key.job && r.target == c.target && r.digest == c.digest
  {
    var r := w.ledger.jobs[key].state.receipt;
    assert EntryOk(w.trace, key, w.ledger.jobs[key]);
    hide Truthful, ReceiptValid, Justified, AllPcOk, Linked;
    call, c :| Stored(call, c, r) in w.trace && c.key == key;
    StoredWasTruthful(w.trace, call, c, r);
  }

  /** A job whose stored receipt says rejected at the edge has never reached the provider. */
  lemma RejectedMeansUncalled(w: World, key: JobKey)
    requires Inv(w) && key in w.ledger.jobs && w.ledger.jobs[key].state.Complete?
    requires w.ledger.jobs[key].state.receipt.stage == EdgeRejected
    ensures !KeyInvoked(w.trace, key)
  {
    var call, c := StoredFor(w, key);
    assert ClaimWon(call, c, false) in w.trace;
    hide Justified, AllPcOk, Linked, ReceiptValid, Truthful;
    if KeyInvoked(w.trace, key) {
      var e :| e in w.trace && e.Invoked? && e.claim.key == key;
      InvokedWasClaimed(w.trace, e.call, e.claim);
      UniqueClaim(w.trace, ClaimWon(call, c, false), ClaimWon(e.call, e.claim, true));
      assert false;
    }
  }

  /** Rejected at the edge: the provider was never called for the job and in no continuation ever will be. */
  lemma RejectedNeverCalled(h: Receipt -> string, before: seq<Step>, after: seq<Step>, key: JobKey)
    requires var w := Run(h, INITIAL, before);
             key in w.ledger.jobs && w.ledger.jobs[key].state.Complete? && w.ledger.jobs[key].state.receipt.stage == EdgeRejected
    ensures var w := Run(h, INITIAL, before);
            !KeyInvoked(w.trace, key) && !KeyInvoked(Run(h, w, after).trace, key)
  {
    InitialInv();
    RunKeeps(h, INITIAL, before);
    var w := Run(h, INITIAL, before);
    RunKeeps(h, w, after);
    RunGrows(h, w, after);
    hide Inv, Run, KeyInvoked;
    RejectedMeansUncalled(w, key);
    RejectedMeansUncalled(Run(h, w, after), key);
  }

  /** The provider answer a receipt reports, if it reports one. */
  function ProviderSaid(r: Receipt): Option<Answer> {
    match r.stage
    case ProviderAccepted => Some(Accepts)
    case ProviderRejected => Some(Refuses)
    case Unknown =>
      if r.failure == Some(ProviderTimeout) then Some(TimedOut)
      else if r.failure == Some(ProviderOutcomeUnknown) then Some(Uncertain)
      else None
    case _ => None
  }

  /** The history holds exactly one invocation for the job, answered with `answer` on this evidence, and the answer was audited. */
  ghost predicate CalledOnceWith(t: seq<Event>, key: JobKey, answer: Answer, evidence: Option<string>, auditId: string) {
    exists call, c: Claim ::
      && c.key == key && evidence.Some?
      && Invoked(call, c) in t && Answered(call, c, answer, evidence.value) in t
      && Audited(call, Outcome(answer), key, auditId) in t
      && (forall e | e in t && e.Invoked? && e.claim.key == key :: e == Invoked(call, c))
  }

  lemma SoleInvocation(t: seq<Event>, call: nat, c: Claim)
    requires Justified(t) && Invoked(call, c) in t
    ensures forall e | e in t && e.Invoked? && e.claim.key == c.key :: e == Invoked(call, c)
  {
    hide Justified;
    InvokedWasClaimed(t, call, c);
    forall e | e in t && e.Invoked? && e.claim.key == c.key ensures e == Invoked(call, c) {
      InvokedWasClaimed(t, e.call, e.claim);
      UniqueClaim(t, ClaimWon(call, c, true), ClaimWon(e.call, e.claim, true));
    }
  }

  lemma ReportedWasCalled(t: seq<Event>, call: nat, c: Claim, r: Receipt)
    requires Justified(t) && Truthful(t, call, c, DraftOf(r)) && ProviderSaid(r).Some?
    ensures r.auditStatus == AuditComplete && CalledOnceWith(t, c.key, ProviderSaid(r).value, r.evidence, r.auditId)
  {
    hide Justified;
    assert Reported(t, call, c, ProviderSaid(r).value, DraftOf(r));
    AnsweredWasInvoked(t, call, c, ProviderSaid(r).value, r.evidence.value);
    SoleInvocation(t, call, c);
  }

  /** A stored receipt that reports a provider answer, an elapsed deadline included, means the provider was called exactly
      once and ended that way, on the reported evidence, and that this was audited under the reported record. */
  lemma VerdictsAreTrue(h: Receipt -> string, steps: seq<Step>, key: JobKey)
    requires var w := Run(h, INITIAL, steps);
             key in w.ledger.jobs && w.ledger.jobs[key].state.Complete? && ProviderSaid(w.ledger.jobs[key].state.receipt).Some?
    ensures var w := Run(h, INITIAL, steps);
            var r := w.ledger.jobs[key].state.receipt;
            && ReceiptValid(r) && r.auditStatus == AuditComplete
            && CalledOnceWith(w.trace, key, ProviderSaid(r).value, r.evidence, r.auditId)
  {
    hide Run, ReceiptValid, Truthful, Linked, Justified, AllPcOk, CalledOnceWith, ProviderSaid;
    InitialInv();
    RunKeeps(h, INITIAL, steps);
    var w := Run(h, INITIAL, steps);
    var call, c := StoredFor(w, key);
    ReportedWasCalled(w.trace, call, c, w.ledger.jobs[key].state.receipt);
  }

  /** A stored unknown outcome says why: a recovery closed the claim, the provider's answer could not be audited, or the
      provider left it open. */
  lemma UnknownsAreTrue(h: Receipt -> string, steps: seq<Step>, key: JobKey)
    requires var w := Run(h, INITIAL, steps);
             key in w.ledger.jobs && w.ledger.jobs[key].state.Complete? && w.ledger.jobs[key].state.receipt.stage == Unknown
    ensures var w := Run(h, INITIAL, steps);
            exists call, c: Claim :: c.key == key && Unsettled(w.trace, call, c, DraftOf(w.ledger.jobs[key].state.receipt))
  {
    hide Run, ReceiptValid, Unsettled, Linked, Justified, AllPcOk;
    InitialInv();
    RunKeeps(h, INITIAL, steps);
    var call, c := StoredFor(Run(h, INITIAL, steps), key);
  }

  /** Inside the execution window of the offer the call met a gate that refuses it for reason `f`. */
  ghost predicate GateRefused(t: seq<Event>, call: nat, o: Offer, f: Failure) {
    exists now: nat, resolved, granted ::
      Denied(call, o, now, resolved, granted, f) in t && o.issuedAt <= now < o.expiresAt && RefusedFor(o, resolved, granted, f)
  }

  /** The call refused the offer locally for the failure the receipt reports: at a gate, or because the dispatch it had
      cleared could not be audited. The receipt is about the offered job, target and intent. */
  ghost predicate RefusedLocally(t: seq<Event>, call: nat, o: Offer, r: Receipt) {
    && r.failure.Some? && r.job == o.key.job && r.target == o.target && r.digest == o.digest
    && (GateRefused(t, call, o, r.failure.value) || (r.failure.value == AuditIncomplete && HasPermit(t, call, o)))
    && (r.auditStatus == AuditComplete ==> Audited(call, RejectedAtEdge(r.failure.value), o.key, r.auditId) in t)
  }

  lemma {:induction false} DeniedWasRefused(t: seq<Event>, e: Event)
    requires Justified(t) && e in t && e.Denied?
    ensures e.offer.issuedAt <= e.now < e.offer.expiresAt && RefusedFor(e.offer, e.resolved, e.granted, e.failure)
    decreases |t|
  {
    hide Truthful, ReceiptValid, HasStored, HasClaim, Identifier, KeyInvoked, KeyAnswered, KeyStored, KeyClaimed, ClaimRefused,
      ClaimPermitted, RefusedFor;
    var front, last := t[..|t| - 1], t[|t| - 1];
    assert t == front + [last];
    if e in front { DeniedWasRefused(front, e); }
  }

  lemma DenialWasGate(t: seq<Event>, call: nat, o: Offer, f: Failure)
    requires Justified(t) && HasDenial(t, call, o, f)
    ensures GateRefused(t, call, o, f)
  {
    hide Justified, RefusedFor;
    var now, resolved, granted :| Denied(call, o, now, resolved, granted, f) in t;
    DeniedWasRefused(t, Denied(call, o, now, resolved, granted, f));
  }

  lemma RejectedWasRefused(t: seq<Event>, call: nat, c: Claim, r: Receipt) returns (o: Offer)
    requires Justified(t) && r.stage == EdgeRejected && Truthful(t, call, c, DraftOf(r))
    requires r.job == c.key.job && r.target == c.target && r.digest == c.digest
    ensures o.key == c.key && RefusedLocally(t, call, o, r)
  {
    hide Justified, HasDenial, HasPermit, GateRefused;
    o :| Refusable(t, call, o, r.failure.value) && Carries(c, o);
    if HasDenial(t, call, o, r.failure.value) { DenialWasGate(t, call, o, r.failure.value); }
  }

  /** A stored rejection at the edge reports the reason its own call refused the offer for. */
  lemma RejectionsAreTrue(h: Receipt -> string, steps: seq<Step>, key: JobKey)
    requires var w := Run(h, INITIAL, steps);
             key in w.ledger.jobs && w.ledger.jobs[key].state.Complete? && w.ledger.jobs[key].state.receipt.stage == EdgeRejected
    ensures var w := Run(h, INITIAL, steps);
            exists call, o: Offer :: o.key == key && RefusedLocally(w.trace, call, o, w.ledger.jobs[key].state.receipt)
  {
    hide Run, ReceiptValid, Truthful, RefusedLocally, Linked, Justified, AllPcOk;
    InitialInv();
    RunKeeps(h, INITIAL, steps);
    var w := Run(h, INITIAL, steps);
    var call, c := StoredFor(w, key);
    var o := RejectedWasRefused(w.trace, call, c, w.ledger.jobs[key].state.receipt);
  }

  /** No path drafts a tuple that the receipt checks refuse, so building a receipt never fails in any run. */
  lemma EveryDraftPasses(h: Receipt -> string, steps: seq<Step>, call: nat, id: string, now: nat)
    requires var w := Run(h, INITIAL, steps); call < |w.calls| && w.calls[call].Storing?
    requires Uuid(id) && now <= U64_MAX
    ensures var pc := Run(h, INITIAL, steps).calls[call];
            ReceiptValid(Build(pc.claim, pc.draft, id, now))
  {
    InitialInv();
    RunKeeps(h, INITIAL, steps);
    hide Run, Inv, Truthful, HasClaim, Uuid, DigestText, Identifier;
    At(Run(h, INITIAL, steps), call);
  }

  // ---------------------------------------------------------------- the spool under the protocol

  /** No two completions of the run are given the same receipt id. */
  ghost predicate NeverReused(used: set<string>, steps: seq<Step>)
    decreases |steps|
  {
    steps != [] ==>
      && (steps[0].Store? ==> steps[0].id !in used)
      && NeverReused(if steps[0].Store? then used + {steps[0].id} else used, steps[1..])
  }

  lemma StoreSpools(h: Receipt -> string, w: World, call: nat, id: string, now: nat)
    requires call < |w.calls| && SpoolInv(h, w.ledger) && Gapless(w.ledger) && id !in w.ledger.deliveries
    ensures var s := StoreStep(h, w, call, id, now).ledger;
            SpoolInv(h, s) && Gapless(s) && s.deliveries.Keys <= w.ledger.deliveries.Keys + {id}
  {
    hide SpoolInv, Gapless, ReceiptValid;
    if w.calls[call].Storing? {
      var c := w.calls[call].claim;
      var r := Build(c, w.calls[call].draft, id, now);
      if ReceiptValid(r) { CompleteFresh(h, w.ledger, c.key, c.digest, r); }
    }
  }

  lemma ClaimSpools(h: Receipt -> string, w: World, call: nat)
    requires call < |w.calls| && SpoolInv(h, w.ledger) && Gapless(w.ledger)
    ensures var s := ClaimStep(w, call).ledger;
            SpoolInv(h, s) && Gapless(s) && s.deliveries == w.ledger.deliveries
  {
    hide SpoolInv, Gapless;
    match w.calls[call]
    case ClaimingRejection(o, f, auditId, status) => ClaimKeepsSpool(h, w.ledger, ClaimOf(o, auditId));
    case ClaimingDispatch(o, auditId) => ClaimKeepsSpool(h, w.ledger, ClaimOf(o, auditId));
    case _ =>
  }

  lemma ReplaySpools(h: Receipt -> string, w: World, call: nat)
    requires call < |w.calls| && SpoolInv(h, w.ledger) && Gapless(w.ledger)
    ensures var s := ReplayStep(h, w, call).ledger;
            SpoolInv(h, s) && Gapless(s) && s.deliveries.Keys == w.ledger.deliveries.Keys
  {
    hide SpoolInv, Gapless, RequeueJob;
    if w.calls[call].Replaying? { RequeueKeepsSpool(h, w.ledger, w.calls[call].offer.key); }
  }

  lemma StepSpools(h: Receipt -> string, w: World, step: Step)
    requires SpoolInv(h, w.ledger) && Gapless(w.ledger)
    requires step.Store? ==> step.id !in w.ledger.deliveries
    ensures var s := Apply(h, w, step).ledger;
            && SpoolInv(h, s) && Gapless(s)
            && s.deliveries.Keys <= w.ledger.deliveries.Keys + (if step.Store? then {step.id} else {})
  {
    hide SpoolInv, Gapless, StoreStep, ReplayStep, ClaimStep, RequeueJob, AcknowledgeThrough, OfferValid, Listed, Identifier;
    match step
    case Store(call, id, now) => if call < |w.calls| { StoreSpools(h, w, call, id, now); }
    case TryClaim(call) => if call < |w.calls| { ClaimSpools(h, w, call); }
    case Replay(call) => if call < |w.calls| { ReplaySpools(h, w, call); }
    case Republish(key) => RequeueKeepsSpool(h, w.ledger, key);
    case Acknowledge(ack) => AcknowledgeKeepsSpool(h, w.ledger, ack);
    case _ =>
  }

  /** With fresh receipt ids, every run keeps the receipt spool exact and gap-free. */
  lemma {:induction false} RunSpools(h: Receipt -> string, w: World, steps: seq<Step>, used: set<string>)
    requires SpoolInv(h, w.ledger) && Gapless(w.ledger) && w.ledger.deliveries.Keys <= used && NeverReused(used, steps)
    ensures SpoolInv(h, Run(h, w, steps).ledger) && Gapless(Run(h, w, steps).ledger)
    decreases |steps|
  {
    hide Apply, SpoolInv, Gapless;
    if steps != [] {
      StepSpools(h, w, steps[0]);
      RunSpools(h, Apply(h, w, steps[0]), steps[1..], if steps[0].Store? then used + {steps[0].id} else used);
    }
  }
}
