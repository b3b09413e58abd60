/** Invariants of the job machine over every interleaving. */
module ControlSafety {
  import opened Outcomes
  import opened Identifiers
  import opened ControlTypes
  import opened ControlLedger
  import opened ControlProtocol

  // ---------------------------------------------------------------- what justifies an event

  ghost predicate HasClaim(t: seq<Event>, c: Claim) { exists call, dispatching :: ClaimWon(call, c, dispatching) in t }

  ghost predicate HasStored(t: seq<Event>, key: JobKey, r: Receipt) {
    exists call, c: Claim :: Stored(call, c, r) in t && c.key == key
  }

  ghost predicate KeyClaimed(t: seq<Event>, key: JobKey) { exists e :: e in t && e.ClaimWon? && e.claim.key == key }
  ghost predicate KeyInvoked(t: seq<Event>, key: JobKey) { exists e :: e in t && e.Invoked? && e.claim.key == key }
  ghost predicate KeyAnswered(t: seq<Event>, key: JobKey) { exists e :: e in t && e.Answered? && e.claim.key == key }
  ghost predicate KeyStored(t: seq<Event>, key: JobKey) { exists e :: e in t && e.Stored? && e.claim.key == key }

  /** The call cleared every local gate for this very offer. */
  ghost predicate HasPermit(t: seq<Event>, call: nat, o: Offer) {
    exists now, target, authority :: Permitted(call, o, now, target, authority) in t
  }

  /** The call was refused this very offer by a local gate, for reason `f`. */
  ghost predicate HasDenial(t: seq<Event>, call: nat, o: Offer, f: Failure) {
    exists now, resolved, authority :: Denied(call, o, now, resolved, authority, f) in t
  }

  /** The claim is for the offered job, intent, target and value. */
  predicate Carries(c: Claim, o: Offer) {
    c.key == o.key && c.digest == o.digest && c.target == o.target && c.value == o.value
  }

  ghost predicate ClaimPermitted(t: seq<Event>, call: nat, c: Claim) {
    exists o :: HasPermit(t, call, o) && Carries(c, o)
  }

  /** Why the call may reject the offer locally: a gate refused it, or its dispatch could not be audited. */
  ghost predicate Refusable(t: seq<Event>, call: nat, o: Offer, f: Failure) {
    HasDenial(t, call, o, f) || (f == AuditIncomplete && HasPermit(t, call, o))
  }

  ghost predicate ClaimRefused(t: seq<Event>, call: nat, c: Claim, f: Failure) {
    exists o :: Refusable(t, call, o, f) && Carries(c, o)
  }

  /** The first local gate that does not let the offer through names the failure. */
  predicate RefusedFor(o: Offer, resolved: Result<Target, Failure>, authority: Result<Authority, Failure>, f: Failure) {
    || resolved == Err(f)
    || (resolved.Ok? && resolved.value != o.target && f == TargetNotFound)
    || (resolved == Ok(o.target) && authority == Err(f))
    || (resolved == Ok(o.target) && authority.Ok? && MissingAuthority(authority.value, f))
  }

  /** Commissioning is asked for first, then delegation, permission and confirmation. */
  predicate MissingAuthority(a: Authority, f: Failure) {
    || (f == NotCommissioned && !a.commissioned)
    || (f == DelegationDenied && a.commissioned && !a.delegated)
    || (f == PolicyDenied && a.commissioned && a.delegated && !a.permission)
    || (f == ConfirmationInvalid && a.commissioned && a.delegated && a.permission && !a.confirmation)
  }

  /** The provider gave this answer with this evidence, and the answer was audited under this record. */
  ghost predicate Reported(t: seq<Event>, call: nat, c: Claim, answer: Answer, d: Draft) {
    && d.evidence.Some? && Answered(call, c, answer, d.evidence.value) in t
    && Audited(call, Outcome(answer), c.key, d.auditId) in t && d.auditStatus == AuditComplete
  }

  /** What an unknown outcome asserts: a recovery closed the claim, the answer could not be audited, or the provider left it open. */
  ghost predicate Unsettled(t: seq<Event>, call: nat, c: Claim, d: Draft) {
    || (&& d.failure == Some(Interrupted) && d.evidence.None? && HasClaim(t, c)
        && (if d.auditStatus == AuditComplete then Audited(call, InterruptedRecovered, c.key, d.auditId) in t else d.auditId == c.auditId))
    || (&& d.failure == Some(AuditIncomplete) && d.auditStatus == AuditMissing && d.auditId == c.auditId && d.evidence.Some?
        && exists a :: Answered(call, c, a, d.evidence.value) in t)
    || (d.failure == Some(ProviderTimeout) && Reported(t, call, c, TimedOut, d))
    || (d.failure == Some(ProviderOutcomeUnknown) && Reported(t, call, c, Uncertain, d))
  }

  /** What a stage asserts about the world, read off the events of the call that reports it. */
  ghost predicate Truthful(t: seq<Event>, call: nat, c: Claim, d: Draft) {
    match d.stage
    case EdgeAccepted => false
    case EdgeRejected =>
      && ClaimWon(call, c, false) in t
      && d.failure.Some? && ClaimRefused(t, call, c, d.failure.value)
      && (if d.auditStatus == AuditComplete then Audited(call, RejectedAtEdge(d.failure.value), c.key, d.auditId) in t
          else d.auditId == "audit-incomplete" || d.failure.value == AuditIncomplete)
    case ProviderAccepted => Reported(t, call, c, Accepts, d)
    case ProviderRejected => Reported(t, call, c, Refuses, d)
    case Unknown => Unsettled(t, call, c, d)
  }

  /** `e` may follow the history `t`. */
  ghost predicate JustifiedBy(t: seq<Event>, e: Event) {
    match e
    case Permitted(call, o, now, target, authority) =>
      o.issuedAt <= now < o.expiresAt && target == o.target && authority == Authority(true, true, true, true)
    case Denied(call, o, now, resolved, authority, f) => o.issuedAt <= now < o.expiresAt && RefusedFor(o, resolved, authority, f)
    case Audited(call, kind, key, record) =>
      Identifier(record) && (kind.Outcome? ==> exists c: Claim, ev :: Answered(call, c, kind.answer, ev) in t && c.key == key)
    case ClaimWon(call, c, dispatching) =>
      && !KeyClaimed(t, c.key)
      && (if dispatching then Audited(call, DispatchAuthorized, c.key, c.auditId) in t && ClaimPermitted(t, call, c)
          else exists f :: ClaimRefused(t, call, c, f))
    case Invoked(call, c) => ClaimWon(call, c, true) in t && !KeyInvoked(t, c.key)
    case Answered(call, c, answer, evidence) => Invoked(call, c) in t && !KeyAnswered(t, c.key)
    case Stored(call, c, r) =>
      && HasClaim(t, c) && !KeyStored(t, c.key)
      && r.job == c.key.job && r.target == c.target && r.digest == c.digest
      && ReceiptValid(r) && Truthful(t, call, c, DraftOf(r))
    case Returned(call, key, disposition, r) => HasStored(t, key, r)
  }

  ghost predicate Justified(t: seq<Event>) {
    t != [] ==> Justified(t[..|t| - 1]) && JustifiedBy(t[..|t| - 1], t[|t| - 1])
  }

  lemma Snoc(t: seq<Event>, e: Event)
    requires Justified(t) && JustifiedBy(t, e)
    ensures Justified(t + [e])
  {
    hide JustifiedBy;
    assert (t + [e])[..|t|] == t;
  }

  /** Every event of a justified history is justified by the events before it. */
  lemma {:induction false} JustifiedAt(t: seq<Event>, i: nat)
    requires Justified(t) && i < |t|
    ensures JustifiedBy(t[..i], t[i])
    decreases |t|
  {
    hide JustifiedBy;
    var front := t[..|t| - 1];
    if i < |front| {
      JustifiedAt(front, i);
      assert front[..i] == t[..i];
    } else {
      assert t[..i] == front;
    }
  }

  // ---------------------------------------------------------------- state and history agree

  /** Call `call` has not reached the provider. */
  ghost predicate NotYet(t: seq<Event>, call: nat) {
    && (forall c: Claim :: Invoked(call, c) !in t)
    && (forall c: Claim, a, ev :: Answered(call, c, a, ev) !in t)
  }

  ghost predicate Claims(t: seq<Event>, cs: seq<Claim>) { forall i | 0 <= i < |cs| :: HasClaim(t, cs[i]) && ClaimValid(cs[i]) }

  predicate DraftValid(d: Draft) {
    && StageTable(d.stage, d.decision, d.failure, d.evidence)
    && Identifier(d.auditId)
    && (d.evidence.Some? ==> DigestText(d.evidence.value))
  }

  ghost predicate PcOk(t: seq<Event>, call: nat, pc: Pc) {
    match pc
    case Finding(o) => OfferValid(o) && NotYet(t, call)
    case Gating(o) => OfferValid(o) && NotYet(t, call)
    case Replaying(o, e) => OfferValid(o) && (e.state.Complete? ==> HasStored(t, o.key, e.state.receipt))
    case AuditingRejection(o, f, requested) =>
      OfferValid(o) && Refusable(t, call, o, f) && (requested == AuditMissing ==> f == AuditIncomplete)
    case ClaimingRejection(o, f, auditId, status) =>
      && OfferValid(o) && Identifier(auditId) && Refusable(t, call, o, f)
      && (if status == AuditComplete then Audited(call, RejectedAtEdge(f), o.key, auditId) in t
          else auditId == "audit-incomplete" || f == AuditIncomplete)
    case AuditingDispatch(o) => OfferValid(o) && NotYet(t, call) && HasPermit(t, call, o)
    case ClaimingDispatch(o, auditId) =>
      OfferValid(o) && HasPermit(t, call, o) && Identifier(auditId) && Audited(call, DispatchAuthorized, o.key, auditId) in t && NotYet(t, call)
    case Dispatching(c) => ClaimValid(c) && ClaimWon(call, c, true) in t && NotYet(t, call)
    case Awaiting(c) => ClaimValid(c) && Invoked(call, c) in t && forall c': Claim, a, ev :: Answered(call, c', a, ev) !in t
    case AuditingOutcome(c, answer, evidence) =>
      ClaimValid(c) && Answered(call, c, answer, evidence) in t && HasClaim(t, c) && DigestText(evidence)
    case Storing(c, d, after) =>
      && ClaimValid(c) && HasClaim(t, c) && DraftValid(d) && Truthful(t, call, c, d)
      && (after.Continue? ==> Claims(t, after.rest))
    case Recovering(todo) => Claims(t, todo)
    case Done => true
    case Failed => true
  }

  ghost predicate AllPcOk(t: seq<Event>, calls: seq<Pc>) { forall i: nat | i < |calls| :: PcOk(t, i, calls[i]) }

  ghost predicate EntryOk(t: seq<Event>, key: JobKey, e: Entry) {
    match e.state
    case InProgress(c) => c.key == key && c.digest == e.digest && HasClaim(t, c) && ClaimValid(c)
    case Complete(r) => r.digest == e.digest && HasStored(t, key, r)
  }

  ghost predicate Recorded(jobs: map<JobKey, Entry>, e: Event) {
    && (e.ClaimWon? ==> e.claim.key in jobs && jobs[e.claim.key].digest == e.claim.digest
                        && (jobs[e.claim.key].state.InProgress? ==> jobs[e.claim.key].state.claim == e.claim))
    && (e.Stored? ==> e.claim.key in jobs && jobs[e.claim.key].state == Complete(e.receipt))
  }

  ghost predicate Linked(jobs: map<JobKey, Entry>, t: seq<Event>) {
    && (forall key | key in jobs :: EntryOk(t, key, jobs[key]))
    && (forall e | e in t :: Recorded(jobs, e))
  }

  /** Every event belongs to one of the first `n` calls. */
  ghost predicate Numbered(t: seq<Event>, n: nat) { forall e | e in t :: e.call < n }

  ghost predicate Inv(w: World) {
    Justified(w.trace) && Linked(w.ledger.jobs, w.trace) && AllPcOk(w.trace, w.calls) && Numbered(w.trace, |w.calls|)
  }

  // ---------------------------------------------------------------- facts only accumulate

  lemma MoreTruthful(t: seq<Event>, e: Event, call: nat, c: Claim, d: Draft)
    requires Truthful(t, call, c, d)
    ensures Truthful(t + [e], call, c, d)
  {
    assert forall x :: x in t ==> x in t + [e];
    hide HasClaim, ClaimRefused;
    if HasClaim(t, c) { MoreClaims(t, e, c); }
    if d.evidence.Some? {
      if a :| Answered(call, c, a, d.evidence.value) in t { assert Answered(call, c, a, d.evidence.value) in t + [e]; }
    }
    if d.failure.Some? {
      if ClaimRefused(t, call, c, d.failure.value) { MoreRefused(t, e, call, c, d.failure.value); }
    }
  }

  lemma MoreRefusals(t: seq<Event>, e: Event, call: nat, o: Offer, f: Failure)
    requires Refusable(t, call, o, f)
    ensures Refusable(t + [e], call, o, f)
  {
    if HasDenial(t, call, o, f) {
      var now, resolved, authority :| Denied(call, o, now, resolved, authority, f) in t;
      assert Denied(call, o, now, resolved, authority, f) in t + [e];
    } else {
      MorePermits(t, e, call, o);
    }
  }

  lemma MoreRefused(t: seq<Event>, e: Event, call: nat, c: Claim, f: Failure)
    requires ClaimRefused(t, call, c, f)
    ensures ClaimRefused(t + [e], call, c, f)
  {
    hide Refusable;
    var o :| Refusable(t, call, o, f) && Carries(c, o);
    MoreRefusals(t, e, call, o, f);
  }

  lemma MoreClaims(t: seq<Event>, e: Event, c: Claim)
    requires HasClaim(t, c)
    ensures HasClaim(t + [e], c)
  {
    var call, dispatching :| ClaimWon(call, c, dispatching) in t;
    assert ClaimWon(call, c, dispatching) in t + [e];
  }

  lemma MorePermits(t: seq<Event>, e: Event, call: nat, o: Offer)
    requires HasPermit(t, call, o)
    ensures HasPermit(t + [e], call, o)
  {
    var now, target, authority :| Permitted(call, o, now, target, authority) in t;
    assert Permitted(call, o, now, target, authority) in t + [e];
  }

  lemma MoreStored(t: seq<Event>, e: Event, key: JobKey, r: Receipt)
    requires HasStored(t, key, r)
    ensures HasStored(t + [e], key, r)
  {
    var call, c: Claim :| Stored(call, c, r) in t && c.key == key;
    assert Stored(call, c, r) in t + [e];
  }

  lemma MoreClaimed(t: seq<Event>, e: Event, cs: seq<Claim>)
    requires Claims(t, cs)
    ensures Claims(t + [e], cs)
  {
    hide ClaimValid, HasClaim;
    forall i | 0 <= i < |cs| ensures HasClaim(t + [e], cs[i]) { MoreClaims(t, e, cs[i]); }
  }

  /** An event of another call, or one that does not reach the provider, leaves a call's facts intact. */
  lemma PcKeeps(t: seq<Event>, e: Event, call: nat, pc: Pc)
    requires PcOk(t, call, pc)
    requires e.call != call || (!e.Invoked? && !e.Answered?)
    ensures PcOk(t + [e], call, pc)
  {
    hide OfferValid, ClaimValid, Identifier, DigestText, DraftValid, Truthful, HasClaim, HasStored, Claims, HasPermit, Refusable;
    assert forall x :: x in t + [e] <==> x in t || x == e;
    match pc
    case AuditingRejection(o, f, requested) => MoreRefusals(t, e, call, o, f);
    case ClaimingRejection(o, f, auditId, status) => MoreRefusals(t, e, call, o, f);
    case Replaying(o, en) => if en.state.Complete? { MoreStored(t, e, o.key, en.state.receipt); }
    case AuditingDispatch(o) => MorePermits(t, e, call, o);
    case ClaimingDispatch(o, auditId) => MorePermits(t, e, call, o);
    case AuditingOutcome(c, answer, evidence) => MoreClaims(t, e, c);
    case Storing(c, d, after) =>
      MoreClaims(t, e, c);
      MoreTruthful(t, e, call, c, d);
      if after.Continue? { MoreClaimed(t, e, after.rest); }
    case Recovering(todo) => MoreClaimed(t, e, todo);
    case _ =>
  }

  lemma LinkedKeeps(jobs: map<JobKey, Entry>, t: seq<Event>, e: Event)
    requires Linked(jobs, t) && Recorded(jobs, e)
    ensures Linked(jobs, t + [e])
  {
    hide HasClaim, HasStored, ClaimValid, Recorded;
    forall key | key in jobs ensures EntryOk(t + [e], key, jobs[key]) {
      assert EntryOk(t, key, jobs[key]);
      match jobs[key].state
      case InProgress(c) => MoreClaims(t, e, c);
      case Complete(r) => MoreStored(t, e, key, r);
    }
  }

  /** One call moves to `pc` while the history gains at most one event of its own. */
  lemma MovesTo(t: seq<Event>, e: Event, calls: seq<Pc>, call: nat, pc: Pc)
    requires AllPcOk(t, calls) && call < |calls| && e.call == call && PcOk(t + [e], call, pc)
    ensures AllPcOk(t + [e], calls[call := pc])
  {
    hide PcOk;
    var calls' := calls[call := pc];
    forall i: nat | i < |calls'| ensures PcOk(t + [e], i, calls'[i]) {
      if i != call { PcKeeps(t, e, i, calls[i]); }
    }
  }

  /** Claims are unique per key, so a call that won the claim and has not invoked knows nobody has. */
  lemma {:induction false} UniqueClaim(t: seq<Event>, a: Event, b: Event)
    requires Justified(t) && a in t && b in t && a.ClaimWon? && b.ClaimWon? && a.claim.key == b.claim.key
    ensures a == b
    decreases |t|
  {
    hide Truthful, ReceiptValid, HasStored, HasClaim, Identifier, KeyInvoked, KeyAnswered, KeyStored;
    var front, last := t[..|t| - 1], t[|t| - 1];
    assert t == front + [last];
    if a in front && b in front { UniqueClaim(front, a, b); }
  }

  lemma {:induction false} InvokedWasClaimed(t: seq<Event>, call: nat, c: Claim)
    requires Justified(t) && Invoked(call, c) in t
    ensures ClaimWon(call, c, true) in t
    decreases |t|
  {
    hide Truthful, ReceiptValid, HasStored, HasClaim, Identifier, KeyInvoked, KeyAnswered, KeyStored, KeyClaimed;
    var front, last := t[..|t| - 1], t[|t| - 1];
    assert t == front + [last];
    if Invoked(call, c) in front { InvokedWasClaimed(front, call, c); }
  }

  lemma {:induction false} AnsweredWasInvoked(t: seq<Event>, call: nat, c: Claim, a: Answer, ev: string)
    requires Justified(t) && Answered(call, c, a, ev) in t
    ensures Invoked(call, c) in t
    decreases |t|
  {
    hide Truthful, ReceiptValid, HasStored, HasClaim, Identifier, KeyInvoked, KeyAnswered, KeyStored, KeyClaimed;
    var front, last := t[..|t| - 1], t[|t| - 1];
    assert t == front + [last];
    if Answered(call, c, a, ev) in front { AnsweredWasInvoked(front, call, c, a, ev); }
  }

  lemma SoleInvoker(t: seq<Event>, call: nat, c: Claim)
    requires Justified(t) && ClaimWon(call, c, true) in t && NotYet(t, call)
    ensures !KeyInvoked(t, c.key)
  {
    hide Justified;
    if KeyInvoked(t, c.key) {
      var e :| e in t && e.Invoked? && e.claim.key == c.key;
      InvokedWasClaimed(t, e.call, e.claim);
      UniqueClaim(t, ClaimWon(call, c, true), ClaimWon(e.call, e.claim, true));
      assert false;
    }
  }

  lemma SoleAnswer(t: seq<Event>, call: nat, c: Claim)
    requires Justified(t) && Invoked(call, c) in t && forall c': Claim, a, ev :: Answered(call, c', a, ev) !in t
    ensures !KeyAnswered(t, c.key)
  {
    hide Justified;
    if KeyAnswered(t, c.key) {
      var e :| e in t && e.Answered? && e.claim.key == c.key;
      AnsweredWasInvoked(t, e.call, e.claim, e.answer, e.evidence);
      InvokedWasClaimed(t, e.call, e.claim);
      InvokedWasClaimed(t, call, c);
      UniqueClaim(t, ClaimWon(call, c, true), ClaimWon(e.call, e.claim, true));
      assert false;
    }
  }

  // ---------------------------------------------------------------- every step keeps the invariant

  lemma Move(w: World, call: nat, pc: Pc)
    requires Inv(w) && call < |w.calls| && PcOk(w.trace, call, pc)
    ensures Inv(Goto(w, call, pc))
  {
    hide PcOk, Justified, Linked;
  }

  lemma At(w: World, call: nat)
    requires Inv(w) && call < |w.calls|
    ensures PcOk(w.trace, call, w.calls[call])
  {
    hide PcOk, Justified, Linked, Numbered;
  }

  lemma EntryAt(w: World, key: JobKey)
    requires Inv(w) && key in w.ledger.jobs
    ensures EntryOk(w.trace, key, w.ledger.jobs[key])
  {
    hide EntryOk, Justified, AllPcOk, Numbered, Recorded;
  }

  lemma Finished(w: World, call: nat, pc: Pc)
    requires Inv(w) && call < |w.calls| && (pc.Done? || pc.Failed?)
    ensures Inv(Goto(w, call, pc))
  {
    assert PcOk(w.trace, call, pc);
    hide Inv, PcOk;
    Move(w, call, pc);
  }

  lemma LogMove(w: World, e: Event, call: nat, pc: Pc)
    requires Inv(w) && call < |w.calls| && e.call == call
    requires JustifiedBy(w.trace, e) && Recorded(w.ledger.jobs, e) && PcOk(w.trace + [e], call, pc)
    ensures Inv(Goto(Log(w, e), call, pc))
  {
    hide PcOk, Justified, JustifiedBy, Linked, Recorded, AllPcOk;
    Snoc(w.trace, e);
    LinkedKeeps(w.ledger.jobs, w.trace, e);
    MovesTo(w.trace, e, w.calls, call, pc);
  }

  lemma FindKeeps(w: World, call: nat)
    requires Inv(w) && call < |w.calls|
    ensures Inv(FindStep(w, call))
  {
    if w.calls[call].Finding? {
      var o := w.calls[call].offer;
      assert PcOk(w.trace, call, w.calls[call]);
      if o.key in w.ledger.jobs {
        assert EntryOk(w.trace, o.key, w.ledger.jobs[o.key]);
        Move(w, call, Replaying(o, w.ledger.jobs[o.key]));
      } else {
        Move(w, call, Gating(o));
      }
    }
  }

  /** Dispatch is allowed exactly inside the execution window, on the offered target, with all four authorities. */
  lemma GateOpensIff(o: Offer, now: nat, resolved: Result<Target, Failure>, authority: Result<Authority, Failure>)
    ensures Gate(o, now, resolved, authority).Dispatch? <==>
              o.issuedAt <= now < o.expiresAt && resolved == Ok(o.target) && authority == Ok(Authority(true, true, true, true))
    ensures Gate(o, now, resolved, authority).Dispatch? ==>
              Gate(o, now, resolved, authority) == Dispatch(o.target, Authority(true, true, true, true))
  {}

  /** Inside the window an offer is refused exactly for the reason the first failing gate gives; outside it has expired. */
  lemma GateRefusesIff(o: Offer, now: nat, resolved: Result<Target, Failure>, authority: Result<Authority, Failure>, f: Failure)
    ensures Gate(o, now, resolved, authority) == Refuse(f) <==>
              o.issuedAt <= now < o.expiresAt && RefusedFor(o, resolved, authority, f)
    ensures Gate(o, now, resolved, authority) == Expired <==> !(o.issuedAt <= now < o.expiresAt)
  {}

  lemma DenyKeeps(w: World, call: nat, o: Offer, now: nat, resolved: Result<Target, Failure>, authority: Result<Authority, Failure>, f: Failure)
    requires Inv(w) && call < |w.calls| && OfferValid(o) && o.issuedAt <= now < o.expiresAt && RefusedFor(o, resolved, authority, f)
    ensures Inv(Goto(Log(w, Denied(call, o, now, resolved, authority, f)), call, AuditingRejection(o, f, AuditComplete)))
  {
    hide Inv, OfferValid, RefusedFor;
    var e := Denied(call, o, now, resolved, authority, f);
    assert e in w.trace + [e];
    LogMove(w, e, call, AuditingRejection(o, f, AuditComplete));
  }

  lemma PermitKeeps(w: World, call: nat, o: Offer, now: nat)
    requires Inv(w) && call < |w.calls| && OfferValid(o) && NotYet(w.trace, call) && o.issuedAt <= now < o.expiresAt
    ensures Inv(Goto(Log(w, Permitted(call, o, now, o.target, Authority(true, true, true, true))), call, AuditingDispatch(o)))
  {
    hide Inv, OfferValid;
    var e := Permitted(call, o, now, o.target, Authority(true, true, true, true));
    assert e in w.trace + [e];
    LogMove(w, e, call, AuditingDispatch(o));
  }

  lemma DecideKeeps(w: World, call: nat, now: nat, resolved: Result<Target, Failure>, authority: Result<Authority, Failure>)
    requires Inv(w) && call < |w.calls|
    ensures Inv(DecideStep(w, call, now, resolved, authority))
  {
    hide Inv, NotYet, OfferValid, Gate, RefusedFor;
    if w.calls[call].Gating? {
      var o := w.calls[call].offer;
      At(w, call);
      GateOpensIff(o, now, resolved, authority);
      match Gate(o, now, resolved, authority)
      case Expired => Finished(w, call, Failed);
      case Refuse(f) =>
        GateRefusesIff(o, now, resolved, authority, f);
        DenyKeeps(w, call, o, now, resolved, authority, f);
      case Dispatch(_, _) => PermitKeeps(w, call, o, now);
    }
  }

  lemma AuditPlaceholder()
    ensures Identifier("audit-incomplete")
  {}

  lemma AuditRejectionKeeps(w: World, call: nat, record: Option<string>)
    requires Inv(w) && call < |w.calls| && w.calls[call].AuditingRejection?
    ensures Inv(AuditStep(w, call, record))
  {
    if record.None? || Identifier(record.value) {
      assert PcOk(w.trace, call, w.calls[call]);
      AuditPlaceholder();
      hide Inv, OfferValid, Identifier, Refusable;
      var AuditingRejection(o, f, requested) := w.calls[call];
      if record.Some? {
        var e := Audited(call, RejectedAtEdge(f), o.key, record.value);
        MoreRefusals(w.trace, e, call, o, f);
        LogMove(w, e, call, ClaimingRejection(o, f, record.value, requested));
      } else {
        Move(w, call, ClaimingRejection(o, f, "audit-incomplete", AuditMissing));
      }
    }
  }

  lemma AuditDispatchKeeps(w: World, call: nat, record: Option<string>)
    requires Inv(w) && call < |w.calls| && w.calls[call].AuditingDispatch?
    ensures Inv(AuditStep(w, call, record))
  {
    hide Inv, OfferValid, Identifier, HasPermit;
    if record.None? || Identifier(record.value) {
      At(w, call);
      var o := w.calls[call].offer;
      if record.Some? {
        var e := Audited(call, DispatchAuthorized, o.key, record.value);
        MorePermits(w.trace, e, call, o);
        LogMove(w, e, call, ClaimingDispatch(o, record.value));
      } else {
        Move(w, call, AuditingRejection(o, AuditIncomplete, AuditMissing));
      }
    }
  }

  /** Whatever the provider answered, the drafted receipt says no more than happened and passes the stage table. */
  lemma OutcomeDraftOk(t: seq<Event>, call: nat, c: Claim, answer: Answer, evidence: string, record: Option<string>)
    requires Identifier(c.auditId) && DigestText(evidence) && Answered(call, c, answer, evidence) in t
    requires record.Some? ==> Identifier(record.value) && Audited(call, Outcome(answer), c.key, record.value) in t
    ensures DraftValid(OutcomeDraft(c, answer, evidence, record))
    ensures Truthful(t, call, c, OutcomeDraft(c, answer, evidence, record))
  {
    hide Identifier, DigestText;
  }

  lemma ClaimAudited(c: Claim)
    requires ClaimValid(c)
    ensures Identifier(c.auditId)
  {}

  lemma AuditOutcomeKeeps(w: World, call: nat, record: Option<string>)
    requires Inv(w) && call < |w.calls| && w.calls[call].AuditingOutcome?
    ensures Inv(AuditStep(w, call, record))
  {
    hide Inv, ClaimValid, Identifier, DigestText, HasClaim, Truthful, DraftValid, OutcomeDraft;
    if record.None? || Identifier(record.value) {
      At(w, call);
      ClaimAudited(w.calls[call].claim);
      var AuditingOutcome(c, answer, evidence) := w.calls[call];
      var pc := Storing(c, OutcomeDraft(c, answer, evidence, record), Finish);
      if record.Some? {
        var e := Audited(call, Outcome(answer), c.key, record.value);
        assert Answered(call, c, answer, evidence) in w.trace + [e] && e in w.trace + [e];
        OutcomeDraftOk(w.trace + [e], call, c, answer, evidence, record);
        MoreClaims(w.trace, e, c);
        LogMove(w, e, call, pc);
      } else {
        OutcomeDraftOk(w.trace, call, c, answer, evidence, record);
        Move(w, call, pc);
      }
    }
  }

  lemma RecoveryPcOk(t: seq<Event>, call: nat, todo: seq<Claim>, auditId: string, status: AuditStatus)
    requires Claims(t, todo) && todo != [] && Identifier(auditId)
    requires if status == AuditComplete then Audited(call, InterruptedRecovered, todo[0].key, auditId) in t else auditId == todo[0].auditId
    ensures PcOk(t, call, Storing(todo[0], RecoveryDraft(auditId, status), Continue(todo[1..])))
  {
    hide ClaimValid, Identifier, HasClaim;
  }

  lemma AuditRecoveryKeeps(w: World, call: nat, record: Option<string>)
    requires Inv(w) && call < |w.calls| && w.calls[call].Recovering?
    ensures Inv(AuditStep(w, call, record))
  {
    if record.None? || Identifier(record.value) {
      assert PcOk(w.trace, call, w.calls[call]);
      var todo := w.calls[call].todo;
      assert todo != [] ==> ClaimValid(todo[0]) && Identifier(todo[0].auditId);
      hide Inv, PcOk, ClaimValid, Identifier, HasClaim, Claims;
      if todo == [] {
        Finished(w, call, Done);
      } else if record.Some? {
        var e := Audited(call, InterruptedRecovered, todo[0].key, record.value);
        MoreClaimed(w.trace, e, todo);
        assert e in w.trace + [e];
        RecoveryPcOk(w.trace + [e], call, todo, record.value, AuditComplete);
        LogMove(w, e, call, Storing(todo[0], RecoveryDraft(record.value, AuditComplete), Continue(todo[1..])));
      } else {
        RecoveryPcOk(w.trace, call, todo, todo[0].auditId, AuditMissing);
        Move(w, call, Storing(todo[0], RecoveryDraft(todo[0].auditId, AuditMissing), Continue(todo[1..])));
      }
    }
  }

  lemma AuditKeeps(w: World, call: nat, record: Option<string>)
    requires Inv(w) && call < |w.calls|
    ensures Inv(AuditStep(w, call, record))
  {
    hide Inv;
    match w.calls[call]
    case AuditingRejection(_, _, _) => AuditRejectionKeeps(w, call, record);
    case AuditingDispatch(_) => AuditDispatchKeeps(w, call, record);
    case AuditingOutcome(_, _, _) => AuditOutcomeKeeps(w, call, record);
    case Recovering(_) => AuditRecoveryKeeps(w, call, record);
    case _ =>
  }

  lemma ClaimLinks(jobs: map<JobKey, Entry>, t: seq<Event>, call: nat, c: Claim, dispatching: bool)
    requires Linked(jobs, t) && c.key !in jobs && ClaimValid(c)
    ensures Linked(jobs[c.key := Entry(c.digest, InProgress(c))], t + [ClaimWon(call, c, dispatching)])
    ensures !KeyClaimed(t, c.key)
  {
    hide ClaimValid;
    var jobs', e := jobs[c.key := Entry(c.digest, InProgress(c))], ClaimWon(call, c, dispatching);
    forall x | x in t + [e] ensures Recorded(jobs', x) {
      if x in t { assert Recorded(jobs, x); }
    }
    forall key | key in jobs' ensures EntryOk(t + [e], key, jobs'[key]) {
      if key == c.key {
        assert e in t + [e];
      } else {
        assert EntryOk(t, key, jobs[key]);
        hide HasClaim, HasStored;
        match jobs[key].state
        case InProgress(c') => MoreClaims(t, e, c');
        case Complete(r) => MoreStored(t, e, key, r);
      }
    }
    forall x | x in t && x.ClaimWon? ensures x.claim.key != c.key { assert Recorded(jobs, x); }
  }

  lemma WinKeeps(w: World, call: nat, o: Offer, auditId: string, dispatching: bool, won: Pc)
    requires Inv(w) && call < |w.calls| && o.key !in w.ledger.jobs && ClaimValid(ClaimOf(o, auditId))
    requires if dispatching then Audited(call, DispatchAuthorized, o.key, auditId) in w.trace && HasPermit(w.trace, call, o)
             else exists f :: Refusable(w.trace, call, o, f)
    requires PcOk(w.trace + [ClaimWon(call, ClaimOf(o, auditId), dispatching)], call, won)
    ensures Inv(ClaimAs(w, call, o, auditId, dispatching, won))
  {
    hide PcOk, Justified, Linked, AllPcOk, ClaimValid, HasPermit, Refusable, KeyClaimed;
    var c := ClaimOf(o, auditId);
    var e := ClaimWon(call, c, dispatching);
    assert Carries(c, o);
    if !dispatching {
      var f :| Refusable(w.trace, call, o, f);
      assert ClaimRefused(w.trace, call, c, f);
    }
    ClaimLinks(w.ledger.jobs, w.trace, call, c, dispatching);
    assert JustifiedBy(w.trace, e);
    Snoc(w.trace, e);
    MovesTo(w.trace, e, w.calls, call, won);
  }

  lemma ClaimAsKeeps(w: World, call: nat, o: Offer, auditId: string, dispatching: bool, won: Pc)
    requires Inv(w) && call < |w.calls| && OfferValid(o) && ClaimValid(ClaimOf(o, auditId))
    requires if dispatching then Audited(call, DispatchAuthorized, o.key, auditId) in w.trace && HasPermit(w.trace, call, o)
             else exists f :: Refusable(w.trace, call, o, f)
    requires PcOk(w.trace + [ClaimWon(call, ClaimOf(o, auditId), dispatching)], call, won)
    ensures Inv(ClaimAs(w, call, o, auditId, dispatching, won))
  {
    hide Inv, OfferValid, ClaimValid, HasStored, HasClaim, HasPermit, Refusable;
    if o.key !in w.ledger.jobs {
      WinKeeps(w, call, o, auditId, dispatching, won);
    } else if w.ledger.jobs[o.key].digest == o.digest {
      EntryAt(w, o.key);
      Move(w, call, Replaying(o, w.ledger.jobs[o.key]));
    } else {
      Finished(w, call, Failed);
    }
  }

  lemma OfferClaims(o: Offer, auditId: string)
    requires OfferValid(o) && Identifier(auditId)
    ensures ClaimValid(ClaimOf(o, auditId))
  {
    hide Uuid, DigestText, TargetValid, Identifier;
  }

  lemma ClaimKeeps(w: World, call: nat)
    requires Inv(w) && call < |w.calls|
    ensures Inv(ClaimStep(w, call))
  {
    hide Inv, Identifier, OfferValid, ClaimValid, HasPermit, Refusable, ClaimAs;
    At(w, call);
    match w.calls[call]
    case ClaimingRejection(o, f, auditId, status) =>
      OfferClaims(o, auditId);
      var c := ClaimOf(o, auditId);
      var e := ClaimWon(call, c, false);
      assert e in w.trace + [e];
      MoreRefusals(w.trace, e, call, o, f);
      assert ClaimRefused(w.trace + [e], call, c, f);
      ClaimAsKeeps(w, call, o, auditId, false, Storing(c, RejectionDraft(f, auditId, status), Finish));
    case ClaimingDispatch(o, auditId) =>
      OfferClaims(o, auditId);
      ClaimAsKeeps(w, call, o, auditId, true, Dispatching(ClaimOf(o, auditId)));
    case _ =>
  }

  lemma Undisturbed(w: World, call: nat)
    requires Inv(w) && call < |w.calls| && w.calls[call].Dispatching?
    ensures !KeyInvoked(w.trace, w.calls[call].claim.key)
  {
    At(w, call);
    hide Justified, Linked, AllPcOk, ClaimValid;
    SoleInvoker(w.trace, call, w.calls[call].claim);
  }

  lemma InvokeKeeps(w: World, call: nat)
    requires Inv(w) && call < |w.calls|
    ensures Inv(InvokeStep(w, call))
  {
    hide Inv, ClaimValid, KeyInvoked;
    if w.calls[call].Dispatching? {
      var c := w.calls[call].claim;
      At(w, call);
      Undisturbed(w, call);
      LogMove(w, Invoked(call, c), call, Awaiting(c));
    }
  }

  lemma AwaitingFacts(w: World, call: nat)
    requires Inv(w) && call < |w.calls| && w.calls[call].Awaiting?
    ensures var c := w.calls[call].claim;
            ClaimValid(c) && Invoked(call, c) in w.trace && HasClaim(w.trace, c) && !KeyAnswered(w.trace, c.key)
  {
    var c := w.calls[call].claim;
    assert PcOk(w.trace, call, w.calls[call]);
    hide Justified, Linked, AllPcOk, ClaimValid;
    SoleAnswer(w.trace, call, c);
    InvokedWasClaimed(w.trace, call, c);
  }

  lemma AnswerKeeps(w: World, call: nat, answer: Answer, evidence: string)
    requires Inv(w) && call < |w.calls|
    ensures Inv(AnswerStep(w, call, answer, evidence))
  {
    hide Inv, ClaimValid, KeyAnswered, DigestText, HasClaim;
    if w.calls[call].Awaiting? && DigestText(evidence) {
      var c := w.calls[call].claim;
      var e := Answered(call, c, answer, evidence);
      AwaitingFacts(w, call);
      MoreClaims(w.trace, e, c);
      LogMove(w, e, call, AuditingOutcome(c, answer, evidence));
    }
  }

  lemma StoreLinks(jobs: map<JobKey, Entry>, t: seq<Event>, call: nat, c: Claim, r: Receipt)
    requires Linked(jobs, t) && HasClaim(t, c) && c.key in jobs && jobs[c.key].state.InProgress? && r.digest == c.digest
    ensures Linked(jobs[c.key := Entry(c.digest, Complete(r))], t + [Stored(call, c, r)])
    ensures !KeyStored(t, c.key)
  {
    var jobs', e := jobs[c.key := Entry(c.digest, Complete(r))], Stored(call, c, r);
    assert jobs[c.key].digest == c.digest by {
      var n, d :| ClaimWon(n, c, d) in t;
      assert Recorded(jobs, ClaimWon(n, c, d));
    }
    forall x | x in t + [e] ensures Recorded(jobs', x) {
      if x in t { assert Recorded(jobs, x); }
    }
    forall key | key in jobs' ensures EntryOk(t + [e], key, jobs'[key]) {
      if key == c.key {
        assert e in t + [e];
      } else {
        assert EntryOk(t, key, jobs[key]);
        hide HasClaim, HasStored, ClaimValid;
        match jobs[key].state
        case InProgress(c') => MoreClaims(t, e, c');
        case Complete(r') => MoreStored(t, e, key, r');
      }
    }
    forall x | x in t && x.Stored? ensures x.claim.key != c.key { assert Recorded(jobs, x); }
  }

  lemma CompleteOnlySettles(h: Receipt -> string, s: Ledger, key: JobKey, digest: string, r: Receipt)
    ensures var (s', ok) := CompleteJob(h, s, key, digest, r);
            && (!ok ==> s'.jobs == s.jobs)
            && (ok ==> key in s.jobs && s.jobs[key].digest == digest && r.digest == digest)
            && (ok && s.jobs[key].state.Complete? ==> s'.jobs == s.jobs && s.jobs[key].state.receipt == r)
            && (ok && s.jobs[key].state.InProgress? ==> s'.jobs == s.jobs[key := Entry(digest, Complete(r))])
  {
    hide Spool;
  }

  lemma Refused(w: World, ledger: Ledger, call: nat)
    requires Inv(w) && call < |w.calls| && ledger.jobs == w.ledger.jobs
    ensures Inv(w.(ledger := ledger)) && Inv(Goto(w.(ledger := ledger), call, Failed))
  {
    hide Justified, Linked, AllPcOk, Numbered;
    Finished(w.(ledger := ledger), call, Failed);
  }

  lemma StoreKeeps(h: Receipt -> string, w: World, call: nat, id: string, now: nat)
    requires Inv(w) && call < |w.calls|
    ensures Inv(StoreStep(h, w, call, id, now))
  {
    hide Inv, CompleteJob, ReceiptValid, HasStored, HasClaim;
    if w.calls[call].Storing? {
      var Storing(c, draft, after) := w.calls[call];
      var r := Build(c, draft, id, now);
      CompleteOnlySettles(h, w.ledger, c.key, c.digest, r);
      var (ledger, ok) := CompleteJob(h, w.ledger, c.key, c.digest, r);
      if !ReceiptValid(r) {
        Finished(w, call, Failed);
      } else if !ok {
        Refused(w, ledger, call);
      } else if w.ledger.jobs[c.key].state.InProgress? {
        SettleKeeps(w, ledger, call, r);
      } else {
        EntryAt(w, c.key);
        Refused(w, ledger, call);
        ReturnKeeps(w.(ledger := ledger), call, r);
      }
    }
  }

  function Return(w: World, call: nat, r: Receipt): World
    requires call < |w.calls| && w.calls[call].Storing?
  {
    var Storing(c, draft, after) := w.calls[call];
    Goto(Log(w, Returned(call, c.key, if after.Finish? then Executed else Recovered, r)), call,
         if after.Finish? then Done else Recovering(after.rest))
  }

  lemma ReturnKeeps(w: World, call: nat, r: Receipt)
    requires Inv(w) && call < |w.calls| && w.calls[call].Storing?
    requires HasStored(w.trace, w.calls[call].claim.key, r)
    ensures Inv(Return(w, call, r))
  {
    hide Inv, ClaimValid, DraftValid, Truthful, HasClaim, HasStored, Claims;
    var Storing(c, draft, after) := w.calls[call];
    At(w, call);
    var e := Returned(call, c.key, if after.Finish? then Executed else Recovered, r);
    if after.Continue? { MoreClaimed(w.trace, e, after.rest); }
    LogMove(w, e, call, if after.Finish? then Done else Recovering(after.rest));
  }

  lemma SettleKeeps(w: World, ledger: Ledger, call: nat, r: Receipt)
    requires Inv(w) && call < |w.calls| && w.calls[call].Storing?
    requires var c := w.calls[call].claim;
             && c.key in w.ledger.jobs && w.ledger.jobs[c.key].state.InProgress?
             && ledger.jobs == w.ledger.jobs[c.key := Entry(c.digest, Complete(r))]
             && r == Build(c, w.calls[call].draft, r.id, r.observedAt) && ReceiptValid(r)
    ensures Inv(Return(Log(w.(ledger := ledger), Stored(call, w.calls[call].claim, r)), call, r))
  {
    hide Inv, ReceiptValid, ClaimValid, DraftValid, Truthful;
    var c := w.calls[call].claim;
    var e := Stored(call, c, r);
    SettledInv(w, ledger, call, r);
    assert e in w.trace + [e];
    ReturnKeeps(Log(w.(ledger := ledger), e), call, r);
  }

  lemma SettledInv(w: World, ledger: Ledger, call: nat, r: Receipt)
    requires Inv(w) && call < |w.calls| && w.calls[call].Storing?
    requires var c := w.calls[call].claim;
             && c.key in w.ledger.jobs && w.ledger.jobs[c.key].state.InProgress?
             && ledger.jobs == w.ledger.jobs[c.key := Entry(c.digest, Complete(r))]
             && r == Build(c, w.calls[call].draft, r.id, r.observedAt) && ReceiptValid(r)
    ensures Inv(Log(w.(ledger := ledger), Stored(call, w.calls[call].claim, r)))
  {
    hide ReceiptValid, Justified, Linked, AllPcOk, HasClaim, KeyStored, Truthful, ClaimValid, DraftValid;
    var c := w.calls[call].claim;
    var e := Stored(call, c, r);
    At(w, call);
    StoreLinks(w.ledger.jobs, w.trace, call, c, r);
    assert JustifiedBy(w.trace, e);
    Snoc(w.trace, e);
    PcKeeps(w.trace, e, call, w.calls[call]);
    MovesTo(w.trace, e, w.calls, call, w.calls[call]);
    assert w.calls[call := w.calls[call]] == w.calls;
  }

  lemma Republished(h: Receipt -> string, w: World, key: JobKey)
    requires Inv(w)
    ensures Inv(w.(ledger := RequeueJob(h, w.ledger, key).0))
  {
    RequeueTouchesNoJob(h, w.ledger, key);
    hide RequeueJob, Linked, Justified, AllPcOk;
  }

  lemma ReplayKeeps(h: Receipt -> string, w: World, call: nat)
    requires Inv(w) && call < |w.calls|
    ensures Inv(ReplayStep(h, w, call))
  {
    hide Inv, RequeueJob, OfferValid, HasStored;
    if w.calls[call].Replaying? {
      var Replaying(o, e) := w.calls[call];
      At(w, call);
      Republished(h, w, o.key);
      var w1 := w.(ledger := RequeueJob(h, w.ledger, o.key).0);
      if e.digest != o.digest || e.state.InProgress? {
        Finished(w, call, Failed);
      } else if RequeueJob(h, w.ledger, o.key).1 {
        LogMove(w1, Returned(call, o.key, Replayed, e.state.receipt), call, Done);
      } else {
        Finished(w1, call, Failed);
      }
    }
  }

  lemma RequeueTouchesNoJob(h: Receipt -> string, s: Ledger, key: JobKey)
    ensures RequeueJob(h, s, key).0.jobs == s.jobs
  {
    hide Spool;
  }

  lemma BeginKeeps(w: World, pc: Pc)
    requires Inv(w) && PcOk(w.trace, |w.calls|, pc)
    ensures Inv(w.(calls := w.calls + [pc]))
  {
    hide PcOk, Justified, Linked;
  }
}
