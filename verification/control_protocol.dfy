/** The governed job machine as a small-step protocol.

    Any number of `process` and `recover_interrupted` calls interleave over one shared ledger. A step that the
    current state does not enable leaves the world as it is, so every sequence of steps is a run. What the ports
    answer (clock, resolver, authority, audit, provider, identifier source) is a parameter of the step. A port
    error, a cancelled call and a lost process are all `Drop` or `Crash`: they may strike between any two steps,
    and the ledger survives them. */
module ControlProtocol {
  import opened Outcomes
  import opened Identifiers
  import opened ControlTypes
  import opened ControlLedger

  /** How one invocation ended: the provider's answer, or the elapsed deadline. */
  datatype Answer = Accepts | Refuses | Uncertain | TimedOut

  datatype AuditKind = DispatchAuthorized | RejectedAtEdge(failure: Failure) | Outcome(answer: Answer) | InterruptedRecovered

  datatype Disposition = Executed | Replayed | Recovered

  // ---------------------------------------------------------------- local gates before dispatch

  datatype Authority = Authority(commissioned: bool, delegated: bool, permission: bool, confirmation: bool)

  datatype Verdict = Expired | Refuse(failure: Failure) | Dispatch(target: Target, authority: Authority)

  /** Expiry, target resolution and the four authority flags, in the order they are consulted. */
  function Gate(o: Offer, now: nat, resolved: Result<Target, Failure>, authority: Result<Authority, Failure>): Verdict {
    if now < o.issuedAt || o.expiresAt <= now then Expired
    else match resolved
      case Err(f) => Refuse(f)
      case Ok(t) =>
        if t != o.target then Refuse(TargetNotFound)
        else match authority
          case Err(f) => Refuse(f)
          case Ok(a) =>
            if !a.commissioned then Refuse(NotCommissioned)
            else if !a.delegated then Refuse(DelegationDenied)
            else if !a.permission then Refuse(PolicyDenied)
            else if !a.confirmation then Refuse(ConfirmationInvalid)
            else Dispatch(t, a)
  }

  // ---------------------------------------------------------------- receipts

  /** The part of a receipt that a call decides; identity and target come from the claim. */
  datatype Draft = Draft(
    stage: Stage, decision: Decision, failure: Option<Failure>, evidence: Option<string>,
    auditId: string, auditStatus: AuditStatus)

  function RejectionDraft(f: Failure, auditId: string, status: AuditStatus): Draft {
    Draft(EdgeRejected, Rejected, Some(f), None, auditId, status)
  }

  function RecoveryDraft(auditId: string, status: AuditStatus): Draft {
    Draft(Unknown, Undecided, Some(Interrupted), None, auditId, status)
  }

  /** `record` is the identity of the outcome audit record, or `None` when recording it failed. */
  function OutcomeDraft(c: Claim, answer: Answer, evidence: string, record: Option<string>): Draft {
    if record.None? then
      Draft(Unknown, Undecided, Some(AuditIncomplete), Some(evidence), c.auditId, AuditMissing)
    else match answer
      case Accepts => Draft(ProviderAccepted, Accepted, None, Some(evidence), record.value, AuditComplete)
      case Refuses => Draft(ProviderRejected, Rejected, Some(ProviderRefused), Some(evidence), record.value, AuditComplete)
      case Uncertain => Draft(Unknown, Undecided, Some(ProviderOutcomeUnknown), Some(evidence), record.value, AuditComplete)
      case TimedOut => Draft(Unknown, Undecided, Some(ProviderTimeout), Some(evidence), record.value, AuditComplete)
  }

  function Build(c: Claim, d: Draft, id: string, now: nat): Receipt {
    Receipt(c.key.job, id, c.target, c.digest, d.stage, d.decision, now, d.evidence, d.failure, d.auditId, d.auditStatus)
  }

  function DraftOf(r: Receipt): Draft { Draft(r.stage, r.decision, r.failure, r.evidence, r.auditId, r.auditStatus) }

  function ClaimOf(o: Offer, auditId: string): Claim { Claim(o.key, o.digest, o.target, o.value, auditId) }

  // ---------------------------------------------------------------- world

  datatype After = Finish | Continue(rest: seq<Claim>)

  /** Where one call stands. */
  datatype Pc =
    | Finding(offer: Offer)
    | Gating(offer: Offer)
    | Replaying(offer: Offer, entry: Entry)
    | AuditingRejection(offer: Offer, failure: Failure, requested: AuditStatus)
    | ClaimingRejection(offer: Offer, failure: Failure, auditId: string, status: AuditStatus)
    | AuditingDispatch(offer: Offer)
    | ClaimingDispatch(offer: Offer, auditId: string)
    | Dispatching(claim: Claim)
    | Awaiting(claim: Claim)
    | AuditingOutcome(claim: Claim, answer: Answer, evidence: string)
    | Storing(claim: Claim, draft: Draft, after: After)
    | Recovering(todo: seq<Claim>)
    | Done
    | Failed

  /** Everything that happened, in order: the local decisions, and what the ports and the ledger saw. */
  datatype Event =
    | Permitted(call: nat, offer: Offer, now: nat, target: Target, authority: Authority)
    | Denied(call: nat, offer: Offer, now: nat, resolved: Result<Target, Failure>, granted: Result<Authority, Failure>, failure: Failure)
    | Audited(call: nat, kind: AuditKind, key: JobKey, record: string)
    | ClaimWon(call: nat, claim: Claim, dispatching: bool)
    | Invoked(call: nat, claim: Claim)
    | Answered(call: nat, claim: Claim, answer: Answer, evidence: string)
    | Stored(call: nat, claim: Claim, receipt: Receipt)
    | Returned(call: nat, key: JobKey, disposition: Disposition, receipt: Receipt)

  datatype World = World(ledger: Ledger, calls: seq<Pc>, trace: seq<Event>)

  const INITIAL := World(EMPTY, [], [])

  datatype Step =
    | Begin(offer: Offer)
    | BeginRecovery(claims: seq<Claim>)
    | Find(call: nat)
    | Decide(call: nat, now: nat, resolved: Result<Target, Failure>, authority: Result<Authority, Failure>)
    | Audit(call: nat, record: Option<string>)
    | TryClaim(call: nat)
    | Invoke(call: nat)
    | Answer(call: nat, answer: Answer, evidence: string)
    | Store(call: nat, id: string, now: nat)
    | Replay(call: nat)
    | Republish(key: JobKey)
    | Acknowledge(ack: Ack)
    | Drop(call: nat)
    | Crash

  function Goto(w: World, call: nat, pc: Pc): World
    requires call < |w.calls|
  {
    w.(calls := w.calls[call := pc])
  }

  function Log(w: World, e: Event): World { w.(trace := w.trace + [e]) }

  // ---------------------------------------------------------------- one function per kind of step

  function FindStep(w: World, call: nat): World
    requires call < |w.calls|
  {
    match w.calls[call]
    case Finding(o) => Goto(w, call, if o.key in w.ledger.jobs then Replaying(o, w.ledger.jobs[o.key]) else Gating(o))
    case _ => w
  }

  function DecideStep(w: World, call: nat, now: nat, resolved: Result<Target, Failure>, authority: Result<Authority, Failure>): World
    requires call < |w.calls|
  {
    match w.calls[call]
    case Gating(o) => (
      match Gate(o, now, resolved, authority)
      case Expired => Goto(w, call, Failed)
      case Refuse(f) =>
        Goto(Log(w, Denied(call, o, now, resolved, authority, f)), call, AuditingRejection(o, f, AuditComplete))
      case Dispatch(t, a) => Goto(Log(w, Permitted(call, o, now, t, a)), call, AuditingDispatch(o)))
    case _ => w
  }

  /** Records the audit event the call is waiting on; an absent record means recording failed. */
  function AuditStep(w: World, call: nat, record: Option<string>): World
    requires call < |w.calls|
  {
    if record.Some? && !Identifier(record.value) then w
    else match w.calls[call]
      case AuditingRejection(o, f, requested) =>
        if record.Some? then
          Goto(Log(w, Audited(call, RejectedAtEdge(f), o.key, record.value)), call, ClaimingRejection(o, f, record.value, requested))
        else Goto(w, call, ClaimingRejection(o, f, "audit-incomplete", AuditMissing))
      case AuditingDispatch(o) =>
        if record.Some? then
          Goto(Log(w, Audited(call, DispatchAuthorized, o.key, record.value)), call, ClaimingDispatch(o, record.value))
        else Goto(w, call, AuditingRejection(o, AuditIncomplete, AuditMissing))
      case AuditingOutcome(c, answer, evidence) =>
        var w' := if record.Some? then Log(w, Audited(call, Outcome(answer), c.key, record.value)) else w;
        Goto(w', call, Storing(c, OutcomeDraft(c, answer, evidence, record), Finish))
      case Recovering(todo) =>
        if todo == [] then Goto(w, call, Done)
        else
          var c := todo[0];
          if record.Some? then
            Goto(Log(w, Audited(call, InterruptedRecovered, c.key, record.value)), call,
                 Storing(c, RecoveryDraft(record.value, AuditComplete), Continue(todo[1..])))
          else Goto(w, call, Storing(c, RecoveryDraft(c.auditId, AuditMissing), Continue(todo[1..])))
      case _ => w
  }

  /** The atomic claim: the winner moves on, everybody else replays or reports the conflict. */
  function ClaimAs(w: World, call: nat, o: Offer, auditId: string, dispatching: bool, won: Pc): World
    requires call < |w.calls|
  {
    var c := ClaimOf(o, auditId);
    var (ledger, outcome) := ClaimJob(w.ledger, c);
    match outcome
    case Claimed => Goto(Log(w.(ledger := ledger), ClaimWon(call, c, dispatching)), call, won)
    case Existing(e) => Goto(w, call, Replaying(o, e))
    case DigestConflict => Goto(w, call, Failed)
  }

  function ClaimStep(w: World, call: nat): World
    requires call < |w.calls|
  {
    match w.calls[call]
    case ClaimingRejection(o, f, auditId, status) =>
      ClaimAs(w, call, o, auditId, false, Storing(ClaimOf(o, auditId), RejectionDraft(f, auditId, status), Finish))
    case ClaimingDispatch(o, auditId) => ClaimAs(w, call, o, auditId, true, Dispatching(ClaimOf(o, auditId)))
    case _ => w
  }

  function InvokeStep(w: World, call: nat): World
    requires call < |w.calls|
  {
    match w.calls[call]
    case Dispatching(c) => Goto(Log(w, Invoked(call, c)), call, Awaiting(c))
    case _ => w
  }

  function AnswerStep(w: World, call: nat, answer: Answer, evidence: string): World
    requires call < |w.calls|
  {
    match w.calls[call]
    case Awaiting(c) =>
      if !DigestText(evidence) then w
      else Goto(Log(w, Answered(call, c, answer, evidence)), call, AuditingOutcome(c, answer, evidence))
    case _ => w
  }

  /** Builds the receipt and completes the job; a refused completion fails the call and changes no job. */
  function StoreStep(h: Receipt -> string, w: World, call: nat, id: string, now: nat): World
    requires call < |w.calls|
  {
    match w.calls[call]
    case Storing(c, draft, after) =>
      var r := Build(c, draft, id, now);
      if !ReceiptValid(r) then Goto(w, call, Failed)
      else
        var (ledger, ok) := CompleteJob(h, w.ledger, c.key, c.digest, r);
        if !ok then Goto(w.(ledger := ledger), call, Failed)
        else
          var w1 := w.(ledger := ledger);
          var w2 := if w.ledger.jobs[c.key].state.InProgress? then Log(w1, Stored(call, c, r)) else w1;
          Goto(Log(w2, Returned(call, c.key, if after.Finish? then Executed else Recovered, r)), call,
               if after.Finish? then Done else Recovering(after.rest))
    case _ => w
  }

  function ReplayStep(h: Receipt -> string, w: World, call: nat): World
    requires call < |w.calls|
  {
    match w.calls[call]
    case Replaying(o, e) =>
      if e.digest != o.digest || e.state.InProgress? then Goto(w, call, Failed)
      else
        var (ledger, ok) := RequeueJob(h, w.ledger, o.key);
        if !ok then Goto(w.(ledger := ledger), call, Failed)
        else Goto(Log(w.(ledger := ledger), Returned(call, o.key, Replayed, e.state.receipt)), call, Done)
    case _ => w
  }

  /** `claims` lists every in-progress claim of the ledger exactly once, in some order. */
  ghost predicate Listed(jobs: map<JobKey, Entry>, claims: seq<Claim>) {
    && (forall key | key in jobs && jobs[key].state.InProgress? :: jobs[key].state.claim in claims)
    && (forall i | 0 <= i < |claims| :: claims[i].key in jobs && jobs[claims[i].key].state == InProgress(claims[i]))
    && (forall i, j | 0 <= i < j < |claims| :: claims[i] != claims[j])
  }

  function AllFailed(n: nat): (pcs: seq<Pc>)
    ensures |pcs| == n && forall i | 0 <= i < n :: pcs[i] == Failed
  {
    if n == 0 then [] else AllFailed(n - 1) + [Failed]
  }

  ghost function Apply(h: Receipt -> string, w: World, step: Step): World {
    match step
    case Begin(o) => if OfferValid(o) then w.(calls := w.calls + [Finding(o)]) else w
    case BeginRecovery(claims) => if Listed(w.ledger.jobs, claims) then w.(calls := w.calls + [Recovering(claims)]) else w
    case Find(call) => if call < |w.calls| then FindStep(w, call) else w
    case Decide(call, now, resolved, authority) => if call < |w.calls| then DecideStep(w, call, now, resolved, authority) else w
    case Audit(call, record) => if call < |w.calls| then AuditStep(w, call, record) else w
    case TryClaim(call) => if call < |w.calls| then ClaimStep(w, call) else w
    case Invoke(call) => if call < |w.calls| then InvokeStep(w, call) else w
    case Answer(call, answer, evidence) => if call < |w.calls| then AnswerStep(w, call, answer, evidence) else w
    case Store(call, id, now) => if call < |w.calls| then StoreStep(h, w, call, id, now) else w
    case Replay(call) => if call < |w.calls| then ReplayStep(h, w, call) else w
    case Republish(key) => w.(ledger := RequeueJob(h, w.ledger, key).0)
    case Acknowledge(ack) => w.(ledger := AcknowledgeThrough(w.ledger, ack).0)
    case Drop(call) => if call < |w.calls| then Goto(w, call, Failed) else w
    case Crash => w.(calls := AllFailed(|w.calls|))
  }

  ghost function Run(h: Receipt -> string, w: World, steps: seq<Step>): World
    decreases |steps|
  {
    if steps == [] then w else Run(h, Apply(h, w, steps[0]), steps[1..])
  }
}
