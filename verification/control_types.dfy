/** Values exchanged by the governed Integration-control job machine. */
module ControlTypes {
  import opened Outcomes
  import opened Identifiers

  /** Durable `(gateway, job)` identity. */
  datatype JobKey = JobKey(gateway: string, job: string)

  /** Generation-fenced target. The point key is always `is_on`, so it carries no information. */
  datatype Target = Target(integration: string, generation: nat, entity: string)

  predicate TargetValid(t: Target) {
    Identifier(t.integration) && t.generation <= U64_MAX && Identifier(t.entity)
  }

  /** The part of a decoded, signature-checked offer that the job machine uses. */
  datatype Offer = Offer(key: JobKey, digest: string, target: Target, value: bool, issuedAt: nat, expiresAt: nat)

  predicate OfferValid(o: Offer) {
    && Uuid(o.key.gateway)
    && Uuid(o.key.job)
    && DigestText(o.digest)
    && TargetValid(o.target)
    && o.issuedAt < o.expiresAt <= U64_MAX
  }

  datatype Failure =
    | TargetNotFound | TopologyGenerationMismatch | EntityKindDenied | PointDenied
    | NotCommissioned | DelegationDenied | PolicyDenied | ConfirmationInvalid | TargetUnavailable
    | ProviderRefused | ProviderOutcomeUnknown | ProviderTimeout | Interrupted | AuditIncomplete

  datatype Stage = EdgeAccepted | EdgeRejected | ProviderAccepted | ProviderRejected | Unknown

  datatype Decision = Accepted | Rejected | Undecided

  datatype AuditStatus = AuditComplete | AuditMissing

  /** Closed terminal receipt. Schema, capability, sequence and the always-unknown physical outcome are constants. */
  datatype Receipt = Receipt(
    job: string, id: string, target: Target, digest: string,
    stage: Stage, decision: Decision, observedAt: nat,
    evidence: Option<string>, failure: Option<Failure>,
    auditId: string, auditStatus: AuditStatus)

  /** Which decision, failure and evidence each stage may carry. */
  predicate StageTable(stage: Stage, decision: Decision, failure: Option<Failure>, evidence: Option<string>) {
    match stage
    case EdgeAccepted => decision == Accepted && failure.None? && evidence.None?
    case ProviderAccepted => decision == Accepted && failure.None? && evidence.Some?
    case EdgeRejected => decision == Rejected && failure.Some?
    case ProviderRejected => decision == Rejected && failure.Some? && evidence.Some?
    case Unknown => decision == Undecided && failure.Some?
  }

  /** The checks every receipt passes before it is built, stored or republished. */
  predicate ReceiptValid(r: Receipt) {
    && Uuid(r.job)
    && Uuid(r.id)
    && TargetValid(r.target)
    && DigestText(r.digest)
    && r.observedAt <= U64_MAX
    && (r.evidence.Some? ==> DigestText(r.evidence.value))
    && Identifier(r.auditId)
    && StageTable(r.stage, r.decision, r.failure, r.evidence)
  }

  /** A receipt is accepted exactly when its identities, target, digests and time are well-formed and its stage, decision, and
      the presence of a failure and of evidence are one of seven combinations. */
  lemma ReceiptTable(r: Receipt)
    ensures ReceiptValid(r) <==>
            && Uuid(r.job) && Uuid(r.id) && DigestText(r.digest) && Identifier(r.auditId) && r.observedAt <= U64_MAX
            && Identifier(r.target.integration) && Identifier(r.target.entity) && r.target.generation <= U64_MAX
            && (r.evidence != None ==> DigestText(r.evidence.value))
            && (r.stage, r.decision, r.failure.Some?, r.evidence.Some?) in {
                 (EdgeAccepted, Accepted, false, false), (ProviderAccepted, Accepted, false, true),
                 (EdgeRejected, Rejected, true, false), (EdgeRejected, Rejected, true, true), (ProviderRejected, Rejected, true, true),
                 (Unknown, Undecided, true, false), (Unknown, Undecided, true, true)}
  {
    hide Uuid, DigestText, Identifier;
  }

  /** Claim persisted before the provider is called. */
  datatype Claim = Claim(key: JobKey, digest: string, target: Target, value: bool, auditId: string)

  predicate ClaimValid(c: Claim) {
    Uuid(c.key.job) && DigestText(c.digest) && TargetValid(c.target) && Identifier(c.auditId)
  }

  datatype EntryState = InProgress(claim: Claim) | Complete(receipt: Receipt)

  datatype Entry = Entry(digest: string, state: EntryState)

  /** One queued receipt with its delivery identity. */
  datatype Delivery = Delivery(position: nat, batch: string, digest: string, sentAt: nat, payload: Receipt)

  /** Cumulative durable acknowledgement received from the cloud. */
  datatype Ack = Ack(
    sessionId: string, sessionEpoch: nat, stream: string, streamEpoch: nat,
    position: nat, batch: string, digest: string, receiptId: string)
}
