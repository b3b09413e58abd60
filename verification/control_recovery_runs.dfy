/** Recovery inside the protocol: what a recovery call does under any interleaving, and when the ledger object may start one. */
module ControlRecoveryRuns {
  import opened Outcomes
  import opened Identifiers
  import opened ControlTypes
  import opened ControlLedger
  import opened ControlProtocol
  import opened ControlSafety
  import opened ControlTheorems
  import opened ControlMemory

  ghost predicate Settled(jobs: map<JobKey, Entry>, claims: seq<Claim>) {
    forall i | 0 <= i < |claims| :: claims[i].key in jobs && jobs[claims[i].key].state.Complete?
  }

  /** The recovery of `claims` has settled the first `k` and stands before claim `k`. */
  ghost predicate UpTo(jobs: map<JobKey, Entry>, claims: seq<Claim>, k: nat, rest: seq<Claim>) {
    k <= |claims| && rest == claims[k..] && Settled(jobs, claims[..k])
  }

  /** The receipt of a recovered job: the outcome is unknown because the job was interrupted, and there is no evidence. */
  predicate Closes(d: Draft) { d.stage == Unknown && d.decision == Undecided && d.failure == Some(Interrupted) && d.evidence == None }

  /** Where a call that recovers `claims` may stand: never on the way to the provider. */
  ghost predicate RecoveryAt(jobs: map<JobKey, Entry>, pc: Pc, claims: seq<Claim>) {
    match pc
    case Recovering(todo) => exists k: nat :: UpTo(jobs, claims, k, todo)
    case Storing(c, d, after) => Closes(d) && after.Continue? && exists k: nat :: UpTo(jobs, claims, k, [c] + after.rest)
    case Done => Settled(jobs, claims)
    case Failed => true
    case _ => false
  }

  /** What a recovery leaves in the history: audits of recovered jobs, interrupted receipts and recovered results. */
  predicate RecoveryEvent(e: Event) {
    match e
    case Audited(_, kind, _, _) => kind == InterruptedRecovered
    case Stored(_, _, r) => Closes(DraftOf(r))
    case Returned(_, _, disposition, _) => disposition == Recovered
    case _ => false
  }

  ghost predicate OnlyRecovers(t: seq<Event>, call: nat) { forall e | e in t && e.call == call :: RecoveryEvent(e) }

  ghost predicate RecoveryOk(w: World, call: nat, claims: seq<Claim>) {
    call < |w.calls| && RecoveryAt(w.ledger.jobs, w.calls[call], claims) && OnlyRecovers(w.trace, call)
  }

  lemma SettledGrows(before: map<JobKey, Entry>, after: map<JobKey, Entry>, pc: Pc, claims: seq<Claim>)
    requires JobsGrow(before, after) && RecoveryAt(before, pc, claims)
    ensures RecoveryAt(after, pc, claims)
  {
    match pc
    case Recovering(todo) =>
      var k: nat :| UpTo(before, claims, k, todo);
      assert UpTo(after, claims, k, todo);
    case Storing(c, d, rest) =>
      var k: nat :| UpTo(before, claims, k, [c] + rest.rest);
      assert UpTo(after, claims, k, [c] + rest.rest);
    case _ =>
  }

  // ---------- steps of other calls ----------

  /** The call a step moves. */
  function Actor(step: Step): Option<nat> {
    match step
    case Find(call) => Some(call)
    case Decide(call, _, _, _) => Some(call)
    case Audit(call, _) => Some(call)
    case TryClaim(call) => Some(call)
    case Invoke(call) => Some(call)
    case Answer(call, _, _) => Some(call)
    case Store(call, _, _) => Some(call)
    case Replay(call) => Some(call)
    case Drop(call) => Some(call)
    case _ => None
  }

  /** A step adds events of its own call only, at the end of the history. */
  lemma TraceGrows(h: Receipt -> string, w: World, step: Step)
    ensures w.trace <= Apply(h, w, step).trace
    ensures forall e | e in Apply(h, w, step).trace && e !in w.trace :: Actor(step) == Some(e.call)
  {
    hide CompleteJob, RequeueJob, AcknowledgeThrough, ReceiptValid, Gate, OfferValid, Listed, Identifier, DigestText, ClaimJob, AllFailed;
  }

  lemma OthersStand(h: Receipt -> string, w: World, step: Step, call: nat)
    requires call < |w.calls| && Actor(step) != Some(call) && !step.Crash?
    ensures call < |Apply(h, w, step).calls| && Apply(h, w, step).calls[call] == w.calls[call]
  {
    hide CompleteJob, RequeueJob, AcknowledgeThrough, ReceiptValid, Gate, OfferValid, Listed, Identifier, DigestText, ClaimJob, AllFailed;
  }

  // ---------- steps of the recovery itself ----------

  lemma AuditRecovers(w: World, call: nat, record: Option<string>, claims: seq<Claim>)
    requires RecoveryOk(w, call, claims)
    ensures call < |AuditStep(w, call, record).calls|
    ensures RecoveryAt(AuditStep(w, call, record).ledger.jobs, AuditStep(w, call, record).calls[call], claims)
  {
    var jobs := w.ledger.jobs;
    match w.calls[call]
    case Recovering(todo) =>
      var k: nat :| UpTo(jobs, claims, k, todo);
      if todo == [] {
        assert claims[..k] == claims;
      } else {
        assert [todo[0]] + todo[1..] == todo;
        assert UpTo(jobs, claims, k, [todo[0]] + todo[1..]);
      }
    case _ =>
  }

  lemma StoreRecovers(h: Receipt -> string, w: World, call: nat, id: string, now: nat, claims: seq<Claim>)
    requires RecoveryOk(w, call, claims)
    ensures call < |StoreStep(h, w, call, id, now).calls|
    ensures RecoveryAt(StoreStep(h, w, call, id, now).ledger.jobs, StoreStep(h, w, call, id, now).calls[call], claims)
  {
    hide CompleteJob, ReceiptValid;
    var jobs := w.ledger.jobs;
    match w.calls[call]
    case Storing(c, draft, after) =>
      var r := Build(c, draft, id, now);
      CompleteOnlySettles(h, w.ledger, c.key, c.digest, r);
      StoreGrows(h, w, call, id, now);
      var jobs' := StoreStep(h, w, call, id, now).ledger.jobs;
      var k: nat :| UpTo(jobs, claims, k, [c] + after.rest);
      assert claims[k] == c && claims[k + 1..] == ([c] + after.rest)[1..] == after.rest;
      if StoreStep(h, w, call, id, now).calls[call].Recovering? {
        assert jobs'[c.key].state.Complete?;
        assert claims[..k + 1] == claims[..k] + [c];
        assert UpTo(jobs', claims, k + 1, after.rest);
      }
    case _ =>
  }

  lemma RecoveryLogs(h: Receipt -> string, w: World, step: Step, call: nat, claims: seq<Claim>)
    requires RecoveryOk(w, call, claims)
    ensures Actor(step) == Some(call) ==> forall e | e in Apply(h, w, step).trace && e !in w.trace :: RecoveryEvent(e)
  {
    hide CompleteJob, RequeueJob, AcknowledgeThrough, ReceiptValid, Gate, OfferValid, Listed, Identifier, DigestText, ClaimJob, AllFailed,
      OnlyRecovers, UpTo, Settled;
  }

  /** Every step keeps a recovery call where a recovery may stand. */
  lemma StepRecovers(h: Receipt -> string, w: World, step: Step, call: nat, claims: seq<Claim>)
    requires RecoveryOk(w, call, claims)
    ensures RecoveryOk(Apply(h, w, step), call, claims)
  {
    var w' := Apply(h, w, step);
    assert OnlyRecovers(w'.trace, call) by {
      TraceGrows(h, w, step);
      RecoveryLogs(h, w, step, call, claims);
    }
    hide Apply, RecoveryAt;
    PcRecovers(h, w, step, call, claims);
  }

  lemma PcRecovers(h: Receipt -> string, w: World, step: Step, call: nat, claims: seq<Claim>)
    requires RecoveryOk(w, call, claims)
    ensures call < |Apply(h, w, step).calls| && RecoveryAt(Apply(h, w, step).ledger.jobs, Apply(h, w, step).calls[call], claims)
  {
    hide StoreStep, AuditStep, RequeueJob, AcknowledgeThrough, Gate, OfferValid, Listed, DigestText, ClaimJob, UpTo, Settled;
    if Actor(step) != Some(call) && !step.Crash? {
      Elsewhere(h, w, step, call, claims);
    } else {
      match step
      case Audit(_, record) => AuditRecovers(w, call, record, claims);
      case Store(_, id, now) => StoreRecovers(h, w, call, id, now, claims);
      case _ =>
    }
  }

  lemma Elsewhere(h: Receipt -> string, w: World, step: Step, call: nat, claims: seq<Claim>)
    requires RecoveryOk(w, call, claims) && Actor(step) != Some(call) && !step.Crash?
    ensures call < |Apply(h, w, step).calls| && RecoveryAt(Apply(h, w, step).ledger.jobs, Apply(h, w, step).calls[call], claims)
  {
    hide Apply, RecoveryAt, JobsGrow;
    OthersStand(h, w, step, call);
    StepGrows(h, w, step);
    SettledGrows(w.ledger.jobs, Apply(h, w, step).ledger.jobs, w.calls[call], claims);
  }

  lemma {:induction false} RunRecovers(h: Receipt -> string, w: World, steps: seq<Step>, call: nat, claims: seq<Claim>)
    requires RecoveryOk(w, call, claims)
    ensures RecoveryOk(Run(h, w, steps), call, claims)
    decreases |steps|
  {
    hide Apply, RecoveryOk;
    if steps != [] {
      StepRecovers(h, w, steps[0], call, claims);
      RunRecovers(h, Apply(h, w, steps[0]), steps[1..], call, claims);
    }
  }

  /** A recovery begun at any point of any run never calls the provider in any continuation: all it leaves in the history
      are audits of recovered jobs, interrupted receipts and recovered results. When it is done every claim it listed is
      complete, however other calls interleave. */
  lemma RecoverySettlesWithoutCalling(h: Receipt -> string, before: seq<Step>, claims: seq<Claim>, after: seq<Step>)
    requires Listed(Run(h, INITIAL, before).ledger.jobs, claims)
    ensures var w := Run(h, INITIAL, before);
            var call := |w.calls|;
            var end := Run(h, Apply(h, w, BeginRecovery(claims)), after);
            && call < |end.calls|
            && (forall e | e in end.trace && e.call == call :: RecoveryEvent(e))
            && (end.calls[call].Done? ==> forall i | 0 <= i < |claims| ::
                  claims[i].key in end.ledger.jobs && end.ledger.jobs[claims[i].key].state.Complete?)
  {
    InitialInv();
    RunKeeps(h, INITIAL, before);
    var w := Run(h, INITIAL, before);
    var begun := Apply(h, w, BeginRecovery(claims));
    hide Run, Justified, Linked, AllPcOk, Listed;
    assert begun.calls == w.calls + [Recovering(claims)] && begun.ledger == w.ledger && begun.trace == w.trace;
    assert UpTo(w.ledger.jobs, claims, 0, claims);
    assert OnlyRecovers(w.trace, |w.calls|);
    RunRecovers(h, begun, after, |w.calls|, claims);
  }

  // ---------- starting a recovery on the ledger object ----------

  lemma SpoolWellFormed(h: Receipt -> string, s: Ledger)
    requires SpoolInv(h, s) && ClaimsFiled(s.jobs)
    ensures WellFormed(h, s)
  {
    hide AllFiled, UniquePositions, Owned, ClaimsFiled;
  }

  lemma LinkedClaims(jobs: map<JobKey, Entry>, t: seq<Event>)
    requires Linked(jobs, t)
    ensures ClaimsFiled(jobs)
    ensures forall key | key in jobs && jobs[key].state.InProgress? :: ClaimValid(jobs[key].state.claim)
  {
    hide ClaimValid, HasClaim, HasStored, Recorded;
    assert forall key | key in jobs :: EntryOk(t, key, jobs[key]);
  }

  lemma EmptySpool(h: Receipt -> string)
    ensures SpoolInv(h, EMPTY) && Gapless(EMPTY)
  {}

  /** Every ledger a run with fresh receipt ids can leave behind, a crash included, is one recovery may start from. */
  lemma ReachableIsRecoverable(h: Receipt -> string, steps: seq<Step>)
    requires NeverReused({}, steps)
    ensures var s := Run(h, INITIAL, steps).ledger;
            && WellFormed(h, s) && SpoolInv(h, s)
            && forall key | key in s.jobs && s.jobs[key].state.InProgress? :: ClaimValid(s.jobs[key].state.claim)
  {
    hide Run, SpoolInv, Gapless, Justified, Linked, AllPcOk, WellFormed, ClaimsFiled, ClaimValid;
    InitialInv();
    RunKeeps(h, INITIAL, steps);
    EmptySpool(h);
    RunSpools(h, INITIAL, steps, {});
    var w := Run(h, INITIAL, steps);
    LinkedClaims(w.ledger.jobs, w.trace);
    SpoolWellFormed(h, w.ledger);
  }
}
