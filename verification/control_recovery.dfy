/** Startup recovery of interrupted claims. */
module ControlRecovery {
  import opened Outcomes
  import opened Identifiers
  import opened ControlTypes
  import opened ControlLedger
  import opened ControlProtocol
  import opened ControlMemory

  /** What the ports answer for one claim: the audit record if recording succeeds, a receipt id and the clock. */
  datatype Answers = Answers(record: Option<string>, id: string, now: nat)

  predicate AnswersValid(a: Answers) {
    (a.record.Some? ==> Identifier(a.record.value)) && Uuid(a.id) && a.now <= U64_MAX
  }

  /** The receipt recovery stores for an interrupted claim. */
  function RecoveredReceipt(c: Claim, a: Answers): Receipt {
    var draft := if a.record.Some? then RecoveryDraft(a.record.value, AuditComplete) else RecoveryDraft(c.auditId, AuditMissing);
    Build(c, draft, a.id, a.now)
  }

  /** Recovery as a fold over the interrupted claims; it stops at the first refused completion. */
  function RecoverFrom(h: Receipt -> string, s: Ledger, todo: seq<Claim>, answers: Claim -> Answers): (Ledger, Option<seq<Receipt>>)
    decreases |todo|
  {
    if todo == [] then (s, Some([]))
    else
      var r := RecoveredReceipt(todo[0], answers(todo[0]));
      if !ReceiptValid(r) then (s, None)
      else
        var (s1, ok) := CompleteJob(h, s, todo[0].key, todo[0].digest, r);
        if !ok then (s1, None)
        else
          var (s2, rest) := RecoverFrom(h, s1, todo[1..], answers);
          (s2, if rest.Some? then Some([r] + rest.value) else None)
  }

  /** Each claim of `todo` is an in-progress job of its own. */
  ghost predicate Awaiting(jobs: map<JobKey, Entry>, todo: seq<Claim>) {
    && (forall i | 0 <= i < |todo| ::
          todo[i].key in jobs && jobs[todo[i].key] == Entry(todo[i].digest, InProgress(todo[i])) && ClaimValid(todo[i]))
    && (forall i, j | 0 <= i < j < |todo| :: todo[i].key != todo[j].key)
  }

  /** The identifier source: canonical UUIDs, never used before and never repeated. */
  ghost predicate FreshAnswers(used: map<string, Delivery>, todo: seq<Claim>, answers: Claim -> Answers) {
    && (forall i | 0 <= i < |todo| :: AnswersValid(answers(todo[i])) && answers(todo[i]).id !in used)
    && (forall i, j | 0 <= i < j < |todo| :: answers(todo[i]).id != answers(todo[j]).id)
  }

  /** `c` now holds exactly its recovery receipt, and that receipt is waiting to be published. */
  ghost predicate RecoveredIn(s: Ledger, c: Claim, a: Answers) {
    var r := RecoveredReceipt(c, a);
    && c.key in s.jobs && s.jobs[c.key] == Entry(c.digest, Complete(r))
    && r.id in s.deliveries && s.deliveries[r.id].payload == r && Queued(s.pending, s.deliveries[r.id])
  }

  lemma RecoveredValid(c: Claim, a: Answers)
    requires ClaimValid(c) && AnswersValid(a)
    ensures ReceiptValid(RecoveredReceipt(c, a))
  {
    hide Uuid, Identifier, DigestText, TargetValid;
  }

  lemma SettleExact(h: Receipt -> string, s: Ledger, c: Claim, r: Receipt)
    requires SpoolInv(h, s) && s.next < U64_MAX && ReceiptValid(r) && r.id !in s.deliveries
    requires Settles(s, c.key, c.digest, r)
    ensures var (s', ok) := CompleteJob(h, s, c.key, c.digest, r);
            && ok && SpoolInv(h, s')
            && s'.jobs == s.jobs[c.key := Entry(c.digest, Complete(r))]
            && r.id in s'.deliveries && s'.deliveries == s.deliveries[r.id := s'.deliveries[r.id]]
            && s'.deliveries[r.id].payload == r && s'.deliveries[r.id].position == s.next
            && s'.next == s.next + 1 && s'.lastAck == s.lastAck
  {
    SettleFresh(h, s, c.key, c.digest, r);
    SpoolIffValid(h, s.next, r);
    hide SpoolInv, Spool, ReceiptValid;
  }

  ghost predicate Unaffected(s: Ledger, s': Ledger, todo: seq<Claim>) {
    && s'.jobs.Keys == s.jobs.Keys
    && (forall key | key in s.jobs && (forall i | 0 <= i < |todo| :: todo[i].key != key) :: s'.jobs[key] == s.jobs[key])
    && (forall id | id in s.deliveries :: id in s'.deliveries && s'.deliveries[id] == s.deliveries[id])
    && s'.lastAck == s.lastAck
  }

  /** Recovery succeeds exactly when the stream has a position left for every claim. Then every claim holds its own
      pending Unknown/Interrupted receipt, no other job changed, and the results are those receipts in order. */
  lemma {:induction false} RecoveryOutcome(h: Receipt -> string, s: Ledger, todo: seq<Claim>, answers: Claim -> Answers)
    requires SpoolInv(h, s) && Awaiting(s.jobs, todo) && FreshAnswers(s.deliveries, todo, answers)
    ensures var (s', results) := RecoverFrom(h, s, todo, answers);
            && SpoolInv(h, s')
            && Unaffected(s, s', todo)
            && (results.Some? <==> s.next + |todo| <= U64_MAX)
            && (results.Some? ==> AllRecovered(s', todo, answers) && InOrder(todo, answers, results.value))
    decreases |todo|
  {
    hide SpoolInv, ReceiptValid, CompleteJob, ClaimValid, AnswersValid, RecoveredReceipt, RecoveredIn, AllRecovered, Unaffected,
      Awaiting, FreshAnswers, InOrder;
    NextBound(h, s);
    if todo == [] {
      NothingToRecover(s, answers);
    } else {
      var c, rest := todo[0], todo[1..];
      var r := RecoveredReceipt(c, answers(c));
      FirstReady(s, todo, answers);
      if s.next == U64_MAX {
        Exhausted(h, s, c, r);
        NothingChanged(s, todo);
      } else {
        SettleExact(h, s, c, r);
        var s1 := CompleteJob(h, s, c.key, c.digest, r).0;
        RestReady(s, s1, todo, answers);
        RecoveryOutcome(h, s1, rest, answers);
        var (s', results) := RecoverFrom(h, s1, rest, answers);
        UnaffectedCons(s, s1, s', todo, r);
        if results.Some? { RecoveredCons(h, s1, s', todo, answers, results.value); }
      }
    }
  }

  ghost predicate AllRecovered(s: Ledger, todo: seq<Claim>, answers: Claim -> Answers) {
    forall i | 0 <= i < |todo| :: RecoveredIn(s, todo[i], answers(todo[i]))
  }

  ghost predicate InOrder(todo: seq<Claim>, answers: Claim -> Answers, results: seq<Receipt>) {
    |results| == |todo| && forall i | 0 <= i < |todo| :: results[i] == RecoveredReceipt(todo[i], answers(todo[i]))
  }

  lemma NothingToRecover(s: Ledger, answers: Claim -> Answers)
    ensures Unaffected(s, s, []) && AllRecovered(s, [], answers) && InOrder([], answers, [])
  {}

  lemma NothingChanged(s: Ledger, todo: seq<Claim>)
    ensures Unaffected(s, s, todo)
  {}

  lemma FirstReady(s: Ledger, todo: seq<Claim>, answers: Claim -> Answers)
    requires todo != [] && Awaiting(s.jobs, todo) && FreshAnswers(s.deliveries, todo, answers)
    ensures var c, r := todo[0], RecoveredReceipt(todo[0], answers(todo[0]));
            Settles(s, c.key, c.digest, r) && ReceiptValid(r) && r.id !in s.deliveries && r.id == answers(c).id
    ensures forall i, j | 0 <= i < j < |todo| :: todo[i].key != todo[j].key
  {
    hide ReceiptValid, ClaimValid, AnswersValid;
    RecoveredShape(todo[0], answers(todo[0]));
    RecoveredValid(todo[0], answers(todo[0]));
  }

  lemma RestReady(s: Ledger, s1: Ledger, todo: seq<Claim>, answers: Claim -> Answers)
    requires todo != [] && Awaiting(s.jobs, todo) && FreshAnswers(s.deliveries, todo, answers)
    requires todo[0].key in s1.jobs && s1.jobs == s.jobs[todo[0].key := s1.jobs[todo[0].key]]
    requires s1.deliveries.Keys == s.deliveries.Keys + {answers(todo[0]).id}
    ensures Awaiting(s1.jobs, todo[1..]) && FreshAnswers(s1.deliveries, todo[1..], answers)
  {
    hide ClaimValid, AnswersValid;
    assert forall i | 0 <= i < |todo[1..]| :: todo[1..][i] == todo[i + 1];
  }

  lemma UnaffectedCons(s: Ledger, s1: Ledger, s': Ledger, todo: seq<Claim>, r: Receipt)
    requires todo != [] && Unaffected(s1, s', todo[1..]) && s1.lastAck == s.lastAck
    requires todo[0].key in s.jobs && s1.jobs == s.jobs[todo[0].key := Entry(todo[0].digest, Complete(r))]
    requires r.id !in s.deliveries && r.id in s1.deliveries && s1.deliveries == s.deliveries[r.id := s1.deliveries[r.id]]
    ensures Unaffected(s, s', todo)
  {
    forall key | key in s.jobs && (forall i | 0 <= i < |todo| :: todo[i].key != key) ensures s'.jobs[key] == s.jobs[key] {
      assert forall i | 0 <= i < |todo[1..]| :: todo[1..][i] == todo[i + 1];
      assert todo[0].key != key;
    }
  }

  lemma RecoveredCons(h: Receipt -> string, s1: Ledger, s': Ledger, todo: seq<Claim>, answers: Claim -> Answers, results: seq<Receipt>)
    requires todo != [] && SpoolInv(h, s') && Unaffected(s1, s', todo[1..])
    requires forall i, j | 0 <= i < j < |todo| :: todo[i].key != todo[j].key
    requires AllRecovered(s', todo[1..], answers) && InOrder(todo[1..], answers, results)
    requires var c, r := todo[0], RecoveredReceipt(todo[0], answers(todo[0]));
             && c.key in s1.jobs && s1.jobs[c.key] == Entry(c.digest, Complete(r))
             && r.id in s1.deliveries && s1.deliveries[r.id].payload == r && AckPos(s1) < s1.deliveries[r.id].position
    ensures AllRecovered(s', todo, answers)
    ensures InOrder(todo, answers, [RecoveredReceipt(todo[0], answers(todo[0]))] + results)
  {
    hide SpoolInv, RecoveredReceipt, RecoveredIn, AllRecovered, InOrder, Unaffected;
    FirstRecovered(h, s1, s', todo, answers);
    AllCons(s', todo, answers);
    OrderCons(todo, answers, results);
  }

  lemma FirstRecovered(h: Receipt -> string, s1: Ledger, s': Ledger, todo: seq<Claim>, answers: Claim -> Answers)
    requires todo != [] && SpoolInv(h, s') && Unaffected(s1, s', todo[1..])
    requires forall i, j | 0 <= i < j < |todo| :: todo[i].key != todo[j].key
    requires var c, r := todo[0], RecoveredReceipt(todo[0], answers(todo[0]));
             && c.key in s1.jobs && s1.jobs[c.key] == Entry(c.digest, Complete(r))
             && r.id in s1.deliveries && s1.deliveries[r.id].payload == r && AckPos(s1) < s1.deliveries[r.id].position
    ensures RecoveredIn(s', todo[0], answers(todo[0]))
  {
    hide SpoolInv, RecoveredReceipt;
    var c, r := todo[0], RecoveredReceipt(todo[0], answers(todo[0]));
    forall i | 0 <= i < |todo[1..]| ensures todo[1..][i].key != c.key { assert todo[1..][i] == todo[i + 1]; }
    assert s'.jobs[c.key] == s1.jobs[c.key];
    PendingWhenNewer(h, s', r.id);
  }

  lemma AllCons(s: Ledger, todo: seq<Claim>, answers: Claim -> Answers)
    requires todo != [] && RecoveredIn(s, todo[0], answers(todo[0])) && AllRecovered(s, todo[1..], answers)
    ensures AllRecovered(s, todo, answers)
  {
    hide RecoveredIn;
    forall i | 0 <= i < |todo| ensures RecoveredIn(s, todo[i], answers(todo[i])) {
      if 0 < i { assert todo[i] == todo[1..][i - 1]; }
    }
  }

  lemma OrderCons(todo: seq<Claim>, answers: Claim -> Answers, results: seq<Receipt>)
    requires todo != [] && InOrder(todo[1..], answers, results)
    ensures InOrder(todo, answers, [RecoveredReceipt(todo[0], answers(todo[0]))] + results)
  {
    hide RecoveredReceipt;
    var all := [RecoveredReceipt(todo[0], answers(todo[0]))] + results;
    forall i | 0 <= i < |todo| ensures all[i] == RecoveredReceipt(todo[i], answers(todo[i])) {
      if 0 < i { assert todo[i] == todo[1..][i - 1]; }
    }
  }

  /** A recovery receipt is about the claimed job, target and intent, says unknown because interrupted, without evidence, and
      carries its own audit record, or the one of the claim marked incomplete when recording failed. */
  lemma RecoveredShape(c: Claim, a: Answers)
    ensures var r := RecoveredReceipt(c, a);
            && r.job == c.key.job && r.digest == c.digest && r.target == c.target && r.id == a.id && r.observedAt == a.now
            && r.stage == Unknown && r.decision == Undecided && r.failure == Some(Interrupted) && r.evidence == None
            && (a.record == None ==> r.auditId == c.auditId && r.auditStatus == AuditMissing)
            && (a.record != None ==> Some(r.auditId) == a.record && r.auditStatus == AuditComplete)
  {}

  lemma NextBound(h: Receipt -> string, s: Ledger)
    requires SpoolInv(h, s)
    ensures AckPos(s) < s.next <= U64_MAX
  {}

  lemma Exhausted(h: Receipt -> string, s: Ledger, c: Claim, r: Receipt)
    requires s.next == U64_MAX && r.id !in s.deliveries && Settles(s, c.key, c.digest, r)
    ensures CompleteJob(h, s, c.key, c.digest, r) == (s, false)
  {}

  lemma PendingWhenNewer(h: Receipt -> string, s: Ledger, id: string)
    requires SpoolInv(h, s) && id in s.deliveries && AckPos(s) < s.deliveries[id].position
    ensures Queued(s.pending, s.deliveries[id])
  {}

  /** The keys of jobs without a terminal receipt. */
  function OpenKeys(jobs: map<JobKey, Entry>): set<JobKey> { set key | key in jobs && jobs[key].state.InProgress? }

  lemma {:induction false} ListedCount(keys: set<JobKey>, claims: seq<Claim>)
    requires forall key | key in keys :: exists i :: 0 <= i < |claims| && claims[i].key == key
    requires forall i | 0 <= i < |claims| :: claims[i].key in keys
    requires forall i, j | 0 <= i < j < |claims| :: claims[i].key != claims[j].key
    ensures |claims| == |keys|
    decreases |claims|
  {
    if claims == [] {
      assert keys == {};
    } else {
      var last := claims[|claims| - 1].key;
      var front := claims[..|claims| - 1];
      forall key | key in keys - {last} ensures exists i :: 0 <= i < |front| && front[i].key == key {
        var i :| 0 <= i < |claims| && claims[i].key == key;
        assert front[i].key == key;
      }
      ListedCount(keys - {last}, front);
    }
  }

  lemma ListedAwaiting(jobs: map<JobKey, Entry>, claims: seq<Claim>)
    requires Listed(jobs, claims) && ClaimsFiled(jobs)
    requires forall key | key in jobs && jobs[key].state.InProgress? :: ClaimValid(jobs[key].state.claim)
    ensures Awaiting(jobs, claims) && |claims| == |OpenKeys(jobs)|
    ensures forall key | key in jobs :: jobs[key].state.InProgress? <==> exists i :: 0 <= i < |claims| && claims[i].key == key
  {
    hide ClaimValid;
    forall i, j | 0 <= i < j < |claims| ensures claims[i].key != claims[j].key {
      assert jobs[claims[i].key].state == InProgress(claims[i]) && jobs[claims[j].key].state == InProgress(claims[j]);
    }
    forall key | key in OpenKeys(jobs) ensures exists i :: 0 <= i < |claims| && claims[i].key == key {
      var i :| 0 <= i < |claims| && claims[i] == jobs[key].state.claim;
      assert claims[i].key == key;
    }
    ListedCount(OpenKeys(jobs), claims);
  }

  /** The identifier source over the open jobs, in whatever order they are listed. */
  ghost predicate FreshForOpen(jobs: map<JobKey, Entry>, used: map<string, Delivery>, answers: Claim -> Answers) {
    && (forall key | key in jobs && jobs[key].state.InProgress? ::
          AnswersValid(answers(jobs[key].state.claim)) && answers(jobs[key].state.claim).id !in used)
    && (forall a, b | a in jobs && b in jobs && jobs[a].state.InProgress? && jobs[b].state.InProgress? && a != b ::
          answers(jobs[a].state.claim).id != answers(jobs[b].state.claim).id)
  }

  lemma OpenFresh(jobs: map<JobKey, Entry>, used: map<string, Delivery>, claims: seq<Claim>, answers: Claim -> Answers)
    requires Listed(jobs, claims) && ClaimsFiled(jobs) && FreshForOpen(jobs, used, answers)
    ensures FreshAnswers(used, claims, answers)
  {
    hide AnswersValid;
    forall i, j | 0 <= i < j < |claims| ensures answers(claims[i]).id != answers(claims[j]).id {
      assert jobs[claims[i].key].state == InProgress(claims[i]) && jobs[claims[j].key].state == InProgress(claims[j]);
    }
    forall i | 0 <= i < |claims| ensures AnswersValid(answers(claims[i])) && answers(claims[i]).id !in used {
      assert jobs[claims[i].key].state == InProgress(claims[i]);
    }
  }

  /** Converts every interrupted claim to an unknown receipt, one completion at a time, without calling the provider. */
  method RecoverInterrupted(ledger: MemoryLedger, answers: Claim -> Answers) returns (recovered: Option<seq<Receipt>>)
    requires ledger.Valid() && SpoolInv(ledger.h, ledger.View())
    requires forall key | key in ledger.jobs && ledger.jobs[key].state.InProgress? ::
               ClaimValid(ledger.jobs[key].state.claim)
    requires FreshForOpen(ledger.jobs, ledger.deliveries, answers)
    modifies ledger
    ensures ledger.Valid() && SpoolInv(ledger.h, ledger.View())
    ensures recovered.Some? <==> old(ledger.next) + |OpenKeys(old(ledger.jobs))| <= U64_MAX
    ensures ledger.jobs.Keys == old(ledger.jobs.Keys)
    ensures forall key | key in ledger.jobs && old(ledger.jobs)[key].state.Complete? :: ledger.jobs[key] == old(ledger.jobs)[key]
    ensures recovered.Some? ==> OpenKeys(ledger.jobs) == {} && |recovered.value| == |OpenKeys(old(ledger.jobs))|
    ensures recovered.Some? ==> forall key | key in OpenKeys(old(ledger.jobs)) ::
              var c := old(ledger.jobs)[key].state.claim;
              RecoveredIn(ledger.View(), c, answers(c)) && RecoveredReceipt(c, answers(c)) in recovered.value
  {
    hide SpoolInv, ReceiptValid, ClaimValid, AnswersValid, RecoveredReceipt, CompleteJob, Awaiting, Unaffected, RecoveredIn, AllRecovered,
      InOrder, RecoverFrom, OpenKeys, AllFiled, UniquePositions, Keyed, FreshForOpen, FreshAnswers;
    var claims := ledger.Interrupted();
    ghost var before := ledger.View();
    ListedAwaiting(before.jobs, claims);
    OpenFresh(before.jobs, before.deliveries, claims, answers);
    RecoveryOutcome(ledger.h, before, claims, answers);
    RecoveryCovers(ledger.h, before, claims, answers);
    recovered := RecoverClaims(ledger, claims, answers);
    if recovered.Some? { SameLength(claims, answers, recovered.value); }
  }

  lemma SameLength(claims: seq<Claim>, answers: Claim -> Answers, results: seq<Receipt>)
    requires InOrder(claims, answers, results)
    ensures |results| == |claims|
  {}

  /** The recovery loop over the listed claims. */
  method RecoverClaims(ledger: MemoryLedger, claims: seq<Claim>, answers: Claim -> Answers) returns (recovered: Option<seq<Receipt>>)
    requires ledger.Valid()
    modifies ledger
    ensures ledger.Valid() && (ledger.View(), recovered) == RecoverFrom(ledger.h, old(ledger.View()), claims, answers)
  {
    hide WellFormed, ReceiptValid, RecoveredReceipt, CompleteJob;
    ghost var before := ledger.View();
    var results := [];
    var i := 0;
    while i < |claims|
      invariant 0 <= i <= |claims| && ledger.Valid()
      invariant var (final, whole) := RecoverFrom(ledger.h, before, claims, answers);
                var (end, rest) := RecoverFrom(ledger.h, ledger.View(), claims[i..], answers);
                final == end && (whole.Some? <==> rest.Some?) && (rest.Some? ==> whole.value == results + rest.value)
    {
      var c := claims[i];
      var r := RecoveredReceipt(c, answers(c));
      if !ReceiptValid(r) { return None; }
      var ok := ledger.Complete(c.key, c.digest, r);
      if !ok { return None; }
      results := results + [r];
      assert claims[i..][1..] == claims[i + 1..];
      i := i + 1;
    }
    assert claims[i..] == [] && results + [] == results;
    return Some(results);
  }

  lemma RecoveryCovers(h: Receipt -> string, s: Ledger, claims: seq<Claim>, answers: Claim -> Answers)
    requires Listed(s.jobs, claims)
    requires forall key | key in s.jobs :: s.jobs[key].state.InProgress? <==> exists i :: 0 <= i < |claims| && claims[i].key == key
    requires var (s', results) := RecoverFrom(h, s, claims, answers);
             && Unaffected(s, s', claims)
             && (results.Some? ==> AllRecovered(s', claims, answers) && InOrder(claims, answers, results.value))
    ensures var (s', results) := RecoverFrom(h, s, claims, answers);
            && s'.jobs.Keys == s.jobs.Keys
            && (forall key | key in s.jobs && s.jobs[key].state.Complete? :: s'.jobs[key] == s.jobs[key])
            && (results.Some? ==>
                  && OpenKeys(s'.jobs) == {}
                  && forall key | key in OpenKeys(s.jobs) ::
                       var c := s.jobs[key].state.claim;
                       RecoveredIn(s', c, answers(c)) && RecoveredReceipt(c, answers(c)) in results.value)
  {
    hide RecoverFrom, RecoveredReceipt;
    var (s', results) := RecoverFrom(h, s, claims, answers);
    if results.Some? {
      forall key | key in s.jobs && s.jobs[key].state.InProgress?
        ensures var c := s.jobs[key].state.claim;
                RecoveredIn(s', c, answers(c)) && RecoveredReceipt(c, answers(c)) in results.value
      {
        var i :| 0 <= i < |claims| && claims[i] == s.jobs[key].state.claim;
        assert results.value[i] == RecoveredReceipt(claims[i], answers(claims[i]));
      }
      forall key | key in s'.jobs ensures s'.jobs[key].state.Complete? {
        if s.jobs[key].state.InProgress? {
          var i :| 0 <= i < |claims| && claims[i].key == key;
          assert RecoveredIn(s', claims[i], answers(claims[i]));
        }
      }
    }
  }
}
