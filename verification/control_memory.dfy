/** The process-local ledger: the same transitions performed in place. */
module ControlMemory {
  import opened Outcomes
  import opened Identifiers
  import opened ControlTypes
  import opened ControlLedger
  import opened ControlProtocol
  import opened TextOrder

  /** In-progress entries are filed under the key and digest of their own claim. */
  ghost predicate ClaimsFiled(jobs: map<JobKey, Entry>) {
    forall key | key in jobs && jobs[key].state.InProgress? ::
      jobs[key].state.claim.key == key && jobs[key].state.claim.digest == jobs[key].digest
  }

  /** Pending receipts are keyed by their own position. */
  ghost predicate Keyed(pending: map<nat, Delivery>) { forall p | p in pending :: pending[p].position == p }

  /** What every operation keeps without assuming anything about receipt ids. */
  ghost predicate WellFormed(h: Receipt -> string, s: Ledger) {
    1 <= s.next <= U64_MAX && AllFiled(h, s.deliveries, s.next) && UniquePositions(s.deliveries) && Keyed(s.pending) && ClaimsFiled(s.jobs)
  }

  lemma SpoolNext(h: Receipt -> string, s: Ledger, r: Receipt)
    requires WellFormed(h, s) && s.next < U64_MAX && Spool(h, s.next, r).Some?
    ensures var d := Spool(h, s.next, r).value;
            && d.position == s.next
            && AllFiled(h, s.deliveries[r.id := d], s.next + 1) && UniquePositions(s.deliveries[r.id := d])
            && Keyed(s.pending[d.position := d])
  {
    var d := Spool(h, s.next, r).value;
    assert Filed(h, r.id, d, s.next + 1) && d.payload == r;
    hide Spool, ReceiptValid, Filed, AllFiled, UniquePositions;
    InsertFiled(h, s.deliveries, s.next, d);
  }

  lemma CompleteWellFormed(h: Receipt -> string, s: Ledger, key: JobKey, digest: string, r: Receipt)
    requires WellFormed(h, s)
    ensures WellFormed(h, CompleteJob(h, s, key, digest, r).0)
  {
    hide Spool, Filed, AllFiled, UniquePositions;
    if s.next < U64_MAX {
      if Spool(h, s.next, r).Some? { SpoolNext(h, s, r); }
      WiderFiled(h, s.deliveries, s.next);
    }
  }

  lemma RequeueWellFormed(h: Receipt -> string, s: Ledger, key: JobKey)
    requires WellFormed(h, s)
    ensures WellFormed(h, RequeueJob(h, s, key).0)
  {
    hide Spool, Filed, AllFiled, UniquePositions;
    if s.next < U64_MAX && key in s.jobs && s.jobs[key].state.Complete? {
      if Spool(h, s.next, s.jobs[key].state.receipt).Some? { SpoolNext(h, s, s.jobs[key].state.receipt); }
      WiderFiled(h, s.deliveries, s.next);
    }
  }

  /** The order of job keys: by gateway, then by job. */
  predicate KeyBefore(a: JobKey, b: JobKey) { Before(a.gateway, b.gateway) || (a.gateway == b.gateway && Before(a.job, b.job)) }

  lemma KeyTotal(a: JobKey, b: JobKey)
    ensures a == b || KeyBefore(a, b) || KeyBefore(b, a)
    ensures KeyBefore(a, b) ==> a != b && !KeyBefore(b, a)
  {
    hide Before;
    BeforeTotal(a.gateway, b.gateway);
    BeforeTotal(a.job, b.job);
  }

  lemma KeyTransitive(a: JobKey, b: JobKey, c: JobKey)
    requires KeyBefore(a, b) && KeyBefore(b, c)
    ensures KeyBefore(a, c)
  {
    hide Before;
    if Before(a.gateway, b.gateway) && Before(b.gateway, c.gateway) { BeforeTransitive(a.gateway, b.gateway, c.gateway); }
    if Before(a.job, b.job) && Before(b.job, c.job) { BeforeTransitive(a.job, b.job, c.job); }
  }

  class MemoryLedger {
    const h: Receipt -> string
    var jobs: map<JobKey, Entry>
    var deliveries: map<string, Delivery>
    var pending: map<nat, Delivery>
    var next: nat
    var lastAck: Option<Ack>

    ghost function View(): Ledger
      reads this
    {
      Ledger(jobs, deliveries, pending, next, lastAck)
    }

    ghost predicate Valid()
      reads this
    {
      WellFormed(h, View())
    }

    constructor (h: Receipt -> string)
      ensures Valid() && View() == EMPTY && this.h == h
    {
      this.h := h;
      jobs, deliveries, pending, next, lastAck := map[], map[], map[], 1, None;
    }

    /** What a claim of the job would answer now: nothing is found exactly when the claim would be won, and what is found
        is what a claim with the same digest is given. */
    method Find(key: JobKey) returns (entry: Option<Entry>)
      ensures forall c: ControlTypes.Claim | c.key == key ::
                match ClaimJob(View(), c).1
                case Claimed => entry == None
                case Existing(e) => entry == Some(e) && e.digest == c.digest
                case DigestConflict => entry.Some? && entry.value.digest != c.digest
    {
      if key in jobs { return Some(jobs[key]); }
      return None;
    }

    method Claim(c: Claim) returns (outcome: ClaimOutcome)
      requires Valid()
      modifies this
      ensures Valid() && (View(), outcome) == ClaimJob(old(View()), c)
    {
      hide AllFiled, UniquePositions;
      if c.key in jobs {
        if jobs[c.key].digest == c.digest { return Existing(jobs[c.key]); }
        return DigestConflict;
      }
      jobs := jobs[c.key := Entry(c.digest, InProgress(c))];
      return Claimed;
    }

    method Complete(key: JobKey, digest: string, r: Receipt) returns (ok: bool)
      requires Valid()
      modifies this
      ensures Valid() && (View(), ok) == CompleteJob(h, old(View()), key, digest, r)
    {
      hide WellFormed, ReceiptValid, Spool;
      CompleteWellFormed(h, View(), key, digest, r);
      if r.job != key.job || r.digest != digest || key !in jobs || jobs[key].digest != digest { return false; }
      if jobs[key].state.Complete? { return jobs[key].state.receipt == r; }
      var delivery;
      if r.id in deliveries {
        delivery := deliveries[r.id];
      } else {
        var position := next;
        if next == U64_MAX { return false; }
        next := next + 1;
        var sealed := Spool(h, position, r);
        if sealed.None? { return false; }
        delivery := sealed.value;
        deliveries := deliveries[r.id := delivery];
      }
      pending := pending[delivery.position := delivery];
      jobs := jobs[key := Entry(digest, ControlTypes.Complete(r))];
      return true;
    }

    method Requeue(key: JobKey) returns (ok: bool)
      requires Valid()
      modifies this
      ensures Valid() && (View(), ok) == RequeueJob(h, old(View()), key)
    {
      hide WellFormed, ReceiptValid, Spool;
      RequeueWellFormed(h, View(), key);
      if key !in jobs || jobs[key].state.InProgress? { return false; }
      var r := jobs[key].state.receipt;
      if r.id !in deliveries { return false; }
      var delivery := deliveries[r.id];
      if lastAck.Some? && delivery.position <= lastAck.value.position {
        if next == U64_MAX { return false; }
        var sealed := Spool(h, next, r);
        next := next + 1;
        if sealed.None? { return false; }
        delivery := sealed.value;
        deliveries := deliveries[r.id := delivery];
      }
      pending := pending[delivery.position := delivery];
      return true;
    }

    /** Every claim without a terminal receipt, each once, in key order. */
    method Interrupted() returns (claims: seq<ControlTypes.Claim>)
      requires Valid()
      ensures Listed(jobs, claims)
      ensures forall i, j | 0 <= i < j < |claims| :: KeyBefore(claims[i].key, claims[j].key)
    {
      hide AllFiled, UniquePositions, Keyed, KeyBefore;
      claims := [];
      var left := jobs.Keys;
      while left != {}
        invariant left <= jobs.Keys
        invariant forall key | key in jobs && key !in left && jobs[key].state.InProgress? :: jobs[key].state.claim in claims
        invariant forall i | 0 <= i < |claims| ::
                    claims[i].key in jobs && claims[i].key !in left && jobs[claims[i].key].state == InProgress(claims[i])
        invariant forall i, key | 0 <= i < |claims| && key in left :: KeyBefore(claims[i].key, key)
        invariant forall i, j | 0 <= i < j < |claims| :: KeyBefore(claims[i].key, claims[j].key)
        decreases left
      {
        var key := LeastKey(left);
        left := left - {key};
        match jobs[key].state
        case InProgress(c) => claims := claims + [c];
        case Complete(_) =>
      }
      forall i, j | 0 <= i < j < |claims| ensures claims[i] != claims[j] { KeyTotal(claims[i].key, claims[j].key); }
    }

    static method LeastKey(keys: set<JobKey>) returns (key: JobKey)
      requires keys != {}
      ensures key in keys && forall other | other in keys && other != key :: KeyBefore(key, other)
    {
      hide KeyBefore;
      key :| key in keys;
      var left := keys - {key};
      while left != {}
        invariant left <= keys && key in keys && key !in left
        invariant forall other | other in keys && other !in left && other != key :: KeyBefore(key, other)
        decreases left
      {
        var next :| next in left;
        left := left - {next};
        KeyTotal(key, next);
        if KeyBefore(next, key) {
          forall other | other in keys && other !in left && other != next ensures KeyBefore(next, other) {
            if other != key { KeyTransitive(next, key, other); }
          }
          key := next;
        }
      }
    }

    /** The oldest pending receipts, at most `limit` of them, oldest first. */
    method PendingReceipts(limit: nat) returns (receipts: seq<Delivery>)
      requires Valid()
      ensures |receipts| == if limit < |pending| then limit else |pending|
      ensures forall i | 0 <= i < |receipts| :: Queued(pending, receipts[i])
      ensures forall i, j | 0 <= i < j < |receipts| :: receipts[i].position < receipts[j].position
      ensures forall i, p | 0 <= i < |receipts| && p in pending && pending[p] !in receipts :: receipts[i].position < p
    {
      hide AllFiled, UniquePositions, ClaimsFiled;
      receipts := [];
      var left := pending.Keys;
      while |receipts| < limit && left != {}
        invariant left <= pending.Keys && |receipts| + |left| == |pending| && |receipts| <= limit
        invariant forall i | 0 <= i < |receipts| :: Queued(pending, receipts[i])
        invariant forall i, j | 0 <= i < j < |receipts| :: receipts[i].position < receipts[j].position
        invariant forall i, p | 0 <= i < |receipts| && p in left :: receipts[i].position < p
        invariant forall p | p in pending.Keys - left :: pending[p] in receipts
        decreases left
      {
        var p := Least(left);
        left := left - {p};
        receipts := receipts + [pending[p]];
      }
    }

    static method Least(positions: set<nat>) returns (p: nat)
      requires positions != {}
      ensures p in positions && forall q | q in positions :: p <= q
    {
      p :| p in positions;
      var left := positions;
      while left != {}
        invariant left <= positions && p in positions
        invariant forall q | q in positions && q !in left :: p <= q
        decreases left
      {
        var q :| q in left;
        left := left - {q};
        if q < p { p := q; }
      }
    }

    /** Applies one cumulative acknowledgement: checks the terminal delivery, then removes position by position. On an exact
        spool it is applied exactly when it names a pending receipt by position, batch and digest. */
    method Acknowledge(ack: Ack) returns (outcome: AckOutcome)
      requires Valid()
      modifies this
      ensures Valid() && (View(), outcome) == AcknowledgeThrough(old(View()), ack)
      ensures SpoolInv(h, old(View())) ==> (outcome.Applied? <==> NamesPending(old(View()), ack)) && SpoolInv(h, View())
    {
      hide AllFiled, ClaimsFiled, Identifier, SpoolInv, NamesPending;
      if SpoolInv(h, View()) {
        AcknowledgeIff(h, View(), ack);
        AcknowledgeKeepsSpool(h, View(), ack);
      }
      if lastAck == Some(ack) { return Duplicate; }
      if ack.stream != RECEIPT_STREAM || ack.streamEpoch != 1 || ack.position == 0 || ack.sessionEpoch == 0
         || (lastAck.Some? && ack.position <= lastAck.value.position)
         || !Identifier(ack.sessionId) || !Identifier(ack.receiptId) {
        return Refused;
      }
      var terminal := FindPosition(ack.position);
      if terminal.None? || deliveries[terminal.value].batch != ack.batch || deliveries[terminal.value].digest != ack.digest
         || ack.position !in pending || pending[ack.position] != deliveries[terminal.value] {
        return Refused;
      }
      assert AckNames(View(), ack, deliveries[terminal.value]);
      var positions := Through(pending, ack.position);
      var left := positions;
      while left != {}
        invariant left <= positions
        invariant pending == old(pending) - (positions - left)
        invariant jobs == old(jobs) && deliveries == old(deliveries) && next == old(next) && lastAck == old(lastAck)
        decreases left
      {
        var p :| p in left;
        pending := pending - {p};
        left := left - {p};
      }
      assert positions - left == positions;
      lastAck := Some(ack);
      return Applied(|positions|);
    }

    method FindPosition(position: nat) returns (id: Option<string>)
      requires UniquePositions(deliveries)
      ensures id.Some? ==> id.value in deliveries && deliveries[id.value].position == position
      ensures forall x | x in deliveries && deliveries[x].position == position :: id == Some(x)
    {
      var left := deliveries.Keys;
      while left != {}
        invariant left <= deliveries.Keys
        invariant forall x | x in deliveries.Keys - left :: deliveries[x].position != position
        decreases left
      {
        var x :| x in left;
        if deliveries[x].position == position { return Some(x); }
        left := left - {x};
      }
      return None;
    }
  }
}
