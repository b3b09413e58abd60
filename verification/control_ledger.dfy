/** The durable idempotency ledger and receipt spool as transitions on values.

    `h` stands for the canonical business digest of a receipt: any function will do. */
module ControlLedger {
  import opened Outcomes
  import opened Identifiers
  import opened ControlTypes

  const RECEIPT_STREAM := "integration-control-receipts"
  const BATCH_PREFIX := "integration-action-receipt:"

  datatype Ledger = Ledger(
    jobs: map<JobKey, Entry>,
    deliveries: map<string, Delivery>,
    pending: map<nat, Delivery>,
    next: nat,
    lastAck: Option<Ack>)

  const EMPTY := Ledger(map[], map[], map[], 1, None)

  /** Position through which the spool is acknowledged; 0 before the first acknowledgement. */
  function AckPos(s: Ledger): nat { if s.lastAck.Some? then s.lastAck.value.position else 0 }

  datatype ClaimOutcome = Claimed | Existing(entry: Entry) | DigestConflict

  datatype AckOutcome = Applied(removed: nat) | Duplicate | Refused

  // ---------------------------------------------------------------- transitions

  function ClaimJob(s: Ledger, c: Claim): (Ledger, ClaimOutcome) {
    if c.key in s.jobs then
      (s, if s.jobs[c.key].digest == c.digest then Existing(s.jobs[c.key]) else DigestConflict)
    else
      (s.(jobs := s.jobs[c.key := Entry(c.digest, InProgress(c))]), Claimed)
  }

  /** Seals one receipt under a stream position. */
  function Spool(h: Receipt -> string, position: nat, r: Receipt): Option<Delivery> {
    if position == 0 || !ReceiptValid(r) || !Identifier(BATCH_PREFIX + r.id) then None
    else Some(Delivery(position, BATCH_PREFIX + r.id, h(r), r.observedAt, r))
  }

  /** Stores and queues a terminal receipt; the flag tells whether the store accepted it.
      A receipt refused while being sealed still burns the position reserved for it. */
  function CompleteJob(h: Receipt -> string, s: Ledger, key: JobKey, digest: string, r: Receipt): (Ledger, bool) {
    if r.job != key.job || r.digest != digest || key !in s.jobs || s.jobs[key].digest != digest then (s, false)
    else if s.jobs[key].state.Complete? then (s, s.jobs[key].state.receipt == r)
    else
      var jobs := s.jobs[key := Entry(digest, Complete(r))];
      if r.id in s.deliveries then
        var d := s.deliveries[r.id];
        (s.(jobs := jobs, pending := s.pending[d.position := d]), true)
      else if s.next == U64_MAX then (s, false)
      else
        match Spool(h, s.next, r)
        case None => (s.(next := s.next + 1), false)
        case Some(d) =>
          (Ledger(jobs, s.deliveries[r.id := d], s.pending[d.position := d], s.next + 1, s.lastAck), true)
  }

  function RequeueJob(h: Receipt -> string, s: Ledger, key: JobKey): (Ledger, bool) {
    if key !in s.jobs || s.jobs[key].state.InProgress? then (s, false)
    else
      var r := s.jobs[key].state.receipt;
      if r.id !in s.deliveries then (s, false)
      else
        var d := s.deliveries[r.id];
        if s.lastAck.Some? && d.position <= s.lastAck.value.position then
          if s.next == U64_MAX then (s, false)
          else
            match Spool(h, s.next, r)
            case None => (s.(next := s.next + 1), false)
            case Some(d') =>
              (Ledger(s.jobs, s.deliveries[r.id := d'], s.pending[d'.position := d'], s.next + 1, s.lastAck), true)
        else (Ledger(s.jobs, s.deliveries, s.pending[d.position := d], s.next, s.lastAck), true)
  }

  predicate AckShape(s: Ledger, ack: Ack) {
    && ack.stream == RECEIPT_STREAM
    && ack.streamEpoch == 1
    && ack.position != 0
    && ack.sessionEpoch != 0
    && (s.lastAck.Some? ==> s.lastAck.value.position < ack.position)
    && Identifier(ack.sessionId)
    && Identifier(ack.receiptId)
  }

  /** `d` is the delivery an acknowledgement names: current, still pending and with the same identity. */
  predicate AckNames(s: Ledger, ack: Ack, d: Delivery) {
    && d.position == ack.position
    && d.batch == ack.batch
    && d.digest == ack.digest
    && d.position in s.pending
    && s.pending[d.position] == d
  }

  function Through(pending: map<nat, Delivery>, position: nat): set<nat> {
    set p | p in pending && p <= position
  }

  ghost function AcknowledgeThrough(s: Ledger, ack: Ack): (Ledger, AckOutcome) {
    if s.lastAck == Some(ack) then (s, Duplicate)
    else if AckShape(s, ack) && exists id | id in s.deliveries :: AckNames(s, ack, s.deliveries[id]) then
      var gone := Through(s.pending, ack.position);
      (s.(pending := s.pending - gone, lastAck := Some(ack)), Applied(|gone|))
    else (s, Refused)
  }

  // ---------------------------------------------------------------- spool invariant

  /** `key` completed with the receipt `id`. */
  predicate Owns(jobs: map<JobKey, Entry>, key: JobKey, id: string) {
    key in jobs && jobs[key].state.Complete? && jobs[key].state.receipt.id == id
  }

  /** A delivery filed under its own receipt id at an issued position: a valid receipt with the batch identity, digest and
      send time that belong to it. */
  predicate Filed(h: Receipt -> string, id: string, d: Delivery, next: nat) {
    && d.payload.id == id && 1 <= d.position < next && ReceiptValid(d.payload)
    && d.batch == BATCH_PREFIX + id && d.digest == h(d.payload) && d.sentAt == d.payload.observedAt
  }

  ghost predicate AllFiled(h: Receipt -> string, deliveries: map<string, Delivery>, next: nat) {
    forall id | id in deliveries :: Filed(h, id, deliveries[id], next)
  }

  ghost predicate UniquePositions(deliveries: map<string, Delivery>) {
    forall a, b | a in deliveries && b in deliveries && deliveries[a].position == deliveries[b].position :: a == b
  }

  predicate Queued(pending: map<nat, Delivery>, d: Delivery) { d.position in pending && pending[d.position] == d }

  predicate Current(deliveries: map<string, Delivery>, d: Delivery) {
    d.payload.id in deliveries && deliveries[d.payload.id] == d
  }

  /** The pending map is exactly the deliveries beyond the acknowledged position. */
  ghost predicate PendingExact(deliveries: map<string, Delivery>, pending: map<nat, Delivery>, acked: nat) {
    && (forall p | p in pending :: acked < p && pending[p].position == p && Current(deliveries, pending[p]))
    && (forall id | id in deliveries :: acked < deliveries[id].position ==> Queued(pending, deliveries[id]))
  }

  /** Completed jobs and deliveries correspond one to one, receipt for receipt. */
  ghost predicate Owned(jobs: map<JobKey, Entry>, deliveries: map<string, Delivery>) {
    && (forall key | key in jobs && jobs[key].state.Complete? ::
          && jobs[key].state.receipt.id in deliveries
          && deliveries[jobs[key].state.receipt.id].payload == jobs[key].state.receipt)
    && (forall a, b, id | Owns(jobs, a, id) && Owns(jobs, b, id) :: a == b)
    && (forall id | id in deliveries :: exists key :: Owns(jobs, key, id))
  }

  ghost predicate SpoolInv(h: Receipt -> string, s: Ledger) {
    && AckPos(s) < s.next <= U64_MAX
    && AllFiled(h, s.deliveries, s.next)
    && UniquePositions(s.deliveries)
    && PendingExact(s.deliveries, s.pending, AckPos(s))
    && Owned(s.jobs, s.deliveries)
  }

  /** No position was burned: everything issued after the acknowledged position is still pending. */
  ghost predicate Dense(pending: map<nat, Delivery>, acked: nat, next: nat) {
    forall p: nat :: p in pending <==> acked < p < next
  }

  ghost predicate Gapless(s: Ledger) { Dense(s.pending, AckPos(s), s.next) }

  // ---------------------------------------------------------------- one conjunct at a time

  lemma InsertFiled(h: Receipt -> string, deliveries: map<string, Delivery>, next: nat, d: Delivery)
    requires AllFiled(h, deliveries, next) && UniquePositions(deliveries)
    requires Filed(h, d.payload.id, d, next + 1) && d.position == next
    ensures AllFiled(h, deliveries[d.payload.id := d], next + 1) && UniquePositions(deliveries[d.payload.id := d])
  {
    hide Spool;
    var after := deliveries[d.payload.id := d];
    forall id | id in after ensures Filed(h, id, after[id], next + 1) {
      if id != d.payload.id { assert Filed(h, id, deliveries[id], next); }
    }
  }

  lemma InsertPending(deliveries: map<string, Delivery>, pending: map<nat, Delivery>, acked: nat, d: Delivery)
    requires PendingExact(deliveries, pending, acked) && acked < d.position && d.position !in pending
    requires d.payload.id in deliveries ==> deliveries[d.payload.id].position <= acked
    ensures PendingExact(deliveries[d.payload.id := d], pending[d.position := d], acked)
  {
    var after, queue := deliveries[d.payload.id := d], pending[d.position := d];
    forall p | p in queue ensures acked < p && queue[p].position == p && Current(after, queue[p]) {
      if p != d.position { assert Current(deliveries, pending[p]); }
    }
    forall id | id in after && acked < after[id].position ensures Queued(queue, after[id]) {
      if id != d.payload.id { assert Queued(pending, deliveries[id]); }
    }
  }

  lemma SettleOwned(jobs: map<JobKey, Entry>, deliveries: map<string, Delivery>, key: JobKey, entry: Entry, d: Delivery)
    requires Owned(jobs, deliveries)
    requires key in jobs && jobs[key].state.InProgress?
    requires entry.state == Complete(d.payload) && d.payload.id !in deliveries
    ensures Owned(jobs[key := entry], deliveries[d.payload.id := d])
  {
    var jobs', after := jobs[key := entry], deliveries[d.payload.id := d];
    forall k, id ensures Owns(jobs', k, id) <==> Owns(jobs, k, id) || (k == key && id == d.payload.id) {}
    forall id | id in after ensures exists k :: Owns(jobs', k, id) {
      if id == d.payload.id {
        assert Owns(jobs', key, id);
      } else {
        var k :| Owns(jobs, k, id);
        assert Owns(jobs', k, id);
      }
    }
  }

  lemma ClaimOwned(jobs: map<JobKey, Entry>, deliveries: map<string, Delivery>, key: JobKey, entry: Entry)
    requires Owned(jobs, deliveries) && key !in jobs && entry.state.InProgress?
    ensures Owned(jobs[key := entry], deliveries)
  {
    var jobs' := jobs[key := entry];
    forall k, id ensures Owns(jobs', k, id) <==> Owns(jobs, k, id) {}
    forall id | id in deliveries ensures exists k :: Owns(jobs', k, id) {
      var k :| Owns(jobs, k, id);
      assert Owns(jobs', k, id);
    }
  }

  /** Replacing a delivery by another one of the same receipt leaves ownership alone. */
  lemma ReplaceOwned(jobs: map<JobKey, Entry>, deliveries: map<string, Delivery>, d: Delivery)
    requires Owned(jobs, deliveries) && d.payload.id in deliveries && deliveries[d.payload.id].payload == d.payload
    ensures Owned(jobs, deliveries[d.payload.id := d])
  {}

  lemma DropAcknowledged(deliveries: map<string, Delivery>, pending: map<nat, Delivery>, acked: nat, through: nat, next: nat)
    requires PendingExact(deliveries, pending, acked) && acked <= through
    ensures Dense(pending, acked, next) ==> Dense(pending - Through(pending, through), through, next)
    ensures PendingExact(deliveries, pending - Through(pending, through), through)
    ensures |pending - Through(pending, through)| + |Through(pending, through)| == |pending|
  {
    var gone := Through(pending, through);
    var queue := pending - gone;
    forall p | p in queue ensures through < p && queue[p].position == p && Current(deliveries, queue[p]) {
      assert Current(deliveries, pending[p]);
    }
    forall id | id in deliveries && through < deliveries[id].position ensures Queued(queue, deliveries[id]) {
      assert Queued(pending, deliveries[id]);
    }
    assert queue.Keys == pending.Keys - gone;
    assert |queue.Keys| == |pending.Keys| - |gone|;
  }

  lemma BatchIdentifier(r: Receipt)
    requires Uuid(r.id)
    ensures Identifier(BATCH_PREFIX + r.id)
  {
    var b := BATCH_PREFIX + r.id;
    forall i | 1 <= i < |b| ensures IdentifierChar(b[i]) {
      if |BATCH_PREFIX| <= i { assert b[i] == r.id[i - |BATCH_PREFIX|]; }
    }
  }

  /** A receipt can be sealed exactly when it passes the receipt checks. */
  lemma SpoolIffValid(h: Receipt -> string, position: nat, r: Receipt)
    requires 0 < position
    ensures Spool(h, position, r).Some? <==> ReceiptValid(r)
    ensures ReceiptValid(r) ==> Filed(h, r.id, Spool(h, position, r).value, position + 1)
    ensures ReceiptValid(r) ==> Spool(h, position, r).value.position == position && Spool(h, position, r).value.payload == r
  {
    if ReceiptValid(r) { BatchIdentifier(r); }
  }

  // ---------------------------------------------------------------- every transition keeps the spool

  lemma ClaimKeepsSpool(h: Receipt -> string, s: Ledger, c: Claim)
    requires SpoolInv(h, s)
    ensures SpoolInv(h, ClaimJob(s, c).0)
    ensures Gapless(s) ==> Gapless(ClaimJob(s, c).0)
  {
    hide AllFiled, UniquePositions, PendingExact, Owned, Dense;
    if c.key !in s.jobs { ClaimOwned(s.jobs, s.deliveries, c.key, Entry(c.digest, InProgress(c))); }
  }

  /** The transition that actually turns a claimed job into a completed one. */
  predicate Settles(s: Ledger, key: JobKey, digest: string, r: Receipt) {
    r.job == key.job && r.digest == digest && key in s.jobs && s.jobs[key].digest == digest && s.jobs[key].state.InProgress?
  }

  lemma NextIsFree(s: Ledger)
    requires PendingExact(s.deliveries, s.pending, AckPos(s))
    requires forall id | id in s.deliveries :: s.deliveries[id].position < s.next
    ensures s.next !in s.pending
  {
    assert s.next in s.pending ==> Current(s.deliveries, s.pending[s.next]);
  }

  lemma CompleteFresh(h: Receipt -> string, s: Ledger, key: JobKey, digest: string, r: Receipt)
    requires SpoolInv(h, s)
    requires Settles(s, key, digest, r) ==> r.id !in s.deliveries
    ensures SpoolInv(h, CompleteJob(h, s, key, digest, r).0)
    ensures ReceiptValid(r) && Gapless(s) ==> Gapless(CompleteJob(h, s, key, digest, r).0)
  {
    if Settles(s, key, digest, r) && s.next < U64_MAX {
      SpoolIffValid(h, s.next, r);
      FiledBelow(h, s);
      hide Spool, ReceiptValid, Filed;
      if Spool(h, s.next, r).Some? {
        SettleFresh(h, s, key, digest, r);
      } else {
        hide UniquePositions, PendingExact, Owned, Dense;
        assert AllFiled(h, s.deliveries, s.next + 1) by { WiderFiled(h, s.deliveries, s.next); }
      }
    }
  }

  lemma FiledBelow(h: Receipt -> string, s: Ledger)
    requires AllFiled(h, s.deliveries, s.next)
    ensures forall id | id in s.deliveries :: s.deliveries[id].position < s.next
  {
    hide Spool;
    forall id | id in s.deliveries ensures s.deliveries[id].position < s.next { assert Filed(h, id, s.deliveries[id], s.next); }
  }

  lemma WiderFiled(h: Receipt -> string, deliveries: map<string, Delivery>, next: nat)
    requires AllFiled(h, deliveries, next)
    ensures AllFiled(h, deliveries, next + 1)
  {
    hide Spool;
    forall id | id in deliveries ensures Filed(h, id, deliveries[id], next + 1) { assert Filed(h, id, deliveries[id], next); }
  }

  /** Queueing a valid receipt at the next position, under a new id or one whose delivery is acknowledged. */
  lemma EnqueueKeeps(h: Receipt -> string, s: Ledger, r: Receipt)
    requires SpoolInv(h, s) && s.next < U64_MAX && ReceiptValid(r)
    requires r.id in s.deliveries ==> s.deliveries[r.id].position <= AckPos(s)
    ensures Spool(h, s.next, r).Some?
    ensures var d := Spool(h, s.next, r).value;
            && d.position == s.next && d.payload == r
            && AllFiled(h, s.deliveries[r.id := d], s.next + 1)
            && UniquePositions(s.deliveries[r.id := d])
            && PendingExact(s.deliveries[r.id := d], s.pending[s.next := d], AckPos(s))
            && (Gapless(s) ==> Dense(s.pending[s.next := d], AckPos(s), s.next + 1))
  {
    SpoolIffValid(h, s.next, r);
    FiledBelow(h, s);
    hide Spool, ReceiptValid, Filed, AllFiled, UniquePositions, PendingExact, Owned;
    var d := Spool(h, s.next, r).value;
    NextIsFree(s);
    InsertFiled(h, s.deliveries, s.next, d);
    InsertPending(s.deliveries, s.pending, AckPos(s), d);
  }

  lemma SettleFresh(h: Receipt -> string, s: Ledger, key: JobKey, digest: string, r: Receipt)
    requires SpoolInv(h, s) && Settles(s, key, digest, r) && r.id !in s.deliveries && s.next < U64_MAX && ReceiptValid(r)
    ensures var s' := CompleteJob(h, s, key, digest, r).0;
            && SpoolInv(h, s')
            && (Gapless(s) ==> Gapless(s'))
            && s'.jobs == s.jobs[key := Entry(digest, Complete(r))]
            && CompleteJob(h, s, key, digest, r).1
            && AckPos(s') == AckPos(s) < s'.deliveries[r.id].position
  {
    hide Spool, ReceiptValid, AllFiled, UniquePositions, PendingExact, Owned, Dense;
    EnqueueKeeps(h, s, r);
    SettleOwned(s.jobs, s.deliveries, key, Entry(digest, Complete(r)), Spool(h, s.next, r).value);
  }

  /** A settling completion keeps the spool invariant exactly when its receipt id is new:
      reusing an id makes two jobs share one delivery. */
  lemma CompleteKeepsSpoolIff(h: Receipt -> string, s: Ledger, key: JobKey, digest: string, r: Receipt)
    requires SpoolInv(h, s)
    requires Settles(s, key, digest, r)
    ensures SpoolInv(h, CompleteJob(h, s, key, digest, r).0) <==> r.id !in s.deliveries
  {
    if r.id in s.deliveries {
      var s' := CompleteJob(h, s, key, digest, r).0;
      hide AllFiled, UniquePositions, PendingExact, Spool;
      var other :| Owns(s.jobs, other, r.id);
      assert Owns(s'.jobs, other, r.id) && Owns(s'.jobs, key, r.id) && other != key;
    } else {
      CompleteFresh(h, s, key, digest, r);
    }
  }

  /** Requeueing touches no job, and is a no-op unless the receipt was already acknowledged. */
  lemma RequeueKeepsSpool(h: Receipt -> string, s: Ledger, key: JobKey)
    requires SpoolInv(h, s)
    ensures SpoolInv(h, RequeueJob(h, s, key).0)
    ensures Gapless(s) ==> Gapless(RequeueJob(h, s, key).0)
    ensures RequeueJob(h, s, key).0.jobs == s.jobs
    ensures RequeueJob(h, s, key).0.deliveries.Keys == s.deliveries.Keys
  {
    hide Spool, ReceiptValid, AllFiled, UniquePositions, Owned, Dense, PendingExact;
    if key in s.jobs && s.jobs[key].state.Complete? {
      OwnedDelivery(h, s, key);
      var r := s.jobs[key].state.receipt;
      var d := s.deliveries[r.id];
      if s.lastAck.Some? && d.position <= s.lastAck.value.position {
        if s.next < U64_MAX {
          RequeueAgain(h, s, key, r);
          assert s.deliveries[r.id := Spool(h, s.next, r).value].Keys == s.deliveries.Keys;
        }
      } else {
        StillQueued(s, d);
      }
    }
  }

  lemma StillQueued(s: Ledger, d: Delivery)
    requires PendingExact(s.deliveries, s.pending, AckPos(s)) && Current(s.deliveries, d) && AckPos(s) < d.position
    ensures Queued(s.pending, d) && s.pending[d.position := d] == s.pending
  {}

  /** A completed receipt is pending again after requeueing; the call fails only when positions run out. */
  lemma RequeuePublishes(h: Receipt -> string, s: Ledger, key: JobKey)
    requires SpoolInv(h, s) && key in s.jobs && s.jobs[key].state.Complete?
    ensures var (s', ok) := RequeueJob(h, s, key);
            var r := s.jobs[key].state.receipt;
            if s.deliveries[r.id].position <= AckPos(s) && s.next == U64_MAX then !ok && s' == s
            else
              && ok && s'.deliveries[r.id].payload == r && Queued(s'.pending, s'.deliveries[r.id])
              && (if s.deliveries[r.id].position <= AckPos(s) then s'.deliveries[r.id].position == s.next else s' == s)
  {
    OwnedDelivery(h, s, key);
    hide Spool, ReceiptValid, AllFiled, UniquePositions, Owned, Dense, PendingExact;
    var r := s.jobs[key].state.receipt;
    var d := s.deliveries[r.id];
    if d.position <= AckPos(s) {
      if s.next < U64_MAX { RequeueAgain(h, s, key, r); }
    } else {
      StillQueued(s, d);
    }
  }

  lemma OwnedDelivery(h: Receipt -> string, s: Ledger, key: JobKey)
    requires SpoolInv(h, s) && key in s.jobs && s.jobs[key].state.Complete?
    ensures var r := s.jobs[key].state.receipt;
            r.id in s.deliveries && s.deliveries[r.id].payload == r && 0 < s.deliveries[r.id].position && ReceiptValid(r)
  {
    var r := s.jobs[key].state.receipt;
    assert Filed(h, r.id, s.deliveries[r.id], s.next);
  }

  lemma RequeueAgain(h: Receipt -> string, s: Ledger, key: JobKey, r: Receipt)
    requires SpoolInv(h, s) && s.next < U64_MAX && ReceiptValid(r)
    requires key in s.jobs && s.jobs[key].state == Complete(r) && s.lastAck.Some?
    requires r.id in s.deliveries && s.deliveries[r.id].payload == r && s.deliveries[r.id].position <= AckPos(s)
    ensures Spool(h, s.next, r).Some?
    ensures var d := Spool(h, s.next, r).value;
            var s' := s.(deliveries := s.deliveries[r.id := d], pending := s.pending[s.next := d], next := s.next + 1);
            RequeueJob(h, s, key) == (s', true) && d.payload == r && d.position == s.next && SpoolInv(h, s') && (Gapless(s) ==> Gapless(s'))
  {
    hide ReceiptValid, AllFiled, UniquePositions, PendingExact, Dense, Owned;
    EnqueueKeeps(h, s, r);
    hide Spool;
    ReplaceOwned(s.jobs, s.deliveries, Spool(h, s.next, r).value);
  }

  lemma AcknowledgeKeepsSpool(h: Receipt -> string, s: Ledger, ack: Ack)
    requires SpoolInv(h, s)
    ensures var (s', outcome) := AcknowledgeThrough(s, ack);
            && SpoolInv(h, s')
            && (Gapless(s) ==> Gapless(s'))
            && s'.jobs == s.jobs && s'.deliveries == s.deliveries && s'.next == s.next
            && |s'.pending| + (if outcome.Applied? then outcome.removed else 0) == |s.pending|
            && (outcome.Applied? ==> AckPos(s) < AckPos(s') == ack.position)
            && (!outcome.Applied? ==> s' == s)
  {
    hide Identifier, UniquePositions, Owned, AllFiled, PendingExact, Dense;
    if AcknowledgeThrough(s, ack).1.Applied? {
      var id :| id in s.deliveries && AckNames(s, ack, s.deliveries[id]);
      FiledBelow(h, s);
      DropAcknowledged(s.deliveries, s.pending, AckPos(s), ack.position, s.next);
    }
  }

  /** What the cloud must send for the spool to advance: a well-formed acknowledgement of this stream, beyond what is
      acknowledged, naming a pending receipt by its position, batch and digest. */
  predicate NamesPending(s: Ledger, ack: Ack) {
    && ack.stream == "integration-control-receipts" && ack.streamEpoch == 1 && ack.sessionEpoch != 0
    && Identifier(ack.sessionId) && Identifier(ack.receiptId)
    && AckPos(s) < ack.position
    && ack.position in s.pending && s.pending[ack.position].batch == ack.batch && s.pending[ack.position].digest == ack.digest
  }

  /** An acknowledgement is applied exactly when it names a pending receipt, and then removes exactly the receipts up to it;
      it is a duplicate exactly when it repeats the last one; any other is refused. */
  lemma AcknowledgeIff(h: Receipt -> string, s: Ledger, ack: Ack)
    requires SpoolInv(h, s)
    ensures var (s', outcome) := AcknowledgeThrough(s, ack);
            && (outcome.Applied? <==> NamesPending(s, ack))
            && (outcome.Duplicate? <==> s.lastAck == Some(ack))
            && (outcome.Applied? ==>
                  && s'.lastAck == Some(ack) && outcome.removed == |set p | p in s.pending && p <= ack.position|
                  && (forall p :: p in s'.pending <==> p in s.pending && ack.position < p)
                  && (forall p | p in s'.pending :: s'.pending[p] == s.pending[p]))
  {
    hide Identifier, UniquePositions, Owned, AllFiled;
    if NamesPending(s, ack) {
      var d := s.pending[ack.position];
      assert Current(s.deliveries, d) && AckNames(s, ack, s.deliveries[d.payload.id]);
    }
  }

  /** When a terminal receipt is accepted: it is about this job and intent, and the job either holds that very receipt or is
      in progress and the receipt can be queued. */
  predicate Completes(s: Ledger, key: JobKey, digest: string, r: Receipt) {
    && key in s.jobs && r.job == key.job && r.digest == digest == s.jobs[key].digest
    && match s.jobs[key].state
       case Complete(stored) => stored == r
       case InProgress(_) => r.id in s.deliveries || (ReceiptValid(r) && s.next < U64_MAX)
  }

  /** A completion is accepted exactly so, and then the job holds the receipt and nothing else changed but its delivery: a
      new receipt is queued at the next position under its own identity. A refused one changes no job and no delivery. */
  lemma CompleteIff(h: Receipt -> string, s: Ledger, key: JobKey, digest: string, r: Receipt)
    requires 0 < s.next <= U64_MAX
    ensures var (s', ok) := CompleteJob(h, s, key, digest, r);
            && (ok <==> Completes(s, key, digest, r))
            && (ok ==> s'.jobs == s.jobs[key := Entry(digest, Complete(r))])
            && (ok && s.jobs[key].state.InProgress? && r.id !in s.deliveries ==>
                  var d := Delivery(s.next, BATCH_PREFIX + r.id, h(r), r.observedAt, r);
                  s'.deliveries == s.deliveries[r.id := d] && s'.pending == s.pending[s.next := d] && s'.next == s.next + 1)
            && (!ok ==> s'.jobs == s.jobs && s'.deliveries == s.deliveries && s'.pending == s.pending)
            && s'.lastAck == s.lastAck
  {
    SpoolIffValid(h, s.next, r);
    hide ReceiptValid;
    if key in s.jobs && s.jobs[key].state.Complete? { assert s.jobs[key := s.jobs[key]] == s.jobs; }
  }
}
