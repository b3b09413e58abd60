/** The receipt spool over whole runs of ledger operations. */
module ControlSpoolRuns {
  import opened Outcomes
  import opened ControlTypes
  import opened ControlLedger

  datatype Op =
    | Claiming(claim: Claim)
    | Completing(key: JobKey, digest: string, receipt: Receipt)
    | Requeueing(key: JobKey)
    | Acknowledging(ack: Ack)

  ghost function Exec(h: Receipt -> string, s: Ledger, op: Op): Ledger {
    match op
    case Claiming(c) => ClaimJob(s, c).0
    case Completing(key, digest, r) => CompleteJob(h, s, key, digest, r).0
    case Requeueing(key) => RequeueJob(h, s, key).0
    case Acknowledging(ack) => AcknowledgeThrough(s, ack).0
  }

  ghost function After(h: Receipt -> string, s: Ledger, ops: seq<Op>): Ledger
    decreases |ops|
  {
    if ops == [] then s else After(h, Exec(h, s, ops[0]), ops[1..])
  }

  /** The positions of the acknowledgements that were applied, in order. */
  ghost function AppliedAcks(h: Receipt -> string, s: Ledger, ops: seq<Op>): seq<nat>
    decreases |ops|
  {
    if ops == [] then []
    else
      var rest := AppliedAcks(h, Exec(h, s, ops[0]), ops[1..]);
      if ops[0].Acknowledging? && AcknowledgeThrough(s, ops[0].ack).1.Applied? then [ops[0].ack.position] + rest else rest
  }

  /** The sum of the removed counts reported by applied acknowledgements. */
  ghost function TotalRemoved(h: Receipt -> string, s: Ledger, ops: seq<Op>): nat
    decreases |ops|
  {
    if ops == [] then 0
    else
      var rest := TotalRemoved(h, Exec(h, s, ops[0]), ops[1..]);
      if ops[0].Acknowledging? && AcknowledgeThrough(s, ops[0].ack).1.Applied?
      then AcknowledgeThrough(s, ops[0].ack).1.removed + rest else rest
  }

  /** Every completion carries a valid receipt, and one that settles a job has an id never used before. */
  ghost predicate FreshIds(h: Receipt -> string, s: Ledger, ops: seq<Op>)
    decreases |ops|
  {
    ops != [] ==>
      && (ops[0].Completing? ==> ReceiptValid(ops[0].receipt))
      && (ops[0].Completing? && Settles(s, ops[0].key, ops[0].digest, ops[0].receipt) ==> ops[0].receipt.id !in s.deliveries)
      && FreshIds(h, Exec(h, s, ops[0]), ops[1..])
  }

  lemma ExecKeeps(h: Receipt -> string, s: Ledger, op: Op)
    requires SpoolInv(h, s) && Gapless(s) && FreshIds(h, s, [op])
    ensures SpoolInv(h, Exec(h, s, op)) && Gapless(Exec(h, s, op))
  {
    hide ReceiptValid, SpoolInv, Gapless, ClaimJob, CompleteJob, RequeueJob, AcknowledgeThrough;
    match op
    case Claiming(c) => ClaimKeepsSpool(h, s, c);
    case Completing(key, digest, r) => CompleteFresh(h, s, key, digest, r);
    case Requeueing(key) => RequeueKeepsSpool(h, s, key);
    case Acknowledging(ack) => AcknowledgeKeepsSpool(h, s, ack);
  }

  /** Apart from applied acknowledgements, no operation moves the acknowledged position. */
  lemma ExecAck(h: Receipt -> string, s: Ledger, op: Op)
    requires SpoolInv(h, s) && Gapless(s)
    ensures op.Acknowledging? && AcknowledgeThrough(s, op.ack).1.Applied? ==>
              && AckPos(s) < op.ack.position == AckPos(Exec(h, s, op))
              && AcknowledgeThrough(s, op.ack).1.removed == op.ack.position - AckPos(s)
    ensures !(op.Acknowledging? && AcknowledgeThrough(s, op.ack).1.Applied?) ==> AckPos(Exec(h, s, op)) == AckPos(s)
  {
    hide SpoolInv;
    if op.Acknowledging? {
      AcknowledgeKeepsSpool(h, s, op.ack);
      if AcknowledgeThrough(s, op.ack).1.Applied? {
        var s' := AcknowledgeThrough(s, op.ack).0;
        DenseCount(s.pending, AckPos(s), s.next);
        AckBelowNext(h, s');
        DenseCount(s'.pending, AckPos(s'), s'.next);
      }
    }
  }

  lemma AckBelowNext(h: Receipt -> string, s: Ledger)
    requires SpoolInv(h, s)
    ensures AckPos(s) < s.next <= U64_MAX
  {}

  lemma {:induction false} DenseCount(pending: map<nat, Delivery>, acked: nat, next: nat)
    requires acked < next && Dense(pending, acked, next)
    ensures |pending| == next - 1 - acked
    decreases next
  {
    if acked + 1 == next {
      assert pending.Keys == {};
    } else {
      var fewer := pending - {next - 1};
      assert fewer.Keys == pending.Keys - {next - 1};
      DenseCount(fewer, acked, next - 1);
    }
  }

  /** After any run with fresh receipt ids the spool invariant holds, pending is exactly the window of issued
      positions after the last acknowledgement, and removed plus pending account for every issued position. */
  lemma {:induction false} SpoolOverRuns(h: Receipt -> string, s: Ledger, ops: seq<Op>)
    requires SpoolInv(h, s) && Gapless(s) && FreshIds(h, s, ops)
    ensures var s' := After(h, s, ops);
            && SpoolInv(h, s') && Gapless(s')
            && AckPos(s) + TotalRemoved(h, s, ops) == AckPos(s')
            && AckPos(s) + TotalRemoved(h, s, ops) + |s'.pending| == s'.next - 1
    decreases |ops|
  {
    hide ReceiptValid, SpoolInv, Settles, Gapless;
    if ops == [] {
      AckBelowNext(h, s);
      assert Gapless(s) ==> Dense(s.pending, AckPos(s), s.next) by { GaplessIsDense(s); }
      DenseCount(s.pending, AckPos(s), s.next);
    } else {
      assert FreshIds(h, s, [ops[0]]);
      ExecKeeps(h, s, ops[0]);
      ExecAck(h, s, ops[0]);
      SpoolOverRuns(h, Exec(h, s, ops[0]), ops[1..]);
    }
  }

  lemma GaplessIsDense(s: Ledger)
    ensures Gapless(s) <==> Dense(s.pending, AckPos(s), s.next)
  {}

  /** Strictly increasing, and everything beyond `acked`. */
  ghost predicate Advancing(acked: nat, acks: seq<nat>)
    decreases |acks|
  {
    acks != [] ==> acked < acks[0] && Advancing(acks[0], acks[1..])
  }

  lemma {:induction false} AdvancingOrdered(acked: nat, acks: seq<nat>)
    requires Advancing(acked, acks)
    ensures forall i | 0 <= i < |acks| :: acked < acks[i]
    ensures forall i, j | 0 <= i < j < |acks| :: acks[i] < acks[j]
    decreases |acks|
  {
    if acks != [] {
      AdvancingOrdered(acks[0], acks[1..]);
      forall i | 1 <= i < |acks| ensures acks[0] < acks[i] { assert acks[i] == acks[1..][i - 1]; }
      forall i, j | 1 <= i < j < |acks| ensures acks[i] < acks[j] {
        assert acks[i] == acks[1..][i - 1] && acks[j] == acks[1..][j - 1];
      }
    }
  }

  /** Acknowledgements that are applied advance strictly. */
  lemma {:induction false} AcksAdvance(h: Receipt -> string, s: Ledger, ops: seq<Op>)
    requires SpoolInv(h, s) && Gapless(s) && FreshIds(h, s, ops)
    ensures Advancing(AckPos(s), AppliedAcks(h, s, ops))
    decreases |ops|
  {
    hide ReceiptValid, SpoolInv, Settles, Gapless;
    if ops != [] {
      assert FreshIds(h, s, [ops[0]]);
      ExecKeeps(h, s, ops[0]);
      ExecAck(h, s, ops[0]);
      AcksAdvance(h, Exec(h, s, ops[0]), ops[1..]);
      var rest := AppliedAcks(h, Exec(h, s, ops[0]), ops[1..]);
      if ops[0].Acknowledging? { assert ([ops[0].ack.position] + rest)[1..] == rest; }
    }
  }

  /** The theorem for the ledger a process starts from. */
  lemma SpoolFromEmpty(h: Receipt -> string, ops: seq<Op>)
    requires FreshIds(h, EMPTY, ops)
    ensures var s := After(h, EMPTY, ops);
            SpoolInv(h, s) && Gapless(s) && TotalRemoved(h, EMPTY, ops) + |s.pending| == s.next - 1
  {
    SpoolOverRuns(h, EMPTY, ops);
  }
}
