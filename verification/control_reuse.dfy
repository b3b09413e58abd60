/** A run in which a receipt id is used twice. */
module ControlReuse {
  import opened Outcomes
  import opened Identifiers
  import opened ControlTypes
  import opened ControlLedger
  import opened ControlSpoolRuns

  const GATEWAY := "33333333-3333-4333-8333-333333333333"
  const FIRST_JOB := "44444444-4444-4444-8444-444444444444"

  function Zeros(n: nat): string { seq(n, _ => '0') }

  const DIGEST := "sha256:" + Zeros(64)

  const TARGET := Target("site", 1, "lamp")

  /** The second job happens to carry the gateway's identifier as its own. */
  function ClaimOn(job: string): Claim { Claim(JobKey(GATEWAY, job), DIGEST, TARGET, true, "record") }

  /** A valid receipt for the job, under the one receipt id. */
  function ReceiptFor(job: string): Receipt {
    Receipt(job, GATEWAY, TARGET, DIGEST, Unknown, Undecided, 1, None, Some(Interrupted), "record", AuditComplete)
  }

  /** Claim both jobs, then complete both under the same receipt id. */
  function ReusingRun(): seq<Op> {
    [Claiming(ClaimOn(FIRST_JOB)), Claiming(ClaimOn(GATEWAY)),
     Completing(JobKey(GATEWAY, FIRST_JOB), DIGEST, ReceiptFor(FIRST_JOB)),
     Completing(JobKey(GATEWAY, GATEWAY), DIGEST, ReceiptFor(GATEWAY))]
  }

  lemma GatewayValid()
    ensures Uuid(GATEWAY)
  {}

  lemma FirstJobValid()
    ensures Uuid(FIRST_JOB) && FIRST_JOB != GATEWAY
  {
    assert FIRST_JOB[0] != GATEWAY[0];
  }

  lemma ReceiptsValid()
    ensures ReceiptValid(ReceiptFor(FIRST_JOB)) && ReceiptValid(ReceiptFor(GATEWAY))
  {
    hide Uuid;
    GatewayValid();
    FirstJobValid();
    var d := DIGEST;
    assert d[..7] == "sha256:" && forall i | 7 <= i < 71 :: d[i] == '0';
    assert DigestText(d);
    assert Identifier("site") && Identifier("lamp") && Identifier("record");
  }

  /** The ledger after both claims and the first completion. */
  lemma ThreeSteps(h: Receipt -> string) returns (s: Ledger)
    ensures s == After(h, EMPTY, ReusingRun()[..3])
    ensures SpoolInv(h, s)
    ensures GATEWAY in s.deliveries && Settles(s, JobKey(GATEWAY, GATEWAY), DIGEST, ReceiptFor(GATEWAY))
  {
    hide ReceiptValid, SpoolInv, Uuid;
    ReceiptsValid();
    FirstJobValid();
    var a, b := ClaimOn(FIRST_JOB), ClaimOn(GATEWAY);
    var r := ReceiptFor(FIRST_JOB);
    EmptySpool(h);
    var s1 := ClaimJob(EMPTY, a).0;
    ClaimKeepsSpool(h, EMPTY, a);
    var s2 := ClaimJob(s1, b).0;
    ClaimKeepsSpool(h, s1, b);
    assert s2.deliveries == map[] && s2.next == 1 && a.key in s2.jobs && s2.jobs[a.key].state == InProgress(a);
    s := CompleteJob(h, s2, a.key, DIGEST, r).0;
    CompleteFresh(h, s2, a.key, DIGEST, r);
    SpoolIffValid(h, 1, r);
    Unfolded(h, a, b, r);
  }

  lemma EmptySpool(h: Receipt -> string)
    ensures SpoolInv(h, EMPTY)
  {}

  lemma Unfolded(h: Receipt -> string, a: Claim, b: Claim, r: Receipt)
    requires a == ClaimOn(FIRST_JOB) && b == ClaimOn(GATEWAY) && r == ReceiptFor(FIRST_JOB)
    ensures After(h, EMPTY, ReusingRun()[..3]) == CompleteJob(h, ClaimJob(ClaimJob(EMPTY, a).0, b).0, a.key, DIGEST, r).0
  {
    hide ClaimJob, CompleteJob;
    var ops := ReusingRun()[..3];
    var first, second := ops[1..], ops[2..];
    assert ops[0] == Claiming(a) && first[0] == Claiming(b) && first[1..] == second;
    assert second[0] == Completing(a.key, DIGEST, r) && second[1..] == [];
    var s1, s2 := ClaimJob(EMPTY, a).0, ClaimJob(ClaimJob(EMPTY, a).0, b).0;
    assert After(h, EMPTY, ops) == After(h, s1, first);
    assert After(h, s1, first) == After(h, s2, second);
    assert After(h, s2, second) == After(h, CompleteJob(h, s2, a.key, DIGEST, r).0, []);
  }

  lemma {:induction false} AfterSnoc(h: Receipt -> string, s: Ledger, ops: seq<Op>, op: Op)
    ensures After(h, s, ops + [op]) == Exec(h, After(h, s, ops), op)
    decreases |ops|
  {
    hide Exec;
    if ops == [] {
      assert (ops + [op])[1..] == [];
    } else {
      assert (ops + [op])[1..] == ops[1..] + [op];
      AfterSnoc(h, Exec(h, s, ops[0]), ops[1..], op);
    }
  }

  /** With valid receipts throughout, the reusing run ends with two jobs on one delivery: the spool invariant is lost. */
  lemma ReuseBreaksSpool(h: Receipt -> string)
    ensures ReceiptValid(ReceiptFor(FIRST_JOB)) && ReceiptValid(ReceiptFor(GATEWAY))
    ensures SpoolInv(h, After(h, EMPTY, ReusingRun()[..3])) && !SpoolInv(h, After(h, EMPTY, ReusingRun()))
  {
    hide ReceiptValid, SpoolInv, Exec, After, Uuid, Settles;
    ReceiptsValid();
    var s := ThreeSteps(h);
    var key, r := JobKey(GATEWAY, GATEWAY), ReceiptFor(GATEWAY);
    CompleteKeepsSpoolIff(h, s, key, DIGEST, r);
    LastStep(h);
  }

  lemma LastStep(h: Receipt -> string)
    ensures After(h, EMPTY, ReusingRun()) ==
            CompleteJob(h, After(h, EMPTY, ReusingRun()[..3]), JobKey(GATEWAY, GATEWAY), DIGEST, ReceiptFor(GATEWAY)).0
  {
    hide CompleteJob, After;
    var last := Completing(JobKey(GATEWAY, GATEWAY), DIGEST, ReceiptFor(GATEWAY));
    assert ReusingRun() == ReusingRun()[..3] + [last];
    AfterSnoc(h, EMPTY, ReusingRun()[..3], last);
  }
}
