/** Sealing an observation batch, whole or in parts, under the message bound. */
module Partition {
  import opened Outcomes
  import opened Identifiers
  import opened Numerals
  import opened CanonicalJson
  import opened CanonicalReader
  import opened TextOrder
  import opened GreedySplit
  import opened Envelopes

  const BATCH_SCHEMA := "aether.integration.observation-batch.v1alpha1"
  const MAX_BATCH_ID_BYTES: nat := 128
  const MAX_PARTITIONS: nat := 65_536
  const MAX_OBSERVATIONS: nat := 65_536
  const MAX_INTEGRATION_BYTES: nat := 16_777_216

  /** A batch; each observation is carried as its canonical UTF-8 bytes, one character per byte. */
  datatype Batch = Batch(integrationId: string, generation: string, batchId: string, observedAt: string, observations: seq<string>)

  /** What the contract knows beside the batch: the bound topology and its per-observation checks. */
  datatype Topology = Topology(
    integrationId: string, generation: string, valid: bool, wellFormed: string -> bool, declared: string -> bool)

  datatype Enqueue = Enqueue(batch: Batch, payload: string, createdAt: nat, expiresAt: Option<nat>)

  datatype PrepareError = StreamBinding | Contract | InvalidField | TooLarge(found: nat, maximum: nat)

  // ---------- the contract of a batch ----------

  predicate WireBatch(t: Topology, b: Batch) {
    && Identifier(b.integrationId) && ContractU64(b.generation).Ok? && Identifier(b.batchId) && ContractU64(b.observedAt).Ok?
    && 1 <= |b.observations| <= MAX_OBSERVATIONS
    && forall i | 0 <= i < |b.observations| :: t.wellFormed(b.observations[i])
  }

  predicate ContractBatch(t: Topology, b: Batch) {
    && t.valid && WireBatch(t, b)
    && b.integrationId == t.integrationId && b.generation == t.generation
    && forall i | 0 <= i < |b.observations| :: t.declared(b.observations[i])
  }

  function PayloadFields(b: Batch): seq<Field> {
    [Text("batch_id", b.batchId), Text("integration_id", b.integrationId), Field("observations", Some(Array(b.observations))),
     Text("observed_at_ms", b.observedAt), Text("schema", BATCH_SCHEMA), Text("snapshot_generation", b.generation)]
  }

  function PayloadText(b: Batch): string { Object(PayloadFields(b)) }

  lemma PayloadOrder(b: Batch)
    ensures InKeyOrder(PayloadFields(b))
  {
    hide Quoted, Array, Before;
    BeforeAt("batch_id", "integration_id", 0);
    BeforeAt("integration_id", "observations", 0);
    BeforeAt("observations", "observed_at_ms", 6);
    BeforeAt("observed_at_ms", "schema", 0);
    BeforeAt("schema", "snapshot_generation", 1);
  }

  // ---------- reading a batch back ----------

  /** The batch a batch text says, member by member. */
  function DecodeBatch(text: string): Option<Batch> {
    var batchId, integrationId := LookupText(text, "batch_id"), LookupText(text, "integration_id");
    var observedAt, generation := LookupText(text, "observed_at_ms"), LookupText(text, "snapshot_generation");
    var observations := Nested(Lookup(text, "observations"), Elements);
    if batchId.None? || integrationId.None? || observedAt.None? || generation.None? || observations.None? then None
    else if LookupText(text, "schema") != Some("aether.integration.observation-batch.v1alpha1") then None
    else Some(Batch(integrationId.value, generation.value, batchId.value, observedAt.value, observations.value))
  }

  /** Every observation is one JSON value, so the list of them can be taken apart again. */
  ghost predicate JsonObservations(b: Batch) { forall i | 0 <= i < |b.observations| :: OneValue(b.observations[i]) }

  lemma NumeralTextPlain(s: string)
    requires ContractU64(s).Ok?
    ensures Plain(s)
  {
    hide Value;
  }

  lemma PlainBoth(a: string, b: string)
    ensures Plain(a) && Plain(b) ==> Plain(a + b)
  {}

  lemma SchemaHead()
    ensures Plain("aether.integration.")
  {}

  lemma SchemaTail()
    ensures Plain("observation-batch.v1alpha1")
  {}

  lemma SchemaJoins()
    ensures BATCH_SCHEMA == "aether.integration." + "observation-batch.v1alpha1"
  {}

  lemma SchemaPlain()
    ensures Plain(BATCH_SCHEMA)
  {
    hide Plain;
    SchemaHead();
    SchemaTail();
    SchemaJoins();
    PlainBoth("aether.integration.", "observation-batch.v1alpha1");
  }

  lemma BatchKeysPlain()
    ensures Plain("batch_id") && Plain("integration_id") && Plain("observations") && Plain("observed_at_ms") && Plain("schema")
    ensures Plain("snapshot_generation")
  {}

  lemma BatchPlain(t: Topology, b: Batch)
    requires WireBatch(t, b)
    ensures Plain(b.batchId) && Plain(b.integrationId) && Plain(b.observedAt) && Plain(b.generation) && Plain(BATCH_SCHEMA)
  {
    hide Plain, Identifier, ContractU64;
    SchemaPlain();
    IdentifierPlain(b.batchId);
    IdentifierPlain(b.integrationId);
    NumeralTextPlain(b.observedAt);
    NumeralTextPlain(b.generation);
  }

  lemma BatchReadable(t: Topology, b: Batch)
    requires WireBatch(t, b) && JsonObservations(b)
    ensures AllReadable(PayloadFields(b)) && DistinctKeys(PayloadFields(b))
  {
    hide WireBatch, Plain, Quoted, OneValue, Array;
    BatchKeysPlain();
    BatchPlain(t, b);
    QuotedIsOneValue(b.batchId);
    QuotedIsOneValue(b.integrationId);
    QuotedIsOneValue(b.observedAt);
    QuotedIsOneValue(b.generation);
    QuotedIsOneValue(BATCH_SCHEMA);
    ArrayIsOneValue(b.observations);
  }

  /** The text of a batch says that batch: every member is written under its own name, the observations in their order. */
  lemma PayloadDecodes(t: Topology, b: Batch)
    requires WireBatch(t, b) && JsonObservations(b)
    ensures DecodeBatch(PayloadText(b)) == Some(b)
  {
    hide WireBatch, OneValue, Object, Quoted, Array, Plain, AllReadable, DistinctKeys, Lookup, LookupText, Elements;
    BatchPlain(t, b);
    BatchReadable(t, b);
    var fs := PayloadFields(b);
    LookupTextObject(fs, 0, b.batchId);
    LookupTextObject(fs, 1, b.integrationId);
    LookupObject(fs, 2);
    ElementsOfArray(b.observations);
    LookupTextObject(fs, 3, b.observedAt);
    LookupTextObject(fs, 4, BATCH_SCHEMA);
    LookupTextObject(fs, 5, b.generation);
  }

  // ---------- sealing ----------

  /** The worst-case length of the envelope that carries `b`. */
  function TemplateSize(b: Batch, includeExpiry: bool): nat {
    |EnvelopeText(WorstCase(b.batchId, PayloadText(b), includeExpiry))|
  }

  /** Sealing one batch: the complete envelope first, then the contract and the remaining checks. */
  function Seal(t: Topology, b: Batch, createdAt: nat, expiresAt: Option<nat>): Result<Enqueue, PrepareError> {
    var size := TemplateSize(b, expiresAt.Some?);
    var payload := PayloadText(b);
    if MAX_MESSAGE_BYTES < size then Err(TooLarge(size, MAX_MESSAGE_BYTES))
    else if MAX_INTEGRATION_BYTES < |payload| || !WireBatch(t, b) then Err(Contract)
    else if !Identifier(b.batchId) then Err(InvalidField)
    else if expiresAt.Some? && expiresAt.value < createdAt then Err(InvalidField)
    else if MAX_MESSAGE_BYTES < |payload| then Err(TooLarge(|payload|, MAX_MESSAGE_BYTES))
    else Ok(Enqueue(b, payload, createdAt, expiresAt))
  }

  // ---------- part identities ----------

  /** Sixteen lower-case hexadecimal digits: the shortened digest of the batch identity. */
  predicate HashText(hash: string) { |hash| == 16 && forall i | 0 <= i < 16 :: LowerHex(hash[i]) }

  function Suffix(index: nat, hash: string): string { "-part-" + Decimal(index) + "-" + hash }

  function PartId(original: string, index: nat, hash: string): string {
    var suffix := Suffix(index, hash);
    var keep := if |suffix| <= MAX_BATCH_ID_BYTES then MAX_BATCH_ID_BYTES - |suffix| else 0;
    original[..if |original| <= keep then |original| else keep] + suffix
  }

  function Part(b: Batch, index: nat, hash: string, observations: seq<string>): Batch {
    b.(batchId := PartId(b.batchId, index, hash), observations := observations)
  }

  /** Every part identity is a valid identifier. */
  lemma PartIdIdentifier(original: string, index: nat, hash: string)
    requires Identifier(original) && HashText(hash) && index <= MAX_PARTITIONS
    ensures Identifier(PartId(original, index, hash))
  {
    DecimalWidth(index, 5);
    assert Pow10(5) == 100_000;
    var digits := Decimal(index);
    hide Decimal;
    var suffix := Suffix(index, hash);
    assert |suffix| == 23 + |digits|;
    assert forall i | 0 <= i < |suffix| :: IdentifierChar(suffix[i]);
  }

  /** A part identity is as much of the batch identity as 128 bytes leave room for, then the part number and the hash. */
  lemma PartIdForm(original: string, index: nat, hash: string)
    requires HashText(hash) && index <= MAX_PARTITIONS
    ensures var p, end := PartId(original, index, hash), "-part-" + Decimal(index) + "-" + hash;
            && |end| <= |p| <= 128 && p[|p| - |end|..] == end && p[..|p| - |end|] <= original
            && (|p| - |end| == |original| || |p| == 128)
  {
    DecimalWidth(index, 5);
    assert Pow10(5) == 100_000;
    hide Decimal;
    var p, end := PartId(original, index, hash), Suffix(index, hash);
    assert p[|p| - |end|..] == end && p[..|p| - |end|] == original[..|p| - |end|];
  }

  lemma PartIdWidth(original: string, i: nat, j: nat, hash: string)
    requires |original| <= MAX_BATCH_ID_BYTES && i <= j
    ensures |original| <= |PartId(original, i, hash)| <= |PartId(original, j, hash)|
  {
    DecimalMonotone(i, j);
  }

  /** No two parts of one batch share an identity. */
  lemma PartIdsDistinct(original: string, i: nat, j: nat, hash: string)
    requires HashText(hash) && PartId(original, i, hash) == PartId(original, j, hash)
    ensures i == j
  {
    hide Decimal, PartId, HashText;
    var a := PartIdShape(original, i, hash);
    var b := PartIdShape(original, j, hash);
    LastRun(a, Decimal(i), b, Decimal(j));
    DecimalInjective(i, j);
  }

  /** Without the hash and its dash, an identity ends in a dash and the part number. */
  lemma PartIdShape(original: string, i: nat, hash: string) returns (a: string)
    requires HashText(hash)
    ensures var p := PartId(original, i, hash); 17 <= |p| && p[..|p| - 17] == a + "-" + Decimal(i)
  {
    hide Decimal, LowerHex, HashText;
    assert |hash| == 16 by { HashLength(hash); }
    var p := PartId(original, i, hash);
    var kept, tail := p[..|p| - |Suffix(i, hash)|], "-" + hash;
    a := kept + "-part";
    assert p == kept + Suffix(i, hash);
    assert p == (a + "-" + Decimal(i)) + tail;
  }

  lemma HashLength(hash: string)
    requires HashText(hash)
    ensures |hash| == 16
  {}

  /** The digits after the last dash of a text are determined by the text. */
  lemma LastRun(a: string, u: string, b: string, v: string)
    requires Digits(u) && Digits(v) && a + "-" + u == b + "-" + v
    ensures u == v
  {
    var s, t := a + "-" + u, b + "-" + v;
    assert s[|a|] == '-' && t[|b|] == '-';
    forall i | |a| < i < |s| ensures Digit(s[i]) { assert s[i] == u[i - |a| - 1]; }
    forall i | |b| < i < |t| ensures Digit(t[i]) { assert t[i] == v[i - |b| - 1]; }
    assert |a| == |b|;
    assert s[|a| + 1..] == u && t[|b| + 1..] == v;
  }

  // ---------- sizes ----------

  /** The worst-case length of a part without observations, by part number. */
  function Base(b: Batch, hash: string, includeExpiry: bool): nat -> nat {
    (i: nat) => TemplateSize(Part(b, i, hash, []), includeExpiry)
  }

  lemma PayloadAdditive(b: Batch, observations: seq<string>)
    ensures |PayloadText(b.(observations := observations))| == |PayloadText(b.(observations := []))| + |Joined(observations)|
  {
    hide Object;
    var fs := PayloadFields(b.(observations := []));
    Stretch(fs, 2, Array(observations));
    assert fs[2 := Field("observations", Some(Array(observations)))] == PayloadFields(b.(observations := observations));
  }

  /** The incremental account is exact: the full template of a part is its empty template plus the joined observations. */
  lemma TemplateAdditive(b: Batch, index: nat, hash: string, includeExpiry: bool, observations: seq<string>)
    ensures TemplateSize(Part(b, index, hash, observations), includeExpiry) ==
            Size(Base(b, hash, includeExpiry), index, observations)
  {
    hide EnvelopeText, WorstCase, PayloadText, Joined, PartId;
    var part := Part(b, index, hash, []);
    PayloadAdditive(part, observations);
    assert part.(observations := observations) == Part(b, index, hash, observations) && part.(observations := []) == part;
    PayloadLength(part.batchId, PayloadText(part), PayloadText(Part(b, index, hash, observations)), includeExpiry);
  }

  lemma PayloadLongerId(b: Batch, longer: string)
    requires |b.batchId| <= |longer|
    ensures |PayloadText(b)| <= |PayloadText(b.(batchId := longer))|
  {
    hide Object, Array;
    ObjectNoLonger(PayloadFields(b), PayloadFields(b.(batchId := longer)));
  }

  lemma LongerId(b: Batch, longer: string, includeExpiry: bool)
    requires |b.batchId| <= |longer|
    ensures TemplateSize(b, includeExpiry) <= TemplateSize(b.(batchId := longer), includeExpiry)
  {
    hide EnvelopeText, WorstCase, PayloadText;
    PayloadLongerId(b, longer);
    LongerIdLongerEnvelope(b.batchId, longer, PayloadText(b), PayloadText(b.(batchId := longer)), includeExpiry);
  }

  lemma BaseMonotone(b: Batch, hash: string, includeExpiry: bool)
    requires |b.batchId| <= MAX_BATCH_ID_BYTES
    ensures Monotone(Base(b, hash, includeExpiry))
  {
    hide TemplateSize, PartId;
    forall i: nat, j: nat | i <= j ensures Base(b, hash, includeExpiry)(i) <= Base(b, hash, includeExpiry)(j) {
      PartIdWidth(b.batchId, i, j, hash);
      LongerId(Part(b, i, hash, []), PartId(b.batchId, j, hash), includeExpiry);
    }
  }

  /** A batch too large to send whole is too large for any single part. */
  lemma WholeIsNoPart(b: Batch, hash: string, includeExpiry: bool, parts: seq<seq<string>>)
    requires |b.batchId| <= MAX_BATCH_ID_BYTES && MAX_MESSAGE_BYTES < TemplateSize(b, includeExpiry) && b.observations != []
    requires Splits(Base(b, hash, includeExpiry), MAX_MESSAGE_BYTES, b.observations, parts)
    ensures 2 <= |parts|
  {
    hide TemplateSize, PartId, Size, Base;
    if |parts| == 1 {
      assert parts[0] + [] == parts[0] && parts[1..] == [];
      assert Concat(parts) == parts[0];
      PartIdWidth(b.batchId, 1, 1, hash);
      LongerId(b, PartId(b.batchId, 1, hash), includeExpiry);
      assert b.(batchId := PartId(b.batchId, 1, hash)) == Part(b, 1, hash, parts[0]);
      TemplateAdditive(b, 1, hash, includeExpiry, parts[0]);
    }
  }

  /** Every admissible part passes the contract and the final recheck. */
  lemma PartSeals(t: Topology, b: Batch, hash: string, index: nat, observations: seq<string>, lo: nat, createdAt: nat, expiresAt: Option<nat>)
    requires ContractBatch(t, b) && HashText(hash) && index <= MAX_PARTITIONS
    requires observations != [] && lo + |observations| <= |b.observations| && observations == b.observations[lo..lo + |observations|]
    requires Size(Base(b, hash, expiresAt.Some?), index, observations) <= MAX_MESSAGE_BYTES
    ensures var part := Part(b, index, hash, observations);
            && ContractBatch(t, part)
            && (!(expiresAt.Some? && expiresAt.value < createdAt) ==>
                  Seal(t, part, createdAt, expiresAt) == Ok(Enqueue(part, PayloadText(part), createdAt, expiresAt)))
            && (expiresAt.Some? && expiresAt.value < createdAt ==> Seal(t, part, createdAt, expiresAt) == Err(InvalidField))
  {
    var part := Part(b, index, hash, observations);
    hide Identifier, PayloadText, Size, Base, PartId, EnvelopeText;
    PartIdIdentifier(b.batchId, index, hash);
    TemplateAdditive(b, index, hash, expiresAt.Some?, observations);
    PayloadFits(part.batchId, PayloadText(part), expiresAt.Some?);
  }

  // ---------- preparing a batch ----------

  /** Fills one part from `cursor`: as many observations as fit, with the running size kept exact. */
  method Fill(base: nat, observations: seq<string>, cursor: nat) returns (current: seq<string>, next: nat, nextSize: nat)
    requires cursor < |observations|
    ensures cursor <= next <= |observations| && current == observations[cursor..next]
    ensures current != [] ==> base + |Joined(current)| <= MAX_MESSAGE_BYTES
    ensures next < |observations| ==>
              nextSize == base + |Joined(current + [observations[next]])| && MAX_MESSAGE_BYTES < nextSize
    ensures current == [] ==> next == cursor && nextSize == base + |observations[cursor]|
  {
    current, next, nextSize := [], cursor, base;
    var size := base;
    while next < |observations|
      invariant cursor <= next <= |observations| && current == observations[cursor..next]
      invariant size == base + |Joined(current)|
      invariant current != [] ==> size <= MAX_MESSAGE_BYTES
    {
      var separator := if current == [] then 0 else 1;
      nextSize := size + separator + |observations[next]|;
      if current != [] { JoinedSplit(current, [observations[next]]); }
      if MAX_MESSAGE_BYTES < nextSize { return; }
      current := current + [observations[next]];
      size := nextSize;
      next := next + 1;
    }
  }

  /** Whether the batch may no longer be offered by the time it was created. */
  predicate Lapsed(createdAt: nat, expiresAt: Option<nat>) { expiresAt.Some? && expiresAt.value < createdAt }

  function Contents(es: seq<Enqueue>): seq<seq<string>> { seq(|es|, i requires 0 <= i < |es| => es[i].batch.observations) }

  /** Each entry is the part with its own number, sealed. */
  ghost predicate SealedParts(b: Batch, hash: string, createdAt: nat, expiresAt: Option<nat>, es: seq<Enqueue>) {
    forall i | 0 <= i < |es| ::
      var part := Part(b, i + 1, hash, es[i].batch.observations);
      es[i] == Enqueue(part, PayloadText(part), createdAt, expiresAt)
  }

  /** The entry is about the same integration, generation and time as the batch, and its payload reads back as its batch. */
  predicate Faithful(b: Batch, e: Enqueue) {
    && e.batch.integrationId == b.integrationId && e.batch.generation == b.generation && e.batch.observedAt == b.observedAt
    && DecodeBatch(e.payload) == Some(e.batch)
  }

  /** What partitioning achieves: a shortest admissible split, or the proof that there is none. */
  ghost predicate Partitioned(t: Topology, b: Batch, hash: string, createdAt: nat, expiresAt: Option<nat>,
                              r: Result<seq<Enqueue>, PrepareError>)
  {
    var base := Base(b, hash, expiresAt.Some?);
    match r
    case Ok(es) =>
      && !Lapsed(createdAt, expiresAt)
      && SealedParts(b, hash, createdAt, expiresAt, es)
      && Splits(base, MAX_MESSAGE_BYTES, b.observations, Contents(es))
      && (forall i | 0 <= i < |es| :: es[i].batch.observations != [] && ContractBatch(t, es[i].batch))
      && (forall other | Splits(base, MAX_MESSAGE_BYTES, b.observations, other) :: |es| <= |other|)
    case Err(InvalidField) => Lapsed(createdAt, expiresAt)
    case Err(TooLarge(found, maximum)) =>
      && maximum == MAX_MESSAGE_BYTES < found
      && forall other :: !Splits(base, MAX_MESSAGE_BYTES, b.observations, other)
    case Err(StreamBinding) => false
    case Err(Contract) => false
  }

  lemma Bounds(t: Topology, b: Batch)
    requires ContractBatch(t, b)
    ensures 1 <= |b.observations| <= MAX_OBSERVATIONS && |b.batchId| <= MAX_BATCH_ID_BYTES
  {}

  lemma SameIntegration(t: Topology, b: Batch)
    ensures ContractBatch(t, b) ==> b.integrationId == t.integrationId
  {}

  lemma NothingClosed(base: nat -> nat, b: Batch, hash: string, createdAt: nat, expiresAt: Option<nat>)
    ensures Contents([]) == [] && Concat([]) == b.observations[..0]
    ensures Greedy(base, MAX_MESSAGE_BYTES, b.observations, []) && SealedParts(b, hash, createdAt, expiresAt, [])
  {}

  lemma Stuck(base: nat -> nat, items: seq<string>, parts: seq<seq<string>>, cursor: nat)
    requires Monotone(base) && Greedy(base, MAX_MESSAGE_BYTES, items, parts)
    requires cursor < |items| && Concat(parts) == items[..cursor] && MAX_MESSAGE_BYTES < base(|parts| + 1) + |items[cursor]|
    ensures forall other :: !Splits(base, MAX_MESSAGE_BYTES, items, other)
  {
    assert Joined([items[cursor]]) == items[cursor];
    hide Greedy, Splits, Concat;
    forall other ensures !Splits(base, MAX_MESSAGE_BYTES, items, other) {
      StuckMeansImpossible(base, MAX_MESSAGE_BYTES, items, parts, other);
    }
  }

  lemma ClosePart(base: nat -> nat, items: seq<string>, parts: seq<seq<string>>, cursor: nat, current: seq<string>, next: nat)
    requires Greedy(base, MAX_MESSAGE_BYTES, items, parts)
    requires cursor < next <= |items| && Concat(parts) == items[..cursor] && current == items[cursor..next]
    requires base(|parts| + 1) + |Joined(current)| <= MAX_MESSAGE_BYTES
    requires next < |items| ==> MAX_MESSAGE_BYTES < base(|parts| + 1) + |Joined(current + [items[next]])|
    ensures Greedy(base, MAX_MESSAGE_BYTES, items, parts + [current])
    ensures Concat(parts + [current]) == items[..next] && Size(base, |parts| + 1, current) <= MAX_MESSAGE_BYTES
  {
    hide Greedy, Joined, Concat;
    ConcatSnoc(parts, current);
    assert items[..cursor] + current == items[..next];
    CloseGreedy(base, MAX_MESSAGE_BYTES, items, parts, current);
  }

  lemma OneMore(b: Batch, hash: string, createdAt: nat, expiresAt: Option<nat>, es: seq<Enqueue>, observations: seq<string>)
    requires SealedParts(b, hash, createdAt, expiresAt, es)
    ensures var part := Part(b, |es| + 1, hash, observations);
            var e := Enqueue(part, PayloadText(part), createdAt, expiresAt);
            && SealedParts(b, hash, createdAt, expiresAt, es + [e])
            && Contents(es + [e]) == Contents(es) + [observations]
  {
    hide PartId, PayloadText;
  }

  lemma Finish(base: nat -> nat, items: seq<string>, parts: seq<seq<string>>)
    requires Greedy(base, MAX_MESSAGE_BYTES, items, parts) && Concat(parts) == items[..|items|]
    ensures Splits(base, MAX_MESSAGE_BYTES, items, parts)
    ensures forall i | 0 <= i < |parts| :: parts[i] != []
    ensures forall other | Splits(base, MAX_MESSAGE_BYTES, items, other) :: |parts| <= |other|
  {
    hide Size, Concat, Full;
    assert items[..|items|] == items;
    forall other | Splits(base, MAX_MESSAGE_BYTES, items, other) ensures |parts| <= |other| {
      GreedyIsOptimal(base, MAX_MESSAGE_BYTES, items, parts, other);
    }
  }

  method PartitionBatch(t: Topology, b: Batch, hash: string, createdAt: nat, expiresAt: Option<nat>)
    returns (r: Result<seq<Enqueue>, PrepareError>)
    requires ContractBatch(t, b) && HashText(hash)
    ensures Partitioned(t, b, hash, createdAt, expiresAt, r)
  {
    hide TemplateSize, PartId, Size, PayloadText, Seal, ContractBatch, HashText, Greedy, Splits, Joined, Concat, SealedParts,
      Monotone;
    var obs := b.observations;
    ghost var base := Base(b, hash, expiresAt.Some?);
    Bounds(t, b);
    BaseMonotone(b, hash, expiresAt.Some?);
    NothingClosed(base, b, hash, createdAt, expiresAt);
    var prepared: seq<Enqueue> := [];
    ghost var parts: seq<seq<string>> := [];
    var cursor := 0;
    while cursor < |obs|
      invariant |parts| == |prepared| <= cursor <= |obs| && parts == Contents(prepared)
      invariant Concat(parts) == obs[..cursor] && Greedy(base, MAX_MESSAGE_BYTES, obs, parts)
      invariant SealedParts(b, hash, createdAt, expiresAt, prepared)
      invariant forall i | 0 <= i < |prepared| :: ContractBatch(t, prepared[i].batch)
      invariant 0 < cursor ==> !Lapsed(createdAt, expiresAt)
    {
      assert |prepared| < MAX_PARTITIONS;
      var index := |prepared| + 1;
      var empty := TemplateSize(Part(b, index, hash, []), expiresAt.Some?);
      if MAX_MESSAGE_BYTES < empty {
        Stuck(base, obs, parts, cursor);
        return Err(TooLarge(empty, MAX_MESSAGE_BYTES));
      }
      var current, next, nextSize := Fill(empty, obs, cursor);
      if current == [] {
        Stuck(base, obs, parts, cursor);
        return Err(TooLarge(nextSize, MAX_MESSAGE_BYTES));
      }
      ClosePart(base, obs, parts, cursor, current, next);
      PartSeals(t, b, hash, index, current, cursor, createdAt, expiresAt);
      var sealed := Seal(t, Part(b, index, hash, current), createdAt, expiresAt);
      if sealed.Err? { return Err(sealed.error); }
      OneMore(b, hash, createdAt, expiresAt, prepared, current);
      prepared := prepared + [sealed.value];
      parts := parts + [current];
      cursor := next;
    }
    Finish(base, obs, parts);
    assert forall i | 0 <= i < |prepared| :: parts[i] == prepared[i].batch.observations;
    return Ok(prepared);
  }

  /** The batch passes its contract and its whole text is within the contract's own message bound. */
  predicate Encodes(t: Topology, b: Batch) { ContractBatch(t, b) && |PayloadText(b)| <= MAX_INTEGRATION_BYTES }

  /** What the contract asks of a batch: a valid topology of its integration and generation, a valid identity, a time, between one
      and 65536 observations, each well-formed and declared, and a text of at most 16 MiB. */
  ghost predicate Conforms(t: Topology, b: Batch) {
    && t.valid && b.integrationId == t.integrationId && b.generation == t.generation
    && Identifier(b.integrationId) && Identifier(b.batchId) && PrintsU64(b.generation) && PrintsU64(b.observedAt)
    && 1 <= |b.observations| <= 65_536 && |PayloadText(b)| <= 16 * 1024 * 1024
    && forall o | o in b.observations :: t.wellFormed(o) && t.declared(o)
  }

  ghost predicate PrintsU64(s: string) { exists n: nat :: n <= U64_MAX && s == Decimal(n) }

  lemma PrintsIff(s: string)
    ensures ContractU64(s).Ok? <==> PrintsU64(s)
  {
    hide ContractU64, Decimal;
    if ContractU64(s).Ok? { U64Validators(s, ContractU64(s).value); }
    if n: nat :| n <= U64_MAX && s == Decimal(n) { U64Validators(s, n); }
  }

  lemma EncodesIff(t: Topology, b: Batch)
    ensures Encodes(t, b) <==> Conforms(t, b)
  {
    hide ContractU64, Identifier, PayloadText, PrintsU64;
    PrintsIff(b.generation);
    PrintsIff(b.observedAt);
    assert forall i | 0 <= i < |b.observations| :: b.observations[i] in b.observations;
  }

  lemma PartFaithful(t: Topology, b: Batch, index: nat, hash: string, observations: seq<string>, createdAt: nat, expiresAt: Option<nat>)
    requires WireBatch(t, Part(b, index, hash, observations)) && JsonObservations(Part(b, index, hash, observations))
    ensures var part := Part(b, index, hash, observations); Faithful(b, Enqueue(part, PayloadText(part), createdAt, expiresAt))
  {
    hide PayloadText, DecodeBatch, PartId, WireBatch, JsonObservations;
    PayloadDecodes(t, Part(b, index, hash, observations));
  }

  /** The pieces of a split are made of the items split. */
  lemma {:induction false} PieceItems(parts: seq<seq<string>>, i: nat, k: nat)
    requires i < |parts| && k < |parts[i]|
    ensures parts[i][k] in Concat(parts)
    decreases i
  {
    if 0 < i {
      PieceItems(parts[1..], i - 1, k);
    } else {
      assert Concat(parts) == parts[0] + Concat(parts[1..]);
    }
  }

  lemma PartsFaithful(t: Topology, b: Batch, hash: string, createdAt: nat, expiresAt: Option<nat>, es: seq<Enqueue>)
    requires SealedParts(b, hash, createdAt, expiresAt, es) && JsonObservations(b) && Concat(Contents(es)) == b.observations
    requires forall i | 0 <= i < |es| :: WireBatch(t, es[i].batch)
    ensures forall i | 0 <= i < |es| :: Faithful(b, es[i])
  {
    hide PayloadText, PartId, WireBatch, Faithful, OneValue, Concat;
    forall i | 0 <= i < |es| ensures Faithful(b, es[i]) {
      forall k | 0 <= k < |es[i].batch.observations| ensures OneValue(es[i].batch.observations[k]) {
        PieceItems(Contents(es), i, k);
      }
      PartFaithful(t, b, i + 1, hash, es[i].batch.observations, createdAt, expiresAt);
    }
  }

  lemma WholeFaithful(t: Topology, b: Batch, createdAt: nat, expiresAt: Option<nat>)
    requires WireBatch(t, b)
    ensures JsonObservations(b) ==> Faithful(b, Enqueue(b, PayloadText(b), createdAt, expiresAt))
  {
    hide PayloadText, DecodeBatch, WireBatch, JsonObservations;
    if JsonObservations(b) { PayloadDecodes(t, b); }
  }

  lemma PreparedFaithful(t: Topology, b: Batch, hash: string, createdAt: nat, expiresAt: Option<nat>, r: Result<seq<Enqueue>, PrepareError>)
    requires Partitioned(t, b, hash, createdAt, expiresAt, r) && r.Ok?
    ensures JsonObservations(b) ==> forall i | 0 <= i < |r.value| :: Faithful(b, r.value[i])
  {
    hide SealedParts, JsonObservations, Faithful, WireBatch, Concat, Size;
    if JsonObservations(b) { PartsFaithful(t, b, hash, createdAt, expiresAt, r.value); }
  }

  /** Sealing the whole of an encodable batch fails only for its size or a lapsed expiry. */
  lemma SealsWhole(t: Topology, b: Batch, createdAt: nat, expiresAt: Option<nat>)
    requires Encodes(t, b)
    ensures var size := TemplateSize(b, expiresAt.Some?);
            Seal(t, b, createdAt, expiresAt) ==
            if MAX_MESSAGE_BYTES < size then Err(TooLarge(size, MAX_MESSAGE_BYTES))
            else if Lapsed(createdAt, expiresAt) then Err(InvalidField)
            else Ok(Enqueue(b, PayloadText(b), createdAt, expiresAt))
    ensures |b.batchId| <= MAX_BATCH_ID_BYTES && b.observations != []
    ensures WireBatch(t, b)
  {
    Bounds(t, b);
    PayloadFits(b.batchId, PayloadText(b), expiresAt.Some?);
    hide PayloadText, Identifier, EnvelopeText, ContractU64;
  }

  /** The whole operation: binding, contract encoding, the batch as it is when it fits, otherwise its parts. Every prepared
      payload reads back as the batch it was made for. */
  method PrepareObservationBatches(integration: string, t: Topology, b: Batch, hash: string, createdAt: nat, expiresAt: Option<nat>)
    returns (r: Result<seq<Enqueue>, PrepareError>)
    requires HashText(hash)
    ensures r == Err(StreamBinding) <==> integration != t.integrationId || integration != b.integrationId
    ensures r == Err(Contract) <==> integration == t.integrationId == b.integrationId && !Conforms(t, b)
    ensures integration == t.integrationId && Conforms(t, b) ==>
              if TemplateSize(b, expiresAt.Some?) <= MAX_MESSAGE_BYTES then
                r == if Lapsed(createdAt, expiresAt) then Err(InvalidField) else Ok([Enqueue(b, PayloadText(b), createdAt, expiresAt)])
              else
                Partitioned(t, b, hash, createdAt, expiresAt, r) && (r.Ok? ==> 2 <= |r.value|)
    ensures r.Ok? && JsonObservations(b) ==> forall i | 0 <= i < |r.value| :: Faithful(b, r.value[i])
  {
    SameIntegration(t, b);
    EncodesIff(t, b);
    hide Conforms, TemplateSize, PayloadText, Seal, ContractBatch, WireBatch, Splits, Faithful, JsonObservations, SealedParts, HashText;
    if integration != t.integrationId || integration != b.integrationId { return Err(StreamBinding); }
    if !ContractBatch(t, b) { return Err(Contract); }
    if MAX_INTEGRATION_BYTES < |PayloadText(b)| { return Err(Contract); }
    SealsWhole(t, b, createdAt, expiresAt);
    WholeFaithful(t, b, createdAt, expiresAt);
    var whole := Seal(t, b, createdAt, expiresAt);
    match whole
    case Ok(e) => return Ok([e]);
    case Err(InvalidField) => return Err(InvalidField);
    case Err(StreamBinding) => return Err(StreamBinding);
    case Err(Contract) => return Err(Contract);
    case Err(TooLarge(_, _)) =>
      r := PartitionBatch(t, b, hash, createdAt, expiresAt);
      if r.Ok? {
        WholeIsNoPart(b, hash, expiresAt.Some?, Contents(r.value));
        PreparedFaithful(t, b, hash, createdAt, expiresAt, r);
      }
  }

  // ---------- when a split exists ----------

  /** An observation this short fits a part of its own, whatever the batch. */
  const SHORT_OBSERVATION: nat := 240_000

  lemma DescriptorSmall(batchId: string)
    requires |batchId| <= MAX_BATCH_ID_BYTES
    ensures |Object(DescriptorFields(WorstCase(batchId, "", false).delivery))| <= 752
  {
    hide Object;
    ObjectBound(DescriptorFields(WorstCase(batchId, "", false).delivery), 150);
  }

  lemma AuthenticationSmall()
    ensures |Object(AuthenticationFields(Authentication(Repeat('k', 128), "Ed25519", Repeat('A', 86))))| <= 452
  {
    hide Object;
    ObjectBound(AuthenticationFields(Authentication(Repeat('k', 128), "Ed25519", Repeat('A', 86))), 150);
  }

  lemma EnvelopeSmall(batchId: string, payload: string, includeExpiry: bool)
    requires |batchId| <= MAX_BATCH_ID_BYTES && |payload| <= 1202
    ensures |EnvelopeText(WorstCase(batchId, payload, includeExpiry))| <= 18_202
  {
    hide Object, DescriptorFields, AuthenticationFields;
    DescriptorSmall(batchId);
    AuthenticationSmall();
    ObjectBound(EnvelopeFields(WorstCase(batchId, payload, includeExpiry)), 1300);
  }

  /** A part without observations takes at most 18202 bytes. */
  lemma EmptyPartSmall(t: Topology, b: Batch, hash: string, index: nat, includeExpiry: bool)
    requires ContractBatch(t, b) && HashText(hash) && index <= MAX_PARTITIONS
    ensures Base(b, hash, includeExpiry)(index) <= 18_202
  {
    hide Object, EnvelopeText, PartId, HashText, ContractU64, Identifier;
    PartIdIdentifier(b.batchId, index, hash);
    FieldWidths(t, b, PartId(b.batchId, index, hash));
    var part := Part(b, index, hash, []);
    ObjectBound(PayloadFields(part), 200);
    EnvelopeSmall(part.batchId, PayloadText(part), includeExpiry);
  }

  lemma FieldWidths(t: Topology, b: Batch, id: string)
    requires ContractBatch(t, b) && Identifier(id)
    ensures |b.integrationId| <= 128 && |b.generation| <= 20 && |b.observedAt| <= 20 && |id| <= 128
  {}

  /** Every observation in a part of its own. */
  function Singletons(observations: seq<string>): seq<seq<string>> {
    seq(|observations|, i requires 0 <= i < |observations| => [observations[i]])
  }

  lemma {:induction false} SingletonsConcat(observations: seq<string>)
    ensures Concat(Singletons(observations)) == observations
  {
    var parts := Singletons(observations);
    if observations != [] {
      assert parts[1..] == Singletons(observations[1..]);
      SingletonsConcat(observations[1..]);
    }
  }

  /** Whatever the text of the whole batch, observations of at most 240000 bytes always admit a split. */
  lemma ShortObservationsSplit(t: Topology, b: Batch, hash: string, includeExpiry: bool)
    requires ContractBatch(t, b) && HashText(hash)
    requires forall i | 0 <= i < |b.observations| :: |b.observations[i]| <= SHORT_OBSERVATION
    ensures Splits(Base(b, hash, includeExpiry), MAX_MESSAGE_BYTES, b.observations, Singletons(b.observations))
  {
    hide Base, HashText, Concat, ContractBatch;
    Bounds(t, b);
    SingletonsConcat(b.observations);
    forall i | 0 <= i < |b.observations|
      ensures Size(Base(b, hash, includeExpiry), i + 1, Singletons(b.observations)[i]) <= MAX_MESSAGE_BYTES
    {
      EmptyPartSmall(t, b, hash, i + 1, includeExpiry);
      assert Joined([b.observations[i]]) == b.observations[i];
    }
  }

  /** So partitioning never reports a size error for such a batch. */
  lemma NeverTooLarge(t: Topology, b: Batch, hash: string, createdAt: nat, expiresAt: Option<nat>, r: Result<seq<Enqueue>, PrepareError>)
    requires ContractBatch(t, b) && HashText(hash) && Partitioned(t, b, hash, createdAt, expiresAt, r)
    requires forall i | 0 <= i < |b.observations| :: |b.observations[i]| <= SHORT_OBSERVATION
    ensures r.Ok? <==> !Lapsed(createdAt, expiresAt)
  {
    hide Base, HashText, Splits, ContractBatch, SealedParts;
    ShortObservationsSplit(t, b, hash, expiresAt.Some?);
  }

  /** A full-size batch of one repeated observation. */
  function FullBatch(observation: string): Batch {
    Batch("site", "1", "readings", "1", seq(MAX_OBSERVATIONS, _ => observation))
  }

  lemma {:induction false} RepeatedLength(observation: string, n: nat)
    requires 0 < n
    ensures |Joined(seq(n, _ => observation))| == n * |observation| + n - 1
    decreases n
  {
    var items := seq(n, _ => observation);
    if n == 1 {
      assert items == [observation];
    } else {
      RepeatedLength(observation, n - 1);
      assert items[1..] == seq(n - 1, _ => observation);
      assert n * |observation| == |observation| + (n - 1) * |observation|;
    }
  }

  /** The encoding bound refuses batches that could be split: any declared observation of 256 to 240000 bytes, repeated
      65536 times, passes its contract and admits a split, and is still refused. */
  lemma RefusedThoughSplittable(t: Topology, observation: string, hash: string, includeExpiry: bool)
    requires t.valid && t.integrationId == "site" && t.generation == "1" && t.wellFormed(observation) && t.declared(observation)
    requires 256 <= |observation| <= SHORT_OBSERVATION && HashText(hash)
    ensures var b := FullBatch(observation);
            && ContractBatch(t, b) && !Encodes(t, b)
            && Splits(Base(b, hash, includeExpiry), MAX_MESSAGE_BYTES, b.observations, Singletons(b.observations))
  {
    hide Base, HashText, Splits, PayloadText;
    var b := FullBatch(observation);
    FullBatchPasses(t, observation);
    ShortObservationsSplit(t, b, hash, includeExpiry);
    RepeatedLength(observation, MAX_OBSERVATIONS);
    PayloadAdditive(b, b.observations);
    assert b.(observations := b.observations) == b;
    assert MAX_OBSERVATIONS * 256 <= MAX_OBSERVATIONS * |observation|;
  }

  lemma FullBatchPasses(t: Topology, observation: string)
    requires t.valid && t.integrationId == "site" && t.generation == "1" && t.wellFormed(observation) && t.declared(observation)
    ensures ContractBatch(t, FullBatch(observation))
  {
    hide ContractU64;
    U64Validators("1", 1);
    assert Decimal(1) == "1";
    assert Alphanumeric('s') && Alphanumeric('r');
  }

  /** No two prepared entries share a batch id. */
  lemma EntriesDistinct(b: Batch, hash: string, createdAt: nat, expiresAt: Option<nat>, es: seq<Enqueue>, i: nat, j: nat)
    requires SealedParts(b, hash, createdAt, expiresAt, es) && HashText(hash) && i < j < |es|
    ensures es[i].batch.batchId != es[j].batch.batchId
  {
    hide PartId, PayloadText, HashText;
    if es[i].batch.batchId == es[j].batch.batchId { PartIdsDistinct(b.batchId, i + 1, j + 1, hash); }
  }

  /** Any envelope that any session can build for a prepared entry is within the message bound. */
  lemma Sendable(b: Batch, session: Session, record: Record, trace: Option<string>, authentication: Option<Authentication>, rules: PayloadRules)
    requires TemplateSize(b, record.expiresAt.Some?) <= MAX_MESSAGE_BYTES
    requires record.batchId == b.batchId && record.payload == PayloadText(b)
    ensures var e := Deliver(rules, session, record, trace, authentication);
            e.Some? ==> |EnvelopeText(e.value)| <= MAX_MESSAGE_BYTES
  {
    hide EnvelopeText, EnvelopeValid, WorstCase, PayloadText, Traceparent;
    var e := Deliver(rules, session, record, trace, authentication);
    if e.Some? { NeverLonger(e.value); }
  }

  /** Every part of a split is sendable under every session, position, key and signature. */
  lemma PartsSendable(b: Batch, hash: string, parts: seq<seq<string>>, i: nat, session: Session, record: Record,
                      trace: Option<string>, authentication: Option<Authentication>, rules: PayloadRules)
    requires Splits(Base(b, hash, record.expiresAt.Some?), MAX_MESSAGE_BYTES, b.observations, parts) && i < |parts|
    requires var part := Part(b, i + 1, hash, parts[i]); record.batchId == part.batchId && record.payload == PayloadText(part)
    ensures var e := Deliver(rules, session, record, trace, authentication);
            e.Some? ==> |EnvelopeText(e.value)| <= MAX_MESSAGE_BYTES
  {
    hide EnvelopeText, PayloadText, Deliver, TemplateSize, PartId, Size, Base, Concat;
    TemplateAdditive(b, i + 1, hash, record.expiresAt.Some?, parts[i]);
    Sendable(Part(b, i + 1, hash, parts[i]), session, record, trace, authentication, rules);
  }

  lemma PayloadIsOneValue(t: Topology, b: Batch)
    requires WireBatch(t, b) && JsonObservations(b)
    ensures OneValue(PayloadText(b))
  {
    hide WireBatch, OneValue, Object, AllReadable, DistinctKeys;
    BatchReadable(t, b);
    ObjectIsOneValue(PayloadFields(b));
  }

  /** End to end: whatever session delivers a sealed batch, the receiver who decodes the bytes finds that session, that stream
      position and those times, and under the payload exactly that batch. */
  lemma DeliveredBatchArrives(t: Topology, b: Batch, rules: PayloadRules, session: Session, record: Record, trace: Option<string>,
                              authentication: Option<Authentication>)
    requires WireBatch(t, b) && JsonObservations(b) && record.payload == PayloadText(b)
    requires Deliver(rules, session, record, trace, authentication).Some?
    ensures var received := DecodeEnvelope(EnvelopeText(Deliver(rules, session, record, trace, authentication).value));
            && received.Some? && Conveys(received.value, session, record, trace, authentication)
            && Read(received.value) == Reading(
                 Ok(session.epoch), Ok(session.credentialGeneration), Ok(record.createdAt),
                 if record.expiresAt.Some? then Some(Ok(record.expiresAt.value)) else None,
                 Ok(record.streamEpoch), Ok(record.position))
            && DecodeBatch(received.value.payload) == Some(b)
  {
    hide WireBatch, JsonObservations, OneValue, PayloadText, Deliver, DecodeEnvelope, EnvelopeText, EnvelopeValid, Read, DecodeBatch;
    PayloadIsOneValue(t, b);
    PayloadDecodes(t, b);
    DeliveredReadsBack(rules, session, record, trace, authentication);
  }
}
