/** The durable-delivery envelope, its field checks and its worst-case length. */
module Envelopes {
  import opened Outcomes
  import opened Identifiers
  import opened Numerals
  import opened CanonicalJson
  import opened CanonicalReader
  import opened TextOrder

  const MAX_MESSAGE_BYTES: nat := 262_144
  const ENVELOPE_SCHEMA := "aether.cloudlink.envelope.v1"
  const PROTOCOL := "aether.cloudlink"
  const VERSION := "1.0"
  const OBSERVATION_BATCH_KIND := "integration-observation-batch"
  const MAX_U64_TEXT := "18446744073709551615"

  datatype Authentication = Authentication(keyId: string, algorithm: string, signature: string)

  datatype Descriptor = Descriptor(streamId: string, streamEpoch: string, position: string, batchId: string, digest: string)

  datatype Envelope = Envelope(
    schema: string, protocol: string, version: string, kind: string, gatewayId: string, sessionId: string,
    sessionEpoch: string, credentialGeneration: string, sentAt: string, expiresAt: Option<string>,
    delivery: Descriptor, authentication: Option<Authentication>, traceparent: Option<string>, payload: string)

  function DescriptorFields(d: Descriptor): seq<Field> {
    [Text("batch_id", d.batchId), Text("digest", d.digest), Text("position", d.position),
     Text("stream_epoch", d.streamEpoch), Text("stream_id", d.streamId)]
  }

  function AuthenticationFields(a: Authentication): seq<Field> {
    [Text("algorithm", a.algorithm), Text("key_id", a.keyId), Text("signature", a.signature)]
  }

  function Optional(key: string, s: Option<string>): Field { Field(key, if s.Some? then Some(Quoted(s.value)) else None) }

  function AuthenticationField(a: Option<Authentication>): Field {
    Field("message_authentication", if a.Some? then Some(Object(AuthenticationFields(a.value))) else None)
  }

  function EnvelopeFields(e: Envelope): seq<Field> {
    [Text("credential_generation", e.credentialGeneration),
     Field("delivery", Some(Object(DescriptorFields(e.delivery)))),
     Optional("expires_at_ms", e.expiresAt),
     Text("gateway_id", e.gatewayId),
     AuthenticationField(e.authentication),
     Text("message_kind", e.kind),
     Field("payload", Some(e.payload)),
     Text("protocol", e.protocol),
     Text("protocol_version", e.version),
     Text("schema", e.schema),
     Text("sent_at_ms", e.sentAt),
     Text("session_epoch", e.sessionEpoch),
     Text("session_id", e.sessionId),
     Optional("traceparent", e.traceparent)]
  }

  /** The canonical bytes of an envelope. */
  function EnvelopeText(e: Envelope): string { Object(EnvelopeFields(e)) }

  lemma FirstKeysOrdered()
    ensures Before("credential_generation", "delivery") && Before("delivery", "expires_at_ms") && Before("expires_at_ms", "gateway_id")
    ensures Before("gateway_id", "message_authentication") && Before("message_authentication", "message_kind")
    ensures Before("message_kind", "payload")
  {
    hide Before;
    BeforeAt("credential_generation", "delivery", 0);
    BeforeAt("delivery", "expires_at_ms", 0);
    BeforeAt("expires_at_ms", "gateway_id", 0);
    BeforeAt("gateway_id", "message_authentication", 0);
    BeforeAt("message_authentication", "message_kind", 8);
    BeforeAt("message_kind", "payload", 0);
  }

  lemma RestKeysOrdered()
    ensures Before("payload", "protocol") && Before("protocol", "protocol_version") && Before("protocol_version", "schema")
    ensures Before("schema", "sent_at_ms") && Before("sent_at_ms", "session_epoch") && Before("session_epoch", "session_id")
    ensures Before("session_id", "traceparent")
  {
    hide Before;
    BeforeAt("payload", "protocol", 1);
    BeforeAt("protocol", "protocol_version", 8);
    BeforeAt("protocol_version", "schema", 0);
    BeforeAt("schema", "sent_at_ms", 1);
    BeforeAt("sent_at_ms", "session_epoch", 2);
    BeforeAt("session_epoch", "session_id", 8);
    BeforeAt("session_id", "traceparent", 0);
  }

  /** Envelope, descriptor and authentication list their members in canonical order. */
  lemma EnvelopeOrder(e: Envelope)
    ensures InKeyOrder(EnvelopeFields(e))
  {
    hide Object, Quoted, Before, AuthenticationFields, DescriptorFields;
    FirstKeysOrdered();
    RestKeysOrdered();
  }

  lemma NestedOrder(d: Descriptor, a: Authentication)
    ensures InKeyOrder(DescriptorFields(d)) && InKeyOrder(AuthenticationFields(a))
  {
    hide Quoted, Before;
    BeforeAt("batch_id", "digest", 0);
    BeforeAt("digest", "position", 0);
    BeforeAt("position", "stream_epoch", 0);
    BeforeAt("stream_epoch", "stream_id", 7);
    BeforeAt("algorithm", "key_id", 0);
    BeforeAt("key_id", "signature", 0);
  }

  // ---------- field checks ----------

  predicate SignatureChar(c: char) { Alphanumeric(c) || c == '_' || c == '-' }

  predicate AuthenticationValid(a: Authentication) {
    && Identifier(a.keyId)
    && a.algorithm == "Ed25519"
    && |a.signature| == 86
    && forall i | 0 <= i < 86 :: SignatureChar(a.signature[i])
  }

  predicate TraceDash(i: nat) { i == 2 || i == 35 || i == 52 }

  predicate AllZero(s: string) { forall i | 0 <= i < |s| :: s[i] == '0' }

  predicate Traceparent(s: string) {
    && |s| == 55
    && (forall i | 0 <= i < 55 :: if TraceDash(i) then s[i] == '-' else LowerHex(s[i]))
    && s[..2] != "ff" && !AllZero(s[3..35]) && !AllZero(s[36..52])
  }

  predicate DescriptorValid(d: Descriptor) {
    && Identifier(d.streamId) && PositiveU64(d.streamEpoch).Ok? && PositiveU64(d.position).Ok?
    && Identifier(d.batchId) && DigestText(d.digest)
  }

  predicate SessionFieldsValid(e: Envelope) {
    && e.version == VERSION && Uuid(e.gatewayId) && Uuid(e.sessionId)
    && PositiveU64(e.sessionEpoch).Ok? && PositiveU64(e.credentialGeneration).Ok?
  }

  predicate TimesValid(e: Envelope) {
    && CloudLinkU64(e.sentAt).Ok?
    && (e.expiresAt.Some? ==>
          && CloudLinkU64(e.expiresAt.value).Ok?
          && CloudLinkU64(e.sentAt).value <= CloudLinkU64(e.expiresAt.value).value)
  }

  /** Every check on the envelope's own fields; what the payload says is checked by its contract. */
  predicate EnvelopeValid(e: Envelope) {
    && e.schema == ENVELOPE_SCHEMA && e.protocol == PROTOCOL && e.kind == OBSERVATION_BATCH_KIND
    && SessionFieldsValid(e)
    && TimesValid(e)
    && DescriptorValid(e.delivery)
    && (e.authentication.Some? ==> AuthenticationValid(e.authentication.value))
    && (e.traceparent.Some? ==> Traceparent(e.traceparent.value))
  }

  // ---------- reading an envelope back ----------

  function DecodeDescriptor(text: string): Option<Descriptor> {
    var batchId, digest := LookupText(text, "batch_id"), LookupText(text, "digest");
    var position, streamEpoch, streamId := LookupText(text, "position"), LookupText(text, "stream_epoch"), LookupText(text, "stream_id");
    if batchId.None? || digest.None? || position.None? || streamEpoch.None? || streamId.None? then None
    else Some(Descriptor(streamId.value, streamEpoch.value, position.value, batchId.value, digest.value))
  }

  function DecodeAuthentication(text: string): Option<Authentication> {
    var algorithm, keyId, signature := LookupText(text, "algorithm"), LookupText(text, "key_id"), LookupText(text, "signature");
    if algorithm.None? || keyId.None? || signature.None? then None
    else Some(Authentication(keyId.value, algorithm.value, signature.value))
  }

  /** A member read by `read` that may be left out; the outer option fails when it is there and cannot be read. */
  function Maybe<T>(value: Option<string>, read: string -> Option<T>): Option<Option<T>> {
    if value.None? then Some(None) else if read(value.value).None? then None else Some(read(value.value))
  }

  /** The members that belong to the session. */
  datatype SessionPart = SessionPart(
    version: string, gatewayId: string, sessionId: string, sessionEpoch: string, credentialGeneration: string)

  function DecodeSession(text: string): Option<SessionPart> {
    var version, gatewayId, sessionId :=
      LookupText(text, "protocol_version"), LookupText(text, "gateway_id"), LookupText(text, "session_id");
    var epoch, generation := LookupText(text, "session_epoch"), LookupText(text, "credential_generation");
    if version.None? || gatewayId.None? || sessionId.None? || epoch.None? || generation.None? then None
    else Some(SessionPart(version.value, gatewayId.value, sessionId.value, epoch.value, generation.value))
  }

  /** The members that say what kind of message this is. */
  datatype KindPart = KindPart(schema: string, protocol: string, kind: string)

  function DecodeKind(text: string): Option<KindPart> {
    var schema, protocol, kind := LookupText(text, "schema"), LookupText(text, "protocol"), LookupText(text, "message_kind");
    if schema.None? || protocol.None? || kind.None? then None else Some(KindPart(schema.value, protocol.value, kind.value))
  }

  function Nested<T>(value: Option<string>, read: string -> Option<T>): Option<T> {
    if value.None? then None else read(value.value)
  }

  /** The envelope an envelope text says, member by member. */
  function DecodeEnvelope(text: string): Option<Envelope> {
    var k, s := DecodeKind(text), DecodeSession(text);
    var sentAt, expiresAt := LookupText(text, "sent_at_ms"), Maybe(Lookup(text, "expires_at_ms"), Unquoted);
    var delivery := Nested(Lookup(text, "delivery"), DecodeDescriptor);
    var authentication := Maybe(Lookup(text, "message_authentication"), DecodeAuthentication);
    var traceparent, payload := Maybe(Lookup(text, "traceparent"), Unquoted), Lookup(text, "payload");
    if k.None? || s.None? || sentAt.None? || expiresAt.None? || delivery.None? || authentication.None? || traceparent.None? || payload.None?
    then None
    else Some(Envelope(
      k.value.schema, k.value.protocol, s.value.version, k.value.kind, s.value.gatewayId, s.value.sessionId, s.value.sessionEpoch,
      s.value.credentialGeneration, sentAt.value, expiresAt.value, delivery.value, authentication.value, traceparent.value, payload.value))
  }

  lemma IdentifierPlain(s: string)
    requires Identifier(s)
    ensures Plain(s)
  {}

  lemma UuidPlain(s: string)
    requires Uuid(s)
    ensures Plain(s)
  {}

  lemma DigestPlain(s: string)
    requires DigestText(s)
    ensures Plain(s)
  {
    assert forall i | 0 <= i < 7 :: s[i] == s[..7][i];
  }

  lemma TracePlain(s: string)
    requires Traceparent(s)
    ensures Plain(s)
  {}

  lemma NumeralPlain(s: string)
    requires CloudLinkU64(s).Ok?
    ensures Plain(s)
  {
    hide Value;
  }

  lemma DescriptorPlain(d: Descriptor)
    requires DescriptorValid(d)
    ensures Plain(d.streamId) && Plain(d.batchId) && Plain(d.digest) && Plain(d.streamEpoch) && Plain(d.position)
  {
    hide Identifier, DigestText, CloudLinkU64, Plain;
    IdentifierPlain(d.streamId);
    IdentifierPlain(d.batchId);
    DigestPlain(d.digest);
    NumeralPlain(d.streamEpoch);
    NumeralPlain(d.position);
  }

  lemma DescriptorReadable(d: Descriptor)
    requires DescriptorValid(d)
    ensures AllReadable(DescriptorFields(d)) && DistinctKeys(DescriptorFields(d))
  {
    DescriptorPlain(d);
    hide DescriptorValid, Quoted, OneValue;
    QuotedIsOneValue(d.streamId);
    QuotedIsOneValue(d.batchId);
    QuotedIsOneValue(d.digest);
    QuotedIsOneValue(d.streamEpoch);
    QuotedIsOneValue(d.position);
  }

  lemma DescriptorReads(d: Descriptor)
    requires DescriptorValid(d)
    ensures OneValue(Object(DescriptorFields(d))) && DecodeDescriptor(Object(DescriptorFields(d))) == Some(d)
  {
    hide DescriptorValid, Object, OneValue, Quoted, LookupText, Plain, AllReadable, DistinctKeys;
    DescriptorPlain(d);
    DescriptorReadable(d);
    var fs := DescriptorFields(d);
    ObjectIsOneValue(fs);
    LookupTextObject(fs, 0, d.batchId);
    LookupTextObject(fs, 1, d.digest);
    LookupTextObject(fs, 2, d.position);
    LookupTextObject(fs, 3, d.streamEpoch);
    LookupTextObject(fs, 4, d.streamId);
  }

  lemma AuthenticationReads(a: Authentication)
    requires AuthenticationValid(a)
    ensures OneValue(Object(AuthenticationFields(a))) && DecodeAuthentication(Object(AuthenticationFields(a))) == Some(a)
  {
    var fs := AuthenticationFields(a);
    IdentifierPlain(a.keyId);
    assert Plain(a.signature) && Plain(a.algorithm);
    hide Identifier, Object, OneValue, Quoted, LookupText, SignatureChar;
    QuotedIsOneValue(a.algorithm);
    QuotedIsOneValue(a.keyId);
    QuotedIsOneValue(a.signature);
    assert AllReadable(fs) && DistinctKeys(fs);
    ObjectIsOneValue(fs);
    LookupTextObject(fs, 0, a.algorithm);
    LookupTextObject(fs, 1, a.keyId);
    LookupTextObject(fs, 2, a.signature);
  }

  predicate PlainOption(s: Option<string>) { s.Some? ==> Plain(s.value) }

  /** Every text of the envelope is free of quotes and backslashes. */
  lemma EnvelopePlain(e: Envelope)
    requires EnvelopeValid(e)
    ensures Plain(e.schema) && Plain(e.protocol) && Plain(e.version) && Plain(e.kind) && Plain(e.gatewayId) && Plain(e.sessionId)
    ensures Plain(e.sessionEpoch) && Plain(e.credentialGeneration) && Plain(e.sentAt) && PlainOption(e.expiresAt) && PlainOption(e.traceparent)
    ensures DescriptorValid(e.delivery) && (e.authentication.Some? ==> AuthenticationValid(e.authentication.value))
  {
    hide DescriptorValid, AuthenticationValid, Uuid, CloudLinkU64, Traceparent;
    UuidPlain(e.gatewayId);
    UuidPlain(e.sessionId);
    NumeralPlain(e.sessionEpoch);
    NumeralPlain(e.credentialGeneration);
    NumeralPlain(e.sentAt);
    if e.expiresAt.Some? { NumeralPlain(e.expiresAt.value); }
    if e.traceparent.Some? { TracePlain(e.traceparent.value); }
  }

  lemma OptionalReadable(key: string, s: Option<string>)
    requires PlainOption(s) && Plain(key)
    ensures Readable(Optional(key, s)) && Maybe(Optional(key, s).value, Unquoted) == Some(s)
  {
    hide Quoted, Unquoted, OneValue;
    if s.Some? {
      QuotedIsOneValue(s.value);
      UnquotedQuoted(s.value);
    }
  }

  lemma TextReadable(key: string, s: string)
    requires Plain(key) && Plain(s)
    ensures Readable(Text(key, s))
  {
    hide Quoted, OneValue;
    QuotedIsOneValue(s);
  }

  lemma AuthenticationReadable(a: Option<Authentication>)
    requires a.Some? ==> AuthenticationValid(a.value)
    ensures Readable(AuthenticationField(a)) && Maybe(AuthenticationField(a).value, DecodeAuthentication) == Some(a)
  {
    hide AuthenticationFields, AuthenticationValid, DecodeAuthentication, Object, OneValue;
    if a.Some? { AuthenticationReads(a.value); }
  }

  lemma FirstKeysPlain()
    ensures Plain("credential_generation") && Plain("delivery") && Plain("expires_at_ms") && Plain("gateway_id") && Plain("message_kind")
  {}

  lemma RestKeysPlain()
    ensures Plain("payload") && Plain("protocol") && Plain("protocol_version") && Plain("schema") && Plain("sent_at_ms")
    ensures Plain("session_epoch") && Plain("session_id") && Plain("traceparent")
  {}

  lemma DeliveryReadable(d: Descriptor)
    requires DescriptorValid(d)
    ensures Readable(Field("delivery", Some(Object(DescriptorFields(d)))))
  {
    FirstKeysPlain();
    hide DescriptorValid, Plain, OneValue, Object, DescriptorFields;
    DescriptorReads(d);
  }

  lemma PayloadReadable(payload: string)
    requires OneValue(payload)
    ensures Readable(Field("payload", Some(payload)))
  {
    hide OneValue;
  }

  lemma FirstReadable(e: Envelope)
    requires EnvelopeValid(e)
    ensures forall i | 0 <= i < 6 :: Readable(EnvelopeFields(e)[i])
  {
    hide EnvelopeValid, Plain, Readable, Object, DescriptorFields, DescriptorValid, AuthenticationValid, Text, Optional, AuthenticationField;
    EnvelopePlain(e);
    FirstKeysPlain();
    DeliveryReadable(e.delivery);
    AuthenticationReadable(e.authentication);
    OptionalReadable("expires_at_ms", e.expiresAt);
    TextReadable("credential_generation", e.credentialGeneration);
    TextReadable("gateway_id", e.gatewayId);
    TextReadable("message_kind", e.kind);
  }

  lemma RestReadable(e: Envelope)
    requires EnvelopeValid(e) && OneValue(e.payload)
    ensures forall i | 6 <= i < 14 :: Readable(EnvelopeFields(e)[i])
  {
    hide EnvelopeValid, OneValue, Plain, Readable, Object, DescriptorFields, DescriptorValid, AuthenticationValid, Text, Optional,
      AuthenticationField;
    EnvelopePlain(e);
    RestKeysPlain();
    PayloadReadable(e.payload);
    OptionalReadable("traceparent", e.traceparent);
    TextReadable("protocol", e.protocol);
    TextReadable("protocol_version", e.version);
    TextReadable("schema", e.schema);
    TextReadable("sent_at_ms", e.sentAt);
    TextReadable("session_epoch", e.sessionEpoch);
    TextReadable("session_id", e.sessionId);
  }

  lemma EnvelopeReadable(e: Envelope)
    requires EnvelopeValid(e) && OneValue(e.payload)
    ensures AllReadable(EnvelopeFields(e))
  {
    hide EnvelopeValid, OneValue, Readable, Object;
    FirstReadable(e);
    RestReadable(e);
  }

  lemma EnvelopeKeys(e: Envelope)
    ensures DistinctKeys(EnvelopeFields(e))
  {
    hide Object, Quoted, AuthenticationFields, DescriptorFields;
  }

  lemma KindReads(e: Envelope)
    requires AllReadable(EnvelopeFields(e)) && DistinctKeys(EnvelopeFields(e)) && Plain(e.schema) && Plain(e.protocol) && Plain(e.kind)
    ensures DecodeKind(EnvelopeText(e)) == Some(KindPart(e.schema, e.protocol, e.kind))
  {
    hide Object, Quoted, LookupText, AuthenticationFields, DescriptorFields, AllReadable, DistinctKeys, Plain;
    var fs := EnvelopeFields(e);
    LookupTextObject(fs, 5, e.kind);
    LookupTextObject(fs, 7, e.protocol);
    LookupTextObject(fs, 9, e.schema);
  }

  lemma SessionReads(e: Envelope)
    requires AllReadable(EnvelopeFields(e)) && DistinctKeys(EnvelopeFields(e))
    requires Plain(e.version) && Plain(e.gatewayId) && Plain(e.sessionId) && Plain(e.sessionEpoch) && Plain(e.credentialGeneration)
    ensures DecodeSession(EnvelopeText(e)) ==
            Some(SessionPart(e.version, e.gatewayId, e.sessionId, e.sessionEpoch, e.credentialGeneration))
  {
    hide Object, Quoted, LookupText, AuthenticationFields, DescriptorFields, AllReadable, DistinctKeys, Plain;
    var fs := EnvelopeFields(e);
    LookupTextObject(fs, 0, e.credentialGeneration);
    LookupTextObject(fs, 3, e.gatewayId);
    LookupTextObject(fs, 8, e.version);
    LookupTextObject(fs, 11, e.sessionEpoch);
    LookupTextObject(fs, 12, e.sessionId);
  }

  lemma DeliveryReads(e: Envelope)
    requires EnvelopeValid(e) && AllReadable(EnvelopeFields(e)) && DistinctKeys(EnvelopeFields(e))
    ensures Nested(Lookup(EnvelopeText(e), "delivery"), DecodeDescriptor) == Some(e.delivery)
    ensures Lookup(EnvelopeText(e), "payload") == Some(e.payload)
  {
    hide EnvelopeValid, OneValue, Object, Lookup, DescriptorFields, AuthenticationField, DescriptorValid, AuthenticationValid, Plain,
      Text, Optional, DecodeDescriptor, AllReadable, DistinctKeys;
    EnvelopePlain(e);
    LookupObject(EnvelopeFields(e), 1);
    DescriptorReads(e.delivery);
    LookupObject(EnvelopeFields(e), 6);
  }

  lemma SignatureReads(e: Envelope)
    requires EnvelopeValid(e) && AllReadable(EnvelopeFields(e)) && DistinctKeys(EnvelopeFields(e))
    ensures Maybe(Lookup(EnvelopeText(e), "message_authentication"), DecodeAuthentication) == Some(e.authentication)
  {
    hide EnvelopeValid, Object, Lookup, DescriptorFields, AuthenticationFields, DescriptorValid, AuthenticationValid, Plain,
      Text, Optional, Maybe, Readable, DecodeAuthentication, AllReadable, DistinctKeys;
    EnvelopePlain(e);
    LookupObject(EnvelopeFields(e), 4);
    AuthenticationReadable(e.authentication);
  }

  lemma TimesRead(e: Envelope)
    requires AllReadable(EnvelopeFields(e)) && DistinctKeys(EnvelopeFields(e)) && Plain(e.sentAt) && PlainOption(e.expiresAt)
    ensures LookupText(EnvelopeText(e), "sent_at_ms") == Some(e.sentAt)
    ensures Maybe(Lookup(EnvelopeText(e), "expires_at_ms"), Unquoted) == Some(e.expiresAt)
  {
    hide Object, Lookup, LookupText, DescriptorFields, AuthenticationField, Plain, Unquoted, Maybe, AllReadable, DistinctKeys, Readable;
    FirstKeysPlain();
    LookupObject(EnvelopeFields(e), 2);
    OptionalReadable("expires_at_ms", e.expiresAt);
    LookupTextObject(EnvelopeFields(e), 10, e.sentAt);
  }

  lemma TraceReads(e: Envelope)
    requires AllReadable(EnvelopeFields(e)) && DistinctKeys(EnvelopeFields(e)) && PlainOption(e.traceparent)
    ensures Maybe(Lookup(EnvelopeText(e), "traceparent"), Unquoted) == Some(e.traceparent)
  {
    hide Object, Lookup, DescriptorFields, AuthenticationField, Text, Plain, Unquoted, Maybe, AllReadable, DistinctKeys, Readable;
    RestKeysPlain();
    LookupObject(EnvelopeFields(e), 13);
    OptionalReadable("traceparent", e.traceparent);
  }

  /** The text of a valid envelope says that envelope: every member is written under its own name and reads back. */
  lemma EnvelopeDecodes(e: Envelope)
    requires EnvelopeValid(e) && OneValue(e.payload)
    ensures DecodeEnvelope(EnvelopeText(e)) == Some(e)
  {
    hide EnvelopeValid, OneValue, EnvelopeText, EnvelopeFields, Lookup, LookupText, Plain, Unquoted, Maybe, Nested, DecodeKind,
      DecodeSession, AllReadable, DistinctKeys, DescriptorValid, AuthenticationValid, DecodeDescriptor, DecodeAuthentication;
    EnvelopePlain(e);
    EnvelopeReadable(e);
    EnvelopeKeys(e);
    KindReads(e);
    SessionReads(e);
    DeliveryReads(e);
    SignatureReads(e);
    TimesRead(e);
    TraceReads(e);
  }

  // ---------- delivering a retained record ----------

  datatype Session = Session(version: string, gatewayId: string, sessionId: string, epoch: nat, credentialGeneration: nat)

  datatype Record = Record(
    streamId: string, streamEpoch: nat, position: nat, batchId: string, digest: string, payload: string,
    createdAt: nat, expiresAt: Option<nat>)

  function Wrap(session: Session, record: Record, trace: Option<string>, authentication: Option<Authentication>): Envelope {
    Envelope(
      ENVELOPE_SCHEMA, PROTOCOL, session.version, OBSERVATION_BATCH_KIND, session.gatewayId, session.sessionId,
      Decimal(session.epoch), Decimal(session.credentialGeneration), Decimal(record.createdAt),
      if record.expiresAt.Some? then Some(Decimal(record.expiresAt.value)) else None,
      Descriptor(record.streamId, Decimal(record.streamEpoch), Decimal(record.position), record.batchId, record.digest),
      authentication, trace, record.payload)
  }

  /** What the payload's own contract says of a payload: whether it decodes, which batch it names, and its digest. */
  datatype PayloadRules = PayloadRules(decodes: string -> bool, batchOf: string -> string, digestOf: string -> string)

  /** The payload still decodes, names the given batch and has the given digest. */
  predicate Intact(rules: PayloadRules, payload: string, batchId: string, digest: string) {
    rules.decodes(payload) && rules.batchOf(payload) == batchId && rules.digestOf(payload) == digest
  }

  /** Wraps a record for one session, re-checking the payload before and the whole envelope after. */
  function Deliver(rules: PayloadRules, session: Session, record: Record, trace: Option<string>, authentication: Option<Authentication>)
    : Option<Envelope>
  {
    if trace.Some? && !Traceparent(trace.value) then None
    else if record.expiresAt.Some? && record.expiresAt.value < record.createdAt then None
    else if !Intact(rules, record.payload, record.batchId, record.digest) then None
    else
      var e := Wrap(session, record, trace, authentication);
      if EnvelopeValid(e) && Intact(rules, e.payload, e.delivery.batchId, e.delivery.digest) then Some(e) else None
  }

  /** What a receiver reads out of an envelope, once its numbers are parsed. */
  datatype Reading = Reading(
    sessionEpoch: Result<nat, NumeralError>, credentialGeneration: Result<nat, NumeralError>, sentAt: Result<nat, NumeralError>,
    expiresAt: Option<Result<nat, NumeralError>>, streamEpoch: Result<nat, NumeralError>, position: Result<nat, NumeralError>)

  function Read(e: Envelope): Reading {
    Reading(
      PositiveU64(e.sessionEpoch), PositiveU64(e.credentialGeneration), CloudLinkU64(e.sentAt),
      if e.expiresAt.Some? then Some(CloudLinkU64(e.expiresAt.value)) else None,
      PositiveU64(e.delivery.streamEpoch), PositiveU64(e.delivery.position))
  }

  /** The envelope names this session, record, trace and key, under the fixed message kind. */
  predicate Conveys(e: Envelope, session: Session, record: Record, trace: Option<string>, authentication: Option<Authentication>) {
    && e.schema == "aether.cloudlink.envelope.v1" && e.protocol == "aether.cloudlink" && e.kind == "integration-observation-batch"
    && e.version == session.version && e.gatewayId == session.gatewayId && e.sessionId == session.sessionId
    && e.delivery.streamId == record.streamId && e.delivery.batchId == record.batchId && e.delivery.digest == record.digest
    && e.payload == record.payload && e.traceparent == trace && e.authentication == authentication
  }

  /** A delivered envelope carries its session and record, its numbers read back as theirs, its descriptor is that of its own
      payload, and its text decodes to it. */
  lemma DeliveredReadsBack(rules: PayloadRules, session: Session, record: Record, trace: Option<string>,
                           authentication: Option<Authentication>)
    requires Deliver(rules, session, record, trace, authentication).Some?
    ensures var e := Deliver(rules, session, record, trace, authentication).value;
            && Read(e) == Reading(
                 Ok(session.epoch), Ok(session.credentialGeneration), Ok(record.createdAt),
                 if record.expiresAt.Some? then Some(Ok(record.expiresAt.value)) else None,
                 Ok(record.streamEpoch), Ok(record.position))
            && Conveys(e, session, record, trace, authentication)
            && e.delivery.batchId == rules.batchOf(e.payload) && e.delivery.digest == rules.digestOf(e.payload)
            && EnvelopeValid(e)
            && (OneValue(record.payload) ==> DecodeEnvelope(EnvelopeText(e)) == Some(e))
  {
    hide Decimal, PositiveU64, CloudLinkU64, Uuid, DigestText, Identifier, Traceparent, OneValue, EnvelopeText, DecodeEnvelope;
    PrintedBack(session.epoch);
    PrintedBack(session.credentialGeneration);
    PrintedBack(record.createdAt);
    if record.expiresAt.Some? { PrintedBack(record.expiresAt.value); }
    PrintedBack(record.streamEpoch);
    PrintedBack(record.position);
    if OneValue(record.payload) { EnvelopeDecodes(Deliver(rules, session, record, trace, authentication).value); }
  }

  /** What the session and the record must be like for the record to be delivered. */
  predicate Deliverable(rules: PayloadRules, session: Session, record: Record, trace: Option<string>, authentication: Option<Authentication>) {
    && session.version == "1.0" && Uuid(session.gatewayId) && Uuid(session.sessionId)
    && 0 < session.epoch <= U64_MAX && 0 < session.credentialGeneration <= U64_MAX
    && Identifier(record.streamId) && 0 < record.streamEpoch <= U64_MAX && 0 < record.position <= U64_MAX
    && Identifier(record.batchId) && DigestText(record.digest)
    && record.createdAt <= U64_MAX && (record.expiresAt.Some? ==> record.createdAt <= record.expiresAt.value <= U64_MAX)
    && rules.decodes(record.payload) && rules.batchOf(record.payload) == record.batchId && rules.digestOf(record.payload) == record.digest
    && (trace.Some? ==> Traceparent(trace.value)) && (authentication.Some? ==> AuthenticationValid(authentication.value))
  }

  lemma PrintedU64(n: nat)
    ensures CloudLinkU64(Decimal(n)).Ok? <==> n <= U64_MAX
    ensures PositiveU64(Decimal(n)).Ok? <==> 0 < n <= U64_MAX
    ensures CloudLinkU64(Decimal(n)).Ok? ==> CloudLinkU64(Decimal(n)).value == n
  {
    hide CloudLinkU64, Decimal;
    U64Validators(Decimal(n), n);
    PrintedBack(n);
  }

  /** A record is delivered exactly when session, identity and times are valid, it has not lapsed, and its payload still
      decodes, names its batch and has its digest. */
  lemma DeliveredIff(rules: PayloadRules, session: Session, record: Record, trace: Option<string>, authentication: Option<Authentication>)
    ensures Deliver(rules, session, record, trace, authentication).Some? <==> Deliverable(rules, session, record, trace, authentication)
  {
    hide Decimal, PositiveU64, CloudLinkU64, Uuid, DigestText, Identifier, Traceparent, AuthenticationValid;
    PrintedU64(session.epoch);
    PrintedU64(session.credentialGeneration);
    PrintedU64(record.createdAt);
    if record.expiresAt.Some? { PrintedU64(record.expiresAt.value); }
    PrintedU64(record.streamEpoch);
    PrintedU64(record.position);
  }

  /** Two deliveries of one record, under whatever sessions, read back the same durable facts and carry the same payload. */
  lemma ReplayKeepsDurableFacts(rules: PayloadRules, record: Record, a: Session, b: Session, traceA: Option<string>, traceB: Option<string>,
                                authA: Option<Authentication>, authB: Option<Authentication>)
    requires Deliver(rules, a, record, traceA, authA).Some? && Deliver(rules, b, record, traceB, authB).Some?
    ensures var e, f := Deliver(rules, a, record, traceA, authA).value, Deliver(rules, b, record, traceB, authB).value;
            && Read(f) == Read(e).(sessionEpoch := Ok(b.epoch), credentialGeneration := Ok(b.credentialGeneration))
            && f.payload == e.payload && f.delivery == e.delivery
  {
    hide Decimal, Read, EnvelopeValid, Traceparent;
    DeliveredReadsBack(rules, a, record, traceA, authA);
    DeliveredReadsBack(rules, b, record, traceB, authB);
  }

  lemma PrintedBack(n: nat)
    ensures PositiveU64(Decimal(n)).Ok? ==> PositiveU64(Decimal(n)) == Ok(n)
    ensures CloudLinkU64(Decimal(n)).Ok? ==> CloudLinkU64(Decimal(n)) == Ok(n)
  {
    if CloudLinkU64(Decimal(n)).Ok? {
      var m := CloudLinkU64(Decimal(n)).value;
      U64Validators(Decimal(n), m);
      DecimalInjective(m, n);
    }
  }

  // ---------- the worst case ----------

  function Repeat(c: char, n: nat): (s: string)
    ensures |s| == n && forall i | 0 <= i < n :: s[i] == c
  {
    seq(n, _ => c)
  }

  /** The envelope whose length the producer checks before anything is queued. */
  function WorstCase(batchId: string, payload: string, includeExpiry: bool): Envelope {
    Envelope(
      ENVELOPE_SCHEMA, PROTOCOL, VERSION, OBSERVATION_BATCH_KIND,
      "33333333-3333-4333-8333-333333333333", "44444444-4444-4444-8444-444444444444",
      MAX_U64_TEXT, MAX_U64_TEXT, MAX_U64_TEXT, if includeExpiry then Some(MAX_U64_TEXT) else None,
      Descriptor(Repeat('s', 128), MAX_U64_TEXT, MAX_U64_TEXT, batchId, "sha256:" + Repeat('0', 64)),
      Some(Authentication(Repeat('k', 128), "Ed25519", Repeat('A', 86))),
      Some("00-" + Repeat('1', 32) + "-" + Repeat('2', 16) + "-01"), payload)
  }

  lemma AcceptedU64Width(s: string)
    requires CloudLinkU64(s).Ok?
    ensures |s| <= 20
  {
    var n := CloudLinkU64(s).value;
    U64Validators(s, n);
    U64Width(n);
  }

  lemma DescriptorNoLonger(d: Descriptor, batchId: string)
    requires DescriptorValid(d) && |d.batchId| <= |batchId|
    ensures |Object(DescriptorFields(d))| <= |Object(DescriptorFields(WorstCase(batchId, "", false).delivery))|
  {
    hide Object, CloudLinkU64;
    AcceptedU64Width(d.streamEpoch);
    AcceptedU64Width(d.position);
    ObjectNoLonger(DescriptorFields(d), DescriptorFields(WorstCase(batchId, "", false).delivery));
  }

  lemma AuthenticationNoLonger(a: Authentication)
    requires AuthenticationValid(a)
    ensures |Object(AuthenticationFields(a))| <=
            |Object(AuthenticationFields(Authentication(Repeat('k', 128), "Ed25519", Repeat('A', 86))))|
  {
    hide Object;
    ObjectNoLonger(AuthenticationFields(a), AuthenticationFields(Authentication(Repeat('k', 128), "Ed25519", Repeat('A', 86))));
  }

  predicate Short(s: Option<string>, n: nat) { s.Some? ==> |s.value| <= n }

  lemma FieldWidths(e: Envelope)
    requires EnvelopeValid(e)
    ensures e.schema == ENVELOPE_SCHEMA && e.protocol == PROTOCOL && e.kind == OBSERVATION_BATCH_KIND
    ensures DescriptorValid(e.delivery) && (e.authentication.Some? ==> AuthenticationValid(e.authentication.value))
    ensures |e.gatewayId| == 36 && |e.sessionId| == 36 && e.version == VERSION
    ensures |e.sessionEpoch| <= 20 && |e.credentialGeneration| <= 20 && |e.sentAt| <= 20
    ensures Short(e.expiresAt, 20) && Short(e.traceparent, 55)
  {
    hide CloudLinkU64, DescriptorValid, AuthenticationValid;
    AcceptedU64Width(e.sessionEpoch);
    AcceptedU64Width(e.credentialGeneration);
    AcceptedU64Width(e.sentAt);
    if e.expiresAt.Some? { AcceptedU64Width(e.expiresAt.value); }
  }

  /** No envelope that passes validation is longer than the worst case for its batch id and payload. */
  lemma NeverLonger(e: Envelope)
    requires EnvelopeValid(e)
    ensures |EnvelopeText(e)| <= |EnvelopeText(WorstCase(e.delivery.batchId, e.payload, e.expiresAt.Some?))|
  {
    hide Object, EnvelopeValid, DescriptorFields, AuthenticationFields, DescriptorValid, AuthenticationValid;
    FieldWidths(e);
    DescriptorNoLonger(e.delivery, e.delivery.batchId);
    if e.authentication.Some? { AuthenticationNoLonger(e.authentication.value); }
    ObjectNoLonger(EnvelopeFields(e), EnvelopeFields(WorstCase(e.delivery.batchId, e.payload, e.expiresAt.Some?)));
  }

  /** The worst case itself passes validation, so the bound is attained. */
  lemma WorstCaseValid(batchId: string, payload: string, includeExpiry: bool)
    requires Identifier(batchId)
    ensures EnvelopeValid(WorstCase(batchId, payload, includeExpiry))
  {
    hide CloudLinkU64, Uuid, Traceparent, Identifier;
    LargestU64();
    TemplateSession();
    TemplateTrace();
    TemplateKey('s');
    TemplateKey('k');
  }

  lemma TemplateSession()
    ensures Uuid("33333333-3333-4333-8333-333333333333") && Uuid("44444444-4444-4444-8444-444444444444")
  {
    hide Uuid;
    TemplateGateway();
    TemplateSessionId();
  }

  lemma TemplateGateway()
    ensures Uuid("33333333-3333-4333-8333-333333333333")
  {}

  lemma TemplateSessionId()
    ensures Uuid("44444444-4444-4444-8444-444444444444")
  {}

  lemma TemplateTrace()
    ensures Traceparent("00-" + Repeat('1', 32) + "-" + Repeat('2', 16) + "-01")
  {
    var t := "00-" + Repeat('1', 32) + "-" + Repeat('2', 16) + "-01";
    assert t[..2][0] == '0' && t[3..35][0] == '1' && t[36..52][0] == '2';
  }

  lemma TemplateKey(c: char)
    requires Alphanumeric(c)
    ensures Identifier(Repeat(c, 128))
  {}

  lemma LargestU64()
    ensures CloudLinkU64(MAX_U64_TEXT) == Ok(U64_MAX)
  {
    hide Decimal;
    Chunk();
    ValueSplit("18446", "74407");
    ValueSplit("1844674407", "37095");
    ValueSplit("184467440737095", "51615");
    assert "18446" + "74407" == "1844674407" && "1844674407" + "37095" == "184467440737095" && "184467440737095" + "51615" == MAX_U64_TEXT;
    CanonicalDecimal(MAX_U64_TEXT);
    U64Validators(MAX_U64_TEXT, U64_MAX);
  }

  lemma Chunk()
    ensures Pow10(5) == 100_000
    ensures Digits("18446") && Digits("74407") && Digits("37095") && Digits("51615") && Digits("1844674407") && Digits("184467440737095")
    ensures Value("18446") == 18446 && Value("74407") == 74407 && Value("37095") == 37095 && Value("51615") == 51615
  {
    hide Value;
    FiveDigits("18446");
    FiveDigits("74407");
    FiveDigits("37095");
    FiveDigits("51615");
  }

  lemma FiveDigits(s: string)
    requires |s| == 5 && Digits(s)
    ensures Value(s) == Value([s[0]]) * 10000 + Value([s[1]]) * 1000 + Value([s[2]]) * 100 + Value([s[3]]) * 10 + Value([s[4]])
    ensures forall c: char | Digit(c) :: Digits([c]) && Value([c]) == c as int - '0' as int
  {
    forall c: char | Digit(c) ensures Value([c]) == c as int - '0' as int { assert [c][..0] == ""; }
    assert s[..4][..3] == s[..3] && s[..3][..2] == s[..2] && s[..2][..1] == s[..1] && s[..1] == [s[0]];
    assert Value(s[..2]) == 10 * Value(s[..1]) + Value([s[1]]);
    assert Value(s[..3]) == 10 * Value(s[..2]) + Value([s[2]]);
    assert Value(s[..4]) == 10 * Value(s[..3]) + Value([s[3]]);
  }

  /** A longer batch id never shortens the worst case. */
  lemma LongerIdLongerEnvelope(shorter: string, longer: string, p: string, q: string, includeExpiry: bool)
    requires |shorter| <= |longer| && |p| <= |q|
    ensures |EnvelopeText(WorstCase(shorter, p, includeExpiry))| <= |EnvelopeText(WorstCase(longer, q, includeExpiry))|
  {
    hide Object;
    var v, w := WorstCase(shorter, p, includeExpiry), WorstCase(longer, q, includeExpiry);
    ObjectNoLonger(DescriptorFields(v.delivery), DescriptorFields(w.delivery));
    ObjectNoLonger(EnvelopeFields(v), EnvelopeFields(w));
  }

  /** The payload contributes exactly its own length to the worst case. */
  lemma PayloadLength(batchId: string, p: string, q: string, includeExpiry: bool)
    ensures |EnvelopeText(WorstCase(batchId, q, includeExpiry))| - |q| == |EnvelopeText(WorstCase(batchId, p, includeExpiry))| - |p|
  {
    hide Object, DescriptorFields, AuthenticationFields;
    var fs := EnvelopeFields(WorstCase(batchId, p, includeExpiry));
    Stretch(fs, 6, q);
    assert fs[6 := Field("payload", Some(q))] == EnvelopeFields(WorstCase(batchId, q, includeExpiry));
  }

  lemma PayloadFits(batchId: string, p: string, includeExpiry: bool)
    ensures |p| <= |EnvelopeText(WorstCase(batchId, p, includeExpiry))|
  {
    PayloadLength(batchId, "", p, includeExpiry);
  }
}
