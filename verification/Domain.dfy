/** Nodes, facts, evidence and events, with the validation each construction route applies. */
module Domain {
  import opened Common

  datatype Evidence = Evidence(kind: Text, source: Text, locator: Option<Text>, digest: Option<Text>)

  datatype MemoryNode = MemoryNode(
    id: Id,
    kind: Text,
    labelText: Text,
    repository: Option<Text>,
    branch: Option<Text>,
    attributes: map<Text, Text>)

  /** `confidence` is the raw 16-bit value: only its smart constructor bounds it by 10,000. */
  datatype MemoryFact = MemoryFact(
    id: Id,
    source: Id,
    relation: Text,
    target: Id,
    validFrom: Timestamp,
    validUntil: Option<Timestamp>,
    observedAt: Timestamp,
    recordedAt: Timestamp,
    agentId: Id,
    sessionId: Id,
    confidence: u16,
    evidence: seq<Evidence>,
    supersedes: Option<Id>)

  datatype MemoryEvent =
    | NodeUpserted(node: MemoryNode)
    | FactRecorded(fact: MemoryFact)
    | FactRetracted(factId: Id, validUntil: Timestamp, evidence: seq<Evidence>)

  /** The three event type names the crate writes, and any other text an envelope may carry. */
  datatype EventType = NodeUpsertedType | FactRecordedType | FactRetractedType | OtherType(name: Text)

  function TypeOf(event: MemoryEvent): EventType {
    match event
    case NodeUpserted(_) => NodeUpsertedType
    case FactRecorded(_) => FactRecordedType
    case FactRetracted(_, _, _) => FactRetractedType
  }

  datatype EventMetadata = EventMetadata(
    id: Id,
    streamId: Id,
    streamVersion: u64,
    globalPosition: u64,
    eventType: EventType,
    occurredAt: Timestamp,
    recordedAt: Timestamp,
    agentId: Id,
    sessionId: Id,
    correlationId: Option<Id>,
    causationId: Option<Id>)

  datatype StoredEvent<+E> = StoredEvent(metadata: EventMetadata, payload: E)

  const CERTAIN: int := 10_000

  // ---- Validation ---------------------------------------------------------------

  predicate OptionalProper(value: Option<Text>) {
    value.Some? ==> IsProperText(value.value)
  }

  predicate EvidenceValid(e: Evidence) {
    IsProperText(e.kind) && IsProperText(e.source) && OptionalProper(e.locator) && OptionalProper(e.digest)
  }

  predicate AllEvidenceValid(evidence: seq<Evidence>) {
    forall i | 0 <= i < |evidence| :: EvidenceValid(evidence[i])
  }

  predicate NodeValid(n: MemoryNode) {
    && IsProperText(n.kind)
    && n.labelText != []
    && OptionalProper(n.repository)
    && OptionalProper(n.branch)
    && forall key | key in n.attributes :: IsProperText(key)
  }

  predicate FactValid(f: MemoryFact) {
    && IsProperText(f.relation)
    && f.observedAt <= f.recordedAt
    && (f.validUntil.Some? ==> f.validFrom < f.validUntil.value)
    && f.evidence != []
    && AllEvidenceValid(f.evidence)
  }
}
