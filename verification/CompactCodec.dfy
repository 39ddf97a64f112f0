/** The compact snapshot format: sections, records, and the three laws of the whole codec. */
module CompactCodec {
  import opened Common
  import opened Domain
  import opened Projections
  import opened Replay
  import opened CompactIo

  // ---- Records ---------------------------------------------------------------------

  function PutU64(n: u64, q: Bytes): Bytes {
    PutVarint(n, q)
  }

  function PutOptText(x: Option<Text>, q: Bytes): Bytes {
    PutOption(PutText, x, q)
  }

  function ReadOptText(r: Bytes): Parsed<Option<Text>> {
    ReadOption(ReadText, r)
  }

  function PutOptSigned(x: Option<Timestamp>, q: Bytes): Bytes {
    PutOption(PutSigned, x, q)
  }

  function ReadOptSigned(r: Bytes): Parsed<Option<Timestamp>> {
    ReadOption(ReadSigned, r)
  }

  function PutOptU64(x: Option<u64>, q: Bytes): Bytes {
    PutOption(PutU64, x, q)
  }

  function ReadOptU64(r: Bytes): Parsed<Option<u64>> {
    ReadOption(ReadVarint, r)
  }

  function ReadOptId(r: Bytes): Parsed<Option<Id>> {
    ReadOption(ReadId, r)
  }

  function PutEvidence(e: Evidence, q: Bytes): Bytes {
    PutText(e.kind, PutText(e.source, PutOptText(e.locator, PutOptText(e.digest, q))))
  }

  function ReadEvidence(r: Bytes): Parsed<Evidence> {
    var (kind, r1) :- ReadText(r);
    var (source, r2) :- ReadText(r1);
    var (locator, r3) :- ReadOptText(r2);
    var (digest, r4) :- ReadOptText(r3);
    Done(Evidence(kind, source, locator, digest), r4)
  }

  function PutAttribute(e: Entry<Text>, q: Bytes): Bytes {
    PutText(e.0, PutText(e.1, q))
  }

  function ReadAttribute(r: Bytes): Parsed<Entry<Text>> {
    var (key, r1) :- ReadText(r);
    var (value, r2) :- ReadText(r1);
    Done((key, value), r2)
  }

  ghost function PutNode(n: MemoryNode, q: Bytes): Bytes {
    PutText(n.id, PutText(n.kind, PutText(n.labelText, PutOptText(n.repository, PutOptText(n.branch,
      PutMap(PutAttribute, n.attributes, q))))))
  }

  function ReadNode(r: Bytes): Parsed<MemoryNode> {
    var (id, r1) :- ReadId(r);
    var (kind, r2) :- ReadText(r1);
    var (labelText, r3) :- ReadText(r2);
    var (repository, r4) :- ReadOptText(r3);
    var (branch, r5) :- ReadOptText(r4);
    var (attributes, r6) :- ReadMap(ReadAttribute, r5);
    Done(MemoryNode(id, kind, labelText, repository, branch, attributes), r6)
  }

  function PutFact(f: MemoryFact, q: Bytes): Bytes {
    PutText(f.id, PutText(f.source, PutText(f.relation, PutText(f.target,
      PutSigned(f.validFrom, PutOptSigned(f.validUntil, PutSigned(f.observedAt, PutSigned(f.recordedAt,
        PutText(f.agentId, PutText(f.sessionId, PutVarint(f.confidence,
          PutList(PutEvidence, f.evidence, PutOptText(f.supersedes, q)))))))))))))
  }

  /** Unlike validation, decoding bounds the confidence. */
  function ReadConfidence(r: Bytes): Parsed<u16> {
    var (n, r1) :- ReadVarint(r);
    if n > CERTAIN then Malformed else Done(n, r1)
  }

  function ReadFact(r: Bytes): Parsed<MemoryFact> {
    var (id, r1) :- ReadId(r);
    var (source, r2) :- ReadId(r1);
    var (relation, r3) :- ReadText(r2);
    var (target, r4) :- ReadId(r3);
    var (validFrom, r5) :- ReadSigned(r4);
    var (validUntil, r6) :- ReadOptSigned(r5);
    var (observedAt, r7) :- ReadSigned(r6);
    var (recordedAt, r8) :- ReadSigned(r7);
    var (agentId, r9) :- ReadId(r8);
    var (sessionId, r10) :- ReadId(r9);
    var (confidence, r11) :- ReadConfidence(r10);
    var (evidence, r12) :- ReadList(ReadEvidence, r11);
    var (supersedes, r13) :- ReadOptId(r12);
    Done(MemoryFact(id, source, relation, target, validFrom, validUntil, observedAt, recordedAt, agentId, sessionId,
                    confidence, evidence, supersedes), r13)
  }

  ghost function PutRevision(v: NodeRevision, q: Bytes): Bytes {
    PutNode(v.node, PutSigned(v.recordedAt, PutVarint(v.position, q)))
  }

  function ReadRevision(r: Bytes): Parsed<NodeRevision> {
    var (node, r1) :- ReadNode(r);
    var (recordedAt, r2) :- ReadSigned(r1);
    var (position, r3) :- ReadVarint(r2);
    Done(NodeRevision(node, recordedAt, position), r3)
  }

  ghost function PutHistory(h: NodeHistory, q: Bytes): Bytes {
    PutVarint(|h.later| + 1, PutRevision(h.first, PutAll(PutRevision, h.later, q)))
  }

  function ReadHistory(r: Bytes): Parsed<NodeHistory> {
    var (n, r1) :- ReadCount(r);
    if n == 0 then Malformed
    else
      var (first, r2) :- ReadRevision(r1);
      var (later, r3) :- ReadMany(ReadRevision, r2, n - 1, []);
      Done(NodeHistory(first, later), r3)
  }

  function PutVersion(e: Entry<u64>, q: Bytes): Bytes {
    PutText(e.0, PutVarint(e.1, q))
  }

  function ReadVersion(r: Bytes): Parsed<Entry<u64>> {
    var (stream, r1) :- ReadId(r);
    var (version, r2) :- ReadVarint(r1);
    Done((stream, version), r2)
  }

  function PutSupersession(e: Entry<Supersession>, q: Bytes): Bytes {
    PutText(e.0, PutText(e.1.replacement, PutSigned(e.1.validFrom, PutSigned(e.1.recordedAt, q))))
  }

  function ReadSupersession(r: Bytes): Parsed<Entry<Supersession>> {
    var (prior, r1) :- ReadId(r);
    var (replacement, r2) :- ReadId(r1);
    var (validFrom, r3) :- ReadSigned(r2);
    var (recordedAt, r4) :- ReadSigned(r3);
    Done((prior, Supersession(replacement, validFrom, recordedAt)), r4)
  }

  function PutRetraction(e: Entry<Retraction>, q: Bytes): Bytes {
    PutText(e.0, PutSigned(e.1.validUntil, PutSigned(e.1.recordedAt, q)))
  }

  function ReadRetraction(r: Bytes): Parsed<Entry<Retraction>> {
    var (fact, r1) :- ReadId(r);
    var (validUntil, r2) :- ReadSigned(r1);
    var (recordedAt, r3) :- ReadSigned(r2);
    Done((fact, Retraction(validUntil, recordedAt)), r3)
  }

  // ---- Sections -----------------------------------------------------------------------

  ghost function PutCursor(c: ReplayCursor, q: Bytes): Bytes {
    PutOptU64(c.globalPosition, PutMap(PutVersion, c.streamVersions, q))
  }

  function ReadCursor(r: Bytes): Parsed<ReplayCursor> {
    var (position, r1) :- ReadOptU64(r);
    var (versions, r2) :- ReadMap(ReadVersion, r1);
    Done(ReplayCursor(position, versions), r2)
  }

  ghost function PutData(p: Projection, q: Bytes): Bytes {
    PutList(PutHistory, p.nodes, PutList(PutFact, p.facts, PutMap(PutSupersession, p.supersessions,
      PutMap(PutRetraction, p.retractions, PutOptU64(p.lastPosition, q)))))
  }

  /** The projection's data, before its indexes are rebuilt. */
  function ReadData(r: Bytes): Parsed<Projection> {
    var (nodes, r1) :- ReadList(ReadHistory, r);
    var (facts, r2) :- ReadList(ReadFact, r1);
    var (supersessions, r3) :- ReadMap(ReadSupersession, r2);
    var (retractions, r4) :- ReadMap(ReadRetraction, r3);
    var (last, r5) :- ReadOptU64(r4);
    Done(Projection(nodes, facts, supersessions, retractions, last), r5)
  }

  function ReadBody(r: Bytes): Parsed<Snapshot> {
    var (cursor, r1) :- ReadCursor(r);
    var (projection, r2) :- ReadData(r1);
    Done(Snapshot(cursor, projection), r2)
  }

  const HEADER: Bytes := [0x57, 0x4d, 0x45, 0x4d, 0x43, 0x42, 0x30, 0x31]

  ghost function Encode(s: Snapshot): Bytes {
    HEADER + PutCursor(s.cursor, PutData(s.projection, []))
  }

  ghost function Decode(b: Bytes): Option<Snapshot> {
    if !(HEADER <= b) then None
    else
      match ReadBody(b[|HEADER|..])
      case Malformed => None
      case Done(s, rest) =>
        if Consistent(s.projection) && rest == [] && s.cursor.globalPosition == s.projection.lastPosition
        then Some(s)
        else None
  }

  // ---- What the source's types guarantee ------------------------------------------------------

  predicate OptTextOk(x: Option<Text>) {
    x.Some? ==> TextOk(x.value)
  }

  predicate EvidenceTyped(e: Evidence) {
    TextOk(e.kind) && TextOk(e.source) && OptTextOk(e.locator) && OptTextOk(e.digest)
  }

  predicate AttributeTyped(e: Entry<Text>) {
    TextOk(e.0) && TextOk(e.1)
  }

  predicate NodeTyped(n: MemoryNode) {
    && IdOk(n.id)
    && TextOk(n.kind)
    && TextOk(n.labelText)
    && OptTextOk(n.repository)
    && OptTextOk(n.branch)
    && |n.attributes| < U64_LIMIT
    && forall k | k in n.attributes :: AttributeTyped((k, n.attributes[k]))
  }

  predicate FactTyped(f: MemoryFact) {
    && IdOk(f.id)
    && IdOk(f.source)
    && TextOk(f.relation)
    && IdOk(f.target)
    && IdOk(f.agentId)
    && IdOk(f.sessionId)
    && |f.evidence| < U64_LIMIT
    && (forall i | 0 <= i < |f.evidence| :: EvidenceTyped(f.evidence[i]))
    && (f.supersedes.Some? ==> IdOk(f.supersedes.value))
  }

  predicate RevisionTyped(v: NodeRevision) {
    NodeTyped(v.node)
  }

  predicate HistoryTyped(h: NodeHistory) {
    && |h.later| + 1 < U64_LIMIT
    && RevisionTyped(h.first)
    && forall i | 0 <= i < |h.later| :: RevisionTyped(h.later[i])
  }

  predicate VersionTyped(e: Entry<u64>) {
    IdOk(e.0)
  }

  predicate SupersessionTyped(e: Entry<Supersession>) {
    IdOk(e.0) && IdOk(e.1.replacement)
  }

  predicate RetractionTyped(e: Entry<Retraction>) {
    IdOk(e.0)
  }

  predicate CursorTyped(c: ReplayCursor) {
    |c.streamVersions| < U64_LIMIT && forall k | k in c.streamVersions :: VersionTyped((k, c.streamVersions[k]))
  }

  predicate DataTyped(p: Projection) {
    && |p.nodes| < U64_LIMIT
    && (forall i | 0 <= i < |p.nodes| :: HistoryTyped(p.nodes[i]))
    && |p.facts| < U64_LIMIT
    && (forall i | 0 <= i < |p.facts| :: FactTyped(p.facts[i]))
    && |p.supersessions| < U64_LIMIT
    && (forall k | k in p.supersessions :: SupersessionTyped((k, p.supersessions[k])))
    && |p.retractions| < U64_LIMIT
    && (forall k | k in p.retractions :: RetractionTyped((k, p.retractions[k])))
  }

  /** Identifiers are identifiers, strings are UTF-8, and no length exceeds 64 bits. */
  predicate SnapshotTyped(s: Snapshot) {
    CursorTyped(s.cursor) && DataTyped(s.projection)
  }

  predicate ConfidenceOk(f: MemoryFact) {
    f.confidence <= CERTAIN
  }

  predicate ConfidencesOk(facts: seq<MemoryFact>) {
    forall i | 0 <= i < |facts| :: ConfidenceOk(facts[i])
  }

  // ---- Printers make progress ----------------------------------------------------------------------

  lemma PrintersGrow()
    ensures Grows(PutEvidence) && Grows(PutAttribute) && Grows(PutFact) && Grows(PutRevision) && Grows(PutHistory)
    ensures Grows(PutVersion) && Grows(PutSupersession) && Grows(PutRetraction)
  {
    forall e, q ensures |PutEvidence(e, q)| > |q| { EvidenceGrows(e, q); }
    forall e, q ensures |PutAttribute(e, q)| > |q| { PairGrows(e.0, e.1, q); }
    forall f, q ensures |PutFact(f, q)| > |q| { FactGrows(f, q); }
    forall v, q ensures |PutRevision(v, q)| > |q| { RevisionGrows(v, q); }
    forall h, q ensures |PutHistory(h, q)| > |q| { HistoryGrows(h, q); }
    forall e, q ensures |PutVersion(e, q)| > |q| { TextGrows(e.0, PutVarint(e.1, q)); }
    forall e, q ensures |PutSupersession(e, q)| > |q| {
      PairGrows(e.0, e.1.replacement, PutSigned(e.1.validFrom, PutSigned(e.1.recordedAt, q)));
    }
    forall e, q ensures |PutRetraction(e, q)| > |q| {
      TextGrows(e.0, PutSigned(e.1.validUntil, PutSigned(e.1.recordedAt, q)));
    }
  }

  lemma TextGrows(s: Text, q: Bytes)
    ensures |PutText(s, q)| > |q|
  {}

  lemma OptTextGrows(x: Option<Text>, q: Bytes)
    ensures |PutOptText(x, q)| > |q|
  {}

  lemma PairGrows(a: Text, b: Text, q: Bytes)
    ensures |PutText(a, PutText(b, q))| > |q|
  {
    TextGrows(b, q);
    TextGrows(a, PutText(b, q));
  }

  lemma EvidenceGrows(e: Evidence, q: Bytes)
    ensures |PutEvidence(e, q)| > |q|
  {
    hide PutText, PutOptText;
    var q3 := PutOptText(e.digest, q);
    var q2 := PutOptText(e.locator, q3);
    OptTextGrows(e.digest, q);
    OptTextGrows(e.locator, q3);
    PairGrows(e.kind, e.source, q2);
  }

  lemma {:induction false} AllGrow<T>(put: (T, Bytes) -> Bytes, xs: seq<T>, q: Bytes)
    requires forall x, t :: |put(x, t)| >= |t|
    ensures |PutAll(put, xs, q)| >= |q|
    decreases |xs|
  {
    if xs != [] {
      AllGrow(put, xs[1..], q);
    }
  }

  lemma FactGrows(f: MemoryFact, q: Bytes)
    ensures |PutFact(f, q)| > |q|
  {
    hide PutText, PutOptText, PutVarint, PutEvidence, PutAll;
    var q12 := PutOptText(f.supersedes, q);
    var q11 := PutList(PutEvidence, f.evidence, q12);
    var q10 := PutVarint(f.confidence, q11);
    var q8 := PutText(f.agentId, PutText(f.sessionId, q10));
    var q7 := PutSigned(f.recordedAt, q8);
    var q6 := PutSigned(f.observedAt, q7);
    var q5 := PutOptSigned(f.validUntil, q6);
    var q4 := PutSigned(f.validFrom, q5);
    var q2 := PutText(f.relation, PutText(f.target, q4));
    OptTextGrows(f.supersedes, q);
    forall e, t ensures |PutEvidence(e, t)| >= |t| { EvidenceGrows(e, t); }
    AllGrow(PutEvidence, f.evidence, q12);
    PairGrows(f.agentId, f.sessionId, q10);
    PairGrows(f.relation, f.target, q4);
    PairGrows(f.id, f.source, q2);
  }

  lemma {:induction false} EntriesGrow<V>(put: (Entry<V>, Bytes) -> Bytes, keys: seq<Bytes>, m: map<Bytes, V>, q: Bytes)
    requires (forall x, t :: |put(x, t)| >= |t|) && forall i | 0 <= i < |keys| :: keys[i] in m
    ensures |PutEntries(put, keys, m, q)| >= |q|
    decreases |keys|
  {
    if keys != [] {
      EntriesGrow(put, keys[1..], m, q);
    }
  }

  lemma NodeGrows(n: MemoryNode, q: Bytes)
    ensures |PutNode(n, q)| > |q|
  {
    hide PutText, PutOptText, PutVarint, PutAttribute, PutEntries;
    forall e, t ensures |PutAttribute(e, t)| >= |t| { PairGrows(e.0, e.1, t); AttributeIsPair(e, t); }
    KeysInMap(n.attributes);
    EntriesGrow(PutAttribute, SortedKeys(n.attributes.Keys), n.attributes, q);
    var q5 := PutMap(PutAttribute, n.attributes, q);
    var q4 := PutOptText(n.branch, q5);
    var q3 := PutOptText(n.repository, q4);
    OptTextGrows(n.branch, q5);
    OptTextGrows(n.repository, q4);
    TextGrows(n.labelText, q3);
    PairGrows(n.id, n.kind, PutText(n.labelText, q3));
  }

  lemma AttributeIsPair(e: Entry<Text>, q: Bytes)
    ensures PutAttribute(e, q) == PutText(e.0, PutText(e.1, q))
  {}

  lemma RevisionGrows(v: NodeRevision, q: Bytes)
    ensures |PutRevision(v, q)| > |q|
  {
    hide PutNode;
    NodeGrows(v.node, PutSigned(v.recordedAt, PutVarint(v.position, q)));
  }

  lemma HistoryGrows(h: NodeHistory, q: Bytes)
    ensures |PutHistory(h, q)| > |q|
  {
    hide PutRevision;
    forall v, t ensures |PutRevision(v, t)| >= |t| { RevisionGrows(v, t); }
    AllGrow(PutRevision, h.later, q);
    RevisionGrows(h.first, PutAll(PutRevision, h.later, q));
  }
}
