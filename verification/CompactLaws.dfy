/** The laws of the compact codec: round trip, stability of re-encoding, prefix-freeness. */
module CompactLaws {
  import opened Common
  import opened Domain
  import opened Projections
  import opened Replay
  import opened CompactIo
  import opened CompactCodec

  // ---- Round trips, record by record ------------------------------------------------

  lemma OptTextInverts(x: Option<Text>, q: Bytes)
    requires OptTextOk(x)
    ensures ReadOptText(PutOptText(x, q)) == Done(x, q)
  {
    hide ReadText, PutText, ReadOption, PutOption;
    if x.Some? {
      forall t ensures ReadText(PutText(x.value, t)) == Done(x.value, t) { TextRoundTrip(x.value, t); }
    }
    OptionRoundTrip(PutText, ReadText, x, q);
  }

  lemma OptIdInverts(x: Option<Id>, q: Bytes)
    requires x.Some? ==> IdOk(x.value)
    ensures ReadOptId(PutOptText(x, q)) == Done(x, q)
  {
    hide ReadId, PutText, ReadOption, PutOption;
    if x.Some? {
      forall t ensures ReadId(PutText(x.value, t)) == Done(x.value, t) { IdRoundTrip(x.value, t); }
    }
    OptionRoundTrip(PutText, ReadId, x, q);
  }

  lemma OptSignedInverts(x: Option<Timestamp>, q: Bytes)
    ensures ReadOptSigned(PutOptSigned(x, q)) == Done(x, q)
  {
    hide ReadSigned, PutSigned, ReadOption, PutOption;
    if x.Some? {
      forall t ensures ReadSigned(PutSigned(x.value, t)) == Done(x.value, t) { SignedRoundTrip(x.value, t); }
    }
    OptionRoundTrip(PutSigned, ReadSigned, x, q);
  }

  lemma OptU64Inverts(x: Option<u64>, q: Bytes)
    ensures ReadOptU64(PutOptU64(x, q)) == Done(x, q)
  {
    hide ReadVarint, ReadOption, PutOption;
    if x.Some? {
      forall t ensures ReadVarint(PutU64(x.value, t)) == Done(x.value, t) { VarintRoundTrip(x.value, t); }
    }
    OptionRoundTrip(PutU64, ReadVarint, x, q);
  }

  lemma EvidenceInverts(e: Evidence)
    requires EvidenceTyped(e)
    ensures Inverts(PutEvidence, ReadEvidence, e)
  {
    hide ReadText, PutText, ReadOptText, PutOptText, TextOk, OptTextOk;
    forall q ensures ReadEvidence(PutEvidence(e, q)) == Done(e, q) {
      var q3 := PutOptText(e.digest, q);
      var q2 := PutOptText(e.locator, q3);
      var q1 := PutText(e.source, q2);
      TextRoundTrip(e.kind, q1);
      TextRoundTrip(e.source, q2);
      OptTextInverts(e.locator, q3);
      OptTextInverts(e.digest, q);
    }
  }

  lemma AttributeInverts(e: Entry<Text>)
    requires AttributeTyped(e)
    ensures Inverts(PutAttribute, ReadAttribute, e)
  {
    hide ReadText, PutText, TextOk;
    forall q ensures ReadAttribute(PutAttribute(e, q)) == Done(e, q) {
      TextRoundTrip(e.0, PutText(e.1, q));
      TextRoundTrip(e.1, q);
    }
  }

  lemma NodeInverts(n: MemoryNode, q: Bytes)
    requires NodeTyped(n)
    ensures ReadNode(PutNode(n, q)) == Done(n, q)
  {
    hide ReadId, ReadText, PutText, ReadOptText, PutOptText, ReadMap, PutMap, TextOk, IdOk, OptTextOk, AttributeTyped;
    hide Inverts, Grows;
    PrintersGrow();
    forall k | k in n.attributes ensures Inverts(PutAttribute, ReadAttribute, (k, n.attributes[k])) {
      AttributeInverts((k, n.attributes[k]));
    }
    var q5 := PutMap(PutAttribute, n.attributes, q);
    var q4 := PutOptText(n.branch, q5);
    var q3 := PutOptText(n.repository, q4);
    var q2 := PutText(n.labelText, q3);
    var q1 := PutText(n.kind, q2);
    IdRoundTrip(n.id, q1);
    TextRoundTrip(n.kind, q2);
    TextRoundTrip(n.labelText, q3);
    OptTextInverts(n.repository, q4);
    OptTextInverts(n.branch, q5);
    MapRoundTrip(PutAttribute, ReadAttribute, n.attributes, q);
  }

  lemma RevisionInverts(v: NodeRevision)
    requires RevisionTyped(v)
    ensures Inverts(PutRevision, ReadRevision, v)
  {
    hide ReadNode, PutNode, NodeTyped, ReadSigned, PutSigned, ReadVarint, PutVarint;
    forall q ensures ReadRevision(PutRevision(v, q)) == Done(v, q) {
      var q2 := PutVarint(v.position, q);
      NodeInverts(v.node, PutSigned(v.recordedAt, q2));
      SignedRoundTrip(v.recordedAt, q2);
      VarintRoundTrip(v.position, q);
    }
  }

  lemma HistoryInverts(h: NodeHistory)
    requires HistoryTyped(h)
    ensures Inverts(PutHistory, ReadHistory, h)
  {
    hide ReadRevision, PutRevision, RevisionTyped, ReadCount, PutVarint, ReadMany, PutAll, Grows;
    forall i | 0 <= i < |h.later| ensures Inverts(PutRevision, ReadRevision, h.later[i]) {
      RevisionInverts(h.later[i]);
    }
    RevisionInverts(h.first);
    PrintersGrow();
    forall q ensures ReadHistory(PutHistory(h, q)) == Done(h, q) {
      var q2 := PutAll(PutRevision, h.later, q);
      var q1 := PutRevision(h.first, q2);
      PutAllGrows(PutRevision, h.later, q);
      RevisionGrows(h.first, q2);
      CountRoundTrip(|h.later| + 1, q1);
      assert ReadRevision(q1) == Done(h.first, q2);
      ManyRoundTrip(PutRevision, ReadRevision, h.later, q, []);
      assert [] + h.later == h.later;
    }
  }

  lemma ConfidenceRead(n: u16, q: Bytes)
    ensures ReadConfidence(PutVarint(n, q)) == if n <= CERTAIN then Done(n, q) else Malformed
  {
    hide ReadVarint, PutVarint;
    VarintRoundTrip(n, q);
  }

  /** The fields behind the confidence, put in front of `q`. */
  function FactTail(f: MemoryFact, q: Bytes): Bytes {
    PutList(PutEvidence, f.evidence, PutOptText(f.supersedes, q))
  }

  lemma FactTailInverts(f: MemoryFact, q: Bytes)
    requires FactTyped(f)
    ensures ReadList(ReadEvidence, FactTail(f, q)) == Done(f.evidence, PutOptText(f.supersedes, q))
    ensures ReadOptId(PutOptText(f.supersedes, q)) == Done(f.supersedes, q)
  {
    hide TextOk, IdOk, OptTextOk, EvidenceTyped, Inverts, Grows, ReadList, PutList, ReadOptId, PutOptText;
    PrintersGrow();
    forall i | 0 <= i < |f.evidence| ensures Inverts(PutEvidence, ReadEvidence, f.evidence[i]) {
      EvidenceInverts(f.evidence[i]);
    }
    ListRoundTrip(PutEvidence, ReadEvidence, f.evidence, PutOptText(f.supersedes, q));
    OptIdInverts(f.supersedes, q);
  }

  /** A fact comes back, or is refused for its confidence alone. */
  lemma FactRead(f: MemoryFact, q: Bytes)
    requires FactTyped(f)
    ensures ReadFact(PutFact(f, q)) == if ConfidenceOk(f) then Done(f, q) else Malformed
  {
    hide ReadId, ReadText, PutText, ReadOptId, PutOptText, ReadSigned, PutSigned, ReadOptSigned, PutOptSigned;
    hide ReadConfidence, PutVarint, ReadList, PutList, TextOk, IdOk, OptTextOk, EvidenceTyped;
    var q11 := FactTail(f, q);
    var q10 := PutVarint(f.confidence, q11);
    var q9 := PutText(f.sessionId, q10);
    var q8 := PutText(f.agentId, q9);
    var q7 := PutSigned(f.recordedAt, q8);
    var q6 := PutSigned(f.observedAt, q7);
    var q5 := PutOptSigned(f.validUntil, q6);
    var q4 := PutSigned(f.validFrom, q5);
    var q3 := PutText(f.target, q4);
    var q2 := PutText(f.relation, q3);
    var q1 := PutText(f.source, q2);
    IdRoundTrip(f.id, q1);
    IdRoundTrip(f.source, q2);
    TextRoundTrip(f.relation, q3);
    IdRoundTrip(f.target, q4);
    SignedRoundTrip(f.validFrom, q5);
    OptSignedInverts(f.validUntil, q6);
    SignedRoundTrip(f.observedAt, q7);
    SignedRoundTrip(f.recordedAt, q8);
    IdRoundTrip(f.agentId, q9);
    IdRoundTrip(f.sessionId, q10);
    ConfidenceRead(f.confidence, q11);
    FactTailInverts(f, q);
  }

  lemma VersionInverts(e: Entry<u64>)
    requires VersionTyped(e)
    ensures Inverts(PutVersion, ReadVersion, e)
  {
    hide ReadId, PutText, IdOk, ReadVarint, PutVarint;
    forall q ensures ReadVersion(PutVersion(e, q)) == Done(e, q) {
      IdRoundTrip(e.0, PutVarint(e.1, q));
      VarintRoundTrip(e.1, q);
    }
  }

  lemma SupersessionInverts(e: Entry<Supersession>)
    requires SupersessionTyped(e)
    ensures Inverts(PutSupersession, ReadSupersession, e)
  {
    hide ReadId, PutText, IdOk, ReadSigned, PutSigned;
    forall q ensures ReadSupersession(PutSupersession(e, q)) == Done(e, q) {
      var q3 := PutSigned(e.1.recordedAt, q);
      var q2 := PutSigned(e.1.validFrom, q3);
      IdRoundTrip(e.0, PutText(e.1.replacement, q2));
      IdRoundTrip(e.1.replacement, q2);
      SignedRoundTrip(e.1.validFrom, q3);
      SignedRoundTrip(e.1.recordedAt, q);
    }
  }

  lemma RetractionInverts(e: Entry<Retraction>)
    requires RetractionTyped(e)
    ensures Inverts(PutRetraction, ReadRetraction, e)
  {
    hide ReadId, PutText, IdOk, ReadSigned, PutSigned;
    forall q ensures ReadRetraction(PutRetraction(e, q)) == Done(e, q) {
      var q2 := PutSigned(e.1.recordedAt, q);
      IdRoundTrip(e.0, PutSigned(e.1.validUntil, q2));
      SignedRoundTrip(e.1.validUntil, q2);
      SignedRoundTrip(e.1.recordedAt, q);
    }
  }

  lemma CursorInverts(c: ReplayCursor, q: Bytes)
    requires CursorTyped(c)
    ensures ReadCursor(PutCursor(c, q)) == Done(c, q)
  {
    hide ReadOptU64, PutOptU64, ReadMap, PutMap, VersionTyped, Inverts, Grows;
    PrintersGrow();
    forall k | k in c.streamVersions ensures Inverts(PutVersion, ReadVersion, (k, c.streamVersions[k])) {
      VersionInverts((k, c.streamVersions[k]));
    }
    OptU64Inverts(c.globalPosition, PutMap(PutVersion, c.streamVersions, q));
    MapRoundTrip(PutVersion, ReadVersion, c.streamVersions, q);
  }

  // ---- The whole projection ------------------------------------------------------------------

  lemma NodesInvert(nodes: seq<NodeHistory>, q: Bytes)
    requires |nodes| < U64_LIMIT && forall i | 0 <= i < |nodes| :: HistoryTyped(nodes[i])
    ensures ReadList(ReadHistory, PutList(PutHistory, nodes, q)) == Done(nodes, q)
  {
    hide ReadHistory, PutHistory, HistoryTyped, Inverts, Grows, ReadList, PutList;
    PrintersGrow();
    forall i | 0 <= i < |nodes| ensures Inverts(PutHistory, ReadHistory, nodes[i]) {
      HistoryInverts(nodes[i]);
    }
    ListRoundTrip(PutHistory, ReadHistory, nodes, q);
  }

  lemma FactsRead(facts: seq<MemoryFact>, q: Bytes)
    requires |facts| < U64_LIMIT && forall i | 0 <= i < |facts| :: FactTyped(facts[i])
    ensures ReadList(ReadFact, PutList(PutFact, facts, q)) == if ConfidencesOk(facts) then Done(facts, q) else Malformed
  {
    hide ReadFact, PutFact, FactTyped, Grows, ReadList, PutList, ConfidenceOk;
    PrintersGrow();
    forall i | 0 <= i < |facts|
      ensures ConfidenceOk(facts[i]) ==> Inverts(PutFact, ReadFact, facts[i])
      ensures !ConfidenceOk(facts[i]) ==> Refuses(PutFact, ReadFact, facts[i])
    {
      forall t ensures ReadFact(PutFact(facts[i], t)) == if ConfidenceOk(facts[i]) then Done(facts[i], t) else Malformed {
        FactRead(facts[i], t);
      }
    }
    hide Inverts, Refuses;
    if ConfidencesOk(facts) {
      ListRoundTrip(PutFact, ReadFact, facts, q);
    } else {
      ListRefused(PutFact, ReadFact, facts, q);
    }
  }

  lemma ChangesInvert(p: Projection, q: Bytes)
    requires DataTyped(p)
    ensures ReadMap(ReadSupersession, PutMap(PutSupersession, p.supersessions, q)) == Done(p.supersessions, q)
    ensures ReadMap(ReadRetraction, PutMap(PutRetraction, p.retractions, q)) == Done(p.retractions, q)
  {
    hide HistoryTyped, FactTyped, SupersessionTyped, RetractionTyped, Inverts, Grows, ReadMap, PutMap;
    PrintersGrow();
    forall k | k in p.supersessions ensures Inverts(PutSupersession, ReadSupersession, (k, p.supersessions[k])) {
      SupersessionInverts((k, p.supersessions[k]));
    }
    forall k | k in p.retractions ensures Inverts(PutRetraction, ReadRetraction, (k, p.retractions[k])) {
      RetractionInverts((k, p.retractions[k]));
    }
    MapRoundTrip(PutSupersession, ReadSupersession, p.supersessions, q);
    MapRoundTrip(PutRetraction, ReadRetraction, p.retractions, q);
  }

  lemma DataRead(p: Projection, q: Bytes)
    requires DataTyped(p)
    ensures ReadData(PutData(p, q)) == if ConfidencesOk(p.facts) then Done(p, q) else Malformed
  {
    hide HistoryTyped, FactTyped, SupersessionTyped, RetractionTyped, ConfidencesOk;
    hide ReadList, PutList, ReadMap, PutMap, ReadOptU64, PutOptU64;
    var q4 := PutOptU64(p.lastPosition, q);
    var q3 := PutMap(PutRetraction, p.retractions, q4);
    var q2 := PutMap(PutSupersession, p.supersessions, q3);
    NodesInvert(p.nodes, PutList(PutFact, p.facts, q2));
    FactsRead(p.facts, q2);
    ChangesInvert(p, q3);
    ChangesInvert(p, q4);
    OptU64Inverts(p.lastPosition, q);
  }

  lemma BodyRead(s: Snapshot)
    requires SnapshotTyped(s)
    ensures ReadBody(PutCursor(s.cursor, PutData(s.projection, [])))
         == if ConfidencesOk(s.projection.facts) then Done(s, []) else Malformed
  {
    hide CursorTyped, DataTyped, ReadCursor, PutCursor, ReadData, PutData, ConfidencesOk;
    CursorInverts(s.cursor, PutData(s.projection, []));
    DataRead(s.projection, []);
  }

  /** A snapshot survives encoding and decoding exactly when its projection is consistent, its two
      positions agree, and no fact claims more than full confidence. */
  lemma RoundTrip(s: Snapshot)
    requires SnapshotTyped(s)
    ensures Decode(Encode(s)) == Some(s)
            <==> Consistent(s.projection) && s.cursor.globalPosition == s.projection.lastPosition
                 && ConfidencesOk(s.projection.facts)
    ensures Decode(Encode(s)) == Some(s) || Decode(Encode(s)) == None
  {
    hide SnapshotTyped, Consistent, ReadBody, PutCursor, PutData, ConfidencesOk;
    var body := PutCursor(s.cursor, PutData(s.projection, []));
    assert (HEADER + body)[|HEADER|..] == body;
    BodyRead(s);
  }

  // ---- What follows does not matter ---------------------------------------------------------------

  function Rest<T>(p: Parsed<T>): Bytes {
    if p.Done? then p.rest else []
  }

  lemma OptTextExtends(r: Bytes, more: Bytes)
    ensures Extended(ReadOptText, r, more)
  {
    hide ReadText, ReadOption;
    forall a, b ensures Extended(ReadText, a, b) { TextExtends(a, b); }
    OptionExtends(ReadText, r, more);
  }

  lemma OptIdExtends(r: Bytes, more: Bytes)
    ensures Extended(ReadOptId, r, more)
  {
    hide ReadId, ReadOption;
    forall a, b ensures Extended(ReadId, a, b) { IdExtends(a, b); }
    OptionExtends(ReadId, r, more);
  }

  lemma OptSignedExtends(r: Bytes, more: Bytes)
    ensures Extended(ReadOptSigned, r, more)
  {
    hide ReadSigned, ReadOption;
    forall a, b ensures Extended(ReadSigned, a, b) { SignedExtends(a, b); }
    OptionExtends(ReadSigned, r, more);
  }

  lemma OptU64Extends(r: Bytes, more: Bytes)
    ensures Extended(ReadOptU64, r, more)
  {
    hide ReadVarint, ReadOption;
    forall a, b ensures Extended(ReadVarint, a, b) { VarintExtends(a, b); }
    OptionExtends(ReadVarint, r, more);
  }

  lemma EvidenceExtends(r: Bytes, more: Bytes)
    ensures Extended(ReadEvidence, r, more)
  {
    hide ReadText, ReadOptText;
    var r1 := Rest(ReadText(r));
    var r2 := Rest(ReadText(r1));
    var r3 := Rest(ReadOptText(r2));
    TextExtends(r, more);
    TextExtends(r1, more);
    OptTextExtends(r2, more);
    OptTextExtends(r3, more);
  }

  lemma AttributeExtends(r: Bytes, more: Bytes)
    ensures Extended(ReadAttribute, r, more)
  {
    hide ReadText;
    TextExtends(r, more);
    TextExtends(Rest(ReadText(r)), more);
  }

  lemma NodeExtends(r: Bytes, more: Bytes)
    ensures Extended(ReadNode, r, more)
  {
    hide ReadId, ReadText, ReadOptText, ReadMap;
    forall a, b ensures Extended(ReadAttribute, a, b) { AttributeExtends(a, b); }
    var r1 := Rest(ReadId(r));
    var r2 := Rest(ReadText(r1));
    var r3 := Rest(ReadText(r2));
    var r4 := Rest(ReadOptText(r3));
    var r5 := Rest(ReadOptText(r4));
    IdExtends(r, more);
    TextExtends(r1, more);
    TextExtends(r2, more);
    OptTextExtends(r3, more);
    OptTextExtends(r4, more);
    MapExtends(ReadAttribute, r5, more);
  }

  lemma RevisionExtends(r: Bytes, more: Bytes)
    ensures Extended(ReadRevision, r, more)
  {
    hide ReadNode, ReadSigned, ReadVarint;
    var r1 := Rest(ReadNode(r));
    NodeExtends(r, more);
    SignedExtends(r1, more);
    VarintExtends(Rest(ReadSigned(r1)), more);
  }

  lemma HistoryExtends(r: Bytes, more: Bytes)
    ensures Extended(ReadHistory, r, more)
  {
    hide ReadCount, ReadRevision, ReadMany;
    forall a, b ensures Extended(ReadRevision, a, b) { RevisionExtends(a, b); }
    CountExtends(r, more);
    if ReadCount(r).Done? && ReadCount(r).value > 0 {
      var r1 := ReadCount(r).rest;
      RevisionExtends(r1, more);
      ManyExtends(ReadRevision, Rest(ReadRevision(r1)), ReadCount(r).value - 1, [], more);
    }
  }

  lemma ConfidenceExtends(r: Bytes, more: Bytes)
    ensures Extended(ReadConfidence, r, more)
  {
    hide ReadVarint;
    VarintExtends(r, more);
  }

  lemma FactExtends(r: Bytes, more: Bytes)
    ensures Extended(ReadFact, r, more)
  {
    hide ReadId, ReadText, ReadOptId, ReadSigned, ReadOptSigned, ReadConfidence, ReadList;
    forall a, b ensures Extended(ReadEvidence, a, b) { EvidenceExtends(a, b); }
    var r1 := Rest(ReadId(r));
    var r2 := Rest(ReadId(r1));
    var r3 := Rest(ReadText(r2));
    var r4 := Rest(ReadId(r3));
    var r5 := Rest(ReadSigned(r4));
    var r6 := Rest(ReadOptSigned(r5));
    var r7 := Rest(ReadSigned(r6));
    var r8 := Rest(ReadSigned(r7));
    var r9 := Rest(ReadId(r8));
    var r10 := Rest(ReadId(r9));
    var r11 := Rest(ReadConfidence(r10));
    var r12 := Rest(ReadList(ReadEvidence, r11));
    IdExtends(r, more);
    IdExtends(r1, more);
    TextExtends(r2, more);
    IdExtends(r3, more);
    SignedExtends(r4, more);
    OptSignedExtends(r5, more);
    SignedExtends(r6, more);
    SignedExtends(r7, more);
    IdExtends(r8, more);
    IdExtends(r9, more);
    ConfidenceExtends(r10, more);
    ListExtends(ReadEvidence, r11, more);
    OptIdExtends(r12, more);
  }

  lemma VersionExtends(r: Bytes, more: Bytes)
    ensures Extended(ReadVersion, r, more)
  {
    hide ReadId, ReadVarint;
    IdExtends(r, more);
    VarintExtends(Rest(ReadId(r)), more);
  }

  lemma SupersessionExtends(r: Bytes, more: Bytes)
    ensures Extended(ReadSupersession, r, more)
  {
    hide ReadId, ReadSigned;
    var r1 := Rest(ReadId(r));
    var r2 := Rest(ReadId(r1));
    IdExtends(r, more);
    IdExtends(r1, more);
    SignedExtends(r2, more);
    SignedExtends(Rest(ReadSigned(r2)), more);
  }

  lemma RetractionExtends(r: Bytes, more: Bytes)
    ensures Extended(ReadRetraction, r, more)
  {
    hide ReadId, ReadSigned;
    var r1 := Rest(ReadId(r));
    IdExtends(r, more);
    SignedExtends(r1, more);
    SignedExtends(Rest(ReadSigned(r1)), more);
  }

  lemma CursorExtends(r: Bytes, more: Bytes)
    ensures Extended(ReadCursor, r, more)
  {
    hide ReadOptU64, ReadMap;
    forall a, b ensures Extended(ReadVersion, a, b) { VersionExtends(a, b); }
    OptU64Extends(r, more);
    MapExtends(ReadVersion, Rest(ReadOptU64(r)), more);
  }

  lemma DataExtends(r: Bytes, more: Bytes)
    ensures Extended(ReadData, r, more)
  {
    hide ReadList, ReadMap, ReadOptU64, ReadHistory, ReadFact, ReadSupersession, ReadRetraction;
    forall a, b ensures Extended(ReadHistory, a, b) { HistoryExtends(a, b); }
    forall a, b ensures Extended(ReadFact, a, b) { FactExtends(a, b); }
    forall a, b ensures Extended(ReadSupersession, a, b) { SupersessionExtends(a, b); }
    forall a, b ensures Extended(ReadRetraction, a, b) { RetractionExtends(a, b); }
    var r1 := Rest(ReadList(ReadHistory, r));
    var r2 := Rest(ReadList(ReadFact, r1));
    var r3 := Rest(ReadMap(ReadSupersession, r2));
    var r4 := Rest(ReadMap(ReadRetraction, r3));
    ListExtends(ReadHistory, r, more);
    ListExtends(ReadFact, r1, more);
    MapExtends(ReadSupersession, r2, more);
    MapExtends(ReadRetraction, r3, more);
    OptU64Extends(r4, more);
  }

  lemma BodyExtends(r: Bytes, more: Bytes)
    ensures Extended(ReadBody, r, more)
  {
    hide ReadCursor, ReadData;
    CursorExtends(r, more);
    DataExtends(Rest(ReadCursor(r)), more);
  }

  /** No accepted byte string is a strict prefix of another, although every count check looks at how
      many bytes remain. */
  lemma PrefixFree(b: Bytes, more: Bytes)
    requires more != [] && Decode(b).Some?
    ensures Decode(b + more) == None
  {
    hide Consistent, ReadBody;
    var r := b[|HEADER|..];
    assert (b + more)[|HEADER|..] == r + more;
    BodyExtends(r, more);
  }

  // ---- What decoding yields ---------------------------------------------------------------------------

  lemma OptTextYields(r: Bytes)
    ensures ReadOptText(r).Done? ==> OptTextOk(ReadOptText(r).value)
    ensures ReadOptId(r).Done? && ReadOptId(r).value.Some? ==> IdOk(ReadOptId(r).value.value)
  {
    hide ReadText, ReadId, TextOk, IdOk;
    TextYields(Rest(ReadBool(r)));
  }

  lemma EvidenceYields()
    ensures Yields(ReadEvidence, EvidenceTyped)
  {
    hide ReadText, ReadOptText, TextOk, OptTextOk;
    forall r | ReadEvidence(r).Done? ensures EvidenceTyped(ReadEvidence(r).value) {
      var r1 := ReadText(r).rest;
      var r2 := ReadText(r1).rest;
      TextYields(r);
      TextYields(r1);
      OptTextYields(r2);
      OptTextYields(ReadOptText(r2).rest);
    }
  }

  lemma AttributeYields()
    ensures Yields(ReadAttribute, AttributeTyped)
  {
    hide ReadText, TextOk;
    forall r | ReadAttribute(r).Done? ensures AttributeTyped(ReadAttribute(r).value) {
      TextYields(r);
      TextYields(ReadText(r).rest);
    }
  }

  lemma NodeYields(r: Bytes)
    requires ReadNode(r).Done?
    ensures NodeTyped(ReadNode(r).value)
  {
    hide ReadId, ReadText, ReadOptText, ReadMap, TextOk, IdOk, OptTextOk, AttributeTyped;
    AttributeYields();
    hide Yields;
    var r1 := ReadId(r).rest;
    var r2 := ReadText(r1).rest;
    var r3 := ReadText(r2).rest;
    var r4 := ReadOptText(r3).rest;
    var r5 := ReadOptText(r4).rest;
    TextYields(r);
    TextYields(r1);
    TextYields(r2);
    OptTextYields(r3);
    OptTextYields(r4);
    MapYields(ReadAttribute, AttributeTyped, r5);
  }

  lemma RevisionYields()
    ensures Yields(ReadRevision, RevisionTyped)
  {
    hide ReadNode, NodeTyped;
    forall r | ReadRevision(r).Done? ensures RevisionTyped(ReadRevision(r).value) {
      NodeYields(r);
    }
  }

  lemma RevisionYieldsAt(r: Bytes)
    requires ReadRevision(r).Done?
    ensures RevisionTyped(ReadRevision(r).value)
  {
    hide ReadNode, NodeTyped;
    NodeYields(r);
  }

  lemma HistoryYieldsAt(r: Bytes)
    requires ReadHistory(r).Done?
    ensures HistoryTyped(ReadHistory(r).value)
  {
    hide ReadRevision, RevisionTyped, ReadMany, Yields, ReadVarint;
    var r1 := ReadCount(r).rest;
    RevisionYields();
    RevisionYieldsAt(r1);
    ManyYields(ReadRevision, RevisionTyped, ReadRevision(r1).rest, ReadCount(r).value - 1, []);
  }

  lemma HistoryYields()
    ensures Yields(ReadHistory, HistoryTyped)
  {
    forall r | ReadHistory(r).Done? ensures HistoryTyped(ReadHistory(r).value) {
      hide ReadHistory, HistoryTyped;
      HistoryYieldsAt(r);
    }
  }

  lemma FactYields()
    ensures Yields(ReadFact, FactTyped)
    ensures Yields(ReadFact, ConfidenceOk)
  {
    hide ReadId, ReadText, ReadOptId, ReadSigned, ReadOptSigned, ReadList, TextOk, IdOk, EvidenceTyped;
    EvidenceYields();
    forall r | ReadFact(r).Done? ensures FactTyped(ReadFact(r).value) && ConfidenceOk(ReadFact(r).value) {
      var r1 := ReadId(r).rest;
      var r2 := ReadId(r1).rest;
      var r3 := ReadText(r2).rest;
      var r4 := ReadId(r3).rest;
      var r5 := ReadSigned(r4).rest;
      var r6 := ReadOptSigned(r5).rest;
      var r7 := ReadSigned(r6).rest;
      var r8 := ReadSigned(r7).rest;
      var r9 := ReadId(r8).rest;
      var r10 := ReadId(r9).rest;
      var r11 := ReadConfidence(r10).rest;
      var r12 := ReadList(ReadEvidence, r11).rest;
      TextYields(r);
      TextYields(r1);
      TextYields(r2);
      TextYields(r3);
      TextYields(r8);
      TextYields(r9);
      ListYields(ReadEvidence, EvidenceTyped, r11);
      OptTextYields(r12);
    }
  }

  lemma EntriesTyped()
    ensures Yields(ReadVersion, VersionTyped) && Yields(ReadSupersession, SupersessionTyped)
    ensures Yields(ReadRetraction, RetractionTyped)
  {
    hide ReadId, IdOk, ReadSigned, ReadVarint;
    forall r ensures ReadId(r).Done? ==> IdOk(ReadId(r).value) { TextYields(r); }
    forall r | ReadSupersession(r).Done? ensures SupersessionTyped(ReadSupersession(r).value) {
      TextYields(r);
      TextYields(ReadId(r).rest);
    }
  }

  lemma DataYields(r: Bytes)
    requires ReadData(r).Done?
    ensures DataTyped(ReadData(r).value) && ConfidencesOk(ReadData(r).value.facts)
  {
    hide ReadList, ReadMap, HistoryTyped, FactTyped, SupersessionTyped, RetractionTyped, ConfidenceOk;
    HistoryYields();
    FactYields();
    EntriesTyped();
    hide Yields;
    var r1 := ReadList(ReadHistory, r).rest;
    var r2 := ReadList(ReadFact, r1).rest;
    var r3 := ReadMap(ReadSupersession, r2).rest;
    ListYields(ReadHistory, HistoryTyped, r);
    ListYields(ReadFact, FactTyped, r1);
    ListYields(ReadFact, ConfidenceOk, r1);
    MapYields(ReadSupersession, SupersessionTyped, r2);
    MapYields(ReadRetraction, RetractionTyped, r3);
  }

  lemma CursorYields(r: Bytes)
    requires ReadCursor(r).Done?
    ensures CursorTyped(ReadCursor(r).value)
  {
    hide ReadMap, ReadOptU64, VersionTyped;
    EntriesTyped();
    hide Yields;
    MapYields(ReadVersion, VersionTyped, ReadOptU64(r).rest);
  }

  /** Whatever decodes, decodes to a snapshot that encodes and decodes to itself. */
  lemma DecodedIsStable(b: Bytes)
    requires Decode(b).Some?
    ensures SnapshotTyped(Decode(b).value)
    ensures Decode(Encode(Decode(b).value)) == Decode(b)
  {
    hide Consistent, ReadCursor, ReadData, CursorTyped, DataTyped, ConfidencesOk, Encode;
    var r := b[|HEADER|..];
    CursorYields(r);
    DataYields(ReadCursor(r).rest);
    RoundTrip(Decode(b).value);
  }
}
