/** What replay makes of events whose identifiers and strings are what the source's types guarantee. */
module TypedReplay {
  import opened Common
  import opened Domain
  import opened Projections
  import opened Replay
  import opened CompactIo
  import opened CompactCodec

  predicate PayloadTyped(e: MemoryEvent) {
    match e
    case NodeUpserted(n) => NodeTyped(n)
    case FactRecorded(f) => FactTyped(f)
    case FactRetracted(id, _, _) => IdOk(id)
  }

  predicate EventTyped(e: StoredEvent<MemoryEvent>) {
    IdOk(e.metadata.streamId) && PayloadTyped(e.payload)
  }

  predicate EventsTyped(events: Events) {
    |events| < U64_LIMIT && forall i | 0 <= i < |events| :: EventTyped(events[i])
  }

  /** No recorded fact claims more than full confidence. */
  predicate Confident(e: StoredEvent<MemoryEvent>) {
    e.payload.FactRecorded? ==> ConfidenceOk(e.payload.fact)
  }

  predicate AllConfident(events: Events) {
    forall i | 0 <= i < |events| :: Confident(events[i])
  }

  // ---- Sections that hold at most `n` typed entries ---------------------------------------

  ghost predicate HistoryUpTo(h: NodeHistory, n: nat) {
    && |h.later| < n
    && RevisionTyped(h.first)
    && forall i | 0 <= i < |h.later| :: RevisionTyped(h.later[i])
  }

  ghost predicate NodesUpTo(nodes: seq<NodeHistory>, n: nat) {
    |nodes| <= n && forall i | 0 <= i < |nodes| :: HistoryUpTo(nodes[i], n)
  }

  ghost predicate FactsUpTo(facts: seq<MemoryFact>, n: nat) {
    |facts| <= n && forall i | 0 <= i < |facts| :: FactTyped(facts[i])
  }

  ghost predicate ChangesUpTo(p: Projection, n: nat) {
    && |p.supersessions| <= n
    && (forall k | k in p.supersessions :: SupersessionTyped((k, p.supersessions[k])))
    && |p.retractions| <= n
    && (forall k | k in p.retractions :: RetractionTyped((k, p.retractions[k])))
  }

  ghost predicate DataUpTo(p: Projection, n: nat) {
    NodesUpTo(p.nodes, n) && FactsUpTo(p.facts, n) && ChangesUpTo(p, n)
  }

  ghost predicate CursorUpTo(c: ReplayCursor, n: nat) {
    |c.streamVersions| <= n && forall k | k in c.streamVersions :: VersionTyped((k, c.streamVersions[k]))
  }

  lemma MapGrows<K, V>(m: map<K, V>, k: K, v: V)
    ensures |m[k := v]| <= |m| + 1
  {
    assert m[k := v].Keys == m.Keys + {k};
    assert |m[k := v]| == |m[k := v].Keys| && |m| == |m.Keys|;
  }

  lemma UpsertTyped(p: Projection, r: NodeRevision, n: nat)
    requires DataUpTo(p, n) && RevisionTyped(r) && InsertNode(p, r).Ok?
    ensures DataUpTo(InsertNode(p, r).value, n + 1)
  {
    hide RevisionTyped, FactTyped, SupersessionTyped, RetractionTyped;
    var q := InsertNode(p, r).value;
    forall i | 0 <= i < |q.nodes| ensures HistoryUpTo(q.nodes[i], n + 1) {
      if i < |p.nodes| {
        assert HistoryUpTo(p.nodes[i], n);
      }
    }
  }

  lemma NodesUpToMore(nodes: seq<NodeHistory>, n: nat)
    requires NodesUpTo(nodes, n)
    ensures NodesUpTo(nodes, n + 1)
  {
    hide RevisionTyped;
    forall i | 0 <= i < |nodes| ensures HistoryUpTo(nodes[i], n + 1) {
      assert HistoryUpTo(nodes[i], n);
    }
  }

  lemma ReplacementTyped(f: MemoryFact)
    requires FactTyped(f) && f.supersedes.Some?
    ensures SupersessionTyped((f.supersedes.value, SupersessionBy(f)))
  {
    hide IdOk, TextOk;
  }

  lemma RecordTyped(p: Projection, f: MemoryFact, n: nat)
    requires DataUpTo(p, n) && FactTyped(f) && InsertFact(p, f).Ok?
    ensures DataUpTo(InsertFact(p, f).value, n + 1)
  {
    hide HistoryUpTo, FactTyped, SupersessionTyped, RetractionTyped, FactError, FactIds;
    NodesUpToMore(p.nodes, n);
    if f.supersedes.Some? {
      ReplacementTyped(f);
      MapGrows(p.supersessions, f.supersedes.value, SupersessionBy(f));
    }
  }

  lemma RetractTyped(p: Projection, at: Timestamp, id: Id, until: Timestamp, evidence: seq<Evidence>, n: nat)
    requires DataUpTo(p, n) && IdOk(id) && RetractFact(p, at, id, until, evidence).Ok?
    ensures DataUpTo(RetractFact(p, at, id, until, evidence).value, n + 1)
  {
    hide HistoryUpTo, FactTyped, SupersessionTyped, AllEvidenceValid;
    NodesUpToMore(p.nodes, n);
    MapGrows(p.retractions, id, Retraction(until, at));
  }

  lemma ApplyTyped(p: Projection, e: StoredEvent<MemoryEvent>, n: nat)
    requires DataUpTo(p, n) && EventTyped(e) && Apply(p, e).Ok?
    ensures DataUpTo(Apply(p, e).value, n + 1)
  {
    hide NodesUpTo, FactsUpTo, InsertNode, InsertFact, RetractFact, NodeTyped, FactTyped, IdOk;
    var m := e.metadata;
    match e.payload {
      case NodeUpserted(node) => UpsertTyped(p, NodeRevision(node, m.recordedAt, m.globalPosition), n);
      case FactRecorded(fact) => RecordTyped(p, fact, n);
      case FactRetracted(id, until, evidence) => RetractTyped(p, m.recordedAt, id, until, evidence, n);
    }
  }

  lemma AdvanceTyped(c: ReplayCursor, e: StoredEvent<MemoryEvent>, n: nat)
    requires CursorUpTo(c, n) && EventTyped(e)
    ensures CursorUpTo(Advance(c, e), n + 1)
  {
    hide IdOk;
    MapGrows(c.streamVersions, e.metadata.streamId, e.metadata.streamVersion);
  }

  lemma {:induction false} ReplayKeepsTypes(p: Projection, c: ReplayCursor, seen: set<Id>, events: Events, z: bool, n: nat)
    requires DataUpTo(p, n) && CursorUpTo(c, n) && (forall i | 0 <= i < |events| :: EventTyped(events[i]))
    requires ReplayFrom(p, c, seen, events, z).Ok?
    ensures var s := ReplayFrom(p, c, seen, events, z).value;
            DataUpTo(s.projection, n + |events|) && CursorUpTo(s.cursor, n + |events|)
    decreases |events|
  {
    hide DataUpTo, CursorUpTo, EventTyped, Apply, ValidateNext;
    if events != [] {
      ApplyTyped(p, events[0], n);
      AdvanceTyped(c, events[0], n);
      ReplayKeepsTypes(Apply(p, events[0]).value, Advance(c, events[0]), seen + {events[0].metadata.id}, events[1..], z, n + 1);
    }
  }

  lemma UpToIsTyped(s: Snapshot, n: nat)
    requires n < U64_LIMIT && DataUpTo(s.projection, n) && CursorUpTo(s.cursor, n)
    ensures SnapshotTyped(s)
  {
    hide RevisionTyped, FactTyped, SupersessionTyped, RetractionTyped, VersionTyped;
    forall i | 0 <= i < |s.projection.nodes| ensures HistoryTyped(s.projection.nodes[i]) {
      assert HistoryUpTo(s.projection.nodes[i], n);
    }
  }

  lemma NothingTyped()
    ensures DataUpTo(EMPTY, 0) && CursorUpTo(START, 0)
  {}

  /** Replaying typed events gives a typed snapshot. */
  lemma ReplayedIsTyped(events: Events)
    requires EventsTyped(events) && ReplayAll(events).Ok?
    ensures SnapshotTyped(ReplayAll(events).value)
  {
    hide EventTyped, ReplayFrom, SnapshotTyped, DataUpTo, CursorUpTo;
    NothingTyped();
    ReplayKeepsTypes(EMPTY, START, {}, events, true, 0);
    UpToIsTyped(ReplayAll(events).value, |events|);
  }

  // ---- Confidences ------------------------------------------------------------------------------

  lemma ApplyConfidence(p: Projection, e: StoredEvent<MemoryEvent>)
    requires Apply(p, e).Ok?
    ensures ConfidencesOk(Apply(p, e).value.facts) <==> ConfidencesOk(p.facts) && Confident(e)
  {
    hide ConfidenceOk;
    if e.payload.FactRecorded? {
      InsertFactShape(p, e.payload.fact);
      var facts := p.facts + [e.payload.fact];
      assert facts[|p.facts|] == e.payload.fact;
      assert forall i | 0 <= i < |p.facts| :: facts[i] == p.facts[i];
    }
  }

  lemma {:induction false} ReplayConfidence(p: Projection, c: ReplayCursor, seen: set<Id>, events: Events, z: bool)
    requires ReplayFrom(p, c, seen, events, z).Ok?
    ensures ConfidencesOk(ReplayFrom(p, c, seen, events, z).value.projection.facts)
            <==> ConfidencesOk(p.facts) && AllConfident(events)
    decreases |events|
  {
    hide ConfidencesOk, Confident, Apply, ValidateNext;
    if events != [] {
      ApplyConfidence(p, events[0]);
      var rest := events[1..];
      ReplayConfidence(Apply(p, events[0]).value, Advance(c, events[0]), seen + {events[0].metadata.id}, rest, z);
      assert forall i | 0 < i < |events| :: events[i] == rest[i - 1];
      assert forall i | 0 <= i < |rest| :: rest[i] == events[i + 1];
    }
  }

  /** The facts of a replay are confident exactly when the events are. */
  lemma ReplayedConfidence(events: Events)
    requires ReplayAll(events).Ok?
    ensures ConfidencesOk(ReplayAll(events).value.projection.facts) <==> AllConfident(events)
  {
    hide ConfidenceOk, ReplayFrom, AllConfident;
    ReplayConfidence(EMPTY, START, {}, events, true);
  }
}
