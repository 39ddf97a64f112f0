/** The writer object: a growing byte buffer, proved against the printers.

    Each method promises that the buffer grew by exactly what the printer of the same
    value puts in front of any continuation.
 */
module CompactWriter {
  import opened Common
  import opened Domain
  import opened Projections
  import opened Replay
  import opened CompactIo
  import opened CompactCodec

  function PutFactHead(f: MemoryFact, q: Bytes): Bytes {
    PutText(f.id, PutText(f.source, PutText(f.relation, PutText(f.target,
      PutSigned(f.validFrom, PutOptSigned(f.validUntil, q))))))
  }

  class Writer {
    var bytes: Bytes

    constructor (header: Bytes)
      ensures bytes == header
    {
      bytes := header;
    }

    method Varint(value: u64)
      modifies this
      ensures forall q :: bytes + q == old(bytes) + PutVarint(value, q)
    {
      hide ToByte;
      var v := value;
      while v >= 128
        invariant forall q :: bytes + PutVarint(v, q) == old(bytes) + PutVarint(value, q)
      {
        ghost var before := bytes;
        var head := ToByte(v % 128 + 128);
        bytes := bytes + [head];
        forall q ensures bytes + PutVarint(v / 128, q) == old(bytes) + PutVarint(value, q) {
          var tail := PutVarint(v / 128, q);
          assert (before + [head]) + tail == before + ([head] + tail);
        }
        v := v / 128;
      }
      ghost var before := bytes;
      bytes := bytes + [ToByte(v)];
      forall q ensures bytes + q == old(bytes) + PutVarint(value, q) {
        assert (before + [ToByte(v)]) + q == before + PutVarint(v, q);
      }
    }

    method Usize(value: nat) returns (r: Result<()>)
      modifies this
      ensures value < U64_LIMIT ==> r.Ok?
      ensures r.Ok? ==> forall q :: bytes + q == old(bytes) + PutVarint(value, q)
    {
      if value >= U64_LIMIT {
        return Err(CapacityOverflow);
      }
      Varint(value);
      r := Ok(());
    }

    method Signed(value: i64)
      modifies this
      ensures forall q :: bytes + q == old(bytes) + PutSigned(value, q)
    {
      hide PutVarint;
      Varint(Zigzag(value));
    }

    method Bool(value: bool)
      modifies this
      ensures forall q :: bytes + q == old(bytes) + PutBool(value, q)
    {
      ghost var before := bytes;
      bytes := bytes + [if value then 1 else 0];
      forall q ensures bytes + q == before + PutBool(value, q) {
        assert PutBool(value, q) == [if value then 1 as byte else 0] + q;
      }
    }

    method OptionalU64(value: Option<u64>)
      modifies this
      ensures forall q :: bytes + q == old(bytes) + PutOptU64(value, q)
    {
      hide PutVarint, PutBool;
      Bool(value.Some?);
      if value.Some? {
        Varint(value.value);
      }
    }

    method OptionalSigned(value: Option<i64>)
      modifies this
      ensures forall q :: bytes + q == old(bytes) + PutOptSigned(value, q)
    {
      hide PutSigned, PutBool;
      Bool(value.Some?);
      if value.Some? {
        Signed(value.value);
      }
    }

    method Str(value: Text) returns (r: Result<()>)
      modifies this
      ensures |value| < U64_LIMIT ==> r.Ok?
      ensures r.Ok? ==> forall q :: bytes + q == old(bytes) + PutText(value, q)
    {
      hide PutVarint;
      var _ :- Usize(|value|);
      ghost var before := bytes;
      bytes := bytes + value;
      forall q ensures bytes + q == old(bytes) + PutText(value, q) {
        assert (before + value) + q == before + (value + q);
      }
      r := Ok(());
    }

    method OptionalStr(value: Option<Text>) returns (r: Result<()>)
      modifies this
      ensures OptTextOk(value) ==> r.Ok?
      ensures r.Ok? ==> forall q :: bytes + q == old(bytes) + PutOptText(value, q)
    {
      hide PutText, PutBool;
      Bool(value.Some?);
      if value.Some? {
        var _ :- Str(value.value);
      }
      r := Ok(());
    }

    // ---- Records --------------------------------------------------------------------

    method WriteEvidence(e: Evidence) returns (r: Result<()>)
      modifies this
      ensures EvidenceTyped(e) ==> r.Ok?
      ensures r.Ok? ==> forall q :: bytes + q == old(bytes) + PutEvidence(e, q)
    {
      hide PutText, PutOptText, OptTextOk, IsText;
      var _ :- Str(e.kind);
      var _ :- Str(e.source);
      var _ :- OptionalStr(e.locator);
      var _ :- OptionalStr(e.digest);
      r := Ok(());
    }

    method WriteAttributes(attributes: map<Text, Text>) returns (r: Result<()>)
      modifies this
      ensures |attributes| < U64_LIMIT && (forall k | k in attributes :: AttributeTyped((k, attributes[k]))) ==> r.Ok?
      ensures r.Ok? ==> forall q :: bytes + q == old(bytes) + PutMap(PutAttribute, attributes, q)
    {
      hide PutVarint, PutText, SortedKeys, IsText, PutEntries, PutMap, Written;
      var _ :- Usize(|attributes|);
      ghost var mid := bytes;
      var keys := SortKeys(attributes.Keys);
      KeysInMap(attributes);
      NothingWritten(PutAttribute, keys, attributes, mid);
      for i := 0 to |keys|
        invariant Written(PutAttribute, keys, attributes, i, mid, bytes)
      {
        ghost var was := bytes;
        assert AttributeTyped((keys[i], attributes[keys[i]])) ==> TextOk(keys[i]) && TextOk(attributes[keys[i]]);
        var _ :- Str(keys[i]);
        var _ :- Str(attributes[keys[i]]);
        EntryWritten(PutAttribute, keys, attributes, i, mid, was, bytes);
      }
      MapWritten(PutAttribute, attributes, keys, old(bytes), mid, bytes);
      r := Ok(());
    }

    method WriteNode(n: MemoryNode) returns (r: Result<()>)
      modifies this
      ensures NodeTyped(n) ==> r.Ok?
      ensures r.Ok? ==> forall q :: bytes + q == old(bytes) + PutNode(n, q)
    {
      hide PutText, PutOptText, PutMap, OptTextOk, IsText, IsId, AttributeTyped;
      var _ :- Str(n.id);
      var _ :- Str(n.kind);
      var _ :- Str(n.labelText);
      var _ :- OptionalStr(n.repository);
      var _ :- OptionalStr(n.branch);
      var _ :- WriteAttributes(n.attributes);
      r := Ok(());
    }

    method WriteAllEvidence(evidence: seq<Evidence>) returns (r: Result<()>)
      modifies this
      ensures |evidence| < U64_LIMIT && (forall i | 0 <= i < |evidence| :: EvidenceTyped(evidence[i])) ==> r.Ok?
      ensures r.Ok? ==> forall q :: bytes + q == old(bytes) + PutList(PutEvidence, evidence, q)
    {
      hide PutVarint, PutEvidence, EvidenceTyped;
      var _ :- Usize(|evidence|);
      ghost var mid := bytes;
      for i := 0 to |evidence|
        invariant forall q :: bytes + PutAll(PutEvidence, evidence[i..], q) == mid + PutAll(PutEvidence, evidence, q)
      {
        var _ :- WriteEvidence(evidence[i]);
        forall q ensures bytes + PutAll(PutEvidence, evidence[i + 1..], q) == mid + PutAll(PutEvidence, evidence, q) {
          AllStep(PutEvidence, evidence, i, q);
        }
      }
      r := Ok(());
    }

    /** The first half of a fact record. */
    method WriteFactHead(f: MemoryFact) returns (r: Result<()>)
      modifies this
      ensures FactTyped(f) ==> r.Ok?
      ensures r.Ok? ==> forall q :: bytes + q == old(bytes) + PutFactHead(f, q)
    {
      hide PutText, PutSigned, PutOptSigned, IsText, IsId, EvidenceTyped;
      var _ :- Str(f.id);
      var _ :- Str(f.source);
      var _ :- Str(f.relation);
      var _ :- Str(f.target);
      Signed(f.validFrom);
      OptionalSigned(f.validUntil);
      r := Ok(());
    }

    method WriteFact(f: MemoryFact) returns (r: Result<()>)
      modifies this
      ensures FactTyped(f) ==> r.Ok?
      ensures r.Ok? ==> forall q :: bytes + q == old(bytes) + PutFact(f, q)
    {
      hide PutText, PutSigned, PutOptSigned, PutVarint, PutList, PutOption, IsText, IsId, EvidenceTyped;
      var _ :- WriteFactHead(f);
      Signed(f.observedAt);
      Signed(f.recordedAt);
      var _ :- Str(f.agentId);
      var _ :- Str(f.sessionId);
      Varint(f.confidence);
      var _ :- WriteAllEvidence(f.evidence);
      var _ :- WriteSupersedes(f.supersedes);
      r := Ok(());
    }

    method WriteSupersedes(supersedes: Option<Id>) returns (r: Result<()>)
      modifies this
      ensures (supersedes.Some? ==> IdOk(supersedes.value)) ==> r.Ok?
      ensures r.Ok? ==> forall q :: bytes + q == old(bytes) + PutOptText(supersedes, q)
    {
      hide PutText, PutBool, IsId;
      Bool(supersedes.Some?);
      if supersedes.Some? {
        var _ :- Str(supersedes.value);
      }
      r := Ok(());
    }

    method WriteRevision(v: NodeRevision) returns (r: Result<()>)
      modifies this
      ensures RevisionTyped(v) ==> r.Ok?
      ensures r.Ok? ==> forall q :: bytes + q == old(bytes) + PutRevision(v, q)
    {
      hide PutNode, PutSigned, PutVarint, NodeTyped;
      var _ :- WriteNode(v.node);
      Signed(v.recordedAt);
      Varint(v.position);
      r := Ok(());
    }

    method WriteLater(later: seq<NodeRevision>) returns (r: Result<()>)
      modifies this
      ensures (forall i | 0 <= i < |later| :: RevisionTyped(later[i])) ==> r.Ok?
      ensures r.Ok? ==> forall q :: bytes + q == old(bytes) + PutAll(PutRevision, later, q)
    {
      hide PutRevision, RevisionTyped;
      for i := 0 to |later|
        invariant forall q :: bytes + PutAll(PutRevision, later[i..], q) == old(bytes) + PutAll(PutRevision, later, q)
      {
        var _ :- WriteRevision(later[i]);
        forall q ensures bytes + PutAll(PutRevision, later[i + 1..], q) == old(bytes) + PutAll(PutRevision, later, q) {
          AllStep(PutRevision, later, i, q);
        }
      }
      r := Ok(());
    }

    method WriteHistory(h: NodeHistory) returns (r: Result<()>)
      modifies this
      ensures HistoryTyped(h) ==> r.Ok?
      ensures r.Ok? ==> forall q :: bytes + q == old(bytes) + PutHistory(h, q)
    {
      hide PutVarint, PutRevision, PutHistory, RevisionTyped, PutAll;
      var _ :- Usize(|h.later| + 1);
      ghost var counted := bytes;
      var _ :- WriteRevision(h.first);
      ghost var started := bytes;
      var _ :- WriteLater(h.later);
      HistoryWritten(h, old(bytes), counted, started, bytes);
      r := Ok(());
    }

    // ---- Sections -------------------------------------------------------------------------

    method WriteVersion(stream: Id, version: u64) returns (r: Result<()>)
      modifies this
      ensures VersionTyped((stream, version)) ==> r.Ok?
      ensures r.Ok? ==> forall q :: bytes + q == old(bytes) + PutVersion((stream, version), q)
    {
      hide PutVarint, PutText, IsId;
      var _ :- Str(stream);
      Varint(version);
      r := Ok(());
    }

    method WriteVersions(versions: map<Id, u64>) returns (r: Result<()>)
      modifies this
      ensures |versions| < U64_LIMIT && (forall k | k in versions :: VersionTyped((k, versions[k]))) ==> r.Ok?
      ensures r.Ok? ==> forall q :: bytes + q == old(bytes) + PutMap(PutVersion, versions, q)
    {
      hide PutVarint, PutText, SortedKeys, IdOk, PutEntries, PutMap, Written;
      var _ :- Usize(|versions|);
      ghost var mid := bytes;
      var keys := SortKeys(versions.Keys);
      KeysInMap(versions);
      NothingWritten(PutVersion, keys, versions, mid);
      for i := 0 to |keys|
        invariant Written(PutVersion, keys, versions, i, mid, bytes)
      {
        ghost var was := bytes;
        var _ :- WriteVersion(keys[i], versions[keys[i]]);
        EntryWritten(PutVersion, keys, versions, i, mid, was, bytes);
      }
      MapWritten(PutVersion, versions, keys, old(bytes), mid, bytes);
      r := Ok(());
    }

    method WriteCursor(c: ReplayCursor) returns (r: Result<()>)
      modifies this
      ensures CursorTyped(c) ==> r.Ok?
      ensures r.Ok? ==> forall q :: bytes + q == old(bytes) + PutCursor(c, q)
    {
      hide PutMap, PutOptU64, VersionTyped;
      OptionalU64(c.globalPosition);
      var _ :- WriteVersions(c.streamVersions);
      r := Ok(());
    }

    method WriteNodes(nodes: seq<NodeHistory>) returns (r: Result<()>)
      modifies this
      ensures |nodes| < U64_LIMIT && (forall i | 0 <= i < |nodes| :: HistoryTyped(nodes[i])) ==> r.Ok?
      ensures r.Ok? ==> forall q :: bytes + q == old(bytes) + PutList(PutHistory, nodes, q)
    {
      hide PutVarint, PutHistory, HistoryTyped;
      var _ :- Usize(|nodes|);
      ghost var mid := bytes;
      for i := 0 to |nodes|
        invariant forall q :: bytes + PutAll(PutHistory, nodes[i..], q) == mid + PutAll(PutHistory, nodes, q)
      {
        var _ :- WriteHistory(nodes[i]);
        forall q ensures bytes + PutAll(PutHistory, nodes[i + 1..], q) == mid + PutAll(PutHistory, nodes, q) {
          AllStep(PutHistory, nodes, i, q);
        }
      }
      r := Ok(());
    }

    method WriteFacts(facts: seq<MemoryFact>) returns (r: Result<()>)
      modifies this
      ensures |facts| < U64_LIMIT && (forall i | 0 <= i < |facts| :: FactTyped(facts[i])) ==> r.Ok?
      ensures r.Ok? ==> forall q :: bytes + q == old(bytes) + PutList(PutFact, facts, q)
    {
      hide PutVarint, PutFact, FactTyped;
      var _ :- Usize(|facts|);
      ghost var mid := bytes;
      for i := 0 to |facts|
        invariant forall q :: bytes + PutAll(PutFact, facts[i..], q) == mid + PutAll(PutFact, facts, q)
      {
        var _ :- WriteFact(facts[i]);
        forall q ensures bytes + PutAll(PutFact, facts[i + 1..], q) == mid + PutAll(PutFact, facts, q) {
          AllStep(PutFact, facts, i, q);
        }
      }
      r := Ok(());
    }

    method WriteSupersessions(changes: map<Id, Supersession>) returns (r: Result<()>)
      modifies this
      ensures |changes| < U64_LIMIT && (forall k | k in changes :: SupersessionTyped((k, changes[k]))) ==> r.Ok?
      ensures r.Ok? ==> forall q :: bytes + q == old(bytes) + PutMap(PutSupersession, changes, q)
    {
      hide PutVarint, PutText, PutSigned, SortedKeys, IsId, PutEntries, PutMap, Written;
      var _ :- Usize(|changes|);
      ghost var mid := bytes;
      var keys := SortKeys(changes.Keys);
      KeysInMap(changes);
      NothingWritten(PutSupersession, keys, changes, mid);
      for i := 0 to |keys|
        invariant Written(PutSupersession, keys, changes, i, mid, bytes)
      {
        ghost var was := bytes;
        var change := changes[keys[i]];
        assert SupersessionTyped((keys[i], change)) ==> IdOk(keys[i]) && IdOk(change.replacement);
        var _ :- Str(keys[i]);
        var _ :- Str(change.replacement);
        Signed(change.validFrom);
        Signed(change.recordedAt);
        EntryWritten(PutSupersession, keys, changes, i, mid, was, bytes);
      }
      MapWritten(PutSupersession, changes, keys, old(bytes), mid, bytes);
      r := Ok(());
    }

    method WriteRetractions(changes: map<Id, Retraction>) returns (r: Result<()>)
      modifies this
      ensures |changes| < U64_LIMIT && (forall k | k in changes :: RetractionTyped((k, changes[k]))) ==> r.Ok?
      ensures r.Ok? ==> forall q :: bytes + q == old(bytes) + PutMap(PutRetraction, changes, q)
    {
      hide PutVarint, PutText, PutSigned, SortedKeys, IsId, PutEntries, PutMap, Written;
      var _ :- Usize(|changes|);
      ghost var mid := bytes;
      var keys := SortKeys(changes.Keys);
      KeysInMap(changes);
      NothingWritten(PutRetraction, keys, changes, mid);
      for i := 0 to |keys|
        invariant Written(PutRetraction, keys, changes, i, mid, bytes)
      {
        ghost var was := bytes;
        var change := changes[keys[i]];
        assert RetractionTyped((keys[i], change)) ==> IdOk(keys[i]);
        var _ :- Str(keys[i]);
        Signed(change.validUntil);
        Signed(change.recordedAt);
        EntryWritten(PutRetraction, keys, changes, i, mid, was, bytes);
      }
      MapWritten(PutRetraction, changes, keys, old(bytes), mid, bytes);
      r := Ok(());
    }

    method WriteProjection(p: Projection) returns (r: Result<()>)
      modifies this
      ensures DataTyped(p) ==> r.Ok?
      ensures r.Ok? ==> forall q :: bytes + q == old(bytes) + PutData(p, q)
    {
      hide PutList, PutMap, PutOptU64, HistoryTyped, FactTyped, SupersessionTyped, RetractionTyped;
      var _ :- WriteNodes(p.nodes);
      var _ :- WriteFacts(p.facts);
      var _ :- WriteSupersessions(p.supersessions);
      var _ :- WriteRetractions(p.retractions);
      OptionalU64(p.lastPosition);
      r := Ok(());
    }
  }

  lemma HistoryWritten(h: NodeHistory, b0: Bytes, b1: Bytes, b2: Bytes, b3: Bytes)
    requires forall q :: b1 + q == b0 + PutVarint(|h.later| + 1, q)
    requires forall q :: b2 + q == b1 + PutRevision(h.first, q)
    requires forall q :: b3 + q == b2 + PutAll(PutRevision, h.later, q)
    ensures forall q :: b3 + q == b0 + PutHistory(h, q)
  {
    hide PutVarint, PutNode, PutAll;
    forall q ensures b3 + q == b0 + PutHistory(h, q) {
      assert PutHistory(h, q) == PutVarint(|h.later| + 1, PutRevision(h.first, PutAll(PutRevision, h.later, q)));
    }
  }

  lemma AllStep<T>(put: (T, Bytes) -> Bytes, xs: seq<T>, i: nat, q: Bytes)
    requires i < |xs|
    ensures PutAll(put, xs[i..], q) == put(xs[i], PutAll(put, xs[i + 1..], q))
  {
    assert xs[i..][1..] == xs[i + 1..];
  }

  lemma EntriesStep<V>(put: (Entry<V>, Bytes) -> Bytes, keys: seq<Bytes>, m: map<Bytes, V>, i: nat, q: Bytes)
    requires i < |keys| && forall j | 0 <= j < |keys| :: keys[j] in m
    ensures PutEntries(put, keys[i..], m, q) == put((keys[i], m[keys[i]]), PutEntries(put, keys[i + 1..], m, q))
  {
    assert keys[i..][1..] == keys[i + 1..];
  }

  /** Of the entries under `keys`, the first `i` are written behind `start`. */
  ghost predicate Written<V>(put: (Entry<V>, Bytes) -> Bytes, keys: seq<Bytes>, m: map<Bytes, V>, i: nat, start: Bytes, now: Bytes)
    requires i <= |keys| && forall j | 0 <= j < |keys| :: keys[j] in m
  {
    forall q :: now + PutEntries(put, keys[i..], m, q) == start + PutEntries(put, keys, m, q)
  }

  lemma NothingWritten<V>(put: (Entry<V>, Bytes) -> Bytes, keys: seq<Bytes>, m: map<Bytes, V>, start: Bytes)
    requires forall j | 0 <= j < |keys| :: keys[j] in m
    ensures Written(put, keys, m, 0, start, start)
  {
    hide PutEntries;
    assert keys[0..] == keys;
  }

  lemma EntryWritten<V>(put: (Entry<V>, Bytes) -> Bytes, keys: seq<Bytes>, m: map<Bytes, V>, i: nat, start: Bytes, was: Bytes, now: Bytes)
    requires i < |keys| && forall j | 0 <= j < |keys| :: keys[j] in m
    requires Written(put, keys, m, i, start, was)
    requires forall q :: now + q == was + put((keys[i], m[keys[i]]), q)
    ensures Written(put, keys, m, i + 1, start, now)
  {
    hide PutEntries;
    forall q ensures now + PutEntries(put, keys[i + 1..], m, q) == start + PutEntries(put, keys, m, q) {
      EntriesStep(put, keys, m, i, q);
    }
  }

  /** All entries behind their number. */
  lemma MapWritten<V>(put: (Entry<V>, Bytes) -> Bytes, m: map<Bytes, V>, keys: seq<Bytes>, start: Bytes, mid: Bytes, now: Bytes)
    requires keys == SortedKeys(m.Keys) && forall j | 0 <= j < |keys| :: keys[j] in m
    requires forall q :: mid + q == start + PutVarint(|m|, q)
    requires Written(put, keys, m, |keys|, mid, now)
    ensures forall q :: now + q == start + PutMap(put, m, q)
  {
    hide PutVarint, SortedKeys, PutEntries, PutMap;
    forall q ensures now + q == start + PutMap(put, m, q) {
      MapPrint(put, m, keys, q);
    }
  }

  lemma MapPrint<V>(put: (Entry<V>, Bytes) -> Bytes, m: map<Bytes, V>, keys: seq<Bytes>, q: Bytes)
    requires keys == SortedKeys(m.Keys) && forall j | 0 <= j < |keys| :: keys[j] in m
    ensures PutMap(put, m, q) == PutVarint(|m|, PutEntries(put, keys, m, q))
    ensures PutEntries(put, keys[|keys|..], m, q) == q
  {
    hide PutVarint, SortedKeys;
    assert keys[|keys|..] == [];
  }

  /** Encoding a snapshot: every value the source's types admit is written, byte for byte as specified. */
  method EncodeSnapshot(s: Snapshot) returns (r: Result<Bytes>)
    ensures SnapshotTyped(s) ==> r.Ok?
    ensures r.Ok? ==> r.value == Encode(s)
  {
    hide PutCursor, PutData, CursorTyped, DataTyped;
    var writer := new Writer(HEADER);
    var _ :- writer.WriteCursor(s.cursor);
    var _ :- writer.WriteProjection(s.projection);
    assert writer.bytes + [] == writer.bytes;
    assert writer.bytes + [] == HEADER + PutCursor(s.cursor, PutData(s.projection, []));
    r := Ok(writer.bytes);
  }
}
