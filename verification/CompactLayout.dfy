/** The compact format byte for byte: what one record of each kind looks like, every field different. */
module CompactLayout {
  import opened Common
  import opened Domain
  import opened Projections
  import opened Replay
  import opened CompactIo
  import opened CompactCodec
  import CompactCanon

  lemma Small(b: byte, q: Bytes)
    requires FromByte(b) < 128
    ensures PutVarint(FromByte(b), q) == [b] + q
  {
    hide FromByte, ToByte;
    CompactCanon.ByteOfNumber(b);
  }

  lemma Numbers()
    ensures FromByte(0) == 0 && FromByte(1) == 1 && FromByte(2) == 2 && FromByte(3) == 3 && FromByte(4) == 4 && FromByte(5) == 5
    ensures FromByte(6) == 6 && FromByte(7) == 7 && FromByte(8) == 8 && FromByte(9) == 9 && FromByte(10) == 10
  {}

  /** A letter as text: its length and itself. */
  lemma Letter(c: byte, q: Bytes)
    ensures PutText([c], q) == [1, c] + q
  {
    Numbers();
    Small(1, [c] + q);
    assert [1 as byte] + ([c] + q) == [1, c] + q;
  }

  lemma Letters()
    ensures forall c: byte, q: Bytes :: PutText([c], q) == [1, c] + q
  {
    forall c: byte, q: Bytes ensures PutText([c], q) == [1, c] + q {
      Letter(c, q);
    }
  }

  lemma Digits()
    ensures forall q :: PutVarint(0, q) == [0] + q && PutVarint(1, q) == [1] + q && PutVarint(2, q) == [2] + q
    ensures forall q :: PutVarint(3, q) == [3] + q && PutVarint(4, q) == [4] + q && PutVarint(5, q) == [5] + q
    ensures forall q :: PutVarint(6, q) == [6] + q && PutVarint(7, q) == [7] + q && PutVarint(8, q) == [8] + q
    ensures forall q :: PutVarint(9, q) == [9] + q && PutVarint(10, q) == [10] + q
  {
    hide PutVarint, FromByte;
    forall q ensures PutVarint(0, q) == [0] + q && PutVarint(1, q) == [1] + q && PutVarint(2, q) == [2] + q
             ensures PutVarint(3, q) == [3] + q && PutVarint(4, q) == [4] + q && PutVarint(5, q) == [5] + q
             ensures PutVarint(6, q) == [6] + q && PutVarint(7, q) == [7] + q && PutVarint(8, q) == [8] + q
             ensures PutVarint(9, q) == [9] + q && PutVarint(10, q) == [10] + q
    {
      Numbers();
      Small(0, q);
      Small(1, q);
      Small(2, q);
      Small(3, q);
      Small(4, q);
      Small(5, q);
      Small(6, q);
      Small(7, q);
      Small(8, q);
      Small(9, q);
      Small(10, q);
    }
  }

  /** Kind, source, locator, digest; an absent option is 0, a present one 1 and its value. */
  lemma EvidenceLayout(q: Bytes)
    ensures PutEvidence(Evidence([0x61], [0x62], Some([0x63]), None), q)
         == [1, 0x61] + ([1, 0x62] + ([1] + ([1, 0x63] + ([0] + q))))
  {
    Letters();
    hide PutText;
  }

  /** Id, kind, label, repository, branch, then the number of attributes, each as key and value. */
  lemma NodeLayout(q: Bytes)
    ensures PutNode(MemoryNode([0x61], [0x62], [0x63], None, Some([0x64]), map[[0x65] := [0x66]]), q)
         == [1, 0x61] + ([1, 0x62] + ([1, 0x63] + ([0] + ([1] + ([1, 0x64] + ([1] + ([1, 0x65] + ([1, 0x66] + q))))))))
  {
    Letters();
    Digits();
    OneEntry(PutAttribute, [0x65], [0x66], q);
    hide PutText, PutMap, PutVarint;
  }

  lemma OneEntry<V>(put: (Entry<V>, Bytes) -> Bytes, key: Bytes, value: V, q: Bytes)
    ensures PutMap(put, map[key := value], q) == PutVarint(1, put((key, value), q))
  {
    hide PutVarint;
    var m := map[key := value];
    assert m.Keys == {key};
    assert IsLeast(key, m.Keys) by { LexTotal(key, key); }
    SortedKeysFirst(m.Keys, key);
    assert m.Keys - {key} == {};
    NoKeys();
    assert SortedKeys(m.Keys) == [key];
    assert [key][1..] == [];
    assert PutEntries(put, [key][1..], m, q) == q;
    assert PutEntries(put, [key], m, q) == put((key, value), q);
  }

  lemma OneItem<T>(put: (T, Bytes) -> Bytes, x: T, q: Bytes)
    ensures PutAll(put, [x], q) == put(x, q)
  {
    assert [x][1..] == [];
    assert PutAll(put, [x][1..], q) == q;
  }

  /** The number of revisions, and each as its node, its recording time and its position. */
  lemma HistoryLayout(n: MemoryNode, q: Bytes)
    ensures PutHistory(NodeHistory(NodeRevision(n, 1, 3), [NodeRevision(n, -3, 4)]), q)
         == [2] + PutNode(n, [2] + ([3] + PutNode(n, [5] + ([4] + q))))
  {
    Digits();
    hide PutNode, PutVarint;
    OneItem(PutRevision, NodeRevision(n, -3, 4), q);
    assert Zigzag(1) == 2 && Zigzag(-3) == 5;
  }

  /** Id, source, relation, target, valid from, valid until, observed, recorded, agent, session, confidence,
      the number of pieces of evidence and each of them, and what it supersedes. */
  lemma FactLayout(e: Evidence, q: Bytes)
    ensures PutFact(MemoryFact([0x61], [0x62], [0x63], [0x64], 1, Some(2), 3, -5, [0x65], [0x66], 7, [e], Some([0x67])), q)
         == [1, 0x61] + ([1, 0x62] + ([1, 0x63] + ([1, 0x64]
            + ([2] + ([1] + ([4] + ([6] + ([9]
            + ([1, 0x65] + ([1, 0x66] + ([7] + ([1] + PutEvidence(e, [1] + ([1, 0x67] + q))))))))))))))
  {
    Letters();
    Digits();
    hide PutText, PutEvidence, PutVarint;
    OneItem(PutEvidence, e, [1] + ([1, 0x67] + q));
    assert Zigzag(1) == 2 && Zigzag(2) == 4 && Zigzag(3) == 6 && Zigzag(-5) == 9;
  }

  /** Prior, replacement, valid from, recorded. */
  lemma SupersessionLayout(q: Bytes)
    ensures PutSupersession(([0x61], Supersession([0x62], 1, -2)), q) == [1, 0x61] + ([1, 0x62] + ([2] + ([3] + q)))
  {
    Letters();
    Digits();
    hide PutText, PutVarint;
  }

  /** Fact, valid until, recorded. */
  lemma RetractionLayout(q: Bytes)
    ensures PutRetraction(([0x61], Retraction(1, -2)), q) == [1, 0x61] + ([2] + ([3] + q))
  {
    Letters();
    Digits();
    hide PutText, PutVarint;
  }

  /** The last position, then the number of streams, each as its id and version. */
  lemma CursorLayout(q: Bytes)
    ensures PutCursor(ReplayCursor(Some(5), map[[0x61] := 3]), q) == [1] + ([5] + ([1] + ([1, 0x61] + ([3] + q))))
  {
    Letters();
    Digits();
    OneEntry(PutVersion, [0x61], 3, q);
    hide PutText, PutMap, PutVarint;
  }

  /** Header, cursor, nodes, facts, supersessions, retractions, last position; each list behind its length. */
  lemma SnapshotLayout(c: ReplayCursor, h: NodeHistory, f: MemoryFact, a: Id, s: Supersession, b: Id, r: Retraction)
    ensures HEADER == [0x57, 0x4d, 0x45, 0x4d, 0x43, 0x42, 0x30, 0x31]
    ensures Encode(Snapshot(c, Projection([h], [f], map[a := s], map[b := r], Some(6))))
         == HEADER + PutCursor(c, [1] + PutHistory(h, [1] + PutFact(f,
              [1] + PutSupersession((a, s), [1] + PutRetraction((b, r), [1] + ([6] + []))))))
  {
    Digits();
    OneEntry(PutRetraction, b, r, [1] + ([6] + []));
    OneEntry(PutSupersession, a, s, [1] + PutRetraction((b, r), [1] + ([6] + [])));
    hide PutCursor, PutHistory, PutFact, PutSupersession, PutRetraction, PutMap, PutVarint;
    var changes := [1] + PutSupersession((a, s), [1] + PutRetraction((b, r), [1] + ([6] + [])));
    OneItem(PutFact, f, changes);
    OneItem(PutHistory, h, [1] + PutFact(f, changes));
  }
}
