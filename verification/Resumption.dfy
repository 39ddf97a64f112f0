/** End to end: replay a prefix, store it as a compact snapshot, load it, and resume. */
module Resumption {
  import opened Common
  import opened Projections
  import opened Replay
  import opened CompactIo
  import opened CompactCodec
  import opened CompactLaws
  import opened TypedReplay

  /** A replayed snapshot survives the compact codec exactly when no recorded fact claims more than full
      confidence, a bound that validation leaves unchecked and decoding enforces; otherwise it does not
      decode at all. */
  lemma ReplayedRoundTrip(events: Events)
    requires EventsTyped(events) && ReplayAll(events).Ok?
    ensures var s := ReplayAll(events).value;
            Decode(Encode(s)) == if AllConfident(events) then Some(s) else None
  {
    hide Consistent, SupersessionsComplete, SnapshotTyped, EventsTyped, AllConfident, ConfidencesOk, Encode, Decode, ReplayAll;
    ReplayOk(events);
    ReplayedIsTyped(events);
    ReplayedConfidence(events);
    RoundTrip(ReplayAll(events).value);
  }

  /** Snapshotting after `a` and resuming with `b` gives a result exactly when the straight replay of
      `a + b` gives that same result, `b` repeats no event id of `a`, and no fact of `a` is overconfident.
      Equal snapshots have equal projections and cursors, hence equal views and incident lists. */
  lemma EndToEndResume(a: Events, b: Events, s: Snapshot)
    requires EventsTyped(a) && ReplayAll(a).Ok?
    ensures var loaded := Decode(Encode(ReplayAll(a).value));
            && (loaded.Some? <==> AllConfident(a))
            && (loaded.Some? && Resume(loaded.value, b) == Ok(s) && EventIds(a) !! EventIds(b)
                <==> ReplayAll(a + b) == Ok(s) && AllConfident(a))
  {
    hide EventsTyped, AllConfident, Encode, Decode, ReplayAll, Resume;
    ReplayedRoundTrip(a);
    ResumeMeetsReplay(a, b, s);
  }

  // ---- Longer encodings of the same snapshot ------------------------------------------------

  /** An empty snapshot whose stream count is written with a redundant second byte. */
  const OVERLONG: Bytes := HEADER + [0, 0x80, 0, 0, 0, 0, 0, 0]

  lemma ReadsZero(q: Bytes)
    ensures ReadCount([0] + q) == Done(0, q)
    ensures ReadCount([0x80, 0] + q) == Done(0, q)
  {
    var r := [0x80, 0] + q;
    assert ([0 as byte] + q)[1..] == q;
    assert r[1..] == [0] + q && r[1..][1..] == q;
    assert FromByte(0x80) == 128 && FromByte(0) == 0;
    assert ReadGroups(r[1..], 1) == Done(0, q);
  }

  lemma ReadsNone(q: Bytes)
    ensures ReadOptU64([0] + q) == Done(None, q)
  {
    assert ([0 as byte] + q)[1..] == q;
  }

  /** Accepted bytes need not be what the encoder writes: decoding tolerates padded integers. */
  lemma OverlongAccepted()
    ensures Decode(OVERLONG) == Some(Snapshot(START, EMPTY))
    ensures Encode(Snapshot(START, EMPTY)) != OVERLONG
  {
    hide ReadCount, ReadOptU64, ReadHistory, ReadFact, ReadSupersession, ReadRetraction, ReadVersion;
    var t: Bytes := [0, 0, 0, 0, 0];
    assert OVERLONG[|HEADER|..] == [0] + ([0x80, 0] + t);
    ReadsNone([0x80, 0] + t);
    ReadsZero(t);
    assert ReadCursor([0] + ([0x80, 0] + t)) == Done(START, t);
    assert t == [0] + [0, 0, 0, 0] && [0 as byte, 0, 0, 0] == [0] + [0, 0, 0];
    assert [0 as byte, 0, 0] == [0] + [0, 0] && [0 as byte, 0] == [0] + [0] && [0 as byte] == [0] + [];
    ReadsZero([0, 0, 0, 0]);
    ReadsZero([0, 0, 0]);
    ReadsZero([0, 0]);
    ReadsZero([0]);
    ReadsNone([]);
    assert ReadData(t) == Done(EMPTY, []);
    EmptyInv();
    EmptyEncoding();
  }

  lemma EmptyEncoding()
    ensures |Encode(Snapshot(START, EMPTY))| == |HEADER| + 7
  {
    EmptyMap<u64>(PutVersion, PutData(EMPTY, []));
    EmptyMap<Supersession>(PutSupersession, PutMap(PutRetraction, map[], PutOptU64(None, [])));
    EmptyMap<Retraction>(PutRetraction, PutOptU64(None, []));
  }

  lemma EmptyMap<V>(put: (Entry<V>, Bytes) -> Bytes, q: Bytes)
    ensures |PutMap(put, map[], q)| == |q| + 1
  {
    var m: map<Bytes, V> := map[];
    assert m.Keys == {};
  }
}
