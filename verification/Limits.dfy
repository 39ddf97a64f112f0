/** Small concrete runs that show where a promise ends: each is the failing side of an exact condition
    proved elsewhere. */
module Limits {
  import opened Common
  import opened Domain
  import opened Projections
  import opened Views
  import opened Replay
  import opened Parts
  import EventLogs
  import MemoryProjections
  import opened CompactIo
  import opened CompactCodec
  import opened CompactLaws
  import opened CompactCanon
  import opened TypedReplay
  import opened Resumption

  const A: Text := [0x61]
  const B: Text := [0x62]

  const NODE := MemoryNode(A, A, A, None, None, map[])
  const NOTE := Evidence(A, A, None, None)

  function FactOn(id: Id, confidence: u16, supersedes: Option<Id>): MemoryFact {
    MemoryFact(id, A, A, A, 0, None, 0, 0, A, A, confidence, [NOTE], supersedes)
  }

  function EventAt(id: Id, position: u64, recordedAt: Timestamp, payload: MemoryEvent): StoredEvent<MemoryEvent> {
    StoredEvent(EventMetadata(id, A, position, position, TypeOf(payload), recordedAt, recordedAt, A, A, None, None), payload)
  }

  lemma LettersAreProper()
    ensures IsProperText(A) && IsProperText(B) && IsId(A) && IsId(B)
  {
    assert forall n | 1 <= n <= 3 && n <= |A| :: A[..n] == A && B[..n] == B;
    assert forall k | 0 <= k < 1 :: A[k..] == A && B[k..] == B;
    assert A[1..] == [] && B[1..] == [];
  }

  lemma PartsAreValid(id: Id, confidence: u16, supersedes: Option<Id>)
    ensures NodeValid(NODE) && FactValid(FactOn(id, confidence, supersedes)) && EvidenceValid(NOTE) && AllEvidenceValid([NOTE])
  {
    LettersAreProper();
    hide IsProperText;
  }

  const HISTORY := NodeHistory(NodeRevision(NODE, 0, 0), [])

  function Upsert(id: Id): StoredEvent<MemoryEvent> {
    EventAt(id, 0, 0, NodeUpserted(NODE))
  }

  function Record(confidence: u16): StoredEvent<MemoryEvent> {
    EventAt(B, 1, 0, FactRecorded(FactOn(A, confidence, None)))
  }

  /** One node and one fact on it. */
  function Two(confidence: u16): Projection {
    Projection([HISTORY], [FactOn(A, confidence, None)], map[], map[], Some(1))
  }

  lemma FirstApplies()
    ensures Apply(EMPTY, Upsert(A)) == Ok(Projection([HISTORY], [], map[], map[], Some(0)))
  {
    hide NodeValid;
    PartsAreValid(A, 0, None);
    assert EMPTY.nodes + [HISTORY] == [HISTORY];
  }

  lemma HistoryFound()
    ensures NodeIndex([HISTORY], A) == Some(0)
  {}

  lemma FactFound(confidence: u16)
    ensures FactIndex([FactOn(A, confidence, None)], A) == Some(0)
  {}

  lemma SecondApplies(confidence: u16)
    ensures Apply(Projection([HISTORY], [], map[], map[], Some(0)), Record(confidence)) == Ok(Two(confidence))
  {
    hide FactValid, NodeIndex;
    PartsAreValid(A, confidence, None);
    HistoryFound();
    var none: seq<MemoryFact> := [];
    assert none + [FactOn(A, confidence, None)] == [FactOn(A, confidence, None)];
  }

  // ---- A second retraction ------------------------------------------------------------------

  function Retract(id: Id, position: u64, recordedAt: Timestamp, until: Timestamp): StoredEvent<MemoryEvent> {
    EventAt(id, position, recordedAt, FactRetracted(A, until, [NOTE]))
  }

  lemma RetractApplies(p: Projection, confidence: u16, id: Id, position: u64, recordedAt: Timestamp, until: Timestamp)
    requires p.facts == [FactOn(A, confidence, None)] && until > 0
    ensures Apply(p, Retract(id, position, recordedAt, until))
         == Ok(p.(retractions := p.retractions[A := Retraction(until, recordedAt)], lastPosition := Some(position)))
  {
    hide FactIndex, AllEvidenceValid;
    PartsAreValid(A, confidence, None);
    FactFound(confidence);
  }

  /** The known past can be rewritten: the fact is retracted from time 5 on, recorded at 1; a second
      retraction recorded at 3 changes what was known at 2. */
  lemma SecondRetractionRewrites()
    ensures var p := ApplyAll(EMPTY, [Upsert(A), Record(0), Retract([0x63], 2, 1, 5)]);
            && p.Ok? && Apply(p.value, Retract([0x64], 3, 3, 9)).Ok?
            && !SamePast(p.value, Apply(p.value, Retract([0x64], 3, 3, 9)).value, 2)
  {
    hide Apply, FactIndex, NodeIndex, SamePast;
    var events := [Upsert(A), Record(0), Retract([0x63], 2, 1, 5)];
    FirstApplies();
    SecondApplies(0);
    RetractApplies(Two(0), 0, [0x63], 2, 1, 5);
    assert events[1..] == [Record(0), Retract([0x63], 2, 1, 5)] && events[1..][1..] == [Retract([0x63], 2, 1, 5)];
    assert events[1..][1..][1..] == [];
    var p := Two(0).(retractions := map[A := Retraction(5, 1)], lastPosition := Some(2));
    assert ApplyAll(Two(0), [Retract([0x63], 2, 1, 5)]) == Ok(p);
    assert ApplyAll(Projection([HISTORY], [], map[], map[], Some(0)), events[1..]) == Ok(p);
    assert ApplyAll(EMPTY, events) == Ok(p);
    RetractApplies(p, 0, [0x64], 3, 3, 9);
    RetractedIsConsistent(p, events);
    LiftsHere(p);
    KnownPastKept(p, Retract([0x64], 3, 3, 9), 2);
  }

  lemma RetractedIsConsistent(p: Projection, events: seq<StoredEvent<MemoryEvent>>)
    requires ApplyAll(EMPTY, events) == Ok(p)
    ensures Consistent(p)
  {
    EmptyInv();
    EventLogs.RunKeepsInv(EMPTY, events);
  }

  lemma LiftsHere(p: Projection)
    requires p == Two(0).(retractions := map[A := Retraction(5, 1)], lastPosition := Some(2))
    ensures LiftsRetraction(p, A, 2)
  {
    HistoryFound();
    FactFound(0);
    assert HISTORY.Revisions() == [HISTORY.first];
    assert HISTORY.Revisions()[..0] == [];
  }

  // ---- Confidence above the bound ---------------------------------------------------------------

  const CURSOR := ReplayCursor(Some(1), map[A := 1])

  lemma TwoReplays(confidence: u16)
    ensures ReplayAll([Upsert(A), Record(confidence)]) == Ok(Snapshot(CURSOR, Two(confidence)))
  {
    hide Apply;
    FirstApplies();
    SecondApplies(confidence);
    var events := [Upsert(A), Record(confidence)];
    var one := Projection([HISTORY], [], map[], map[], Some(0));
    assert events[1..] == [Record(confidence)] && events[1..][1..] == [];
    var middle := Advance(START, Upsert(A));
    assert middle == ReplayCursor(Some(0), map[A := 0]);
    assert Advance(middle, Record(confidence)) == CURSOR;
    assert ReplayFrom(one, middle, {} + {A}, events[1..], true) == Ok(Snapshot(CURSOR, Two(confidence)));
  }

  lemma TwoAreTyped(confidence: u16)
    ensures EventsTyped([Upsert(A), Record(confidence)])
  {
    LettersAreProper();
    hide IsUtf8, IsProperText;
    assert TextOk(A) && IdOk(A);
    assert NodeTyped(NODE) && EvidenceTyped(NOTE);
    assert FactTyped(FactOn(A, confidence, None));
  }

  /** A fact that claims more than full confidence replays, but its snapshot cannot be loaded again. */
  lemma OverconfidenceIsLost()
    ensures var s := ReplayAll([Upsert(A), Record(10_001)]);
            s.Ok? && Decode(Encode(s.value)) == None
  {
    hide Decode, Encode, EventsTyped, ReplayAll;
    TwoReplays(10_001);
    TwoAreTyped(10_001);
    ReplayedRoundTrip([Upsert(A), Record(10_001)]);
    assert !Confident([Upsert(A), Record(10_001)][1]);
  }

  // ---- An identifier repeated after a snapshot --------------------------------------------------------

  lemma OneReplays()
    ensures ReplayAll([Upsert(A)]) == Ok(Snapshot(ReplayCursor(Some(0), map[A := 0]), Projection([HISTORY], [], map[], map[], Some(0))))
  {
    hide Apply;
    FirstApplies();
    var events := [Upsert(A)];
    assert events[1..] == [];
    var middle := Advance(START, Upsert(A));
    assert middle == ReplayCursor(Some(0), map[A := 0]);
    var one := Projection([HISTORY], [], map[], map[], Some(0));
    assert ReplayFrom(one, middle, {} + {A}, events[1..], true) == Ok(Snapshot(middle, one));
  }

  /** Resuming accepts an event whose identifier the snapshot's prefix already used; replay refuses it. */
  lemma RepeatedIdResumes()
    ensures var again := Record(0).(metadata := Record(0).metadata.(id := A));
            && ReplayAll([Upsert(A)]).Ok?
            && Resume(ReplayAll([Upsert(A)]).value, [again]).Ok?
            && ReplayAll([Upsert(A), again]).Err?
  {
    hide Apply;
    var again := Record(0).(metadata := Record(0).metadata.(id := A));
    var one := Projection([HISTORY], [], map[], map[], Some(0));
    FirstApplies();
    OneReplays();
    SecondApplies(0);
    SameApplication(one, Record(0), A);
    var tail, events := [again], [Upsert(A), again];
    assert tail[1..] == [] && events[1..] == tail;
    var middle := ReplayCursor(Some(0), map[A := 0]);
    assert Advance(START, Upsert(A)) == middle;
    assert ReplayFrom(Two(0), Advance(middle, again), {} + {A}, tail[1..], false).Ok?;
    assert ReplayFrom(one, middle, {}, tail, false).Ok?;
    assert ReplayFrom(one, middle, {} + {A}, events[1..], true).Err?;
  }

  lemma SameApplication(p: Projection, e: StoredEvent<MemoryEvent>, id: Id)
    ensures Apply(p, e.(metadata := e.metadata.(id := id))) == Apply(p, e)
  {
    hide InsertNode, InsertFact, RetractFact;
  }

  // ---- Bulk construction and the order of replacements -------------------------------------------------

  /** Bulk construction registers all facts first, so a replacement may precede what it replaces; no
      replay reaches such a state. */
  lemma BulkAllowsForwardReplacement()
    ensures var facts := [FactOn(A, 0, Some(B)), FactOn(B, 0, None)];
            var p := FromParts([NODE], facts, 0, None);
            && p.Ok? && Consistent(p.value) && !SupersessionsComplete(p.value)
  {
    hide Consistent;
    var f, g := FactOn(A, 0, Some(B)), FactOn(B, 0, None);
    var facts := [f, g];
    assert A != B by { assert A[0] != B[0]; }
    ForwardParts(facts, f, g);
    FromPartsConsistent([NODE], facts, 0, None);
    var p := FromParts([NODE], facts, 0, None).value;
    assert FactIndex(p.facts, B) == Some(1);
    assert !ReplacementRegistered(p, 0);
  }

  lemma ForwardParts(facts: seq<MemoryFact>, f: MemoryFact, g: MemoryFact)
    requires facts == [f, g] && f == FactOn(A, 0, Some(B)) && g == FactOn(B, 0, None) && A != B
    ensures FromParts([NODE], facts, 0, None).Ok? && FromParts([NODE], facts, 0, None).value.facts == facts
  {
    hide NodeValid, FactValid;
    PartsAreValid(A, 0, Some(B));
    PartsAreValid(B, 0, None);
    assert [NODE][1..] == [] && facts[1..] == [g] && facts[1..][1..] == [];
    var none: seq<NodeHistory> := [];
    assert none + [HISTORY] == [HISTORY];
    assert AddNodes([], [NODE], 0) == Ok([HISTORY]);
    HistoryFound();
    var e := MemoryProjections.EndpointOf([HISTORY], f);
    assert PrepareFacts([HISTORY], facts[1..], 0, [] + [e]).Ok?;
    assert PrepareFacts([HISTORY], facts, 0, []).Ok?;
    assert RegisterIds({} + {A}, facts[1..]) == Ok({} + {A} + {B});
    assert RegisterIds({}, facts) == Ok({} + {A} + {B});
    var s := map[][B := SupersessionBy(f)];
    assert SupersedeAll({} + {A} + {B}, s, facts[1..]) == Ok(s);
    assert SupersedeAll({} + {A} + {B}, map[], facts).Ok?;
  }

  // ---- Bytes the encoder never writes --------------------------------------------------------------------

  /** A snapshot of two streams whose entries stand in the order B, A; every integer is minimal. */
  ghost function SwappedEntries(): Bytes {
    PutVarint(2, PutVersion((B, 0), PutVersion((A, 0), PutData(EMPTY, []))))
  }

  ghost function Swapped(): Bytes {
    HEADER + PutOptU64(None, SwappedEntries())
  }

  const STREAMS := ReplayCursor(None, map[B := 0, A := 0])

  lemma ReadsSwapped()
    ensures ReadCount(SwappedEntries()) == Done(2, PutVersion((B, 0), PutVersion((A, 0), PutData(EMPTY, []))))
    ensures ReadVersion(PutVersion((B, 0), PutVersion((A, 0), PutData(EMPTY, [])))) == Done((B, 0), PutVersion((A, 0), PutData(EMPTY, [])))
    ensures ReadVersion(PutVersion((A, 0), PutData(EMPTY, []))) == Done((A, 0), PutData(EMPTY, []))
  {
    hide PutVersion, PutData, ReadVersion, IdOk;
    LettersAreOk();
    VersionInverts((A, 0));
    VersionInverts((B, 0));
    var last := PutVersion((A, 0), PutData(EMPTY, []));
    VersionGrows((A, 0), PutData(EMPTY, []));
    VersionGrows((B, 0), last);
    CountRoundTrip(2, PutVersion((B, 0), last));
  }

  lemma VersionGrows(e: Entry<u64>, q: Bytes)
    ensures |PutVersion(e, q)| > |q|
  {
    PrintersGrow();
  }

  lemma LettersAreOk()
    ensures IdOk(A) && IdOk(B) && VersionTyped((A, 0)) && VersionTyped((B, 0)) && A != B && !LexLe(B, A)
  {
    LettersAreProper();
    assert A[0] != B[0];
  }

  lemma SwappedCursor()
    ensures ReadCursor(PutOptU64(None, SwappedEntries())) == Done(STREAMS, PutData(EMPTY, []))
    ensures KeysRead(ReadVersion, ReadCount(SwappedEntries()).rest, 2) == [B, A]
    ensures ReadOptU64(PutOptU64(None, SwappedEntries())) == Done(None, SwappedEntries())
  {
    hide PutVersion, PutData, ReadVersion, ReadCount, SwappedEntries, ReadOptU64, PutOptU64;
    ReadsSwapped();
    LettersAreOk();
    OptU64Inverts(None, SwappedEntries());
    var second := PutVersion((A, 0), PutData(EMPTY, []));
    var one := map[B := 0];
    assert ReadEntries(ReadVersion, PutData(EMPTY, []), 0, one[A := 0]) == Done(STREAMS.streamVersions, PutData(EMPTY, []));
    assert ReadEntries(ReadVersion, second, 1, one) == Done(STREAMS.streamVersions, PutData(EMPTY, []));
    assert map[][B := 0] == one;
    assert KeysRead(ReadVersion, PutData(EMPTY, []), 0) == [];
    assert KeysRead(ReadVersion, second, 1) == [A];
  }

  /** Entries out of order are accepted, so accepted bytes need not be what the encoder writes even when
      no integer is padded. */
  lemma SwappedAccepted()
    ensures Decode(Swapped()) == Some(Snapshot(STREAMS, EMPTY))
    ensures Encode(Snapshot(STREAMS, EMPTY)) != Swapped()
  {
    hide ReadCursor, ReadData, PutData, Encode, SwappedEntries, PutOptU64, ReadOptU64, ReadVersion, KeysRead, Consistent;
    SwappedCursor();
    EmptyDataRead();
    var r := PutOptU64(None, SwappedEntries());
    assert Swapped()[|HEADER|..] == r;
    CanonicalIsEncoded(Swapped());
    LettersAreOk();
    ReadsSwapped();
    assert !Ascends([B, A]) by {
      assert !LexLe([B, A][0], [B, A][1]);
    }
  }

  lemma EmptyDataRead()
    ensures ReadData(PutData(EMPTY, [])) == Done(EMPTY, []) && Consistent(EMPTY)
  {
    hide ReadData, PutData;
    EmptyInv();
    DataRead(EMPTY, []);
  }
}
