/** The in-memory event store: optimistic appends, numbering, restore, and runs of appends. */
module Stores {
  import opened Common
  import opened Domain
  import opened Replay

  datatype NewEvent<+E> = NewEvent(
    id: Id,
    eventType: EventType,
    occurredAt: Timestamp,
    recordedAt: Timestamp,
    agentId: Id,
    sessionId: Id,
    correlationId: Option<Id>,
    causationId: Option<Id>,
    payload: E)

  datatype ExpectedVersion = Any | NoStream | Exact(version: u64)

  type Log<E> = seq<StoredEvent<E>>

  // ---- A log and its numbering ------------------------------------------------------

  /** The version of the last event of a stream. */
  function StreamVersion<E>(log: Log<E>, stream: Id): Option<u64> {
    if log == [] then None
    else if log[|log| - 1].metadata.streamId == stream then Some(log[|log| - 1].metadata.streamVersion)
    else StreamVersion(log[..|log| - 1], stream)
  }

  /** May `e` come next after `log`? */
  predicate Fits<E>(log: Log<E>, e: StoredEvent<E>) {
    && e.metadata.globalPosition == |log|
    && Next(StreamVersion(log, e.metadata.streamId)) == Ok(e.metadata.streamVersion)
    && e.metadata.id !in EventIds(log)
  }

  predicate WellNumbered<E>(log: Log<E>) {
    log == [] || (WellNumbered(log[..|log| - 1]) && Fits(log[..|log| - 1], log[|log| - 1]))
  }

  /** Positions of a stream's events, in order. */
  function StreamList<E>(log: Log<E>, stream: Id): (r: seq<nat>)
    ensures forall j | 0 <= j < |r| :: r[j] < |log| && log[r[j]].metadata.streamId == stream
  {
    if log == [] then []
    else
      var front := StreamList(log[..|log| - 1], stream);
      if log[|log| - 1].metadata.streamId == stream then front + [|log| - 1] else front
  }

  lemma WellNumberedStep<E>(log: Log<E>, e: StoredEvent<E>)
    ensures WellNumbered(log + [e]) <==> WellNumbered(log) && Fits(log, e)
  {
    assert (log + [e])[..|log|] == log;
  }

  lemma StreamListStep<E>(log: Log<E>, e: StoredEvent<E>, stream: Id)
    ensures StreamList(log + [e], stream)
         == if e.metadata.streamId == stream then StreamList(log, stream) + [|log|] else StreamList(log, stream)
  {
    assert (log + [e])[..|log|] == log;
  }

  lemma StreamVersionStep<E>(log: Log<E>, e: StoredEvent<E>, stream: Id)
    ensures StreamVersion(log + [e], stream)
         == if e.metadata.streamId == stream then Some(e.metadata.streamVersion) else StreamVersion(log, stream)
  {
    assert (log + [e])[..|log|] == log;
  }

  lemma EventIdsStep<E>(log: Log<E>, e: StoredEvent<E>)
    ensures EventIds(log + [e]) == EventIds(log) + {e.metadata.id}
  {
    var all := log + [e];
    assert all[|log|] == e;
    forall x | x in EventIds(log) ensures x in EventIds(all) {
      var i :| 0 <= i < |log| && log[i].metadata.id == x;
      assert all[i].metadata.id == x;
    }
  }

  /** Versions of a stream run from zero without gaps, and the last one is the stream's version. */
  ghost predicate StreamNumbered<E>(log: Log<E>, stream: Id) {
    var list := StreamList(log, stream);
    && StreamVersion(log, stream) == (if list == [] then None else Some(|list| - 1))
    && forall j | 0 <= j < |list| :: log[list[j]].metadata.streamVersion == j
  }

  /** What the numbering means: global positions 0, 1, 2, ..., versions 0, 1, 2, ... in each stream,
      and no identifier twice. */
  lemma {:induction false} NumberingMeaning<E>(log: Log<E>)
    requires WellNumbered(log)
    ensures forall i | 0 <= i < |log| :: log[i].metadata.globalPosition == i
    ensures forall i, j | 0 <= i < j < |log| :: log[i].metadata.id != log[j].metadata.id
    ensures forall stream :: StreamNumbered(log, stream)
    decreases |log|
  {
    if log != [] {
      var front, e := log[..|log| - 1], log[|log| - 1];
      assert log == front + [e];
      NumberingMeaning(front);
      forall i | 0 <= i < |front| ensures log[i].metadata.id != e.metadata.id {
        assert front[i].metadata.id in EventIds(front);
      }
      forall stream ensures StreamNumbered(log, stream) {
        StreamNumberedStep(front, e, stream);
      }
    }
  }

  lemma StreamNumberedStep<E>(log: Log<E>, e: StoredEvent<E>, stream: Id)
    requires StreamNumbered(log, stream) && Fits(log, e)
    ensures StreamNumbered(log + [e], stream)
  {
    hide StreamVersion, StreamList, EventIds;
    StreamListStep(log, e, stream);
    StreamVersionStep(log, e, stream);
  }

  // ---- Preparing an append ---------------------------------------------------------------

  predicate Matches(expected: ExpectedVersion, actual: Option<u64>) {
    match expected
    case Any => true
    case NoStream => actual.None?
    case Exact(v) => actual == Some(v)
  }

  function ExpectedOf(expected: ExpectedVersion): Option<u64> {
    if expected.Exact? then Some(expected.version) else None
  }

  /** The first new event whose id is already known or repeated. */
  function FirstDuplicate<E>(known: set<Id>, events: seq<NewEvent<E>>): Option<Id>
    decreases |events|
  {
    if events == [] then None
    else if events[0].id in known then Some(events[0].id)
    else FirstDuplicate(known + {events[0].id}, events[1..])
  }

  function Stamp<E>(stream: Id, e: NewEvent<E>, version: u64, position: u64): StoredEvent<E> {
    StoredEvent(EventMetadata(e.id, stream, version, position, e.eventType, e.occurredAt, e.recordedAt,
                              e.agentId, e.sessionId, e.correlationId, e.causationId),
                e.payload)
  }

  /** Consecutive versions and positions; running out of numbers is an error. */
  function StampAll<E>(stream: Id, events: seq<NewEvent<E>>, version: nat, position: nat): Result<Log<E>>
    decreases |events|
  {
    if events == [] then Ok([])
    else if version >= U64_LIMIT || position >= U64_LIMIT then Err(CapacityOverflow)
    else
      var rest :- StampAll(stream, events[1..], version + 1, position + 1);
      Ok([Stamp(stream, events[0], version, position)] + rest)
  }

  function Prepare<E>(log: Log<E>, stream: Id, expected: ExpectedVersion, events: seq<NewEvent<E>>): Result<Log<E>> {
    var actual := StreamVersion(log, stream);
    if !Matches(expected, actual) then Err(VersionConflict(ExpectedOf(expected), actual))
    else
      match FirstDuplicate(EventIds(log), events)
      case Some(id) => Err(DuplicateEvent(id))
      case None =>
        var version :- Next(actual);
        if |log| >= U64_LIMIT then Err(CapacityOverflow)
        else StampAll(stream, events, version, |log|)
  }

  lemma {:induction false} StampFits<E>(log: Log<E>, stream: Id, events: seq<NewEvent<E>>, version: nat)
    requires WellNumbered(log) && FirstDuplicate(EventIds(log), events).None?
    requires Next(StreamVersion(log, stream)) == Ok(version) || events == []
    requires StampAll(stream, events, version, |log|).Ok?
    ensures WellNumbered(log + StampAll(stream, events, version, |log|).value)
    decreases |events|
  {
    if events == [] {
      assert log + [] == log;
    } else {
      var e := Stamp(stream, events[0], version, |log|);
      var rest := StampAll(stream, events[1..], version + 1, |log| + 1).value;
      WellNumberedStep(log, e);
      EventIdsStep(log, e);
      StreamVersionStep(log, e, stream);
      hide WellNumbered, StreamVersion, EventIds, Stamp;
      StampOne(stream, events[1..], version + 1, |log| + 1);
      StampFits(log + [e], stream, events[1..], version + 1);
      assert (log + [e]) + rest == log + ([e] + rest);
    }
  }

  lemma StampOne<E>(stream: Id, events: seq<NewEvent<E>>, version: nat, position: nat)
    requires StampAll(stream, events, version, position).Ok?
    ensures events == [] || (version < U64_LIMIT && position < U64_LIMIT)
  {}

  lemma {:induction false} StampShape<E>(stream: Id, events: seq<NewEvent<E>>, version: nat, position: nat)
    requires StampAll(stream, events, version, position).Ok?
    ensures var r := StampAll(stream, events, version, position).value;
            && |r| == |events|
            && forall i | 0 <= i < |r| :: r[i].metadata.streamId == stream && r[i].metadata.streamVersion == version + i
                                          && r[i].metadata.id == events[i].id && r[i].payload == events[i].payload
    decreases |events|
  {
    if events != [] {
      StampShape(stream, events[1..], version + 1, position + 1);
    }
  }

  /** An accepted batch keeps the log well numbered. */
  lemma PrepareKeepsNumbering<E>(log: Log<E>, stream: Id, expected: ExpectedVersion, events: seq<NewEvent<E>>)
    requires WellNumbered(log) && Prepare(log, stream, expected, events).Ok?
    ensures WellNumbered(log + Prepare(log, stream, expected, events).value)
  {
    hide WellNumbered, StreamVersion, EventIds, StampAll, FirstDuplicate;
    StampFits(log, stream, events, Next(StreamVersion(log, stream)).value);
  }

  // ---- What an append accepts and stores ----------------------------------------------------

  /** Event `i` is the last one of its stream. */
  ghost predicate IsLastOf<E>(log: Log<E>, stream: Id, i: nat) {
    i < |log| && log[i].metadata.streamId == stream && forall j | i < j < |log| :: log[j].metadata.streamId != stream
  }

  /** A stream's version is that of its last event, and none if it has no events. */
  lemma {:induction false} StreamVersionMeaning<E>(log: Log<E>, stream: Id)
    ensures StreamVersion(log, stream).None? <==> forall i | 0 <= i < |log| :: log[i].metadata.streamId != stream
    ensures StreamVersion(log, stream).Some? ==>
              exists i: nat :: IsLastOf(log, stream, i) && StreamVersion(log, stream) == Some(log[i].metadata.streamVersion)
    decreases |log|
  {
    if log != [] {
      var n := |log| - 1;
      var front := log[..n];
      if log[n].metadata.streamId == stream {
        assert IsLastOf(log, stream, n);
      } else {
        StreamVersionMeaning(front, stream);
        assert forall i | 0 <= i < n :: front[i] == log[i];
        if StreamVersion(front, stream).Some? {
          var i: nat :| IsLastOf(front, stream, i) && StreamVersion(front, stream) == Some(front[i].metadata.streamVersion);
          assert IsLastOf(log, stream, i);
        }
      }
    }
  }

  /** New event `i` repeats a known id or that of an earlier new event. */
  ghost predicate Repeats<E>(known: set<Id>, events: seq<NewEvent<E>>, i: nat) {
    i < |events| && (events[i].id in known || exists j: nat :: j < i && events[j].id == events[i].id)
  }

  lemma {:induction false} FirstDuplicateMeaning<E>(known: set<Id>, events: seq<NewEvent<E>>)
    ensures FirstDuplicate(known, events).None? <==> forall i: nat :: !Repeats(known, events, i)
    ensures FirstDuplicate(known, events).Some? ==>
              exists i: nat :: Repeats(known, events, i) && (forall j: nat | j < i :: !Repeats(known, events, j))
                               && FirstDuplicate(known, events) == Some(events[i].id)
    decreases |events|
  {
    if events != [] {
      if events[0].id in known {
        assert Repeats(known, events, 0);
      } else {
        var rest, more := events[1..], known + {events[0].id};
        FirstDuplicateMeaning(more, rest);
        forall i: nat ensures Repeats(known, events, i) <==> i > 0 && Repeats(more, rest, i - 1) {
          RepeatsShift(known, events, i);
        }
        if FirstDuplicate(more, rest).Some? {
          var i: nat :| Repeats(more, rest, i) && (forall j: nat | j < i :: !Repeats(more, rest, j))
                        && FirstDuplicate(more, rest) == Some(rest[i].id);
          assert Repeats(known, events, i + 1) && events[i + 1] == rest[i];
        } else {
          assert forall i: nat :: !Repeats(known, events, i);
        }
      }
    }
  }

  lemma RepeatsShift<E>(known: set<Id>, events: seq<NewEvent<E>>, i: nat)
    requires events != [] && events[0].id !in known
    ensures Repeats(known, events, i) <==> i > 0 && Repeats(known + {events[0].id}, events[1..], i - 1)
  {
    var rest := events[1..];
    if 0 < i < |events| {
      assert rest[i - 1] == events[i];
      if j: nat :| j < i && events[j].id == events[i].id {
        assert j > 0 ==> rest[j - 1] == events[j];
      }
      if j: nat :| j < i - 1 && rest[j].id == rest[i - 1].id {
        assert events[j + 1] == rest[j];
      }
      if events[i].id == events[0].id {
        assert Repeats(known, events, i);
      }
    }
  }

  /** The stored event carries everything of the new one, and its own numbers. */
  ghost predicate Carries<E>(stored: StoredEvent<E>, e: NewEvent<E>, stream: Id, version: int, position: int) {
    var m := stored.metadata;
    && stored.payload == e.payload
    && m.id == e.id && m.streamId == stream && m.streamVersion == version && m.globalPosition == position
    && m.eventType == e.eventType && m.occurredAt == e.occurredAt && m.recordedAt == e.recordedAt
    && m.agentId == e.agentId && m.sessionId == e.sessionId
    && m.correlationId == e.correlationId && m.causationId == e.causationId
  }

  lemma {:induction false} StampCarries<E>(stream: Id, events: seq<NewEvent<E>>, version: nat, position: nat)
    ensures StampAll(stream, events, version, position).Ok?
            <==> events == [] || (version + |events| <= U64_LIMIT && position + |events| <= U64_LIMIT)
    ensures StampAll(stream, events, version, position).Err? ==>
              StampAll(stream, events, version, position) == Err(CapacityOverflow)
    ensures StampAll(stream, events, version, position).Ok? ==>
              var r := StampAll(stream, events, version, position).value;
              |r| == |events| && forall i | 0 <= i < |r| :: Carries(r[i], events[i], stream, version + i, position + i)
    decreases |events|
  {
    if events != [] {
      StampCarries(stream, events[1..], version + 1, position + 1);
    }
  }

  /** The version the next event of the stream gets. */
  function NextVersion<E>(log: Log<E>, stream: Id): nat {
    match StreamVersion(log, stream)
    case None => 0
    case Some(v) => v + 1
  }

  /** What an accepted append stores: the new events, field by field, numbered on from stream and log. */
  lemma PreparedEvents<E>(log: Log<E>, stream: Id, expected: ExpectedVersion, events: seq<NewEvent<E>>)
    requires Prepare(log, stream, expected, events).Ok?
    ensures var r := Prepare(log, stream, expected, events).value;
            && |r| == |events|
            && forall i | 0 <= i < |r| :: Carries(r[i], events[i], stream, NextVersion(log, stream) + i, |log| + i)
  {
    hide StreamVersion, EventIds, FirstDuplicate, StampAll, Carries;
    StampCarries(stream, events, Next(StreamVersion(log, stream)).value, |log|);
  }

  /** The stream is in the state the caller expects: anything, no events yet, or this last version. */
  ghost predicate AsExpected<E>(log: Log<E>, stream: Id, expected: ExpectedVersion) {
    && (expected.NoStream? ==> forall i | 0 <= i < |log| :: log[i].metadata.streamId != stream)
    && (expected.Exact? ==> exists i: nat :: IsLastOf(log, stream, i) && log[i].metadata.streamVersion == expected.version)
  }

  /** There are numbers left for all new events. */
  ghost predicate HasRoom<E>(log: Log<E>, stream: Id, events: seq<NewEvent<E>>) {
    && NextVersion(log, stream) < U64_LIMIT && |log| < U64_LIMIT
    && NextVersion(log, stream) + |events| <= U64_LIMIT && |log| + |events| <= U64_LIMIT
  }

  lemma MatchesMeaning<E>(log: Log<E>, stream: Id, expected: ExpectedVersion)
    ensures Matches(expected, StreamVersion(log, stream)) <==> AsExpected(log, stream, expected)
  {
    hide StreamVersion;
    StreamVersionMeaning(log, stream);
    if expected.Exact? && AsExpected(log, stream, expected) {
      var i: nat :| IsLastOf(log, stream, i) && log[i].metadata.streamVersion == expected.version;
      assert log[i].metadata.streamId == stream;
      var j: nat :| IsLastOf(log, stream, j) && StreamVersion(log, stream) == Some(log[j].metadata.streamVersion);
      LastOfUnique(log, stream, i, j);
    }
  }

  lemma LastOfUnique<E>(log: Log<E>, stream: Id, i: nat, j: nat)
    requires IsLastOf(log, stream, i) && IsLastOf(log, stream, j)
    ensures i == j
  {}

  /** When an append is accepted, and which error it gets otherwise: the version first, then the ids, then
      the numbers. */
  lemma PrepareMeaning<E>(log: Log<E>, stream: Id, expected: ExpectedVersion, events: seq<NewEvent<E>>)
    ensures var r := Prepare(log, stream, expected, events);
            && (!AsExpected(log, stream, expected) ==>
                  r == Err(VersionConflict(if expected.Exact? then Some(expected.version) else None, StreamVersion(log, stream))))
            && (AsExpected(log, stream, expected) && (exists i: nat :: Repeats(EventIds(log), events, i)) ==>
                  exists i: nat :: Repeats(EventIds(log), events, i) && (forall j: nat | j < i :: !Repeats(EventIds(log), events, j))
                                   && r == Err(DuplicateEvent(events[i].id)))
            && (AsExpected(log, stream, expected) && (forall i: nat :: !Repeats(EventIds(log), events, i)) ==>
                  if HasRoom(log, stream, events) then r.Ok? else r == Err(CapacityOverflow))
  {
    hide StreamVersion, EventIds, FirstDuplicate, StampAll, AsExpected, Repeats;
    MatchesMeaning(log, stream, expected);
    FirstDuplicateMeaning(EventIds(log), events);
    var start := Next(StreamVersion(log, stream));
    if start.Ok? {
      StampCarries(stream, events, start.value, |log|);
    }
  }

  // ---- Runs of appends -------------------------------------------------------------------------

  datatype Op<E> = Op(stream: Id, expected: ExpectedVersion, events: seq<NewEvent<E>>)

  /** One append: a failed one changes nothing. */
  function Append<E>(log: Log<E>, op: Op<E>): Log<E> {
    match Prepare(log, op.stream, op.expected, op.events)
    case Ok(batch) => log + batch
    case Err(_) => log
  }

  function Run<E>(log: Log<E>, ops: seq<Op<E>>): Log<E>
    decreases |ops|
  {
    if ops == [] then log else Run(Append(log, ops[0]), ops[1..])
  }

  /** Every run of appends, failed ones included, leaves a well-numbered log. */
  lemma {:induction false} RunsAreNumbered<E>(log: Log<E>, ops: seq<Op<E>>)
    requires WellNumbered(log)
    ensures WellNumbered(Run(log, ops)) && log <= Run(log, ops)
    decreases |ops|
  {
    hide WellNumbered, Prepare;
    if ops != [] {
      var op := ops[0];
      if Prepare(log, op.stream, op.expected, op.events).Ok? {
        PrepareKeepsNumbering(log, op.stream, op.expected, op.events);
      }
      RunsAreNumbered(Append(log, op), ops[1..]);
    }
  }

  /** Did the append succeed and store something? */
  predicate Wins<E>(log: Log<E>, op: Op<E>) {
    op.events != [] && Prepare(log, op.stream, op.expected, op.events).Ok?
  }

  /** The stream has moved past `version`. */
  predicate Past<E>(log: Log<E>, stream: Id, version: u64) {
    StreamVersion(log, stream).Some? && StreamVersion(log, stream).value > version
  }

  lemma {:induction false} VersionAfterBatch<E>(log: Log<E>, batch: Log<E>, stream: Id)
    requires forall i | 0 <= i < |batch| :: batch[i].metadata.streamId == stream
    ensures batch != [] ==> StreamVersion(log + batch, stream) == Some(batch[|batch| - 1].metadata.streamVersion)
    ensures forall other | other != stream :: StreamVersion(log + batch, other) == StreamVersion(log, other)
    decreases |batch|
  {
    if batch == [] {
      assert log + batch == log;
    } else {
      var front, e := batch[..|batch| - 1], batch[|batch| - 1];
      assert log + batch == (log + front) + [e];
      VersionAfterBatch(log, front, stream);
      StreamVersionStep(log + front, e, stream);
      forall other | other != stream ensures StreamVersion(log + batch, other) == StreamVersion(log, other) {
        StreamVersionStep(log + front, e, other);
      }
    }
  }

  /** What one append does to stream versions. */
  lemma AppendVersions<E>(log: Log<E>, op: Op<E>)
    ensures forall other | other != op.stream :: StreamVersion(Append(log, op), other) == StreamVersion(log, other)
    ensures !Wins(log, op) ==> Append(log, op) == log
    ensures Wins(log, op) ==>
              && Next(StreamVersion(log, op.stream)).Ok?
              && StreamVersion(Append(log, op), op.stream).Some?
              && StreamVersion(Append(log, op), op.stream).value >= Next(StreamVersion(log, op.stream)).value
  {
    hide StreamVersion, EventIds, FirstDuplicate;
    var r := Prepare(log, op.stream, op.expected, op.events);
    if r.Ok? {
      var version := Next(StreamVersion(log, op.stream)).value;
      StampShape(op.stream, op.events, version, |log|);
      VersionAfterBatch(log, r.value, op.stream);
      if op.events == [] {
        assert log + r.value == log;
      }
    }
  }

  lemma PastIsKept<E>(log: Log<E>, op: Op<E>, stream: Id, version: u64)
    requires Past(log, stream, version)
    ensures Past(Append(log, op), stream, version)
  {
    hide StreamVersion, Append, Prepare;
    AppendVersions(log, op);
  }

  lemma {:induction false} PastForever<E>(log: Log<E>, ops: seq<Op<E>>, stream: Id, version: u64)
    requires Past(log, stream, version)
    ensures Past(Run(log, ops), stream, version)
    decreases |ops|
  {
    hide Past, Append;
    if ops != [] {
      PastIsKept(log, ops[0], stream, version);
      PastForever(Append(log, ops[0]), ops[1..], stream, version);
    }
  }

  /** Optimistic concurrency: of all appends that expect version `v` of a stream, at most one that
      stores something succeeds, whatever happens in between. */
  lemma ExactWinsOnce<E>(log: Log<E>, first: Op<E>, between: seq<Op<E>>, second: Op<E>, v: u64)
    requires first.stream == second.stream && first.expected == Exact(v) && second.expected == Exact(v)
    requires Wins(log, first)
    ensures !Wins(Run(Append(log, first), between), second)
  {
    AppendVersions(log, first);
    PastForever(Append(log, first), between, first.stream, v);
  }

  // ---- Acceptance of whole sequences -------------------------------------------------------------

  predicate NumberedAfter<E>(log: Log<E>, rest: Log<E>)
    decreases |rest|
  {
    rest == [] || (Fits(log, rest[0]) && NumberedAfter(log + [rest[0]], rest[1..]))
  }

  lemma {:induction false} NumberedSplit<E>(log: Log<E>, rest: Log<E>)
    requires WellNumbered(log)
    ensures WellNumbered(log + rest) <==> NumberedAfter(log, rest)
    decreases |rest|
  {
    if rest == [] {
      assert log + rest == log;
    } else {
      WellNumberedStep(log, rest[0]);
      assert log + rest == (log + [rest[0]]) + rest[1..];
      if Fits(log, rest[0]) {
        NumberedSplit(log + [rest[0]], rest[1..]);
      } else {
        BadPrefix(log + [rest[0]], rest[1..]);
      }
    }
  }

  lemma {:induction false} BadPrefix<E>(log: Log<E>, rest: Log<E>)
    requires !WellNumbered(log)
    ensures !WellNumbered(log + rest)
    decreases |rest|
  {
    if rest == [] {
      assert log + rest == log;
    } else {
      var front := rest[..|rest| - 1];
      BadPrefix(log, front);
      assert (log + rest)[..|log + rest| - 1] == log + front;
    }
  }

  ghost predicate CursorTracks<E>(cursor: ReplayCursor, log: Log<E>) {
    && |log| <= U64_LIMIT
    && cursor.globalPosition == (if log == [] then None else Some(|log| - 1))
    && forall stream :: VersionOf(cursor, stream) == StreamVersion(log, stream)
  }

  lemma CursorFits<E>(cursor: ReplayCursor, log: Log<E>, e: StoredEvent<E>)
    requires CursorTracks(cursor, log)
    ensures ValidateNext(cursor, EventIds(log), e, false).Ok? <==> Fits(log, e)
    ensures Fits(log, e) ==> CursorTracks(Advance(cursor, e), log + [e])
  {
    hide StreamVersion, EventIds;
    assert VersionOf(cursor, e.metadata.streamId) == StreamVersion(log, e.metadata.streamId);
    if Fits(log, e) {
      forall stream ensures VersionOf(Advance(cursor, e), stream) == StreamVersion(log + [e], stream) {
        StreamVersionStep(log, e, stream);
      }
    }
  }

  lemma {:induction false} CursorsMeetNumbering<E>(cursor: ReplayCursor, log: Log<E>, rest: Log<E>)
    requires CursorTracks(cursor, log)
    ensures CursorsAccept(cursor, EventIds(log), rest) <==> NumberedAfter(log, rest)
    decreases |rest|
  {
    hide CursorTracks, ValidateNext, Fits, EventIds;
    if rest != [] {
      CursorFits(cursor, log, rest[0]);
      EventIdsStep(log, rest[0]);
      if Fits(log, rest[0]) {
        CursorsMeetNumbering(Advance(cursor, rest[0]), log + [rest[0]], rest[1..]);
      }
    }
  }

  /** Replay's cursor checks accept exactly the well-numbered sequences. */
  lemma ReplayAcceptsNumbered<E>(events: Log<E>)
    ensures CursorsAccept(START, {}, events) <==> WellNumbered(events)
  {
    var none: Log<E> := [];
    assert EventIds(none) == {} && none + events == events;
    NumberedSplit(none, events);
    CursorsMeetNumbering(START, none, events);
  }

  // ---- Restoring ------------------------------------------------------------------------------------

  /** Why `e` may not come next, checked in the order position, version, identifier. */
  function Misfit<E>(log: Log<E>, e: StoredEvent<E>): (r: Option<Error>)
    ensures r.None? <==> Fits(log, e)
  {
    if |log| >= U64_LIMIT then Some(CapacityOverflow)
    else if e.metadata.globalPosition != |log| then Some(InvalidReplay)
    else
      match Next(StreamVersion(log, e.metadata.streamId))
      case Err(error) => Some(error)
      case Ok(version) =>
        if e.metadata.streamVersion != version then Some(InvalidReplay)
        else if e.metadata.id in EventIds(log) then Some(DuplicateEvent(e.metadata.id))
        else None
  }

  function FirstMisfit<E>(log: Log<E>, rest: Log<E>): Option<Error>
    decreases |rest|
  {
    if rest == [] then None
    else if Misfit(log, rest[0]).Some? then Misfit(log, rest[0])
    else FirstMisfit(log + [rest[0]], rest[1..])
  }

  /** Which error a misfit is: a wrong position or version, a stream that is full, or else a known id. */
  lemma MisfitMeaning<E>(log: Log<E>, e: StoredEvent<E>)
    ensures Misfit(log, e).Some? ==>
              var m := e.metadata;
              Misfit(log, e).value
              == if |log| >= U64_LIMIT then CapacityOverflow
                 else if m.globalPosition != |log| then InvalidReplay
                 else if NextVersion(log, m.streamId) >= U64_LIMIT then CapacityOverflow
                 else if m.streamVersion != NextVersion(log, m.streamId) then InvalidReplay
                 else DuplicateEvent(m.id)
  {
    hide StreamVersion, EventIds;
  }

  /** The misfit reported is that of the first event that does not fit what precedes it. */
  lemma {:induction false} FirstMisfitIsFirst<E>(log: Log<E>, rest: Log<E>) returns (i: nat)
    requires FirstMisfit(log, rest).Some?
    ensures i < |rest| && FirstMisfit(log, rest) == Misfit(log + rest[..i], rest[i])
    ensures forall j | 0 <= j < i :: Fits(log + rest[..j], rest[j])
    decreases |rest|
  {
    hide Misfit, Fits;
    assert log + rest[..0] == log;
    i := 0;
    if Misfit(log, rest[0]).None? {
      var next, tail := log + [rest[0]], rest[1..];
      var k := FirstMisfitIsFirst(next, tail);
      i := k + 1;
      assert log + rest[..i] == next + tail[..k];
      forall j | 0 <= j < i ensures Fits(log + rest[..j], rest[j]) {
        if j > 0 {
          assert log + rest[..j] == next + tail[..j - 1] && rest[j] == tail[j - 1];
        }
      }
    }
  }

  lemma {:induction false} FirstMisfitAfter<E>(log: Log<E>, rest: Log<E>)
    ensures FirstMisfit(log, rest).None? <==> NumberedAfter(log, rest)
    decreases |rest|
  {
    hide Misfit, Fits;
    if rest != [] && Fits(log, rest[0]) {
      FirstMisfitAfter(log + [rest[0]], rest[1..]);
    }
  }

  /** Restoring accepts exactly the well-numbered sequences. */
  lemma RestoreAcceptsNumbered<E>(events: Log<E>)
    ensures FirstMisfit([], events).None? <==> WellNumbered(events)
  {
    var none: Log<E> := [];
    assert none + events == events;
    FirstMisfitAfter(none, events);
    NumberedSplit(none, events);
  }

  // ---- The store object ------------------------------------------------------------------------------

  ghost predicate IndexesStreams<E>(streams: map<Id, seq<nat>>, log: Log<E>) {
    forall s :: (s in streams <==> StreamList(log, s) != []) && (s in streams ==> streams[s] == StreamList(log, s))
  }

  function PushPosition(streams: map<Id, seq<nat>>, stream: Id, position: nat): map<Id, seq<nat>> {
    streams[stream := (if stream in streams then streams[stream] else []) + [position]]
  }

  lemma IndexesStreamsStep<E>(streams: map<Id, seq<nat>>, log: Log<E>, e: StoredEvent<E>)
    requires IndexesStreams(streams, log)
    ensures IndexesStreams(PushPosition(streams, e.metadata.streamId, |log|), log + [e])
  {
    hide StreamList;
    forall s ensures StreamList(log + [e], s)
                  == if e.metadata.streamId == s then StreamList(log, s) + [|log|] else StreamList(log, s)
    {
      StreamListStep(log, e, s);
    }
  }

  class InMemoryStore<E(!new)> {
    var events: Log<E>
    var streams: map<Id, seq<nat>>
    var eventIds: set<Id>

    /** The two indexes are determined by the events. */
    ghost predicate Indexed()
      reads this
    {
      IndexesStreams(streams, events) && eventIds == EventIds(events)
    }

    ghost predicate Valid()
      reads this
    {
      WellNumbered(events) && Indexed()
    }

    constructor ()
      ensures Valid() && events == []
    {
      events, streams, eventIds := [], map[], {};
    }

    method Version(stream: Id) returns (r: Option<u64>)
      requires Valid()
      ensures r == StreamVersion(events, stream)
    {
      hide WellNumbered, EventIds, StreamVersion, StreamList;
      NumberingMeaning(events);
      assert StreamNumbered(events, stream);
      if stream !in streams {
        return None;
      }
      var positions := streams[stream];
      r := Some(events[positions[|positions| - 1]].metadata.streamVersion);
    }

    /** Reads the store, changes nothing, and returns what the value-level function says. */
    method PrepareAppend(stream: Id, expected: ExpectedVersion, batch: seq<NewEvent<E>>) returns (r: Result<Log<E>>)
      requires Valid()
      ensures r == Prepare(events, stream, expected, batch)
    {
      hide WellNumbered, IndexesStreams, StreamVersion;
      var actual := Version(stream);
      if !Matches(expected, actual) {
        return Err(VersionConflict(ExpectedOf(expected), actual));
      }
      var duplicate := UniqueIds(eventIds, batch);
      if duplicate.Some? {
        return Err(DuplicateEvent(duplicate.value));
      }
      var start := Next(actual);
      if start.Err? {
        return Err(start.error);
      }
      if |events| >= U64_LIMIT {
        return Err(CapacityOverflow);
      }
      r := StampBatch(stream, batch, start.value, |events|);
    }

    /** Appends the prepared events and keeps both indexes in step. */
    method CommitPrepared(committed: Log<E>)
      requires Indexed()
      requires forall i | 0 <= i < |committed| :: committed[i].metadata.streamId == committed[0].metadata.streamId
      modifies this
      ensures Indexed() && events == old(events) + committed
    {
      hide IndexesStreams, EventIds;
      for i := 0 to |committed|
        invariant Indexed() && events == old(events) + committed[..i]
      {
        var e := committed[i];
        IndexesStreamsStep(streams, events, e);
        EventIdsStep(events, e);
        eventIds := eventIds + {e.metadata.id};
        streams := PushPosition(streams, committed[0].metadata.streamId, |events|);
        events := events + [e];
        assert old(events) + committed[..i + 1] == (old(events) + committed[..i]) + [e];
      }
      assert committed[..|committed|] == committed;
    }

    /** Prepare, then commit. */
    method AppendEvents(stream: Id, expected: ExpectedVersion, batch: seq<NewEvent<E>>) returns (r: Result<Log<E>>)
      requires Valid()
      modifies this
      ensures Valid()
      ensures r == Prepare(old(events), stream, expected, batch)
      ensures events == Append(old(events), Op(stream, expected, batch))
    {
      r := PrepareAppend(stream, expected, batch);
      if r.Ok? {
        PrepareKeepsNumbering(events, stream, expected, batch);
        PreparedStream(events, stream, expected, batch);
        hide WellNumbered, IndexesStreams, EventIds, Prepare;
        CommitPrepared(r.value);
      }
    }

    /** Rebuilding from a sequence, up to its first misfit. */
    method Restore(sequence: Log<E>) returns (r: Option<Error>)
      requires Valid() && events == []
      modifies this
      ensures r == FirstMisfit([], sequence)
      ensures r.None? ==> Valid() && events == sequence
    {
      hide WellNumbered, IndexesStreams, EventIds, StreamVersion;
      assert sequence[..0] == [] && sequence[0..] == sequence;
      for i := 0 to |sequence|
        invariant Valid() && events == sequence[..i]
        invariant FirstMisfit([], sequence) == FirstMisfit(events, sequence[i..])
      {
        var e := sequence[i];
        assert sequence[i..][1..] == sequence[i + 1..];
        assert sequence[..i + 1] == sequence[..i] + [e];
        if |events| >= U64_LIMIT {
          return Some(CapacityOverflow);
        }
        if e.metadata.globalPosition != |events| {
          return Some(InvalidReplay);
        }
        var version := Version(e.metadata.streamId);
        var expected := Next(version);
        if expected.Err? {
          return Some(expected.error);
        }
        if e.metadata.streamVersion != expected.value {
          return Some(InvalidReplay);
        }
        if e.metadata.id in eventIds {
          return Some(DuplicateEvent(e.metadata.id));
        }
        WellNumberedStep(events, e);
        IndexesStreamsStep(streams, events, e);
        EventIdsStep(events, e);
        eventIds := eventIds + {e.metadata.id};
        streams := PushPosition(streams, e.metadata.streamId, |events|);
        events := events + [e];
      }
      assert sequence[..|sequence|] == sequence;
      return None;
    }
  }

  lemma PreparedStream<E>(log: Log<E>, stream: Id, expected: ExpectedVersion, events: seq<NewEvent<E>>)
    requires Prepare(log, stream, expected, events).Ok?
    ensures var r := Prepare(log, stream, expected, events).value;
            |r| == |events| && forall i | 0 <= i < |r| :: r[i].metadata.streamId == stream
  {
    hide StreamVersion, EventIds, FirstDuplicate;
    StampShape(stream, events, Next(StreamVersion(log, stream)).value, |log|);
  }

  method UniqueIds<E>(known: set<Id>, events: seq<NewEvent<E>>) returns (duplicate: Option<Id>)
    ensures duplicate == FirstDuplicate(known, events)
  {
    var batch: set<Id> := {};
    assert events[0..] == events && known + {} == known;
    for i := 0 to |events|
      invariant FirstDuplicate(known + batch, events[i..]) == FirstDuplicate(known, events)
    {
      var id := events[i].id;
      assert events[i..][1..] == events[i + 1..];
      assert (known + batch) + {id} == known + (batch + {id});
      if id in known || id in batch {
        return Some(id);
      }
      batch := batch + {id};
    }
    return None;
  }

  method StampBatch<E>(stream: Id, events: seq<NewEvent<E>>, version: u64, position: u64) returns (r: Result<Log<E>>)
    ensures r == StampAll(stream, events, version, position)
  {
    var committed: Log<E> := [];
    ghost var goal := StampAll(stream, events, version, position);
    assert events[0..] == events;
    PrependNothing(goal);
    for offset := 0 to |events|
      invariant goal == Prepend(committed, StampAll(stream, events[offset..], version + offset, position + offset))
    {
      assert events[offset..][1..] == events[offset + 1..];
      if version + offset >= U64_LIMIT || position + offset >= U64_LIMIT {
        return Err(CapacityOverflow);
      }
      var e := Stamp(stream, events[offset], version + offset, position + offset);
      PrependStep(committed, e, StampAll(stream, events[offset + 1..], version + offset + 1, position + offset + 1));
      committed := committed + [e];
    }
    assert committed + [] == committed;
    r := Ok(committed);
  }

  lemma PrependNothing<E>(rest: Result<Log<E>>)
    ensures Prepend([], rest) == rest
  {
    if rest.Ok? {
      assert [] + rest.value == rest.value;
    }
  }

  ghost function Prepend<E>(done: Log<E>, rest: Result<Log<E>>): Result<Log<E>> {
    if rest.Ok? then Ok(done + rest.value) else rest
  }

  lemma PrependStep<E>(done: Log<E>, e: StoredEvent<E>, rest: Result<Log<E>>)
    ensures rest.Ok? ==> Prepend(done, Ok([e] + rest.value)) == Prepend(done + [e], rest)
  {
    if rest.Ok? {
      assert done + ([e] + rest.value) == (done + [e]) + rest.value;
    }
  }
}
