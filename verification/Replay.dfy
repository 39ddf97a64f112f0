/** Replaying event sequences with cursor checks, and resuming from a snapshot. */
module Replay {
  import opened Common
  import opened Domain
  import opened Projections
  import opened Views
  import opened MemoryProjections

  datatype ReplayCursor = ReplayCursor(globalPosition: Option<u64>, streamVersions: map<Id, u64>)

  datatype Snapshot = Snapshot(cursor: ReplayCursor, projection: Projection)

  const START := ReplayCursor(None, map[])

  type Events = seq<StoredEvent<MemoryEvent>>

  // ---- Cursor checks ------------------------------------------------------------

  /** The number after an optional last one. */
  function Next(last: Option<u64>): Result<u64> {
    match last
    case None => Ok(0)
    case Some(n) => if n + 1 < U64_LIMIT then Ok(n + 1) else Err(CapacityOverflow)
  }

  function VersionOf(cursor: ReplayCursor, stream: Id): Option<u64> {
    if stream in cursor.streamVersions then Some(cursor.streamVersions[stream]) else None
  }

  /** The checks on the next event: a fresh id, the next position, the next version of its stream.
      `zeroStart` only matters to a test that cannot fail, since the first position expected is 0. */
  function ValidateNext<E>(cursor: ReplayCursor, seen: set<Id>, event: StoredEvent<E>, zeroStart: bool)
    : Result<(u64, u64)>
  {
    var m := event.metadata;
    if m.id in seen then Err(DuplicateEvent(m.id))
    else
      var position :- Next(cursor.globalPosition);
      if zeroStart && cursor.globalPosition.None? && position != 0 then Err(InvalidReplay)
      else if m.globalPosition != position then Err(InvalidReplay)
      else
        var version :- Next(VersionOf(cursor, m.streamId));
        if m.streamVersion != version then Err(InvalidReplay)
        else Ok((position, version))
  }

  function Advance<E>(cursor: ReplayCursor, event: StoredEvent<E>): ReplayCursor {
    var m := event.metadata;
    ReplayCursor(Some(m.globalPosition), cursor.streamVersions[m.streamId := m.streamVersion])
  }

  // ---- Sequences ------------------------------------------------------------------

  function ReplayFrom(p: Projection, cursor: ReplayCursor, seen: set<Id>, events: Events, zeroStart: bool)
    : Result<Snapshot>
    decreases |events|
  {
    if events == [] then Ok(Snapshot(cursor, p))
    else
      var _ :- ValidateNext(cursor, seen, events[0], zeroStart);
      var next :- Apply(p, events[0]);
      ReplayFrom(next, Advance(cursor, events[0]), seen + {events[0].metadata.id}, events[1..], zeroStart)
  }

  /** A complete replay from nothing. */
  function ReplayAll(events: Events): Result<Snapshot> {
    ReplayFrom(EMPTY, START, {}, events, true)
  }

  /** Continuing from a snapshot; identifiers seen before it are not remembered. */
  function Resume(snapshot: Snapshot, tail: Events): Result<Snapshot> {
    ReplayFrom(snapshot.projection, snapshot.cursor, {}, tail, false)
  }

  function EventIds<E>(events: seq<StoredEvent<E>>): set<Id> {
    set i | 0 <= i < |events| :: events[i].metadata.id
  }

  lemma EventIdsFirst<E>(events: seq<StoredEvent<E>>)
    requires events != []
    ensures EventIds(events) == {events[0].metadata.id} + EventIds(events[1..])
  {
    forall x | x in EventIds(events) ensures x in {events[0].metadata.id} + EventIds(events[1..]) {
      var i :| 0 <= i < |events| && events[i].metadata.id == x;
      if i > 0 {
        assert events[1..][i - 1].metadata.id == x;
      }
    }
    forall x | x in EventIds(events[1..]) ensures x in EventIds(events) {
      var i :| 0 <= i < |events[1..]| && events[1..][i].metadata.id == x;
      assert events[i + 1].metadata.id == x;
    }
  }

  // ---- The object's replay loop ------------------------------------------------------

  /** The loop over the projection object computes the value-level replay. */
  method ApplySequence(projection: MemoryProjection, start: ReplayCursor, events: Events, zeroStart: bool)
    returns (r: Result<ReplayCursor>)
    requires projection.Valid()
    modifies projection, projection.nodeLookup, projection.factLookup
    ensures projection.Valid()
    ensures match ReplayFrom(old(projection.Value()), start, {}, events, zeroStart)
            case Ok(s) => r == Ok(s.cursor) && projection.Value() == s.projection
            case Err(e) => r == Err(e)
  {
    hide MemoryProjection.Valid, ValidateNext, Apply;
    var cursor, seen := start, {};
    ghost var goal := ReplayFrom(projection.Value(), start, {}, events, zeroStart);
    for i := 0 to |events|
      invariant projection.Valid()
      invariant projection.nodeLookup == old(projection.nodeLookup)
      invariant projection.factLookup == old(projection.factLookup)
      invariant ReplayFrom(projection.Value(), cursor, seen, events[i..], zeroStart) == goal
    {
      var event := events[i];
      assert events[i..][0] == event && events[i..][1..] == events[i + 1..];
      var checked := ValidateNext(cursor, seen, event, zeroStart);
      if checked.Err? {
        return Err(checked.error);
      }
      seen := seen + {event.metadata.id};
      var applied := projection.Apply(event);
      if applied.Err? {
        return Err(applied.error);
      }
      cursor := Advance(cursor, event);
    }
    r := Ok(cursor);
  }

  // ---- Splitting a replay -----------------------------------------------------------------

  lemma ZeroStartUnused<E>(cursor: ReplayCursor, seen: set<Id>, event: StoredEvent<E>)
    ensures ValidateNext(cursor, seen, event, true) == ValidateNext(cursor, seen, event, false)
  {}

  lemma {:induction false} ZeroStartIrrelevant(p: Projection, cursor: ReplayCursor, seen: set<Id>, events: Events)
    ensures ReplayFrom(p, cursor, seen, events, true) == ReplayFrom(p, cursor, seen, events, false)
    decreases |events|
  {
    hide ValidateNext, Apply;
    if events != [] {
      ZeroStartUnused(cursor, seen, events[0]);
      if Apply(p, events[0]).Ok? {
        ZeroStartIrrelevant(Apply(p, events[0]).value, Advance(cursor, events[0]),
                            seen + {events[0].metadata.id}, events[1..]);
      }
    }
  }

  /** Replaying `a` and then `b` is replaying `a + b`, as long as the ids of `a` are remembered. */
  lemma {:induction false} ReplaySplit(p: Projection, cursor: ReplayCursor, seen: set<Id>, a: Events, b: Events, z: bool)
    ensures ReplayFrom(p, cursor, seen, a + b, z)
         == match ReplayFrom(p, cursor, seen, a, z)
            case Ok(s) => ReplayFrom(s.projection, s.cursor, seen + EventIds(a), b, z)
            case Err(e) => Err(e)
    decreases |a|
  {
    hide ValidateNext, Apply;
    if a == [] {
      assert a + b == b;
      assert seen + EventIds(a) == seen;
    } else {
      assert (a + b)[0] == a[0] && (a + b)[1..] == a[1..] + b;
      EventIdsFirst(a);
      assert seen + EventIds(a) == (seen + {a[0].metadata.id}) + EventIds(a[1..]);
      if Apply(p, a[0]).Ok? {
        ReplaySplit(Apply(p, a[0]).value, Advance(cursor, a[0]), seen + {a[0].metadata.id}, a[1..], b, z);
      }
    }
  }

  lemma SeenChecked<E>(cursor: ReplayCursor, seen: set<Id>, extra: set<Id>, event: StoredEvent<E>, z: bool)
    ensures ValidateNext(cursor, seen + extra, event, z).Ok?
            <==> ValidateNext(cursor, seen, event, z).Ok? && event.metadata.id !in extra
  {}

  /** Remembering more ids only rejects sequences that repeat one of them. */
  lemma {:induction false} ForgettingIds(p: Projection, cursor: ReplayCursor, seen: set<Id>, extra: set<Id>, events: Events,
                                         z: bool, s: Snapshot)
    ensures ReplayFrom(p, cursor, seen + extra, events, z) == Ok(s)
            <==> ReplayFrom(p, cursor, seen, events, z) == Ok(s) && EventIds(events) !! extra
    decreases |events|
  {
    hide ValidateNext, Apply;
    if events != [] {
      var id := events[0].metadata.id;
      SeenChecked(cursor, seen, extra, events[0], z);
      EventIdsFirst(events);
      if Apply(p, events[0]).Ok? {
        assert (seen + extra) + {id} == (seen + {id}) + extra;
        ForgettingIds(Apply(p, events[0]).value, Advance(cursor, events[0]), seen + {id}, extra, events[1..], z, s);
      }
    }
  }

  /** Resuming after `a` accepts `b` with a given result exactly when the straight replay of `a + b`
      does, provided `b` repeats no event id of `a`: resuming itself cannot notice such a repeat. */
  lemma ResumeMeetsReplay(a: Events, b: Events, s: Snapshot)
    requires ReplayAll(a).Ok?
    ensures ReplayAll(a + b) == Ok(s) <==> Resume(ReplayAll(a).value, b) == Ok(s) && EventIds(a) !! EventIds(b)
  {
    var mid := ReplayAll(a).value;
    ReplaySplit(EMPTY, START, {}, a, b, true);
    assert {} + EventIds(a) == EventIds(a);
    ForgettingIds(mid.projection, mid.cursor, {}, EventIds(a), b, true, s);
    ZeroStartIrrelevant(mid.projection, mid.cursor, {}, b);
  }

  lemma FailedPrefix(a: Events, b: Events)
    requires ReplayAll(a).Err?
    ensures ReplayAll(a + b) == Err(ReplayAll(a).error)
  {
    ReplaySplit(EMPTY, START, {}, a, b, true);
  }

  // ---- What replayed snapshots satisfy -----------------------------------------------------

  ghost predicate SnapshotOk(s: Snapshot) {
    Inv(s.projection) && s.projection.lastPosition == s.cursor.globalPosition
  }

  lemma {:induction false} ReplayKeepsOk(p: Projection, cursor: ReplayCursor, seen: set<Id>, events: Events, z: bool)
    requires SnapshotOk(Snapshot(cursor, p)) && ReplayFrom(p, cursor, seen, events, z).Ok?
    ensures SnapshotOk(ReplayFrom(p, cursor, seen, events, z).value)
    decreases |events|
  {
    hide Inv, ValidateNext, Apply;
    if events != [] {
      InvHolds(p, events[0]);
      ReplayKeepsOk(Apply(p, events[0]).value, Advance(cursor, events[0]), seen + {events[0].metadata.id}, events[1..], z);
    }
  }

  lemma InvHolds(p: Projection, event: StoredEvent<MemoryEvent>)
    requires Inv(p) && Apply(p, event).Ok?
    ensures Inv(Apply(p, event).value)
    ensures Apply(p, event).value.lastPosition == Some(event.metadata.globalPosition)
  {
    hide Consistent, SupersessionsComplete;
    ApplyInv(p, event);
  }

  /** Every complete replay ends in a consistent projection whose position is the cursor's. */
  lemma ReplayOk(events: Events)
    requires ReplayAll(events).Ok?
    ensures SnapshotOk(ReplayAll(events).value)
  {
    EmptyInv();
    ReplayKeepsOk(EMPTY, START, {}, events, true);
  }

  // ---- Replay is cursor checking plus application ---------------------------------------------

  /** Do the cursor checks alone accept the sequence? */
  predicate CursorsAccept<E>(cursor: ReplayCursor, seen: set<Id>, events: seq<StoredEvent<E>>)
    decreases |events|
  {
    events == []
    || (ValidateNext(cursor, seen, events[0], false).Ok?
        && CursorsAccept(Advance(cursor, events[0]), seen + {events[0].metadata.id}, events[1..]))
  }

  /** The two halves are independent: a sequence replays exactly when its numbering is right and
      its payloads apply one after another. */
  lemma {:induction false} ReplayIsApplication(p: Projection, cursor: ReplayCursor, seen: set<Id>, events: Events)
    ensures ReplayFrom(p, cursor, seen, events, true).Ok?
            <==> CursorsAccept(cursor, seen, events) && ApplyAll(p, events).Ok?
    ensures ReplayFrom(p, cursor, seen, events, true).Ok? ==>
              ReplayFrom(p, cursor, seen, events, true).value.projection == ApplyAll(p, events).value
    decreases |events|
  {
    hide ValidateNext, Apply;
    if events != [] {
      ZeroStartUnused(cursor, seen, events[0]);
      if Apply(p, events[0]).Ok? {
        ReplayIsApplication(Apply(p, events[0]).value, Advance(cursor, events[0]),
                            seen + {events[0].metadata.id}, events[1..]);
      }
    }
  }
}
