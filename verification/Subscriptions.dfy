/** Catch-up subscriptions: explicit acknowledgement, and at-least-once delivery over every interleaving. */
module Subscriptions {
  import opened Common
  import opened Stores

  // ---- Loading -----------------------------------------------------------------------

  /** Is position `i` behind the cursor? */
  predicate Beyond(cursor: Option<u64>, i: nat) {
    cursor.None? || i > cursor.value
  }

  /** Up to `limit` events whose stored position is behind the cursor, by plain filtering. */
  function LoadAll<E>(log: Log<E>, cursor: Option<u64>, limit: nat): Log<E>
    decreases |log|
  {
    if log == [] || limit == 0 then []
    else if Beyond(cursor, log[0].metadata.globalPosition) then [log[0]] + LoadAll(log[1..], cursor, limit - 1)
    else LoadAll(log[1..], cursor, limit)
  }

  function First(cursor: Option<u64>, length: nat): (lo: nat)
    ensures lo <= length
  {
    if cursor.None? then 0 else if cursor.value < length then cursor.value + 1 else length
  }

  function Upto(lo: nat, limit: nat, length: nat): (hi: nat)
    requires lo <= length
    ensures lo <= hi <= length
  {
    if lo + limit <= length then lo + limit else length
  }

  function Max(a: nat, b: nat): nat {
    if a >= b then a else b
  }

  ghost predicate Positioned<E>(log: Log<E>) {
    forall i | 0 <= i < |log| :: log[i].metadata.globalPosition == i
  }

  lemma {:induction false} LoadRest<E>(log: Log<E>, cursor: Option<u64>, limit: nat, k: nat)
    requires Positioned(log) && k <= |log|
    ensures var lo := Max(First(cursor, |log|), k);
            LoadAll(log[k..], cursor, limit) == log[lo..Upto(lo, limit, |log|)]
    decreases |log| - k
  {
    if k < |log| && limit > 0 {
      var rest := log[k..];
      assert rest[0] == log[k] && rest[1..] == log[k + 1..];
      if Beyond(cursor, k) {
        LoadRest(log, cursor, limit - 1, k + 1);
        var hi := Upto(k, limit, |log|);
        assert Upto(k + 1, limit - 1, |log|) == hi;
        assert log[k..hi] == [log[k]] + log[k + 1..hi];
      } else {
        LoadRest(log, cursor, limit, k + 1);
      }
    }
  }

  /** On a well-numbered log, filtering is slicing. */
  lemma LoadIsSlice<E>(log: Log<E>, cursor: Option<u64>, limit: nat)
    requires WellNumbered(log)
    ensures LoadAll(log, cursor, limit) == log[First(cursor, |log|)..Upto(First(cursor, |log|), limit, |log|)]
  {
    hide WellNumbered;
    NumberingMeaning(log);
    LoadRest(log, cursor, limit, 0);
    assert log[0..] == log;
  }

  // ---- The subscription as a value --------------------------------------------------------

  datatype Subscription = Subscription(checkpoint: Option<u64>, deliveredThrough: Option<u64>, batchSize: nat)

  function Create(checkpoint: Option<u64>, batchSize: nat): Result<Subscription> {
    if batchSize == 0 then Err(InvalidValue) else Ok(Subscription(checkpoint, None, batchSize))
  }

  function LastPosition<E>(events: Log<E>): Option<u64> {
    if events == [] then None else Some(events[|events| - 1].metadata.globalPosition)
  }

  function Polled<E>(s: Subscription, log: Log<E>): Log<E> {
    LoadAll(log, s.checkpoint, s.batchSize)
  }

  function AfterPoll<E>(s: Subscription, log: Log<E>): Subscription {
    s.(deliveredThrough := LastPosition(Polled(s, log)))
  }

  function Acknowledged(s: Subscription, position: u64): Result<Subscription> {
    if s.deliveredThrough.None? then Err(InvalidValue)
    else if position > s.deliveredThrough.value || (s.checkpoint.Some? && position < s.checkpoint.value) then Err(InvalidValue)
    else Ok(s.(checkpoint := Some(position), deliveredThrough := None))
  }

  /** What an acknowledgement needs and does: something was delivered, and the position is neither beyond
      that nor behind the checkpoint; then it is the checkpoint, and nothing counts as delivered any more. */
  lemma AcknowledgeMeaning(s: Subscription, position: u64)
    ensures match s.deliveredThrough
            case None => Acknowledged(s, position) == Err(InvalidValue)
            case Some(mark) =>
              Acknowledged(s, position)
              == if position <= mark && (s.checkpoint == None || s.checkpoint.value <= position)
                 then Ok(Subscription(Some(position), None, s.batchSize))
                 else Err(InvalidValue)
  {}

  /** What a poll returns and remembers: the events behind the checkpoint, at most a batch of them, and the
      position of the last one. */
  lemma PollMeaning<E>(s: Subscription, log: Log<E>)
    requires WellNumbered(log)
    ensures var lo := if s.checkpoint == None then 0 else s.checkpoint.value + 1;
            var n := if lo + s.batchSize <= |log| then s.batchSize else if lo <= |log| then |log| - lo else 0;
            && |Polled(s, log)| == n
            && (forall i | 0 <= i < n :: Polled(s, log)[i] == log[lo + i])
            && AfterPoll(s, log) == Subscription(s.checkpoint, if n == 0 then None else Some(lo + n - 1), s.batchSize)
  {
    hide WellNumbered, LoadAll;
    LoadIsSlice(log, s.checkpoint, s.batchSize);
    NumberingMeaning(log);
  }

  // ---- Interleavings ---------------------------------------------------------------------------

  /** One store, one subscription, and everything polls have returned so far. */
  datatype World<E> = World(log: Log<E>, sub: Subscription, delivered: Log<E>)

  datatype Step<E> = Appends(op: Op<E>) | Polls | Acknowledges(position: u64)

  function After<E>(w: World<E>, step: Step<E>): World<E> {
    match step
    case Appends(op) => w.(log := Append(w.log, op))
    case Polls => w.(sub := AfterPoll(w.sub, w.log), delivered := w.delivered + Polled(w.sub, w.log))
    case Acknowledges(position) =>
      match Acknowledged(w.sub, position)
      case Ok(sub) => w.(sub := sub)
      case Err(_) => w
  }

  function RunAll<E>(w: World<E>, steps: seq<Step<E>>): World<E>
    decreases |steps|
  {
    if steps == [] then w else RunAll(After(w, steps[0]), steps[1..])
  }

  ghost predicate NotBehind(earlier: Option<u64>, later: Option<u64>) {
    earlier.None? || (later.Some? && earlier.value <= later.value)
  }

  ghost predicate Returned<E>(w: World<E>, i: nat) {
    i < |w.log| && w.log[i] in w.delivered
  }

  /** Everything from the start to the checkpoint, and to the last delivered event, was returned. */
  ghost predicate Covered<E>(w: World<E>, start: Option<u64>) {
    && WellNumbered(w.log)
    && NotBehind(start, w.sub.checkpoint)
    && (forall i: nat | Beyond(start, i) && !Beyond(w.sub.checkpoint, i) :: Returned(w, i))
    && (w.sub.deliveredThrough.Some? ==>
          forall i: nat | Beyond(w.sub.checkpoint, i) && i <= w.sub.deliveredThrough.value :: Returned(w, i))
  }

  lemma AppendCovers<E>(w: World<E>, start: Option<u64>, op: Op<E>)
    requires Covered(w, start)
    ensures Covered(After(w, Appends(op)), start) && w.log <= After(w, Appends(op)).log
  {
    hide WellNumbered, Prepare;
    var t := After(w, Appends(op));
    if Prepare(w.log, op.stream, op.expected, op.events).Ok? {
      PrepareKeepsNumbering(w.log, op.stream, op.expected, op.events);
    }
    assert forall i: nat | Returned(w, i) :: Returned(t, i);
  }

  lemma PollCovers<E>(w: World<E>, start: Option<u64>)
    requires Covered(w, start)
    ensures Covered(After(w, Polls), start)
  {
    hide WellNumbered, LoadAll;
    var t := After(w, Polls);
    LoadIsSlice(w.log, w.sub.checkpoint, w.sub.batchSize);
    NumberingMeaning(w.log);
    var lo := First(w.sub.checkpoint, |w.log|);
    var batch := Polled(w.sub, w.log);
    assert forall i: nat | Returned(w, i) :: Returned(t, i);
    if batch != [] {
      forall i: nat | Beyond(w.sub.checkpoint, i) && i <= t.sub.deliveredThrough.value ensures Returned(t, i) {
        assert batch[i - lo] == w.log[i];
        assert batch[i - lo] in batch;
      }
    }
  }

  lemma AcknowledgeCovers<E>(w: World<E>, start: Option<u64>, position: u64)
    requires Covered(w, start)
    ensures Covered(After(w, Acknowledges(position)), start)
  {
    hide WellNumbered;
    var t := After(w, Acknowledges(position));
    forall i: nat | Beyond(start, i) && !Beyond(t.sub.checkpoint, i) ensures Returned(t, i) {
      assert Returned(w, i);
    }
    assert t.sub.deliveredThrough.Some? ==> t == w;
  }

  lemma StepCovers<E>(w: World<E>, start: Option<u64>, step: Step<E>)
    requires Covered(w, start)
    ensures Covered(After(w, step), start)
    ensures NotBehind(w.sub.checkpoint, After(w, step).sub.checkpoint)
    ensures w.log <= After(w, step).log && w.delivered <= After(w, step).delivered
  {
    hide Covered, Append, Polled;
    match step {
      case Appends(op) => AppendCovers(w, start, op);
      case Polls => PollCovers(w, start);
      case Acknowledges(position) => AcknowledgeCovers(w, start, position);
    }
  }

  /** At-least-once delivery, for every interleaving of appends, polls and acknowledgements: the
      checkpoint never moves back, and whatever it has passed was returned by an earlier poll. */
  lemma {:induction false} DeliveredAtLeastOnce<E>(w: World<E>, start: Option<u64>, steps: seq<Step<E>>)
    requires Covered(w, start)
    ensures Covered(RunAll(w, steps), start)
    ensures NotBehind(w.sub.checkpoint, RunAll(w, steps).sub.checkpoint)
    ensures w.log <= RunAll(w, steps).log && w.delivered <= RunAll(w, steps).delivered
    decreases |steps|
  {
    hide Covered, After;
    if steps != [] {
      StepCovers(w, start, steps[0]);
      DeliveredAtLeastOnce(After(w, steps[0]), start, steps[1..]);
    }
  }

  lemma FreshIsCovered<E>(log: Log<E>, start: Option<u64>, batchSize: nat)
    requires WellNumbered(log) && Create(start, batchSize).Ok?
    ensures Covered(World(log, Create(start, batchSize).value, []), start)
  {}

  /** Polling again without an acknowledgement extends the same batch. */
  lemma {:induction false} RepollExtends<E>(w: World<E>, start: Option<u64>, steps: seq<Step<E>>)
    requires Covered(w, start) && forall i | 0 <= i < |steps| :: !steps[i].Acknowledges?
    ensures RunAll(w, steps).sub.checkpoint == w.sub.checkpoint && RunAll(w, steps).sub.batchSize == w.sub.batchSize
    ensures Polled(w.sub, w.log) <= Polled(RunAll(w, steps).sub, RunAll(w, steps).log)
    decreases |steps|
  {
    hide Covered, LoadAll, Append;
    if steps != [] {
      var t := After(w, steps[0]);
      StepCovers(w, start, steps[0]);
      RepollExtends(t, start, steps[1..]);
      CoveredNumbered(w, start);
      CoveredNumbered(t, start);
      LoadGrows(w.log, t.log, w.sub.checkpoint, w.sub.batchSize);
    }
  }

  lemma CoveredNumbered<E>(w: World<E>, start: Option<u64>)
    requires Covered(w, start)
    ensures WellNumbered(w.log)
  {}

  lemma LoadGrows<E>(log: Log<E>, more: Log<E>, cursor: Option<u64>, limit: nat)
    requires WellNumbered(log) && WellNumbered(more) && log <= more
    ensures LoadAll(log, cursor, limit) <= LoadAll(more, cursor, limit)
  {
    hide WellNumbered, LoadAll;
    LoadIsSlice(log, cursor, limit);
    LoadIsSlice(more, cursor, limit);
  }

  // ---- The subscription object -----------------------------------------------------------------------

  class CatchUpSubscription {
    var checkpoint: Option<u64>
    var deliveredThrough: Option<u64>
    const batchSize: nat

    ghost function Value(): Subscription
      reads this
    {
      Subscription(checkpoint, deliveredThrough, batchSize)
    }

    constructor (checkpoint: Option<u64>, batchSize: nat)
      requires batchSize > 0
      ensures Value() == Subscription(checkpoint, None, batchSize)
    {
      this.checkpoint, this.deliveredThrough, this.batchSize := checkpoint, None, batchSize;
    }

    method Poll<E(!new)>(store: InMemoryStore<E>) returns (events: Log<E>)
      modifies this
      ensures events == Polled(old(Value()), store.events)
      ensures Value() == AfterPoll(old(Value()), store.events)
    {
      events := LoadAll(store.events, checkpoint, batchSize);
      deliveredThrough := if events == [] then None else Some(events[|events| - 1].metadata.globalPosition);
    }

    method Acknowledge(position: u64) returns (error: Option<Error>)
      modifies this
      ensures var r := Acknowledged(old(Value()), position);
              if r.Ok? then error == None && Value() == r.value else error == Some(r.error) && Value() == old(Value())
    {
      if deliveredThrough.None? {
        return Some(InvalidValue);
      }
      if position > deliveredThrough.value || (checkpoint.Some? && position < checkpoint.value) {
        return Some(InvalidValue);
      }
      checkpoint := Some(position);
      deliveredThrough := None;
      return None;
    }
  }

  /** A subscription object, or the refusal of an empty batch size. */
  method Subscribe(checkpoint: Option<u64>, batchSize: nat) returns (r: Result<CatchUpSubscription>)
    ensures var created := Create(checkpoint, batchSize);
            if created.Err? then r == Err(created.error) else r.Ok? && fresh(r.value) && r.value.Value() == created.value
  {
    if batchSize == 0 {
      return Err(InvalidValue);
    }
    var sub := new CatchUpSubscription(checkpoint, batchSize);
    r := Ok(sub);
  }

  lemma PollAdvances<E>(log: Log<E>, cursor: Option<u64>, limit: nat)
    requires WellNumbered(log) && limit > 0
    ensures var events := LoadAll(log, cursor, limit);
            var lo := First(cursor, |log|);
            && lo + |events| <= |log| && events == log[lo..lo + |events|]
            && (events == [] <==> lo == |log|)
            && (events != [] ==>
                  && LastPosition(events) == Some(lo + |events| - 1)
                  && First(LastPosition(events), |log|) == lo + |events|
                  && (cursor.Some? ==> cursor.value < lo + |events| - 1))
  {
    hide WellNumbered, LoadAll;
    LoadIsSlice(log, cursor, limit);
    NumberingMeaning(log);
  }

  /** The consumer loop, poll and acknowledge the last event, ends and has delivered the tail of the
      store exactly once, in order. */
  method Drain<E(!new)>(store: InMemoryStore<E>, sub: CatchUpSubscription) returns (delivered: Log<E>)
    requires WellNumbered(store.events) && sub.batchSize > 0
    modifies sub
    ensures delivered == store.events[First(old(sub.checkpoint), |store.events|)..]
    ensures sub.checkpoint == if delivered == [] then old(sub.checkpoint) else Some(|store.events| - 1)
  {
    hide WellNumbered, LoadAll;
    ghost var log, start := store.events, First(sub.checkpoint, |store.events|);
    ghost var before := sub.checkpoint;
    delivered := [];
    while true
      invariant store.events == log
      invariant start <= First(sub.checkpoint, |log|)
      invariant delivered == log[start..First(sub.checkpoint, |log|)]
      invariant sub.checkpoint == if delivered == [] then before else Some(First(sub.checkpoint, |log|) - 1)
      decreases |log| - First(sub.checkpoint, |log|)
    {
      PollAdvances(log, sub.checkpoint, sub.batchSize);
      ghost var lo := First(sub.checkpoint, |log|);
      var events := sub.Poll(store);
      if events == [] {
        return;
      }
      var error := sub.Acknowledge(events[|events| - 1].metadata.globalPosition);
      assert log[start..lo] + log[lo..lo + |events|] == log[start..lo + |events|];
      delivered := delivered + events;
    }
  }
}
