/** The durable store: prepare, write one frame, commit; rollback, recovery, and runs with crashes. */
module FileStores {
  import opened Common
  import opened Stores
  import Replay
  import opened Frames
  import FrameReader

  datatype RecoveryPolicy = Strict | TruncatePartialTail

  /** How the operating system answers the three calls of a rollback. */
  datatype Undo = Undo(truncates: bool, seeks: bool, syncs: bool)

  /** How it answers during one append: are the length query and the seek served, how many bytes does it
      take before a write fails, does it sync, and what becomes of a rollback. */
  datatype Device = Device(stats: bool, seeks: bool, writes: nat, syncs: bool, undo: Undo)

  /** The journal file, its length after the last commit, the events held in memory, how many leading bytes
      of the file survive whatever happens, and the tails that were cut off but may come back in a crash
      because no sync has followed. */
  datatype State<E> = State(file: Bytes, durableLen: nat, log: Log<E>, synced: nat, lingering: seq<Bytes>)

  datatype Outcome<E> = Outcome(result: Result<Log<E>>, state: State<E>)

  // ---- Appending --------------------------------------------------------------------

  function Min(a: nat, b: nat): nat {
    if a <= b then a else b
  }

  function SetLen(file: Bytes, n: nat): Bytes {
    if n <= |file| then file[..n] else file + seq(n - |file|, _ => 0)
  }

  /** A file length is a 64-bit number, so a file has room for only so much more. */
  function Room(file: Bytes): nat {
    if |file| < U64_LIMIT then U64_LIMIT - 1 - |file| else 0
  }

  /** The bytes of a frame that reach the file. */
  function Accepted(file: Bytes, frame: Bytes, device: Device): (n: nat)
    ensures n <= |frame|
  {
    Min(|frame|, Min(device.writes, Room(file)))
  }

  function CutOff(file: Bytes, n: nat): Bytes {
    if n <= |file| then file[n..] else []
  }

  /** Truncate, seek, sync: until the sync has succeeded, the tail may come back. */
  function RolledBack<E>(s: State<E>, undo: Undo): State<E> {
    if !undo.truncates then s
    else
      var t := s.(file := SetLen(s.file, s.durableLen), lingering := s.lingering + [CutOff(s.file, s.durableLen)]);
      if undo.seeks && undo.syncs then Synced(t) else t
  }

  function Synced<E>(s: State<E>): State<E> {
    s.(synced := |s.file|, lingering := [])
  }

  /** Writing one batch: the error, if any, and the new state of the file. */
  function Persist<E>(codec: EventCodec<E>, max: nat, s: State<E>, batch: Log<E>, device: Device): (Option<Error>, State<E>) {
    if batch == [] then (None, s)
    else if !device.stats then (Some(Io), s)
    else if |s.file| != s.durableLen then (Some(ExternalModification), s)
    else
      match EncodeBatch(codec, batch, max)
      case Err(e) => (Some(e), s)
      case Ok(frame) =>
        if !device.seeks then (Some(Io), s)
        else
          var n := Accepted(s.file, frame, device);
          if n < |frame| || !device.syncs then
            (Some(Io), RolledBack(s.(file := s.file + frame[..n]), device.undo))
          else (None, Synced(s.(file := s.file + frame, durableLen := s.durableLen + |frame|)))
  }

  function AppendTo<E>(codec: EventCodec<E>, max: nat, s: State<E>, op: Op<E>, device: Device): Outcome<E> {
    match Prepare(s.log, op.stream, op.expected, op.events)
    case Err(e) => Outcome(Err(e), s)
    case Ok(batch) =>
      var (error, t) := Persist(codec, max, s, batch, device);
      if error.Some? then Outcome(Err(error.value), t) else Outcome(Ok(batch), t.(log := s.log + batch))
  }

  // ---- Opening ------------------------------------------------------------------------------

  /** What opening a file gives, and what it leaves in the file. */
  datatype Opening<E> = Opening(result: Result<Log<E>>, file: Bytes)

  function Restored<E>(events: Log<E>): Result<Log<E>> {
    match FirstMisfit([], events)
    case Some(e) => Err(e)
    case None => Ok(events)
  }

  function Open<E>(codec: EventCodec<E>, max: nat, policy: RecoveryPolicy, file: Bytes): Opening<E> {
    if max < 4 then Opening(Err(InvalidValue), file)
    else
      var start := if file == [] then FILE_HEADER else file;
      match Scan(codec, start, max)
      case Failed(e) => Opening(Err(e), start)
      case Complete(events, _) => Opening(Restored(events), start)
      case PartialTail(events, durableLen) =>
        if policy.Strict? then Opening(Err(CorruptLog(durableLen)), start)
        else Opening(Restored(events), SetLen(start, durableLen))
  }

  function StartOf(file: Bytes): Bytes {
    if file == [] then FILE_HEADER else file
  }

  /** When opening refuses a file before looking at its events. */
  lemma OpenRefuses<E>(codec: EventCodec<E>, max: nat, policy: RecoveryPolicy, file: Bytes)
    ensures max < 4 ==> Open(codec, max, policy, file) == Opening(Err(InvalidValue), file)
    ensures max >= 4 && Scan(codec, StartOf(file), max).Failed? ==>
              Open(codec, max, policy, file) == Opening(Err(Scan(codec, StartOf(file), max).error), StartOf(file))
    ensures max >= 4 && policy.Strict? && Scan(codec, StartOf(file), max).PartialTail? ==>
              Open(codec, max, policy, file) == Opening(Err(CorruptLog(Scan(codec, StartOf(file), max).durableLen)), StartOf(file))
  {
    hide Scan;
  }

  /** Otherwise it keeps the durable part of the file, and accepts its events exactly if they are well
      numbered. */
  lemma OpenDecides<E>(codec: EventCodec<E>, max: nat, policy: RecoveryPolicy, file: Bytes)
    requires max >= 4 && !Scan(codec, StartOf(file), max).Failed?
    requires Scan(codec, StartOf(file), max).PartialTail? ==> policy.TruncatePartialTail?
    ensures var scanned, o := Scan(codec, StartOf(file), max), Open(codec, max, policy, file);
            && o.file <= StartOf(file) && |o.file| == scanned.durableLen
            && (WellNumbered(scanned.events) ==> o.result == Ok(scanned.events))
            && (!WellNumbered(scanned.events) ==> o.result.Err? && FirstMisfit([], scanned.events) == Some(o.result.error))
  {
    hide Scan, WellNumbered, FirstMisfit;
    var scanned := Scan(codec, StartOf(file), max);
    RestoreAcceptsNumbered(scanned.events);
    if scanned.PartialTail? {
      TruncationCompletes(codec, StartOf(file), max);
    } else {
      CompleteFile(codec, StartOf(file), max, []);
    }
  }

  // ---- Recovery from one interrupted write -----------------------------------------------------

  ghost predicate Committed<E>(codec: EventCodec<E>, max: nat, front: Bytes, log: Log<E>) {
    && |FILE_HEADER| <= |front| < U64_LIMIT
    && Scan(codec, front, max) == Complete(log, |front|)
    && WellNumbered(log)
  }

  lemma CommittedOpens<E>(codec: EventCodec<E>, max: nat, policy: RecoveryPolicy, front: Bytes, log: Log<E>)
    requires max >= 4 && Committed(codec, max, front, log)
    ensures Open(codec, max, policy, front) == Opening(Ok(log), front)
  {
    hide Scan, WellNumbered, FirstMisfit;
    RestoreAcceptsNumbered(log);
  }

  lemma CommittedGrows<E(!new)>(codec: EventCodec<E>, max: nat, front: Bytes, log: Log<E>, batch: Log<E>, frame: Bytes)
    requires Faithful(codec) && Committed(codec, max, front, log) && WellNumbered(log + batch)
    requires EncodeBatch(codec, batch, max) == Ok(frame) && |front| + |frame| < U64_LIMIT
    ensures Committed(codec, max, front + frame, log + batch)
  {
    hide Scan, WellNumbered, EncodeBatch, Faithful;
    AppendScans(codec, front, batch, max);
  }

  /** A write cut after `k` bytes is recovered as all of the batch or none of it. */
  lemma CutRecovers<E(!new)>(codec: EventCodec<E>, max: nat, front: Bytes, log: Log<E>, batch: Log<E>, frame: Bytes, k: nat)
    requires Faithful(codec) && max >= 4 && Committed(codec, max, front, log) && WellNumbered(log + batch)
    requires EncodeBatch(codec, batch, max) == Ok(frame) && k <= |frame| && |front| + k < U64_LIMIT
    ensures Open(codec, max, TruncatePartialTail, front + frame[..k])
         == if k == |frame| then Opening(Ok(log + batch), front + frame) else Opening(Ok(log), front)
    ensures Open(codec, max, Strict, front + frame[..k])
         == if 0 < k < |frame| then Opening(Err(CorruptLog(|front|)), front + frame[..k])
            else Open(codec, max, TruncatePartialTail, front + frame[..k])
  {
    hide Scan, WellNumbered, EncodeBatch, Faithful, FirstMisfit;
    if k == |frame| {
      assert frame[..k] == frame;
      CommittedGrows(codec, max, front, log, batch, frame);
      CommittedOpens(codec, max, Strict, front + frame, log + batch);
      CommittedOpens(codec, max, TruncatePartialTail, front + frame, log + batch);
    } else {
      CutScans(codec, front, batch, max, k);
      CommittedOpens(codec, max, Strict, front, log);
      CommittedOpens(codec, max, TruncatePartialTail, front, log);
      assert front + frame[..0] == front;
      assert (front + frame[..k])[..|front|] == front;
    }
  }

  // ---- What every step keeps -----------------------------------------------------------------------

  /** `tail` is the start of the frame of `batch`, which could follow `log`. */
  ghost predicate Pending<E>(codec: EventCodec<E>, max: nat, log: Log<E>, batch: Log<E>, tail: Bytes) {
    WellNumbered(log + batch) && EncodeBatch(codec, batch, max).Ok? && tail <= EncodeBatch(codec, batch, max).value
  }

  /** What may stand behind the durable part: nothing, or the start of some frame. */
  ghost predicate IsTail<E(!new)>(codec: EventCodec<E>, max: nat, front: Bytes, log: Log<E>, tail: Bytes) {
    |front| + |tail| < U64_LIMIT && (tail == [] || exists batch :: Pending(codec, max, log, batch, tail))
  }

  ghost predicate Sound<E(!new)>(codec: EventCodec<E>, max: nat, s: State<E>) {
    && s.durableLen <= s.synced <= |s.file|
    && var front := s.file[..s.durableLen];
       && Committed(codec, max, front, s.log)
       && IsTail(codec, max, front, s.log, s.file[s.durableLen..])
       && forall i | 0 <= i < |s.lingering| :: IsTail(codec, max, front, s.log, s.lingering[i])
  }

  lemma CleanIsSound<E(!new)>(codec: EventCodec<E>, max: nat, file: Bytes, log: Log<E>)
    requires Committed(codec, max, file, log)
    ensures Sound(codec, max, State(file, |file|, log, |file|, []))
  {
    hide Scan, WellNumbered, Pending;
    assert file[..|file|] == file && file[|file|..] == [];
  }

  lemma SoundIsCommitted<E(!new)>(codec: EventCodec<E>, max: nat, s: State<E>)
    requires Sound(codec, max, s) && |s.file| == s.durableLen
    ensures Committed(codec, max, s.file, s.log) && s.synced == |s.file|
  {
    hide Committed, IsTail;
    assert s.file[..s.durableLen] == s.file;
  }

  lemma FrameIsTail<E(!new)>(codec: EventCodec<E>, max: nat, front: Bytes, log: Log<E>, batch: Log<E>, frame: Bytes, n: nat)
    requires WellNumbered(log + batch) && EncodeBatch(codec, batch, max) == Ok(frame)
    requires n <= |frame| && |front| + n < U64_LIMIT
    ensures IsTail(codec, max, front, log, frame[..n])
  {
    hide WellNumbered, EncodeBatch;
    assert Pending(codec, max, log, batch, frame[..n]);
  }

  lemma PrefixIsTail<E(!new)>(codec: EventCodec<E>, max: nat, front: Bytes, log: Log<E>, tail: Bytes, n: nat)
    requires IsTail(codec, max, front, log, tail) && n <= |tail|
    ensures IsTail(codec, max, front, log, tail[..n])
  {
    hide WellNumbered, EncodeBatch;
    if tail != [] {
      var batch :| Pending(codec, max, log, batch, tail);
      assert Pending(codec, max, log, batch, tail[..n]);
    }
  }

  /** A failed write of `n` bytes, rolled back in whatever way. */
  lemma RollbackIsSound<E(!new)>(codec: EventCodec<E>, max: nat, s: State<E>, batch: Log<E>, frame: Bytes, n: nat, undo: Undo)
    requires Sound(codec, max, s) && |s.file| == s.durableLen && WellNumbered(s.log + batch)
    requires EncodeBatch(codec, batch, max) == Ok(frame) && n <= |frame| && |s.file| + n < U64_LIMIT
    ensures Sound(codec, max, RolledBack(s.(file := s.file + frame[..n]), undo))
  {
    hide Committed, Pending, WellNumbered, EncodeBatch, IsTail;
    var w := s.(file := s.file + frame[..n]);
    SoundIsCommitted(codec, max, s);
    FrameIsTail(codec, max, s.file, s.log, batch, frame, n);
    assert s.file[..s.durableLen] == s.file && s.file[s.durableLen..] == [];
    assert w.file[..w.durableLen] == s.file && w.file[w.durableLen..] == frame[..n];
  }

  lemma PersistKeepsSound<E(!new)>(codec: EventCodec<E>, max: nat, s: State<E>, batch: Log<E>, device: Device)
    requires Faithful(codec) && Sound(codec, max, s) && |s.file| == s.durableLen && WellNumbered(s.log + batch)
    ensures var (error, t) := Persist(codec, max, s, batch, device);
            Sound(codec, max, if error.Some? then t else t.(log := s.log + batch))
  {
    hide Faithful, Sound, WellNumbered, EncodeBatch, Scan, RolledBack, Committed;
    SoundIsCommitted(codec, max, s);
    if batch == [] {
      assert s.log + batch == s.log;
    } else if EncodeBatch(codec, batch, max).Ok? {
      var frame := EncodeBatch(codec, batch, max).value;
      var n := Accepted(s.file, frame, device);
      CommittedLength(codec, max, s.file, s.log);
      RollbackIsSound(codec, max, s, batch, frame, n, device.undo);
      if n == |frame| {
        CommittedGrows(codec, max, s.file, s.log, batch, frame);
        CleanIsSound(codec, max, s.file + frame, s.log + batch);
      }
    }
  }

  lemma CommittedLength<E>(codec: EventCodec<E>, max: nat, file: Bytes, log: Log<E>)
    requires Committed(codec, max, file, log)
    ensures |file| < U64_LIMIT
  {}

  /** Every append, whatever the device does, keeps the file recoverable and in step with memory. */
  lemma AppendKeepsSound<E(!new)>(codec: EventCodec<E>, max: nat, s: State<E>, op: Op<E>, device: Device)
    requires Faithful(codec) && Sound(codec, max, s)
    ensures Sound(codec, max, AppendTo(codec, max, s, op, device).state)
  {
    hide Faithful, Sound, Committed, WellNumbered, EncodeBatch, Prepare, Scan, RolledBack;
    var prepared := Prepare(s.log, op.stream, op.expected, op.events);
    if prepared.Ok? {
      var batch := prepared.value;
      if |s.file| == s.durableLen {
        SoundIsCommitted(codec, max, s);
        CommittedNumbered(codec, max, s.file, s.log);
        PrepareKeepsNumbering(s.log, op.stream, op.expected, op.events);
        PersistKeepsSound(codec, max, s, batch, device);
      } else if batch == [] {
        assert s.log + batch == s.log;
      }
    }
  }

  // ---- What one append does, call by call ------------------------------------------------------------

  /** The rollback, if there is one, runs to its end. */
  predicate Completes(undo: Undo) {
    undo.truncates && undo.seeks && undo.syncs
  }

  /** File and durable length agree, and nothing cut off can come back. */
  predicate InStep<E>(s: State<E>) {
    |s.file| == s.durableLen && s.synced == |s.file| && s.lingering == []
  }

  /** A failed append whose rollback completed has left no trace: the file and the log are what they were,
      and once a byte was written the file is synced, with nothing cut off that could come back. */
  lemma FailedAppendLeavesNoTrace<E(!new)>(codec: EventCodec<E>, max: nat, s: State<E>, op: Op<E>, device: Device)
    requires Sound(codec, max, s) && |s.file| == s.durableLen
    requires AppendTo(codec, max, s, op, device).result.Err? && Completes(device.undo)
    ensures var t := AppendTo(codec, max, s, op, device).state;
            && t.file == s.file && t.log == s.log && t.durableLen == s.durableLen
            && (t == s || (t.synced == |t.file| && t.lingering == []))
            && (WritesBytes(codec, max, s, op, device) ==> t.synced == |t.file| && t.lingering == [])
            && (InStep(s) ==> t == s)
  {
    hide Sound, Prepare, EncodeBatch;
    var prepared := Prepare(s.log, op.stream, op.expected, op.events);
    if prepared.Ok? && EncodeBatch(codec, prepared.value, max).Ok? {
      var frame := EncodeBatch(codec, prepared.value, max).value;
      assert (s.file + frame[..Accepted(s.file, frame, device)])[..|s.file|] == s.file;
    }
  }

  /** Does the append get as far as writing to the file? */
  predicate WritesBytes<E>(codec: EventCodec<E>, max: nat, s: State<E>, op: Op<E>, device: Device) {
    var prepared := Prepare(s.log, op.stream, op.expected, op.events);
    && prepared.Ok? && prepared.value != []
    && EncodeBatch(codec, prepared.value, max).Ok?
    && |s.file| == s.durableLen && device.stats && device.seeks
    && device.writes > 0 && |s.file| + 1 < U64_LIMIT
  }

  /** A rollback that stops half-way: without truncation the tail stays in the file, and without the sync
      behind it a crash may still bring the tail back. */
  lemma IncompleteRollback<E>(s: State<E>, tail: Bytes, undo: Undo)
    requires |s.file| == s.durableLen && !Completes(undo)
    ensures var w := s.(file := s.file + tail);
            RolledBack(w, undo) == if undo.truncates then s.(lingering := s.lingering + [tail]) else w
  {
    assert (s.file + tail)[..|s.file|] == s.file && (s.file + tail)[|s.file|..] == tail;
  }

  /** Why an append fails: its events cannot be prepared; the file is not as long as it was left, which is
      reported without touching it; the batch cannot be encoded; or the device fails. */
  lemma AppendRefusals<E>(codec: EventCodec<E>, max: nat, s: State<E>, op: Op<E>, device: Device, batch: Log<E>)
    ensures Prepare(s.log, op.stream, op.expected, op.events).Err? ==>
              AppendTo(codec, max, s, op, device) == Outcome(Prepare(s.log, op.stream, op.expected, op.events), s)
    ensures Prepare(s.log, op.stream, op.expected, op.events) == Ok(batch) && batch != [] ==>
              && (!device.stats ==> AppendTo(codec, max, s, op, device) == Outcome(Err(Io), s))
              && (device.stats && |s.file| != s.durableLen ==>
                    AppendTo(codec, max, s, op, device) == Outcome(Err(ExternalModification), s))
              && (device.stats && |s.file| == s.durableLen && EncodeBatch(codec, batch, max).Err? ==>
                    AppendTo(codec, max, s, op, device) == Outcome(Err(EncodeBatch(codec, batch, max).error), s))
              && (|s.file| == s.durableLen && EncodeBatch(codec, batch, max).Ok? && AppendTo(codec, max, s, op, device).result.Err? ==>
                    AppendTo(codec, max, s, op, device).result == Err(Io))
  {
    hide Prepare, EncodeBatch, RolledBack;
  }

  /** A device that answers every call of an append of `n` bytes. */
  predicate Healthy(device: Device, n: nat) {
    device.stats && device.seeks && device.writes >= n && device.syncs
  }

  /** A file in step accepts the next append: on a healthy device a batch that can be prepared and encoded,
      and whose frame fits, is acknowledged, written behind the file, synced, and committed to memory. */
  lemma HealthyAppendSucceeds<E>(codec: EventCodec<E>, max: nat, s: State<E>, op: Op<E>, device: Device, batch: Log<E>, frame: Bytes)
    requires |s.file| == s.durableLen && Prepare(s.log, op.stream, op.expected, op.events) == Ok(batch) && batch != []
    requires EncodeBatch(codec, batch, max) == Ok(frame) && |s.file| + |frame| < U64_LIMIT && Healthy(device, |frame|)
    ensures AppendTo(codec, max, s, op, device)
         == Outcome(Ok(batch), State(s.file + frame, |s.file| + |frame|, s.log + batch, |s.file| + |frame|, []))
  {
    hide Prepare, EncodeBatch;
  }

  /** An append of nothing is acknowledged without touching the file, whatever the device. */
  lemma EmptyAppendSucceeds<E>(codec: EventCodec<E>, max: nat, s: State<E>, op: Op<E>, device: Device)
    requires Prepare(s.log, op.stream, op.expected, op.events) == Ok([])
    ensures AppendTo(codec, max, s, op, device) == Outcome(Ok([]), s)
  {
    hide Prepare;
    assert s.log + [] == s.log;
  }

  /** Only a synced frame is acknowledged. */
  lemma AcknowledgedIsSynced<E>(codec: EventCodec<E>, max: nat, s: State<E>, op: Op<E>, device: Device)
    requires AppendTo(codec, max, s, op, device).result.Ok?
    ensures var r := AppendTo(codec, max, s, op, device);
            && Prepare(s.log, op.stream, op.expected, op.events) == r.result
            && r.state.log == s.log + r.result.value
            && (r.result.value != [] ==>
                  && EncodeBatch(codec, r.result.value, max).Ok?
                  && r.state.file == s.file + EncodeBatch(codec, r.result.value, max).value
                  && r.state.durableLen == |r.state.file| == r.state.synced && r.state.lingering == []
                  && device.stats && device.seeks && device.syncs)
  {
    hide Prepare, EncodeBatch;
  }

  lemma CommittedNumbered<E>(codec: EventCodec<E>, max: nat, file: Bytes, log: Log<E>)
    requires Committed(codec, max, file, log)
    ensures WellNumbered(log)
  {}

  // ---- Crashes -----------------------------------------------------------------------------------------

  /** The file during an append, `k` bytes into the frame. */
  function InFlight<E>(codec: EventCodec<E>, max: nat, s: State<E>, op: Op<E>, k: nat): Bytes {
    match Prepare(s.log, op.stream, op.expected, op.events)
    case Err(_) => s.file
    case Ok(batch) =>
      if batch == [] || |s.file| != s.durableLen then s.file
      else
        match EncodeBatch(codec, batch, max)
        case Err(_) => s.file
        case Ok(frame) => s.file + frame[..Min(k, Min(|frame|, Room(s.file)))]
  }

  /** How much of `file` is left when `keep` bytes outlast a crash: never less than what is synced. */
  function Kept(file: Bytes, synced: nat, keep: nat): (n: nat)
    ensures n <= |file|
  {
    Min(|file|, if keep < synced then synced else keep)
  }

  /** The file a crash leaves when it strikes during an append: what was written, or the durable part with
      a tail that came back, up to bytes that had not been synced. */
  function CrashDisk<E>(codec: EventCodec<E>, max: nat, s: State<E>, op: Op<E>, k: nat, keep: nat, back: Option<nat>): Bytes {
    var file := if back.Some? && back.value < |s.lingering| then SetLen(s.file, s.durableLen) + s.lingering[back.value]
                else InFlight(codec, max, s, op, k);
    file[..Kept(file, s.synced, keep)]
  }

  /** Crash atomicity of one append to a store whose file is in step: reopening finds the acknowledged
      events, or those and the whole batch, and strict mode refuses exactly a non-empty incomplete rest. */
  lemma CrashIsAtomic<E(!new)>(codec: EventCodec<E>, max: nat, s: State<E>, op: Op<E>, k: nat, keep: nat)
    requires Faithful(codec) && max >= 4 && Sound(codec, max, s) && |s.file| == s.durableLen
    ensures var disk := CrashDisk(codec, max, s, op, k, keep, None);
            var prepared := Prepare(s.log, op.stream, op.expected, op.events);
            var written := disk[|s.file|..];
            var whole := prepared.Ok? && prepared.value != [] && EncodeBatch(codec, prepared.value, max) == Ok(written);
            && s.file <= disk
            && Open(codec, max, TruncatePartialTail, disk)
               == (if whole then Opening(Ok(s.log + prepared.value), disk) else Opening(Ok(s.log), s.file))
            && Open(codec, max, Strict, disk)
               == (if written != [] && !whole then Opening(Err(CorruptLog(|s.file|)), disk)
                   else Open(codec, max, TruncatePartialTail, disk))
  {
    hide Faithful, Sound, WellNumbered, EncodeBatch, Prepare, Scan, Open;
    SoundIsCommitted(codec, max, s);
    var prepared := Prepare(s.log, op.stream, op.expected, op.events);
    var disk := CrashDisk(codec, max, s, op, k, keep, None);
    CommittedOpens(codec, max, Strict, s.file, s.log);
    CommittedOpens(codec, max, TruncatePartialTail, s.file, s.log);
    if prepared.Ok? && prepared.value != [] && EncodeBatch(codec, prepared.value, max).Ok? {
      var frame := EncodeBatch(codec, prepared.value, max).value;
      var m := Min(k, Min(|frame|, Room(s.file)));
      var n := Kept(s.file + frame[..m], s.synced, keep) - |s.file|;
      assert (s.file + frame[..m])[..|s.file| + n] == s.file + frame[..n];
      PrepareKeepsNumbering(s.log, op.stream, op.expected, op.events);
      CutRecovers(codec, max, s.file, s.log, prepared.value, frame, n);
      assert disk[|s.file|..] == frame[..n];
      assert n == |frame| ==> frame[..n] == frame;
      assert n < |frame| ==> frame[..n] != frame;
      assert s.file + frame[..0] == s.file;
    } else {
      assert disk == s.file && disk[|s.file|..] == [];
    }
  }

  /** Equal starts are equal frames, and equal frames are equal batches. */
  lemma SameFrame<E(!new)>(codec: EventCodec<E>, max: nat, a: Log<E>, b: Log<E>)
    requires Faithful(codec) && EncodeBatch(codec, a, max).Ok? && EncodeBatch(codec, b, max).Ok?
    requires EncodeBatch(codec, a, max).value <= EncodeBatch(codec, b, max).value
    ensures a == b
  {
    hide Faithful, Payload, DecodePayload, PeekFrame, Frame;
    var fa, fb := EncodeBatch(codec, a, max).value, EncodeBatch(codec, b, max).value;
    FramePeeks(Payload(codec, a).value, max, fb[|fa|..]);
    FramePeeks(Payload(codec, b).value, max, []);
    assert fb == fa + fb[|fa|..] && fb + [] == fb;
    PayloadRoundTrip(codec, a, 0);
    PayloadRoundTrip(codec, b, 0);
  }

  /** The tail is no frame, or exactly the frame of `gain`. */
  ghost predicate WholeOrNone<E>(codec: EventCodec<E>, max: nat, tail: Bytes, gain: Log<E>) {
    gain == [] || EncodeBatch(codec, gain, max) == Ok(tail)
  }

  /** Whatever tail a crash leaves behind the durable part, reopening succeeds and finds the committed
      events, followed by the batch of the tail if it is whole. */
  lemma TailReopens<E(!new)>(codec: EventCodec<E>, max: nat, front: Bytes, log: Log<E>, tail: Bytes) returns (t: State<E>, gain: Log<E>)
    requires Faithful(codec) && max >= 4 && Committed(codec, max, front, log) && IsTail(codec, max, front, log, tail)
    ensures Reopen(codec, max, front + tail) == Ok(t) && Sound(codec, max, t)
    ensures t.log == log + gain && WholeOrNone(codec, max, tail, gain)
  {
    hide Faithful, Sound, Committed, WellNumbered, EncodeBatch, Scan, Open;
    gain := [];
    assert log + gain == log;
    t := State(front, |front|, log, |front|, []);
    if tail == [] {
      assert front + tail == front;
      CommittedOpens(codec, max, TruncatePartialTail, front, log);
      ReopenIsSound(codec, max, front, front, log);
    } else {
      var batch :| Pending(codec, max, log, batch, tail);
      var frame, n := EncodeBatch(codec, batch, max).value, |tail|;
      assert tail == frame[..n];
      CutRecovers(codec, max, front, log, batch, frame, n);
      if n == |frame| {
        gain := batch;
        assert frame[..n] == frame;
        CommittedGrows(codec, max, front, log, batch, frame);
        ReopenIsSound(codec, max, front + tail, front + tail, log + batch);
        t := State(front + tail, |front + tail|, log + batch, |front + tail|, []);
      } else {
        ReopenIsSound(codec, max, front + tail, front, log);
      }
    }
  }

  /** A store whose truncation failed accepts nothing more, but its file is still recoverable: the failed
      batch is found whole or not at all. */
  lemma WedgedRecovers<E(!new)>(codec: EventCodec<E>, max: nat, s: State<E>, op: Op<E>, k: nat, keep: nat, device: Device)
    returns (t: State<E>, gain: Log<E>)
    requires Faithful(codec) && max >= 4 && Sound(codec, max, s) && |s.file| != s.durableLen
    ensures AppendTo(codec, max, s, op, device).state == s
    ensures op.events != [] ==> AppendTo(codec, max, s, op, device).result.Err?
    ensures var disk := CrashDisk(codec, max, s, op, k, keep, None);
            && s.durableLen <= |disk| && disk <= s.file
            && Reopen(codec, max, disk) == Ok(t) && Sound(codec, max, t)
            && t.log == s.log + gain && WholeOrNone(codec, max, disk[s.durableLen..], gain)
  {
    hide Faithful, WellNumbered, EncodeBatch, Prepare, Scan, Open, Committed, IsTail;
    var prepared := Prepare(s.log, op.stream, op.expected, op.events);
    if prepared.Ok? {
      PreparedStream(s.log, op.stream, op.expected, op.events);
      assert prepared.value == [] ==> s.log + prepared.value == s.log;
    }
    var n := Kept(s.file, s.synced, keep);
    var front, tail := s.file[..s.durableLen], s.file[s.durableLen..];
    PrefixIsTail(codec, max, front, s.log, tail, n - s.durableLen);
    t, gain := TailReopens(codec, max, front, s.log, tail[..n - s.durableLen]);
    assert s.file[..n] == front + tail[..n - s.durableLen];
    assert s.file[..n][s.durableLen..] == tail[..n - s.durableLen];
  }

  // ---- Whole runs -------------------------------------------------------------------------------------------

  /** A step of a run: an append that returns, or an append during which the process dies, followed by
      reopening the file. */
  datatype Step<E> = Call(op: Op<E>, device: Device) | Crash(op: Op<E>, k: nat, keep: nat, back: Option<nat>)

  function Reopen<E>(codec: EventCodec<E>, max: nat, file: Bytes): Result<State<E>> {
    var o := Open(codec, max, TruncatePartialTail, file);
    if o.result.Err? then Err(o.result.error) else Ok(State(o.file, |o.file|, o.result.value, |o.file|, []))
  }

  function Next<E>(codec: EventCodec<E>, max: nat, s: State<E>, step: Step<E>): Result<State<E>> {
    match step
    case Call(op, device) => Ok(AppendTo(codec, max, s, op, device).state)
    case Crash(op, k, keep, back) => Reopen(codec, max, CrashDisk(codec, max, s, op, k, keep, back))
  }

  function RunSteps<E>(codec: EventCodec<E>, max: nat, s: State<E>, steps: seq<Step<E>>): Result<State<E>> {
    if steps == [] then Ok(s)
    else
      var t :- RunSteps(codec, max, s, steps[..|steps| - 1]);
      Next(codec, max, t, steps[|steps| - 1])
  }

  /** The frame of `gain` stands whole at the start of `bytes`. */
  ghost predicate WholeIn<E>(codec: EventCodec<E>, max: nat, gain: Log<E>, bytes: Bytes) {
    EncodeBatch(codec, gain, max).Ok? && EncodeBatch(codec, gain, max).value <= bytes
  }

  /** What a step may add to the log: an acknowledged batch and nothing else when the call returned; after a
      crash the whole batch in flight, a whole batch left by a failed rollback, in the file or cut off
      without a sync, or nothing. */
  ghost predicate Accounts<E>(codec: EventCodec<E>, max: nat, s: State<E>, step: Step<E>, gain: Log<E>)
    requires s.durableLen <= |s.file|
  {
    match step
    case Call(op, device) =>
      var r := AppendTo(codec, max, s, op, device).result;
      gain == if r.Ok? then r.value else []
    case Crash(op, _, _, _) =>
      || gain == []
      || Prepare(s.log, op.stream, op.expected, op.events) == Ok(gain)
      || WholeIn(codec, max, gain, s.file[s.durableLen..])
      || exists i :: 0 <= i < |s.lingering| && WholeIn(codec, max, gain, s.lingering[i])
  }

  /** One step, from any sound state: it succeeds, is sound again, and the log only grows by what
      `Accounts` allows. */
  ghost predicate StepsTo<E(!new)>(codec: EventCodec<E>, max: nat, s: State<E>, step: Step<E>, t: State<E>, gain: Log<E>) {
    && Sound(codec, max, s) && Sound(codec, max, t)
    && Next(codec, max, s, step) == Ok(t)
    && t.log == s.log + gain
    && Accounts(codec, max, s, step, gain)
  }

  lemma CallSteps<E(!new)>(codec: EventCodec<E>, max: nat, s: State<E>, op: Op<E>, device: Device) returns (gain: Log<E>)
    requires Faithful(codec) && Sound(codec, max, s)
    ensures StepsTo(codec, max, s, Call(op, device), AppendTo(codec, max, s, op, device).state, gain)
  {
    hide Faithful, Committed, IsTail, Prepare, EncodeBatch;
    AppendKeepsSound(codec, max, s, op, device);
    var r := AppendTo(codec, max, s, op, device).result;
    gain := if r.Ok? then r.value else [];
    assert s.log + [] == s.log;
  }

  lemma ReopenIsSound<E(!new)>(codec: EventCodec<E>, max: nat, file: Bytes, front: Bytes, log: Log<E>)
    requires Open(codec, max, TruncatePartialTail, file) == Opening(Ok(log), front)
    requires Committed(codec, max, front, log)
    ensures Reopen(codec, max, file) == Ok(State(front, |front|, log, |front|, []))
    ensures Sound(codec, max, State(front, |front|, log, |front|, []))
  {
    hide Open, Committed, Sound;
    CleanIsSound(codec, max, front, log);
  }

  /** The tail a crash leaves, cut from the file, from a tail that came back, or from the frame in flight. */
  lemma CrashTail<E(!new)>(codec: EventCodec<E>, max: nat, s: State<E>, op: Op<E>, k: nat, keep: nat, back: Option<nat>)
    returns (whole: Bytes, n: nat)
    requires Sound(codec, max, s)
    ensures n <= |whole| && IsTail(codec, max, s.file[..s.durableLen], s.log, whole)
    ensures CrashDisk(codec, max, s, op, k, keep, back) == s.file[..s.durableLen] + whole[..n]
    ensures whole == s.file[s.durableLen..] || whole in s.lingering
            || (Prepare(s.log, op.stream, op.expected, op.events).Ok?
                && EncodeBatch(codec, Prepare(s.log, op.stream, op.expected, op.events).value, max).Ok?
                && whole <= EncodeBatch(codec, Prepare(s.log, op.stream, op.expected, op.events).value, max).value)
  {
    hide Committed, IsTail, WellNumbered, EncodeBatch, Prepare;
    var front := s.file[..s.durableLen];
    CommittedNumbered(codec, max, front, s.log);
    CommittedLength(codec, max, front, s.log);
    var file := InFlight(codec, max, s, op, k);
    whole := s.file[s.durableLen..];
    if back.Some? && back.value < |s.lingering| {
      whole := s.lingering[back.value];
      file := front + whole;
    } else if file != s.file {
      var batch := Prepare(s.log, op.stream, op.expected, op.events).value;
      var frame := EncodeBatch(codec, batch, max).value;
      var m := Min(k, Min(|frame|, Room(s.file)));
      whole := frame[..m];
      PrepareKeepsNumbering(s.log, op.stream, op.expected, op.events);
      assert front == s.file;
      FrameIsTail(codec, max, front, s.log, batch, frame, m);
    }
    assert file == front + whole;
    var kept := Kept(file, s.synced, keep);
    assert |front| <= kept;
    n := kept - |front|;
    assert file[..kept] == front + whole[..n];
  }

  lemma CrashSteps<E(!new)>(codec: EventCodec<E>, max: nat, s: State<E>, op: Op<E>, k: nat, keep: nat, back: Option<nat>)
    returns (t: State<E>, gain: Log<E>)
    requires Faithful(codec) && max >= 4 && Sound(codec, max, s)
    ensures StepsTo(codec, max, s, Crash(op, k, keep, back), t, gain)
  {
    hide Faithful, Committed, IsTail, WellNumbered, EncodeBatch, Prepare, Open, CrashDisk, Reopen;
    var front := s.file[..s.durableLen];
    var whole, n := CrashTail(codec, max, s, op, k, keep, back);
    PrefixIsTail(codec, max, front, s.log, whole, n);
    t, gain := TailReopens(codec, max, front, s.log, whole[..n]);
    if gain != [] {
      assert EncodeBatch(codec, gain, max).value <= whole;
      if whole != s.file[s.durableLen..] && whole !in s.lingering {
        SameFrame(codec, max, gain, Prepare(s.log, op.stream, op.expected, op.events).value);
      }
    }
  }

  lemma StepIsAtomic<E(!new)>(codec: EventCodec<E>, max: nat, s: State<E>, step: Step<E>) returns (t: State<E>, gain: Log<E>)
    requires Faithful(codec) && max >= 4 && Sound(codec, max, s)
    ensures StepsTo(codec, max, s, step, t, gain)
  {
    hide Faithful, Sound, StepsTo, CrashDisk, AppendTo;
    match step {
      case Call(op, device) =>
        gain := CallSteps(codec, max, s, op, device);
        t := AppendTo(codec, max, s, op, device).state;
      case Crash(op, k, keep, back) =>
        t, gain := CrashSteps(codec, max, s, op, k, keep, back);
    }
  }

  /** The gains of a whole run, one for every step. */
  ghost predicate Accounted<E(!new)>(codec: EventCodec<E>, max: nat, s: State<E>, steps: seq<Step<E>>, gains: seq<Log<E>>)
    requires |gains| == |steps|
  {
    forall i | 0 <= i < |steps| :: AccountsAfter(codec, max, RunSteps(codec, max, s, steps[..i]), steps[i], gains[i])
  }

  /** The state before the step is sound, and `gain` is what the step may add. */
  ghost predicate AccountsAfter<E(!new)>(codec: EventCodec<E>, max: nat, before: Result<State<E>>, step: Step<E>, gain: Log<E>) {
    before.Ok? && Sound(codec, max, before.value) && Accounts(codec, max, before.value, step, gain)
  }

  /** Durability over whole runs: in any mix of appends, device failures, failed rollbacks and crashes,
      every reopening succeeds, and the log is what it was plus, step by step, whole batches: each
      acknowledged one, and nothing of a failed call unless its rollback did not complete. */
  lemma {:induction false} RunsAreAtomic<E(!new)>(codec: EventCodec<E>, max: nat, s: State<E>, steps: seq<Step<E>>)
    requires Faithful(codec) && max >= 4 && Sound(codec, max, s)
    ensures RunSteps(codec, max, s, steps).Ok? && Sound(codec, max, RunSteps(codec, max, s, steps).value)
    ensures exists gains: seq<Log<E>> | |gains| == |steps| ::
              && Accounted(codec, max, s, steps, gains)
              && RunSteps(codec, max, s, steps).value.log == s.log + Flatten(gains)
    decreases |steps|
  {
    hide Faithful, Sound, Next, Accounts;
    if steps == [] {
      var none: seq<Log<E>> := [];
      assert s.log + Flatten(none) == s.log;
      assert Accounted(codec, max, s, steps, none);
    } else {
      var front, step := steps[..|steps| - 1], steps[|steps| - 1];
      RunsAreAtomic(codec, max, s, front);
      var gains: seq<Log<E>> :| |gains| == |front| && Accounted(codec, max, s, front, gains)
                     && RunSteps(codec, max, s, front).value.log == s.log + Flatten(gains);
      var t, gain := StepIsAtomic(codec, max, RunSteps(codec, max, s, front).value, step);
      AccountedStep(codec, max, s, steps, gains, gain);
    }
  }

  /** Every rollback of the run completes. */
  predicate RollbacksComplete<E>(steps: seq<Step<E>>) {
    forall i | 0 <= i < |steps| && steps[i].Call? :: Completes(steps[i].device.undo)
  }

  /** What a step may add when every rollback completes: an acknowledged batch, or after a crash the whole
      batch in flight or nothing.  A failed call adds nothing, now or later. */
  ghost predicate AddsOwnBatch<E>(codec: EventCodec<E>, max: nat, s: State<E>, step: Step<E>, gain: Log<E>) {
    match step
    case Call(op, device) =>
      var r := AppendTo(codec, max, s, op, device).result;
      gain == if r.Ok? then r.value else []
    case Crash(op, _, _, _) =>
      gain == [] || Prepare(s.log, op.stream, op.expected, op.events) == Ok(gain)
  }

  lemma StepStaysInStep<E(!new)>(codec: EventCodec<E>, max: nat, s: State<E>, step: Step<E>, t: State<E>, gain: Log<E>)
    requires StepsTo(codec, max, s, step, t, gain) && InStep(s) && (step.Call? ==> Completes(step.device.undo))
    ensures InStep(t) && AddsOwnBatch(codec, max, s, step, gain)
  {
    hide Sound, AppendTo, Prepare, Payload;
    match step {
      case Call(op, device) =>
        if AppendTo(codec, max, s, op, device).result.Err? {
          FailedAppendLeavesNoTrace(codec, max, s, op, device);
        } else {
          AcknowledgedIsSynced(codec, max, s, op, device);
          if AppendTo(codec, max, s, op, device).result.value == [] {
            EmptyAppendSucceeds(codec, max, s, op, device);
          }
        }
      case Crash(op, k, keep, back) =>
        assert s.file[s.durableLen..] == [];
    }
  }

  /** Before step `i`: in step, and the step adds its own batch or nothing. */
  ghost predicate ExactAt<E(!new)>(codec: EventCodec<E>, max: nat, before: Result<State<E>>, step: Step<E>, gain: Log<E>) {
    before.Ok? && InStep(before.value) && AddsOwnBatch(codec, max, before.value, step, gain)
  }

  ghost predicate ExactGains<E(!new)>(codec: EventCodec<E>, max: nat, s: State<E>, steps: seq<Step<E>>, gains: seq<Log<E>>)
    requires |gains| == |steps|
  {
    forall i | 0 <= i < |steps| :: ExactAt(codec, max, RunSteps(codec, max, s, steps[..i]), steps[i], gains[i])
  }

  /** When every rollback completes, the file is in step after every step, so the next append is accepted,
      and the log holds the acknowledged batches and, of crashed appends, whole batches: a failed call
      leaves nothing behind for any later crash. */
  lemma {:induction false} CompletedRollbacksAreExact<E(!new)>(codec: EventCodec<E>, max: nat, s: State<E>, steps: seq<Step<E>>)
    requires Faithful(codec) && max >= 4 && Sound(codec, max, s) && InStep(s) && RollbacksComplete(steps)
    ensures RunSteps(codec, max, s, steps).Ok?
    ensures Sound(codec, max, RunSteps(codec, max, s, steps).value) && InStep(RunSteps(codec, max, s, steps).value)
    ensures exists gains: seq<Log<E>> | |gains| == |steps| ::
              && ExactGains(codec, max, s, steps, gains)
              && RunSteps(codec, max, s, steps).value.log == s.log + Flatten(gains)
    decreases |steps|
  {
    hide Faithful, Sound, Next, AddsOwnBatch, Accounts, InStep, Completes;
    if steps == [] {
      var none: seq<Log<E>> := [];
      assert s.log + Flatten(none) == s.log;
      assert ExactGains(codec, max, s, steps, none);
    } else {
      var front, step := steps[..|steps| - 1], steps[|steps| - 1];
      CompletedRollbacksAreExact(codec, max, s, front);
      var gains: seq<Log<E>> :| |gains| == |front| && ExactGains(codec, max, s, front, gains)
                     && RunSteps(codec, max, s, front).value.log == s.log + Flatten(gains);
      var before := RunSteps(codec, max, s, front).value;
      var t, gain := StepIsAtomic(codec, max, before, step);
      StepStaysInStep(codec, max, before, step, t, gain);
      ExactStep(codec, max, s, steps, gains, gain);
    }
  }

  lemma ExactStep<E(!new)>(codec: EventCodec<E>, max: nat, s: State<E>, steps: seq<Step<E>>, gains: seq<Log<E>>, gain: Log<E>)
    requires steps != [] && |gains| == |steps| - 1 && ExactGains(codec, max, s, steps[..|steps| - 1], gains)
    requires ExactAt(codec, max, RunSteps(codec, max, s, steps[..|steps| - 1]), steps[|steps| - 1], gain)
    ensures ExactGains(codec, max, s, steps, gains + [gain])
    ensures s.log + Flatten(gains + [gain]) == (s.log + Flatten(gains)) + gain
  {
    hide ExactAt, RunSteps;
    var front, all := steps[..|steps| - 1], gains + [gain];
    assert all[..|all| - 1] == gains;
    forall i | 0 <= i < |steps| ensures ExactAt(codec, max, RunSteps(codec, max, s, steps[..i]), steps[i], all[i]) {
      if i < |front| {
        assert front[..i] == steps[..i] && front[i] == steps[i] && all[i] == gains[i];
        assert ExactAt(codec, max, RunSteps(codec, max, s, front[..i]), front[i], gains[i]);
      }
    }
  }

  lemma AccountedStep<E(!new)>(codec: EventCodec<E>, max: nat, s: State<E>, steps: seq<Step<E>>, gains: seq<Log<E>>, gain: Log<E>)
    requires steps != [] && |gains| == |steps| - 1 && Accounted(codec, max, s, steps[..|steps| - 1], gains)
    requires AccountsAfter(codec, max, RunSteps(codec, max, s, steps[..|steps| - 1]), steps[|steps| - 1], gain)
    ensures Accounted(codec, max, s, steps, gains + [gain])
    ensures s.log + Flatten(gains + [gain]) == (s.log + Flatten(gains)) + gain
  {
    hide AccountsAfter, RunSteps;
    var front, all := steps[..|steps| - 1], gains + [gain];
    assert all[..|all| - 1] == gains;
    forall i | 0 <= i < |steps|
      ensures AccountsAfter(codec, max, RunSteps(codec, max, s, steps[..i]), steps[i], all[i])
    {
      if i < |front| {
        assert front[..i] == steps[..i] && front[i] == steps[i] && all[i] == gains[i];
        assert AccountsAfter(codec, max, RunSteps(codec, max, s, front[..i]), front[i], gains[i]);
      }
    }
  }

  /** A new file opens as an empty store, from which every run starts. */
  lemma NewFileIsSound<E(!new)>(codec: EventCodec<E>, max: nat)
    requires max >= 4
    ensures Reopen(codec, max, []) == Ok(State(FILE_HEADER, |FILE_HEADER|, [], |FILE_HEADER|, []))
    ensures Sound(codec, max, State(FILE_HEADER, |FILE_HEADER|, [], |FILE_HEADER|, []))
  {
    hide Scan, FirstMisfit, Sound;
    EmptyJournalScans(codec, max);
    var none: Log<E> := [];
    RestoreAcceptsNumbered(none);
    CleanIsSound(codec, max, FILE_HEADER, none);
  }

  // ---- The store object -------------------------------------------------------------------------------------

  class JournalFile {
    var bytes: Bytes
    var synced: nat
    var lingering: seq<Bytes>

    /** A file found on disk: all of it has survived, and nothing else. */
    constructor (bytes: Bytes)
      ensures this.bytes == bytes && synced == |bytes| && lingering == []
    {
      this.bytes, this.synced, this.lingering := bytes, |bytes|, [];
    }

    method SetLength(n: nat)
      modifies this
      ensures bytes == SetLen(old(bytes), n) && synced == old(synced)
      ensures lingering == old(lingering) + [CutOff(old(bytes), n)]
    {
      lingering := lingering + [CutOff(bytes, n)];
      bytes := SetLen(bytes, n);
    }

    method Sync()
      modifies this
      ensures bytes == old(bytes) && synced == |bytes| && lingering == []
    {
      synced, lingering := |bytes|, [];
    }
  }

  class FileEventStore<E(!new)> {
    const file: JournalFile
    const codec: EventCodec<E>
    const max: nat
    const inner: InMemoryStore<E>
    var durableLen: nat

    ghost predicate Valid()
      reads this, inner
    {
      inner.Valid()
    }

    ghost function Value(): State<E>
      reads this, file, inner
    {
      State(file.bytes, durableLen, inner.events, file.synced, file.lingering)
    }

    constructor (file: JournalFile, codec: EventCodec<E>, max: nat, inner: InMemoryStore<E>, durableLen: nat)
      requires inner.Valid()
      ensures Valid() && this.file == file && this.codec == codec && this.max == max && this.inner == inner
      ensures Value() == State(file.bytes, durableLen, inner.events, file.synced, file.lingering)
    {
      this.file, this.codec, this.max, this.inner, this.durableLen := file, codec, max, inner, durableLen;
    }

    /** Truncate, seek, sync, giving up at the first that fails; all three must succeed for no error. */
    method RollbackTail(undo: Undo) returns (error: Option<Error>)
      modifies file
      ensures Value() == RolledBack(old(Value()), undo)
      ensures error == if undo.truncates && undo.seeks && undo.syncs then None else Some(Io)
    {
      if !undo.truncates {
        return Some(Io);
      }
      file.SetLength(durableLen);
      if !undo.seeks {
        return Some(Io);
      }
      if !undo.syncs {
        return Some(Io);
      }
      file.Sync();
      return None;
    }

    method PersistBatch(batch: Log<E>, device: Device) returns (error: Option<Error>)
      modifies this, file
      ensures (error, Value()) == Persist(codec, max, old(Value()), batch, device)
    {
      hide EncodeBatch;
      if batch == [] {
        return None;
      }
      if !device.stats {
        return Some(Io);
      }
      if |file.bytes| != durableLen {
        return Some(ExternalModification);
      }
      var encoded := FrameReader.WriteBatch(codec, batch, max);
      if encoded.Err? {
        return Some(encoded.error);
      }
      if !device.seeks {
        return Some(Io);
      }
      var frame := encoded.value;
      var n := Accepted(file.bytes, frame, device);
      file.bytes := file.bytes + frame[..n];
      if n < |frame| {
        error := RollbackTail(device.undo);
        return Some(Io);
      }
      assert frame[..n] == frame;
      if !device.syncs {
        error := RollbackTail(device.undo);
        return Some(Io);
      }
      file.Sync();
      durableLen := durableLen + |frame|;
      return None;
    }

    /** Prepare, persist, commit: memory changes only after the frame is on disk. */
    method AppendEvents(stream: Id, expected: ExpectedVersion, batch: seq<NewEvent<E>>, device: Device) returns (r: Result<Log<E>>)
      requires Valid()
      modifies this, file, inner
      ensures Valid()
      ensures Outcome(r, Value()) == AppendTo(codec, max, old(Value()), Op(stream, expected, batch), device)
    {
      hide WellNumbered, IndexesStreams, Replay.EventIds, Prepare, Persist;
      r := inner.PrepareAppend(stream, expected, batch);
      if r.Err? {
        return;
      }
      var error := PersistBatch(r.value, device);
      if error.Some? {
        return Err(error.value);
      }
      PrepareKeepsNumbering(inner.events, stream, expected, batch);
      PreparedStream(inner.events, stream, expected, batch);
      inner.CommitPrepared(r.value);
    }
  }

  /** Opening: the file is read through an arbitrary schedule of short reads; unless a read fails, the
      store holds exactly what the value-level function says. */
  method OpenStore<E(!new)>(file: JournalFile, codec: EventCodec<E>, max: nat, policy: RecoveryPolicy, schedule: nat -> Option<nat>)
    returns (r: Result<FileEventStore<E>>, readFailed: bool)
    requires file.synced == |file.bytes| && file.lingering == []
    modifies file
    ensures readFailed ==>
              && r == Err(Io) && FrameReader.MayFail(schedule)
              && file.bytes == if old(file.bytes) == [] then FILE_HEADER else old(file.bytes)
    ensures !readFailed ==>
              var o := Open(codec, max, policy, old(file.bytes));
              && file.bytes == o.file
              && (if o.result.Err? then r == Err(o.result.error) else r.Ok?)
    ensures !readFailed && r.Ok? ==>
              var o := Open(codec, max, policy, old(file.bytes));
              && fresh(r.value) && fresh(r.value.inner) && r.value.Valid()
              && r.value.file == file && r.value.codec == codec && r.value.max == max
              && r.value.Value() == State(o.file, |o.file|, o.result.value, |o.file|, [])
  {
    hide Scan, WellNumbered, IndexesStreams, Replay.EventIds, FirstMisfit;
    readFailed := false;
    if max < 4 {
      return Err(InvalidValue), false;
    }
    if |file.bytes| == 0 {
      file.bytes := FILE_HEADER;
      file.Sync();
    }
    var source := new FrameReader.Source(file.bytes, schedule);
    var outcome := FrameReader.ScanFile(source, codec, max);
    if source.failed {
      return Err(Io), true;
    }
    if outcome.Failed? {
      return Err(outcome.error), false;
    }
    if outcome.PartialTail? {
      TruncationCompletes(codec, file.bytes, max);
      if policy.Strict? {
        return Err(CorruptLog(outcome.durableLen)), false;
      }
      file.SetLength(outcome.durableLen);
      file.Sync();
    } else {
      CompleteFile(codec, file.bytes, max, []);
    }
    var inner := new InMemoryStore<E>();
    var misfit := inner.Restore(outcome.events);
    if misfit.Some? {
      return Err(misfit.value), false;
    }
    RestoreAcceptsNumbered(outcome.events);
    var store := new FileEventStore(file, codec, max, inner, outcome.durableLen);
    r := Ok(store);
  }
}
