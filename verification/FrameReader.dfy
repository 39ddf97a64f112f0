/** The loops that write and read journal frames, proved against the format. */
module FrameReader {
  import opened Common
  import opened Stores
  import opened Frames
  import Crc32c

  // ---- Writing --------------------------------------------------------------------

  ghost function After(done: Bytes, rest: Result<Bytes>): Result<Bytes> {
    if rest.Ok? then Ok(done + rest.value) else rest
  }

  lemma AfterStep(done: Bytes, length: Bytes, encoded: Bytes, rest: Result<Bytes>)
    ensures rest.Ok? ==> After(done, Ok(length + (encoded + rest.value))) == After(done + length + encoded, rest)
  {
    if rest.Ok? {
      assert done + (length + (encoded + rest.value)) == (done + length + encoded) + rest.value;
    }
  }

  method WritePayload<E>(codec: EventCodec<E>, events: Log<E>) returns (r: Result<Bytes>)
    ensures r == Payload(codec, events)
  {
    hide Le;
    if |events| >= U32_LIMIT {
      return Err(CapacityOverflow);
    }
    var payload := Le(|events|, 4);
    assert events[0..] == events;
    for i := 0 to |events|
      invariant Payload(codec, events) == After(payload, PutEvents(codec, events[i..]))
    {
      assert events[i..][1..] == events[i + 1..];
      var encoded := codec.encode(events[i]);
      if encoded.Err? {
        return Err(encoded.error);
      }
      if |encoded.value| >= U64_LIMIT {
        return Err(CapacityOverflow);
      }
      AfterStep(payload, Le(|encoded.value|, 8), encoded.value, PutEvents(codec, events[i + 1..]));
      payload := payload + Le(|encoded.value|, 8);
      payload := payload + encoded.value;
    }
    assert payload + [] == payload;
    r := Ok(payload);
  }

  /** One frame for the whole batch, with the table-driven checksum. */
  method WriteBatch<E>(codec: EventCodec<E>, events: Log<E>, max: nat) returns (r: Result<Bytes>)
    ensures r == EncodeBatch(codec, events, max)
  {
    hide Payload, Le, CrcBytes, Crc32c.Reference;
    var written := WritePayload(codec, events);
    if written.Err? {
      return Err(written.error);
    }
    var payload := written.value;
    if |payload| > max {
      return Err(InvalidValue);
    }
    if |payload| >= U64_LIMIT {
      return Err(CapacityOverflow);
    }
    var frame := BATCH_MAGIC;
    frame := frame + Le(|payload|, 8);
    var crc := Crc32c.Checksum(payload);
    frame := frame + CrcBytes(crc);
    frame := frame + payload;
    r := Ok(frame);
  }

  // ---- Reading a payload ---------------------------------------------------------------

  /** A little-endian number of `width` bytes at the cursor, when the payload is long enough. */
  function NumberAt(payload: Bytes, cursor: nat, width: nat): (r: Option<nat>)
    ensures r.Some? ==> cursor + width <= |payload|
  {
    if cursor + width > |payload| then None else Some(FromLe(payload[cursor..cursor + width]))
  }

  method ReadPayload<E>(codec: EventCodec<E>, payload: Bytes, offset: nat) returns (r: Result<Log<E>>)
    ensures r == DecodePayload(codec, payload, offset)
  {
    hide FromLe;
    var count := NumberAt(payload, 0, 4);
    if count.None? {
      return Err(CorruptLog(offset));
    }
    var cursor, events := 4, [];
    for i := 0 to count.value
      invariant cursor <= |payload|
      invariant DecodePayload(codec, payload, offset)
             == TakeEvents(codec, payload[cursor..], count.value - i, events, offset)
    {
      var rest := payload[cursor..];
      var length := NumberAt(payload, cursor, 8);
      if length.None? {
        return Err(CorruptLog(offset));
      }
      assert payload[cursor..cursor + 8] == rest[..8];
      cursor := cursor + 8;
      var end := cursor + length.value;
      if end > |payload| {
        return Err(CorruptLog(offset));
      }
      assert payload[cursor..end] == rest[8..8 + length.value];
      assert payload[end..] == rest[8 + length.value..];
      var event := codec.decode(payload[cursor..end]);
      if event.Err? {
        return Err(event.error);
      }
      events := events + [event.value];
      cursor := end;
    }
    if cursor != |payload| {
      return Err(CorruptLog(offset));
    }
    r := Ok(events);
  }

  // ---- Reading a file that arrives in pieces --------------------------------------------

  /** Does some read fail under this schedule? */
  ghost predicate MayFail(schedule: nat -> Option<nat>) {
    exists call: nat :: schedule(call).None?
  }

  /** A reader over `data`.  Call number `t` fails, or delivers up to `schedule(t).value + 1` bytes;
      every way of splitting the file into short reads is some schedule. */
  class Source {
    const data: Bytes
    const schedule: nat -> Option<nat>
    var at: nat
    var calls: nat
    var failed: bool

    ghost predicate Valid()
      reads this
    {
      at <= |data|
    }

    constructor (data: Bytes, schedule: nat -> Option<nat>)
      ensures Valid() && this.data == data && this.schedule == schedule && at == 0 && !failed
    {
      this.data, this.schedule := data, schedule;
      at, calls, failed := 0, 0, false;
    }

    /** Fills a part of `output` behind `start`; zero bytes mean the end of the file. */
    method Read(output: array<byte>, start: nat) returns (r: Result<nat>)
      requires Valid() && !failed && start < output.Length
      modifies this, output
      ensures Valid() && failed == r.Err?
      ensures r.Err? ==> r == Err(Io) && MayFail(schedule)
      ensures r.Ok? ==>
                && r.value <= output.Length - start
                && at == old(at) + r.value
                && (r.value == 0 <==> old(at) == |data|)
                && output[..start] == old(output[..start])
                && output[start..start + r.value] == data[old(at)..at]
    {
      var step := schedule(calls);
      calls := calls + 1;
      if step.None? {
        failed := true;
        return Err(Io);
      }
      var limit := if output.Length - start <= |data| - at then output.Length - start else |data| - at;
      var n := if step.value + 1 <= limit then step.value + 1 else limit;
      var from := at;
      forall i | start <= i < start + n {
        output[i] := data[from + i - start];
      }
      at := at + n;
      r := Ok(n);
    }
  }

  datatype ReadState = Filled | Short | AtEnd

  /** What reading `wanted` bytes meets when `available` are left. */
  function Meets(available: nat, wanted: nat): ReadState {
    if wanted <= available then Filled else if available == 0 then AtEnd else Short
  }

  /** However the reads are split, the outcome depends only on what is left of the file. */
  method ReadOrPartial(source: Source, output: array<byte>) returns (r: Result<ReadState>)
    requires source.Valid() && !source.failed
    modifies source, output
    ensures source.Valid() && source.failed == r.Err?
    ensures r.Err? ==> r == Err(Io) && MayFail(source.schedule)
    ensures r.Ok? ==> r.value == Meets(|source.data| - old(source.at), output.Length)
    ensures r.Ok? && r.value.Filled? ==>
              && source.at == old(source.at) + output.Length
              && output[..] == source.data[old(source.at)..source.at]
  {
    var read := 0;
    ghost var from := source.at;
    while read < output.Length
      invariant read <= output.Length && source.Valid() && !source.failed
      invariant source.at == from + read
      invariant output[..read] == source.data[from..source.at]
    {
      ghost var before := source.at;
      var count := source.Read(output, read);
      if count.Err? {
        return Err(count.error);
      }
      if count.value == 0 {
        return Ok(if read == 0 then AtEnd else Short);
      }
      assert output[..read + count.value] == output[..read] + output[read..read + count.value];
      assert source.data[from..source.at] == source.data[from..before] + source.data[before..source.at];
      read := read + count.value;
    }
    assert output[..read] == output[..];
    r := Ok(Filled);
  }

  // ---- Scanning -----------------------------------------------------------------------------

  /** The frame test, in the order in which a reader meets header and payload. */
  lemma PeekInParts(r: Bytes, max: nat)
    ensures r == [] ==> PeekFrame(r, max) == NoFrame
    ensures 0 < |r| < BATCH_HEADER_LEN ==> PeekFrame(r, max) == Cut
    ensures |r| >= BATCH_HEADER_LEN ==>
              var header := r[..BATCH_HEADER_LEN];
              var length := FromLe(header[4..12]);
              PeekFrame(r, max) ==
              if header[..4] != BATCH_MAGIC || length > max then Corrupt
              else if |r| - BATCH_HEADER_LEN < length then Cut
              else
                var payload := r[BATCH_HEADER_LEN..BATCH_HEADER_LEN + length];
                if Crc32c.Reference(payload) != ReadCrc(header[12..16]) then Corrupt else Whole(payload)
  {
    hide FromLe, ReadCrc, Crc32c.Reference;
    if |r| >= BATCH_HEADER_LEN {
      var header := r[..BATCH_HEADER_LEN];
      assert header[..4] == r[..4] && header[4..12] == r[4..12] && header[12..16] == r[12..16];
    }
  }

  /** One turn of the scanning loop: the payload of the next frame, or where the scan ends. */
  datatype Turn = More(payload: Bytes) | End | Tail | Bad(error: Error)

  function TurnOf(p: Peek, offset: nat): Turn {
    match p
    case NoFrame => End
    case Cut => Tail
    case Corrupt => Bad(CorruptLog(offset))
    case Whole(payload) => More(payload)
  }

  method ReadFrame(source: Source, max: nat) returns (turn: Turn)
    requires source.Valid() && !source.failed
    modifies source
    ensures source.Valid()
    ensures source.failed ==> turn == Bad(Io) && MayFail(source.schedule)
    ensures !source.failed ==> turn == TurnOf(PeekFrame(source.data[old(source.at)..], max), old(source.at))
    ensures turn.More? ==> source.at == old(source.at) + BATCH_HEADER_LEN + |turn.payload|
  {
    hide PeekFrame, FromLe, ReadCrc, Crc32c.Reference;
    var offset := source.at;
    ghost var r := source.data[offset..];
    PeekInParts(r, max);
    var header := new byte[BATCH_HEADER_LEN];
    var state := ReadOrPartial(source, header);
    if state.Err? {
      return Bad(state.error);
    }
    if state.value.AtEnd? {
      return End;
    }
    if state.value.Short? {
      return Tail;
    }
    assert header[..] == r[..BATCH_HEADER_LEN];
    if header[..][..4] != BATCH_MAGIC {
      return Bad(CorruptLog(offset));
    }
    var length := FromLe(header[..][4..12]);
    if length > max {
      return Bad(CorruptLog(offset));
    }
    var expected := ReadCrc(header[..][12..16]);
    var payload := new byte[length];
    state := ReadOrPartial(source, payload);
    if state.Err? {
      return Bad(state.error);
    }
    if !state.value.Filled? {
      return Tail;
    }
    assert payload[..] == r[BATCH_HEADER_LEN..BATCH_HEADER_LEN + length];
    var crc := Crc32c.Checksum(payload[..]);
    if crc != expected {
      return Bad(CorruptLog(offset));
    }
    turn := More(payload[..]);
  }

  /** Scanning computes the format's meaning of the file, whatever the schedule of short reads; only a
      failing read makes a difference. */
  method ScanFile<E>(source: Source, codec: EventCodec<E>, max: nat) returns (r: ScanOutcome<E>)
    requires source.Valid() && source.at == 0 && !source.failed
    modifies source
    ensures source.failed ==> r == Failed(Io) && MayFail(source.schedule)
    ensures !source.failed ==> r == Scan(codec, source.data, max)
  {
    hide PeekFrame, DecodePayload;
    ghost var file := source.data;
    var header := new byte[|FILE_HEADER|];
    var state := ReadOrPartial(source, header);
    if state.Err? || !state.value.Filled? {
      return Failed(Io);
    }
    assert header[..] == file[..|FILE_HEADER|];
    if header[..] != FILE_HEADER {
      return Failed(CorruptLog(0));
    }
    var events: Log<E>, offset := [], |FILE_HEADER|;
    while true
      invariant source.Valid() && !source.failed && source.at == offset
      invariant Scan(codec, file, max) == ScanFrom(codec, file[offset..], max, offset, events)
      decreases |file| - offset
    {
      var turn := ReadFrame(source, max);
      match turn {
        case End => return Complete(events, offset);
        case Tail => return PartialTail(events, offset);
        case Bad(e) => return Failed(e);
        case More(payload) =>
          var batch := ReadPayload(codec, payload, offset);
          if batch.Err? {
            return Failed(batch.error);
          }
          var size := BATCH_HEADER_LEN + |payload|;
          if offset + size >= U64_LIMIT {
            return Failed(CapacityOverflow);
          }
          assert file[offset..][size..] == file[offset + size..];
          events := events + batch.value;
          offset := offset + size;
      }
    }
  }
}
