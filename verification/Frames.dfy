/** The journal format: a file header followed by checksummed batch frames. */
module Frames {
  import opened Common
  import opened Domain
  import opened Stores
  import Crc32c

  type Bytes = seq<byte>

  /** The event codec, of which only its round trip is assumed. */
  datatype EventCodec<!E> = EventCodec(encode: StoredEvent<E> -> Result<Bytes>, decode: Bytes -> Result<StoredEvent<E>>)

  ghost predicate Faithful<E(!new)>(codec: EventCodec<E>) {
    forall e :: codec.encode(e).Ok? ==> codec.decode(codec.encode(e).value) == Ok(e)
  }

  const FILE_HEADER: Bytes := [0x57, 0x4d, 0x45, 0x4d, 0x4c, 0x4f, 0x47, 0x31]
  const BATCH_MAGIC: Bytes := [0x42, 0x41, 0x54, 0x31]
  const BATCH_HEADER_LEN: nat := 16
  const U32_LIMIT: int := 0x1_0000_0000

  // ---- Little-endian numbers -----------------------------------------------------------

  function Pow256(k: nat): (r: nat)
    ensures r > 0
  {
    if k == 0 then 1 else 256 * Pow256(k - 1)
  }

  function Le(n: nat, k: nat): (b: Bytes)
    ensures |b| == k
    decreases k
  {
    if k == 0 then [] else [ToByte(n % 256)] + Le(n / 256, k - 1)
  }

  function FromLe(b: Bytes): nat
    decreases |b|
  {
    if b == [] then 0 else FromByte(b[0]) + 256 * FromLe(b[1..])
  }

  lemma {:induction false} LeRoundTrip(n: nat, k: nat)
    requires n < Pow256(k)
    ensures FromLe(Le(n, k)) == n
    decreases k
  {
    hide ToByte, FromByte;
    if k > 0 {
      LeRoundTrip(n / 256, k - 1);
      assert Le(n, k)[1..] == Le(n / 256, k - 1);
    }
  }

  lemma Widths()
    ensures Pow256(4) == U32_LIMIT && Pow256(8) == U64_LIMIT
  {
    assert Pow256(2) == 0x1_0000;
    assert Pow256(6) == 0x1_0000_0000_0000;
  }

  function CrcBytes(c: bv32): (b: Bytes)
    ensures |b| == 4
  {
    [(c & 0xff) as bv8, ((c >> 8) & 0xff) as bv8, ((c >> 16) & 0xff) as bv8, ((c >> 24) & 0xff) as bv8]
  }

  function ReadCrc(b: Bytes): bv32
    requires |b| == 4
  {
    (b[0] as bv32) | ((b[1] as bv32) << 8) | ((b[2] as bv32) << 16) | ((b[3] as bv32) << 24)
  }

  lemma CrcRoundTrip(c: bv32)
    ensures ReadCrc(CrcBytes(c)) == c
  {}

  // ---- Encoding a batch -------------------------------------------------------------------

  function PutEvents<E>(codec: EventCodec<E>, events: Log<E>): Result<Bytes>
    decreases |events|
  {
    if events == [] then Ok([])
    else
      var encoded :- codec.encode(events[0]);
      if |encoded| >= U64_LIMIT then Err(CapacityOverflow)
      else
        var rest :- PutEvents(codec, events[1..]);
        Ok(Le(|encoded|, 8) + (encoded + rest))
  }

  function Payload<E>(codec: EventCodec<E>, events: Log<E>): Result<Bytes> {
    if |events| >= U32_LIMIT then Err(CapacityOverflow)
    else
      var body :- PutEvents(codec, events);
      Ok(Le(|events|, 4) + body)
  }

  function Frame(payload: Bytes): Bytes {
    BATCH_MAGIC + Le(|payload|, 8) + CrcBytes(Crc32c.Reference(payload)) + payload
  }

  function EncodeBatch<E>(codec: EventCodec<E>, events: Log<E>, max: nat): Result<Bytes> {
    var payload :- Payload(codec, events);
    if |payload| > max then Err(InvalidValue)
    else if |payload| >= U64_LIMIT then Err(CapacityOverflow)
    else Ok(Frame(payload))
  }

  // ---- Decoding a payload ------------------------------------------------------------------------

  function TakeEvents<E>(codec: EventCodec<E>, r: Bytes, count: nat, acc: Log<E>, offset: nat): Result<Log<E>>
    decreases count
  {
    if count == 0 then (if r == [] then Ok(acc) else Err(CorruptLog(offset)))
    else if |r| < 8 then Err(CorruptLog(offset))
    else
      var length := FromLe(r[..8]);
      if 8 + length > |r| then Err(CorruptLog(offset))
      else
        var e :- codec.decode(r[8..8 + length]);
        TakeEvents(codec, r[8 + length..], count - 1, acc + [e], offset)
  }

  function DecodePayload<E>(codec: EventCodec<E>, payload: Bytes, offset: nat): Result<Log<E>> {
    if |payload| < 4 then Err(CorruptLog(offset))
    else TakeEvents(codec, payload[4..], FromLe(payload[..4]), [], offset)
  }

  lemma TakeOne<E(!new)>(codec: EventCodec<E>, e: StoredEvent<E>, encoded: Bytes, rest: Bytes, count: nat, acc: Log<E>, offset: nat)
    requires Faithful(codec) && codec.encode(e) == Ok(encoded) && |encoded| < U64_LIMIT
    ensures TakeEvents(codec, Le(|encoded|, 8) + (encoded + rest), count + 1, acc, offset)
         == TakeEvents(codec, rest, count, acc + [e], offset)
  {
    hide Pow256, Le, FromLe;
    var r := Le(|encoded|, 8) + (encoded + rest);
    Widths();
    LeRoundTrip(|encoded|, 8);
    assert r[..8] == Le(|encoded|, 8);
    assert r[8..8 + |encoded|] == encoded && r[8 + |encoded|..] == rest;
  }

  lemma {:induction false} EventsRoundTrip<E(!new)>(codec: EventCodec<E>, events: Log<E>, acc: Log<E>, offset: nat)
    requires Faithful(codec) && PutEvents(codec, events).Ok?
    ensures TakeEvents(codec, PutEvents(codec, events).value, |events|, acc, offset) == Ok(acc + events)
    decreases |events|
  {
    hide Faithful, Pow256, Le, FromLe;
    if events == [] {
      assert acc + events == acc;
    } else {
      var encoded := codec.encode(events[0]).value;
      var rest := PutEvents(codec, events[1..]).value;
      TakeOne(codec, events[0], encoded, rest, |events| - 1, acc, offset);
      EventsRoundTrip(codec, events[1..], acc + [events[0]], offset);
      assert (acc + [events[0]]) + events[1..] == acc + events;
    }
  }

  lemma PayloadRoundTrip<E(!new)>(codec: EventCodec<E>, events: Log<E>, offset: nat)
    requires Faithful(codec) && Payload(codec, events).Ok?
    ensures DecodePayload(codec, Payload(codec, events).value, offset) == Ok(events)
  {
    hide Pow256, Le, FromLe, PutEvents, TakeEvents;
    var body := PutEvents(codec, events).value;
    var payload := Le(|events|, 4) + body;
    Widths();
    LeRoundTrip(|events|, 4);
    assert payload[..4] == Le(|events|, 4) && payload[4..] == body;
    EventsRoundTrip(codec, events, [], offset);
    assert [] + events == events;
  }

  // ---- Scanning -------------------------------------------------------------------------------------

  datatype ScanOutcome<E> =
    | Complete(events: Log<E>, durableLen: nat)
    | PartialTail(events: Log<E>, durableLen: nat)
    | Failed(error: Error)

  /** The next frame, if `r` starts with a whole one. */
  datatype Peek = NoFrame | Cut | Corrupt | Whole(payload: Bytes)

  function PeekFrame(r: Bytes, max: nat): (p: Peek)
    ensures p.Whole? ==> |r| >= BATCH_HEADER_LEN + |p.payload| && p.payload == r[BATCH_HEADER_LEN..BATCH_HEADER_LEN + |p.payload|]
  {
    if r == [] then NoFrame
    else if |r| < BATCH_HEADER_LEN then Cut
    else if r[..4] != BATCH_MAGIC then Corrupt
    else
      var length := FromLe(r[4..12]);
      if length > max then Corrupt
      else if |r| - BATCH_HEADER_LEN < length then Cut
      else
        var payload := r[BATCH_HEADER_LEN..BATCH_HEADER_LEN + length];
        if Crc32c.Reference(payload) != ReadCrc(r[12..16]) then Corrupt else Whole(payload)
  }

  function ScanFrom<E>(codec: EventCodec<E>, r: Bytes, max: nat, offset: nat, events: Log<E>): ScanOutcome<E>
    decreases |r|
  {
    match PeekFrame(r, max)
    case NoFrame => Complete(events, offset)
    case Cut => PartialTail(events, offset)
    case Corrupt => Failed(CorruptLog(offset))
    case Whole(payload) =>
      match DecodePayload(codec, payload, offset)
      case Err(e) => Failed(e)
      case Ok(batch) =>
        var size := BATCH_HEADER_LEN + |payload|;
        if offset + size >= U64_LIMIT then Failed(CapacityOverflow)
        else ScanFrom(codec, r[size..], max, offset + size, events + batch)
  }

  function Scan<E>(codec: EventCodec<E>, file: Bytes, max: nat): ScanOutcome<E> {
    if |file| < |FILE_HEADER| then Failed(Io)
    else if file[..|FILE_HEADER|] != FILE_HEADER then Failed(CorruptLog(0))
    else ScanFrom(codec, file[|FILE_HEADER|..], max, |FILE_HEADER|, [])
  }

  // ---- Laws of the frame ---------------------------------------------------------------------------

  /** A written frame is recognised, whatever follows it. */
  lemma FramePeeks(payload: Bytes, max: nat, more: Bytes)
    requires |payload| <= max && |payload| < U64_LIMIT
    ensures PeekFrame(Frame(payload) + more, max) == Whole(payload)
    ensures |Frame(payload)| == BATCH_HEADER_LEN + |payload|
    ensures (Frame(payload) + more)[BATCH_HEADER_LEN + |payload|..] == more
  {
    hide Pow256, Le, FromLe, CrcBytes, ReadCrc, Crc32c.Reference;
    var r := Frame(payload) + more;
    Widths();
    LeRoundTrip(|payload|, 8);
    CrcRoundTrip(Crc32c.Reference(payload));
    assert r[..4] == BATCH_MAGIC;
    assert r[4..12] == Le(|payload|, 8);
    assert r[12..16] == CrcBytes(Crc32c.Reference(payload));
    assert r[16..16 + |payload|] == payload;
  }

  /** A frame cut short anywhere is seen as cut, never as something else. */
  lemma CutFramePeeks(payload: Bytes, max: nat, k: nat)
    requires |payload| <= max && |payload| < U64_LIMIT && 0 < k < |Frame(payload)|
    ensures PeekFrame(Frame(payload)[..k], max) == Cut
  {
    hide Pow256, Le, FromLe, CrcBytes, ReadCrc, Crc32c.Reference;
    if k >= 16 {
      var r := Frame(payload)[..k];
      Widths();
      LeRoundTrip(|payload|, 8);
      assert r[..4] == BATCH_MAGIC;
      assert r[4..12] == Le(|payload|, 8);
    }
  }

  /** Changing at most four neighbouring payload bytes, header kept, is always noticed. */
  lemma BurstPeeks(before: Bytes, v: Bytes, w: Bytes, after: Bytes, max: nat, more: Bytes)
    requires |v| == |w| <= 4 && v != w
    requires |before + v + after| <= max && |before + v + after| < U64_LIMIT
    ensures var payload := before + v + after;
            PeekFrame(Frame(payload)[..BATCH_HEADER_LEN] + (before + w + after) + more, max) == Corrupt
  {
    hide Pow256, Le, FromLe, CrcBytes, ReadCrc, Crc32c.Reference;
    var payload, damaged := before + v + after, before + w + after;
    var r := Frame(payload)[..BATCH_HEADER_LEN] + damaged + more;
    Widths();
    LeRoundTrip(|payload|, 8);
    CrcRoundTrip(Crc32c.Reference(payload));
    Crc32c.BurstChangesChecksum(before, v, w, after);
    assert r[..4] == BATCH_MAGIC;
    assert r[4..12] == Le(|payload|, 8);
    assert r[12..16] == CrcBytes(Crc32c.Reference(payload));
    assert r[16..16 + |payload|] == damaged;
  }

  lemma PeekPrefix(r: Bytes, max: nat, more: Bytes)
    requires PeekFrame(r, max).Whole?
    ensures PeekFrame(r + more, max) == PeekFrame(r, max)
    ensures var size := BATCH_HEADER_LEN + |PeekFrame(r, max).payload|;
            size <= |r| && (r + more)[size..] == r[size..] + more
  {
    hide FromLe, ReadCrc, Crc32c.Reference;
    var t := r + more;
    var n := BATCH_HEADER_LEN + |PeekFrame(r, max).payload|;
    assert t[..4] == r[..4] && t[4..12] == r[4..12] && t[12..16] == r[12..16];
    assert t[BATCH_HEADER_LEN..n] == r[BATCH_HEADER_LEN..n];
    assert t[n..] == r[n..] + more;
  }

  lemma PeekTruncated(r: Bytes, max: nat, n: nat)
    requires PeekFrame(r, max).Whole? && BATCH_HEADER_LEN + |PeekFrame(r, max).payload| <= n <= |r|
    ensures PeekFrame(r[..n], max) == PeekFrame(r, max)
  {
    hide FromLe, ReadCrc, Crc32c.Reference;
    var t := r[..n];
    var size := BATCH_HEADER_LEN + |PeekFrame(r, max).payload|;
    assert t[..4] == r[..4] && t[4..12] == r[4..12] && t[12..16] == r[12..16];
    assert t[BATCH_HEADER_LEN..size] == r[BATCH_HEADER_LEN..size];
  }

  // ---- The layout, byte by byte ------------------------------------------------------------------

  /** The byte of weight 256^i in `n`. */
  function ByteAt(n: nat, i: nat): (b: nat)
    ensures b < 256
    decreases i
  {
    if i == 0 then n % 256 else ByteAt(n / 256, i - 1)
  }

  /** Numbers are written with their low byte first. */
  lemma {:induction false} LittleEndian(n: nat, k: nat, i: nat)
    requires i < k
    ensures FromByte(Le(n, k)[i]) == ByteAt(n, i)
    decreases k
  {
    hide ToByte, FromByte;
    if i > 0 {
      LittleEndian(n / 256, k - 1, i - 1);
    }
  }

  /** Marker, payload length and checksum, each number with its low byte first, then the payload. */
  lemma FrameLayout(payload: Bytes)
    ensures var frame := Frame(payload);
            && |frame| == 16 + |payload|
            && frame[0] == 0x42 && frame[1] == 0x41 && frame[2] == 0x54 && frame[3] == 0x31
            && (forall i | 0 <= i < 8 :: FromByte(frame[4 + i]) == ByteAt(|payload|, i))
            && (var crc := Crc32c.Reference(payload);
                && frame[12] == (crc & 0xff) as bv8 && frame[13] == ((crc >> 8) & 0xff) as bv8
                && frame[14] == ((crc >> 16) & 0xff) as bv8 && frame[15] == ((crc >> 24) & 0xff) as bv8)
            && frame[16..] == payload
  {
    hide FromByte, Le, Crc32c.Reference, ByteAt;
    forall i | 0 <= i < 8 ensures FromByte(Frame(payload)[4 + i]) == ByteAt(|payload|, i) {
      LittleEndian(|payload|, 8, i);
      assert Frame(payload)[4 + i] == Le(|payload|, 8)[i];
    }
  }

  /** A payload starts with the number of its events in four bytes. */
  lemma PayloadLayout<E>(codec: EventCodec<E>, events: Log<E>)
    requires Payload(codec, events).Ok?
    ensures var payload := Payload(codec, events).value;
            && |payload| >= 4 && (forall i | 0 <= i < 4 :: FromByte(payload[i]) == ByteAt(|events|, i))
            && PutEvents(codec, events) == Ok(payload[4..])
  {
    hide FromByte, Le, ByteAt, PutEvents;
    forall i | 0 <= i < 4 ensures FromByte(Payload(codec, events).value[i]) == ByteAt(|events|, i) {
      LittleEndian(|events|, 4, i);
    }
  }

  /** Each event is its length in eight bytes and its encoding, and nothing follows the last. */
  lemma EventLayout<E>(codec: EventCodec<E>, events: Log<E>)
    requires PutEvents(codec, events).Ok?
    ensures events == [] ==> PutEvents(codec, events) == Ok([])
    ensures events != [] ==>
              var encoded, rest := codec.encode(events[0]), PutEvents(codec, events[1..]);
              && encoded.Ok? && rest.Ok?
              && PutEvents(codec, events).value[8..] == encoded.value + rest.value
              && forall i | 0 <= i < 8 :: FromByte(PutEvents(codec, events).value[i]) == ByteAt(|encoded.value|, i)
  {
    hide FromByte, Le, ByteAt;
    if events != [] {
      var encoded := codec.encode(events[0]).value;
      var length := Le(|encoded|, 8);
      forall i | 0 <= i < 8 ensures FromByte(length[i]) == ByteAt(|encoded|, i) {
        LittleEndian(|encoded|, 8, i);
      }
    }
  }

  /** The bytes are exactly these events: for each its length and that many bytes, which decode to it, and
      nothing behind the last. */
  ghost predicate Lists<E>(codec: EventCodec<E>, r: Bytes, events: Log<E>)
    decreases |events|
  {
    if events == [] then r == []
    else
      && |r| >= 8 && 8 + FromLe(r[..8]) <= |r|
      && codec.decode(r[8..8 + FromLe(r[..8])]) == Ok(events[0])
      && Lists(codec, r[8 + FromLe(r[..8])..], events[1..])
  }

  lemma {:induction false} TakeMeaning<E(!new)>(codec: EventCodec<E>, r: Bytes, count: nat, acc: Log<E>, offset: nat)
    ensures var t := TakeEvents(codec, r, count, acc, offset);
            && (t.Ok? ==> acc <= t.value && |t.value| == |acc| + count && Lists(codec, r, t.value[|acc|..]))
            && (t.Err? ==> t == Err(CorruptLog(offset)) || exists bytes :: codec.decode(bytes) == SameError(t))
    ensures forall events | |events| == count && Lists(codec, r, events) :: TakeEvents(codec, r, count, acc, offset) == Ok(acc + events)
    decreases count
  {
    hide FromLe;
    if count == 0 {
      forall events: Log<E> | |events| == count && Lists(codec, r, events) ensures acc == acc + events {}
    } else if |r| >= 8 && 8 + FromLe(r[..8]) <= |r| {
      var bytes, rest := r[8..8 + FromLe(r[..8])], r[8 + FromLe(r[..8])..];
      if codec.decode(bytes).Ok? {
        var e := codec.decode(bytes).value;
        TakeMeaning(codec, rest, count - 1, acc + [e], offset);
        var t := TakeEvents(codec, rest, count - 1, acc + [e], offset);
        if t.Ok? {
          assert t.value[|acc|] == (acc + [e])[|acc|] == e;
          assert t.value[|acc|..][1..] == t.value[|acc + [e]|..];
        }
        forall events | |events| == count && Lists(codec, r, events) ensures t == Ok(acc + events) {
          assert events == [e] + events[1..];
          assert acc + [e] + events[1..] == acc + events;
        }
      }
    }
  }

  /** The same error, of decoding one event. */
  function SameError<E>(r: Result<Log<E>>): Result<StoredEvent<E>>
    requires r.Err?
  {
    Err(r.error)
  }

  /** A payload decodes exactly to the events it lists, as many as its first four bytes say; everything else is
      corrupt, unless the codec refuses an event. */
  lemma PayloadMeaning<E(!new)>(codec: EventCodec<E>, payload: Bytes, offset: nat, events: Log<E>)
    ensures DecodePayload(codec, payload, offset) == Ok(events)
            <==> |payload| >= 4 && FromLe(payload[..4]) == |events| && Lists(codec, payload[4..], events)
    ensures DecodePayload(codec, payload, offset).Err? ==>
              || DecodePayload(codec, payload, offset) == Err(CorruptLog(offset))
              || exists bytes :: codec.decode(bytes) == SameError(DecodePayload(codec, payload, offset))
  {
    hide FromLe, TakeEvents, Lists;
    if |payload| >= 4 {
      TakeMeaning(codec, payload[4..], FromLe(payload[..4]), [], offset);
      var t := TakeEvents(codec, payload[4..], FromLe(payload[..4]), [], offset);
      if t.Ok? {
        assert t.value[0..] == t.value;
      }
      assert [] + events == events;
    }
  }

  /** Which batches are refused: too many events, too large an encoding, or one the codec refuses. */
  lemma BatchRefusals<E>(codec: EventCodec<E>, events: Log<E>, max: nat)
    ensures |events| >= U32_LIMIT ==> EncodeBatch(codec, events, max) == Err(CapacityOverflow)
    ensures Payload(codec, events).Err? ==> EncodeBatch(codec, events, max) == Err(Payload(codec, events).error)
    ensures Payload(codec, events).Ok? && |Payload(codec, events).value| > max ==> EncodeBatch(codec, events, max) == Err(InvalidValue)
    ensures Payload(codec, events).Ok? && |Payload(codec, events).value| <= max < U64_LIMIT ==>
              EncodeBatch(codec, events, max) == Ok(Frame(Payload(codec, events).value))
  {
    hide PutEvents, Frame;
  }

  lemma HeaderLayout()
    ensures |FILE_HEADER| == 8 && forall i | 0 <= i < 8 :: FILE_HEADER[i] as int == "WMEMLOG1"[i] as int
  {}

  /** What stands at the start of `r`, decided by its bytes alone. */
  lemma PeekCases(r: Bytes, max: nat)
    ensures PeekFrame(r, max).NoFrame? <==> r == []
    ensures |r| >= 16 ==>
              var marked := r[0] == 0x42 && r[1] == 0x41 && r[2] == 0x54 && r[3] == 0x31;
              var length := FromLe(r[4..12]);
              && (!marked || length > max ==> PeekFrame(r, max).Corrupt?)
              && (marked && length <= max && |r| < 16 + length ==> PeekFrame(r, max).Cut?)
              && (marked && length <= max && |r| >= 16 + length ==>
                    if ReadCrc(r[12..16]) == Crc32c.Reference(r[16..16 + length])
                    then PeekFrame(r, max) == Whole(r[16..16 + length])
                    else PeekFrame(r, max).Corrupt?)
    ensures 0 < |r| < 16 ==> PeekFrame(r, max).Cut?
  {
    hide FromLe, ReadCrc, Crc32c.Reference;
    if |r| >= 16 {
      assert r[..4] == [r[0], r[1], r[2], r[3]];
    }
  }

  /** A complete journal followed by sixteen bytes or more that do not start with the marker, or announce
      more than the limit, is corrupt there: nothing is taken for a partial tail and cut away. */
  lemma ForeignBytesAreCorrupt<E>(codec: EventCodec<E>, file: Bytes, max: nat, more: Bytes)
    requires Scan(codec, file, max).Complete? && |more| >= 16
    requires more[..4] != BATCH_MAGIC || FromLe(more[4..12]) > max
    ensures Scan(codec, file + more, max) == Failed(CorruptLog(|file|))
  {
    hide Scan;
    CompleteFile(codec, file, max, more);
  }

  /** A file without the header is refused: too short is an input error, another start corruption. */
  lemma HeaderRequired<E>(codec: EventCodec<E>, file: Bytes, max: nat)
    ensures |file| < 8 ==> Scan(codec, file, max) == Failed(Io)
    ensures |file| >= 8 && file[..8] != FILE_HEADER ==> Scan(codec, file, max) == Failed(CorruptLog(0))
  {}

  // ---- Laws of scanning -------------------------------------------------------------------------------

  /** A complete scan consumed everything, and scanning on is scanning what follows. */
  lemma {:induction false} ScanOn<E>(codec: EventCodec<E>, r: Bytes, max: nat, offset: nat, events: Log<E>, more: Bytes)
    requires ScanFrom(codec, r, max, offset, events).Complete?
    ensures var s := ScanFrom(codec, r, max, offset, events);
            && s.durableLen == offset + |r|
            && ScanFrom(codec, r + more, max, offset, events) == ScanFrom(codec, more, max, offset + |r|, s.events)
    decreases |r|
  {
    hide DecodePayload, PeekFrame;
    PeekEmpty(r, max);
    if r == [] {
      assert r + more == more;
    } else {
      PeekPrefix(r, max, more);
      var payload := PeekFrame(r, max).payload;
      var size := BATCH_HEADER_LEN + |payload|;
      ScanOn(codec, r[size..], max, offset + size, events + DecodePayload(codec, payload, offset).value, more);
    }
  }

  lemma PeekEmpty(r: Bytes, max: nat)
    ensures PeekFrame(r, max).NoFrame? <==> r == []
  {}

  /** A partial tail ends where a complete scan of the part before it ends. */
  lemma {:induction false} PartialIsComplete<E>(codec: EventCodec<E>, r: Bytes, max: nat, offset: nat, events: Log<E>)
    requires ScanFrom(codec, r, max, offset, events).PartialTail?
    ensures var s := ScanFrom(codec, r, max, offset, events);
            && offset <= s.durableLen < offset + |r|
            && ScanFrom(codec, r[..s.durableLen - offset], max, offset, events) == Complete(s.events, s.durableLen)
    decreases |r|
  {
    hide DecodePayload, PeekFrame;
    PeekEmpty(r, max);
    var s := ScanFrom(codec, r, max, offset, events);
    if PeekFrame(r, max).Cut? {
      assert r[..0] == [];
      PeekEmpty([], max);
    } else {
      var payload := PeekFrame(r, max).payload;
      var size := BATCH_HEADER_LEN + |payload|;
      PartialIsComplete(codec, r[size..], max, offset + size, events + DecodePayload(codec, payload, offset).value);
      var n := s.durableLen - offset;
      PeekTruncated(r, max, n);
      assert r[..n][size..] == r[size..][..n - size];
    }
  }

  /** Truncating a file to the durable length of its partial tail leaves a complete journal of the
      same events. */
  lemma TruncationCompletes<E>(codec: EventCodec<E>, file: Bytes, max: nat)
    requires Scan(codec, file, max).PartialTail?
    ensures var s := Scan(codec, file, max);
            && |FILE_HEADER| <= s.durableLen < |file|
            && Scan(codec, file[..s.durableLen], max) == Complete(s.events, s.durableLen)
  {
    hide ScanFrom;
    var n := |FILE_HEADER|;
    PartialIsComplete(codec, file[n..], max, n, []);
    var d := Scan(codec, file, max).durableLen;
    assert file[..d][..n] == file[..n] && file[..d][n..] == file[n..][..d - n];
  }

  lemma WholeFrameScans<E(!new)>(codec: EventCodec<E>, batch: Log<E>, max: nat, offset: nat, events: Log<E>, more: Bytes)
    requires Faithful(codec) && EncodeBatch(codec, batch, max).Ok?
    requires offset + |EncodeBatch(codec, batch, max).value| < U64_LIMIT
    ensures var frame := EncodeBatch(codec, batch, max).value;
            ScanFrom(codec, frame + more, max, offset, events) == ScanFrom(codec, more, max, offset + |frame|, events + batch)
  {
    hide Faithful, Payload, DecodePayload, PeekFrame, Frame;
    var payload := Payload(codec, batch).value;
    FramePeeks(payload, max, more);
    PayloadRoundTrip(codec, batch, offset);
  }

  lemma CompleteFile<E>(codec: EventCodec<E>, file: Bytes, max: nat, more: Bytes)
    requires Scan(codec, file, max).Complete?
    ensures var s := Scan(codec, file, max);
            && s.durableLen == |file|
            && Scan(codec, file + more, max) == ScanFrom(codec, more, max, |file|, s.events)
  {
    hide ScanFrom;
    var n := |FILE_HEADER|;
    ScanOn(codec, file[n..], max, n, [], more);
    assert (file + more)[..n] == file[..n] && (file + more)[n..] == file[n..] + more;
  }

  /** Appending a whole frame to a complete journal appends its events. */
  lemma AppendScans<E(!new)>(codec: EventCodec<E>, file: Bytes, batch: Log<E>, max: nat)
    requires Faithful(codec) && Scan(codec, file, max).Complete? && EncodeBatch(codec, batch, max).Ok?
    requires |file| + |EncodeBatch(codec, batch, max).value| < U64_LIMIT
    ensures var frame := EncodeBatch(codec, batch, max).value;
            Scan(codec, file + frame, max) == Complete(Scan(codec, file, max).events + batch, |file| + |frame|)
  {
    hide Scan, EncodeBatch, Faithful;
    var frame := EncodeBatch(codec, batch, max).value;
    CompleteFile(codec, file, max, frame);
    WholeFrameScans(codec, batch, max, |file|, Scan(codec, file, max).events, []);
    assert frame + [] == frame;
    PeekEmpty([], max);
  }

  /** A crash inside the frame leaves the journal as it was, with a visible partial tail. */
  lemma CutScans<E>(codec: EventCodec<E>, file: Bytes, batch: Log<E>, max: nat, k: nat)
    requires Scan(codec, file, max).Complete? && EncodeBatch(codec, batch, max).Ok?
    requires k < |EncodeBatch(codec, batch, max).value|
    ensures var s := Scan(codec, file, max);
            var tail := EncodeBatch(codec, batch, max).value[..k];
            Scan(codec, file + tail, max) == if k == 0 then s else PartialTail(s.events, |file|)
  {
    hide Scan, Payload, PeekFrame, Frame;
    var tail := EncodeBatch(codec, batch, max).value[..k];
    CompleteFile(codec, file, max, tail);
    if k == 0 {
      assert file + tail == file;
    } else {
      CutFramePeeks(Payload(codec, batch).value, max, k);
    }
  }

  // ---- Whole journals ----------------------------------------------------------------------------------------

  function Flatten<E>(batches: seq<Log<E>>): Log<E> {
    if batches == [] then [] else Flatten(batches[..|batches| - 1]) + batches[|batches| - 1]
  }

  /** The file after a number of batches. */
  function Journal<E>(codec: EventCodec<E>, batches: seq<Log<E>>, max: nat): Result<Bytes> {
    if batches == [] then Ok(FILE_HEADER)
    else
      var front :- Journal(codec, batches[..|batches| - 1], max);
      var frame :- EncodeBatch(codec, batches[|batches| - 1], max);
      Ok(front + frame)
  }

  lemma EmptyJournalScans<E>(codec: EventCodec<E>, max: nat)
    ensures Scan(codec, FILE_HEADER, max) == Complete([], |FILE_HEADER|)
  {
    assert FILE_HEADER[|FILE_HEADER|..] == [];
  }

  lemma {:induction false} JournalScans<E(!new)>(codec: EventCodec<E>, batches: seq<Log<E>>, max: nat)
    requires Faithful(codec) && Journal(codec, batches, max).Ok? && |Journal(codec, batches, max).value| < U64_LIMIT
    ensures Scan(codec, Journal(codec, batches, max).value, max)
         == Complete(Flatten(batches), |Journal(codec, batches, max).value|)
    decreases |batches|
  {
    hide Faithful, Scan, EncodeBatch;
    if batches == [] {
      EmptyJournalScans(codec, max);
    } else {
      JournalScans(codec, batches[..|batches| - 1], max);
      AppendScans(codec, Journal(codec, batches[..|batches| - 1], max).value, batches[|batches| - 1], max);
    }
  }

  /** How many batches lie wholly before byte `cut`. */
  function WholeBefore<E>(codec: EventCodec<E>, batches: seq<Log<E>>, max: nat, cut: nat): (m: nat)
    requires Journal(codec, batches, max).Ok?
    ensures m <= |batches|
  {
    if batches == [] || |Journal(codec, batches, max).value| <= cut then |batches|
    else WholeBefore(codec, batches[..|batches| - 1], max, cut)
  }

  /** A journal cut at any byte behind its header holds exactly the batches wholly before the cut, and
      says whether something was cut off. */
  lemma {:induction false} CutJournalScans<E(!new)>(codec: EventCodec<E>, batches: seq<Log<E>>, max: nat, cut: nat)
    requires Faithful(codec) && Journal(codec, batches, max).Ok?
    requires |FILE_HEADER| <= cut <= |Journal(codec, batches, max).value| < U64_LIMIT
    ensures var m := WholeBefore(codec, batches, max, cut);
            && Journal(codec, batches[..m], max).Ok?
            && var length := |Journal(codec, batches[..m], max).value|;
               Scan(codec, Journal(codec, batches, max).value[..cut], max)
               == if length == cut then Complete(Flatten(batches[..m]), cut) else PartialTail(Flatten(batches[..m]), length)
    decreases |batches|
  {
    hide Faithful, Scan, EncodeBatch, Flatten;
    var file := Journal(codec, batches, max).value;
    if cut == |file| {
      JournalScans(codec, batches, max);
      assert file[..cut] == file && batches[..|batches|] == batches;
    } else {
      var n := |batches| - 1;
      var front := Journal(codec, batches[..n], max).value;
      var frame := EncodeBatch(codec, batches[n], max).value;
      if cut < |front| {
        CutJournalScans(codec, batches[..n], max, cut);
        var m := WholeBefore(codec, batches[..n], max, cut);
        assert file[..cut] == front[..cut] && batches[..n][..m] == batches[..m];
      } else {
        JournalScans(codec, batches[..n], max);
        CutScans(codec, front, batches[n], max, cut - |front|);
        assert file[..cut] == front + frame[..cut - |front|];
        assert batches[..n][..n] == batches[..n];
        assert WholeBefore(codec, batches, max, cut) == n;
      }
    }
  }

  /** Damage confined to four neighbouring payload bytes of any frame makes the scan fail at that very
      frame, whatever comes before and after it. */
  lemma BurstDetected<E>(codec: EventCodec<E>, file: Bytes, before: Bytes, v: Bytes, w: Bytes, after: Bytes, max: nat, more: Bytes)
    requires Scan(codec, file, max).Complete? && |v| == |w| <= 4 && v != w
    requires |before + v + after| <= max && |before + v + after| < U64_LIMIT
    ensures var damaged := Frame(before + v + after)[..BATCH_HEADER_LEN] + (before + w + after);
            Scan(codec, file + (damaged + more), max) == Failed(CorruptLog(|file|))
  {
    hide Scan, PeekFrame;
    var damaged := Frame(before + v + after)[..BATCH_HEADER_LEN] + (before + w + after);
    CompleteFile(codec, file, max, damaged + more);
    BurstPeeks(before, v, w, after, max, more);
  }
}
