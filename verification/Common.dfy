/** Failure-carrying results, machine integers and the text model shared by every component. */
module Common {

  datatype Option<+T> = None | Some(value: T)

  /** The error conditions of the crate; message texts and field names are not modelled. */
  datatype Error =
    | InvalidId
    | InvalidValue
    | VersionConflict(expected: Option<u64>, actual: Option<u64>)
    | DuplicateEvent(id: Id)
    | InvalidReplay
    | MissingEntity(id: Id)
    | MissingFact(id: Id)
    | ConflictingFact(id: Id)
    | BudgetTooSmall(required: nat, available: nat)
    | CapacityOverflow
    | Io
    | Codec
    | CorruptLog(offset: nat)
    | ExternalModification

  datatype Result<+T> = Ok(value: T) | Err(error: Error) {
    predicate IsFailure() {
      Err?
    }

    function PropagateFailure<U>(): (r: Result<U>)
      requires Err?
    {
      Err(error)
    }

    function Extract(): T
      requires Ok?
    {
      value
    }
  }

  type byte = bv8

  const U64_LIMIT: int := 0x1_0000_0000_0000_0000
  const I64_LIMIT: int := 0x8000_0000_0000_0000

  type u16 = n: int | 0 <= n < 0x1_0000
  type u64 = n: int | 0 <= n < U64_LIMIT
  type i64 = n: int | -I64_LIMIT <= n < I64_LIMIT

  /** Unix time in microseconds. */
  type Timestamp = i64

  // ---- Bytes as numbers ----------------------------------------------------------

  function Bit(b: byte, mask: byte, weight: nat): nat {
    if b & mask == 0 then 0 else weight
  }

  /** The number a byte stands for. */
  function FromByte(b: byte): (n: nat)
    ensures n < 256
  {
    Bit(b, 0x80, 128) + Bit(b, 0x40, 64) + Bit(b, 0x20, 32) + Bit(b, 0x10, 16)
    + Bit(b, 0x08, 8) + Bit(b, 0x04, 4) + Bit(b, 0x02, 2) + Bit(b, 0x01, 1)
  }

  function Mask(on: bool, mask: byte): byte {
    if on then mask else 0
  }

  function Weight(on: bool, weight: nat): nat {
    if on then weight else 0
  }

  function FromBits(x7: bool, x6: bool, x5: bool, x4: bool, x3: bool, x2: bool, x1: bool, x0: bool): (b: byte)
    ensures FromByte(b) == Weight(x7, 128) + Weight(x6, 64) + Weight(x5, 32) + Weight(x4, 16)
                           + Weight(x3, 8) + Weight(x2, 4) + Weight(x1, 2) + Weight(x0, 1)
  {
    Mask(x7, 0x80) | Mask(x6, 0x40) | Mask(x5, 0x20) | Mask(x4, 0x10)
    | Mask(x3, 0x08) | Mask(x2, 0x04) | Mask(x1, 0x02) | Mask(x0, 0x01)
  }

  /** The byte that stands for a number. */
  function ToByte(n: nat): (b: byte)
    requires n < 256
    ensures FromByte(b) == n
  {
    var n6 := n - Weight(n >= 128, 128);
    var n5 := n6 - Weight(n6 >= 64, 64);
    var n4 := n5 - Weight(n5 >= 32, 32);
    var n3 := n4 - Weight(n4 >= 16, 16);
    var n2 := n3 - Weight(n3 >= 8, 8);
    var n1 := n2 - Weight(n2 >= 4, 4);
    var n0 := n1 - Weight(n1 >= 2, 2);
    FromBits(n >= 128, n6 >= 64, n5 >= 32, n4 >= 16, n3 >= 8, n2 >= 4, n1 >= 2, n0 >= 1)
  }

  // ---- Text -------------------------------------------------------------------

  /** Strings and identifiers are byte strings ordered lexicographically.  Only the snapshot codec
      depends on which byte strings occur; see `IsText` and `IsId`. */
  type Text = seq<byte>
  type Id = seq<byte>

  predicate Continuation(b: byte) {
    0x80 <= b <= 0xbf
  }

  /** Width of the well-formed UTF-8 character that starts `s`, or 0 when there is none. */
  function CharWidth(s: seq<byte>): (n: nat)
    ensures n <= |s|
  {
    if s == [] then 0
    else if s[0] <= 0x7f then 1
    else if 0xc2 <= s[0] <= 0xdf then
      if |s| >= 2 && Continuation(s[1]) then 2 else 0
    else if 0xe0 <= s[0] <= 0xef then
      if |s| >= 3 && Continuation(s[1]) && Continuation(s[2])
         && (s[0] == 0xe0 ==> s[1] >= 0xa0) && (s[0] == 0xed ==> s[1] <= 0x9f) then 3 else 0
    else if 0xf0 <= s[0] <= 0xf4 then
      if |s| >= 4 && Continuation(s[1]) && Continuation(s[2]) && Continuation(s[3])
         && (s[0] == 0xf0 ==> s[1] >= 0x90) && (s[0] == 0xf4 ==> s[1] <= 0x8f) then 4 else 0
    else 0
  }

  predicate IsUtf8(s: seq<byte>)
    decreases |s|
  {
    s == [] || (CharWidth(s) > 0 && IsUtf8(s[CharWidth(s)..]))
  }

  /** The UTF-8 encodings of the Unicode White_Space characters. */
  predicate IsWhitespace(c: seq<byte>) {
    || (|c| == 1 && (0x09 <= c[0] <= 0x0d || c[0] == 0x20))
    || (|c| == 2 && c[0] == 0xc2 && (c[1] == 0x85 || c[1] == 0xa0))
    || (|c| == 3 && (|| c == [0xe1, 0x9a, 0x80]
                     || (c[0] == 0xe2 && c[1] == 0x80 && (0x80 <= c[2] <= 0x8a || c[2] in {0xa8, 0xa9, 0xaf}))
                     || c == [0xe2, 0x81, 0x9f]
                     || c == [0xe3, 0x80, 0x80]))
  }

  /** No white space at either end, that is, trimming changes nothing. */
  predicate Trimmed(s: seq<byte>) {
    && (forall n | 1 <= n <= 3 && n <= |s| :: !IsWhitespace(s[..n]))
    && (forall k | 0 <= k < |s| <= k + 3 :: !IsWhitespace(s[k..]))
  }

  predicate IsProperText(s: seq<byte>) {
    s != [] && Trimmed(s)
  }

  /** What the string type of the source guarantees of its values. */
  predicate IsText(s: seq<byte>) {
    IsUtf8(s)
  }

  /** What the identifier types of the source guarantee: non-empty, trimmed text. */
  predicate IsId(s: seq<byte>) {
    IsUtf8(s) && IsProperText(s)
  }
}
