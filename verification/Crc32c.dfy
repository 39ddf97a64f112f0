/** The frame checksum: CRC32C, table driven, against its bit-by-bit definition.

    `Reference` processes one message bit at a time.  The shipped loop consumes a
    byte per step through a 256-entry table; `Checksum` proves that both agree on
    every byte string.  `BurstChangesChecksum` is the error-detection law: two
    equally long strings that differ only inside a window of at most four bytes
    never share a checksum.

    The register laws are proved for an arbitrary mixing function that is linear,
    injective and shifts clear low bytes out; `Mix` is then shown to be one.
 */
module Crc32c {

  const POLYNOMIAL: bv32 := 0x82f6_3b78
  const ONES: bv32 := 0xffff_ffff

  // ---- Bit-by-bit definition -------------------------------------------------

  function BitStep(crc: bv32): bv32 {
    (crc >> 1) ^ (POLYNOMIAL & (0 - (crc & 1)))
  }

  function Iterate(f: bv32 -> bv32, x: bv32, n: nat): bv32
    decreases n
  {
    if n == 0 then x else Iterate(f, f(x), n - 1)
  }

  /** Eight bit steps: what one message byte, once exclusive-ored in, does to the register. */
  function Mix(crc: bv32): bv32 {
    Iterate(BitStep, crc, 8)
  }

  function Xor(x: bv32, y: bv32): bv32 {
    x ^ y
  }

  /** The register after a byte string, for any mixing function. */
  function State(mix: bv32 -> bv32, crc: bv32, bytes: seq<bv8>): bv32
    decreases |bytes|
  {
    if bytes == [] then crc
    else State(mix, mix(Xor(crc, bytes[0] as bv32)), bytes[1..])
  }

  /** The checksum as the standard defines it: all-ones preset, complemented result. */
  function Reference(bytes: seq<bv8>): bv32 {
    Xor(State(Mix, ONES, bytes), ONES)
  }

  // ---- Laws of an arbitrary mixing function ------------------------------------

  ghost predicate Linear(f: bv32 -> bv32) {
    forall x, y :: f(Xor(x, y)) == Xor(f(x), f(y))
  }

  ghost predicate Injective(f: bv32 -> bv32) {
    forall x, y :: f(x) == f(y) ==> x == y
  }

  ghost predicate ShiftsClearByte(f: bv32 -> bv32) {
    forall x :: x & 0xff == 0 ==> f(x) == x >> 8
  }

  lemma {:induction false} IterateLinear(f: bv32 -> bv32, x: bv32, y: bv32, n: nat)
    requires Linear(f)
    ensures Iterate(f, Xor(x, y), n) == Xor(Iterate(f, x, n), Iterate(f, y, n))
    decreases n
  {
    if n > 0 {
      assert f(Xor(x, y)) == Xor(f(x), f(y));
      IterateLinear(f, f(x), f(y), n - 1);
    }
  }

  lemma {:induction false} IterateInjective(f: bv32 -> bv32, x: bv32, y: bv32, n: nat)
    requires Injective(f)
    requires Iterate(f, x, n) == Iterate(f, y, n)
    ensures x == y
    decreases n
  {
    if n > 0 {
      IterateInjective(f, f(x), f(y), n - 1);
    }
  }

  lemma {:induction false} StateConcat(f: bv32 -> bv32, crc: bv32, a: seq<bv8>, b: seq<bv8>)
    ensures State(f, crc, a + b) == State(f, State(f, crc, a), b)
    decreases |a|
  {
    if a == [] {
      assert a + b == b;
    } else {
      assert (a + b)[1..] == a[1..] + b;
      StateConcat(f, f(Xor(crc, a[0] as bv32)), a[1..], b);
    }
  }

  lemma XorCancels(x: bv32, y: bv32, b: bv32)
    requires Xor(x, b) == Xor(y, b) || Xor(b, x) == Xor(b, y)
    ensures x == y
  {
    assert (x ^ b) ^ b == x && (y ^ b) ^ b == y;
    assert b ^ (b ^ x) == x && b ^ (b ^ y) == y;
  }

  /** Equal suffixes keep different registers different. */
  lemma {:induction false} StateInjective(f: bv32 -> bv32, x: bv32, y: bv32, bytes: seq<bv8>)
    requires Injective(f)
    requires State(f, x, bytes) == State(f, y, bytes)
    ensures x == y
    decreases |bytes|
  {
    if bytes != [] {
      var b := bytes[0] as bv32;
      StateInjective(f, f(Xor(x, b)), f(Xor(y, b)), bytes[1..]);
      XorCancels(x, y, b);
    }
  }

  // ---- Windows of at most four bytes ---------------------------------------------

  function Push(b: bv8, rest: bv32): bv32 {
    (b as bv32) | (rest << 8)
  }

  /** At most four bytes as a little-endian word. */
  function Word(w: seq<bv8>): bv32
    decreases |w|
  {
    if w == [] then 0 else Push(w[0], Word(w[1..]))
  }

  /** The word leaves room for one more byte below it. */
  predicate ThreeBytes(x: bv32) {
    x & 0xff_ffff == x
  }

  predicate TwoBytes(x: bv32) {
    x & 0xffff == x
  }

  predicate OneByte(x: bv32) {
    x & 0xff == x
  }

  lemma PushOne(b: bv8)
    ensures OneByte(Push(b, 0))
  {}

  lemma PushTwo(b: bv8, x: bv32)
    requires OneByte(x)
    ensures TwoBytes(Push(b, x))
  {}

  lemma PushThree(b: bv8, x: bv32)
    requires TwoBytes(x)
    ensures ThreeBytes(Push(b, x))
  {}

  lemma FitsWiden(x: bv32)
    ensures OneByte(x) || TwoBytes(x) ==> ThreeBytes(x)
  {}

  lemma PushInjective(b: bv8, x: bv32, c: bv8, y: bv32)
    requires ThreeBytes(x) && ThreeBytes(y)
    requires Push(b, x) == Push(c, y)
    ensures b == c && x == y
  {}

  /** Folding one more byte into the register, seen as one wider exclusive-or. */
  lemma PushXor(crc: bv32, b: bv8, rest: bv32)
    requires ThreeBytes(rest)
    ensures Xor(Xor(crc, b as bv32), rest << 8) == Xor(crc, Push(b, rest))
    ensures (rest << 8) & 0xff == 0 && (rest << 8) >> 8 == rest
  {}

  lemma WordOfOne(w: seq<bv8>)
    requires |w| == 1
    ensures OneByte(Word(w))
  {
    assert w[1..] == [];
    PushOne(w[0]);
  }

  lemma WordOfTwo(w: seq<bv8>)
    requires |w| == 2
    ensures TwoBytes(Word(w))
  {
    WordOfOne(w[1..]);
    PushTwo(w[0], Word(w[1..]));
  }

  lemma WordFitsThree(w: seq<bv8>)
    requires |w| <= 3
    ensures ThreeBytes(Word(w))
  {
    if |w| == 1 {
      WordOfOne(w);
      FitsWiden(Word(w));
    } else if |w| == 2 {
      WordOfTwo(w);
      FitsWiden(Word(w));
    } else if |w| == 3 {
      WordOfTwo(w[1..]);
      PushThree(w[0], Word(w[1..]));
    }
  }

  lemma {:induction false} WordInjective(v: seq<bv8>, w: seq<bv8>)
    requires |v| == |w| <= 4 && Word(v) == Word(w)
    ensures v == w
    decreases |v|
  {
    if v != [] {
      WordFitsThree(v[1..]);
      WordFitsThree(w[1..]);
      PushInjective(v[0], Word(v[1..]), w[0], Word(w[1..]));
      WordInjective(v[1..], w[1..]);
      assert v == [v[0]] + v[1..] && w == [w[0]] + w[1..];
    }
  }

  lemma XorZero(x: bv32)
    ensures Xor(x, 0) == x
  {}

  lemma WindowStep(f: bv32 -> bv32, crc: bv32, b: bv8, rest: bv32)
    requires Linear(f) && ShiftsClearByte(f) && ThreeBytes(rest)
    ensures f(Xor(crc, Push(b, rest))) == Xor(f(Xor(crc, b as bv32)), rest)
  {
    hide Xor, ThreeBytes, Push;
    PushXor(crc, b, rest);
    assert f(rest << 8) == rest;
  }

  /** A short window acts on the register as one exclusive-or followed by mixing. */
  lemma {:induction false} StateOfWindow(f: bv32 -> bv32, crc: bv32, w: seq<bv8>)
    requires Linear(f) && ShiftsClearByte(f) && |w| <= 4
    ensures State(f, crc, w) == Iterate(f, Xor(crc, Word(w)), |w|)
    decreases |w|
  {
    hide Linear, ShiftsClearByte, ThreeBytes, Push;
    if w == [] {
      XorZero(crc);
    } else {
      WordFitsThree(w[1..]);
      WindowStep(f, crc, w[0], Word(w[1..]));
      StateOfWindow(f, f(Xor(crc, w[0] as bv32)), w[1..]);
    }
  }

  /** For any such mixing function, a change inside four bytes changes the register. */
  lemma WindowChangesState(f: bv32 -> bv32, crc: bv32, v: seq<bv8>, w: seq<bv8>)
    requires Linear(f) && Injective(f) && ShiftsClearByte(f)
    requires |v| == |w| <= 4 && v != w
    ensures State(f, crc, v) != State(f, crc, w)
  {
    if State(f, crc, v) == State(f, crc, w) {
      StateOfWindow(f, crc, v);
      StateOfWindow(f, crc, w);
      IterateInjective(f, Xor(crc, Word(v)), Xor(crc, Word(w)), |v|);
      XorCancels(Word(v), Word(w), crc);
      WordInjective(v, w);
      assert false;
    }
  }

  // ---- The bit step and the byte mix are such functions ----------------------------

  lemma BitStepLinear(x: bv32, y: bv32)
    ensures BitStep(Xor(x, y)) == Xor(BitStep(x), BitStep(y))
  {
    assert x & 1 == 0 || x & 1 == 1;
    assert y & 1 == 0 || y & 1 == 1;
    assert (x ^ y) & 1 == (x & 1) ^ (y & 1);
    assert (x ^ y) >> 1 == (x >> 1) ^ (y >> 1);
  }

  lemma BitStepIsLinear()
    ensures Linear(BitStep)
  {
    forall x, y ensures BitStep(Xor(x, y)) == Xor(BitStep(x), BitStep(y)) {
      BitStepLinear(x, y);
    }
  }

  /** No information is lost: the polynomial's top bit records the bit shifted out. */
  lemma BitStepIsInjective()
    ensures Injective(BitStep)
  {
    forall x, y | BitStep(x) == BitStep(y) ensures x == y {}
  }

  predicate Even(x: bv32) {
    x & 1 == 0
  }

  function Half(x: bv32): bv32 {
    x >> 1
  }

  lemma BitStepHalves(x: bv32)
    requires Even(x)
    ensures BitStep(x) == Half(x)
  {}

  lemma HalvedEightTimes(x: bv32)
    requires x & 0xff == 0
    ensures var x1 := Half(x);
            var x2 := Half(x1);
            var x3 := Half(x2);
            var x4 := Half(x3);
            var x5 := Half(x4);
            var x6 := Half(x5);
            var x7 := Half(x6);
            && Even(x) && Even(x1) && Even(x2) && Even(x3) && Even(x4) && Even(x5) && Even(x6) && Even(x7)
            && Half(x7) == x >> 8
  {}

  lemma {:induction false} IterateShifts(f: bv32 -> bv32, x: bv32)
    requires forall y :: Even(y) ==> f(y) == Half(y)
    requires x & 0xff == 0
    ensures Iterate(f, x, 8) == x >> 8
  {
    hide Iterate, Even, Half;
    HalvedEightTimes(x);
    var x1 := Half(x);
    var x2 := Half(x1);
    var x3 := Half(x2);
    var x4 := Half(x3);
    var x5 := Half(x4);
    var x6 := Half(x5);
    var x7 := Half(x6);
    IterateEight(f, x, x1, x2, x3, x4, x5, x6, x7, Half(x7));
  }

  lemma IterateEight(f: bv32 -> bv32, x0: bv32, x1: bv32, x2: bv32, x3: bv32, x4: bv32, x5: bv32, x6: bv32, x7: bv32, x8: bv32)
    requires f(x0) == x1 && f(x1) == x2 && f(x2) == x3 && f(x3) == x4
    requires f(x4) == x5 && f(x5) == x6 && f(x6) == x7 && f(x7) == x8
    ensures Iterate(f, x0, 8) == x8
  {
    calc {
      Iterate(f, x0, 8);
      Iterate(f, x1, 7);
      Iterate(f, x2, 6);
      Iterate(f, x3, 5);
      Iterate(f, x4, 4);
      Iterate(f, x5, 3);
      Iterate(f, x6, 2);
      Iterate(f, x7, 1);
      x8;
    }
  }

  lemma MixLaws()
    ensures Linear(Mix) && Injective(Mix) && ShiftsClearByte(Mix)
  {
    hide Iterate, BitStep, Even, Half;
    forall x, y ensures Mix(Xor(x, y)) == Xor(Mix(x), Mix(y)) {
      BitStepIsLinear();
      IterateLinear(BitStep, x, y, 8);
    }
    forall x, y | Mix(x) == Mix(y) ensures x == y {
      BitStepIsInjective();
      IterateInjective(BitStep, x, y, 8);
    }
    forall x: bv32 | x & 0xff == 0 ensures Mix(x) == x >> 8 {
      forall y: bv32 | Even(y) ensures BitStep(y) == Half(y) { BitStepHalves(y); }
      IterateShifts(BitStep, x);
    }
  }

  // ---- The shipped table and loop ---------------------------------------------------

  method Table() returns (table: array<bv32>)
    ensures fresh(table) && Tabulates(table, Mix)
  {
    hide Mix;
    table := new bv32[256];
    for index := 0 to 256
      invariant forall i :: 0 <= i < index ==> table[i] == Mix((i as bv8) as bv32)
    {
      var crc := TableEntry((index as bv8) as bv32);
      table[index] := crc;
    }
  }

  /** The inner loop of the table construction. */
  method TableEntry(index: bv32) returns (crc: bv32)
    ensures crc == Mix(index)
  {
    crc := index;
    for bit := 0 to 8
      invariant Iterate(BitStep, crc, 8 - bit) == Mix(index)
    {
      var mask := 0 - (crc & 1);
      crc := (crc >> 1) ^ (POLYNOMIAL & mask);
    }
  }

  function TableIndex(crc: bv32, b: bv8): bv8 {
    ((crc & 0xff) as bv8) ^ b
  }

  function HighBytes(crc: bv32): bv32 {
    crc & 0xffff_ff00
  }

  lemma ByteSplit(crc: bv32, b: bv8)
    ensures Xor(crc, b as bv32) == Xor(HighBytes(crc), TableIndex(crc, b) as bv32)
    ensures HighBytes(crc) & 0xff == 0 && HighBytes(crc) >> 8 == crc >> 8
  {}

  lemma LinearSplit(f: bv32 -> bv32, x: bv32, high: bv32, low: bv32, shifted: bv32)
    requires Linear(f) && x == Xor(high, low) && f(high) == shifted
    ensures f(x) == Xor(shifted, f(low))
  {}

  /** A byte step through the table is eight bit steps. */
  lemma TableStep(f: bv32 -> bv32, crc: bv32, b: bv8)
    requires Linear(f) && ShiftsClearByte(f)
    ensures f(Xor(crc, b as bv32)) == Xor(crc >> 8, f(TableIndex(crc, b) as bv32))
  {
    ByteSplit(crc, b);
    LinearSplit(f, Xor(crc, b as bv32), HighBytes(crc), TableIndex(crc, b) as bv32, crc >> 8);
  }

  lemma ByteAsIndex(b: bv8)
    ensures (b as int) as bv8 == b
  {}

  ghost predicate Tabulates(table: array<bv32>, f: bv32 -> bv32)
    reads table
  {
    table.Length == 256 && forall i :: 0 <= i < 256 ==> table[i] == f((i as bv8) as bv32)
  }

  lemma TableLookup(table: array<bv32>, f: bv32 -> bv32, b: bv8)
    requires Tabulates(table, f)
    ensures table[b as int] == f(b as bv32)
  {
    ByteAsIndex(b);
  }

  method StepThroughTable(table: array<bv32>, ghost f: bv32 -> bv32, crc: bv32, b: bv8) returns (next: bv32)
    requires Tabulates(table, f) && Linear(f) && ShiftsClearByte(f)
    ensures next == f(Xor(crc, b as bv32))
  {
    var index := TableIndex(crc, b);
    TableStep(f, crc, b);
    TableLookup(table, f, index);
    next := Xor(crc >> 8, table[index as int]);
  }

  /** The byte-at-a-time loop, for the table of any linear mixing function. */
  method RunTable(table: array<bv32>, ghost f: bv32 -> bv32, bytes: seq<bv8>) returns (crc: bv32)
    requires Tabulates(table, f) && Linear(f) && ShiftsClearByte(f)
    ensures crc == State(f, ONES, bytes)
  {
    crc := ONES;
    for i := 0 to |bytes|
      invariant State(f, crc, bytes[i..]) == State(f, ONES, bytes)
    {
      crc := StepThroughTable(table, f, crc, bytes[i]);
      assert bytes[i..][1..] == bytes[i + 1..];
    }
  }

  /** The shipped computation yields the reference checksum of every input. */
  method Checksum(bytes: seq<bv8>) returns (sum: bv32)
    ensures sum == Reference(bytes)
  {
    var table := Table();
    MixLaws();
    var crc := RunTable(table, Mix, bytes);
    sum := Xor(crc, ONES);
  }

  /** Changing anything inside a window of at most four bytes changes the checksum. */
  lemma BurstChangesChecksum(before: seq<bv8>, v: seq<bv8>, w: seq<bv8>, after: seq<bv8>)
    requires |v| == |w| <= 4 && v != w
    ensures Reference(before + v + after) != Reference(before + w + after)
  {
    MixLaws();
    var s := State(Mix, ONES, before);
    StateConcat(Mix, ONES, before + v, after);
    StateConcat(Mix, ONES, before + w, after);
    StateConcat(Mix, ONES, before, v);
    StateConcat(Mix, ONES, before, w);
    WindowChangesState(Mix, s, v, w);
    if Reference(before + v + after) == Reference(before + w + after) {
      XorCancels(State(Mix, ONES, before + v + after), State(Mix, ONES, before + w + after), ONES);
      StateInjective(Mix, State(Mix, s, v), State(Mix, s, w), after);
      assert false;
    }
  }

  /** One byte, given the register after each of its eight bits. */
  lemma ByteSteps(crc: bv32, b: bv8, x1: bv32, x2: bv32, x3: bv32, x4: bv32, x5: bv32, x6: bv32, x7: bv32, x8: bv32)
    requires BitStep(Xor(crc, b as bv32)) == x1 && BitStep(x1) == x2 && BitStep(x2) == x3 && BitStep(x3) == x4
    requires BitStep(x4) == x5 && BitStep(x5) == x6 && BitStep(x6) == x7 && BitStep(x7) == x8
    ensures Mix(Xor(crc, b as bv32)) == x8
  {
    IterateEight(BitStep, Xor(crc, b as bv32), x1, x2, x3, x4, x5, x6, x7, x8);
  }

  lemma Digit1()
    ensures Mix(Xor(0xffff_ffff, 0x31 as bv32)) == 0x6f0a_661c
  {
    ByteSteps(0xffff_ffff, 0x31, 0x7fff_ffe7, 0xbd09_c48b, 0xdc72_d93d, 0xeccf_57e6,
              0x7667_abf3, 0xb9c5_ee81, 0xde14_cc38, 0x6f0a_661c);
  }

  lemma Digit2()
    ensures Mix(Xor(0x6f0a_661c, 0x32 as bv32)) == 0x8caa_3b9f
  {
    ByteSteps(0x6f0a_661c, 0x32, 0x3785_3317, 0x9934_a2f3, 0xce6c_6a01, 0xe5c0_0e78,
              0x72e0_073c, 0x3970_039e, 0x1cb8_01cf, 0x8caa_3b9f);
  }

  lemma Digit3()
    ensures Mix(Xor(0x8caa_3b9f, 0x33 as bv32)) == 0xef84_d04d
  {
    ByteSteps(0x8caa_3b9f, 0x33, 0x4655_1dd6, 0x232a_8eeb, 0x9363_7c0d, 0xcb47_857e,
              0x65a3_c2bf, 0xb027_da27, 0xdae5_d66b, 0xef84_d04d);
  }

  lemma Digit4()
    ensures Mix(Xor(0xef84_d04d, 0x34 as bv32)) == 0x09c5_0b11
  {
    ByteSteps(0xef84_d04d, 0x34, 0xf534_5344, 0x7a9a_29a2, 0x3d4d_14d1, 0x9c50_b110,
              0x4e28_5888, 0x2714_2c44, 0x138a_1622, 0x09c5_0b11);
  }

  lemma Digit5()
    ensures Mix(Xor(0x09c5_0b11, 0x35 as bv32)) == 0xe72e_dcca
  {
    ByteSteps(0x09c5_0b11, 0x35, 0x04e2_8592, 0x0271_42c9, 0x83ce_9a1c, 0x41e7_4d0e,
              0x20f3_a687, 0x928f_e83b, 0xcbb1_cf65, 0xe72e_dcca);
  }

  lemma Digit6()
    ensures Mix(Xor(0xe72e_dcca, 0x36 as bv32)) == 0xbeca_8e79
  {
    ByteSteps(0xe72e_dcca, 0x36, 0x7397_6e7e, 0x39cb_b73f, 0x9e13_e0e7, 0xcdff_cb0b,
              0xe409_defd, 0xf0f2_d406, 0x7879_6a03, 0xbeca_8e79);
  }

  lemma Digit7()
    ensures Mix(Xor(0xbeca_8e79, 0x37 as bv32)) == 0xedbd_6815
  {
    ByteSteps(0xbeca_8e79, 0x37, 0x5f65_4727, 0xad44_98eb, 0xd454_770d, 0xe8dc_00fe,
              0x746e_007f, 0xb8c1_3b47, 0xde96_a6db, 0xedbd_6815);
  }

  lemma Digit8()
    ensures Mix(Xor(0xedbd_6815, 0x38 as bv32)) == 0x9f78_7f65
  {
    ByteSteps(0xedbd_6815, 0x38, 0xf428_8f6e, 0x7a14_47b7, 0xbffc_18a3, 0xdd08_3729,
              0xec72_20ec, 0x7639_1076, 0x3b1c_883b, 0x9f78_7f65);
  }

  lemma Digit9()
    ensures Mix(Xor(0x9f78_7f65, 0x39 as bv32)) == 0x1cf9_6d7c
  {
    ByteSteps(0x9f78_7f65, 0x39, 0x4fbc_3fae, 0x27de_1fd7, 0x9119_3493, 0xca7a_a131,
              0xe7cb_6be0, 0x73e5_b5f0, 0x39f2_daf8, 0x1cf9_6d7c);
  }

  lemma NextByte(mix: bv32 -> bv32, crc: bv32, bytes: seq<bv8>, i: nat)
    requires i < |bytes|
    ensures State(mix, crc, bytes[i..]) == State(mix, mix(Xor(crc, bytes[i] as bv32)), bytes[i + 1..])
  {
    assert bytes[i..][1..] == bytes[i + 1..];
  }

  const DIGITS: seq<bv8> := [0x31, 0x32, 0x33, 0x34, 0x35, 0x36, 0x37, 0x38, 0x39]

  /** The standard check value: the checksum of the digits 1 to 9 in ASCII. */
  lemma CheckValue()
    ensures Reference(DIGITS) == 0xe306_9283
  {
    hide Mix, State;
    assert DIGITS[0..] == DIGITS && DIGITS[9..] == [];
    Digit1();
    NextByte(Mix, 0xffff_ffff, DIGITS, 0);
    Digit2();
    NextByte(Mix, 0x6f0a_661c, DIGITS, 1);
    Digit3();
    NextByte(Mix, 0x8caa_3b9f, DIGITS, 2);
    Digit4();
    NextByte(Mix, 0xef84_d04d, DIGITS, 3);
    Digit5();
    NextByte(Mix, 0x09c5_0b11, DIGITS, 4);
    Digit6();
    NextByte(Mix, 0xe72e_dcca, DIGITS, 5);
    Digit7();
    NextByte(Mix, 0xbeca_8e79, DIGITS, 6);
    Digit8();
    NextByte(Mix, 0xedbd_6815, DIGITS, 7);
    Digit9();
    NextByte(Mix, 0x9f78_7f65, DIGITS, 8);
    NoBytes(0x1cf9_6d7c);
  }

  lemma NoBytes(crc: bv32)
    ensures State(Mix, crc, []) == crc
  {}
}
