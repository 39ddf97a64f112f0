/** Zigzag as the crate computes it, with shifts and xor on 64-bit words. */
module ZigzagWords {
  import opened Common
  import CompactIo

  /** The number a word stands for when it is unsigned. */
  function Number(b: bv64): u64 {
    b as int
  }

  predicate TopClear(b: bv64) {
    b >> 63 == 0
  }

  predicate Odd(n: bv64) {
    n & 1 != 0
  }

  function Flip(b: bv64): bv64 {
    !b
  }

  function Half(n: bv64): bv64 {
    n >> 1
  }

  function Twice(h: bv64): bv64 {
    h << 1
  }

  function TwicePlusOne(h: bv64): bv64 {
    (h << 1) | 1
  }

  /** `(value << 1) ^ (value >> 63)`, where the arithmetic shift spreads the sign bit. */
  function ZigzagWord(b: bv64): bv64 {
    (b << 1) ^ (0 - (b >> 63))
  }

  /** `(value >> 1) ^ -(value & 1)`. */
  function UnzigzagWord(n: bv64): bv64 {
    (n >> 1) ^ (0 - (n & 1))
  }

  // ---- Facts about words --------------------------------------------------------------

  lemma TopFlips(b: bv64)
    ensures TopClear(Flip(b)) <==> !TopClear(b)
    ensures Flip(Flip(b)) == b
  {}

  lemma TwiceDoubles(h: bv64)
    requires TopClear(h)
    ensures Number(Twice(h)) == 2 * Number(h)
  {}

  lemma TwicePlusOneDoubles(h: bv64)
    requires TopClear(h)
    ensures Number(TwicePlusOne(h)) == 2 * Number(h) + 1
  {}

  lemma ZigzagCases(b: bv64)
    ensures TopClear(b) ==> ZigzagWord(b) == Twice(b)
    ensures !TopClear(b) ==> ZigzagWord(b) == TwicePlusOne(Flip(b))
  {}

  lemma HalfIsClear(n: bv64)
    ensures TopClear(Half(n))
  {}

  lemma EvenCase(n: bv64)
    requires !Odd(n)
    ensures n == Twice(Half(n)) && UnzigzagWord(n) == Half(n)
  {}

  lemma OddHalves(n: bv64)
    requires Odd(n)
    ensures n == TwicePlusOne(Half(n))
  {}

  lemma OddCase(n: bv64)
    requires Odd(n)
    ensures UnzigzagWord(n) == Flip(Half(n))
  {
    assert n & 1 == 1;
  }

  // ---- Two's complement ------------------------------------------------------------------

  /** The number of a word whose top bit is clear. */
  function Low(b: bv64): (n: int)
    requires TopClear(b)
    ensures 0 <= n < I64_LIMIT
  {
    LowIsSmall(b);
    Number(b)
  }

  lemma LowIsSmall(b: bv64)
    requires TopClear(b)
    ensures Number(b) < I64_LIMIT
  {
    hide Number, TopClear, Twice;
    TwiceDoubles(b);
  }

  /** The number a word stands for in two's complement. */
  function Signed(b: bv64): i64 {
    hide Number, TopClear, Flip;
    TopFlips(b);
    if TopClear(b) then Low(b) else -Low(Flip(b)) - 1
  }

  /** The form written is zigzag of the number the word stands for. */
  lemma ZigzagBits(b: bv64)
    ensures Number(ZigzagWord(b)) == CompactIo.Zigzag(Signed(b))
  {
    hide Number, TopClear, ZigzagWord, Flip, Twice, TwicePlusOne;
    ZigzagCases(b);
    TopFlips(b);
    if TopClear(b) {
      TwiceDoubles(b);
    } else {
      TwicePlusOneDoubles(Flip(b));
    }
  }

  /** The form read is its inverse. */
  lemma UnzigzagBits(n: bv64)
    ensures Signed(UnzigzagWord(n)) == CompactIo.Unzigzag(Number(n))
  {
    hide Number, TopClear, Odd, UnzigzagWord, Flip, Half, Twice, TwicePlusOne;
    HalfIsClear(n);
    TopFlips(Half(n));
    if Odd(n) {
      OddHalves(n);
      OddCase(n);
      TwicePlusOneDoubles(Half(n));
    } else {
      EvenCase(n);
      TwiceDoubles(Half(n));
    }
  }
}
