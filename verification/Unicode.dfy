/** What the byte tests on text mean: UTF-8 strings are concatenations of encoded scalar values, and white
    space is the Unicode property. */
module Unicode {
  import opened Common

  type Bytes = seq<byte>

  function Number(b: byte): (n: nat)
    ensures n < 256
  {
    b as int
  }

  function Byte(n: nat): byte
    requires n < 256
  {
    n as byte
  }

  lemma Inverse(b: byte, n: nat)
    ensures Byte(Number(b)) == b
    ensures n < 256 ==> Number(Byte(n)) == n
  {}

  lemma Ordered(a: byte, b: byte)
    ensures a <= b <==> Number(a) <= Number(b)
    ensures a < b <==> Number(a) < Number(b)
  {}

  /** Unicode scalar values: code points other than surrogates. */
  predicate IsScalar(u: nat) {
    u <= 0x10ffff && !(0xd800 <= u <= 0xdfff)
  }

  /** The UTF-8 form of a scalar value. */
  function Encode(u: nat): (s: Bytes)
    requires IsScalar(u)
    ensures 1 <= |s| <= 4
  {
    if u < 0x80 then [Byte(u)]
    else if u < 0x800 then [Byte(0xc0 + u / 64), Byte(0x80 + u % 64)]
    else if u < 0x10000 then [Byte(0xe0 + u / 4096), Byte(0x80 + u / 64 % 64), Byte(0x80 + u % 64)]
    else [Byte(0xf0 + u / 262144), Byte(0x80 + u / 4096 % 64), Byte(0x80 + u / 64 % 64), Byte(0x80 + u % 64)]
  }

  // ---- The tests on bytes, on numbers --------------------------------------------------

  predicate Tail(n: nat) {
    0x80 <= n <= 0xbf
  }

  predicate Two(a: nat, b: nat) {
    0xc2 <= a <= 0xdf && Tail(b)
  }

  predicate Three(a: nat, b: nat, c: nat) {
    0xe0 <= a <= 0xef && Tail(b) && Tail(c) && (a == 0xe0 ==> b >= 0xa0) && (a == 0xed ==> b <= 0x9f)
  }

  predicate Four(a: nat, b: nat, c: nat, d: nat) {
    0xf0 <= a <= 0xf4 && Tail(b) && Tail(c) && Tail(d) && (a == 0xf0 ==> b >= 0x90) && (a == 0xf4 ==> b <= 0x8f)
  }

  lemma Constants()
    ensures Number(0x7f) == 0x7f && Number(0x80) == 0x80 && Number(0xbf) == 0xbf && Number(0xc2) == 0xc2 && Number(0xdf) == 0xdf
    ensures Number(0xe0) == 0xe0 && Number(0xef) == 0xef && Number(0xed) == 0xed && Number(0xa0) == 0xa0 && Number(0x9f) == 0x9f
    ensures Number(0xf0) == 0xf0 && Number(0xf4) == 0xf4 && Number(0x90) == 0x90 && Number(0x8f) == 0x8f
  {}

  lemma TailNumber(b: byte)
    ensures Continuation(b) <==> Tail(Number(b))
  {
    hide Number;
    Constants();
    Ordered(0x80, b);
    Ordered(b, 0xbf);
  }

  /** The comparisons of a leading byte, and of the byte behind it. */
  lemma LeadNumber(a: byte, b: byte)
    ensures a <= 0x7f <==> Number(a) <= 0x7f
    ensures 0xc2 <= a <= 0xdf <==> 0xc2 <= Number(a) <= 0xdf
    ensures 0xe0 <= a <= 0xef <==> 0xe0 <= Number(a) <= 0xef
    ensures 0xf0 <= a <= 0xf4 <==> 0xf0 <= Number(a) <= 0xf4
    ensures (a == 0xe0 <==> Number(a) == 0xe0) && (a == 0xed <==> Number(a) == 0xed)
    ensures (a == 0xf0 <==> Number(a) == 0xf0) && (a == 0xf4 <==> Number(a) == 0xf4)
    ensures (b >= 0xa0 <==> Number(b) >= 0xa0) && (b <= 0x9f <==> Number(b) <= 0x9f)
    ensures (b >= 0x90 <==> Number(b) >= 0x90) && (b <= 0x8f <==> Number(b) <= 0x8f)
  {
    hide Number;
    Constants();
    Ordered(a, 0x7f);
    Ordered(0xc2, a);
    Ordered(a, 0xdf);
    Ordered(0xe0, a);
    Ordered(a, 0xe0);
    Ordered(a, 0xef);
    Ordered(0xed, a);
    Ordered(a, 0xed);
    Ordered(0xf0, a);
    Ordered(a, 0xf0);
    Ordered(0xf4, a);
    Ordered(a, 0xf4);
    Ordered(0xa0, b);
    Ordered(b, 0x9f);
    Ordered(0x90, b);
    Ordered(b, 0x8f);
  }

  function At(s: Bytes, i: nat): nat {
    if i < |s| then Number(s[i]) else 0
  }

  /** The width of the leading character, told by the numbers of its bytes. */
  lemma WidthNumbers(s: Bytes)
    ensures CharWidth(s)
         == if s == [] then 0
            else if At(s, 0) <= 0x7f then 1
            else if Two(At(s, 0), At(s, 1)) then 2
            else if Three(At(s, 0), At(s, 1), At(s, 2)) then 3
            else if Four(At(s, 0), At(s, 1), At(s, 2), At(s, 3)) then 4
            else 0
  {
    hide Number, Continuation;
    if s != [] {
      LeadNumber(s[0], if |s| > 1 then s[1] else 0);
      TailNumber(if |s| > 1 then s[1] else 0);
      TailNumber(if |s| > 2 then s[2] else 0);
      TailNumber(if |s| > 3 then s[3] else 0);
    }
  }

  // ---- Characters ---------------------------------------------------------------------------

  lemma OneByte(u: nat)
    requires u < 0x80
    ensures |Encode(u)| == 1 && At(Encode(u), 0) == u
  {
    hide Number, Byte;
    Inverse(0, u);
  }

  lemma TwoBytes(u: nat)
    requires 0x80 <= u < 0x800
    ensures |Encode(u)| == 2 && At(Encode(u), 0) == 0xc0 + u / 64 && At(Encode(u), 1) == 0x80 + u % 64
    ensures Two(0xc0 + u / 64, 0x80 + u % 64)
  {
    hide Number, Byte;
    Inverse(0, 0xc0 + u / 64);
    Inverse(0, 0x80 + u % 64);
  }

  lemma ThreeBytes(u: nat)
    requires 0x800 <= u < 0x10000 && IsScalar(u)
    ensures |Encode(u)| == 3 && At(Encode(u), 0) == 0xe0 + u / 4096
    ensures At(Encode(u), 1) == 0x80 + u / 64 % 64 && At(Encode(u), 2) == 0x80 + u % 64
    ensures Three(0xe0 + u / 4096, 0x80 + u / 64 % 64, 0x80 + u % 64)
  {
    hide Number, Byte;
    Inverse(0, 0xe0 + u / 4096);
    Inverse(0, 0x80 + u / 64 % 64);
    Inverse(0, 0x80 + u % 64);
    assert u / 64 == 64 * (u / 4096) + u / 64 % 64;
  }

  lemma FourBytes(u: nat)
    requires 0x10000 <= u && IsScalar(u)
    ensures |Encode(u)| == 4 && At(Encode(u), 0) == 0xf0 + u / 262144 && At(Encode(u), 1) == 0x80 + u / 4096 % 64
    ensures At(Encode(u), 2) == 0x80 + u / 64 % 64 && At(Encode(u), 3) == 0x80 + u % 64
    ensures Four(0xf0 + u / 262144, 0x80 + u / 4096 % 64, 0x80 + u / 64 % 64, 0x80 + u % 64)
  {
    hide Number, Byte, Four;
    FourGroups(u);
    Inverse(0, 0xf0 + u / 262144);
    Inverse(0, 0x80 + u / 4096 % 64);
    Inverse(0, 0x80 + u / 64 % 64);
    Inverse(0, 0x80 + u % 64);
  }

  lemma FourGroups(u: nat)
    requires 0x10000 <= u && IsScalar(u)
    ensures Four(0xf0 + u / 262144, 0x80 + u / 4096 % 64, 0x80 + u / 64 % 64, 0x80 + u % 64)
  {
    assert u / 4096 == 64 * (u / 262144) + u / 4096 % 64;
  }

  /** An encoded scalar value is recognised as one character, whatever follows. */
  lemma EncodedWidth(u: nat, rest: Bytes)
    requires IsScalar(u)
    ensures CharWidth(Encode(u) + rest) == |Encode(u)|
  {
    hide Encode, CharWidth, Number, Three, Four, Two;
    var s := Encode(u) + rest;
    WidthNumbers(s);
    assert forall i | 0 <= i < |Encode(u)| :: At(s, i) == At(Encode(u), i);
    if u < 0x80 {
      OneByte(u);
    } else if u < 0x800 {
      TwoBytes(u);
      Kinds(At(s, 0), At(s, 1), At(s, 2), At(s, 3));
    } else if u < 0x10000 {
      ThreeBytes(u);
      Kinds(At(s, 0), At(s, 1), At(s, 2), At(s, 3));
    } else {
      FourBytes(u);
      Kinds(At(s, 0), At(s, 1), At(s, 2), At(s, 3));
    }
  }

  /** The leading number tells the kinds apart. */
  lemma Kinds(a: nat, b: nat, c: nat, d: nat)
    ensures Two(a, b) ==> a > 0x7f && !Three(a, b, c) && !Four(a, b, c, d)
    ensures Three(a, b, c) ==> a > 0x7f && !Two(a, b) && !Four(a, b, c, d)
    ensures Four(a, b, c, d) ==> a > 0x7f && !Two(a, b) && !Three(a, b, c)
  {}

  lemma TwoDecoded(a: nat, b: nat) returns (u: nat)
    requires Two(a, b)
    ensures 0x80 <= u < 0x800 && IsScalar(u)
    ensures 0xc0 + u / 64 == a && 0x80 + u % 64 == b
  {
    u := (a - 0xc0) * 64 + (b - 0x80);
  }

  lemma ThreeDecoded(a: nat, b: nat, c: nat) returns (u: nat)
    requires Three(a, b, c)
    ensures 0x800 <= u < 0x10000 && IsScalar(u)
    ensures 0xe0 + u / 4096 == a && 0x80 + u / 64 % 64 == b && 0x80 + u % 64 == c
  {
    u := (a - 0xe0) * 4096 + (b - 0x80) * 64 + (c - 0x80);
    Groups(a - 0xe0, b - 0x80, c - 0x80);
  }

  lemma FourDecoded(a: nat, b: nat, c: nat, d: nat) returns (u: nat)
    requires Four(a, b, c, d)
    ensures 0x10000 <= u && IsScalar(u)
    ensures 0xf0 + u / 262144 == a && 0x80 + u / 4096 % 64 == b && 0x80 + u / 64 % 64 == c && 0x80 + u % 64 == d
  {
    var high := (a - 0xf0) * 64 + (b - 0x80);
    u := high * 4096 + (c - 0x80) * 64 + (d - 0x80);
    Groups(high, c - 0x80, d - 0x80);
    assert u / 262144 == high / 64;
  }

  lemma Groups(x: nat, y: nat, z: nat)
    requires y < 64 && z < 64
    ensures (x * 4096 + y * 64 + z) / 4096 == x
    ensures (x * 4096 + y * 64 + z) / 64 % 64 == y
    ensures (x * 4096 + y * 64 + z) % 64 == z
  {
    var u := x * 4096 + y * 64 + z;
    assert u / 64 == x * 64 + y;
  }

  /** A byte of a string, from its number. */
  lemma ByteOf(s: Bytes, i: nat)
    requires i < |s|
    ensures At(s, i) < 256 && Byte(At(s, i)) == s[i]
  {
    hide Number, Byte;
    Inverse(s[i], 0);
  }

  /** A recognised character is an encoded scalar value. */
  lemma RecognisedScalar(s: Bytes) returns (u: nat)
    requires CharWidth(s) > 0
    ensures IsScalar(u) && Encode(u) == s[..CharWidth(s)]
  {
    hide CharWidth, Number, Byte, IsScalar, At, Two, Three, Four;
    WidthNumbers(s);
    var w := CharWidth(s);
    if w == 1 {
      u := OneRecognised(s);
    } else if w == 2 {
      ByteOf(s, 0);
      ByteOf(s, 1);
      u := TwoDecoded(At(s, 0), At(s, 1));
      assert s[..2] == [s[0], s[1]];
    } else if w == 3 {
      ByteOf(s, 0);
      ByteOf(s, 1);
      ByteOf(s, 2);
      u := ThreeDecoded(At(s, 0), At(s, 1), At(s, 2));
      assert s[..3] == [s[0], s[1], s[2]];
    } else {
      u := FourRecognised(s);
    }
  }

  lemma FourRecognised(s: Bytes) returns (u: nat)
    requires |s| >= 4 && Four(At(s, 0), At(s, 1), At(s, 2), At(s, 3))
    ensures IsScalar(u) && Encode(u) == s[..4]
  {
    hide Number, Byte, IsScalar, At, Four;
    ByteOf(s, 0);
    ByteOf(s, 1);
    ByteOf(s, 2);
    ByteOf(s, 3);
    u := FourDecoded(At(s, 0), At(s, 1), At(s, 2), At(s, 3));
    assert s[..4] == [s[0], s[1], s[2], s[3]];
  }

  lemma OneRecognised(s: Bytes) returns (u: nat)
    requires s != [] && At(s, 0) <= 0x7f
    ensures IsScalar(u) && Encode(u) == s[..1]
  {
    hide Number, Byte;
    ByteOf(s, 0);
    u := At(s, 0);
  }

  // ---- Strings -------------------------------------------------------------------------------------

  ghost predicate AllScalars(us: seq<nat>) {
    forall i | 0 <= i < |us| :: IsScalar(us[i])
  }

  ghost function EncodeAll(us: seq<nat>): Bytes
    requires AllScalars(us)
    decreases |us|
  {
    if us == [] then [] else Encode(us[0]) + EncodeAll(us[1..])
  }

  lemma {:induction false} EncodedIsUtf8(us: seq<nat>)
    requires AllScalars(us)
    ensures IsUtf8(EncodeAll(us))
    decreases |us|
  {
    hide Encode, CharWidth;
    if us != [] {
      var rest := EncodeAll(us[1..]);
      EncodedWidth(us[0], rest);
      EncodedIsUtf8(us[1..]);
      assert (Encode(us[0]) + rest)[|Encode(us[0])|..] == rest;
    }
  }

  lemma {:induction false} Utf8IsEncoded(s: Bytes) returns (us: seq<nat>)
    requires IsUtf8(s)
    ensures AllScalars(us) && EncodeAll(us) == s
    decreases |s|
  {
    hide Encode, CharWidth, IsScalar;
    us := [];
    if s != [] {
      var w := CharWidth(s);
      var u := RecognisedScalar(s);
      var rest := Utf8IsEncoded(s[w..]);
      us := [u] + rest;
      assert us[1..] == rest && s == s[..w] + s[w..];
    }
  }

  /** Text is UTF-8 exactly if it encodes some sequence of scalar values. */
  lemma Utf8Meaning(s: Bytes)
    ensures IsUtf8(s) <==> exists us :: AllScalars(us) && EncodeAll(us) == s
  {
    hide IsUtf8, Encode, AllScalars;
    if IsUtf8(s) {
      var us := Utf8IsEncoded(s);
    }
    if us :| AllScalars(us) && EncodeAll(us) == s {
      EncodedIsUtf8(us);
    }
  }

  // ---- White space ---------------------------------------------------------------------------

  /** The code points with the White_Space property. */
  predicate IsSpace(u: nat) {
    || 0x09 <= u <= 0x0d || u == 0x20 || u == 0x85 || u == 0xa0 || u == 0x1680 || 0x2000 <= u <= 0x200a
    || u == 0x2028 || u == 0x2029 || u == 0x202f || u == 0x205f || u == 0x3000
  }

  lemma Same(a: byte, n: byte)
    ensures a == n <==> Number(a) == Number(n)
  {}

  lemma SpaceConstants()
    ensures Number(0x09) == 0x09 && Number(0x0d) == 0x0d && Number(0x20) == 0x20 && Number(0xc2) == 0xc2
    ensures Number(0x85) == 0x85 && Number(0xa0) == 0xa0 && Number(0xe1) == 0xe1 && Number(0x9a) == 0x9a
    ensures Number(0x80) == 0x80 && Number(0xe2) == 0xe2 && Number(0x8a) == 0x8a && Number(0xa8) == 0xa8
    ensures Number(0xa9) == 0xa9 && Number(0xaf) == 0xaf && Number(0x81) == 0x81 && Number(0x9f) == 0x9f && Number(0xe3) == 0xe3
  {}

  lemma SpaceOne(a: byte)
    ensures IsWhitespace([a]) <==> IsSpace(Number(a)) && Number(a) < 0x80
  {
    hide Number;
    SpaceConstants();
    Ordered(0x09, a);
    Ordered(a, 0x0d);
    Same(a, 0x20);
  }

  lemma SpaceTwo(a: byte, b: byte)
    ensures IsWhitespace([a, b]) <==> Number(a) == 0xc2 && (Number(b) == 0x85 || Number(b) == 0xa0)
  {
    hide Number;
    SpaceConstants();
    Same(a, 0xc2);
    Same(b, 0x85);
    Same(b, 0xa0);
  }

  predicate SpaceGroups(a: nat, b: nat, c: nat) {
    || (a == 0xe1 && b == 0x9a && c == 0x80)
    || (a == 0xe2 && b == 0x80 && (0x80 <= c <= 0x8a || c == 0xa8 || c == 0xa9 || c == 0xaf))
    || (a == 0xe2 && b == 0x81 && c == 0x9f)
    || (a == 0xe3 && b == 0x80 && c == 0x80)
  }

  lemma SpaceThree(a: byte, b: byte, c: byte)
    ensures IsWhitespace([a, b, c]) <==> SpaceGroups(Number(a), Number(b), Number(c))
  {
    hide Number;
    SpaceConstants();
    Same(a, 0xe1);
    Same(b, 0x9a);
    Same(c, 0x80);
    Same(a, 0xe2);
    Same(b, 0x80);
    Ordered(0x80, c);
    Ordered(c, 0x8a);
    Same(c, 0xa8);
    Same(c, 0xa9);
    Same(c, 0xaf);
    Same(b, 0x81);
    Same(c, 0x9f);
    Same(a, 0xe3);
  }

  lemma SpaceNumbers(u: nat)
    requires 0x800 <= u < 0x10000
    ensures SpaceGroups(0xe0 + u / 4096, 0x80 + u / 64 % 64, 0x80 + u % 64) <==> IsSpace(u)
  {
    assert u / 64 == 64 * (u / 4096) + u / 64 % 64;
    assert u == 64 * (u / 64) + u % 64;
  }

  /** A character trimming removes is an encoded code point with the property. */
  lemma WhitespaceMeaning(u: nat)
    requires IsScalar(u)
    ensures IsWhitespace(Encode(u)) <==> IsSpace(u)
  {
    hide Number, Byte, IsWhitespace, SpaceGroups;
    var s := Encode(u);
    if u < 0x80 {
      OneByte(u);
      SpaceOne(s[0]);
    } else if u < 0x800 {
      TwoBytes(u);
      SpaceTwo(s[0], s[1]);
    } else if u < 0x10000 {
      ThreeBytes(u);
      SpaceThree(s[0], s[1], s[2]);
      SpaceNumbers(u);
    } else {
      FourBytes(u);
      WideIsNoSpace(s);
    }
  }

  lemma WideIsNoSpace(s: Bytes)
    requires |s| > 3
    ensures !IsWhitespace(s)
  {}

  // ---- Trimmed text --------------------------------------------------------------------------------

  /** A first byte that is no continuation, and continuations behind it. */
  ghost predicate OneCharacter(c: Bytes) {
    c != [] && !Continuation(c[0]) && forall i | 0 < i < |c| :: Continuation(c[i])
  }

  lemma WhitespaceShape(c: Bytes, rest: Bytes)
    requires IsWhitespace(c)
    ensures OneCharacter(c) && CharWidth(c + rest) == |c| <= 3
  {
    var s := c + rest;
    assert forall i | 0 <= i < |c| :: s[i] == c[i];
  }

  lemma EncodedShape(u: nat)
    requires IsScalar(u)
    ensures OneCharacter(Encode(u))
  {
    hide Encode, Number, Byte, Continuation, Two, Three, Four;
    var s := Encode(u);
    forall i | 0 <= i < |s| ensures Continuation(s[i]) <==> Tail(At(s, i)) {
      TailNumber(s[i]);
    }
    if u < 0x80 {
      OneByte(u);
    } else if u < 0x800 {
      TwoBytes(u);
    } else if u < 0x10000 {
      ThreeBytes(u);
    } else {
      FourBytes(u);
    }
  }

  lemma {:induction false} EncodeAllSplit(us: seq<nat>)
    requires AllScalars(us) && us != []
    ensures EncodeAll(us) == EncodeAll(us[..|us| - 1]) + Encode(us[|us| - 1])
    decreases |us|
  {
    hide Encode;
    if |us| > 1 {
      EncodeAllSplit(us[1..]);
      assert us[1..][..|us| - 2] == us[..|us| - 1][1..];
    }
  }

  /** White space at the start is the first character. */
  lemma LeadingSpace(c: Bytes, rest: Bytes, u: nat, more: Bytes)
    requires IsScalar(u) && c + rest == Encode(u) + more && IsWhitespace(c)
    ensures c == Encode(u)
  {
    hide Encode, CharWidth, IsWhitespace;
    WhitespaceShape(c, rest);
    EncodedWidth(u, more);
    assert (c + rest)[..|c|] == c && (Encode(u) + more)[..|Encode(u)|] == Encode(u);
  }

  lemma Follows(c: Bytes, i: nat)
    requires OneCharacter(c) && i < |c|
    ensures Continuation(c[i]) <==> i > 0
  {
    hide Continuation;
  }

  /** One character at the end is the last one. */
  lemma LastCharacter(front: Bytes, c: Bytes, rest: Bytes, d: Bytes)
    requires front + c == rest + d && OneCharacter(c) && OneCharacter(d) && |c| > 0 && |d| > 0
    ensures c == d
  {
    hide Continuation, OneCharacter;
    var s := front + c;
    assert s[|front|] == c[0] && s[|rest|] == d[0];
    if |front| < |rest| {
      assert s[|rest|] == c[|rest| - |front|];
      Follows(c, |rest| - |front|);
      Follows(d, 0);
    } else if |front| > |rest| {
      assert s[|front|] == d[|front| - |rest|];
      Follows(d, |front| - |rest|);
      Follows(c, 0);
    } else {
      assert s[|front|..] == c && s[|front|..] == d;
    }
  }

  ghost predicate SpaceAhead(s: Bytes) {
    exists n :: 1 <= n <= 3 && n <= |s| && IsWhitespace(s[..n])
  }

  ghost predicate SpaceBehind(s: Bytes) {
    exists k :: 0 <= k < |s| <= k + 3 && IsWhitespace(s[k..])
  }

  lemma AheadMeaning(u: nat, more: Bytes)
    requires IsScalar(u)
    ensures SpaceAhead(Encode(u) + more) <==> IsSpace(u)
  {
    hide Encode, CharWidth, IsWhitespace, IsSpace, OneCharacter, IsScalar;
    var c := Encode(u);
    var s := c + more;
    WhitespaceMeaning(u);
    assert s[..|c|] == c;
    if IsWhitespace(c) {
      WhitespaceShape(c, []);
    }
    if n :| 1 <= n <= 3 && n <= |s| && IsWhitespace(s[..n]) {
      assert s == s[..n] + s[n..];
      LeadingSpace(s[..n], s[n..], u, more);
    }
  }

  lemma BehindMeaning(front: Bytes, u: nat)
    requires IsScalar(u)
    ensures SpaceBehind(front + Encode(u)) <==> IsSpace(u)
  {
    hide Encode, CharWidth, IsWhitespace, IsSpace, OneCharacter, IsScalar;
    var c := Encode(u);
    var s := front + c;
    WhitespaceMeaning(u);
    assert s[|front|..] == c;
    if IsWhitespace(c) {
      WhitespaceShape(c, []);
    }
    if k :| 0 <= k < |s| <= k + 3 && IsWhitespace(s[k..]) {
      WhitespaceShape(s[k..], []);
      EncodedShape(u);
      assert s == s[..k] + s[k..];
      LastCharacter(front, c, s[..k], s[k..]);
    }
  }

  /** Text is trimmed exactly if neither its first nor its last code point is white space. */
  lemma TrimmedMeaning(us: seq<nat>)
    requires AllScalars(us) && us != []
    ensures Trimmed(EncodeAll(us)) <==> !IsSpace(us[0]) && !IsSpace(us[|us| - 1])
  {
    hide Encode, IsWhitespace, IsSpace, IsScalar;
    EncodeAllSplit(us);
    AheadMeaning(us[0], EncodeAll(us[1..]));
    BehindMeaning(EncodeAll(us[..|us| - 1]), us[|us| - 1]);
  }
}
