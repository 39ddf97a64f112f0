/** Primitives of the compact snapshot format, as printers and parsers.

    A printer puts a value in front of the bytes that follow it; a parser takes it off
    the front again.  Unsigned integers are LEB128 (section 7.6 of DWARF 5) limited to
    64 bits, signed ones are zigzag coded, text and collections carry their length.
 */
module CompactIo {
  import opened Common

  type Bytes = seq<byte>

  datatype Parsed<+T> = Done(value: T, rest: Bytes) | Malformed {
    predicate IsFailure() {
      Malformed?
    }

    function PropagateFailure<U>(): Parsed<U>
      requires Malformed?
    {
      Malformed
    }

    function Extract(): (T, Bytes)
      requires Done?
    {
      (value, rest)
    }
  }

  // ---- The two laws every pair of printer and parser obeys ----------------------------

  /** What was put comes back, and so does everything behind it. */
  ghost predicate Inverts<T(!new)>(put: (T, Bytes) -> Bytes, read: Bytes -> Parsed<T>, x: T) {
    forall q :: read(put(x, q)) == Done(x, q)
  }

  ghost predicate Refuses<T(!new)>(put: (T, Bytes) -> Bytes, read: Bytes -> Parsed<T>, x: T) {
    forall q :: read(put(x, q)) == Malformed
  }

  /** A parser that succeeds consumes something and does not care what follows. */
  ghost predicate Extends<T(!new)>(read: Bytes -> Parsed<T>) {
    forall r, more :: Extended(read, r, more)
  }

  ghost predicate Extended<T(!new)>(read: Bytes -> Parsed<T>, r: Bytes, more: Bytes) {
    read(r).Done? ==> |read(r).rest| < |r| && read(r + more) == Done(read(r).value, read(r).rest + more)
  }

  ghost predicate Yields<T(!new)>(read: Bytes -> Parsed<T>, ok: T -> bool) {
    forall r :: read(r).Done? ==> ok(read(r).value)
  }

  ghost predicate Grows<T(!new)>(put: (T, Bytes) -> Bytes) {
    forall x, q :: |put(x, q)| > |q|
  }

  // ---- Unsigned integers -----------------------------------------------------------------

  function PutVarint(n: nat, q: Bytes): (r: Bytes)
    ensures |r| > |q|
    decreases n
  {
    if n < 128 then [ToByte(n)] + q else [ToByte(n % 128 + 128)] + PutVarint(n / 128, q)
  }

  /** Values that fit into the groups from number `i` on; group 9 has a single bit. */
  function Limit(i: nat): (n: nat)
    requires i <= 9
    ensures n >= 2
    decreases 9 - i
  {
    if i == 9 then 2 else 128 * Limit(i + 1)
  }

  function ReadGroups(r: Bytes, i: nat): (p: Parsed<nat>)
    requires i <= 9
    ensures p.Done? ==> p.value < Limit(i) && |p.rest| < |r|
    decreases 9 - i
  {
    if r == [] then Malformed
    else
      var b := FromByte(r[0]);
      if i == 9 then (if b > 1 then Malformed else Done(b, r[1..]))
      else if b < 128 then Done(b, r[1..])
      else
        var (v, rest) :- ReadGroups(r[1..], i + 1);
        Done(b - 128 + 128 * v, rest)
  }

  lemma LimitIsU64()
    ensures Limit(0) == U64_LIMIT
  {
    assert Limit(8) == 256;
    assert Limit(6) == 256 * 16384;
    assert Limit(4) == 256 * 16384 * 16384;
    assert Limit(2) == 256 * 16384 * 16384 * 16384;
  }

  function ReadVarint(r: Bytes): (p: Parsed<u64>)
    ensures p.Done? ==> |p.rest| < |r|
  {
    LimitIsU64();
    match ReadGroups(r, 0)
    case Done(v, rest) => Done(v, rest)
    case Malformed => Malformed
  }

  lemma {:induction false} GroupsRoundTrip(n: nat, i: nat, q: Bytes)
    requires i <= 9 && n < Limit(i)
    ensures ReadGroups(PutVarint(n, q), i) == Done(n, q)
    decreases 9 - i
  {
    hide ToByte, FromByte;
    if n < 128 {
      assert ([ToByte(n)] + q)[1..] == q;
    } else {
      var tail := PutVarint(n / 128, q);
      var head := ToByte(n % 128 + 128);
      assert ([head] + tail)[1..] == tail;
      GroupsRoundTrip(n / 128, i + 1, q);
    }
  }

  /** Every 64-bit value survives, whatever follows it. */
  lemma VarintRoundTrip(n: u64, q: Bytes)
    ensures ReadVarint(PutVarint(n, q)) == Done(n, q)
  {
    LimitIsU64();
    GroupsRoundTrip(n, 0, q);
  }

  /** The value of groups of seven bits, least significant first. */
  ghost function GroupsValue(groups: Bytes): nat
    decreases |groups|
  {
    if groups == [] then 0 else FromByte(groups[0]) % 128 + 128 * GroupsValue(groups[1..])
  }

  /** The LEB128 form: as many groups as needed, all but the last with their top bit set, that add up to the
      number, and the last of them not zero unless it is the only one. */
  ghost predicate IsLeb128(groups: Bytes, n: nat) {
    && groups != [] && GroupsValue(groups) == n
    && (forall i | 0 <= i < |groups| - 1 :: FromByte(groups[i]) >= 128)
    && FromByte(groups[|groups| - 1]) < 128
    && (|groups| > 1 ==> FromByte(groups[|groups| - 1]) > 0)
  }

  lemma OneGroup(b: byte)
    requires FromByte(b) < 128
    ensures IsLeb128([b], FromByte(b))
  {
    hide FromByte;
    var groups := [b];
    assert groups[1..] == [];
    assert GroupsValue(groups[1..]) == 0;
  }

  lemma AnotherGroup(b: byte, rest: Bytes, v: nat)
    requires FromByte(b) >= 128 && IsLeb128(rest, v) && v > 0
    ensures IsLeb128([b] + rest, FromByte(b) % 128 + 128 * v)
  {
    hide FromByte;
    var groups := [b] + rest;
    assert groups[1..] == rest;
    assert groups[|groups| - 1] == rest[|rest| - 1];
    if |rest| == 1 {
      assert GroupsValue(rest[1..]) == 0;
    }
  }

  /** What is written for a number is its LEB128 form. */
  lemma {:induction false} VarintMeaning(n: nat, q: Bytes)
    ensures exists groups: Bytes :: PutVarint(n, q) == groups + q && IsLeb128(groups, n)
    decreases n
  {
    hide ToByte, FromByte, IsLeb128;
    if n < 128 {
      var groups := [ToByte(n)];
      OneGroup(ToByte(n));
      assert PutVarint(n, q) == groups + q;
    } else {
      VarintMeaning(n / 128, q);
      var rest: Bytes :| PutVarint(n / 128, q) == rest + q && IsLeb128(rest, n / 128);
      var head := ToByte(n % 128 + 128);
      AnotherGroup(head, rest, n / 128);
      var groups := [head] + rest;
      assert PutVarint(n, q) == groups + q;
    }
  }

  lemma {:induction false} GroupsExtend(r: Bytes, i: nat, more: Bytes)
    requires i <= 9 && ReadGroups(r, i).Done?
    ensures ReadGroups(r + more, i) == Done(ReadGroups(r, i).value, ReadGroups(r, i).rest + more)
    decreases 9 - i
  {
    hide FromByte;
    assert (r + more)[1..] == r[1..] + more;
    if i < 9 && FromByte(r[0]) >= 128 {
      GroupsExtend(r[1..], i + 1, more);
    }
  }

  lemma VarintExtends(r: Bytes, more: Bytes)
    ensures Extended(ReadVarint, r, more)
  {
    if ReadVarint(r).Done? {
      GroupsExtend(r, 0, more);
    }
  }

  // ---- Signed integers -----------------------------------------------------------------------

  /** Zigzag: small magnitudes of either sign become small numbers. */
  function Zigzag(v: i64): u64 {
    if v >= 0 then 2 * v else -2 * v - 1
  }

  function Unzigzag(n: u64): i64 {
    if n % 2 == 0 then n / 2 else -(n / 2) - 1
  }

  /** The code is a bijection between the two 64-bit ranges. */
  lemma ZigzagBijective(v: i64, n: u64)
    ensures Unzigzag(Zigzag(v)) == v && Zigzag(Unzigzag(n)) == n
  {}

  function PutSigned(v: i64, q: Bytes): Bytes {
    PutVarint(Zigzag(v), q)
  }

  function ReadSigned(r: Bytes): Parsed<i64> {
    var (n, rest) :- ReadVarint(r);
    Done(Unzigzag(n), rest)
  }

  lemma SignedRoundTrip(v: i64, q: Bytes)
    ensures ReadSigned(PutSigned(v, q)) == Done(v, q)
  {
    VarintRoundTrip(Zigzag(v), q);
    ZigzagBijective(v, 0);
  }

  lemma SignedExtends(r: Bytes, more: Bytes)
    ensures Extended(ReadSigned, r, more)
  {
    hide ReadVarint;
    VarintExtends(r, more);
  }

  // ---- Tags and options ------------------------------------------------------------------------

  function PutBool(b: bool, q: Bytes): Bytes {
    [if b then 1 as byte else 0] + q
  }

  function ReadBool(r: Bytes): Parsed<bool> {
    if r == [] then Malformed
    else if r[0] == 0 then Done(false, r[1..])
    else if r[0] == 1 then Done(true, r[1..])
    else Malformed
  }

  lemma BoolRoundTrip(b: bool, q: Bytes)
    ensures ReadBool(PutBool(b, q)) == Done(b, q)
  {
    assert PutBool(b, q)[1..] == q;
  }

  lemma BoolExtends(r: Bytes, more: Bytes)
    ensures Extended(ReadBool, r, more)
  {
    if r != [] {
      assert (r + more)[1..] == r[1..] + more;
    }
  }

  function PutOption<T>(put: (T, Bytes) -> Bytes, x: Option<T>, q: Bytes): Bytes {
    match x
    case None => PutBool(false, q)
    case Some(v) => PutBool(true, put(v, q))
  }

  function ReadOption<T>(read: Bytes -> Parsed<T>, r: Bytes): Parsed<Option<T>> {
    var (some, r1) :- ReadBool(r);
    if some then
      var (v, r2) :- read(r1);
      Done(Some(v), r2)
    else Done(None, r1)
  }

  lemma OptionRoundTrip<T(!new)>(put: (T, Bytes) -> Bytes, read: Bytes -> Parsed<T>, x: Option<T>, q: Bytes)
    requires x.Some? ==> Inverts(put, read, x.value)
    ensures ReadOption(read, PutOption(put, x, q)) == Done(x, q)
  {
    match x
    case None => BoolRoundTrip(false, q);
    case Some(v) => BoolRoundTrip(true, put(v, q));
  }

  lemma OptionExtends<T(!new)>(read: Bytes -> Parsed<T>, r: Bytes, more: Bytes)
    requires Extends(read)
    ensures var p := ReadOption(read, r);
            p.Done? ==> |p.rest| < |r| && ReadOption(read, r + more) == Done(p.value, p.rest + more)
  {
    hide ReadBool;
    BoolExtends(r, more);
    if ReadBool(r).Done? {
      assert Extended(read, ReadBool(r).rest, more);
    }
  }

  // ---- Text ---------------------------------------------------------------------------------------

  function PutText(s: Text, q: Bytes): Bytes {
    PutVarint(|s|, s + q)
  }

  function ReadText(r: Bytes): Parsed<Text> {
    var (n, r1) :- ReadVarint(r);
    if n > |r1| then Malformed
    else if !IsUtf8(r1[..n]) then Malformed
    else Done(r1[..n], r1[n..])
  }

  function ReadId(r: Bytes): Parsed<Id> {
    var (s, r1) :- ReadText(r);
    if IsProperText(s) then Done(s, r1) else Malformed
  }

  /** Text the source's string type can hold. */
  predicate TextOk(s: Text) {
    IsText(s) && |s| < U64_LIMIT
  }

  predicate IdOk(s: Id) {
    IsId(s) && |s| < U64_LIMIT
  }

  lemma TextRoundTrip(s: Text, q: Bytes)
    requires TextOk(s)
    ensures ReadText(PutText(s, q)) == Done(s, q)
  {
    hide IsUtf8, ReadVarint;
    VarintRoundTrip(|s|, s + q);
    assert (s + q)[..|s|] == s && (s + q)[|s|..] == q;
  }

  lemma IdRoundTrip(s: Id, q: Bytes)
    requires IdOk(s)
    ensures ReadId(PutText(s, q)) == Done(s, q)
  {
    hide IsUtf8, IsProperText, ReadText;
    TextRoundTrip(s, q);
  }

  lemma TextExtends(r: Bytes, more: Bytes)
    ensures Extended(ReadText, r, more)
  {
    hide IsUtf8, ReadVarint;
    VarintExtends(r, more);
    if ReadText(r).Done? {
      var n, r1 := ReadVarint(r).value, ReadVarint(r).rest;
      assert (r1 + more)[..n] == r1[..n] && (r1 + more)[n..] == r1[n..] + more;
    }
  }

  lemma IdExtends(r: Bytes, more: Bytes)
    ensures Extended(ReadId, r, more)
  {
    hide ReadText, IsProperText;
    TextExtends(r, more);
  }

  lemma TextYields(r: Bytes)
    ensures ReadText(r).Done? ==> TextOk(ReadText(r).value)
    ensures ReadId(r).Done? ==> IdOk(ReadId(r).value)
  {
    hide IsUtf8, IsProperText, ReadVarint;
  }

  // ---- Collections ------------------------------------------------------------------------------------

  /** A count may not exceed the bytes that remain. */
  function ReadCount(r: Bytes): Parsed<u64> {
    var (n, r1) :- ReadVarint(r);
    if n > |r1| then Malformed else Done(n, r1)
  }

  lemma CountRoundTrip(n: u64, q: Bytes)
    requires n <= |q|
    ensures ReadCount(PutVarint(n, q)) == Done(n, q)
  {
    hide ReadVarint;
    VarintRoundTrip(n, q);
  }

  lemma CountExtends(r: Bytes, more: Bytes)
    ensures Extended(ReadCount, r, more)
  {
    hide ReadVarint;
    VarintExtends(r, more);
  }

  function PutAll<T>(put: (T, Bytes) -> Bytes, xs: seq<T>, q: Bytes): Bytes
    decreases |xs|
  {
    if xs == [] then q else put(xs[0], PutAll(put, xs[1..], q))
  }

  function ReadMany<T>(read: Bytes -> Parsed<T>, r: Bytes, n: nat, acc: seq<T>): Parsed<seq<T>>
    decreases n
  {
    if n == 0 then Done(acc, r)
    else
      var (x, r1) :- read(r);
      ReadMany(read, r1, n - 1, acc + [x])
  }

  lemma {:induction false} PutAllGrows<T(!new)>(put: (T, Bytes) -> Bytes, xs: seq<T>, q: Bytes)
    requires Grows(put)
    ensures |PutAll(put, xs, q)| >= |xs| + |q|
    decreases |xs|
  {
    if xs != [] {
      PutAllGrows(put, xs[1..], q);
    }
  }

  lemma {:induction false} ManyRoundTrip<T(!new)>(put: (T, Bytes) -> Bytes, read: Bytes -> Parsed<T>, xs: seq<T>, q: Bytes, acc: seq<T>)
    requires forall i | 0 <= i < |xs| :: Inverts(put, read, xs[i])
    ensures ReadMany(read, PutAll(put, xs, q), |xs|, acc) == Done(acc + xs, q)
    decreases |xs|
  {
    if xs == [] {
      assert acc + xs == acc;
    } else {
      assert Inverts(put, read, xs[0]);
      assert read(put(xs[0], PutAll(put, xs[1..], q))).Done?;
      ManyRoundTrip(put, read, xs[1..], q, acc + [xs[0]]);
      assert (acc + [xs[0]]) + xs[1..] == acc + xs;
    }
  }

  /** One item the parser refuses spoils the whole list. */
  lemma {:induction false} ManyRefused<T(!new)>(put: (T, Bytes) -> Bytes, read: Bytes -> Parsed<T>, xs: seq<T>, q: Bytes, acc: seq<T>)
    requires forall i | 0 <= i < |xs| :: Inverts(put, read, xs[i]) || Refuses(put, read, xs[i])
    requires exists i :: 0 <= i < |xs| && Refuses(put, read, xs[i])
    ensures ReadMany(read, PutAll(put, xs, q), |xs|, acc) == Malformed
    decreases |xs|
  {
    var tail := PutAll(put, xs[1..], q);
    if Refuses(put, read, xs[0]) {
      assert read(put(xs[0], tail)) == Malformed;
    } else {
      assert Inverts(put, read, xs[0]);
      assert read(put(xs[0], tail)).Done?;
      var i :| 0 <= i < |xs| && Refuses(put, read, xs[i]);
      assert xs[1..][i - 1] == xs[i];
      ManyRefused(put, read, xs[1..], q, acc + [xs[0]]);
    }
  }

  lemma {:induction false} ManyExtends<T(!new)>(read: Bytes -> Parsed<T>, r: Bytes, n: nat, acc: seq<T>, more: Bytes)
    requires Extends(read)
    ensures var p := ReadMany(read, r, n, acc);
            p.Done? ==> |p.rest| <= |r| && ReadMany(read, r + more, n, acc) == Done(p.value, p.rest + more)
    decreases n
  {
    if n > 0 {
      assert Extended(read, r, more);
      if read(r).Done? {
        ManyExtends(read, read(r).rest, n - 1, acc + [read(r).value], more);
      }
    }
  }

  lemma {:induction false} ManyYields<T(!new)>(read: Bytes -> Parsed<T>, ok: T -> bool, r: Bytes, n: nat, acc: seq<T>)
    requires Yields(read, ok) && forall i | 0 <= i < |acc| :: ok(acc[i])
    ensures var p := ReadMany(read, r, n, acc);
            p.Done? ==> |p.value| == |acc| + n && forall i | 0 <= i < |p.value| :: ok(p.value[i])
    decreases n
  {
    if n > 0 && read(r).Done? {
      ManyYields(read, ok, read(r).rest, n - 1, acc + [read(r).value]);
    }
  }

  /** A list behind its count. */
  function PutList<T>(put: (T, Bytes) -> Bytes, xs: seq<T>, q: Bytes): Bytes {
    PutVarint(|xs|, PutAll(put, xs, q))
  }

  function ReadList<T>(read: Bytes -> Parsed<T>, r: Bytes): Parsed<seq<T>> {
    var (n, r1) :- ReadCount(r);
    ReadMany(read, r1, n, [])
  }

  lemma ListRoundTrip<T(!new)>(put: (T, Bytes) -> Bytes, read: Bytes -> Parsed<T>, xs: seq<T>, q: Bytes)
    requires Grows(put) && |xs| < U64_LIMIT && forall i | 0 <= i < |xs| :: Inverts(put, read, xs[i])
    ensures ReadList(read, PutList(put, xs, q)) == Done(xs, q)
  {
    hide ReadCount, ReadMany, Inverts, PutVarint, Grows;
    PutAllGrows(put, xs, q);
    CountRoundTrip(|xs|, PutAll(put, xs, q));
    ManyRoundTrip(put, read, xs, q, []);
    assert [] + xs == xs;
  }

  lemma ListRefused<T(!new)>(put: (T, Bytes) -> Bytes, read: Bytes -> Parsed<T>, xs: seq<T>, q: Bytes)
    requires Grows(put) && |xs| < U64_LIMIT
    requires forall i | 0 <= i < |xs| :: Inverts(put, read, xs[i]) || Refuses(put, read, xs[i])
    requires exists i :: 0 <= i < |xs| && Refuses(put, read, xs[i])
    ensures ReadList(read, PutList(put, xs, q)) == Malformed
  {
    hide ReadCount, ReadMany, Inverts, Refuses, PutVarint, Grows;
    PutAllGrows(put, xs, q);
    CountRoundTrip(|xs|, PutAll(put, xs, q));
    ManyRefused(put, read, xs, q, []);
  }

  lemma ListExtends<T(!new)>(read: Bytes -> Parsed<T>, r: Bytes, more: Bytes)
    requires Extends(read)
    ensures var p := ReadList(read, r);
            p.Done? ==> |p.rest| < |r| && ReadList(read, r + more) == Done(p.value, p.rest + more)
  {
    hide ReadCount, ReadMany, Extends;
    CountExtends(r, more);
    if ReadCount(r).Done? {
      ManyExtends(read, ReadCount(r).rest, ReadCount(r).value, [], more);
    }
  }

  lemma ListYields<T(!new)>(read: Bytes -> Parsed<T>, ok: T -> bool, r: Bytes)
    requires Yields(read, ok)
    ensures var p := ReadList(read, r);
            p.Done? ==> |p.value| < U64_LIMIT && forall i | 0 <= i < |p.value| :: ok(p.value[i])
  {
    hide ReadCount, ReadMany, Yields;
    if ReadCount(r).Done? {
      ManyYields(read, ok, ReadCount(r).rest, ReadCount(r).value, []);
    }
  }

  // ---- Maps, written in key order ---------------------------------------------------------------------------

  type Entry<V> = (Bytes, V)

  function PutEntries<V>(put: (Entry<V>, Bytes) -> Bytes, keys: seq<Bytes>, m: map<Bytes, V>, q: Bytes): Bytes
    requires forall i | 0 <= i < |keys| :: keys[i] in m
    decreases |keys|
  {
    if keys == [] then q else put((keys[0], m[keys[0]]), PutEntries(put, keys[1..], m, q))
  }

  /** Entries are inserted as they come; a repeated key is an error. */
  function ReadEntries<V>(read: Bytes -> Parsed<Entry<V>>, r: Bytes, n: nat, acc: map<Bytes, V>): Parsed<map<Bytes, V>>
    decreases n
  {
    if n == 0 then Done(acc, r)
    else
      var (e, r1) :- read(r);
      if e.0 in acc then Malformed else ReadEntries(read, r1, n - 1, acc[e.0 := e.1])
  }

  function Restrict<V>(m: map<Bytes, V>, keys: seq<Bytes>): map<Bytes, V> {
    map k | k in m && k in keys :: m[k]
  }

  ghost predicate Distinct(keys: seq<Bytes>) {
    forall i, j | 0 <= i < j < |keys| :: keys[i] != keys[j]
  }

  lemma {:induction false} PutEntriesGrows<V(!new)>(put: (Entry<V>, Bytes) -> Bytes, keys: seq<Bytes>, m: map<Bytes, V>, q: Bytes)
    requires Grows(put) && forall i | 0 <= i < |keys| :: keys[i] in m
    ensures |PutEntries(put, keys, m, q)| >= |keys| + |q|
    decreases |keys|
  {
    if keys != [] {
      PutEntriesGrows(put, keys[1..], m, q);
    }
  }

  lemma RestrictFirst<V>(m: map<Bytes, V>, keys: seq<Bytes>, acc: map<Bytes, V>)
    requires keys != [] && keys[0] in m
    ensures acc[keys[0] := m[keys[0]]] + Restrict(m, keys[1..]) == acc + Restrict(m, keys)
  {
    assert forall k :: k in keys <==> k == keys[0] || k in keys[1..];
  }

  lemma {:induction false} EntriesRoundTrip<V(!new)>(put: (Entry<V>, Bytes) -> Bytes, read: Bytes -> Parsed<Entry<V>>,
                                                     keys: seq<Bytes>, m: map<Bytes, V>, q: Bytes, acc: map<Bytes, V>)
    requires Distinct(keys) && forall i | 0 <= i < |keys| :: keys[i] in m && keys[i] !in acc
    requires forall i | 0 <= i < |keys| :: Inverts(put, read, (keys[i], m[keys[i]]))
    ensures ReadEntries(read, PutEntries(put, keys, m, q), |keys|, acc) == Done(acc + Restrict(m, keys), q)
    decreases |keys|
  {
    if keys == [] {
      assert acc + Restrict(m, keys) == acc;
    } else {
      var k, rest := keys[0], keys[1..];
      var tail := PutEntries(put, rest, m, q);
      assert Inverts(put, read, (k, m[k]));
      assert read(put((k, m[k]), tail)).Done?;
      hide Inverts;
      forall i | 0 <= i < |rest| ensures rest[i] in m && rest[i] !in acc[k := m[k]] && Inverts(put, read, (rest[i], m[rest[i]])) {
        assert rest[i] == keys[i + 1];
      }
      EntriesRoundTrip(put, read, rest, m, q, acc[k := m[k]]);
      RestrictFirst(m, keys, acc);
    }
  }

  lemma {:induction false} EntriesExtend<V(!new)>(read: Bytes -> Parsed<Entry<V>>, r: Bytes, n: nat, acc: map<Bytes, V>, more: Bytes)
    requires Extends(read)
    ensures var p := ReadEntries(read, r, n, acc);
            p.Done? ==> |p.rest| <= |r| && ReadEntries(read, r + more, n, acc) == Done(p.value, p.rest + more)
    decreases n
  {
    if n > 0 {
      assert Extended(read, r, more);
      if read(r).Done? && read(r).value.0 !in acc {
        EntriesExtend(read, read(r).rest, n - 1, acc[read(r).value.0 := read(r).value.1], more);
      }
    }
  }

  lemma {:induction false} EntriesYield<V(!new)>(read: Bytes -> Parsed<Entry<V>>, ok: Entry<V> -> bool, r: Bytes, n: nat,
                                                 acc: map<Bytes, V>)
    requires Yields(read, ok) && forall k | k in acc :: ok((k, acc[k]))
    ensures var p := ReadEntries(read, r, n, acc);
            p.Done? ==> |p.value| == |acc| + n && forall k | k in p.value :: ok((k, p.value[k]))
    decreases n
  {
    if n > 0 && read(r).Done? && read(r).value.0 !in acc {
      var (k, v) := read(r).value;
      assert ok((k, v));
      var next := acc[k := v];
      assert next.Keys == acc.Keys + {k};
      assert |next| == |acc| + 1;
      assert forall j | j in next :: ok((j, next[j]));
      EntriesYield(read, ok, read(r).rest, n - 1, next);
    }
  }

  // ---- Key order ------------------------------------------------------------------------------------------------

  /** Lexicographic order of byte strings. */
  predicate LexLe(a: Bytes, b: Bytes)
    decreases |a|
  {
    a == [] || (b != [] && (a[0] < b[0] || (a[0] == b[0] && LexLe(a[1..], b[1..]))))
  }

  lemma {:induction false} LexTotal(a: Bytes, b: Bytes)
    ensures LexLe(a, b) || LexLe(b, a)
    ensures LexLe(a, b) && LexLe(b, a) ==> a == b
    decreases |a|
  {
    if a != [] && b != [] {
      LexTotal(a[1..], b[1..]);
      assert a == [a[0]] + a[1..] && b == [b[0]] + b[1..];
    }
  }

  lemma {:induction false} LexTransitive(a: Bytes, b: Bytes, c: Bytes)
    requires LexLe(a, b) && LexLe(b, c)
    ensures LexLe(a, c)
    decreases |a|
  {
    if a != [] && a[0] == b[0] && b[0] == c[0] {
      LexTransitive(a[1..], b[1..], c[1..]);
    }
  }

  /** `a` and `b` agree before `i`, where `a` ends or has the smaller byte. */
  ghost predicate DiffersAt(a: Bytes, b: Bytes, i: nat) {
    && i <= |a| && i <= |b| && a[..i] == b[..i]
    && (i == |a| || (i < |b| && i < |a| && a[i] < b[i]))
  }

  /** The first comes strictly before the second, told by their first difference. */
  ghost predicate ComesBefore(a: Bytes, b: Bytes) {
    a != b && exists i: nat :: DiffersAt(a, b, i)
  }

  /** The order is that of the first difference, a prefix coming first. */
  lemma {:induction false} LexMeaning(a: Bytes, b: Bytes)
    ensures LexLe(a, b) <==> exists i: nat :: DiffersAt(a, b, i)
    decreases |a|
  {
    if a == [] {
      assert DiffersAt(a, b, 0);
    } else if b != [] {
      if a[0] < b[0] {
        assert DiffersAt(a, b, 0);
      } else if a[0] == b[0] {
        LexMeaning(a[1..], b[1..]);
        if i: nat :| DiffersAt(a[1..], b[1..], i) {
          assert a[..i + 1] == [a[0]] + a[1..][..i] && b[..i + 1] == [b[0]] + b[1..][..i];
          assert DiffersAt(a, b, i + 1);
        }
        if i: nat :| DiffersAt(a, b, i) {
          assert i > 0;
          assert a[1..][..i - 1] == a[..i][1..] && b[1..][..i - 1] == b[..i][1..];
          assert DiffersAt(a[1..], b[1..], i - 1);
        }
      } else {
        forall i: nat ensures !DiffersAt(a, b, i) {
          if 0 < i <= |a| && i <= |b| {
            assert a[..i][0] == a[0] && b[..i][0] == b[0];
          }
        }
      }
    }
  }

  lemma NotBoth(a: Bytes, b: Bytes)
    ensures a != b ==> (ComesBefore(a, b) <==> !ComesBefore(b, a))
  {
    hide DiffersAt, LexLe;
    LexMeaning(a, b);
    LexMeaning(b, a);
    LexTotal(a, b);
  }

  ghost predicate IsLeast(k: Bytes, s: set<Bytes>) {
    k in s && forall j | j in s :: LexLe(k, j)
  }

  lemma {:induction false} LeastExists(s: set<Bytes>) returns (k: Bytes)
    requires s != {}
    ensures IsLeast(k, s)
    decreases |s|
  {
    k :| k in s;
    var rest := s - {k};
    LexTotal(k, k);
    if rest != {} {
      var j := LeastExists(rest);
      LexTotal(k, j);
      if LexLe(j, k) {
        k := j;
      } else {
        forall x | x in s ensures LexLe(k, x) {
          if x != k {
            LexTransitive(k, j, x);
          }
        }
      }
    }
  }

  lemma HasLeast(s: set<Bytes>)
    requires s != {}
    ensures exists k :: IsLeast(k, s)
  {
    var k := LeastExists(s);
  }

  lemma LeastUnique(j: Bytes, k: Bytes, s: set<Bytes>)
    requires IsLeast(j, s) && IsLeast(k, s)
    ensures j == k
  {
    LexTotal(j, k);
  }

  ghost function Least(s: set<Bytes>): (k: Bytes)
    requires s != {}
    ensures IsLeast(k, s)
  {
    HasLeast(s);
    var k :| IsLeast(k, s);
    k
  }

  /** The keys of a map in the order a sorted map iterates over them. */
  ghost function SortedKeys(s: set<Bytes>): (r: seq<Bytes>)
    ensures |r| == |s| && (forall k :: k in r <==> k in s) && Distinct(r)
    decreases |s|
  {
    if s == {} then []
    else
      var k := Least(s);
      var rest := SortedKeys(s - {k});
      [k] + rest
  }

  lemma RestrictAll<V>(m: map<Bytes, V>)
    ensures Restrict(m, SortedKeys(m.Keys)) == m
  {}

  lemma KeysInMap<V>(m: map<Bytes, V>)
    ensures forall i | 0 <= i < |SortedKeys(m.Keys)| :: SortedKeys(m.Keys)[i] in m
  {
    var keys := SortedKeys(m.Keys);
    forall i | 0 <= i < |keys| ensures keys[i] in m {
      assert keys[i] in keys;
    }
  }

  lemma SortedKeysFirst(s: set<Bytes>, k: Bytes)
    requires IsLeast(k, s)
    ensures SortedKeys(s) == [k] + SortedKeys(s - {k})
  {
    LeastUnique(k, Least(s), s);
  }

  // ---- What a map is read from ---------------------------------------------------------------------------

  ghost predicate DistinctKeys<V>(entries: seq<Entry<V>>) {
    forall i, j | 0 <= i < j < |entries| :: entries[i].0 != entries[j].0
  }

  /** The map holds exactly these entries. */
  ghost predicate Collects<V>(m: map<Bytes, V>, entries: seq<Entry<V>>) {
    && (forall i | 0 <= i < |entries| :: entries[i].0 in m && m[entries[i].0] == entries[i].1)
    && forall k | k in m :: exists i :: 0 <= i < |entries| && entries[i].0 == k
  }

  lemma {:induction false} ManyKeeps<T>(read: Bytes -> Parsed<T>, r: Bytes, n: nat, acc: seq<T>)
    ensures ReadMany(read, r, n, acc).Done? ==> acc <= ReadMany(read, r, n, acc).value
    decreases n
  {
    if n > 0 && read(r).Done? {
      ManyKeeps(read, read(r).rest, n - 1, acc + [read(r).value]);
    }
  }

  /** A map is read exactly where a list of its entries is, in any order, if no key is repeated; it then holds
      those entries. */
  lemma {:induction false} EntriesMeaning<V>(read: Bytes -> Parsed<Entry<V>>, r: Bytes, n: nat, acc: map<Bytes, V>, done: seq<Entry<V>>)
    requires Collects(acc, done) && DistinctKeys(done)
    ensures var p, list := ReadEntries(read, r, n, acc), ReadMany(read, r, n, done);
            && (p.Done? <==> list.Done? && DistinctKeys(list.value))
            && (p.Done? ==> p.rest == list.rest && Collects(p.value, list.value))
    decreases n
  {
    if n > 0 && read(r).Done? {
      var e, rest := read(r).value, read(r).rest;
      if e.0 in acc {
        var i :| 0 <= i < |done| && done[i].0 == e.0;
        ManyKeeps(read, rest, n - 1, done + [e]);
        var list := ReadMany(read, rest, n - 1, done + [e]);
        if list.Done? {
          assert list.value[i] == (done + [e])[i] && list.value[|done|] == (done + [e])[|done|];
        }
      } else {
        CollectsMore(acc, done, e);
        EntriesMeaning(read, rest, n - 1, acc[e.0 := e.1], done + [e]);
      }
    }
  }

  lemma CollectsMore<V>(m: map<Bytes, V>, entries: seq<Entry<V>>, e: Entry<V>)
    requires Collects(m, entries) && DistinctKeys(entries) && e.0 !in m
    ensures Collects(m[e.0 := e.1], entries + [e]) && DistinctKeys(entries + [e])
  {
    var more, put := entries + [e], m[e.0 := e.1];
    forall k | k in put ensures exists i :: 0 <= i < |more| && more[i].0 == k {
      if k == e.0 {
        assert more[|entries|].0 == k;
      } else {
        var i :| 0 <= i < |entries| && entries[i].0 == k;
        assert more[i].0 == k;
      }
    }
  }

  /** A map behind its size, entries in key order. */
  ghost function PutMap<V>(put: (Entry<V>, Bytes) -> Bytes, m: map<Bytes, V>, q: Bytes): Bytes {
    KeysInMap(m);
    PutVarint(|m|, PutEntries(put, SortedKeys(m.Keys), m, q))
  }

  function ReadMap<V>(read: Bytes -> Parsed<Entry<V>>, r: Bytes): Parsed<map<Bytes, V>> {
    var (n, r1) :- ReadCount(r);
    ReadEntries(read, r1, n, map[])
  }

  lemma MapRoundTrip<V(!new)>(put: (Entry<V>, Bytes) -> Bytes, read: Bytes -> Parsed<Entry<V>>, m: map<Bytes, V>, q: Bytes)
    requires Grows(put) && |m| < U64_LIMIT && forall k | k in m :: Inverts(put, read, (k, m[k]))
    ensures ReadMap(read, PutMap(put, m, q)) == Done(m, q)
  {
    hide ReadCount, ReadEntries, Inverts, PutVarint, Grows, SortedKeys;
    var keys := SortedKeys(m.Keys);
    assert |keys| == |m|;
    KeysInMap(m);
    PutEntriesGrows(put, keys, m, q);
    CountRoundTrip(|m|, PutEntries(put, keys, m, q));
    EntriesRoundTrip(put, read, keys, m, q, map[]);
    RestrictAll(m);
    assert map[] + m == m;
  }

  lemma MapExtends<V(!new)>(read: Bytes -> Parsed<Entry<V>>, r: Bytes, more: Bytes)
    requires Extends(read)
    ensures var p := ReadMap(read, r);
            p.Done? ==> |p.rest| < |r| && ReadMap(read, r + more) == Done(p.value, p.rest + more)
  {
    hide ReadCount, ReadEntries, Extends;
    CountExtends(r, more);
    if ReadCount(r).Done? {
      EntriesExtend(read, ReadCount(r).rest, ReadCount(r).value, map[], more);
    }
  }

  lemma MapYields<V(!new)>(read: Bytes -> Parsed<Entry<V>>, ok: Entry<V> -> bool, r: Bytes)
    requires Yields(read, ok)
    ensures var p := ReadMap(read, r);
            p.Done? ==> |p.value| < U64_LIMIT && forall k | k in p.value :: ok((k, p.value[k]))
  {
    hide ReadCount, ReadEntries, Yields;
    if ReadCount(r).Done? {
      EntriesYield(read, ok, ReadCount(r).rest, ReadCount(r).value, map[]);
    }
  }

  /** Sorting a set of keys by repeatedly taking the least one. */
  method SortKeys(s: set<Bytes>) returns (r: seq<Bytes>)
    ensures r == SortedKeys(s)
  {
    hide LexLe, SortedKeys;
    r := [];
    var todo := s;
    while todo != {}
      invariant r + SortedKeys(todo) == SortedKeys(s)
      decreases |todo|
    {
      HasLeast(todo);
      var k :| k in todo && forall j | j in todo :: LexLe(k, j);
      SortedKeysFirst(todo, k);
      assert r + ([k] + SortedKeys(todo - {k})) == (r + [k]) + SortedKeys(todo - {k});
      r := r + [k];
      todo := todo - {k};
    }
    NoKeys();
    assert r + [] == r;
  }

  lemma NoKeys()
    ensures SortedKeys({}) == []
  {}
}
