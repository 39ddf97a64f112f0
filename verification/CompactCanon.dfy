/** When accepted bytes are exactly what the encoder writes: integers without padding, map entries in
    ascending order of their keys.  Everything else about the format leaves the writer no choice. */
module CompactCanon {
  import opened Common
  import opened Domain
  import opened Projections
  import opened Replay
  import opened CompactIo
  import opened CompactCodec
  import opened CompactLaws

  /** At `r`, the bytes parsed are the bytes printed if, and only if, they are plain. */
  ghost predicate Exact<T(!new)>(put: (T, Bytes) -> Bytes, read: Bytes -> Parsed<T>, plain: Bytes -> bool, r: Bytes) {
    read(r).Done? ==> (plain(r) <==> r == put(read(r).value, read(r).rest))
  }

  ghost predicate AllExact<T(!new)>(put: (T, Bytes) -> Bytes, read: Bytes -> Parsed<T>, plain: Bytes -> bool) {
    forall r :: Exact(put, read, plain, r)
  }

  /** Whatever was parsed would be parsed again from its print. */
  ghost predicate Cancels<T(!new)>(put: (T, Bytes) -> Bytes, read: Bytes -> Parsed<T>) {
    forall r :: read(r).Done? ==> Inverts(put, read, read(r).value)
  }

  // ---- Integers ----------------------------------------------------------------------

  /** The groups behind the first one do not end in a zero. */
  predicate MinimalTail(r: Bytes)
    decreases |r|
  {
    r != [] && if FromByte(r[0]) < 128 then FromByte(r[0]) != 0 else MinimalTail(r[1..])
  }

  /** The integer at the front of `r` is written without padding. */
  predicate PlainVarint(r: Bytes) {
    r != [] && (FromByte(r[0]) >= 128 ==> MinimalTail(r[1..]))
  }

  lemma ByteOfNumber(b: byte)
    ensures ToByte(FromByte(b)) == b
  {
    hide ToByte;
    SameBits(ToByte(FromByte(b)), b);
  }

  lemma SameBits(a: byte, b: byte)
    requires FromByte(a) == FromByte(b)
    ensures a == b
  {
    assert a & 0x80 == b & 0x80 && a & 0x40 == b & 0x40 && a & 0x20 == b & 0x20 && a & 0x10 == b & 0x10;
    assert a & 0x08 == b & 0x08 && a & 0x04 == b & 0x04 && a & 0x02 == b & 0x02 && a & 0x01 == b & 0x01;
  }

  lemma JoinedGroups(low: nat, v: nat)
    requires low < 128
    ensures var n := low + 128 * v;
            n % 128 == low && n / 128 == v && (n >= 128 <==> v > 0)
  {}

  /** A single group: its print is itself. */
  lemma LastGroup(r: Bytes, i: nat)
    requires i <= 9 && ReadGroups(r, i).Done? && FromByte(r[0]) < 128
    ensures ReadGroups(r, i).value == FromByte(r[0]) && r == PutVarint(ReadGroups(r, i).value, ReadGroups(r, i).rest)
  {
    hide ToByte, FromByte;
    ByteOfNumber(r[0]);
    assert r == [r[0]] + r[1..];
  }

  /** More groups follow: the print of the whole is the first group and the print of the rest. */
  lemma MoreGroups(r: Bytes, i: nat)
    requires i <= 9 && ReadGroups(r, i).Done? && FromByte(r[0]) >= 128
    ensures i < 9 && ReadGroups(r[1..], i + 1).Done?
    ensures var p, rest := ReadGroups(r, i), ReadGroups(r[1..], i + 1);
            r == PutVarint(p.value, p.rest) <==> rest.value > 0 && r[1..] == PutVarint(rest.value, rest.rest)
    ensures ReadGroups(r[1..], i + 1).value > 0 ==> ReadGroups(r, i).value > 0
  {
    hide ToByte, FromByte, PutVarint;
    var p, rest := ReadGroups(r, i), ReadGroups(r[1..], i + 1);
    JoinedGroups(FromByte(r[0]) - 128, rest.value);
    PrintSplits(r, p.value, p.rest);
  }

  lemma PrintSplits(r: Bytes, n: nat, q: Bytes)
    requires r != [] && FromByte(r[0]) >= 128 && n % 128 == FromByte(r[0]) - 128
    ensures r == PutVarint(n, q) <==> n >= 128 && r[1..] == PutVarint(n / 128, q)
  {
    hide ToByte, FromByte;
    ByteOfNumber(r[0]);
    assert r == [r[0]] + r[1..];
    if n >= 128 {
      var tail := PutVarint(n / 128, q);
      assert ([ToByte(n % 128 + 128)] + tail)[1..] == tail;
    }
  }

  lemma {:induction false} TailExact(r: Bytes, i: nat)
    requires 1 <= i <= 9 && ReadGroups(r, i).Done?
    ensures var p := ReadGroups(r, i);
            MinimalTail(r) <==> p.value > 0 && r == PutVarint(p.value, p.rest)
    decreases 9 - i
  {
    hide ToByte, FromByte, ReadGroups, PutVarint;
    GroupsNeedBytes(r, i);
    if FromByte(r[0]) < 128 {
      LastGroup(r, i);
    } else {
      MoreGroups(r, i);
      TailExact(r[1..], i + 1);
    }
  }

  lemma GroupsNeedBytes(r: Bytes, i: nat)
    requires i <= 9 && ReadGroups(r, i).Done?
    ensures r != []
  {}

  lemma VarintExact(r: Bytes)
    ensures Exact(PutU64, ReadVarint, PlainVarint, r)
  {
    hide ToByte, FromByte, ReadGroups, PutVarint, Limit, MinimalTail;
    if ReadVarint(r).Done? {
      GroupsNeedBytes(r, 0);
      if FromByte(r[0]) < 128 {
        LastGroup(r, 0);
      } else {
        MoreGroups(r, 0);
        TailExact(r[1..], 1);
      }
    }
  }

  lemma SignedExact(r: Bytes)
    ensures Exact(PutSigned, ReadSigned, PlainVarint, r)
  {
    hide ReadVarint, PutVarint, PlainVarint;
    VarintExact(r);
    if ReadVarint(r).Done? {
      ZigzagBijective(0, ReadVarint(r).value);
    }
  }

  lemma ConfidenceExact(r: Bytes)
    ensures ReadConfidence(r).Done? ==> (PlainVarint(r) <==> r == PutVarint(ReadConfidence(r).value, ReadConfidence(r).rest))
  {
    hide ReadVarint, PutVarint, PlainVarint;
    VarintExact(r);
  }

  // ---- Text and options -----------------------------------------------------------------

  lemma TextExact(r: Bytes)
    ensures Exact(PutText, ReadText, PlainVarint, r)
    ensures Exact(PutText, ReadId, PlainVarint, r)
  {
    hide ReadVarint, PutVarint, PlainVarint, IsUtf8, IsProperText;
    VarintExact(r);
    if ReadText(r).Done? {
      var n, r1 := ReadVarint(r).value, ReadVarint(r).rest;
      assert r1[..n] + r1[n..] == r1;
    }
  }

  /** The option's value, if there is one, is plain. */
  predicate PlainOption(plain: Bytes -> bool, r: Bytes) {
    r != [] && (r[0] == 1 ==> plain(r[1..]))
  }

  lemma OptionExact<T(!new)>(put: (T, Bytes) -> Bytes, read: Bytes -> Parsed<T>, plain: Bytes -> bool, r: Bytes)
    requires r != [] ==> Exact(put, read, plain, r[1..])
    ensures var p := ReadOption(read, r);
            p.Done? ==> (PlainOption(plain, r) <==> r == PutOption(put, p.value, p.rest))
  {
    if r != [] {
      assert r == [r[0]] + r[1..];
      if r[0] == 1 && read(r[1..]).Done? {
        var tail := put(read(r[1..]).value, read(r[1..]).rest);
        assert ([1 as byte] + tail)[1..] == tail;
      }
    }
  }

  predicate PlainOptVarint(r: Bytes) {
    PlainOption(PlainVarint, r)
  }

  lemma OptTextExact(r: Bytes)
    ensures Exact(PutOptText, ReadOptText, PlainOptVarint, r)
    ensures Exact(PutOptText, ReadOptId, PlainOptVarint, r)
  {
    hide ReadText, ReadId, PutText, ReadOption, PutOption, PlainOption;
    if r != [] {
      TextExact(r[1..]);
    }
    OptionExact(PutText, ReadText, PlainVarint, r);
    OptionExact(PutText, ReadId, PlainVarint, r);
  }

  lemma OptNumberExact(r: Bytes)
    ensures Exact(PutOptSigned, ReadOptSigned, PlainOptVarint, r)
    ensures Exact(PutOptU64, ReadOptU64, PlainOptVarint, r)
  {
    hide ReadSigned, PutSigned, ReadVarint, PutU64, ReadOption, PutOption, PlainOption;
    if r != [] {
      SignedExact(r[1..]);
      VarintExact(r[1..]);
    }
    OptionExact(PutSigned, ReadSigned, PlainVarint, r);
    OptionExact(PutU64, ReadVarint, PlainVarint, r);
  }

  // ---- Collections --------------------------------------------------------------------------

  /** Each of the next `n` items is plain. */
  ghost predicate PlainMany<T(!new)>(read: Bytes -> Parsed<T>, plain: Bytes -> bool, r: Bytes, n: nat)
    decreases n
  {
    n == 0 || (read(r).Done? && plain(r) && PlainMany(read, plain, read(r).rest, n - 1))
  }

  ghost predicate PlainList<T(!new)>(read: Bytes -> Parsed<T>, plain: Bytes -> bool, r: Bytes) {
    PlainVarint(r) && ReadCount(r).Done? && PlainMany(read, plain, ReadCount(r).rest, ReadCount(r).value)
  }

  lemma {:induction false} ManyAppends<T(!new)>(read: Bytes -> Parsed<T>, r: Bytes, n: nat, acc: seq<T>)
    ensures var p, all := ReadMany(read, r, n, []), ReadMany(read, r, n, acc);
            if p.Done? then all == Done(acc + p.value, p.rest) else all == Malformed
    ensures ReadMany(read, r, n, []).Done? ==> |ReadMany(read, r, n, []).value| == n
    decreases n
  {
    if n == 0 {
      assert acc + [] == acc;
    } else if read(r).Done? {
      var x, r1 := read(r).value, read(r).rest;
      assert [] + [x] == [x];
      ManyAppends(read, r1, n - 1, [x]);
      ManyAppends(read, r1, n - 1, acc + [x]);
      var rest := ReadMany(read, r1, n - 1, []);
      if rest.Done? {
        assert acc + ([x] + rest.value) == (acc + [x]) + rest.value;
      }
    }
  }

  /** The first item, then the others. */
  lemma ManyFirst<T(!new)>(read: Bytes -> Parsed<T>, r: Bytes, n: nat)
    requires n > 0 && ReadMany(read, r, n, []).Done?
    ensures read(r).Done? && ReadMany(read, read(r).rest, n - 1, []).Done?
    ensures ReadMany(read, r, n, [])
         == Done([read(r).value] + ReadMany(read, read(r).rest, n - 1, []).value, ReadMany(read, read(r).rest, n - 1, []).rest)
  {
    var x := read(r).value;
    assert [] + [x] == [x];
    ManyAppends(read, read(r).rest, n - 1, [x]);
  }

  lemma {:induction false} ManyExact<T(!new)>(put: (T, Bytes) -> Bytes, read: Bytes -> Parsed<T>, plain: Bytes -> bool, r: Bytes, n: nat)
    requires AllExact(put, read, plain) && Cancels(put, read) && ReadMany(read, r, n, []).Done?
    ensures var p := ReadMany(read, r, n, []);
            PlainMany(read, plain, r, n) <==> r == PutAll(put, p.value, p.rest)
    decreases n
  {
    if n > 0 {
      ManyFirst(read, r, n);
      var x, r1 := read(r).value, read(r).rest;
      var p := ReadMany(read, r1, n - 1, []);
      ManyExact(put, read, plain, r1, n - 1);
      assert ([x] + p.value)[1..] == p.value;
      assert Exact(put, read, plain, r);
      assert Inverts(put, read, x);
      assert read(put(x, PutAll(put, p.value, p.rest))) == Done(x, PutAll(put, p.value, p.rest));
    }
  }

  lemma CountExact(r: Bytes)
    requires ReadCount(r).Done?
    ensures PlainVarint(r) <==> r == PutVarint(ReadCount(r).value, ReadCount(r).rest)
  {
    hide ReadVarint, PutVarint, PlainVarint;
    VarintExact(r);
  }

  /** A count is cancelled by what follows it. */
  lemma CountCancels(r: Bytes, n: u64, q: Bytes)
    requires ReadCount(r).Done? && r == PutVarint(n, q)
    ensures ReadCount(r) == Done(n, q)
  {
    hide ReadVarint, PutVarint;
    VarintRoundTrip(n, q);
  }

  lemma ListExact<T(!new)>(put: (T, Bytes) -> Bytes, read: Bytes -> Parsed<T>, plain: Bytes -> bool, r: Bytes)
    requires AllExact(put, read, plain) && Cancels(put, read) && ReadList(read, r).Done?
    ensures PlainList(read, plain, r) <==> r == PutList(put, ReadList(read, r).value, ReadList(read, r).rest)
  {
    hide AllExact, Cancels, ReadCount, PutVarint, PlainVarint, ReadMany, PlainMany, PutAll;
    var n, r1 := ReadCount(r).value, ReadCount(r).rest;
    var p := ReadMany(read, r1, n, []);
    CountExact(r);
    ManyAppends(read, r1, n, []);
    ManyExact(put, read, plain, r1, n);
    if r == PutList(put, p.value, p.rest) {
      CountCancels(r, n, PutAll(put, p.value, p.rest));
    }
  }

  // ---- Maps ------------------------------------------------------------------------------------

  /** The keys of the next `n` entries, as they stand. */
  function KeysRead<V>(read: Bytes -> Parsed<Entry<V>>, r: Bytes, n: nat): seq<Bytes>
    decreases n
  {
    if n == 0 || read(r).Malformed? then [] else [read(r).value.0] + KeysRead(read, read(r).rest, n - 1)
  }

  ghost predicate Ascends(keys: seq<Bytes>) {
    forall i, j | 0 <= i < j < |keys| :: LexLe(keys[i], keys[j]) && keys[i] != keys[j]
  }

  /** Count, entries and their order are as a sorted map is written. */
  ghost predicate PlainMap<V(!new)>(read: Bytes -> Parsed<Entry<V>>, plain: Bytes -> bool, r: Bytes) {
    PlainList(read, plain, r) && Ascends(KeysRead(read, ReadCount(r).rest, ReadCount(r).value))
  }

  lemma AscendsFrom(k: Bytes, rest: seq<Bytes>)
    requires Ascends(rest) && forall j | 0 <= j < |rest| :: LexLe(k, rest[j]) && k != rest[j]
    ensures Ascends([k] + rest)
  {
    hide LexLe;
  }

  lemma {:induction false} SortedAscends(s: set<Bytes>)
    ensures Ascends(SortedKeys(s))
    decreases |s|
  {
    hide LexLe, SortedKeys, Ascends;
    if s == {} {
      NoKeys();
      NothingAscends();
    } else {
      var k := Least(s);
      SortedKeysFirst(s, k);
      SortedAscends(s - {k});
      var rest := SortedKeys(s - {k});
      forall j | 0 <= j < |rest| ensures LexLe(k, rest[j]) && k != rest[j] {
        assert rest[j] in rest;
      }
      AscendsFrom(k, rest);
    }
  }

  lemma NothingAscends()
    ensures Ascends([])
  {}

  /** Ascending keys are the sorted keys. */
  lemma {:induction false} AscendingIsSorted(keys: seq<Bytes>, s: set<Bytes>)
    requires Ascends(keys) && forall k :: k in keys <==> k in s
    ensures keys == SortedKeys(s)
    decreases |keys|
  {
    hide LexLe, SortedKeys;
    if keys == [] {
      assert s == {};
      NoKeys();
    } else {
      var k, rest := keys[0], keys[1..];
      LexTotal(k, k);
      assert keys == [k] + rest;
      assert IsLeast(k, s);
      SortedKeysFirst(s, k);
      forall x ensures x in rest <==> x in s - {k} {
        assert x in rest ==> x in keys && x != k;
      }
      AscendingIsSorted(rest, s - {k});
    }
  }

  /** What was collected before is kept. */
  lemma {:induction false} EntriesKept<V(!new)>(read: Bytes -> Parsed<Entry<V>>, r: Bytes, n: nat, acc: map<Bytes, V>, k: Bytes)
    requires ReadEntries(read, r, n, acc).Done? && k in acc
    ensures k in ReadEntries(read, r, n, acc).value && ReadEntries(read, r, n, acc).value[k] == acc[k]
    decreases n
  {
    if n > 0 {
      var e := read(r).value;
      EntriesKept(read, read(r).rest, n - 1, acc[e.0 := e.1], k);
    }
  }

  lemma {:induction false} EntriesKeys<V(!new)>(read: Bytes -> Parsed<Entry<V>>, r: Bytes, n: nat, acc: map<Bytes, V>, k: Bytes)
    requires ReadEntries(read, r, n, acc).Done?
    ensures k in ReadEntries(read, r, n, acc).value <==> k in acc || k in KeysRead(read, r, n)
    ensures |KeysRead(read, r, n)| == n
    decreases n
  {
    if n > 0 {
      var e := read(r).value;
      EntriesKeys(read, read(r).rest, n - 1, acc[e.0 := e.1], k);
    }
  }

  lemma {:induction false} EntriesCount<V(!new)>(read: Bytes -> Parsed<Entry<V>>, r: Bytes, n: nat, acc: map<Bytes, V>)
    requires ReadEntries(read, r, n, acc).Done?
    ensures |ReadEntries(read, r, n, acc).value| == |acc| + n
    decreases n
  {
    if n > 0 {
      var e := read(r).value;
      NewKeyCounts(acc, e.0, e.1);
      EntriesCount(read, read(r).rest, n - 1, acc[e.0 := e.1]);
    }
  }

  lemma NewKeyCounts<V>(m: map<Bytes, V>, k: Bytes, v: V)
    requires k !in m
    ensures |m[k := v]| == |m| + 1
  {
    var next := m[k := v];
    assert next.Keys == m.Keys + {k};
    assert |next| == |next.Keys| && |m| == |m.Keys|;
  }

  ghost predicate AllIn<V>(keys: seq<Bytes>, m: map<Bytes, V>) {
    forall i | 0 <= i < |keys| :: keys[i] in m
  }

  lemma KeysAllIn<V(!new)>(read: Bytes -> Parsed<Entry<V>>, r: Bytes, n: nat, acc: map<Bytes, V>)
    requires ReadEntries(read, r, n, acc).Done?
    ensures AllIn(KeysRead(read, r, n), ReadEntries(read, r, n, acc).value)
  {
    hide ReadEntries, KeysRead;
    var keys := KeysRead(read, r, n);
    forall i | 0 <= i < |keys| ensures keys[i] in ReadEntries(read, r, n, acc).value {
      EntriesKeys(read, r, n, acc, keys[i]);
      assert keys[i] in keys;
    }
  }

  /** The first entry, then the others, all as the final map holds them. */
  lemma EntriesFirst<V(!new)>(read: Bytes -> Parsed<Entry<V>>, r: Bytes, n: nat, acc: map<Bytes, V>)
    requires n > 0 && ReadEntries(read, r, n, acc).Done?
    ensures read(r).Done?
    ensures var (k, v) := read(r).value;
            && ReadEntries(read, r, n, acc) == ReadEntries(read, read(r).rest, n - 1, acc[k := v])
            && KeysRead(read, r, n) == [k] + KeysRead(read, read(r).rest, n - 1)
            && k in ReadEntries(read, r, n, acc).value
            && ReadEntries(read, r, n, acc).value[k] == v
  {
    var (k, v) := read(r).value;
    EntriesKept(read, read(r).rest, n - 1, acc[k := v], k);
  }

  lemma {:induction false} EntriesExact<V(!new)>(put: (Entry<V>, Bytes) -> Bytes, read: Bytes -> Parsed<Entry<V>>, plain: Bytes -> bool,
                                                 r: Bytes, n: nat, acc: map<Bytes, V>)
    requires AllExact(put, read, plain) && Cancels(put, read) && ReadEntries(read, r, n, acc).Done?
    requires AllIn(KeysRead(read, r, n), ReadEntries(read, r, n, acc).value)
    ensures var p := ReadEntries(read, r, n, acc);
            PlainMany(read, plain, r, n) <==> r == PutEntries(put, KeysRead(read, r, n), p.value, p.rest)
    decreases n
  {
    hide ReadEntries, KeysRead;
    if n > 0 {
      EntriesFirst(read, r, n, acc);
      var e, r1 := read(r).value, read(r).rest;
      var p := ReadEntries(read, r, n, acc);
      var keys, rest := KeysRead(read, r, n), KeysRead(read, r1, n - 1);
      assert keys[1..] == rest && keys[0] == e.0 && (keys[0], p.value[keys[0]]) == e;
      KeysAllIn(read, r1, n - 1, acc[e.0 := e.1]);
      EntriesExact(put, read, plain, r1, n - 1, acc[e.0 := e.1]);
      var tail := PutEntries(put, rest, p.value, p.rest);
      assert Exact(put, read, plain, r);
      assert Inverts(put, read, e);
      assert read(put(e, tail)) == Done(e, tail);
    } else {
      NoEntries(read, r, acc);
    }
  }

  lemma NoEntries<V(!new)>(read: Bytes -> Parsed<Entry<V>>, r: Bytes, acc: map<Bytes, V>)
    ensures ReadEntries(read, r, 0, acc) == Done(acc, r) && KeysRead(read, r, 0) == []
  {}

  lemma {:induction false} EntriesCancel<V(!new)>(put: (Entry<V>, Bytes) -> Bytes, read: Bytes -> Parsed<Entry<V>>, r: Bytes, n: nat,
                                                  acc: map<Bytes, V>, k: Bytes)
    requires Cancels(put, read) && ReadEntries(read, r, n, acc).Done? && k in KeysRead(read, r, n)
    ensures k in ReadEntries(read, r, n, acc).value && Inverts(put, read, (k, ReadEntries(read, r, n, acc).value[k]))
    decreases n
  {
    hide ReadEntries, KeysRead, Inverts;
    if n == 0 {
      NoEntries(read, r, acc);
    } else {
      EntriesFirst(read, r, n, acc);
      var e := read(r).value;
      if k == e.0 {
        assert (k, e.1) == e;
      } else {
        EntriesCancel(put, read, read(r).rest, n - 1, acc[e.0 := e.1], k);
      }
    }
  }

  /** Reading a print meets the keys in the order in which they were printed. */
  lemma {:induction false} KeysOfPrint<V(!new)>(put: (Entry<V>, Bytes) -> Bytes, read: Bytes -> Parsed<Entry<V>>, keys: seq<Bytes>,
                                                m: map<Bytes, V>, q: Bytes)
    requires AllIn(keys, m) && forall i | 0 <= i < |keys| :: Inverts(put, read, (keys[i], m[keys[i]]))
    ensures KeysRead(read, PutEntries(put, keys, m, q), |keys|) == keys
    decreases |keys|
  {
    if keys != [] {
      var tail := PutEntries(put, keys[1..], m, q);
      assert Inverts(put, read, (keys[0], m[keys[0]]));
      assert read(put((keys[0], m[keys[0]]), tail)) == Done((keys[0], m[keys[0]]), tail);
      KeysOfPrint(put, read, keys[1..], m, q);
      assert keys == [keys[0]] + keys[1..];
    }
  }

  lemma KeysDecide<V(!new)>(put: (Entry<V>, Bytes) -> Bytes, read: Bytes -> Parsed<Entry<V>>, r: Bytes, n: nat)
    requires Cancels(put, read) && ReadEntries(read, r, n, map[]).Done?
    ensures var p, keys := ReadEntries(read, r, n, map[]), KeysRead(read, r, n);
            && AllIn(keys, p.value) && AllIn(SortedKeys(p.value.Keys), p.value) && |p.value| == n
            && (Ascends(keys) <==> keys == SortedKeys(p.value.Keys))
            && (r == PutEntries(put, SortedKeys(p.value.Keys), p.value, p.rest) ==> keys == SortedKeys(p.value.Keys))
  {
    hide ReadEntries, KeysRead, Inverts, Cancels, PutEntries, Ascends, SortedKeys;
    var p, keys := ReadEntries(read, r, n, map[]), KeysRead(read, r, n);
    var m := p.value;
    var sorted := SortedKeys(m.Keys);
    KeysAllIn(read, r, n, map[]);
    KeysInMap(m);
    EntriesCount(read, r, n, map[]);
    forall k ensures k in keys <==> k in m.Keys {
      EntriesKeys(read, r, n, map[], k);
    }
    SortedAscends(m.Keys);
    if Ascends(keys) {
      AscendingIsSorted(keys, m.Keys);
    }
    if r == PutEntries(put, sorted, m, p.rest) {
      forall i | 0 <= i < |sorted| ensures Inverts(put, read, (sorted[i], m[sorted[i]])) {
        assert sorted[i] in sorted;
        EntriesCancel(put, read, r, n, map[], sorted[i]);
      }
      KeysOfPrint(put, read, sorted, m, p.rest);
    }
  }

  lemma MapExact<V(!new)>(put: (Entry<V>, Bytes) -> Bytes, read: Bytes -> Parsed<Entry<V>>, plain: Bytes -> bool, r: Bytes)
    requires AllExact(put, read, plain) && Cancels(put, read) && ReadMap(read, r).Done?
    ensures PlainMap(read, plain, r) <==> r == PutMap(put, ReadMap(read, r).value, ReadMap(read, r).rest)
  {
    hide AllExact, Cancels, ReadCount, PutVarint, PlainVarint, ReadEntries, KeysRead, PlainMany, PutEntries, Ascends, SortedKeys;
    var n, r1 := ReadCount(r).value, ReadCount(r).rest;
    var m, rest := ReadMap(read, r).value, ReadMap(read, r).rest;
    CountExact(r);
    KeysDecide(put, read, r1, n);
    EntriesExact(put, read, plain, r1, n, map[]);
    if r == PutMap(put, m, rest) {
      CountCancels(r, n, PutEntries(put, SortedKeys(m.Keys), m, rest));
    }
  }

  // ---- Records -----------------------------------------------------------------------------------

  predicate PlainEvidence(r: Bytes) {
    var r1 := Rest(ReadText(r));
    var r2 := Rest(ReadText(r1));
    PlainVarint(r) && PlainVarint(r1) && PlainOptVarint(r2) && PlainOptVarint(Rest(ReadOptText(r2)))
  }

  lemma EvidenceExact(r: Bytes)
    ensures Exact(PutEvidence, ReadEvidence, PlainEvidence, r)
  {
    hide ReadText, PutText, ReadOptText, PutOptText, PlainVarint, PlainOptVarint, TextOk, OptTextOk;
    if ReadEvidence(r).Done? {
      var e, r4 := ReadEvidence(r).value, ReadEvidence(r).rest;
      var r1 := Rest(ReadText(r));
      var r2 := Rest(ReadText(r1));
      var r3 := Rest(ReadOptText(r2));
      TextExact(r);
      TextExact(r1);
      OptTextExact(r2);
      OptTextExact(r3);
      TextYields(r);
      TextYields(r1);
      OptTextYields(r2);
      var q3 := PutOptText(e.digest, r4);
      var q2 := PutOptText(e.locator, q3);
      TextRoundTrip(e.kind, PutText(e.source, q2));
      TextRoundTrip(e.source, q2);
      OptTextInverts(e.locator, q3);
    }
  }

  lemma EvidenceCancels()
    ensures AllExact(PutEvidence, ReadEvidence, PlainEvidence) && Cancels(PutEvidence, ReadEvidence)
  {
    hide Exact, Inverts, PutEvidence, EvidenceTyped;
    forall r ensures Exact(PutEvidence, ReadEvidence, PlainEvidence, r) {
      EvidenceExact(r);
    }
    EvidenceYields();
    forall r | ReadEvidence(r).Done? ensures Inverts(PutEvidence, ReadEvidence, ReadEvidence(r).value) {
      EvidenceInverts(ReadEvidence(r).value);
    }
  }

  predicate PlainAttribute(r: Bytes) {
    PlainVarint(r) && PlainVarint(Rest(ReadText(r)))
  }

  lemma AttributeExact(r: Bytes)
    ensures Exact(PutAttribute, ReadAttribute, PlainAttribute, r)
  {
    hide ReadText, PutText, PlainVarint, TextOk;
    if ReadAttribute(r).Done? {
      var e := ReadAttribute(r).value;
      TextExact(r);
      TextExact(Rest(ReadText(r)));
      TextYields(r);
      TextRoundTrip(e.0, PutText(e.1, ReadAttribute(r).rest));
    }
  }

  lemma AttributeCancels()
    ensures AllExact(PutAttribute, ReadAttribute, PlainAttribute) && Cancels(PutAttribute, ReadAttribute)
  {
    hide Exact, Inverts, AttributeTyped;
    forall r ensures Exact(PutAttribute, ReadAttribute, PlainAttribute, r) {
      AttributeExact(r);
    }
    AttributeYields();
    forall r | ReadAttribute(r).Done? ensures Inverts(PutAttribute, ReadAttribute, ReadAttribute(r).value) {
      AttributeInverts(ReadAttribute(r).value);
    }
  }

  ghost predicate PlainNode(r: Bytes) {
    var r1 := Rest(ReadId(r));
    var r2 := Rest(ReadText(r1));
    var r3 := Rest(ReadText(r2));
    var r4 := Rest(ReadOptText(r3));
    var r5 := Rest(ReadOptText(r4));
    && PlainVarint(r) && PlainVarint(r1) && PlainVarint(r2) && PlainOptVarint(r3) && PlainOptVarint(r4)
    && PlainMap(ReadAttribute, PlainAttribute, r5)
  }

  lemma NodeExact(r: Bytes)
    requires ReadNode(r).Done?
    ensures PlainNode(r) <==> r == PutNode(ReadNode(r).value, ReadNode(r).rest)
  {
    hide ReadId, ReadText, PutText, ReadOptText, PutOptText, ReadMap, PutMap, PlainVarint, PlainOptVarint, PlainMap;
    hide TextOk, IdOk, OptTextOk, AllExact, Cancels;
    var n, r6 := ReadNode(r).value, ReadNode(r).rest;
    var r1 := Rest(ReadId(r));
    var r2 := Rest(ReadText(r1));
    var r3 := Rest(ReadText(r2));
    var r4 := Rest(ReadOptText(r3));
    var r5 := Rest(ReadOptText(r4));
    TextExact(r);
    TextExact(r1);
    TextExact(r2);
    OptTextExact(r3);
    OptTextExact(r4);
    AttributeCancels();
    MapExact(PutAttribute, ReadAttribute, PlainAttribute, r5);
    TextYields(r);
    TextYields(r1);
    TextYields(r2);
    OptTextYields(r3);
    OptTextYields(r4);
    var q5 := PutMap(PutAttribute, n.attributes, r6);
    var q4 := PutOptText(n.branch, q5);
    var q3 := PutOptText(n.repository, q4);
    var q2 := PutText(n.labelText, q3);
    IdRoundTrip(n.id, PutText(n.kind, q2));
    TextRoundTrip(n.kind, q2);
    TextRoundTrip(n.labelText, q3);
    OptTextInverts(n.repository, q4);
    OptTextInverts(n.branch, q5);
  }

  ghost predicate PlainRevision(r: Bytes) {
    var r1 := Rest(ReadNode(r));
    PlainNode(r) && PlainVarint(r1) && PlainVarint(Rest(ReadSigned(r1)))
  }

  lemma RevisionExact(r: Bytes)
    ensures Exact(PutRevision, ReadRevision, PlainRevision, r)
  {
    hide ReadNode, PutNode, PlainNode, ReadSigned, PutSigned, ReadVarint, PutVarint, PlainVarint, NodeTyped;
    if ReadRevision(r).Done? {
      var v, r3 := ReadRevision(r).value, ReadRevision(r).rest;
      var r1 := Rest(ReadNode(r));
      NodeExact(r);
      SignedExact(r1);
      VarintExact(Rest(ReadSigned(r1)));
      NodeYields(r);
      var q2 := PutVarint(v.position, r3);
      NodeInverts(v.node, PutSigned(v.recordedAt, q2));
      SignedRoundTrip(v.recordedAt, q2);
    }
  }

  lemma RevisionCancels()
    ensures AllExact(PutRevision, ReadRevision, PlainRevision) && Cancels(PutRevision, ReadRevision)
  {
    hide Exact, Inverts, RevisionTyped;
    forall r ensures Exact(PutRevision, ReadRevision, PlainRevision, r) {
      RevisionExact(r);
    }
    forall r | ReadRevision(r).Done? ensures Inverts(PutRevision, ReadRevision, ReadRevision(r).value) {
      RevisionYieldsAt(r);
      RevisionInverts(ReadRevision(r).value);
    }
  }

  ghost predicate PlainHistory(r: Bytes) {
    && ReadCount(r).Done? && ReadCount(r).value > 0
    && var r1 := ReadCount(r).rest;
       && PlainVarint(r) && PlainRevision(r1)
       && PlainMany(ReadRevision, PlainRevision, Rest(ReadRevision(r1)), ReadCount(r).value - 1)
  }

  lemma HistoryExact(r: Bytes)
    ensures Exact(PutHistory, ReadHistory, PlainHistory, r)
  {
    hide ReadCount, PutVarint, PlainVarint, ReadRevision, PutRevision, PlainRevision, ReadMany, PutAll, PlainMany;
    hide AllExact, Cancels, RevisionTyped;
    if ReadHistory(r).Done? {
      var h, r3 := ReadHistory(r).value, ReadHistory(r).rest;
      var n, r1 := ReadCount(r).value, ReadCount(r).rest;
      var r2 := Rest(ReadRevision(r1));
      CountExact(r);
      RevisionExact(r1);
      RevisionCancels();
      ManyAppends(ReadRevision, r2, n - 1, []);
      ManyExact(PutRevision, ReadRevision, PlainRevision, r2, n - 1);
      RevisionYieldsAt(r1);
      RevisionInverts(h.first);
      var q2 := PutAll(PutRevision, h.later, r3);
      var q1 := PutRevision(h.first, q2);
      assert ReadRevision(q1) == Done(h.first, q2);
      if r == PutHistory(h, r3) {
        CountCancels(r, n, q1);
      }
    }
  }

  lemma HistoryCancels()
    ensures AllExact(PutHistory, ReadHistory, PlainHistory) && Cancels(PutHistory, ReadHistory)
  {
    hide Exact, Inverts, HistoryTyped;
    forall r ensures Exact(PutHistory, ReadHistory, PlainHistory, r) {
      HistoryExact(r);
    }
    forall r | ReadHistory(r).Done? ensures Inverts(PutHistory, ReadHistory, ReadHistory(r).value) {
      HistoryYieldsAt(r);
      HistoryInverts(ReadHistory(r).value);
    }
  }

  /** A fact up to its recording time, and from there on. */
  predicate PlainFactHead(r: Bytes) {
    var r1 := Rest(ReadId(r));
    var r2 := Rest(ReadId(r1));
    var r3 := Rest(ReadText(r2));
    var r4 := Rest(ReadId(r3));
    var r5 := Rest(ReadSigned(r4));
    var r6 := Rest(ReadOptSigned(r5));
    && PlainVarint(r) && PlainVarint(r1) && PlainVarint(r2) && PlainVarint(r3) && PlainVarint(r4) && PlainOptVarint(r5)
    && PlainVarint(r6) && PlainVarint(Rest(ReadSigned(r6)))
  }

  function FactHeadRest(r: Bytes): Bytes {
    var r3 := Rest(ReadText(Rest(ReadId(Rest(ReadId(r))))));
    var r6 := Rest(ReadOptSigned(Rest(ReadSigned(Rest(ReadId(r3))))));
    Rest(ReadSigned(Rest(ReadSigned(r6))))
  }

  ghost predicate PlainFactTail(r: Bytes) {
    var r1 := Rest(ReadId(r));
    var r2 := Rest(ReadId(r1));
    var r3 := Rest(ReadConfidence(r2));
    && PlainVarint(r) && PlainVarint(r1) && PlainVarint(r2) && PlainList(ReadEvidence, PlainEvidence, r3)
    && PlainOptVarint(Rest(ReadList(ReadEvidence, r3)))
  }

  ghost predicate PlainFact(r: Bytes) {
    PlainFactHead(r) && PlainFactTail(FactHeadRest(r))
  }

  function PutFactEnd(f: MemoryFact, q: Bytes): Bytes {
    PutText(f.agentId, PutText(f.sessionId, PutVarint(f.confidence, FactTail(f, q))))
  }

  lemma FactEndExact(r: Bytes, f: MemoryFact)
    requires ReadFact(r).Done? && f == ReadFact(r).value
    ensures PlainFactTail(FactHeadRest(r)) <==> FactHeadRest(r) == PutFactEnd(f, ReadFact(r).rest)
  {
    hide ReadId, ReadText, PutText, ReadOptId, PutOptText, ReadSigned, ReadOptSigned, ReadConfidence, PutVarint, ReadList, PutList;
    hide PlainVarint, PlainOptVarint, PlainList, IdOk, TextOk, AllExact, Cancels;
    var s, q := FactHeadRest(r), ReadFact(r).rest;
    var s1 := Rest(ReadId(s));
    var s2 := Rest(ReadId(s1));
    var s3 := Rest(ReadConfidence(s2));
    TextExact(s);
    TextExact(s1);
    ConfidenceExact(s2);
    EvidenceCancels();
    ListExact(PutEvidence, ReadEvidence, PlainEvidence, s3);
    OptTextExact(Rest(ReadList(ReadEvidence, s3)));
    TextYields(s);
    TextYields(s1);
    FactYieldsAt(r);
    var q1 := PutVarint(f.confidence, FactTail(f, q));
    IdRoundTrip(f.agentId, PutText(f.sessionId, q1));
    IdRoundTrip(f.sessionId, q1);
    ConfidenceRead(f.confidence, FactTail(f, q));
    FactTailInverts(f, q);
  }

  lemma FactYieldsAt(r: Bytes)
    requires ReadFact(r).Done?
    ensures FactTyped(ReadFact(r).value) && ConfidenceOk(ReadFact(r).value)
  {
    hide ReadFact, FactTyped, ConfidenceOk;
    FactYields();
  }

  lemma FactExact(r: Bytes)
    ensures Exact(PutFact, ReadFact, PlainFact, r)
  {
    hide ReadId, ReadText, PutText, ReadOptId, PutOptText, ReadSigned, PutSigned, ReadOptSigned, PutOptSigned;
    hide ReadConfidence, PutVarint, ReadList, PutList, PlainVarint, PlainOptVarint, PlainFactTail, IdOk, TextOk;
    if ReadFact(r).Done? {
      var f, q := ReadFact(r).value, ReadFact(r).rest;
      var r1 := Rest(ReadId(r));
      var r2 := Rest(ReadId(r1));
      var r3 := Rest(ReadText(r2));
      var r4 := Rest(ReadId(r3));
      var r5 := Rest(ReadSigned(r4));
      var r6 := Rest(ReadOptSigned(r5));
      var r7 := Rest(ReadSigned(r6));
      TextExact(r);
      TextExact(r1);
      TextExact(r2);
      TextExact(r3);
      SignedExact(r4);
      OptNumberExact(r5);
      SignedExact(r6);
      SignedExact(r7);
      FactEndExact(r, f);
      TextYields(r);
      TextYields(r1);
      TextYields(r2);
      TextYields(r3);
      var q8 := PutFactEnd(f, q);
      var q7 := PutSigned(f.recordedAt, q8);
      var q6 := PutSigned(f.observedAt, q7);
      var q5 := PutOptSigned(f.validUntil, q6);
      var q4 := PutSigned(f.validFrom, q5);
      var q3 := PutText(f.target, q4);
      var q2 := PutText(f.relation, q3);
      IdRoundTrip(f.id, PutText(f.source, q2));
      IdRoundTrip(f.source, q2);
      TextRoundTrip(f.relation, q3);
      IdRoundTrip(f.target, q4);
      SignedRoundTrip(f.validFrom, q5);
      OptSignedInverts(f.validUntil, q6);
      SignedRoundTrip(f.observedAt, q7);
      SignedRoundTrip(f.recordedAt, q8);
    }
  }

  lemma FactCancels()
    ensures AllExact(PutFact, ReadFact, PlainFact) && Cancels(PutFact, ReadFact)
  {
    hide Exact, FactTyped, ConfidenceOk, ReadFact, PutFact;
    forall r ensures Exact(PutFact, ReadFact, PlainFact, r) {
      FactExact(r);
    }
    forall r | ReadFact(r).Done? ensures Inverts(PutFact, ReadFact, ReadFact(r).value) {
      FactYieldsAt(r);
      forall q ensures ReadFact(PutFact(ReadFact(r).value, q)) == Done(ReadFact(r).value, q) {
        FactRead(ReadFact(r).value, q);
      }
    }
  }

  // ---- Map entries -------------------------------------------------------------------------------------

  predicate PlainVersion(r: Bytes) {
    PlainVarint(r) && PlainVarint(Rest(ReadId(r)))
  }

  lemma VersionExact(r: Bytes)
    ensures Exact(PutVersion, ReadVersion, PlainVersion, r)
  {
    hide ReadId, PutText, ReadVarint, PutVarint, PlainVarint, IdOk;
    if ReadVersion(r).Done? {
      var e := ReadVersion(r).value;
      TextExact(r);
      VarintExact(Rest(ReadId(r)));
      TextYields(r);
      IdRoundTrip(e.0, PutVarint(e.1, ReadVersion(r).rest));
    }
  }

  predicate PlainSupersession(r: Bytes) {
    var r1 := Rest(ReadId(r));
    var r2 := Rest(ReadId(r1));
    PlainVarint(r) && PlainVarint(r1) && PlainVarint(r2) && PlainVarint(Rest(ReadSigned(r2)))
  }

  lemma SupersessionExact(r: Bytes)
    ensures Exact(PutSupersession, ReadSupersession, PlainSupersession, r)
  {
    hide ReadId, PutText, ReadSigned, PutSigned, PlainVarint, IdOk;
    if ReadSupersession(r).Done? {
      var e := ReadSupersession(r).value;
      var r1 := Rest(ReadId(r));
      var r2 := Rest(ReadId(r1));
      TextExact(r);
      TextExact(r1);
      SignedExact(r2);
      SignedExact(Rest(ReadSigned(r2)));
      TextYields(r);
      TextYields(r1);
      var q3 := PutSigned(e.1.recordedAt, ReadSupersession(r).rest);
      var q2 := PutSigned(e.1.validFrom, q3);
      IdRoundTrip(e.0, PutText(e.1.replacement, q2));
      IdRoundTrip(e.1.replacement, q2);
      SignedRoundTrip(e.1.validFrom, q3);
    }
  }

  predicate PlainRetraction(r: Bytes) {
    var r1 := Rest(ReadId(r));
    PlainVarint(r) && PlainVarint(r1) && PlainVarint(Rest(ReadSigned(r1)))
  }

  lemma RetractionExact(r: Bytes)
    ensures Exact(PutRetraction, ReadRetraction, PlainRetraction, r)
  {
    hide ReadId, PutText, ReadSigned, PutSigned, PlainVarint, IdOk;
    if ReadRetraction(r).Done? {
      var e := ReadRetraction(r).value;
      var r1 := Rest(ReadId(r));
      TextExact(r);
      SignedExact(r1);
      SignedExact(Rest(ReadSigned(r1)));
      TextYields(r);
      var q2 := PutSigned(e.1.recordedAt, ReadRetraction(r).rest);
      IdRoundTrip(e.0, PutSigned(e.1.validUntil, q2));
      SignedRoundTrip(e.1.validUntil, q2);
    }
  }

  lemma ChangesCancel()
    ensures AllExact(PutVersion, ReadVersion, PlainVersion) && Cancels(PutVersion, ReadVersion)
    ensures AllExact(PutSupersession, ReadSupersession, PlainSupersession) && Cancels(PutSupersession, ReadSupersession)
    ensures AllExact(PutRetraction, ReadRetraction, PlainRetraction) && Cancels(PutRetraction, ReadRetraction)
  {
    hide Exact, Inverts, VersionTyped, SupersessionTyped, RetractionTyped;
    forall r ensures Exact(PutVersion, ReadVersion, PlainVersion, r) {
      VersionExact(r);
    }
    forall r ensures Exact(PutSupersession, ReadSupersession, PlainSupersession, r) {
      SupersessionExact(r);
    }
    forall r ensures Exact(PutRetraction, ReadRetraction, PlainRetraction, r) {
      RetractionExact(r);
    }
    EntriesTyped();
    forall r | ReadVersion(r).Done? ensures Inverts(PutVersion, ReadVersion, ReadVersion(r).value) {
      VersionInverts(ReadVersion(r).value);
    }
    forall r | ReadSupersession(r).Done? ensures Inverts(PutSupersession, ReadSupersession, ReadSupersession(r).value) {
      SupersessionInverts(ReadSupersession(r).value);
    }
    forall r | ReadRetraction(r).Done? ensures Inverts(PutRetraction, ReadRetraction, ReadRetraction(r).value) {
      RetractionInverts(ReadRetraction(r).value);
    }
  }

  // ---- The whole snapshot -----------------------------------------------------------------------------------

  ghost predicate PlainCursor(r: Bytes) {
    PlainOptVarint(r) && PlainMap(ReadVersion, PlainVersion, Rest(ReadOptU64(r)))
  }

  lemma CursorExact(r: Bytes)
    requires ReadCursor(r).Done?
    ensures PlainCursor(r) <==> r == PutCursor(ReadCursor(r).value, ReadCursor(r).rest)
  {
    hide ReadOptU64, PutOptU64, ReadMap, PutMap, PlainOptVarint, PlainMap, AllExact, Cancels;
    var c, r1 := ReadCursor(r).value, Rest(ReadOptU64(r));
    OptNumberExact(r);
    ChangesCancel();
    MapExact(PutVersion, ReadVersion, PlainVersion, r1);
    OptU64Inverts(c.globalPosition, PutMap(PutVersion, c.streamVersions, ReadCursor(r).rest));
  }

  ghost predicate PlainData(r: Bytes) {
    var r1 := Rest(ReadList(ReadHistory, r));
    var r2 := Rest(ReadList(ReadFact, r1));
    var r3 := Rest(ReadMap(ReadSupersession, r2));
    var r4 := Rest(ReadMap(ReadRetraction, r3));
    && PlainList(ReadHistory, PlainHistory, r)
    && PlainList(ReadFact, PlainFact, r1)
    && PlainMap(ReadSupersession, PlainSupersession, r2)
    && PlainMap(ReadRetraction, PlainRetraction, r3)
    && PlainOptVarint(r4)
  }

  lemma DataExact(r: Bytes)
    requires ReadData(r).Done?
    ensures PlainData(r) <==> r == PutData(ReadData(r).value, ReadData(r).rest)
  {
    hide ReadList, PutList, ReadMap, PutMap, ReadOptU64, PutOptU64, PlainList, PlainMap, PlainOptVarint;
    hide AllExact, Cancels, HistoryTyped, FactTyped, SupersessionTyped, RetractionTyped, ConfidencesOk;
    var p, q := ReadData(r).value, ReadData(r).rest;
    var r1 := Rest(ReadList(ReadHistory, r));
    var r2 := Rest(ReadList(ReadFact, r1));
    var r3 := Rest(ReadMap(ReadSupersession, r2));
    var r4 := Rest(ReadMap(ReadRetraction, r3));
    HistoryCancels();
    FactCancels();
    ChangesCancel();
    ListExact(PutHistory, ReadHistory, PlainHistory, r);
    ListExact(PutFact, ReadFact, PlainFact, r1);
    MapExact(PutSupersession, ReadSupersession, PlainSupersession, r2);
    MapExact(PutRetraction, ReadRetraction, PlainRetraction, r3);
    OptNumberExact(r4);
    DataYields(r);
    var q4 := PutOptU64(p.lastPosition, q);
    var q3 := PutMap(PutRetraction, p.retractions, q4);
    var q2 := PutMap(PutSupersession, p.supersessions, q3);
    NodesInvert(p.nodes, PutList(PutFact, p.facts, q2));
    FactsRead(p.facts, q2);
    ChangesInvert(p, q3);
    ChangesInvert(p, q4);
  }

  /** No integer is padded, and every map stands in ascending order of its keys. */
  ghost predicate Canonical(b: Bytes) {
    HEADER <= b && PlainCursor(b[|HEADER|..]) && PlainData(Rest(ReadCursor(b[|HEADER|..])))
  }

  /** Accepted bytes are what the encoder writes if, and only if, they are canonical. */
  lemma CanonicalIsEncoded(b: Bytes)
    requires Decode(b).Some?
    ensures Encode(Decode(b).value) == b <==> Canonical(b)
  {
    hide ReadCursor, PutCursor, ReadData, PutData, PlainCursor, PlainData, CursorTyped, DataTyped, ConfidencesOk, Consistent;
    var s, r := Decode(b).value, b[|HEADER|..];
    var r1 := Rest(ReadCursor(r));
    assert b == HEADER + r;
    CursorExact(r);
    DataExact(r1);
    CursorYields(r);
    var body := PutData(s.projection, []);
    CursorInverts(s.cursor, body);
    assert (HEADER + PutCursor(s.cursor, body))[|HEADER|..] == PutCursor(s.cursor, body);
  }
}
