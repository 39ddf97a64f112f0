/** The reader object: a position in a byte string, proved against the parsers. */
module CompactReader {
  import opened Common
  import opened Domain
  import opened Projections
  import opened MemoryProjections
  import opened Replay
  import opened CompactIo
  import opened CompactCodec

  /** The method returned what the parser yields, and stands where the parser stops. */
  ghost predicate Agrees<T>(p: Parsed<T>, r: Result<T>, rest: Bytes) {
    match p
    case Done(v, t) => r == Ok(v) && rest == t
    case Malformed => r.Err?
  }

  class Reader {
    const bytes: Bytes
    var position: nat

    ghost predicate Valid()
      reads this
    {
      position <= |bytes|
    }

    ghost function Rest(): Bytes
      requires Valid()
      reads this
    {
      bytes[position..]
    }

    constructor (bytes: Bytes, position: nat)
      requires position <= |bytes|
      ensures Valid() && this.bytes == bytes && Rest() == bytes[position..]
    {
      this.bytes := bytes;
      this.position := position;
    }

    method Byte() returns (r: Result<byte>)
      requires Valid()
      modifies this
      ensures Valid()
      ensures r.Ok? <==> old(Rest()) != []
      ensures r.Ok? ==> r.value == old(Rest())[0] && Rest() == old(Rest())[1..]
    {
      if position == |bytes| {
        return Err(Codec);
      }
      r := Ok(bytes[position]);
      position := position + 1;
    }

    /** Seven bits at a time, least significant first; the tenth byte may only be 0 or 1. */
    method Varint() returns (r: Result<u64>)
      requires Valid()
      modifies this
      ensures Valid() && Agrees(ReadVarint(old(Rest())), r, Rest())
    {
      hide FromByte, ReadGroups, Accumulated, Limit;
      LimitIsU64();
      ghost var goal := ReadGroups(Rest(), 0);
      var value, scale, i := 0, 1, 0;
      AccumulateStart(goal);
      while true
        invariant Valid() && i <= 9
        invariant goal == Accumulated(value, scale, ReadGroups(Rest(), i))
        decreases 9 - i
      {
        ghost var before := Rest();
        var b := Byte();
        if b.Err? {
          AccumulateEnd(value, scale, before, i);
          return Err(Codec);
        }
        var n := FromByte(b.value);
        if i == 9 && n > 1 {
          AccumulateEnd(value, scale, before, i);
          return Err(Codec);
        }
        AccumulateStep(value, scale, before, i);
        value := value + (n % 128) * scale;
        if n < 128 {
          return Ok(value);
        }
        scale := scale * 128;
        i := i + 1;
      }
    }

    method Count() returns (r: Result<u64>)
      requires Valid()
      modifies this
      ensures Valid() && Agrees(ReadCount(old(Rest())), r, Rest())
    {
      hide ReadVarint;
      r := Varint();
      if r.Ok? && r.value > |bytes| - position {
        return Err(Codec);
      }
    }

    method Signed() returns (r: Result<i64>)
      requires Valid()
      modifies this
      ensures Valid() && Agrees(ReadSigned(old(Rest())), r, Rest())
    {
      hide ReadVarint;
      var n :- Varint();
      r := Ok(Unzigzag(n));
    }

    method Bool() returns (r: Result<bool>)
      requires Valid()
      modifies this
      ensures Valid() && Agrees(ReadBool(old(Rest())), r, Rest())
    {
      var b :- Byte();
      if b == 0 {
        return Ok(false);
      } else if b == 1 {
        return Ok(true);
      }
      r := Err(Codec);
    }

    method OptionalU64() returns (r: Result<Option<u64>>)
      requires Valid()
      modifies this
      ensures Valid() && Agrees(ReadOptU64(old(Rest())), r, Rest())
    {
      hide ReadBool;
      var some :- Bool();
      if !some {
        return Ok(None);
      }
      var n :- Varint();
      r := Ok(Some(n));
    }

    method OptionalSigned() returns (r: Result<Option<i64>>)
      requires Valid()
      modifies this
      ensures Valid() && Agrees(ReadOptSigned(old(Rest())), r, Rest())
    {
      hide ReadBool;
      var some :- Bool();
      if !some {
        return Ok(None);
      }
      var n :- Signed();
      r := Ok(Some(n));
    }

    method Str() returns (r: Result<Text>)
      requires Valid()
      modifies this
      ensures Valid() && Agrees(ReadText(old(Rest())), r, Rest())
    {
      hide ReadVarint, IsUtf8;
      var length :- Varint();
      if position + length > |bytes| {
        return Err(Codec);
      }
      var text := bytes[position..position + length];
      assert text == Rest()[..length] && bytes[position + length..] == Rest()[length..];
      position := position + length;
      if !IsUtf8(text) {
        return Err(Codec);
      }
      r := Ok(text);
    }

    method Identifier() returns (r: Result<Id>)
      requires Valid()
      modifies this
      ensures Valid() && Agrees(ReadId(old(Rest())), r, Rest())
    {
      hide ReadText, IsProperText;
      var s :- Str();
      if !IsProperText(s) {
        return Err(InvalidId);
      }
      r := Ok(s);
    }

    method OptionalStr() returns (r: Result<Option<Text>>)
      requires Valid()
      modifies this
      ensures Valid() && Agrees(ReadOptText(old(Rest())), r, Rest())
    {
      hide ReadBool;
      var some :- Bool();
      if !some {
        return Ok(None);
      }
      var s :- Str();
      r := Ok(Some(s));
    }

    method OptionalId() returns (r: Result<Option<Id>>)
      requires Valid()
      modifies this
      ensures Valid() && Agrees(ReadOptId(old(Rest())), r, Rest())
    {
      hide ReadBool;
      var some :- Bool();
      if !some {
        return Ok(None);
      }
      var s :- Identifier();
      r := Ok(Some(s));
    }

    // ---- Records ------------------------------------------------------------------

    method ReadOneEvidence() returns (r: Result<Evidence>)
      requires Valid()
      modifies this
      ensures Valid() && Agrees(ReadEvidence(old(Rest())), r, Rest())
    {
      hide ReadText, ReadOptText;
      var kind :- Str();
      var source :- Str();
      var locator :- OptionalStr();
      var digest :- OptionalStr();
      r := Ok(Evidence(kind, source, locator, digest));
    }

    method ReadAttributes() returns (r: Result<map<Text, Text>>)
      requires Valid()
      modifies this
      ensures Valid() && Agrees(ReadMap(ReadAttribute, old(Rest())), r, Rest())
    {
      hide ReadCount, ReadText;
      var count :- Count();
      ghost var start := Rest();
      var attributes := map[];
      for i := 0 to count
        invariant Valid()
        invariant ReadEntries(ReadAttribute, start, count, map[]) == ReadEntries(ReadAttribute, Rest(), count - i, attributes)
      {
        var key :- Str();
        var value :- Str();
        if key in attributes {
          return Err(Codec);
        }
        attributes := attributes[key := value];
      }
      r := Ok(attributes);
    }

    method ReadOneNode() returns (r: Result<MemoryNode>)
      requires Valid()
      modifies this
      ensures Valid() && Agrees(ReadNode(old(Rest())), r, Rest())
    {
      hide ReadId, ReadText, ReadOptText, ReadMap;
      var id :- Identifier();
      var kind :- Str();
      var labelText :- Str();
      var repository :- OptionalStr();
      var branch :- OptionalStr();
      var attributes :- ReadAttributes();
      r := Ok(MemoryNode(id, kind, labelText, repository, branch, attributes));
    }

    method ReadAllEvidence() returns (r: Result<seq<Evidence>>)
      requires Valid()
      modifies this
      ensures Valid() && Agrees(ReadList(ReadEvidence, old(Rest())), r, Rest())
    {
      hide ReadCount, ReadText, ReadOptText;
      var count :- Count();
      ghost var start := Rest();
      var evidence := [];
      for i := 0 to count
        invariant Valid()
        invariant ReadMany(ReadEvidence, start, count, []) == ReadMany(ReadEvidence, Rest(), count - i, evidence)
      {
        var item :- ReadOneEvidence();
        evidence := evidence + [item];
      }
      r := Ok(evidence);
    }

    method Confidence() returns (r: Result<u16>)
      requires Valid()
      modifies this
      ensures Valid() && Agrees(ReadConfidence(old(Rest())), r, Rest())
    {
      hide ReadVarint;
      var n :- Varint();
      if n >= 0x1_0000 {
        return Err(Codec);
      }
      if n > CERTAIN {
        return Err(InvalidValue);
      }
      r := Ok(n);
    }

    method ReadOneFact() returns (r: Result<MemoryFact>)
      requires Valid()
      modifies this
      ensures Valid() && Agrees(ReadFact(old(Rest())), r, Rest())
    {
      hide ReadId, ReadText, ReadOptId, ReadSigned, ReadOptSigned, ReadConfidence, ReadList;
      var id :- Identifier();
      var source :- Identifier();
      var relation :- Str();
      var target :- Identifier();
      var validFrom :- Signed();
      var validUntil :- OptionalSigned();
      var observedAt :- Signed();
      var recordedAt :- Signed();
      var agentId :- Identifier();
      var sessionId :- Identifier();
      var confidence :- Confidence();
      var evidence :- ReadAllEvidence();
      var supersedes :- OptionalId();
      r := Ok(MemoryFact(id, source, relation, target, validFrom, validUntil, observedAt, recordedAt, agentId, sessionId,
                         confidence, evidence, supersedes));
    }

    method ReadOneRevision() returns (r: Result<NodeRevision>)
      requires Valid()
      modifies this
      ensures Valid() && Agrees(ReadRevision(old(Rest())), r, Rest())
    {
      hide ReadNode, ReadSigned, ReadVarint;
      var node :- ReadOneNode();
      var recordedAt :- Signed();
      var position :- Varint();
      r := Ok(NodeRevision(node, recordedAt, position));
    }

    method ReadLater(count: nat) returns (r: Result<seq<NodeRevision>>)
      requires Valid()
      modifies this
      ensures Valid() && Agrees(ReadMany(ReadRevision, old(Rest()), count, []), r, Rest())
    {
      hide ReadNode, ReadSigned, ReadVarint;
      ghost var start := Rest();
      var later := [];
      for i := 0 to count
        invariant Valid()
        invariant ReadMany(ReadRevision, start, count, []) == ReadMany(ReadRevision, Rest(), count - i, later)
      {
        var revision :- ReadOneRevision();
        later := later + [revision];
      }
      r := Ok(later);
    }

    method ReadOneHistory() returns (r: Result<NodeHistory>)
      requires Valid()
      modifies this
      ensures Valid() && Agrees(ReadHistory(old(Rest())), r, Rest())
    {
      hide ReadCount, ReadNode, ReadSigned, ReadVarint, ReadMany;
      var count :- Count();
      if count == 0 {
        return Err(Codec);
      }
      var first :- ReadOneRevision();
      var later :- ReadLater(count - 1);
      r := Ok(NodeHistory(first, later));
    }

    // ---- Sections -------------------------------------------------------------------

    method ReadVersions() returns (r: Result<map<Id, u64>>)
      requires Valid()
      modifies this
      ensures Valid() && Agrees(ReadMap(ReadVersion, old(Rest())), r, Rest())
    {
      hide ReadCount, ReadId, ReadVarint;
      var count :- Count();
      ghost var start := Rest();
      var versions := map[];
      for i := 0 to count
        invariant Valid()
        invariant ReadEntries(ReadVersion, start, count, map[]) == ReadEntries(ReadVersion, Rest(), count - i, versions)
      {
        var stream :- Identifier();
        var version :- Varint();
        if stream in versions {
          return Err(Codec);
        }
        versions := versions[stream := version];
      }
      r := Ok(versions);
    }

    method ReadOneCursor() returns (r: Result<ReplayCursor>)
      requires Valid()
      modifies this
      ensures Valid() && Agrees(ReadCursor(old(Rest())), r, Rest())
    {
      hide ReadMap, ReadOptU64;
      var position :- OptionalU64();
      var versions :- ReadVersions();
      r := Ok(ReplayCursor(position, versions));
    }

    method ReadNodes() returns (r: Result<seq<NodeHistory>>)
      requires Valid()
      modifies this
      ensures Valid() && Agrees(ReadList(ReadHistory, old(Rest())), r, Rest())
    {
      hide ReadCount, ReadNode, ReadSigned, ReadVarint;
      var count :- Count();
      ghost var start := Rest();
      var nodes := [];
      for i := 0 to count
        invariant Valid()
        invariant ReadMany(ReadHistory, start, count, []) == ReadMany(ReadHistory, Rest(), count - i, nodes)
      {
        var history :- ReadOneHistory();
        nodes := nodes + [history];
      }
      r := Ok(nodes);
    }

    method ReadFacts() returns (r: Result<seq<MemoryFact>>)
      requires Valid()
      modifies this
      ensures Valid() && Agrees(ReadList(ReadFact, old(Rest())), r, Rest())
    {
      hide ReadCount, ReadId, ReadText, ReadOptId, ReadSigned, ReadOptSigned, ReadConfidence, ReadList;
      ReadListIs(ReadFact, Rest());
      var count :- Count();
      ghost var start := Rest();
      var facts := [];
      for i := 0 to count
        invariant Valid()
        invariant ReadMany(ReadFact, start, count, []) == ReadMany(ReadFact, Rest(), count - i, facts)
      {
        var fact :- ReadOneFact();
        facts := facts + [fact];
      }
      r := Ok(facts);
    }

    method ReadSupersessions() returns (r: Result<map<Id, Supersession>>)
      requires Valid()
      modifies this
      ensures Valid() && Agrees(ReadMap(ReadSupersession, old(Rest())), r, Rest())
    {
      hide ReadCount, ReadId, ReadSigned;
      var count :- Count();
      ghost var start := Rest();
      var changes := map[];
      for i := 0 to count
        invariant Valid()
        invariant ReadEntries(ReadSupersession, start, count, map[]) == ReadEntries(ReadSupersession, Rest(), count - i, changes)
      {
        var prior :- Identifier();
        var replacement :- Identifier();
        var validFrom :- Signed();
        var recordedAt :- Signed();
        if prior in changes {
          return Err(Codec);
        }
        changes := changes[prior := Supersession(replacement, validFrom, recordedAt)];
      }
      r := Ok(changes);
    }

    method ReadRetractions() returns (r: Result<map<Id, Retraction>>)
      requires Valid()
      modifies this
      ensures Valid() && Agrees(ReadMap(ReadRetraction, old(Rest())), r, Rest())
    {
      hide ReadCount, ReadId, ReadSigned;
      var count :- Count();
      ghost var start := Rest();
      var changes := map[];
      for i := 0 to count
        invariant Valid()
        invariant ReadEntries(ReadRetraction, start, count, map[]) == ReadEntries(ReadRetraction, Rest(), count - i, changes)
      {
        var fact :- Identifier();
        var validUntil :- Signed();
        var recordedAt :- Signed();
        if fact in changes {
          return Err(Codec);
        }
        changes := changes[fact := Retraction(validUntil, recordedAt)];
      }
      r := Ok(changes);
    }

    method ReadProjectionData() returns (r: Result<Projection>)
      requires Valid()
      modifies this
      ensures Valid() && Agrees(ReadData(old(Rest())), r, Rest())
    {
      hide ReadList, ReadMap, ReadOptU64;
      var nodes :- ReadNodes();
      var facts :- ReadFacts();
      var supersessions :- ReadSupersessions();
      var retractions :- ReadRetractions();
      var last :- OptionalU64();
      r := Ok(Projection(nodes, facts, supersessions, retractions, last));
    }
  }

  /** The value read so far, continued by what the remaining groups yield. */
  ghost function Accumulated(value: nat, scale: nat, p: Parsed<nat>): Parsed<nat> {
    match p
    case Done(v, rest) => Done(value + scale * v, rest)
    case Malformed => Malformed
  }

  lemma AccumulateStart(p: Parsed<nat>)
    ensures Accumulated(0, 1, p) == p
  {}

  lemma AccumulateEnd(value: nat, scale: nat, r: Bytes, i: nat)
    requires i <= 9 && (r == [] || (i == 9 && FromByte(r[0]) > 1))
    ensures Accumulated(value, scale, ReadGroups(r, i)) == Malformed
  {}

  lemma AccumulateStep(value: nat, scale: nat, r: Bytes, i: nat)
    requires i <= 9 && r != [] && (i == 9 ==> FromByte(r[0]) <= 1)
    ensures FromByte(r[0]) < 128 ==>
              Accumulated(value, scale, ReadGroups(r, i)) == Done(value + (FromByte(r[0]) % 128) * scale, r[1..])
    ensures FromByte(r[0]) >= 128 ==>
              && i < 9
              && Accumulated(value, scale, ReadGroups(r, i))
                 == Accumulated(value + (FromByte(r[0]) % 128) * scale, scale * 128, ReadGroups(r[1..], i + 1))
  {
    hide FromByte;
    var n := FromByte(r[0]);
    if n < 128 {
      assert n % 128 == n;
      Commute(scale, n);
    } else {
      var low := n - 128;
      assert n % 128 == low;
      var tail := ReadGroups(r[1..], i + 1);
      hide ReadGroups;
      if tail.Done? {
        Distribute(scale, low, tail.value);
      }
    }
  }

  lemma Commute(x: nat, y: nat)
    ensures x * y == y * x
  {}

  lemma Distribute(scale: nat, low: nat, v: nat)
    ensures scale * (low + 128 * v) == low * scale + scale * 128 * v
  {}

  lemma ReadListIs<T>(read: Bytes -> Parsed<T>, r: Bytes)
    ensures ReadList(read, r) == match ReadCount(r) case Done(n, r1) => ReadMany(read, r1, n, []) case Malformed => Malformed
  {}

  /** Decoding, with the indexes rebuilt: accepts exactly what the format accepts and returns a
      projection object that agrees with it. */
  method DecodeSnapshot(b: Bytes, hash: Id -> u64) returns (r: Result<(ReplayCursor, MemoryProjection)>)
    ensures r.Ok? <==> Decode(b).Some?
    ensures r.Ok? ==> r.value.1.Valid() && Decode(b) == Some(Snapshot(r.value.0, r.value.1.Value()))
  {
    hide ReadCursor, ReadData, Consistent, MemoryProjection.Valid;
    if !(HEADER <= b) {
      return Err(Codec);
    }
    var reader := new Reader(b, |HEADER|);
    var cursor :- reader.ReadOneCursor();
    var data :- reader.ReadProjectionData();
    var projection := new MemoryProjection.FromData(data, hash);
    var ok := projection.RebuildIndexes();
    if !ok {
      return Err(Codec);
    }
    if reader.position != |b| {
      return Err(Codec);
    }
    if cursor.globalPosition != data.lastPosition {
      return Err(Codec);
    }
    r := Ok((cursor, projection));
  }
}
