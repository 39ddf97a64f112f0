/** The prehashed identifier index: one primary entry per hash, and a bucket for the rest.

    For an arbitrary hash function the index behaves as a finite map; collisions cost
    a bucket search, never an answer.
 */
module IdIndexes {
  import opened Common

  type Bucket = seq<(Id, nat)>

  /** The value of the first entry for `id`. */
  function Find(bucket: Bucket, id: Id): (r: Option<nat>)
    ensures r.None? <==> forall i | 0 <= i < |bucket| :: bucket[i].0 != id
  {
    if bucket == [] then None
    else if bucket[0].0 == id then Some(bucket[0].1)
    else Find(bucket[1..], id)
  }

  /** Overwrites the first entry for `id`, or adds one at the end. */
  function Put(bucket: Bucket, id: Id, index: nat): (r: Bucket)
    ensures Find(bucket, id).None? ==> r == bucket + [(id, index)]
    ensures Find(bucket, id).Some? ==> |r| == |bucket| && forall i | 0 <= i < |r| :: r[i].0 == bucket[i].0
  {
    if bucket == [] then [(id, index)]
    else if bucket[0].0 == id then [(id, index)] + bucket[1..]
    else [bucket[0]] + Put(bucket[1..], id, index)
  }

  lemma {:induction false} FindAfterPut(bucket: Bucket, id: Id, index: nat, other: Id)
    ensures Find(Put(bucket, id, index), other) == if other == id then Some(index) else Find(bucket, other)
    decreases |bucket|
  {
    if bucket != [] && bucket[0].0 != id {
      FindAfterPut(bucket[1..], id, index, other);
      assert Put(bucket, id, index)[1..] == Put(bucket[1..], id, index);
    }
  }

  function Get(m: map<Id, nat>, id: Id): Option<nat> {
    if id in m then Some(m[id]) else None
  }

  /** The lookup the index performs on its two tables. */
  function Search(entries: map<u64, (Id, nat)>, collisions: map<u64, Bucket>, id: Id, h: u64): Option<nat> {
    if h in entries && entries[h].0 == id then Some(entries[h].1)
    else if h in collisions then Find(collisions[h], id)
    else None
  }

  /** A bucket holds distinct ids of its hash, none of them the primary one. */
  ghost predicate BucketOk(hash: Id -> u64, primary: Id, bucket: Bucket, h: u64) {
    && (forall i | 0 <= i < |bucket| :: hash(bucket[i].0) == h && bucket[i].0 != primary)
    && forall i, j | 0 <= i < j < |bucket| :: bucket[i].0 != bucket[j].0
  }

  ghost predicate TablesOk(hash: Id -> u64, entries: map<u64, (Id, nat)>, collisions: map<u64, Bucket>) {
    && (forall h | h in entries :: hash(entries[h].0) == h)
    && forall h | h in collisions :: h in entries && BucketOk(hash, entries[h].0, collisions[h], h)
  }

  lemma PutKeepsBucket(hash: Id -> u64, primary: Id, bucket: Bucket, h: u64, id: Id, index: nat)
    requires BucketOk(hash, primary, bucket, h) && hash(id) == h && id != primary
    ensures BucketOk(hash, primary, Put(bucket, id, index), h)
  {}

  /** Storing an id as its hash's primary entry answers for that id and changes no other answer. */
  lemma PutPrimary(hash: Id -> u64, entries: map<u64, (Id, nat)>, collisions: map<u64, Bucket>, id: Id, index: nat)
    requires TablesOk(hash, entries, collisions)
    requires hash(id) in entries ==> entries[hash(id)].0 == id
    ensures var after := entries[hash(id) := (id, index)];
            && TablesOk(hash, after, collisions)
            && forall other :: Search(after, collisions, other, hash(other))
                 == if other == id then Some(index) else Search(entries, collisions, other, hash(other))
  {}

  function BucketAt(collisions: map<u64, Bucket>, h: u64): Bucket {
    if h in collisions then collisions[h] else []
  }

  /** The same for the bucket behind an occupied primary entry. */
  lemma PutInBucket(hash: Id -> u64, entries: map<u64, (Id, nat)>, collisions: map<u64, Bucket>, id: Id, index: nat)
    requires TablesOk(hash, entries, collisions)
    requires hash(id) in entries && entries[hash(id)].0 != id
    ensures var after := collisions[hash(id) := Put(BucketAt(collisions, hash(id)), id, index)];
            && TablesOk(hash, entries, after)
            && forall other :: Search(entries, after, other, hash(other))
                 == if other == id then Some(index) else Search(entries, collisions, other, hash(other))
  {
    var h := hash(id);
    var bucket := BucketAt(collisions, h);
    PutKeepsBucket(hash, entries[h].0, bucket, h, id, index);
    var after := collisions[h := Put(bucket, id, index)];
    hide BucketOk, Put;
    forall other
      ensures Search(entries, after, other, hash(other))
           == if other == id then Some(index) else Search(entries, collisions, other, hash(other))
    {
      if hash(other) == h {
        FindAfterPut(bucket, id, index, other);
      }
    }
  }

  class IdIndex {
    const hash: Id -> u64
    var entries: map<u64, (Id, nat)>
    var collisions: map<u64, Bucket>
    ghost var Contents: map<Id, nat>

    ghost predicate Valid()
      reads this
    {
      && TablesOk(hash, entries, collisions)
      && forall id :: Search(entries, collisions, id, hash(id)) == Get(Contents, id)
    }

    constructor (hash: Id -> u64)
      ensures Valid() && Contents == map[] && this.hash == hash
    {
      this.hash := hash;
      entries, collisions, Contents := map[], map[], map[];
    }

    /** Lookups agree with the plain map, whatever collides. */
    method Lookup(id: Id) returns (r: Option<nat>)
      requires Valid()
      ensures r == Get(Contents, id)
    {
      r := Search(entries, collisions, id, hash(id));
    }

    /** Insertion is map insertion and reports the value it displaced. */
    method InsertHashed(id: Id, index: nat, h: u64) returns (prior: Option<nat>)
      requires Valid() && h == hash(id)
      modifies this
      ensures Valid()
      ensures Contents == old(Contents)[id := index] && prior == Get(old(Contents), id)
    {
      hide Find, Put, BucketOk;
      prior := Search(entries, collisions, id, h);
      if h in entries {
        if entries[h].0 == id {
          PutPrimary(hash, entries, collisions, id, index);
          entries := entries[h := (id, index)];
        } else {
          PutInBucket(hash, entries, collisions, id, index);
          collisions := collisions[h := Put(BucketAt(collisions, h), id, index)];
        }
      } else {
        assert h !in collisions;
        PutPrimary(hash, entries, collisions, id, index);
        entries := entries[h := (id, index)];
      }
      Contents := Contents[id := index];
    }

    method Insert(id: Id, index: nat) returns (prior: Option<nat>)
      requires Valid()
      modifies this
      ensures Valid()
      ensures Contents == old(Contents)[id := index] && prior == Get(old(Contents), id)
    {
      prior := InsertHashed(id, index, hash(id));
    }
  }
}
