/**
 * ConcurrentMap.cpp: `ConcurrentMap<K, V>`, a fixed array of `BUCKET_SIZE`
 * buckets each holding a list of key/value entries, and
 * `ConcurrentShardMap<K, V>`, which routes every key to one of several such
 * maps.  `std::hash<K>` is a function value supplied at construction.
 */
module ConcurrentMaps {
  import opened Common

  /** `BUCKET_SIZE`. */
  const BucketSize: nat := 16

  /** `BucketEntry`. */
  datatype BucketEntry<K, V> = BucketEntry(key: K, value: V)

  /** The value of the first entry of `bucket` with key `key`. */
  function Find<K(==), V>(bucket: seq<BucketEntry<K, V>>, key: K): Option<V> {
    if bucket == [] then None
    else if bucket[0].key == key then Some(bucket[0].value)
    else Find(bucket[1..], key)
  }

  /** `bucket` with the value of the first entry for `key` replaced, or with a
      new entry at the end when there is none. */
  function Upsert<K(==), V>(bucket: seq<BucketEntry<K, V>>, key: K, value: V): seq<BucketEntry<K, V>> {
    if bucket == [] then [BucketEntry(key, value)]
    else if bucket[0].key == key then [BucketEntry(key, value)] + bucket[1..]
    else [bucket[0]] + Upsert(bucket[1..], key, value)
  }

  /** No key occurs twice in `bucket`. */
  ghost predicate UniqueKeys<K, V>(bucket: seq<BucketEntry<K, V>>) {
    forall i, j :: 0 <= i < j < |bucket| ==> bucket[i].key != bucket[j].key
  }

  /** Round trip: after an upsert, looking the key up gives the new value. */
  lemma {:induction false} FindUpsertSame<K, V>(bucket: seq<BucketEntry<K, V>>, key: K, value: V)
    ensures Find(Upsert(bucket, key, value), key) == Some(value)
  {
    if bucket != [] && bucket[0].key != key {
      FindUpsertSame(bucket[1..], key, value);
    }
  }

  /** An upsert does not change what any other key maps to. */
  lemma {:induction false} FindUpsertOther<K, V>(bucket: seq<BucketEntry<K, V>>, key: K, value: V, other: K)
    requires other != key
    ensures Find(Upsert(bucket, key, value), other) == Find(bucket, other)
  {
    if bucket != [] && bucket[0].key != key {
      FindUpsertOther(bucket[1..], key, value, other);
    }
  }

  /** Every entry after an upsert is the new one or was there before. */
  lemma {:induction false} UpsertEntries<K, V>(bucket: seq<BucketEntry<K, V>>, key: K, value: V)
    ensures forall e :: e in Upsert(bucket, key, value) ==> e == BucketEntry(key, value) || e in bucket
  {
    if bucket != [] && bucket[0].key != key {
      UpsertEntries(bucket[1..], key, value);
    }
  }

  /** An upsert keeps keys unique. */
  lemma {:induction false} UpsertKeepsKeysUnique<K, V>(bucket: seq<BucketEntry<K, V>>, key: K, value: V)
    requires UniqueKeys(bucket)
    ensures UniqueKeys(Upsert(bucket, key, value))
  {
    if bucket == [] {
    } else if bucket[0].key == key {
      var r := Upsert(bucket, key, value);
      forall i, j | 0 <= i < j < |r|
        ensures r[i].key != r[j].key
      {
        assert r[j] == bucket[j];
        if i > 0 {
          assert r[i] == bucket[i];
        }
      }
    } else {
      UpsertKeepsKeysUnique(bucket[1..], key, value);
      UpsertEntries(bucket[1..], key, value);
      var tail := Upsert(bucket[1..], key, value);
      var r := [bucket[0]] + tail;
      forall j | 0 < j < |r|
        ensures r[0].key != r[j].key
      {
        assert r[j] in tail;
        if r[j] != BucketEntry(key, value) {
          var m :| 0 <= m < |bucket[1..]| && bucket[1..][m] == r[j];
          assert bucket[m + 1] == r[j];
        }
      }
    }
  }

  /** An upsert of a present key keeps the bucket's length; of an absent key,
      appends exactly one entry. */
  lemma {:induction false} UpsertLength<K, V>(bucket: seq<BucketEntry<K, V>>, key: K, value: V)
    ensures Find(bucket, key).Some? ==> |Upsert(bucket, key, value)| == |bucket|
    ensures Find(bucket, key).None? ==> Upsert(bucket, key, value) == bucket + [BucketEntry(key, value)]
  {
    if bucket != [] && bucket[0].key != key {
      UpsertLength(bucket[1..], key, value);
      assert bucket == [bucket[0]] + bucket[1..];
    }
  }

  /** When the first entry for `key` is at `i`, the lookup finds its value. */
  lemma {:induction false} FindFirstMatch<K, V>(bucket: seq<BucketEntry<K, V>>, key: K, i: nat)
    requires i < |bucket| && bucket[i].key == key
    requires forall j :: 0 <= j < i ==> bucket[j].key != key
    ensures Find(bucket, key) == Some(bucket[i].value)
    decreases i
  {
    if i > 0 {
      FindFirstMatch(bucket[1..], key, i - 1);
    }
  }

  /** When the first entry for `key` is at `i`, the upsert overwrites that slot. */
  lemma {:induction false} UpsertFirstMatch<K, V>(bucket: seq<BucketEntry<K, V>>, key: K, value: V, i: nat)
    requires i < |bucket| && bucket[i].key == key
    requires forall j :: 0 <= j < i ==> bucket[j].key != key
    ensures Upsert(bucket, key, value) == bucket[i := BucketEntry(key, value)]
    decreases i
  {
    if i > 0 {
      UpsertFirstMatch(bucket[1..], key, value, i - 1);
    }
  }

  /** When no entry has key `key`, the lookup finds nothing. */
  lemma {:induction false} FindNoMatch<K, V>(bucket: seq<BucketEntry<K, V>>, key: K)
    requires forall j :: 0 <= j < |bucket| ==> bucket[j].key != key
    ensures Find(bucket, key) == None
  {
    if bucket != [] {
      FindNoMatch(bucket[1..], key);
    }
  }

  class ConcurrentMap<K(==, !new), V> {
    /** `std::hash<K>`. */
    const hash: K -> nat
    /** `buckets_`. */
    var buckets: seq<seq<BucketEntry<K, V>>>

    /** `getHash`: the bucket a key belongs to, always a valid bucket index. */
    function GetHash(key: K): (r: nat)
      ensures r < BucketSize
      ensures r == hash(key) % BucketSize
    {
      hash(key) % BucketSize
    }

    /** There are `BUCKET_SIZE` buckets; every entry sits in the bucket of its
        key, and no bucket holds a key twice (so no key occurs twice in the map). */
    ghost predicate Valid()
      reads this
    {
      && |buckets| == BucketSize
      && (forall b, e :: 0 <= b < |buckets| && e in buckets[b] ==> GetHash(e.key) == b)
      && (forall b :: 0 <= b < |buckets| ==> UniqueKeys(buckets[b]))
    }

    /** What the map holds for `key`. */
    ghost function Lookup(key: K): Option<V>
      reads this
      requires Valid()
    {
      Find(buckets[GetHash(key)], key)
    }

    constructor (hash: K -> nat)
      ensures Valid() && this.hash == hash
      ensures forall k :: Lookup(k) == None
    {
      this.hash := hash;
      buckets := seq(BucketSize, _ => []);
    }

    /** `insert`: overwrites the value of a present key in place, or appends a
        new entry to the key's bucket; no other bucket changes and no other
        key's value changes. */
    method Insert(key: K, value: V)
      requires Valid()
      modifies this
      ensures Valid()
      ensures buckets == old(buckets)[GetHash(key) := Upsert(old(buckets)[GetHash(key)], key, value)]
      ensures Lookup(key) == Some(value)
      ensures forall k :: k != key ==> Lookup(k) == old(Lookup(k))
    {
      var h := GetHash(key);
      var bucket := buckets[h];
      var i := 0;
      while i < |bucket|
        invariant i <= |bucket|
        invariant forall j :: 0 <= j < i ==> bucket[j].key != key
      {
        if bucket[i].key == key {
          UpsertFirstMatch(bucket, key, value, i);
          buckets := buckets[h := bucket[i := BucketEntry(key, value)]];
          InsertKeepsMap(old(buckets), h, key, value);
          return;
        }
        i := i + 1;
      }
      FindNoMatch(bucket, key);
      UpsertLength(bucket, key, value);
      buckets := buckets[h := bucket + [BucketEntry(key, value)]];
      InsertKeepsMap(old(buckets), h, key, value);
    }

    /** The facts `Insert` promises, for the bucket array it produces. */
    lemma InsertKeepsMap(old_: seq<seq<BucketEntry<K, V>>>, h: nat, key: K, value: V)
      requires h == GetHash(key) && |old_| == BucketSize
      requires forall b, e :: 0 <= b < |old_| && e in old_[b] ==> GetHash(e.key) == b
      requires forall b :: 0 <= b < |old_| ==> UniqueKeys(old_[b])
      ensures var nb := old_[h := Upsert(old_[h], key, value)];
        && (forall b, e :: 0 <= b < |nb| && e in nb[b] ==> GetHash(e.key) == b)
        && (forall b :: 0 <= b < |nb| ==> UniqueKeys(nb[b]))
        && (forall k :: Find(nb[GetHash(k)], k) == if k == key then Some(value) else Find(old_[GetHash(k)], k))
    {
      UpsertEntries(old_[h], key, value);
      UpsertKeepsKeysUnique(old_[h], key, value);
      FindUpsertSame(old_[h], key, value);
      forall k | k != key && GetHash(k) == h
        ensures Find(Upsert(old_[h], key, value), k) == Find(old_[h], k)
      {
        FindUpsertOther(old_[h], key, value, k);
      }
    }

    /** `get`: the value stored for `key`, or nothing when it was never inserted. */
    method Get(key: K) returns (r: Option<V>)
      requires Valid()
      ensures r == Lookup(key)
    {
      var bucket := buckets[GetHash(key)];
      var i := 0;
      while i < |bucket|
        invariant i <= |bucket|
        invariant forall j :: 0 <= j < i ==> bucket[j].key != key
      {
        if bucket[i].key == key {
          FindFirstMatch(bucket, key, i);
          return Some(bucket[i].value);
        }
        i := i + 1;
      }
      FindNoMatch(bucket, key);
      return None;
    }
  }

  /** `ConcurrentShardMap`: `shards_size_` independent maps; a key always goes
      to the shard `std::hash<K>(key) % shards_size_`. */
  class ConcurrentShardMap<K(==, !new), V> {
    /** `std::hash<K>`, the same function every shard uses. */
    const hash: K -> nat
    /** `shards_size_`. */
    const shardsSize: nat
    /** `shards_`. */
    var shards: seq<ConcurrentMap<K, V>>

    /** `getShardIndex`: the shard a key belongs to.  With no shards the
        modulo is undefined, so callers need at least one. */
    function ShardIndex(key: K): (r: nat)
      requires shardsSize > 0
      ensures r < shardsSize
      ensures r == hash(key) % shardsSize
    {
      hash(key) % shardsSize
    }

    /** There are `shards_size_` distinct shards, each a well-formed map with
        the same hash; a key present in a shard is one that routes there. */
    ghost predicate Valid()
      reads this, shards
    {
      && |shards| == shardsSize
      && (forall i, j :: 0 <= i < j < |shards| ==> shards[i] != shards[j])
      && (forall i :: 0 <= i < |shards| ==> shards[i].Valid() && shards[i].hash == hash)
      && (forall i, k :: 0 <= i < |shards| && shards[i].Lookup(k).Some? ==> ShardIndex(k) == i)
    }

    /** What the shard map holds for `key`: what its shard holds. */
    ghost function Lookup(key: K): Option<V>
      reads this, shards
      requires Valid() && shardsSize > 0
    {
      shards[ShardIndex(key)].Lookup(key)
    }

    /** The constructor: `shards` empty maps. */
    constructor (hash: K -> nat, shards: nat)
      ensures Valid() && this.hash == hash && shardsSize == shards
      ensures forall i :: 0 <= i < shards ==> fresh(this.shards[i])
      ensures forall i, k :: 0 <= i < shards ==> this.shards[i].Lookup(k) == None
    {
      var made: seq<ConcurrentMap<K, V>> := [];
      while |made| < shards
        invariant |made| <= shards
        invariant forall i :: 0 <= i < |made| ==> fresh(made[i])
        invariant forall i, j :: 0 <= i < j < |made| ==> made[i] != made[j]
        invariant forall i :: 0 <= i < |made| ==> made[i].Valid() && made[i].hash == hash
        invariant forall i, k :: 0 <= i < |made| ==> made[i].Lookup(k) == None
      {
        var m := new ConcurrentMap<K, V>(hash);
        made := made + [m];
      }
      this.hash := hash;
      shardsSize := shards;
      this.shards := made;
    }

    /** `insert`: only the key's own shard changes; afterwards the key maps
        to `value` and every other key to what it mapped to before. */
    method Insert(key: K, value: V)
      requires Valid() && shardsSize > 0
      modifies shards[ShardIndex(key)]
      ensures Valid()
      ensures Lookup(key) == Some(value)
      ensures forall k :: k != key ==> Lookup(k) == old(Lookup(k))
    {
      var s := ShardIndex(key);
      shards[s].Insert(key, value);
    }

    /** `get`: the value stored for `key`, or nothing. */
    method Get(key: K) returns (r: Option<V>)
      requires Valid() && shardsSize > 0
      ensures r == Lookup(key)
    {
      r := shards[ShardIndex(key)].Get(key);
    }
  }
}
