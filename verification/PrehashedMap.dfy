// The name index addressed by hashes computed ahead of time, against the plain map it stands for.

module PrehashedMap {
  import opened Values

  datatype Slot<+T> = Slot(key: string, value: T)

  type Buckets<T> = map<nat, seq<Slot<T>>>

  function Bucket<T>(b: Buckets<T>, h: nat): seq<Slot<T>> { if h in b then b[h] else [] }

  /** Slot i of bucket h agrees with what the key was last put to. */
  ghost predicate Holds<T>(hash: string -> nat, b: Buckets<T>, contents: map<string, T>, h: nat, i: nat)
    requires i < |Bucket(b, h)|
  {
    var s := Bucket(b, h)[i];
    hash(s.key) == h && s.key in contents && contents[s.key] == s.value
  }

  ghost predicate Stored<T>(hash: string -> nat, b: Buckets<T>, k: string) {
    exists i :: 0 <= i < |Bucket(b, hash(k))| && Bucket(b, hash(k))[i].key == k
  }

  ghost predicate Distinct<T>(s: seq<Slot<T>>) {
    forall i, j :: 0 <= i < j < |s| ==> s[i].key != s[j].key
  }

  /** A bucket holds the entries whose keys have its hash, each key once. */
  ghost predicate Indexes<T>(hash: string -> nat, b: Buckets<T>, contents: map<string, T>) {
    && (forall h, i :: 0 <= i < |Bucket(b, h)| ==> Holds(hash, b, contents, h, i))
    && (forall h :: Distinct(Bucket(b, h)))
    && (forall k :: k in contents ==> Stored(hash, b, k))
  }

  lemma Updated<T>(hash: string -> nat, b: Buckets<T>, contents: map<string, T>, key: string, val: T, i: nat)
    requires Indexes(hash, b, contents) && i < |Bucket(b, hash(key))| && Bucket(b, hash(key))[i].key == key
    ensures Indexes(hash, b[hash(key) := Bucket(b, hash(key))[i := Slot(key, val)]], contents[key := val])
    ensures key in contents
  {
    var h := hash(key);
    var b', contents' := b[h := Bucket(b, h)[i := Slot(key, val)]], contents[key := val];
    assert Holds(hash, b, contents, h, i);
    assert Distinct(Bucket(b, h));
    forall g, j | 0 <= j < |Bucket(b', g)| ensures Holds(hash, b', contents', g, j) {
      assert Holds(hash, b, contents, g, j);
    }
    forall g ensures Distinct(Bucket(b', g)) {
      assert Distinct(Bucket(b, g));
    }
    forall k | k in contents' ensures Stored(hash, b', k) {
      assert Stored(hash, b, k);
      var j :| 0 <= j < |Bucket(b, hash(k))| && Bucket(b, hash(k))[j].key == k;
      assert Bucket(b', hash(k))[j].key == k;
    }
  }

  lemma Inserted<T>(hash: string -> nat, b: Buckets<T>, contents: map<string, T>, key: string, val: T)
    requires Indexes(hash, b, contents) && !Stored(hash, b, key)
    ensures Indexes(hash, b[hash(key) := Bucket(b, hash(key)) + [Slot(key, val)]], contents[key := val])
    ensures key !in contents
  {
    var h := hash(key);
    var b', contents' := b[h := Bucket(b, h) + [Slot(key, val)]], contents[key := val];
    forall g, j | 0 <= j < |Bucket(b', g)| ensures Holds(hash, b', contents', g, j) {
      if j < |Bucket(b, g)| { assert Holds(hash, b, contents, g, j); }
    }
    forall g ensures Distinct(Bucket(b', g)) {
      assert Distinct(Bucket(b, g));
    }
    forall k | k in contents' ensures Stored(hash, b', k) {
      if k == key {
        assert Bucket(b', h)[|Bucket(b, h)|].key == key;
      } else {
        assert Stored(hash, b, k);
        var j :| 0 <= j < |Bucket(b, hash(k))| && Bucket(b, hash(k))[j].key == k;
        assert Bucket(b', hash(k))[j].key == k;
      }
    }
  }

  /** A lone entry of another key answers for every key with its hash. */
  ghost predicate Stranger<T>(hash: string -> nat, b: Buckets<T>, contents: map<string, T>, key: string) {
    key !in contents && |Bucket(b, hash(key))| == 1
  }

  class Index<T> {
    const hash: string -> nat
    var buckets: Buckets<T>
    /** What has been put in so far: each key with its latest value. */
    ghost var contents: map<string, T>

    constructor (hash: string -> nat)
      ensures Valid() && contents == map[] && buckets == map[] && this.hash == hash
    {
      this.hash := hash;
      buckets, contents := map[], map[];
    }

    ghost predicate Valid()
      reads this
    {
      Indexes(hash, buckets, contents)
    }

    /** Insert or update, under any hash function whatever. */
    method Put(key: string, val: T) returns (h: nat)
      requires Valid()
      modifies this
      ensures Valid() && contents == old(contents)[key := val] && h == hash(key)
      ensures forall g :: g != h ==> Bucket(buckets, g) == old(Bucket(buckets, g))
      ensures |Bucket(buckets, h)| == |old(Bucket(buckets, h))| + (if key in old(contents) then 0 else 1)
    {
      h := hash(key);
      var bucket := Bucket(buckets, h);
      for i := 0 to |bucket|
        invariant forall j :: 0 <= j < i ==> bucket[j].key != key
      {
        if bucket[i].key == key {
          Updated(hash, buckets, contents, key, val, i);
          buckets := buckets[h := bucket[i := Slot(key, val)]];
          contents := contents[key := val];
          return;
        }
      }
      Inserted(hash, buckets, contents, key, val);
      buckets := buckets[h := bucket + [Slot(key, val)]];
      contents := contents[key := val];
    }

    /** With the key's own hash: a stored key gives its latest value, and an absent one is reported
        absent exactly when its bucket is not a stranger's lone entry. */
    method Get(h: nat, key: string) returns (r: Option<T>)
      requires Valid() && h == hash(key)
      ensures key in contents ==> r == Some(contents[key])
      ensures key !in contents ==> (r == None <==> !Stranger(hash, buckets, contents, key))
      ensures Stranger(hash, buckets, contents, key) ==>
        exists k :: k != key && k in contents && hash(k) == h && r == Some(contents[k])
    {
      var bucket := Bucket(buckets, h);
      assert key in contents ==> Stored(hash, buckets, key);
      if |bucket| == 1 {
        assert Holds(hash, buckets, contents, h, 0);
        return Some(bucket[0].value);
      }
      for i := 0 to |bucket|
        invariant forall j :: 0 <= j < i ==> bucket[j].key != key
      {
        assert Holds(hash, buckets, contents, h, i);
        if bucket[i].key == key { return Some(bucket[i].value); }
      }
      return None;
    }
  }

  /** Two names with one hash: a lookup of the one that was never stored finds the other. */
  method LoneEntryAnswers<T>(hash: string -> nat, stored: string, absent: string, val: T) returns (r: Option<T>)
    requires stored != absent
    ensures hash(stored) == hash(absent) ==> r == Some(val)
    ensures hash(stored) != hash(absent) ==> r == None
  {
    var m := new Index<T>(hash);
    var _ := m.Put(stored, val);
    r := m.Get(hash(absent), absent);
  }
}
