/** The sharded connection pool in place: ShardedConnectionPool of transport/tcp_highperf.go
    and ShardedConnPool of core/pool.go, which differ in hash function, default shard count
    and in having DeleteConn or Clear. Each method performs one operation of PoolSpec. */
module ShardedPool {
  import opened Types
  import opened Bits
  import opened PoolSpec

  const OFFSET_BASIS: nat := 2166136261
  const FNV_PRIME: nat := 16777619
  const MODULUS: nat := 0x1_0000_0000

  /** FNV-1: multiply, then exclusive-or with the byte (transport fnvHash). */
  function Fnv1(key: Key): (hash: nat)
    ensures hash < MODULUS
  {
    if key == [] then OFFSET_BASIS
    else
      var h := Fnv1(key[..|key| - 1]) * FNV_PRIME % MODULUS;
      XorWithin32(h, key[|key| - 1]);
      Xor(h, key[|key| - 1])
  }

  method FnvHash(key: Key) returns (hash: nat)
    ensures hash == Fnv1(key) && hash < MODULUS
  {
    hash := OFFSET_BASIS;
    for i := 0 to |key|
      invariant hash == Fnv1(key[..i])
    {
      hash := hash * FNV_PRIME % MODULUS;
      hash := Xor(hash, key[i]);
      assert key[..i + 1][..i] == key[..i];
    }
    assert key[..|key|] == key;
  }

  /** The published FNV-1 values of no byte and of "a", and the rule that adds a byte. */
  lemma FnvValues(key: Key, b: byte)
    ensures Fnv1([]) == 0x811c9dc5 && Fnv1([0x61]) == 0x050c5d7e
    ensures Fnv1(key + [b]) == Xor(Fnv1(key) * 16777619 % 0x1_0000_0000, b)
  {
    assert (key + [b])[..|key|] == key;
    assert [0x61][..0] == [];
    assert Fnv1([]) * FNV_PRIME % MODULUS == 0x050c5d1f;
    Flips();
  }

  lemma Flips()
    ensures Xor(0x050c5d1f, 0x61) == 0x050c5d7e
  {
    assert Xor(0x050c5d1f, 0x61) == 0 + 2 * Xor(0x02862e8f, 0x30);
    assert Xor(0x02862e8f, 0x30) == 1 + 2 * Xor(0x01431747, 0x18);
    assert Xor(0x01431747, 0x18) == 1 + 2 * Xor(0x00a18ba3, 0x0c);
    assert Xor(0x00a18ba3, 0x0c) == 1 + 2 * Xor(0x0050c5d1, 0x06);
    assert Xor(0x0050c5d1, 0x06) == 1 + 2 * Xor(0x002862e8, 0x03);
    assert Xor(0x002862e8, 0x03) == 1 + 2 * Xor(0x00143174, 0x01);
    assert Xor(0x00143174, 0x01) == 1 + 2 * Xor(0x000a18ba, 0x00);
  }

  class Shard<C> {
    var conns: map<Key, C>
    var count: int

    constructor ()
      ensures conns == map[] && count == 0
    {
      conns := map[];
      count := 0;
    }
  }

  predicate Always<C>(fn: (Key, C) -> bool, entries: seq<(Key, C)>) {
    forall i :: 0 <= i < |entries| ==> fn(entries[i].0, entries[i].1)
  }

  /** A visit of a map's entries: no key twice, every pair an entry of the map. */
  predicate Visits<C(==)>(entries: seq<(Key, C)>, m: map<Key, C>) {
    && (forall i, j :: 0 <= i < j < |entries| ==> entries[i].0 != entries[j].0)
    && (forall i :: 0 <= i < |entries| ==> entries[i].0 in m && m[entries[i].0] == entries[i].1)
  }

  /** The visit ended because fn said stop on its last entry, and only there. */
  predicate StoppedAtEnd<C>(fn: (Key, C) -> bool, entries: seq<(Key, C)>) {
    && |entries| > 0
    && Always(fn, entries[..|entries| - 1])
    && !fn(entries[|entries| - 1].0, entries[|entries| - 1].1)
  }

  predicate Complete<C(==)>(entries: seq<(Key, C)>, m: map<Key, C>) {
    forall k :: k in m ==> (k, m[k]) in entries
  }

  /** Ranges over one shard's map, in any order, until fn says stop. */
  method VisitShard<C(==)>(conns: map<Key, C>, fn: (Key, C) -> bool) returns (entries: seq<(Key, C)>, stopped: bool)
    ensures Visits(entries, conns)
    ensures stopped ==> StoppedAtEnd(fn, entries)
    ensures !stopped ==> Always(fn, entries) && Complete(entries, conns)
  {
    entries := [];
    var keys := conns.Keys;
    while keys != {}
      invariant keys <= conns.Keys
      invariant Visits(entries, conns) && Always(fn, entries)
      invariant forall k :: k in conns && k !in keys ==> (k, conns[k]) in entries
      invariant forall i :: 0 <= i < |entries| ==> entries[i].0 !in keys
      decreases keys
    {
      var k :| k in keys;
      ghost var before := entries;
      entries := entries + [(k, conns[k])];
      keys := keys - {k};
      assert forall k' :: k' in conns && (k', conns[k']) in before ==> (k', conns[k']) in entries;
      if !fn(k, conns[k]) {
        assert entries[..|entries| - 1] == before;
        return entries, true;
      }
    }
    stopped := false;
  }

  lemma VisitsConcat<C>(v: seq<(Key, C)>, e: seq<(Key, C)>, part: map<Key, C>, m: map<Key, C>)
    requires Visits(v, m) && Visits(e, part)
    requires forall k :: k in part ==> k in m && m[k] == part[k]
    requires forall i :: 0 <= i < |v| ==> v[i].0 !in part
    ensures Visits(v + e, m)
  {
  }

  class Pool<C(==)> {
    const hash: Hash
    const shardCount: nat
    const shards: seq<Shard<C>>
    var totalCount: int

    ghost predicate Valid()
      reads this, shards
    {
      && |shards| == shardCount
      && (forall i, j :: 0 <= i < j < |shards| ==> shards[i] != shards[j])
    }

    /** Finding a shard divides by the 32-bit shard count. */
    predicate Usable() { shardCount % 0x1_0000_0000 != 0 }

    /** The pool's state as a value. */
    ghost function Model(): (s: Sharded<C>)
      requires Valid()
      reads this, shards
      ensures |s.parts| == |s.counts| == shardCount
    {
      Sharded(seq(|shards|, i requires 0 <= i < |shards| reads shards => shards[i].conns),
              seq(|shards|, i requires 0 <= i < |shards| reads shards => shards[i].count),
              totalCount)
    }

    /** NewShardedConnectionPool (default 256 shards) and NewShardedConnPool (default 16). */
    constructor (hash: Hash, shardCount: int, defaultCount: nat)
      ensures Valid() && fresh(shards) && this.hash == hash
      ensures this.shardCount == if shardCount <= 0 then defaultCount else shardCount
      ensures Model() == Empty(if shardCount <= 0 then defaultCount else shardCount)
    {
      var n: nat := if shardCount <= 0 then defaultCount else shardCount;
      var parts: seq<Shard<C>> := [];
      for i := 0 to n
        invariant |parts| == i
        invariant forall j :: 0 <= j < i ==> fresh(parts[j]) && parts[j].conns == map[] && parts[j].count == 0
        invariant forall j, k :: 0 <= j < k < i ==> parts[j] != parts[k]
      {
        var shard := new Shard<C>();
        parts := parts + [shard];
      }
      this.hash := hash;
      this.shardCount := n;
      this.shards := parts;
      totalCount := 0;
    }

    method GetShard(key: Key) returns (i: nat, shard: Shard<C>)
      requires Valid() && Usable()
      ensures i == Index(hash, key, |shards|) && i < |shards| && shard == shards[i]
      ensures i == hash(key) % 0x1_0000_0000 % (shardCount % 0x1_0000_0000)
    {
      IndexInRange(hash, key, |shards|);
      i := hash(key) % 0x1_0000_0000 % (shardCount % 0x1_0000_0000);
      shard := shards[i];
    }

    /** The model after a method that changed one shard. */
    twostate lemma OneShard(i: nat)
      requires old(Valid()) && Valid() && i < |shards|
      requires forall j :: 0 <= j < |shards| && j != i ==> unchanged(shards[j])
      ensures Model() == Sharded(old(Model()).parts[i := shards[i].conns],
                                 old(Model()).counts[i := shards[i].count], totalCount)
      ensures old(Model()).parts[i] == old(shards[i].conns) && old(Model()).counts[i] == old(shards[i].count)
      ensures old(Model()).total == old(totalCount) && |old(Model()).parts| == |shards|
    {
    }

    method Put(key: Key, conn: C)
      requires Valid() && Usable()
      modifies this, shards
      ensures Valid() && Model() == Apply(hash, old(Model()), Op.Put(key, conn)).0
    {
      var i, shard := GetShard(key);
      hide Index, Model;
      if key !in shard.conns {
        shard.count := shard.count + 1;
        totalCount := totalCount + 1;
      }
      shard.conns := shard.conns[key := conn];
      OneShard(i);
    }

    method Get(key: Key) returns (conn: Option<C>)
      requires Valid() && Usable()
      ensures Found(conn) == Apply(hash, Model(), Op.Get(key)).1
    {
      var i, shard := GetShard(key);
      conn := if key in shard.conns then Some(shard.conns[key]) else None;
    }

    method Delete(key: Key)
      requires Valid() && Usable()
      modifies this, shards
      ensures Valid() && Model() == Apply(hash, old(Model()), Op.Delete(key)).0
    {
      var i, shard := GetShard(key);
      hide Index, Model;
      if key in shard.conns {
        shard.conns := shard.conns - {key};
        shard.count := shard.count - 1;
        totalCount := totalCount - 1;
      }
      OneShard(i);
    }

    /** Deletes the entry only if it is still the given connection's. */
    method DeleteConn(key: Key, conn: C)
      requires Valid() && Usable()
      modifies this, shards
      ensures Valid() && Model() == Apply(hash, old(Model()), Op.DeleteConn(key, conn)).0
    {
      var i, shard := GetShard(key);
      hide Index, Model;
      if key in shard.conns && shard.conns[key] == conn {
        shard.conns := shard.conns - {key};
        shard.count := shard.count - 1;
        totalCount := totalCount - 1;
      }
      OneShard(i);
    }

    method Size() returns (n: int)
      requires Valid()
      ensures n == Model().total
      ensures forall m :: Represents(hash, Model(), m) ==> n == |m|
    {
      n := totalCount;
    }

    method Clear()
      requires Valid()
      modifies this, shards
      ensures Valid() && Model() == Empty(shardCount)
      ensures Usable() ==> Model() == Apply(hash, old(Model()), Op.Clear).0
    {
      for i := 0 to |shards|
        invariant Valid()
        invariant forall j :: 0 <= j < i ==> shards[j].conns == map[] && shards[j].count == 0
      {
        shards[i].conns := map[];
        shards[i].count := 0;
      }
      totalCount := 0;
    }

    /** Visits entries, shard by shard and in any order within one, until fn says stop: each
        entry at most once, all of them if fn never stops, and otherwise up to and including
        the first on which it does. */
    method Range(fn: (Key, C) -> bool, ghost m: map<Key, C>) returns (visited: seq<(Key, C)>)
      requires Valid() && Represents(hash, Model(), m)
      ensures Visits(visited, m)
      ensures if Always(fn, visited) then Complete(visited, m) else StoppedAtEnd(fn, visited)
    {
      visited := [];
      hide Represents, Index, Always, Complete, Model, Visits, Covers, StoppedAtEnd;
      CoversNone(hash, Model(), fn, m);
      for i := 0 to |shards|
        invariant Covers(hash, visited, fn, m, i, |shards|)
      {
        hide Represents, Index, Always, Complete, Model, Visits, Covers, StoppedAtEnd;
        var entries, stopped := VisitShard(shards[i].conns, fn);
        ModelPart(i);
        CoversNext(hash, Model(), visited, entries, fn, m, i, stopped);
        visited := visited + entries;
        if stopped {
          return;
        }
      }
      CoversAll(hash, Model(), visited, fn, m);
    }

    lemma ModelPart(i: nat)
      requires Valid() && i < |shards|
      ensures Model().parts[i] == shards[i].conns && |Model().parts| == |shards|
    {
    }
  }

  /** v is a visit, not stopped, of all entries whose shard comes before i. */
  ghost predicate Covers<C>(hash: Hash, v: seq<(Key, C)>, fn: (Key, C) -> bool, m: map<Key, C>, i: nat, n: nat) {
    && n % 0x1_0000_0000 != 0
    && Visits(v, m) && Always(fn, v)
    && (forall j :: 0 <= j < |v| ==> Index(hash, v[j].0, n) < i)
    && (forall k :: k in m && Index(hash, k, n) < i ==> (k, m[k]) in v)
  }

  lemma CoversNone<C>(hash: Hash, s: Sharded<C>, fn: (Key, C) -> bool, m: map<Key, C>)
    requires Represents(hash, s, m)
    ensures Covers(hash, [], fn, m, 0, |s.parts|)
  {
    hide Index, Holds, Counted;
  }

  lemma CoversNext<C>(hash: Hash, s: Sharded<C>, v: seq<(Key, C)>, e: seq<(Key, C)>, fn: (Key, C) -> bool,
                      m: map<Key, C>, i: nat, stopped: bool)
    requires Represents(hash, s, m) && i < |s.parts| && Covers(hash, v, fn, m, i, |s.parts|)
    requires Visits(e, s.parts[i])
    requires stopped ==> StoppedAtEnd(fn, e)
    requires !stopped ==> Always(fn, e) && Complete(e, s.parts[i])
    ensures if stopped then Visits(v + e, m) && StoppedAtEnd(fn, v + e) && !Always(fn, v + e)
            else Covers(hash, v + e, fn, m, i + 1, |s.parts|)
  {
    PartOf(hash, s, m, i);
    hide Represents, Index, Always, Complete, Visits, StoppedAtEnd;
    VisitsConcat(v, e, s.parts[i], m);
    JoinedVisits(fn, v, e, stopped);
    Joined(hash, v, e, s.parts[i], m, i, |s.parts|, stopped);
  }

  lemma CoversAll<C>(hash: Hash, s: Sharded<C>, v: seq<(Key, C)>, fn: (Key, C) -> bool, m: map<Key, C>)
    requires Represents(hash, s, m) && Covers(hash, v, fn, m, |s.parts|, |s.parts|)
    ensures Visits(v, m) && Always(fn, v) && Complete(v, m)
  {
    AllHome(hash, s, m);
    hide Represents, Index;
  }

  lemma AllHome<C>(hash: Hash, s: Sharded<C>, m: map<Key, C>)
    requires Represents(hash, s, m)
    ensures forall k :: k in m ==> Index(hash, k, |s.parts|) < |s.parts|
  {
    forall k | k in m
      ensures Index(hash, k, |s.parts|) < |s.parts|
    {
      IndexInRange(hash, k, |s.parts|);
    }
  }

  lemma PartOf<C>(hash: Hash, s: Sharded<C>, m: map<Key, C>, i: nat)
    requires Represents(hash, s, m) && i < |s.parts|
    ensures forall k :: k in s.parts[i] ==> k in m && m[k] == s.parts[i][k]
    ensures forall k :: k in s.parts[i] ==> Index(hash, k, |s.parts|) == i
    ensures forall k :: k in m && Index(hash, k, |s.parts|) == i ==> k in s.parts[i]
  {
    hide Index;
    forall k | k in s.parts[i]
      ensures Index(hash, k, |s.parts|) == i && k in m && m[k] == s.parts[i][k]
    {
    }
    forall k | k in m && Index(hash, k, |s.parts|) == i
      ensures k in s.parts[i]
    {
    }
  }

  lemma JoinedVisits<C>(fn: (Key, C) -> bool, v: seq<(Key, C)>, e: seq<(Key, C)>, stopped: bool)
    requires Always(fn, v) && if stopped then StoppedAtEnd(fn, e) else Always(fn, e)
    ensures if stopped then StoppedAtEnd(fn, v + e) && !Always(fn, v + e) else Always(fn, v + e)
  {
    if stopped {
      assert (v + e)[..|v + e| - 1] == v + e[..|e| - 1];
      assert (v + e)[|v + e| - 1] == e[|e| - 1];
      assert !Always(fn, v + e);
    }
  }

  lemma Joined<C>(hash: Hash, v: seq<(Key, C)>, e: seq<(Key, C)>, part: map<Key, C>, m: map<Key, C>,
                  i: nat, n: nat, stopped: bool)
    requires n % 0x1_0000_0000 != 0 && Visits(e, part)
    requires forall j :: 0 <= j < |v| ==> Index(hash, v[j].0, n) < i
    requires forall k :: k in m && Index(hash, k, n) < i ==> (k, m[k]) in v
    requires forall k :: k in part ==> k in m && m[k] == part[k] && Index(hash, k, n) == i
    requires forall k :: k in m && Index(hash, k, n) == i ==> k in part
    requires !stopped ==> Complete(e, part)
    ensures forall j :: 0 <= j < |v + e| ==> Index(hash, (v + e)[j].0, n) < i + 1
    ensures !stopped ==> forall k :: k in m && Index(hash, k, n) < i + 1 ==> (k, m[k]) in v + e
  {
    hide Index;
  }
}
