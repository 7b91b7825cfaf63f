/** The sharded connection pool on values, and its refinement of one plain map
    (transport/tcp_highperf.go ShardedConnectionPool, core/pool.go ShardedConnPool). */
module PoolSpec {
  import opened Types

  type Key = seq<byte>
  type Hash = Key -> nat

  /** The operations of the two pools. */
  datatype Op<C> =
    | Put(key: Key, conn: C) | Get(key: Key) | Delete(key: Key) | DeleteConn(key: Key, conn: C) | Size | Clear

  datatype Answer<C> = Done | Found(conn: Option<C>) | Count(n: int)

  // ---------------------------------------------------------------- one plain map

  function PlainApply<C(==)>(m: map<Key, C>, op: Op<C>): (map<Key, C>, Answer<C>) {
    match op
    case Put(k, c) => (m[k := c], Done)
    case Get(k) => (m, Found(if k in m then Some(m[k]) else None))
    case Delete(k) => (m - {k}, Done)
    case DeleteConn(k, c) => (if k in m && m[k] == c then m - {k} else m, Done)
    case Size => (m, Count(|m|))
    case Clear => (map[], Done)
  }

  // ---------------------------------------------------------------- shards

  datatype Sharded<C> = Sharded(parts: seq<map<Key, C>>, counts: seq<int>, total: int)

  /** The shard of a key: 32-bit hash modulo the 32-bit shard count. */
  function Index(hash: Hash, k: Key, n: nat): nat
    requires n % 0x1_0000_0000 != 0
  {
    hash(k) % 0x1_0000_0000 % (n % 0x1_0000_0000)
  }

  /** Which keys share a shard: those whose hashes leave the same remainder. */
  lemma SharedShard(hash: Hash, k: Key, k': Key, n: nat)
    requires 0 < n < 0x1_0000_0000 && hash(k) < 0x1_0000_0000 && hash(k') < 0x1_0000_0000
    ensures Index(hash, k, n) == hash(k) % n
    ensures Index(hash, k, n) == Index(hash, k', n) <==> hash(k) % n == hash(k') % n
  {
  }

  function Empty<C>(n: nat): Sharded<C> {
    Sharded(seq(n, _ => map[]), seq(n, _ => 0), 0)
  }

  predicate Sized<C>(s: Sharded<C>) {
    |s.parts| == |s.counts| && |s.parts| % 0x1_0000_0000 != 0
  }

  lemma IndexInRange(hash: Hash, k: Key, n: nat)
    requires n % 0x1_0000_0000 != 0
    ensures Index(hash, k, n) < n
  {
  }

  function PutAt<C>(s: Sharded<C>, i: nat, k: Key, c: C): Sharded<C>
    requires i < |s.parts| == |s.counts|
  {
    var grow := if k in s.parts[i] then 0 else 1;
    Sharded(s.parts[i := s.parts[i][k := c]], s.counts[i := s.counts[i] + grow], s.total + grow)
  }

  function DeleteAt<C>(s: Sharded<C>, i: nat, k: Key): Sharded<C>
    requires i < |s.parts| == |s.counts|
  {
    if k in s.parts[i] then
      Sharded(s.parts[i := s.parts[i] - {k}], s.counts[i := s.counts[i] - 1], s.total - 1)
    else s
  }

  function Apply<C(==)>(hash: Hash, s: Sharded<C>, op: Op<C>): (Sharded<C>, Answer<C>)
    requires Sized(s)
  {
    var n := |s.parts|;
    match op
    case Put(k, c) => IndexInRange(hash, k, n); (PutAt(s, Index(hash, k, n), k, c), Done)
    case Get(k) =>
      IndexInRange(hash, k, n);
      var part := s.parts[Index(hash, k, n)];
      (s, Found(if k in part then Some(part[k]) else None))
    case Delete(k) => IndexInRange(hash, k, n); (DeleteAt(s, Index(hash, k, n), k), Done)
    case DeleteConn(k, c) =>
      IndexInRange(hash, k, n);
      var i := Index(hash, k, n);
      (if k in s.parts[i] && s.parts[i][k] == c then DeleteAt(s, i, k) else s, Done)
    case Size => (s, Count(s.total))
    case Clear => (Empty(n), Done)
  }

  // ---------------------------------------------------------------- refinement

  function Sum(counts: seq<int>): int {
    if counts == [] then 0 else counts[0] + Sum(counts[1..])
  }

  /** Each key lives only in its own shard, and the shards hold exactly the plain map. */
  ghost predicate Holds<C>(hash: Hash, parts: seq<map<Key, C>>, m: map<Key, C>)
    requires |parts| % 0x1_0000_0000 != 0
  {
    && (forall k {:trigger k in m} {:trigger Index(hash, k, |parts|)} ::
          var i := Index(hash, k, |parts|);
          i < |parts| && (k in m <==> k in parts[i]) && (k in m ==> parts[i][k] == m[k]))
    && (forall i, k :: 0 <= i < |parts| && k in parts[i] ==> Index(hash, k, |parts|) == i)
  }

  /** Each shard's count is the size of its map, and the total is the sum of the counts. */
  ghost predicate Counted<C>(parts: seq<map<Key, C>>, counts: seq<int>, total: int) {
    && |parts| == |counts|
    && (forall i :: 0 <= i < |parts| ==> counts[i] == |parts[i]|)
    && total == Sum(counts)
  }

  /** The pool stands for the plain map, and its total is the size of that map. */
  ghost predicate Represents<C>(hash: Hash, s: Sharded<C>, m: map<Key, C>) {
    Sized(s) && Holds(hash, s.parts, m) && Counted(s.parts, s.counts, s.total) && s.total == |m|
  }

  lemma {:induction false} SumUpdate(counts: seq<int>, i: nat, x: int)
    requires i < |counts|
    ensures Sum(counts[i := x]) == Sum(counts) - counts[i] + x
  {
    if i == 0 {
      assert counts[0 := x][1..] == counts[1..];
    } else {
      assert counts[i := x][1..] == counts[1..][i - 1 := x];
      SumUpdate(counts[1..], i - 1, x);
    }
  }

  lemma {:induction false} SumZeros(n: nat)
    ensures Sum(seq(n, _ => 0)) == 0
  {
    if n > 0 {
      var z := seq(n, _ => 0);
      assert z[1..] == seq(n - 1, _ => 0);
      SumZeros(n - 1);
    }
  }

  lemma HomeShard<C>(hash: Hash, s: Sharded<C>, m: map<Key, C>, k: Key)
    requires Represents(hash, s, m)
    ensures var i := Index(hash, k, |s.parts|);
            && i < |s.parts|
            && (k in m <==> k in s.parts[i])
            && (k in m ==> s.parts[i][k] == m[k])
  {
    IndexInRange(hash, k, |s.parts|);
  }

  lemma EmptyRepresents<C>(hash: Hash, n: nat)
    requires n % 0x1_0000_0000 != 0
    ensures Represents(hash, Empty<C>(n), map[])
  {
    SumZeros(n);
    forall k
      ensures Index(hash, k, n) < n
    {
      IndexInRange(hash, k, n);
    }
  }

  lemma PutSize<C>(m: map<Key, C>, k: Key, c: C)
    ensures |m[k := c]| == |m| + (if k in m then 0 else 1)
  {
    assert m[k := c].Keys == m.Keys + {k};
    assert k in m ==> m.Keys + {k} == m.Keys;
  }

  lemma DeleteSize<C>(m: map<Key, C>, k: Key)
    requires k in m
    ensures |m - {k}| == |m| - 1
  {
    assert (m - {k}).Keys == m.Keys - {k};
  }

  /** Replacing one shard by another that differs only in key k, in k's own shard. */
  lemma HoldsUpdate<C>(hash: Hash, parts: seq<map<Key, C>>, m: map<Key, C>, k: Key, part: map<Key, C>, m': map<Key, C>)
    requires |parts| % 0x1_0000_0000 != 0 && Holds(hash, parts, m)
    requires Index(hash, k, |parts|) < |parts|
    requires forall k' :: k' != k ==> (k' in part <==> k' in parts[Index(hash, k, |parts|)])
    requires forall k' :: k' != k && k' in part ==> part[k'] == parts[Index(hash, k, |parts|)][k']
    requires forall k' :: k' != k ==> (k' in m' <==> k' in m) && (k' in m ==> m'[k'] == m[k'])
    requires (k in part <==> k in m') && (k in m' ==> part[k] == m'[k])
    ensures Holds(hash, parts[Index(hash, k, |parts|) := part], m')
  {
    hide Index;
  }

  lemma CountedUpdate<C>(parts: seq<map<Key, C>>, counts: seq<int>, total: int, i: nat, part: map<Key, C>, d: int)
    requires Counted(parts, counts, total) && i < |parts|
    requires |part| == |parts[i]| + d
    ensures Counted(parts[i := part], counts[i := counts[i] + d], total + d)
  {
    SumUpdate(counts, i, counts[i] + d);
  }

  lemma PutRepresents<C>(hash: Hash, s: Sharded<C>, m: map<Key, C>, k: Key, c: C)
    requires Represents(hash, s, m)
    ensures Index(hash, k, |s.parts|) < |s.parts|
    ensures Represents(hash, PutAt(s, Index(hash, k, |s.parts|), k, c), m[k := c])
  {
    HomeShard(hash, s, m, k);
    hide Holds, Counted, Index, Sum;
    var i := Index(hash, k, |s.parts|);
    PutSize(m, k, c);
    PutSize(s.parts[i], k, c);
    HoldsUpdate(hash, s.parts, m, k, s.parts[i][k := c], m[k := c]);
    CountedUpdate(s.parts, s.counts, s.total, i, s.parts[i][k := c], if k in m then 0 else 1);
  }

  lemma DeletePresent<C>(hash: Hash, s: Sharded<C>, m: map<Key, C>, k: Key, i: nat)
    requires Represents(hash, s, m) && i == Index(hash, k, |s.parts|) && i < |s.parts|
    requires k in m && k in s.parts[i]
    ensures var parts, counts := s.parts[i := s.parts[i] - {k}], s.counts[i := s.counts[i] - 1];
            Represents(hash, Sharded(parts, counts, s.total - 1), m - {k})
  {
    hide Holds, Counted, Index, Sum;
    DeleteSize(m, k);
    DeleteSize(s.parts[i], k);
    HoldsUpdate(hash, s.parts, m, k, s.parts[i] - {k}, m - {k});
    CountedUpdate(s.parts, s.counts, s.total, i, s.parts[i] - {k}, -1);
  }

  lemma DeleteRepresents<C>(hash: Hash, s: Sharded<C>, m: map<Key, C>, k: Key)
    requires Represents(hash, s, m)
    ensures Index(hash, k, |s.parts|) < |s.parts|
    ensures Represents(hash, DeleteAt(s, Index(hash, k, |s.parts|), k), m - {k})
  {
    HomeShard(hash, s, m, k);
    var i := Index(hash, k, |s.parts|);
    hide Represents, Index;
    if k in m {
      DeletePresent(hash, s, m, k, i);
    } else {
      assert m - {k} == m;
    }
  }

  lemma DeleteConnRepresents<C>(hash: Hash, s: Sharded<C>, m: map<Key, C>, k: Key, c: C)
    requires Represents(hash, s, m)
    ensures Represents(hash, Apply(hash, s, DeleteConn(k, c)).0, if k in m && m[k] == c then m - {k} else m)
  {
    HomeShard(hash, s, m, k);
    DeleteRepresents(hash, s, m, k);
    assert Sized(s);
    hide Represents, Index, DeleteAt;
  }

  /** Each operation on the shards does what it does on the plain map - put an entry, remove one,
      remove one if it is the given connection's, remove all - and answers as there: with the
      entry of the key, or with the number of entries. */
  lemma ApplyRefines<C>(hash: Hash, s: Sharded<C>, m: map<Key, C>, op: Op<C>)
    requires Represents(hash, s, m)
    ensures Represents(hash, Apply(hash, s, op).0, PlainApply(m, op).0)
    ensures Apply(hash, s, op).1 == PlainApply(m, op).1
    ensures match op
            case Put(k, c) => Represents(hash, Apply(hash, s, op).0, m[k := c])
            case Get(k) => Apply(hash, s, op) == (s, Found(if k in m then Some(m[k]) else None))
            case Delete(k) => Represents(hash, Apply(hash, s, op).0, m - {k})
            case DeleteConn(k, c) =>
              Represents(hash, Apply(hash, s, op).0, if k in m && m[k] == c then m - {k} else m)
            case Size => Apply(hash, s, op) == (s, Count(|m|))
            case Clear => Represents(hash, Apply(hash, s, op).0, map[])
  {
    assert s.total == |m| && Sized(s);
    hide Holds, Counted, Index, Sum, Represents;
    match op
    case Put(k, c) => PutRepresents(hash, s, m, k, c);
    case Get(k) => HomeShard(hash, s, m, k);
    case Delete(k) => DeleteRepresents(hash, s, m, k);
    case DeleteConn(k, c) => DeleteConnRepresents(hash, s, m, k, c);
    case Size =>
    case Clear => EmptyRepresents<C>(hash, |s.parts|);
  }

  function PlainAnswers<C(==)>(m: map<Key, C>, ops: seq<Op<C>>): seq<Answer<C>>
    decreases |ops|
  {
    if ops == [] then []
    else [PlainApply(m, ops[0]).1] + PlainAnswers(PlainApply(m, ops[0]).0, ops[1..])
  }

  lemma ApplySized<C>(hash: Hash, s: Sharded<C>, op: Op<C>)
    requires Sized(s)
    ensures Sized(Apply(hash, s, op).0)
  {
  }

  function Answers<C(==)>(hash: Hash, s: Sharded<C>, ops: seq<Op<C>>): seq<Answer<C>>
    requires Sized(s)
    decreases |ops|
  {
    if ops == [] then []
    else
      ApplySized(hash, s, ops[0]);
      [Apply(hash, s, ops[0]).1] + Answers(hash, Apply(hash, s, ops[0]).0, ops[1..])
  }

  lemma {:induction false} AnswersRefine<C>(hash: Hash, s: Sharded<C>, m: map<Key, C>, ops: seq<Op<C>>)
    requires Represents(hash, s, m)
    ensures Answers(hash, s, ops) == PlainAnswers(m, ops)
    decreases |ops|
  {
    hide Holds, Counted, Index, Apply, PlainApply;
    if ops != [] {
      ApplyRefines(hash, s, m, ops[0]);
      AnswersRefine(hash, Apply(hash, s, ops[0]).0, PlainApply(m, ops[0]).0, ops[1..]);
    }
  }

  /** Two pools with any hash functions and any shard counts answer every sequence of
      operations alike, as one plain map would. */
  lemma Indistinguishable<C>(hash: Hash, n: nat, hash': Hash, n': nat, ops: seq<Op<C>>)
    requires n % 0x1_0000_0000 != 0 && n' % 0x1_0000_0000 != 0
    ensures Answers(hash, Empty<C>(n), ops) == Answers(hash', Empty<C>(n'), ops) == PlainAnswers(map[], ops)
  {
    EmptyRepresents<C>(hash, n);
    EmptyRepresents<C>(hash', n');
    AnswersRefine(hash, Empty<C>(n), map[], ops);
    AnswersRefine(hash', Empty<C>(n'), map[], ops);
  }
}
