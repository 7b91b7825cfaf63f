/** Growing byte buffers and the pools that lend them: bytes.Buffer and sync.Pool as
    protocol/codec.go and transport/tcp_highperf.go use them. */
module Buffers {
  import opened Types

  class Buffer {
    var store: array<byte>
    var len: nat

    ghost predicate Valid()
      reads this
    {
      len <= store.Length
    }

    ghost function Contents(): seq<byte>
      requires Valid()
      reads this, store
    {
      store[..len]
    }

    constructor (capacity: nat)
      ensures Valid() && Contents() == [] && fresh(store)
    {
      store := new byte[capacity];
      len := 0;
    }

    method WriteByte(b: byte)
      requires Valid()
      modifies this, store
      ensures Valid() && (store == old(store) || fresh(store))
      ensures Contents() == old(Contents()) + [b] && len == old(len) + 1
    {
      if len == store.Length {
        var bigger := new byte[2 * len + 64];
        forall i | 0 <= i < len {
          bigger[i] := store[i];
        }
        store := bigger;
      }
      store[len] := b;
      len := len + 1;
    }

    method Write(s: seq<byte>)
      requires Valid()
      modifies this, store
      ensures Valid() && (store == old(store) || fresh(store))
      ensures Contents() == old(Contents()) + s
    {
      for i := 0 to |s|
        invariant Valid() && (store == old(store) || fresh(store))
        invariant Contents() == old(Contents()) + s[..i]
      {
        WriteByte(s[i]);
      }
    }

    method Reset()
      modifies this`len
      ensures Valid() && Contents() == []
    {
      len := 0;
    }

    /** A copy of the contents in an array of its own. */
    method Copy() returns (r: array<byte>)
      requires Valid()
      ensures fresh(r) && r[..] == Contents()
    {
      r := new byte[len];
      forall i | 0 <= i < len {
        r[i] := store[i];
      }
    }
  }

  /** A pool hands out any buffer it holds, or a new one. The buffers it holds, and the arrays
      behind them, belong to nobody else. */
  class Pool {
    var free: set<Buffer>
    ghost var stores: set<array<byte>>

    ghost predicate Valid()
      reads this, free
    {
      && (forall b :: b in free ==> b.Valid() && b.store in stores)
      && (forall a, b :: a in free && b in free && a != b ==> a.store != b.store)
    }

    /** Every buffer in the pool is empty. */
    ghost predicate Clean()
      reads this, free
    {
      forall b :: b in free ==> b.len == 0
    }

    /** The buffer is on loan: the pool knows neither it nor its array. */
    ghost predicate Lent(b: Buffer)
      reads this, free, b
    {
      Valid() && b !in free && b.Valid() && b.store !in stores
    }

    constructor ()
      ensures Valid() && Clean() && free == {} && stores == {}
    {
      free := {};
      stores := {};
    }

    method Get() returns (b: Buffer)
      requires Valid()
      modifies this
      ensures Lent(b)
      ensures old(Clean()) ==> Clean() && b.len == 0
      ensures free <= old(free) && stores <= old(stores)
      ensures (b in old(free) && b.store in old(stores)) || (fresh(b) && fresh(b.store))
    {
      if free == {} {
        b := new Buffer(4096);
      } else if * {
        b := new Buffer(4096);
      } else {
        b :| b in free;
        free := free - {b};
        stores := stores - {b.store};
      }
    }

    method Put(b: Buffer)
      requires Lent(b)
      modifies this
      ensures Valid()
      ensures Clean() <==> old(Clean()) && b.len == 0
      ensures free == old(free) + {b} && stores == old(stores) + {b.store}
    {
      free := free + {b};
      stores := stores + {b.store};
    }
  }
}
