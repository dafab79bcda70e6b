/** The block cache in its concrete form, with the bookkeeping that has to agree. */
module BlockCache {
  import opened Encoding
  import opened Lru
  import opened Options

  function WrappingAdd(a: U64, b: U64): (r: U64)
    ensures r == if a + b < USIZE then a + b else a + b - USIZE
  {
    (a + b) % USIZE
  }

  function WrappingSub(a: U64, b: U64): (r: U64)
    ensures r == if b <= a then a - b else a + USIZE - b
  {
    (a + USIZE - b) % USIZE
  }

  /** The entries in queue order. */
  ghost function Entries<K>(order: seq<K>, blocks: map<K, Vec<byte>>): (c: Cache<K>)
    requires forall k :: k in order ==> k in blocks
    ensures |c| == |order| && forall i :: 0 <= i < |order| ==> c[i] == Entry(order[i], blocks[order[i]])
  {
    seq(|order|, i requires 0 <= i < |order| => Entry(order[i], blocks[order[i]]))
  }

  ghost predicate NoRepeats<K>(order: seq<K>) {
    forall i, j :: 0 <= i < j < |order| ==> order[i] != order[j]
  }

  function Position<K(==)>(order: seq<K>, hash: K): (p: nat)
    requires hash in order
    ensures p < |order| && order[p] == hash && forall k :: 0 <= k < p ==> order[k] != hash
  {
    if order[0] == hash then 0 else 1 + Position(order[1..], hash)
  }

  lemma {:induction false} QueueCountsKeys<K>(order: seq<K>, keys: set<K>)
    requires NoRepeats(order) && forall k :: k in order <==> k in keys
    ensures |order| == |keys|
  {
    if order == [] {
      assert keys == {};
    } else {
      var rest := keys - {order[0]};
      forall k ensures k in order[1..] <==> k in rest {
        if k in rest {
          var i :| 0 <= i < |order| && order[i] == k;
          assert order[1..][i - 1] == k;
        }
      }
      QueueCountsKeys(order[1..], rest);
    }
  }

  /** The queue lists the keys of the map, each once. */
  ghost predicate InSync<K(!new)>(order: seq<K>, blocks: map<K, Vec<byte>>) {
    NoRepeats(order) && forall k :: k in order <==> k in blocks
  }

  lemma SameIndex<K(!new)>(order: seq<K>, blocks: map<K, Vec<byte>>, hash: K)
    requires InSync(order, blocks)
    ensures Holds(Entries(order, blocks), hash) <==> hash in blocks
    ensures hash in order ==> IndexOf(Entries(order, blocks), hash) == Position(order, hash)
  {
    var c := Entries(order, blocks);
    if hash in order {
      assert c[Position(order, hash)].hash == hash;
    }
  }

  function Moved<K>(order: seq<K>, p: nat): (r: seq<K>)
    requires p < |order|
    ensures |r| == |order| && forall k :: 0 <= k < |r| ==> r[k] == order[Source(|order|, p, k)]
  {
    order[..p] + order[p + 1..] + [order[p]]
  }

  /** Where the element at `k` came from when the one at `p` moved to the back. */
  function Source(n: nat, p: nat, k: nat): (i: nat)
    requires p < n && k < n
    ensures i < n
  {
    if k == n - 1 then p else if k < p then k else k + 1
  }

  lemma MovedInSync<K(!new)>(order: seq<K>, blocks: map<K, Vec<byte>>, p: nat)
    requires InSync(order, blocks) && p < |order|
    ensures InSync(Moved(order, p), blocks)
  {
    var moved := Moved(order, p);
    forall k | k in blocks ensures k in moved {
      var i :| 0 <= i < |order| && order[i] == k;
      assert moved[if i == p then |order| - 1 else if i < p then i else i - 1] == k;
    }
  }

  lemma MoveStep<K(!new)>(order: seq<K>, blocks: map<K, Vec<byte>>, p: nat)
    requires InSync(order, blocks) && p < |order|
    ensures InSync(Moved(order, p), blocks)
    ensures Entries(Moved(order, p), blocks) == MoveToBack(Entries(order, blocks), p)
  {
    MovedInSync(order, blocks, p);
    var c, d := Entries(order, blocks), Entries(Moved(order, p), blocks);
    MovedToBack(c, p);
    forall k | 0 <= k < |order| ensures d[k] == MoveToBack(c, p)[k] {
      assert d[k] == c[Source(|order|, p, k)];
    }
  }

  lemma PushStep<K(!new)>(order: seq<K>, blocks: map<K, Vec<byte>>, hash: K, block: Vec<byte>)
    requires InSync(order, blocks) && hash !in blocks
    ensures InSync(order + [hash], blocks[hash := block])
    ensures Entries(order + [hash], blocks[hash := block]) == Entries(order, blocks) + [Entry(hash, block)]
  {
  }

  lemma PopStep<K(!new)>(order: seq<K>, blocks: map<K, Vec<byte>>)
    requires InSync(order, blocks) && order != []
    ensures InSync(order[1..], blocks - {order[0]})
    ensures Entries(order[1..], blocks - {order[0]}) == Entries(order, blocks)[1..]
  {
    forall k ensures k in order[1..] <==> k in blocks - {order[0]} {
      if k in blocks - {order[0]} {
        var i :| 0 <= i < |order| && order[i] == k;
        assert order[1..][i - 1] == k;
      }
    }
  }

  class BlockCache<K(==,!new)> {
    const maxBytes: U64
    var blocks: map<K, Vec<byte>>
    var order: seq<K>
    var bytes: U64

    ghost predicate Synced()
      reads this
    {
      InSync(order, blocks)
    }

    ghost function Contents(): Cache<K>
      requires Synced()
      reads this
    {
      Entries(order, blocks)
    }

    /** The running total is what is held, and what is held fits the bound. */
    ghost predicate Valid()
      reads this
    {
      Synced() && bytes == Total(Contents()) && bytes <= maxBytes && (maxBytes == 0 ==> order == [])
    }

    constructor (max: U64)
      ensures Valid() && maxBytes == max && Contents() == Run<K>(max, [])
    {
      maxBytes, blocks, order, bytes := max, map[], [], 0;
    }

    method Get(hash: K) returns (block: Option<Vec<byte>>)
      requires Valid()
      modifies this`order
      ensures Valid()
      ensures block == Lookup(old(Contents()), hash)
      ensures Contents() == Apply(old(Contents()), maxBytes, Op.Get(hash))
    {
      SameIndex(order, blocks, hash);
      if maxBytes == 0 || hash !in blocks {
        return None;
      }
      var p := Position(order, hash);
      MoveStep(order, blocks, p);
      TotalMove(Contents(), p);
      order := Moved(order, p);
      return Some(blocks[hash]);
    }

    /** An insertion that fits the word range refines the abstract one. One that
        does not wraps the counter around, and then nothing is evicted. */
    method Insert(hash: K, block: Vec<byte>)
      requires Valid()
      modifies this
      ensures Synced()
      ensures Fresh(old(Contents()), maxBytes, hash, block) && old(bytes) + |block| >= USIZE ==>
                Contents() == old(Contents()) + [Entry(hash, block)] && bytes == old(bytes) + |block| - USIZE
      ensures !(Fresh(old(Contents()), maxBytes, hash, block) && old(bytes) + |block| >= USIZE) ==>
                Valid() && Contents() == Apply(old(Contents()), maxBytes, Op.Insert(hash, block))
    {
      SameIndex(order, blocks, hash);
      if maxBytes == 0 {
        return;
      }
      var size := |block|;
      if size > maxBytes || hash in blocks {
        return;
      }
      ghost var wide := bytes + size;
      ghost var all := Contents() + [Entry(hash, block)];
      TotalAppend(Contents(), [Entry(hash, block)]);
      TotalOne(Entry(hash, block));
      PushStep(order, blocks, hash, block);
      bytes := WrappingAdd(bytes, size);
      blocks := blocks[hash := block];
      order := order + [hash];
      while bytes > maxBytes
        invariant Synced()
        invariant wide >= USIZE ==> Contents() == all && bytes == wide - USIZE
        invariant wide < USIZE ==> bytes == Total(Contents()) && Evict(Contents(), maxBytes) == Evict(all, maxBytes)
        decreases |order|
      {
        // A total above the bound needs an entry, so the queue never runs out.
        assert order != [];
        var evicted := order[0];
        bytes := WrappingSub(bytes, |blocks[evicted]|);
        PopStep(order, blocks);
        order, blocks := order[1..], blocks - {evicted};
      }
    }

    /** How much there is, without touching anything. */
    method Stats() returns (count: nat, total: nat)
      requires Valid()
      ensures count == |Contents()| && total == Total(Contents()) && total <= maxBytes
    {
      QueueCountsKeys(order, blocks.Keys);
      count, total := |blocks|, bytes;
    }
  }
}
