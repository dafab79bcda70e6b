/** A larger cache keeps whatever a smaller one keeps. */
module LruInclusion {
  import opened Encoding
  import opened Lru

  /** A block is looked up, and inserted if that missed. */
  function Access<K(==)>(c: Cache<K>, max: nat, store: K -> Vec<byte>, hash: K): Cache<K> {
    if Holds(c, hash) then Touch(c, hash) else Put(c, max, hash, store(hash))
  }

  /** The cache after a sequence of accesses; `store` fixes the block of each hash. */
  function AccessAll<K(==)>(max: nat, store: K -> Vec<byte>, hashes: seq<K>): Cache<K> {
    if hashes == [] then []
    else Access(AccessAll(max, store, hashes[..|hashes| - 1]), max, store, hashes[|hashes| - 1])
  }

  /** Every block up to `cut` bytes ever accessed, by time of last access: a cache
      that never evicts. */
  function Recency<K(==)>(cut: nat, store: K -> Vec<byte>, hashes: seq<K>): Cache<K> {
    if hashes == [] then []
    else
      var c, hash := Recency(cut, store, hashes[..|hashes| - 1]), hashes[|hashes| - 1];
      if Holds(c, hash) then Touch(c, hash)
      else if |store(hash)| <= cut then c + [Entry(hash, store(hash))] else c
  }

  ghost predicate IsSuffix<K>(a: Cache<K>, b: Cache<K>) {
    |a| <= |b| && a == b[|b| - |a|..]
  }

  /** Every entry holds the block of its hash, and none is above `cut`. */
  ghost predicate FromStore<K>(c: Cache<K>, store: K -> Vec<byte>, cut: nat) {
    forall e :: e in c ==> e.block == store(e.hash) && |e.block| <= cut
  }

  lemma {:induction false} RecencyFacts<K>(cut: nat, store: K -> Vec<byte>, hashes: seq<K>)
    ensures Distinct(Recency(cut, store, hashes)) && FromStore(Recency(cut, store, hashes), store, cut)
  {
    if hashes != [] {
      RecencyFacts(cut, store, hashes[..|hashes| - 1]);
      TouchKeeps(Recency(cut, store, hashes[..|hashes| - 1]), hashes[|hashes| - 1]);
    }
  }

  /** Looking past a front part that does not hold the hash. */
  lemma {:induction false} IndexOfAppend<K>(a: Cache<K>, b: Cache<K>, hash: K)
    ensures IndexOf(a + b, hash) == if Holds(a, hash) then IndexOf(a, hash) else |a| + IndexOf(b, hash)
  {
    if a == [] {
      assert a + b == b;
    } else {
      assert (a + b)[1..] == a[1..] + b;
      IndexOfAppend(a[1..], b, hash);
    }
  }

  lemma MoveAppend<K>(front: Cache<K>, kept: Cache<K>, i: nat)
    requires i < |kept|
    ensures MoveToBack(front + kept, |front| + i) == front + MoveToBack(kept, i)
  {
    var c := front + kept;
    assert c[..|front| + i] == front + kept[..i] && c[|front| + i + 1..] == kept[i + 1..];
  }

  lemma MoveInFront<K>(front: Cache<K>, kept: Cache<K>, i: nat)
    requires i < |front|
    ensures MoveToBack(front + kept, i) == (front[..i] + front[i + 1..]) + (kept + [front[i]])
  {
    var c := front + kept;
    assert c[..i] == front[..i] && c[i + 1..] == front[i + 1..] + kept;
  }

  lemma DropBeforeSameTotal<K>(front: Cache<K>, kept: Cache<K>, other: Cache<K>, max: nat)
    requires Total(other) == Total(kept) <= max
    requires front == [] || Total([front[|front| - 1]] + kept) > max
    ensures Evict(front + other, max) == other
  {
    if front != [] {
      TotalAppend([front[|front| - 1]], kept);
      TotalAppend([front[|front| - 1]], other);
    }
    EvictDrop(front, other, max);
  }

  lemma TouchAppend<K>(front: Cache<K>, kept: Cache<K>, hash: K)
    requires Holds(kept, hash) && !Holds(front, hash)
    ensures Touch(front + kept, hash) == front + Touch(kept, hash) && Total(Touch(kept, hash)) == Total(kept)
  {
    IndexOfAppend(front, kept, hash);
    MoveAppend(front, kept, IndexOf(kept, hash));
    TotalMove(kept, IndexOf(kept, hash));
  }

  /** A hit inside the kept part. */
  lemma HitInside<K>(front: Cache<K>, kept: Cache<K>, max: nat, hash: K)
    requires Holds(kept, hash) && !Holds(front, hash) && Total(kept) <= max
    requires front == [] || Total([front[|front| - 1]] + kept) > max
    ensures Evict(Touch(front + kept, hash), max) == Touch(kept, hash)
  {
    TouchAppend(front, kept, hash);
    DropBeforeSameTotal(front, kept, Touch(kept, hash), max);
  }

  /** A miss of something accessed before and dropped since. */
  lemma MissInside<K>(front: Cache<K>, kept: Cache<K>, max: nat, hash: K)
    requires !Holds(kept, hash) && Holds(front, hash)
    requires Total([front[|front| - 1]] + kept) > max
    ensures Evict(Touch(front + kept, hash), max) == Evict(kept + [front[IndexOf(front, hash)]], max)
  {
    var i := IndexOf(front, hash);
    var e, last := front[i], front[|front| - 1];
    IndexOfAppend(front, kept, hash);
    var rest := front[..i] + front[i + 1..];
    MoveInFront(front, kept, i);
    TotalAppend([last], kept);
    TotalOne(last);
    TotalAppend(kept, [e]);
    TotalOne(e);
    if rest != [] {
      var q := rest[|rest| - 1];
      TotalAppend([q], kept + [e]);
      TotalOne(q);
      assert i != |front| - 1 ==> q == last;
    }
    EvictDrop(rest, kept + [e], max);
  }

  /** A miss of something new. */
  lemma MissOutside<K>(front: Cache<K>, kept: Cache<K>, max: nat, e: Entry<K>)
    requires front == [] || Total([front[|front| - 1]] + kept) > max
    ensures Evict(front + kept + [e], max) == Evict(kept + [e], max)
  {
    if front != [] {
      TotalAppend([front[|front| - 1]], kept + [e]);
      TotalAppend([front[|front| - 1]], kept);
      TotalAppend(kept, [e]);
    }
    assert front + kept + [e] == front + (kept + [e]);
    EvictDrop(front, kept + [e], max);
  }

  lemma Cut<T>(c: seq<T>, k: nat)
    requires k <= |c|
    ensures c == c[..k] + c[k..] && (k > 0 ==> [c[..k][k - 1]] + c[k..] == c[k - 1..])
  {
  }

  /** What `EvictIsShortest` says, with the two parts named. */
  lemma Split<K>(c: Cache<K>, max: nat) returns (front: Cache<K>, kept: Cache<K>)
    ensures c == front + kept && kept == Evict(c, max) && Total(kept) <= max
    ensures front == [] || Total([front[|front| - 1]] + kept) > max
  {
    var k := EvictIsShortest(c, max);
    Cut(c, k);
    front, kept := c[..k], c[k..];
  }

  lemma NotInBoth<K>(front: Cache<K>, kept: Cache<K>, hash: K)
    requires Distinct(front + kept) && Holds(kept, hash)
    ensures !Holds(front, hash)
  {
    var i := IndexOf(kept, hash);
    assert (front + kept)[|front| + i] == kept[i];
    forall k | 0 <= k < |front| ensures front[k].hash != hash {
      assert (front + kept)[k] == front[k];
    }
  }

  /** A cache is the recency list cut down to its bound. Blocks between the cut
      and the bound are the only ones that could spoil this. */
  lemma {:induction false} CacheIsCutRecency<K(!new)>(cut: nat, max: nat, store: K -> Vec<byte>, hashes: seq<K>)
    requires 0 < max && forall x :: |store(x)| <= cut <==> |store(x)| <= max
    ensures AccessAll(max, store, hashes) == Evict(Recency(cut, store, hashes), max)
  {
    if hashes != [] {
      var pre, hash := hashes[..|hashes| - 1], hashes[|hashes| - 1];
      CacheIsCutRecency(cut, max, store, pre);
      var r := Recency(cut, store, pre);
      RecencyFacts(cut, store, pre);
      RecencyStep(cut, max, store, r, hash);
    }
  }

  /** One access does the same to the cut list as to the list that is then cut. */
  lemma RecencyStep<K>(cut: nat, max: nat, store: K -> Vec<byte>, r: Cache<K>, hash: K)
    requires 0 < max && (|store(hash)| <= cut <==> |store(hash)| <= max) && Distinct(r) && FromStore(r, store, cut)
    ensures Access(Evict(r, max), max, store, hash) ==
            Evict(if Holds(r, hash) then Touch(r, hash)
                  else if |store(hash)| <= cut then r + [Entry(hash, store(hash))] else r, max)
  {
    var front, kept := Split(r, max);
    IndexOfAppend(front, kept, hash);
    if Holds(kept, hash) {
      NotInBoth(front, kept, hash);
      HitInside(front, kept, max, hash);
    } else if Holds(front, hash) {
      var e := front[IndexOf(front, hash)];
      assert e in r && e == Entry(hash, store(hash));
      MissInside(front, kept, max, hash);
    } else if |store(hash)| <= cut {
      MissOutside(front, kept, max, Entry(hash, store(hash)));
    }
  }

  lemma {:induction false} EvictTwice<K>(c: Cache<K>, small: nat, large: nat)
    requires small <= large
    ensures Evict(c, small) == Evict(Evict(c, large), small)
  {
    if c != [] && Total(c) > large {
      EvictTwice(c[1..], small, large);
    }
  }

  lemma {:induction false} NothingFits<K(!new)>(max: nat, store: K -> Vec<byte>, hashes: seq<K>)
    requires forall x :: |store(x)| > max
    ensures AccessAll(max, store, hashes) == []
  {
    if hashes != [] {
      NothingFits(max, store, hashes[..|hashes| - 1]);
    }
  }

  /** No block is too big for the small cache, fits the large one, and has
      another one beside it that both can hold. */
  ghost predicate NoneBetween<K(!new)>(small: nat, large: nat, store: K -> Vec<byte>) {
    !exists x, y :: |store(y)| <= small < |store(x)| <= large
  }

  lemma Includes<K(!new)>(small: nat, large: nat, store: K -> Vec<byte>, hashes: seq<K>)
    requires 0 < small <= large && NoneBetween(small, large, store)
    ensures IsSuffix(AccessAll(small, store, hashes), AccessAll(large, store, hashes))
  {
    if exists y :: |store(y)| <= small {
      var y :| |store(y)| <= small;
      CacheIsCutRecency(small, small, store, hashes);
      CacheIsCutRecency(small, large, store, hashes);
      var r := Recency(small, store, hashes);
      EvictTwice(r, small, large);
      var k := EvictIsShortest(Evict(r, large), small);
    } else {
      NothingFits(small, store, hashes);
    }
  }

  lemma Excludes<K(!new)>(small: nat, large: nat, store: K -> Vec<byte>, x: K, y: K)
    requires 0 < small <= large && |store(y)| <= small < |store(x)| <= large
    ensures !IsSuffix(AccessAll(small, store, [y, x]), AccessAll(large, store, [y, x]))
  {
    assert [y, x][..1] == [y] && [y][..0] == [];
    var e, f := Entry(y, store(y)), Entry(x, store(x));
    TotalOne(e);
    assert [] + [e] == [e];
    assert AccessAll(small, store, [y]) == [e] && AccessAll(large, store, [y]) == [e];
    assert AccessAll(small, store, [y, x]) == [e];
    EvictKeepsLast([e] + [f], large);
    assert AccessAll(large, store, [y, x]) == Evict([e] + [f], large);
  }

  /** The queue of the smaller cache is a suffix of the larger one's after every
      sequence of accesses, exactly when no block falls between the bounds. */
  lemma InclusionIff<K(!new)>(small: nat, large: nat, store: K -> Vec<byte>)
    requires 0 < small <= large
    ensures (forall hashes: seq<K> :: IsSuffix(AccessAll(small, store, hashes), AccessAll(large, store, hashes))) <==>
            NoneBetween(small, large, store)
  {
    if NoneBetween(small, large, store) {
      forall hashes: seq<K> ensures IsSuffix(AccessAll(small, store, hashes), AccessAll(large, store, hashes)) {
        Includes(small, large, store, hashes);
      }
    } else {
      var x, y :| |store(y)| <= small < |store(x)| <= large;
      Excludes(small, large, store, x, y);
    }
  }

  /** The larger cache never misses where the smaller one hits. */
  lemma LargerNeverMissesMore<K(!new)>(small: nat, large: nat, store: K -> Vec<byte>, hashes: seq<K>, hash: K)
    requires 0 < small <= large && NoneBetween(small, large, store)
    requires Holds(AccessAll(small, store, hashes), hash)
    ensures Holds(AccessAll(large, store, hashes), hash)
  {
    Includes(small, large, store, hashes);
    var a, b := AccessAll(small, store, hashes), AccessAll(large, store, hashes);
    assert b == b[..|b| - |a|] + a;
    IndexOfAppend(b[..|b| - |a|], a, hash);
  }
}
