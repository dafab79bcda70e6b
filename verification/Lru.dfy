/** The block cache as a value: the entries held, least recently used first.
    The lock makes every operation atomic, so a history of operations stands for
    any interleaving of any number of callers. Keys are any type with equality;
    the proxy uses block hashes. */
module Lru {
  import opened Encoding
  import opened Options

  datatype Entry<K> = Entry(hash: K, block: Vec<byte>)

  type Cache<K> = seq<Entry<K>>

  datatype Op<K> = Get(hash: K) | Insert(hash: K, block: Vec<byte>)

  function Total<K>(c: Cache<K>): nat {
    if c == [] then 0 else |c[0].block| + Total(c[1..])
  }

  /** Where `hash` stands, or the length if it is not held. */
  function IndexOf<K(==)>(c: Cache<K>, hash: K): (i: nat)
    ensures i <= |c| && (i < |c| ==> c[i].hash == hash)
    ensures forall k :: 0 <= k < i ==> c[k].hash != hash
  {
    if c == [] || c[0].hash == hash then 0 else 1 + IndexOf(c[1..], hash)
  }

  predicate Holds<K(==)>(c: Cache<K>, hash: K) {
    IndexOf(c, hash) < |c|
  }

  predicate Distinct<K(==)>(c: Cache<K>) {
    forall i, j :: 0 <= i < j < |c| ==> c[i].hash != c[j].hash
  }

  function Lookup<K(==)>(c: Cache<K>, hash: K): Option<Vec<byte>> {
    if Holds(c, hash) then Some(c[IndexOf(c, hash)].block) else None
  }

  function MoveToBack<K>(c: Cache<K>, i: nat): Cache<K>
    requires i < |c|
  {
    c[..i] + c[i + 1..] + [c[i]]
  }

  lemma MovedToBack<K>(c: Cache<K>, i: nat)
    requires i < |c|
    ensures var r := MoveToBack(c, i);
            |r| == |c| && r[|c| - 1] == c[i] &&
            forall k :: 0 <= k < |c| - 1 ==> r[k] == c[if k < i then k else k + 1]
  {
  }

  /** A hit moves the entry to the back. */
  function Touch<K(==)>(c: Cache<K>, hash: K): Cache<K> {
    if Holds(c, hash) then MoveToBack(c, IndexOf(c, hash)) else c
  }

  /** Entries leave from the front until the rest fits. */
  function Evict<K>(c: Cache<K>, max: nat): Cache<K> {
    if c == [] || Total(c) <= max then c else Evict(c[1..], max)
  }

  /** Whether inserting changes anything: oversized blocks and blocks already
      held are left alone, and a bound of zero disables the cache. */
  predicate Fresh<K(==)>(c: Cache<K>, max: nat, hash: K, block: Vec<byte>) {
    0 < max && |block| <= max && !Holds(c, hash)
  }

  function Put<K(==)>(c: Cache<K>, max: nat, hash: K, block: Vec<byte>): Cache<K> {
    if Fresh(c, max, hash, block) then Evict(c + [Entry(hash, block)], max) else c
  }

  function Apply<K(==)>(c: Cache<K>, max: nat, op: Op<K>): Cache<K> {
    match op
    case Get(hash) => Touch(c, hash)
    case Insert(hash, block) => Put(c, max, hash, block)
  }

  /** The cache after a history. */
  function Run<K(==)>(max: nat, ops: seq<Op<K>>): Cache<K> {
    if ops == [] then [] else Apply(Run(max, ops[..|ops| - 1]), max, ops[|ops| - 1])
  }

  // ----- totals and eviction -----

  lemma {:induction false} TotalAppend<K>(a: Cache<K>, b: Cache<K>)
    ensures Total(a + b) == Total(a) + Total(b)
  {
    if a == [] {
      assert a + b == b;
    } else {
      assert (a + b)[1..] == a[1..] + b;
      TotalAppend(a[1..], b);
    }
  }

  lemma TotalOne<K>(e: Entry<K>)
    ensures Total([e]) == |e.block|
  {
    assert [e][1..] == [];
  }

  lemma TotalSwap<K>(a: Cache<K>, e: Entry<K>, b: Cache<K>)
    ensures Total(a + ([e] + b)) == Total((a + b) + [e])
  {
    TotalAppend(a, [e] + b);
    TotalAppend([e], b);
    TotalAppend(a + b, [e]);
    TotalAppend(a, b);
  }

  lemma Resplit<T>(c: seq<T>, i: nat)
    requires i < |c|
    ensures c == c[..i] + ([c[i]] + c[i + 1..])
  {
  }

  lemma TotalMove<K>(c: Cache<K>, i: nat)
    requires i < |c|
    ensures Total(MoveToBack(c, i)) == Total(c)
  {
    Resplit(c, i);
    TotalSwap(c[..i], c[i], c[i + 1..]);
  }

  /** Eviction drops the shortest front prefix that restores the bound. */
  lemma {:induction false} EvictIsShortest<K>(c: Cache<K>, max: nat) returns (k: nat)
    ensures k <= |c| && Evict(c, max) == c[k..] && Total(c[k..]) <= max
    ensures forall m :: 0 <= m < k ==> Total(c[m..]) > max
  {
    if c == [] || Total(c) <= max {
      k := 0;
    } else {
      var k' := EvictIsShortest(c[1..], max);
      k := k' + 1;
      assert c[1..][k'..] == c[k..];
      forall m | 0 <= m < k ensures Total(c[m..]) > max {
        if m > 0 {
          assert c[m..] == c[1..][m - 1..];
        }
      }
    }
  }

  /** A front part that cannot be kept makes no difference to what is. */
  lemma {:induction false} EvictDrop<K>(a: Cache<K>, b: Cache<K>, max: nat)
    requires a == [] || Total([a[|a| - 1]] + b) > max
    ensures Evict(a + b, max) == Evict(b, max)
  {
    if a == [] {
      assert a + b == b;
    } else {
      var init := a[..|a| - 1];
      assert a + b == init + ([a[|a| - 1]] + b);
      TotalAppend(init, [a[|a| - 1]] + b);
      assert (a + b)[1..] == a[1..] + b;
      EvictDrop(a[1..], b, max);
    }
  }

  lemma EvictKeepsLast<K>(c: Cache<K>, max: nat)
    requires c != [] && |c[|c| - 1].block| <= max
    ensures Evict(c, max) != [] && Evict(c, max)[|Evict(c, max)| - 1] == c[|c| - 1]
  {
    var k := EvictIsShortest(c, max);
    assert c[|c| - 1..] == [c[|c| - 1]];
    TotalOne(c[|c| - 1]);
    assert k <= |c| - 1;
  }

  /** Each insertion drops exactly the shortest front prefix that restores the
      bound, and never the new block. */
  lemma PutDropsShortest<K>(c: Cache<K>, max: nat, hash: K, block: Vec<byte>) returns (k: nat)
    requires Fresh(c, max, hash, block)
    ensures k <= |c| && Put(c, max, hash, block) == c[k..] + [Entry(hash, block)]
    ensures Total(c[k..]) + |block| <= max
    ensures forall m :: 0 <= m < k ==> Total(c[m..]) + |block| > max
  {
    var e := Entry(hash, block);
    var longer := c + [e];
    k := EvictIsShortest(longer, max);
    EvictKeepsLast(longer, max);
    TotalOne(e);
    forall m | 0 <= m <= |c| ensures longer[m..] == c[m..] + [e] && Total(longer[m..]) == Total(c[m..]) + |block| {
      TotalAppend(c[m..], [e]);
    }
  }

  // ----- what every history keeps -----

  lemma TouchKeeps<K>(c: Cache<K>, hash: K)
    requires Distinct(c)
    ensures Distinct(Touch(c, hash)) && Total(Touch(c, hash)) == Total(c)
    ensures forall e :: e in Touch(c, hash) ==> e in c
  {
    if Holds(c, hash) {
      TotalMove(c, IndexOf(c, hash));
      MovedToBack(c, IndexOf(c, hash));
    }
  }

  lemma PutKeeps<K>(c: Cache<K>, max: nat, hash: K, block: Vec<byte>)
    requires Distinct(c) && Total(c) <= max
    ensures Distinct(Put(c, max, hash, block)) && Total(Put(c, max, hash, block)) <= max
    ensures forall e :: e in Put(c, max, hash, block) ==> e in c || e == Entry(hash, block)
  {
    if Fresh(c, max, hash, block) {
      var k := PutDropsShortest(c, max, hash, block);
      TotalAppend(c[k..], [Entry(hash, block)]);
      TotalOne(Entry(hash, block));
    }
  }

  /** The hashes held are distinct and their blocks fit the bound, after every history. */
  lemma {:induction false} RunKeepsBound<K>(max: nat, ops: seq<Op<K>>)
    ensures Distinct(Run(max, ops)) && Total(Run(max, ops)) <= max
  {
    if ops != [] {
      var c, op := Run(max, ops[..|ops| - 1]), ops[|ops| - 1];
      RunKeepsBound(max, ops[..|ops| - 1]);
      match op
      case Get(hash) => TouchKeeps(c, hash);
      case Insert(hash, block) => PutKeeps(c, max, hash, block);
    }
  }

  /** What was just stored comes back. */
  lemma StoredComesBack<K>(c: Cache<K>, max: nat, hash: K, block: Vec<byte>)
    requires Fresh(c, max, hash, block)
    ensures Lookup(Put(c, max, hash, block), hash) == Some(block)
  {
    var k := PutDropsShortest(c, max, hash, block);
    var d := Put(c, max, hash, block);
    assert d[|d| - 1] == Entry(hash, block);
    forall i | 0 <= i < |d| - 1 ensures d[i].hash != hash {
      assert d[i] == c[k + i];
    }
  }

  /** Whatever is held was inserted, under its own hash. */
  lemma {:induction false} HeldWasInserted<K>(max: nat, ops: seq<Op<K>>, e: Entry<K>)
    requires e in Run(max, ops)
    ensures Insert(e.hash, e.block) in ops
  {
    var init, op := ops[..|ops| - 1], ops[|ops| - 1];
    RunKeepsBound(max, init);
    match op {
      case Get(hash) => TouchKeeps(Run(max, init), hash);
      case Insert(hash, block) => PutKeeps(Run(max, init), max, hash, block);
    }
    if e in Run(max, init) {
      HeldWasInserted(max, init, e);
    }
  }

  // ----- order by last touch -----

  /** A hit and a fresh insertion touch; inserting a held hash again does not. */
  predicate Touches<K(==)>(c: Cache<K>, max: nat, op: Op<K>, hash: K) {
    op.hash == hash &&
    match op
    case Get(_) => Holds(c, hash)
    case Insert(_, block) => Fresh(c, max, hash, block)
  }

  /** The position of the last operation that touched `hash`, or -1. */
  function LastTouch<K(==)>(max: nat, ops: seq<Op<K>>, hash: K): (t: int)
    ensures -1 <= t < |ops|
  {
    if ops == [] then -1
    else if Touches(Run(max, ops[..|ops| - 1]), max, ops[|ops| - 1], hash) then |ops| - 1
    else LastTouch(max, ops[..|ops| - 1], hash)
  }

  ghost predicate OrderedBy<K>(c: Cache<K>, time: K -> int) {
    (forall i :: 0 <= i < |c| ==> 0 <= time(c[i].hash)) &&
    forall i, j :: 0 <= i < j < |c| ==> time(c[i].hash) < time(c[j].hash)
  }

  /** `after` is `before` with `hash` touched at `now`, later than anything before. */
  ghost predicate Advances<K(!new)>(before: K -> int, after: K -> int, hash: K, now: nat) {
    after(hash) == now && (forall x :: before(x) < now) && forall x :: x != hash ==> after(x) == before(x)
  }

  lemma TouchOrdered<K(!new)>(c: Cache<K>, hash: K, before: K -> int, after: K -> int, now: nat)
    requires Distinct(c) && Holds(c, hash) && OrderedBy(c, before) && Advances(before, after, hash, now)
    ensures OrderedBy(Touch(c, hash), after)
  {
    var t, at := Touch(c, hash), IndexOf(c, hash);
    MovedToBack(c, at);
    forall i | 0 <= i < |t| - 1 ensures after(t[i].hash) == before(c[if i < at then i else i + 1].hash) {
      assert t[i] == c[if i < at then i else i + 1];
    }
    forall i, j | 0 <= i < j < |t| ensures after(t[i].hash) < after(t[j].hash) {
      if j < |t| - 1 {
        var i', j' := if i < at then i else i + 1, if j < at then j else j + 1;
        assert before(c[i'].hash) < before(c[j'].hash);
      }
    }
  }

  lemma PutOrdered<K(!new)>(c: Cache<K>, max: nat, hash: K, block: Vec<byte>, before: K -> int, after: K -> int,
                            now: nat)
    requires Fresh(c, max, hash, block) && OrderedBy(c, before) && Advances(before, after, hash, now)
    ensures OrderedBy(Put(c, max, hash, block), after)
  {
    var k := PutDropsShortest(c, max, hash, block);
    forall i | 0 <= i < |c| ensures after(c[i].hash) == before(c[i].hash) {
    }
  }

  /** After every history the entries stand in the order of their last touch. */
  lemma {:induction false} OrderedByLastTouch<K(!new)>(max: nat, ops: seq<Op<K>>)
    ensures OrderedBy(Run(max, ops), (x: K) => LastTouch(max, ops, x))
  {
    if ops != [] {
      var pre, op := ops[..|ops| - 1], ops[|ops| - 1];
      var c := Run(max, pre);
      OrderedByLastTouch(max, pre);
      RunKeepsBound(max, pre);
      var before, after := (x: K) => LastTouch(max, pre, x), (x: K) => LastTouch(max, ops, x);
      if Touches(c, max, op, op.hash) {
        assert Advances(before, after, op.hash, |pre|);
        match op
        case Get(hash) => TouchOrdered(c, hash, before, after, |pre|);
        case Insert(hash, block) => PutOrdered(c, max, hash, block, before, after, |pre|);
      } else {
        assert Run(max, ops) == c;
        forall x ensures after(x) == before(x) {
        }
      }
    }
  }

  // ----- the counter -----

  /** No insertion in any history makes the byte counter pass the word range. */
  ghost predicate NeverWraps<K(!new)>(max: nat) {
    forall ops: seq<Op<K>>, hash: K, block: Vec<byte> ::
      Fresh(Run(max, ops), max, hash, block) ==> Total(Run(max, ops)) + |block| < USIZE
  }

  /** Inside an insertion the counter is at most twice the bound. */
  lemma PeakBound<K>(max: nat, ops: seq<Op<K>>, hash: K, block: Vec<byte>)
    requires Fresh(Run(max, ops), max, hash, block)
    ensures Total(Run(max, ops)) + |block| <= 2 * max
  {
    RunKeepsBound(max, ops);
  }

  lemma LargeInsert<K>(max: nat, hash: K, block: Vec<byte>)
    requires 0 < |block| <= max
    ensures Run(max, [Insert(hash, block)]) == [Entry(hash, block)]
  {
    var ops := [Insert(hash, block)];
    assert ops[..0] == [] && Run<K>(max, []) == [];
    TotalOne(Entry(hash, block));
    assert [] + [Entry(hash, block)] == [Entry(hash, block)];
  }

  /** Two blocks that fit together are both held. */
  lemma TwoInserts<K>(max: nat, one: K, x: Vec<byte>, two: K, y: Vec<byte>)
    requires one != two && 0 < |x| && |x| + |y| <= max
    ensures Run(max, [Insert(one, x), Insert(two, y)]) == [Entry(one, x), Entry(two, y)]
    ensures Total([Entry(one, x), Entry(two, y)]) == |x| + |y|
  {
    var ops := [Insert(one, x), Insert(two, y)];
    LargeInsert(max, one, x);
    assert ops[..1] == [Insert(one, x)];
    assert [Entry(one, x)] + [Entry(two, y)] == [Entry(one, x), Entry(two, y)];
    TotalAppend([Entry(one, x)], [Entry(two, y)]);
    TotalOne(Entry(one, x));
    TotalOne(Entry(two, y));
  }

  /** A bound above the largest signed word lets the counter wrap: two blocks are
      held with a total of one more than that word and a byte, and a third comes. */
  lemma WrapsAbove<K(!new)>(max: U64, one: K, two: K, three: K)
    requires max > VEC_LIMIT && one != two && one != three && two != three
    ensures !NeverWraps<K>(max)
  {
    var big: Vec<byte> := seq(VEC_LIMIT - 1, _ => 0);
    var ops := [Insert(one, big), Insert(two, [0, 0])];
    TwoInserts(max, one, big, two, [0, 0]);
    assert Fresh(Run(max, ops), max, three, big);
    assert Total(Run(max, ops)) + |big| >= USIZE;
  }

  /** The counter is safe in every history exactly when the bound is at most the
      size no allocation reaches, whenever there are more than two hashes. */
  lemma NeverWrapsIff<K(!new)>(max: U64, one: K, two: K, three: K)
    requires one != two && one != three && two != three
    ensures NeverWraps<K>(max) <==> max <= VEC_LIMIT
  {
    if max <= VEC_LIMIT {
      forall ops: seq<Op<K>>, hash: K, block: Vec<byte> | Fresh(Run(max, ops), max, hash, block)
        ensures Total(Run(max, ops)) + |block| < USIZE
      {
        RunKeepsBound(max, ops);
      }
    } else {
      WrapsAbove(max, one, two, three);
    }
  }

  /** The bound made from the configured number of mebibytes. */
  function ConfiguredBytes(mib: U64): U64 {
    if mib * 0x10_0000 < USIZE then mib * 0x10_0000 else USIZE - 1
  }

  /** Which configurations keep the counter safe. */
  lemma ConfigurationSafeIff<K(!new)>(mib: U64, one: K, two: K, three: K)
    requires one != two && one != three && two != three
    ensures NeverWraps<K>(ConfiguredBytes(mib)) <==> mib <= 0x800_0000_0000
  {
    NeverWrapsIff(ConfiguredBytes(mib), one, two, three);
  }
}
