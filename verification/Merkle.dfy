/** The Merkle tree over transaction ids: levels are paired left to right and an
    odd last node is paired with itself. */
module Merkle {
  import opened Encoding
  import opened Options

  /** Double SHA-256, as any function from messages to 32-byte digests. */
  type HashFn = Bytes -> Digest

  /** No two of these messages share a digest. It is only ever asked of the
      finitely many messages that were hashed, so it can hold. */
  ghost predicate CollisionFree(h: HashFn, messages: set<Bytes>) {
    forall x, y :: x in messages && y in messages && h(x) == h(y) ==> x == y
  }

  /** The message a node hashes. */
  function Join(left: Bytes, right: Bytes): Bytes {
    left + right
  }

  function Parents(h: HashFn, level: seq<Digest>): (r: seq<Digest>)
    ensures |r| == (|level| + 1) / 2
  {
    if |level| == 0 then []
    else if |level| == 1 then [h(Join(level[0], level[0]))]
    else [h(Join(level[0], level[1]))] + Parents(h, level[2..])
  }

  function Root(h: HashFn, leaves: seq<Digest>): (r: Option<Digest>)
    ensures r.None? <==> leaves == []
    decreases |leaves|
  {
    if |leaves| == 0 then None
    else if |leaves| == 1 then Some(leaves[0])
    else Root(h, Parents(h, leaves))
  }

  // ----- the tree, node by node -----

  /** Where the right child of node `k` is, among `below` nodes: an odd last node
      stands in for the one that is missing. */
  function RightOf(below: nat, k: nat): nat {
    if 2 * k + 1 < below then 2 * k + 1 else 2 * k
  }

  /** The node above a pair, or above an odd last node, hashes the two in order. */
  lemma {:induction false} ParentsAt(h: HashFn, level: seq<Digest>, k: nat)
    requires 2 * k < |level|
    ensures var left: Bytes, right: Bytes := level[2 * k], level[RightOf(|level|, k)];
            Parents(h, level)[k] == h(left + right)
    decreases k
  {
    if k > 0 {
      ParentsAt(h, level[2..], k - 1);
    }
  }

  function HalfUp(n: nat): (r: nat)
    ensures 2 * r == n || 2 * r == n + 1
  {
    (n + 1) / 2
  }

  /** How many nodes a tree over `n` leaves has at a height. */
  function Width(n: nat, height: nat): nat {
    if height == 0 then n else HalfUp(Width(n, height - 1))
  }

  /** The node at a height and a position, by its own definition: the hash of the
      two nodes below it. */
  function Node(h: HashFn, leaves: seq<Digest>, height: nat, k: nat): Digest
    requires k < Width(|leaves|, height)
  {
    if height == 0 then leaves[k] else
      var left: Bytes := Node(h, leaves, height - 1, 2 * k);
      var right: Bytes := Node(h, leaves, height - 1, RightOf(Width(|leaves|, height - 1), k));
      h(left + right)
  }

  lemma {:induction false} WidthUp(n: nat, height: nat)
    ensures Width(HalfUp(n), height) == Width(n, height + 1)
  {
    if height > 0 {
      WidthUp(n, height - 1);
    }
  }

  lemma {:induction false} NodeUp(h: HashFn, leaves: seq<Digest>, height: nat, k: nat)
    requires k < Width(|leaves|, height + 1)
    ensures Width(|Parents(h, leaves)|, height) == Width(|leaves|, height + 1)
    ensures Node(h, Parents(h, leaves), height, k) == Node(h, leaves, height + 1, k)
    decreases height
  {
    WidthUp(|leaves|, height);
    if height == 0 {
      ParentsAt(h, leaves, k);
    } else {
      var below := Width(|leaves|, height);
      WidthUp(|leaves|, height - 1);
      NodeUp(h, leaves, height - 1, 2 * k);
      NodeUp(h, leaves, height - 1, RightOf(below, k));
    }
  }

  /** The first height with a single node. */
  ghost predicate IsTop(n: nat, height: nat) {
    Width(n, height) == 1 && forall lower :: 0 <= lower < height ==> Width(n, lower) > 1
  }

  lemma TopBelow(n: nat, height: nat)
    requires IsTop(n, height) && height > 0
    ensures n > 1 && IsTop(HalfUp(n), height - 1)
  {
    assert Width(n, 0) > 1;
    WidthUp(n, height - 1);
    forall lower | 0 <= lower < height - 1 ensures Width(HalfUp(n), lower) > 1 {
      WidthUp(n, lower);
      assert Width(n, lower + 1) > 1;
    }
  }

  /** The root is the node at the top. */
  lemma {:induction false} RootIsTop(h: HashFn, leaves: seq<Digest>, height: nat)
    requires IsTop(|leaves|, height)
    ensures Root(h, leaves) == Some(Node(h, leaves, height, 0))
    decreases height
  {
    if height > 0 {
      TopBelow(|leaves|, height);
      RootIsTop(h, Parents(h, leaves), height - 1);
      NodeUp(h, leaves, height - 1, 0);
    }
  }

  lemma TopAbove(n: nat, height: nat)
    requires n > 1 && IsTop(HalfUp(n), height)
    ensures IsTop(n, height + 1)
  {
    WidthUp(n, height);
    forall lower | 0 <= lower < height + 1 ensures Width(n, lower) > 1 {
      if lower > 0 {
        WidthUp(n, lower - 1);
        assert Width(HalfUp(n), lower - 1) > 1;
      }
    }
  }

  /** Every list that is not empty has a top. */
  lemma {:induction false} TopExists(n: nat) returns (height: nat)
    requires n > 0
    ensures IsTop(n, height)
    decreases n
  {
    if n == 1 {
      height := 0;
    } else {
      height := TopExists(HalfUp(n));
      TopAbove(n, height);
      height := height + 1;
    }
  }

  lemma TopOfTwo(h: HashFn, leaves: seq<Digest>)
    requires |leaves| == 2
    ensures var left: Bytes, right: Bytes := leaves[0], leaves[1];
            IsTop(|leaves|, 1) && Node(h, leaves, 1, 0) == h(left + right)
  {
    assert IsTop(HalfUp(|leaves|), 0);
    TopAbove(|leaves|, 0);
    assert Width(|leaves|, 0) == |leaves| && RightOf(|leaves|, 0) == 1;
    assert Node(h, leaves, 0, 0) == leaves[0] && Node(h, leaves, 0, 1) == leaves[1];
  }

  // ----- what was hashed -----

  /** The messages hashed to go one level up. */
  ghost function LevelMessages(level: seq<Digest>): set<Bytes> {
    if |level| == 0 then {}
    else if |level| == 1 then {Join(level[0], level[0])}
    else {Join(level[0], level[1])} + LevelMessages(level[2..])
  }

  /** The messages hashed to reach the root. */
  ghost function TreeMessages(h: HashFn, leaves: seq<Digest>): set<Bytes>
    decreases |leaves|
  {
    if |leaves| < 2 then {} else LevelMessages(leaves) + TreeMessages(h, Parents(h, leaves))
  }

  lemma {:induction false} ParentsInjective(h: HashFn, a: seq<Digest>, b: seq<Digest>, messages: set<Bytes>)
    requires |a| == |b| && Parents(h, a) == Parents(h, b)
    requires LevelMessages(a) + LevelMessages(b) <= messages && CollisionFree(h, messages)
    ensures a == b
    decreases |a|
  {
    if |a| == 1 {
      assert h(Join(a[0], a[0])) == Parents(h, a)[0] == h(Join(b[0], b[0]));
      assert Join(a[0], a[0]) in LevelMessages(a) && Join(b[0], b[0]) in LevelMessages(b);
      SplitAt(a[0], b[0], a[0], b[0]);
    } else if |a| >= 2 {
      assert h(Join(a[0], a[1])) == Parents(h, a)[0] == h(Join(b[0], b[1]));
      assert Join(a[0], a[1]) in LevelMessages(a) && Join(b[0], b[1]) in LevelMessages(b);
      SplitAt(a[0], b[0], a[1], b[1]);
      assert Parents(h, a)[1..] == Parents(h, a[2..]) && Parents(h, b)[1..] == Parents(h, b[2..]);
      ParentsInjective(h, a[2..], b[2..], messages);
      assert a == [a[0], a[1]] + a[2..] && b == [b[0], b[1]] + b[2..];
    }
  }

  /** Lists of the same length with the same root are the same list. */
  lemma {:induction false} RootInjective(h: HashFn, a: seq<Digest>, b: seq<Digest>, messages: set<Bytes>)
    requires |a| == |b| && Root(h, a) == Root(h, b)
    requires TreeMessages(h, a) + TreeMessages(h, b) <= messages && CollisionFree(h, messages)
    ensures a == b
    decreases |a|
  {
    if |a| >= 2 {
      RootInjective(h, Parents(h, a), Parents(h, b), messages);
      ParentsInjective(h, a, b, messages);
    }
  }

  lemma {:induction false} RepeatedLastKeepsParents(h: HashFn, level: seq<Digest>)
    requires |level| % 2 == 1
    ensures Parents(h, level + [level[|level| - 1]]) == Parents(h, level)
    decreases |level|
  {
    var longer := level + [level[|level| - 1]];
    if |level| == 1 {
      assert longer[2..] == [];
    } else {
      assert longer[2..] == level[2..] + [level[2..][|level| - 3]];
      RepeatedLastKeepsParents(h, level[2..]);
    }
  }

  /** The lengths have to agree: writing an odd last leaf twice keeps the root. */
  lemma RepeatedLastKeepsRoot(h: HashFn, leaves: seq<Digest>)
    requires |leaves| % 2 == 1 && |leaves| > 1
    ensures Root(h, leaves + [leaves[|leaves| - 1]]) == Root(h, leaves)
  {
    RepeatedLastKeepsParents(h, leaves);
  }
}
