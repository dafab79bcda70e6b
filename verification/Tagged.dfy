/** Values tagged with the position of the request they answer, and the sort and
    the merge that put them back into request order. */
module Tagged {
  import opened Rpc

  datatype Tagged = Tagged(idx: nat, value: Json)

  ghost predicate DistinctTags(xs: seq<Tagged>) {
    forall i, j :: 0 <= i < j < |xs| ==> xs[i].idx != xs[j].idx
  }

  ghost predicate Sorted(xs: seq<Tagged>) {
    forall i, j :: 0 <= i < j < |xs| ==> xs[i].idx <= xs[j].idx
  }

  ghost predicate StrictlySorted(xs: seq<Tagged>) {
    forall i, j :: 0 <= i < j < |xs| ==> xs[i].idx < xs[j].idx
  }

  /** Every tag of `xs` is below every tag of `ys`. */
  ghost predicate Below(xs: seq<Tagged>, ys: seq<Tagged>) {
    forall x, y :: x in xs && y in ys ==> x.idx < y.idx
  }

  function Values(xs: seq<Tagged>): seq<Json> {
    if xs == [] then [] else [xs[0].value] + Values(xs[1..])
  }

  function InsertAt(ys: seq<Tagged>, p: nat, t: Tagged): (zs: seq<Tagged>)
    requires p <= |ys|
    ensures |zs| == |ys| + 1
    ensures forall i :: 0 <= i < |zs| ==> zs[i] == if i < p then ys[i] else if i == p then t else ys[i - 1]
    ensures multiset(zs) == multiset(ys) + multiset{t}
  {
    assert ys == ys[..p] + ys[p..];
    ys[..p] + [t] + ys[p..]
  }

  lemma InsertKeepsOrder(ys: seq<Tagged>, p: nat, t: Tagged)
    requires p <= |ys| && Sorted(ys) && (p > 0 ==> ys[p - 1].idx <= t.idx)
    requires forall j :: p <= j < |ys| ==> ys[j].idx > t.idx
    ensures Sorted(InsertAt(ys, p, t))
    ensures StrictlySorted(ys) && (forall y :: y in ys ==> y.idx != t.idx) ==> StrictlySorted(InsertAt(ys, p, t))
  {
    var zs := InsertAt(ys, p, t);
    var strict := StrictlySorted(ys) && forall y :: y in ys ==> y.idx != t.idx;
    forall i, j | 0 <= i < j < |zs| ensures zs[i].idx <= zs[j].idx && (strict ==> zs[i].idx < zs[j].idx) {
      var i', j' := if i < p then i else i - 1, if j < p then j else j - 1;
      if j == p {
        assert ys[i].idx <= ys[p - 1].idx && ys[i] in ys;
      } else if i != p {
        assert ys[i'].idx <= ys[j'].idx;
      }
    }
  }

  lemma EarlierTagsDiffer(xs: seq<Tagged>, k: nat, ys: seq<Tagged>)
    requires k < |xs| && multiset(ys) == multiset(xs[..k]) && DistinctTags(xs)
    ensures forall y :: y in ys ==> y.idx != xs[k].idx
  {
    forall y | y in ys ensures y.idx != xs[k].idx {
      assert y in multiset(ys) && y in xs[..k];
    }
  }

  /** After everything whose tag is not larger. */
  method PlaceFor(ys: seq<Tagged>, t: Tagged) returns (p: nat)
    ensures p <= |ys| && (p > 0 ==> ys[p - 1].idx <= t.idx)
    ensures forall j :: p <= j < |ys| ==> ys[j].idx > t.idx
  {
    p := |ys|;
    while p > 0 && ys[p - 1].idx > t.idx
      invariant 0 <= p <= |ys|
      invariant forall j :: p <= j < |ys| ==> ys[j].idx > t.idx
    {
      p := p - 1;
    }
  }

  /** A stable sort by tag. */
  method SortByTag(xs: seq<Tagged>) returns (ys: seq<Tagged>)
    ensures multiset(ys) == multiset(xs) && Sorted(ys)
    ensures DistinctTags(xs) ==> StrictlySorted(ys)
  {
    ys := [];
    for k := 0 to |xs|
      invariant multiset(ys) == multiset(xs[..k]) && Sorted(ys)
      invariant DistinctTags(xs) ==> StrictlySorted(ys)
    {
      var p := PlaceFor(ys, xs[k]);
      assert xs[..k + 1] == xs[..k] + [xs[k]];
      InsertKeepsOrder(ys, p, xs[k]);
      if DistinctTags(xs) {
        EarlierTagsDiffer(xs, k, ys);
      }
      ys := InsertAt(ys, p, xs[k]);
    }
    assert xs[..|xs|] == xs;
  }

  ghost predicate DisjointTags(xs: seq<Tagged>, ys: seq<Tagged>) {
    forall x, y :: x in xs && y in ys ==> x.idx != y.idx
  }

  /** Takes from the left while its tag is smaller, and from the right otherwise. */
  method MergeByTag(xs: seq<Tagged>, ys: seq<Tagged>) returns (zs: seq<Tagged>)
    ensures multiset(zs) == multiset(xs) + multiset(ys)
    ensures StrictlySorted(xs) && StrictlySorted(ys) && DisjointTags(xs, ys) ==> StrictlySorted(zs)
  {
    zs := [];
    var i, j := 0, 0;
    ghost var orderly := StrictlySorted(xs) && StrictlySorted(ys) && DisjointTags(xs, ys);
    while i < |xs| || j < |ys|
      invariant 0 <= i <= |xs| && 0 <= j <= |ys|
      invariant multiset(zs) == multiset(xs[..i]) + multiset(ys[..j])
      invariant orderly ==> StrictlySorted(zs) && Below(zs, xs[i..]) && Below(zs, ys[j..])
      decreases |xs| + |ys| - i - j
    {
      if i < |xs| && (j == |ys| || xs[i].idx < ys[j].idx) {
        TakeOne(zs, xs, i, ys, j);
        zs, i := zs + [xs[i]], i + 1;
      } else {
        assert orderly && i < |xs| ==> xs[i] in xs && ys[j] in ys;
        TakeOne(zs, ys, j, xs, i);
        zs, j := zs + [ys[j]], j + 1;
      }
    }
    assert xs[..i] == xs && ys[..j] == ys;
  }

  lemma TakeOne(zs: seq<Tagged>, xs: seq<Tagged>, i: nat, ys: seq<Tagged>, j: nat)
    requires i < |xs| && j <= |ys|
    requires multiset(zs) == multiset(xs[..i]) + multiset(ys[..j])
    ensures multiset(zs + [xs[i]]) == multiset(xs[..i + 1]) + multiset(ys[..j])
    ensures StrictlySorted(xs) && StrictlySorted(ys) && StrictlySorted(zs) &&
            Below(zs, xs[i..]) && Below(zs, ys[j..]) &&
            (j < |ys| ==> xs[i].idx < ys[j].idx) ==>
              StrictlySorted(zs + [xs[i]]) && Below(zs + [xs[i]], xs[i + 1..]) && Below(zs + [xs[i]], ys[j..])
  {
    assert xs[..i + 1] == xs[..i] + [xs[i]];
    if StrictlySorted(xs) && StrictlySorted(ys) && StrictlySorted(zs) && Below(zs, xs[i..]) && Below(zs, ys[j..]) &&
       (j < |ys| ==> xs[i].idx < ys[j].idx) {
      NextIsBelow(zs, xs, i, ys, j);
    }
  }

  lemma NextIsBelow(zs: seq<Tagged>, xs: seq<Tagged>, i: nat, ys: seq<Tagged>, j: nat)
    requires i < |xs| && j <= |ys| && StrictlySorted(xs) && StrictlySorted(ys) && StrictlySorted(zs)
    requires Below(zs, xs[i..]) && Below(zs, ys[j..])
    requires j < |ys| ==> xs[i].idx < ys[j].idx
    ensures StrictlySorted(zs + [xs[i]]) && Below(zs + [xs[i]], xs[i + 1..]) && Below(zs + [xs[i]], ys[j..])
  {
    assert xs[i] in xs[i..];
    forall y | y in ys[j..] ensures xs[i].idx < y.idx {
      assert j < |ys| && ys[j..][0] == ys[j];
    }
    forall x | x in xs[i + 1..] ensures xs[i].idx < x.idx && x in xs[i..] {
    }
  }

  /** A list in strict order is determined by what is in it. */
  lemma {:induction false} StrictOrderUnique(a: seq<Tagged>, b: seq<Tagged>)
    requires StrictlySorted(a) && StrictlySorted(b) && forall t :: t in a <==> t in b
    ensures a == b
  {
    if a == [] {
      HeadIsMember(b);
    } else {
      assert a[0] in b && b[0] in a;
      assert a[0] == b[0];
      forall t ensures t in a[1..] <==> t in b[1..] {
        TailMembers(a, t);
        TailMembers(b, t);
      }
      StrictOrderUnique(a[1..], b[1..]);
      assert a == [a[0]] + a[1..] && b == [b[0]] + b[1..];
    }
  }

  lemma HeadIsMember(a: seq<Tagged>)
    ensures a == [] || a[0] in a
  {
  }

  lemma TailMembers(a: seq<Tagged>, t: Tagged)
    requires a != [] && StrictlySorted(a)
    ensures t in a[1..] <==> t in a && t != a[0]
  {
    if t in a && t != a[0] {
      var i :| 0 <= i < |a| && a[i] == t;
      assert a[1..][i - 1] == t;
    }
  }
}
