/** Comparing a password without an early exit. */
module Passwords {
  import opened Encoding
  import opened Options

  /** Bitwise exclusive or of machine words, bit by bit. */
  function Xor(x: nat, y: nat): nat
    decreases x + y
  {
    if x == 0 && y == 0 then 0 else (x + y) % 2 + 2 * Xor(x / 2, y / 2)
  }

  /** Bitwise or. */
  function Or(x: nat, y: nat): nat
    decreases x + y
  {
    if x == 0 && y == 0 then 0 else (if x % 2 + y % 2 > 0 then 1 else 0) + 2 * Or(x / 2, y / 2)
  }

  /** The byte at an index modulo the length; `None` where the length is zero,
      which makes the remainder panic. */
  function Wrapped(b: Bytes, k: nat): Option<byte> {
    if |b| == 0 then None else Some(b[Remainder(k, |b|)])
  }

  function Remainder(k: nat, n: nat): (r: nat)
    requires n > 0
    ensures r < n && (k < n ==> r == k)
  {
    k % n
  }

  /** The fold over the first `n` bytes: it starts from the difference of the
      lengths and gathers the difference of each pair of bytes, wrapping around
      the second string. */
  function Fold(a: Bytes, b: Bytes, n: nat): Option<nat>
    requires n <= |a|
  {
    if n == 0 then Some(Xor(|a|, |b|)) else
      var acc, other := Fold(a, b, n - 1), Wrapped(b, n - 1);
      if acc.None? || other.None? then None
      else Some(Or(acc.value, Xor(a[n - 1] as nat, other.value as nat)))
  }

  function XorContents(a: Bytes, b: Bytes): Option<nat> {
    Fold(a, b, |a|)
  }

  lemma {:induction false} XorZero(x: nat, y: nat)
    ensures Xor(x, y) == 0 <==> x == y
    decreases x + y
  {
    if x != 0 || y != 0 {
      XorZero(x / 2, y / 2);
    }
  }

  lemma {:induction false} OrZero(x: nat, y: nat)
    ensures Or(x, y) == 0 <==> x == 0 && y == 0
    decreases x + y
  {
    if x != 0 || y != 0 {
      OrZero(x / 2, y / 2);
    }
  }

  /** The two strings agree on the first `n` bytes of one, wrapping around the other. */
  ghost predicate Agree(a: Bytes, b: Bytes, n: nat)
    requires n <= |a|
  {
    forall k :: 0 <= k < n ==> Wrapped(b, k) == Some(a[k])
  }

  lemma WrappedInside(b: Bytes, k: nat)
    requires k < |b|
    ensures Wrapped(b, k) == Some(b[k])
  {
  }

  lemma AgreeIsEquality(a: Bytes, b: Bytes)
    requires |a| == |b|
    ensures Agree(a, b, |a|) <==> a == b
  {
    forall k | 0 <= k < |a| ensures Wrapped(b, k) == Some(a[k]) <==> a[k] == b[k] {
      WrappedInside(b, k);
    }
  }

  lemma {:induction false} FoldPanicsIff(a: Bytes, b: Bytes, n: nat)
    requires n <= |a|
    ensures Fold(a, b, n).None? <==> n > 0 && b == []
  {
    if n > 0 {
      FoldPanicsIff(a, b, n - 1);
    }
  }

  lemma {:induction false} FoldZero(a: Bytes, b: Bytes, n: nat)
    requires n <= |a| && Fold(a, b, n).Some?
    ensures Fold(a, b, n).value == 0 <==> |a| == |b| && Agree(a, b, n)
  {
    if n == 0 {
      XorZero(|a|, |b|);
    } else {
      var x, y := a[n - 1], Wrapped(b, n - 1).value;
      FoldZero(a, b, n - 1);
      OrZero(Fold(a, b, n - 1).value, Xor(x as nat, y as nat));
      XorZero(x as nat, y as nat);
    }
  }

  /** The fold is zero exactly when the strings are equal. */
  lemma XorContentsZero(a: Bytes, b: Bytes)
    requires XorContents(a, b).Some?
    ensures XorContents(a, b).value == 0 <==> a == b
  {
    FoldZero(a, b, |a|);
    if |a| == |b| {
      AgreeIsEquality(a, b);
    }
  }

  /** Comparing the stored password with the one given. `None` is a panic. */
  function Matches(stored: Bytes, given: Bytes): (r: Option<bool>)
    ensures r.None? <==> stored != [] && given == []
  {
    FoldPanicsIff(stored, given, |stored|);
    if stored == [] then Some(given == []) else
      var bits := XorContents(stored, given);
      if bits.None? then None else Some(bits.value == 0)
  }

  /** Comparing with the password of a cookie file, if one could be read. */
  function MatchesCookie(cookie: Option<Bytes>, given: Bytes): Option<bool> {
    if cookie.None? then Some(false) else Matches(cookie.value, given)
  }

  /** The comparison panics exactly when a password is stored and none is given,
      and is equality otherwise. */
  lemma MatchesIsEquality(stored: Bytes, given: Bytes)
    ensures Matches(stored, given) == if stored != [] && given == [] then None else Some(stored == given)
  {
    if XorContents(stored, given).Some? {
      XorContentsZero(stored, given);
    }
  }

  lemma CookieMatchesIsEquality(cookie: Option<Bytes>, given: Bytes)
    ensures MatchesCookie(cookie, given) ==
            if cookie.Some? && cookie.value != [] && given == [] then None else Some(cookie == Some(given))
  {
    if cookie.Some? {
      MatchesIsEquality(cookie.value, given);
    }
  }
}
