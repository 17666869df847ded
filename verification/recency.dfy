/** The recency list shared by query history and recent projects: drop every
    entry with the new entry's key, put the new entry first, and keep at most
    `cap` entries, the newest ones. */
module Recency {

  /** The first `n` entries of `xs`, or all of them when there are fewer. */
  function Take<T>(xs: seq<T>, n: nat): (r: seq<T>)
    ensures |r| == if n < |xs| then n else |xs|
    ensures r == xs[..|r|]
  {
    if n < |xs| then xs[..n] else xs
  }

  /** `a` occurs in `b` with its order kept, possibly with gaps. */
  predicate SubsequenceOf<T(==)>(a: seq<T>, b: seq<T>)
    decreases |b|
  {
    if a == [] then true
    else if b == [] then false
    else if a[0] == b[0] then SubsequenceOf(a[1..], b[1..])
    else SubsequenceOf(a, b[1..])
  }

  /** The entries of `xs` whose key is not `k`, in their original order. */
  function Without<T(==), K(==)>(xs: seq<T>, key: T -> K, k: K): (r: seq<T>)
    ensures |r| <= |xs|
    ensures forall i | 0 <= i < |r| :: key(r[i]) != k
    ensures forall i | 0 <= i < |r| :: r[i] in xs
    ensures forall i | 0 <= i < |xs| && key(xs[i]) != k :: xs[i] in r
  {
    if xs == [] then []
    else if key(xs[0]) != k then [xs[0]] + Without(xs[1..], key, k)
    else Without(xs[1..], key, k)
  }

  /** No entry of `xs` has key `k`. */
  predicate KeyAbsent<T, K(==)>(xs: seq<T>, key: T -> K, k: K) {
    forall i | 0 <= i < |xs| :: key(xs[i]) != k
  }

  /** Insert `entry` at the front of the recency list `xs` capped at `cap`. */
  function Promote<T(==), K(==)>(xs: seq<T>, entry: T, key: T -> K, cap: nat): (r: seq<T>)
    requires cap >= 1
    ensures r == [entry] + Take(Without(xs, key, key(entry)), cap - 1)
    ensures 1 <= |r| <= cap
    ensures r[0] == entry
    ensures forall i | 1 <= i < |r| :: key(r[i]) != key(entry)
    // an entry with another key is only pushed out when the list is full
    ensures forall i | 0 <= i < |xs| && key(xs[i]) != key(entry) && xs[i] !in r ::
              |r| == cap
  {
    var kept := Without(xs, key, key(entry));
    var r := Take([entry] + kept, cap);
    assert r == [entry] + Take(kept, cap - 1);
    r
  }

  /** Removing the entries with key `k` keeps the rest in order. */
  lemma {:induction false} TakeWithoutIsSubsequence<T, K>(xs: seq<T>, key: T -> K, k: K, n: nat)
    ensures SubsequenceOf(Take(Without(xs, key, k), n), xs)
    decreases |xs|
  {
    var t := Take(Without(xs, key, k), n);
    if xs == [] || t == [] {
    } else {
      var rest := Without(xs[1..], key, k);
      if key(xs[0]) != k {
        assert Without(xs, key, k) == [xs[0]] + rest;
        assert t == [xs[0]] + Take(rest, n - 1);
        TakeWithoutIsSubsequence(xs[1..], key, k, n - 1);
      } else {
        assert Without(xs, key, k) == rest;
        assert t == Take(rest, n);
        assert key(t[0]) != k;
        TakeWithoutIsSubsequence(xs[1..], key, k, n);
      }
    }
  }

  /** A subsequence of the tail of `b` is a subsequence of `b`. */
  lemma {:induction false} SubsequenceOfTail<T>(a: seq<T>, b: seq<T>)
    requires b != [] && SubsequenceOf(a, b[1..])
    ensures SubsequenceOf(a, b)
    decreases |b|, 0
  {
    if a != [] && a[0] == b[0] {
      SubsequenceDropFirst(a, b[1..]);
    }
  }

  /** Dropping the first element of a subsequence leaves a subsequence. */
  lemma {:induction false} SubsequenceDropFirst<T>(a: seq<T>, b: seq<T>)
    requires a != [] && SubsequenceOf(a, b)
    ensures SubsequenceOf(a[1..], b)
    decreases |b|, 1
  {
    if a[0] == b[0] {
      assert SubsequenceOf(a[1..], b[1..]);
    } else {
      SubsequenceDropFirst(a, b[1..]);
    }
    SubsequenceOfTail(a[1..], b);
  }

  /** The entries that survive a promotion keep their relative order. */
  lemma PromoteKeepsOrder<T, K>(xs: seq<T>, entry: T, key: T -> K, cap: nat)
    requires cap >= 1
    ensures SubsequenceOf(Promote(xs, entry, key, cap)[1..], xs)
  {
    var r := Promote(xs, entry, key, cap);
    assert r[1..] == Take(Without(xs, key, key(entry)), cap - 1);
    TakeWithoutIsSubsequence(xs, key, key(entry), cap - 1);
  }

  /** Removing a key that no entry has changes nothing. */
  lemma {:induction false} WithoutAbsentKey<T, K>(xs: seq<T>, key: T -> K, k: K)
    requires KeyAbsent(xs, key, k)
    ensures Without(xs, key, k) == xs
    decreases |xs|
  {
    if xs != [] {
      assert key(xs[0]) != k;
      WithoutAbsentKey(xs[1..], key, k);
      assert [xs[0]] + xs[1..] == xs;
    }
  }

  /** A new key goes in front of the whole list when there is room, and
      pushes out exactly the oldest entry when the list is full. */
  lemma PromoteNewKey<T, K>(xs: seq<T>, entry: T, key: T -> K, cap: nat)
    requires cap >= 1
    requires KeyAbsent(xs, key, key(entry))
    ensures |xs| < cap ==> Promote(xs, entry, key, cap) == [entry] + xs
    ensures |xs| >= cap ==> Promote(xs, entry, key, cap) == [entry] + xs[..cap - 1]
  {
    WithoutAbsentKey(xs, key, key(entry));
  }

  /** Promoting two entries with the same key in a row leaves the list as if
      only the second had been promoted: the first leaves no trace. */
  lemma PromoteSameKeyTwice<T, K>(xs: seq<T>, first: T, second: T, key: T -> K, cap: nat)
    requires cap >= 1
    requires key(first) == key(second)
    ensures Promote(Promote(xs, first, key, cap), second, key, cap) == Promote(xs, second, key, cap)
  {
    var k := key(first);
    var once := Promote(xs, first, key, cap);
    var tail := Take(Without(xs, key, k), cap - 1);
    assert once == [first] + tail;
    assert Without(once, key, k) == Without(tail, key, k) by {
      assert once[0] == first && once[1..] == tail;
    }
    WithoutAbsentKey(tail, key, k);
    assert Take(tail, cap - 1) == tail;
  }
}
