/** The JavaScript array operations the core relies on: `splice` to remove or
    insert one element, `slice` with its negative-index rules, and a stable `sort`
    by an integer key. */
module Sequences {

  function Min(a: int, b: int): int { if a <= b then a else b }
  function Max(a: int, b: int): int { if a >= b then a else b }

  /** `s.splice(i, 1)` for an index inside the array. */
  function RemoveAt<T>(s: seq<T>, i: nat): seq<T>
    requires i < |s|
  {
    s[..i] + s[i + 1..]
  }

  /** `s.splice(i, 0, x)`: an index past the end inserts at the end. */
  function InsertAt<T>(s: seq<T>, i: nat, x: T): seq<T> {
    s[..Min(i, |s|)] + [x] + s[Min(i, |s|)..]
  }

  /** Remove the element at `from`, then insert it at `to` of what is left: the
      move both the reorder endpoint and the drag-and-drop list perform. The
      moved element lands at `to`, or last when `to` is past the end, and
      taking it out again leaves the others exactly as taking it out of the
      input does, so their relative order is kept. */
  function Move<T>(s: seq<T>, from: nat, to: nat): (r: seq<T>)
    requires from < |s|
    ensures |r| == |s|
    ensures multiset(r) == multiset(s)
    ensures r[Min(to, |s| - 1)] == s[from]
    ensures RemoveAt(r, Min(to, |s| - 1)) == RemoveAt(s, from)
  {
    var rest := RemoveAt(s, from);
    var at := Min(to, |rest|);
    var r := rest[..at] + [s[from]] + rest[at..];
    assert s == s[..from] + [s[from]] + s[from + 1..];
    assert rest == rest[..at] + rest[at..];
    assert multiset(rest) == multiset(s[..from]) + multiset(s[from + 1..]);
    assert multiset(s) == multiset(s[..from]) + multiset{s[from]} + multiset(s[from + 1..]);
    assert multiset(rest) == multiset(rest[..at]) + multiset(rest[at..]);
    assert multiset(r) == multiset(rest[..at]) + multiset{s[from]} + multiset(rest[at..]);
    assert multiset(r) == multiset(rest) + multiset{s[from]};
    assert multiset(r) == multiset(s);
    assert r[..at] == rest[..at] && r[at + 1..] == rest[at..];
    r
  }

  /** Moving an element onto its own position changes nothing. */
  lemma MoveToSelf<T>(s: seq<T>, i: nat)
    requires i < |s|
    ensures Move(s, i, i) == s
  {
    assert s == s[..i] + [s[i]] + s[i + 1..];
    assert RemoveAt(s, i)[..i] == s[..i];
    assert RemoveAt(s, i)[i..] == s[i + 1..];
  }

  /** A move between two positions of a prefix only touches that prefix: the
      prefix of the moved sequence is the moved prefix. */
  lemma MovePrefix<T>(s: seq<T>, m: nat, from: nat, to: nat)
    requires from < m && to < m && m <= |s|
    ensures Move(s, from, to)[..m] == Move(s[..m], from, to)
  {
    var p := s[..m];
    var rest, restP := RemoveAt(s, from), RemoveAt(p, from);
    assert restP == rest[..m - 1];
    var at := Min(to, |rest|);
    assert at == Min(to, |restP|) == to;
    var big := rest[..at] + [s[from]] + rest[at..];
    var small := restP[..at] + [p[from]] + restP[at..];
    assert rest[..at] == restP[..at];
    assert restP[at..] == rest[at..m - 1];
    assert big[..m] == rest[..at] + [s[from]] + rest[at..m - 1];
  }

  /** `s.slice(start, end)`: a negative index counts from the end, and both are
      clamped to the array. */
  function ClampIndex(i: int, len: nat): (k: nat)
    ensures k <= len
  {
    if i < 0 then Max(len + i, 0) else Min(i, len)
  }

  function Slice<T>(s: seq<T>, start: int, end: int): (r: seq<T>)
    ensures |r| <= |s|
    ensures 0 <= start <= end ==> r == s[Min(start, |s|)..Min(end, |s|)]
  {
    var a, b := ClampIndex(start, |s|), ClampIndex(end, |s|);
    if a < b then s[a..b] else []
  }

  /** A slice is never longer than the distance between its bounds, when the
      end is not before the start. */
  lemma SliceLength<T>(s: seq<T>, start: int, end: int)
    requires start <= end
    ensures |Slice(s, start, end)| <= Max(end - start, 0)
  {
  }

  predicate SortedBy<T>(s: seq<T>, key: T -> int) {
    forall i, j :: 0 <= i < j < |s| ==> key(s[i]) <= key(s[j])
  }

  /** Inserts `x` after every element whose key is not greater than its own. */
  function Insert<T>(x: T, s: seq<T>, key: T -> int): (r: seq<T>)
    ensures |r| == |s| + 1
    ensures multiset(r) == multiset(s) + multiset{x}
  {
    if |s| == 0 then [x]
    else if key(x) < key(s[0]) then [x] + s
    else
      assert s == [s[0]] + s[1..];
      [s[0]] + Insert(x, s[1..], key)
  }

  /** Inserting into an ordered sequence keeps it ordered. */
  lemma {:induction false} InsertSorted<T>(x: T, s: seq<T>, key: T -> int)
    requires SortedBy(s, key)
    ensures SortedBy(Insert(x, s, key), key)
  {
    if |s| > 0 && key(x) >= key(s[0]) {
      var t := Insert(x, s[1..], key);
      InsertSorted(x, s[1..], key);
      forall k | 0 <= k < |t| ensures key(s[0]) <= key(t[k]) {
        assert t[k] in multiset(t);
        assert t[k] in multiset(s[1..]) || t[k] == x;
      }
    }
  }

  /** `xs.sort((a, b) => key(a) - key(b))`: a stable insertion sort. The result
      is ordered by the key and is a permutation of the input. */
  function SortBy<T>(xs: seq<T>, key: T -> int): (r: seq<T>)
    ensures |r| == |xs|
    ensures multiset(r) == multiset(xs)
    ensures SortedBy(r, key)
  {
    if |xs| == 0 then []
    else
      var n := |xs| - 1;
      assert xs == xs[..n] + [xs[n]];
      InsertSorted(xs[n], SortBy(xs[..n], key), key);
      Insert(xs[n], SortBy(xs[..n], key), key)
  }

  /** `xs.filter(p)`. */
  function Filter<T>(xs: seq<T>, p: T -> bool): (r: seq<T>)
    ensures |r| <= |xs|
    ensures forall k :: 0 <= k < |r| ==> r[k] in xs && p(r[k])
    ensures forall k :: 0 <= k < |xs| && p(xs[k]) ==> xs[k] in r
  {
    if |xs| == 0 then []
    else
      var rest := Filter(xs[1..], p);
      assert xs == [xs[0]] + xs[1..];
      if p(xs[0]) then [xs[0]] + rest else rest
  }

  /** A filter every element passes keeps the sequence. */
  lemma {:induction false} FilterAll<T>(xs: seq<T>, p: T -> bool)
    requires forall k :: 0 <= k < |xs| ==> p(xs[k])
    ensures Filter(xs, p) == xs
  {
    if |xs| > 0 {
      FilterAll(xs[1..], p);
    }
  }

  /** Filtering a concatenation filters each part. */
  lemma {:induction false} FilterConcat<T>(a: seq<T>, b: seq<T>, p: T -> bool)
    ensures Filter(a + b, p) == Filter(a, p) + Filter(b, p)
  {
    if |a| == 0 {
      assert a + b == b;
    } else {
      assert (a + b)[1..] == a[1..] + b;
      FilterConcat(a[1..], b, p);
    }
  }

  /** Filtering an appended element: it is kept exactly when it passes. */
  lemma {:induction false} FilterSnoc<T>(xs: seq<T>, x: T, p: T -> bool)
    ensures Filter(xs + [x], p) == Filter(xs, p) + (if p(x) then [x] else [])
  {
    if |xs| == 0 {
      assert xs + [x] == [x];
      assert [x][1..] == [];
    } else {
      assert (xs + [x])[1..] == xs[1..] + [x];
      FilterSnoc(xs[1..], x, p);
    }
  }

  /** A filter keeps every copy of an element that passes and none of one that fails. */
  lemma {:induction false} FilterMultiset<T>(xs: seq<T>, p: T -> bool)
    ensures forall x :: multiset(Filter(xs, p))[x] == if p(x) then multiset(xs)[x] else 0
  {
    if |xs| > 0 {
      FilterMultiset(xs[1..], p);
      assert xs == [xs[0]] + xs[1..];
      assert multiset(xs) == multiset{xs[0]} + multiset(xs[1..]);
    }
  }

  /** Dropping the first element of a concatenation drops it from the first part. */
  lemma TailOfAppend<T>(a: seq<T>, b: seq<T>)
    requires |a| > 0
    ensures (a + b)[0] == a[0] && (a + b)[1..] == a[1..] + b
  {
  }

  lemma AppendAssoc<T>(x: seq<T>, y: seq<T>, z: seq<T>)
    ensures x + (y + z) == (x + y) + z
  {
  }

  /** No two positions of `s` share a key. */
  predicate KeyUnique<T, K(==)>(s: seq<T>, key: T -> K) {
    forall i, j :: 0 <= i < j < |s| ==> key(s[i]) != key(s[j])
  }

  /** With unique keys no value occurs twice. */
  lemma {:induction false} KeyUniqueOccursOnce<T, K>(s: seq<T>, key: T -> K, x: T)
    requires KeyUnique(s, key)
    ensures multiset(s)[x] <= 1
  {
    if |s| > 0 {
      var n := |s| - 1;
      assert s == s[..n] + [s[n]];
      KeyUniqueOccursOnce(s[..n], key, x);
      assert x == s[n] ==> x !in s[..n];
    }
  }

  /** A value found at two positions occurs at least twice. */
  lemma TwoPositions<T>(s: seq<T>, i: nat, j: nat)
    requires i < j < |s| && s[i] == s[j]
    ensures multiset(s)[s[i]] >= 2
  {
    assert s == s[..j] + s[j..];
    assert s[i] in s[..j];
    assert s[j] in s[j..];
  }

  /** Two permutations of each other hold the same elements. */
  lemma SameElements<T>(a: seq<T>, b: seq<T>)
    requires multiset(a) == multiset(b)
    ensures forall k :: 0 <= k < |a| ==> a[k] in b
    ensures forall k :: 0 <= k < |b| ==> b[k] in a
  {
    forall k | 0 <= k < |a| ensures a[k] in b { assert a[k] in multiset(b); }
    forall k | 0 <= k < |b| ensures b[k] in a { assert b[k] in multiset(a); }
  }

  /** Appending an element whose key is new keeps the keys unique. */
  lemma KeyUniqueSnoc<T, K>(s: seq<T>, x: T, key: T -> K)
    requires KeyUnique(s, key)
    requires forall k :: 0 <= k < |s| ==> key(s[k]) != key(x)
    ensures KeyUnique(s + [x], key)
  {
    var t := s + [x];
    forall i, j | 0 <= i < j < |t| ensures key(t[i]) != key(t[j]) {
      if j < |s| { assert t[i] == s[i] && t[j] == s[j]; } else { assert t[i] == s[i] && t[j] == x; }
    }
  }

  /** Unique keys survive a permutation. */
  lemma KeyUniquePermutation<T, K>(a: seq<T>, b: seq<T>, key: T -> K)
    requires multiset(a) == multiset(b)
    requires KeyUnique(a, key)
    ensures KeyUnique(b, key)
  {
    forall i, j | 0 <= i < j < |b| ensures key(b[i]) != key(b[j]) {
      assert b[i] in multiset(a) && b[j] in multiset(a);
      if b[i] == b[j] {
        TwoPositions(b, i, j);
        KeyUniqueOccursOnce(a, key, b[i]);
      } else {
        var p :| 0 <= p < |a| && a[p] == b[i];
        var q :| 0 <= q < |a| && a[q] == b[j];
        assert p != q;
        if p < q { assert key(a[p]) != key(a[q]); } else { assert key(a[q]) != key(a[p]); }
      }
    }
  }
}
